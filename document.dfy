/** Documents and URI parsing (src/libs/document.ts; `parseUri` of src/component.ts is the same code). */
module Documents {
  import opened DocTypes
  import Utils

  /** A member document. `isClosed` is set once and never changed by the modelled code. */
  datatype Document = Document(docType: DocType, uri: string, id: string, isClosed: bool)

  /** `new Document(type, uri)`, with the md5 digest taken as the given `createId`. */
  function NewDocument(t: DocType, uri: string, createId: string -> string): (d: Document)
    ensures d.docType == t && d.uri == uri && d.isClosed
    ensures d.id == createId(uri)
  {
    Document(t, uri, createId(uri), true)
  }

  datatype ParsedUri = ParsedUri(ext: string, name: string, base: string, dir: string, folder: string, fullpath: string)

  /** `Document.parseUri`: the fields of `IPath.parse` without `path`. */
  function ParseUri(uri: string): (r: ParsedUri)
    ensures r.fullpath == r.dir + "/" + r.base
    ensures r.folder == Utils.Folder(r.dir)
    ensures r.name + r.ext == r.base
    ensures var ip := Utils.Parse(uri);
      r.ext == ip.ext && r.name == ip.name && r.base == ip.base && r.dir == ip.dir
      && r.folder == ip.folder && r.fullpath == ip.fullpath
  {
    var ip := Utils.Parse(uri);
    ParsedUri(ip.ext, ip.name, ip.base, ip.dir, ip.folder, ip.dir + "/" + ip.base)
  }
}
