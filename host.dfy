/**
 * What the engine receives from its host: the file system, the HTML parser, the digest function and
 * the settings. Each I/O call the source makes becomes a field that is applied, never executed.
 */
module Host {
  import opened Wrappers
  import opened DocTypes

  /** A top-level element of the parsed `<body>`: lower-cased tag name, `lang` and `scope` attributes (None when absent), inner and outer markup. */
  datatype Element = Element(tag: string, lang: Option<string>, scope: Option<string>, innerHTML: string, outerHTML: string)

  datatype Io = Io(
    createId: string -> string,          // `Document.createId`: the md5 hex digest, deterministic
    // klaw-sync: every path below a directory, in visiting order; None when it throws.
    // Every directory is descended into and the filter is applied to the result afterwards.
    walk: string -> Option<seq<string>>,
    readdir: string -> Option<seq<string>>, // `fs.readdirSync`: the entry names of a directory; None when it throws
    readFile: string -> Option<string>,  // `fs.readFileSync(p, 'utf8')`; None when the file is missing
    parseBody: string -> seq<Element>,   // jsdom: the children of `document.body` for the given markup
    isSplitMode: string -> bool)         // the split decision src/libs/member.ts asks of `Parallel`

  /** The extension settings (`config.scriptExts` …, `sfcExts`, `isSplitSFC`) and the directory settings. */
  datatype Settings = Settings(
    exts: Extnames,
    dirs: ByType<seq<string>>,           // `scriptDirs`, `styleDirs`, `templateDirs`
    componentDirs: seq<string>,
    sfcExts: seq<string>,
    isSplitSFC: bool)
  {
    /** `[...scriptDirs, ...styleDirs, ...templateDirs, ...componentDirs]`. */
    function AllDirs(): seq<string> {
      dirs.script + dirs.style + dirs.template + componentDirs
    }
  }
}
