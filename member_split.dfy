/**
 * The split mode of src/libs/member.ts. Unlike `VueSpliter`, it writes each script and template
 * element to its fragment file as soon as it meets it, gathers every other element into one style
 * file written at the end, and returns a `Document` per type (the style one always).
 */
module MemberSplit {
  import opened Wrappers
  import opened Text
  import opened DocTypes
  import opened Host
  import Utils
  import Glob
  import Documents
  import Discovery
  import Spliter

  /** `createFile(props)`: `${dir}/${base}.${ext}` with one leading '.' removed from `ext`. */
  function FragmentPath(dir: string, base: string, ext: string): (r: string)
    ensures StartsWith(r, dir + "/")
  {
    dir + "/" + base + "." + StripPrefix(ext, ".")
  }

  /** Elements other than `script` and `template` (a masked `stylesheet` among them) feed the style file. */
  predicate StyleFed(e: Element) {
    e.tag != "script" && e.tag != "template"
  }

  /** `lang || TYPES[type]` for a script or template element. */
  function ExtOf(e: Element): string {
    if Truthy(e.lang) then e.lang.value else if e.tag == "script" then "js" else "html"
  }

  // ----- reference definitions of what the loop accumulates -----

  /** The inner markup of the style-fed elements, in document order. */
  function StyleContents(elems: seq<Element>): (r: seq<string>)
    ensures |r| <= |elems|
  {
    if |elems| == 0 then []
    else
      var e := elems[|elems| - 1];
      StyleContents(elems[..|elems| - 1]) + (if StyleFed(e) then [e.innerHTML] else [])
  }

  /** The `lang` of the last style-fed element that has a non-empty one, `css` when there is none. */
  function StyleLang(elems: seq<Element>): (r: string)
    ensures r != ""
  {
    if |elems| == 0 then "css"
    else
      var e := elems[|elems| - 1];
      if StyleFed(e) && Truthy(e.lang) then e.lang.value else StyleLang(elems[..|elems| - 1])
  }

  /** The last element with tag `tag`. */
  function LastOf(elems: seq<Element>, tag: string): (r: Option<Element>)
    ensures r.Some? ==> r.value in elems && r.value.tag == tag
    ensures r.None? <==> forall i :: 0 <= i < |elems| ==> elems[i].tag != tag
  {
    if |elems| == 0 then None
    else if elems[|elems| - 1].tag == tag then Some(elems[|elems| - 1])
    else LastOf(elems[..|elems| - 1], tag)
  }

  /** The write of one script or template element: its fragment path and its inner markup. */
  function ElementWrite(dir: string, base: string, e: Element): (string, string) {
    (FragmentPath(dir, base, ExtOf(e)), e.innerHTML)
  }

  /** The writes made inside the loop, one per script or template element, in document order. */
  function ElementWrites(dir: string, base: string, elems: seq<Element>): (r: seq<(string, string)>)
    ensures |r| <= |elems|
    ensures forall i :: 0 <= i < |r| ==> StartsWith(r[i].0, dir + "/")
  {
    if |elems| == 0 then []
    else
      var e := elems[|elems| - 1];
      ElementWrites(dir, base, elems[..|elems| - 1]) + (if StyleFed(e) then [] else [ElementWrite(dir, base, e)])
  }

  /** The `Document` of a written element. */
  function DocOf(t: DocType, dir: string, base: string, e: Option<Element>, createId: string -> string): (r: Option<Documents.Document>)
    ensures r.Some? <==> e.Some?
  {
    if e.Some? then Some(Documents.NewDocument(t, FragmentPath(dir, base, ExtOf(e.value)), createId)) else None
  }

  /** The style file: its path carries the style language, its content is the style contents as Node writes an array (comma-joined). */
  function StyleWrite(dir: string, base: string, elems: seq<Element>): (w: (string, string))
    ensures StartsWith(w.0, dir + "/")
  {
    (FragmentPath(dir, base, StyleLang(elems)), Join(StyleContents(elems), ","))
  }

  /** The returned `docs`: the last script, the always-present style, the last template. */
  function SplitDocs(dir: string, base: string, elems: seq<Element>, createId: string -> string): (r: ByType<Option<Documents.Document>>)
    ensures r.style.Some? && r.style.value.docType == Style && r.style.value.uri == StyleWrite(dir, base, elems).0
    ensures r.script.Some? <==> exists i :: 0 <= i < |elems| && elems[i].tag == "script"
    ensures r.template.Some? <==> exists i :: 0 <= i < |elems| && elems[i].tag == "template"
  {
    ByType(DocOf(Script, dir, base, LastOf(elems, "script"), createId),
           Some(Documents.NewDocument(Style, StyleWrite(dir, base, elems).0, createId)),
           DocOf(Template, dir, base, LastOf(elems, "template"), createId))
  }

  /** Every write of `split`, in order: the script and template elements, then the style file. */
  function SplitWrites(dir: string, base: string, elems: seq<Element>): (w: seq<(string, string)>)
    ensures |w| >= 1 && w[|w| - 1] == StyleWrite(dir, base, elems)
    ensures forall i :: 0 <= i < |w| ==> StartsWith(w[i].0, dir + "/")
  {
    ElementWrites(dir, base, elems) + [StyleWrite(dir, base, elems)]
  }

  /** The state `split` keeps while walking the elements. */
  datatype Walk = Walk(docs: ByType<Option<Documents.Document>>, styleLang: string, styleContents: seq<string>, writes: seq<(string, string)>)

  /** What the walk holds after the elements `elems`. */
  function WalkAfter(dir: string, base: string, elems: seq<Element>, createId: string -> string): Walk {
    Walk(ByType(DocOf(Script, dir, base, LastOf(elems, "script"), createId), None, DocOf(Template, dir, base, LastOf(elems, "template"), createId)),
         StyleLang(elems), StyleContents(elems), ElementWrites(dir, base, elems))
  }

  /** One turn of the `forEach`: a script or template element is written and becomes that type's document; any other element feeds the style file. */
  function WalkStep(w: Walk, dir: string, base: string, e: Element, createId: string -> string): Walk {
    if StyleFed(e) then
      w.(styleLang := if Truthy(e.lang) then e.lang.value else w.styleLang, styleContents := w.styleContents + [e.innerHTML])
    else
      var file := FragmentPath(dir, base, ExtOf(e));
      var doc := Some(Documents.NewDocument(if e.tag == "script" then Script else Template, file, createId));
      w.(docs := if e.tag == "script" then w.docs.(script := doc) else w.docs.(template := doc), writes := w.writes + [(file, e.innerHTML)])
  }

  lemma WalkAfterStep(dir: string, base: string, elems: seq<Element>, i: nat, createId: string -> string)
    requires i < |elems|
    ensures WalkAfter(dir, base, elems[..i + 1], createId) == WalkStep(WalkAfter(dir, base, elems[..i], createId), dir, base, elems[i], createId)
  {
    assert elems[..i + 1][..i] == elems[..i];
  }

  /**
   * `split()` of src/libs/member.ts for the component at `path`: the returned documents and the
   * writes made, in order; a missing component file makes `readFileSync` throw.
   */
  method Split(root: string, path: string, io: Io) returns (r: Result<(ByType<Option<Documents.Document>>, seq<(string, string)>), Error>)
    ensures io.readFile(path).None? ==> r == Failure(NoSuchFile(path))
    ensures io.readFile(path).Some? ==>
              var dir := Spliter.TempDir(root, io.createId(path));
              var base := Utils.Parse(path).base;
              var elems := io.parseBody(Spliter.BodyMarkup(io.readFile(path).value));
              r == Success((SplitDocs(dir, base, elems, io.createId), SplitWrites(dir, base, elems)))
  {
    var text := io.readFile(path);
    if text.None? {
      return Failure(NoSuchFile(path));
    }
    var children := io.parseBody(Spliter.BodyMarkup(text.value));
    var dir := Spliter.TempDir(root, io.createId(path));
    var base := Utils.Parse(path).base;
    var styleLang := "css";
    var styleContents: seq<string> := [];
    var docs: ByType<Option<Documents.Document>> := ByType(None, None, None);
    var writes: seq<(string, string)> := [];
    for i := 0 to |children|
      invariant Walk(docs, styleLang, styleContents, writes) == WalkAfter(dir, base, children[..i], io.createId)
    {
      var elem := children[i];
      WalkAfterStep(dir, base, children, i, io.createId);
      if elem.tag == "script" || elem.tag == "template" {
        var file := FragmentPath(dir, base, ExtOf(elem));
        writes := writes + [(file, elem.innerHTML)];
        if elem.tag == "script" {
          docs := docs.(script := Some(Documents.NewDocument(Script, file, io.createId)));
        } else {
          docs := docs.(template := Some(Documents.NewDocument(Template, file, io.createId)));
        }
      } else {
        styleLang := if Truthy(elem.lang) then elem.lang.value else styleLang;
        styleContents := styleContents + [elem.innerHTML];
      }
    }
    assert children[..|children|] == children;
    var styleFile := FragmentPath(dir, base, styleLang);
    writes := writes + [(styleFile, Join(styleContents, ","))];
    docs := docs.(style := Some(Documents.NewDocument(Style, styleFile, io.createId)));
    return Success((docs, writes));
  }

  // ----- properties of the split -----

  /** A later script (template) element overrides an earlier one: the document is that of the last such element. */
  lemma {:induction false} LastElementWins(elems: seq<Element>, tag: string, i: nat)
    requires i < |elems| && elems[i].tag == tag
    requires forall j :: i < j < |elems| ==> elems[j].tag != tag
    ensures LastOf(elems, tag) == Some(elems[i])
  {
    if i < |elems| - 1 {
      var init := elems[..|elems| - 1];
      assert init[i] == elems[i];
      LastElementWins(init, tag, i);
    }
  }

  /** The style language is the last non-empty `lang` among the style-fed elements. */
  lemma {:induction false} StyleLangIsLastLang(elems: seq<Element>, i: nat)
    requires i < |elems| && StyleFed(elems[i]) && Truthy(elems[i].lang)
    requires forall j :: i < j < |elems| ==> !(StyleFed(elems[j]) && Truthy(elems[j].lang))
    ensures StyleLang(elems) == elems[i].lang.value
  {
    if i < |elems| - 1 {
      var init := elems[..|elems| - 1];
      assert init[i] == elems[i];
      StyleLangIsLastLang(init, i);
    }
  }

  /** With no style-fed element carrying a `lang`, the style file is a `.css` file. */
  lemma {:induction false} StyleLangDefault(elems: seq<Element>)
    requires forall j :: 0 <= j < |elems| ==> !(StyleFed(elems[j]) && Truthy(elems[j].lang))
    ensures StyleLang(elems) == "css"
  {
    if |elems| > 0 {
      StyleLangDefault(elems[..|elems| - 1]);
    }
  }

  /** The style contents are exactly the inner markup of the style-fed elements, in document order. */
  lemma {:induction false} StyleContentsAreStyleFed(elems: seq<Element>)
    ensures StyleContents(elems) == seq(|Where(elems, StyleFed)|, k requires 0 <= k < |Where(elems, StyleFed)| => Where(elems, StyleFed)[k].innerHTML)
  {
    if |elems| > 0 {
      StyleContentsAreStyleFed(elems[..|elems| - 1]);
    }
  }

  /** Every file the split writes lies in the component's split directory. */
  lemma WritesInSplitDir(root: string, id: string, base: string, elems: seq<Element>)
    ensures forall i :: 0 <= i < |SplitWrites(Spliter.TempDir(root, id), base, elems)| ==>
              Glob.InSplitDir(SplitWrites(Spliter.TempDir(root, id), base, elems)[i].0)
  {
    var dir := Spliter.TempDir(root, id);
    var w := SplitWrites(dir, base, elems);
    forall i | 0 <= i < |w|
      ensures Glob.InSplitDir(w[i].0)
    {
      var name := w[i].0[|dir| + 1..];
      assert w[i].0 == dir + "/" + name;
      Glob.TempFileInSplitDir(root, id, name);
    }
  }

  // ----- getCandidates -----

  /** `files[type] = doc ? [doc.path] : []`: a `Document` has no `path`, so a present one gives `[undefined]`. */
  function Entries(docs: ByType<Option<Documents.Document>>): (r: ByType<seq<Option<string>>>)
    ensures forall t :: docs.Get(t).Some? ==> r.Get(t) == [None]
    ensures forall t :: docs.Get(t).None? ==> r.Get(t) == []
  {
    var entry := (d: Option<Documents.Document>) => if d.Some? then [None] else [];
    ByType(entry(docs.script), entry(docs.style), entry(docs.template))
  }

  /** What the split branch of `getCandidates` yields. */
  function SplitOutcome(root: string, path: string, io: Io): (r: Result<Discovery.MemberFiles, Error>)
    ensures r.Success? ==> r.value.SplitMode?
  {
    match io.readFile(path)
    case None => Failure(NoSuchFile(path))
    case Some(text) =>
      var docs := SplitDocs(Spliter.TempDir(root, io.createId(path)), Utils.Parse(path).base, io.parseBody(Spliter.BodyMarkup(text)), io.createId);
      Success(Discovery.SplitMode(Entries(docs), Some(docs)))
  }

  /** What `getCandidates` yields for the member family. */
  function Outcome(io: Io, settings: Settings, root: string, path: string): (r: Result<Discovery.MemberFiles, Error>)
    ensures r.Success? ==> !r.value.Stored?
  {
    if io.isSplitMode(path) then SplitOutcome(root, path, io)
    else Discovery.SiblingOutcome(Discovery.MemberFamily, io, settings, root, path)
  }

  /** `MemberSplitMode.getCandidates()`: split when the host says so, otherwise the sibling strategy (which may fall back to the cross one). */
  method SplitCandidates(io: Io, settings: Settings, root: string, path: string) returns (r: Result<Discovery.MemberFiles, Error>)
    ensures io.isSplitMode(path) ==> r == SplitOutcome(root, path, io)
    ensures !io.isSplitMode(path) ==> r == Discovery.SiblingOutcome(Discovery.MemberFamily, io, settings, root, path)
    ensures r == Outcome(io, settings, root, path)
  {
    if io.isSplitMode(path) {
      var docs := Split(root, path, io);
      match docs
      case Failure(e) => return Failure(e);
      case Success(split) =>
        var entries := Entries(split.0);
        return Success(Discovery.SplitMode(entries, Some(split.0)));
    } else {
      r := Discovery.SiblingCandidates(Discovery.MemberFamily, io, settings, root, path);
    }
  }

  /** A split record always lists the style type, and no entry names a file: every first entry is `undefined`. */
  lemma SplitRecordShape(root: string, path: string, io: Io)
    requires SplitOutcome(root, path, io).Success?
    ensures var files := SplitOutcome(root, path, io).value;
      files.SplitMode? && files.entries.style == [None] && files.documents.Some? && files.documents.value.style.Some?
      && forall t :: Discovery.First(files, t).None?
  {
    var files := SplitOutcome(root, path, io).value;
    SplitModeShape(files.documents.value);
  }

  /** The record built from split documents with a style document lists the style type and names no file. */
  lemma SplitModeShape(docs: ByType<Option<Documents.Document>>)
    requires docs.style.Some?
    ensures var files := Discovery.SplitMode(Entries(docs), Some(docs));
      files.entries.style == [None] && forall t :: Discovery.First(files, t).None?
  {
    assert docs.Get(Style) == docs.style;
    assert Entries(docs).Get(Style) == Entries(docs).style;
  }
}
