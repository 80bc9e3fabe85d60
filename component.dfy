/**
 * The component as the editor sees it: the memoised record of the files that make it up.
 * `Components.Component` models src/component.ts (which ranks the sibling files itself);
 * `Components.MemberComponent` models src/libs/component.ts (which asks a resolved member).
 * Both fill the record with the same three `if`s, captured once by `Completed`.
 */
module Components {
  import opened Wrappers
  import opened Text
  import opened DocTypes
  import opened Host
  import Utils
  import Glob
  import Classify
  import Weight
  import Documents

  /** `ComponentFiles` / `MemberFiles`: an optional list per type and the `completed` flag; `{}` is `NoFiles`. */
  datatype ComponentFiles = ComponentFiles(
    script: Option<seq<string>>,
    template: Option<seq<string>>,
    style: Option<seq<string>>,
    completed: bool)
  {
    function Get(t: DocType): Option<seq<string>> {
      match t
      case Script => script
      case Style => style
      case Template => template
    }
  }

  const NoFiles := ComponentFiles(None, None, None, false)

  /**
   * One pass of `getComponentFiles` / `getMemberFiles` on a record that is not yet completed, for the
   * anchor `uri` whose classification is `isType` and whose ranked candidates per type are `ranked`.
   * The three tests are independent, so a later one overrides what an earlier one wrote; the style
   * branch writes `template` twice and never touches `style`.
   */
  function Completed(uri: string, isType: ByType<bool>, ranked: ByType<seq<string>>, f: ComponentFiles): (r: ComponentFiles)
    ensures r.completed
    ensures isType.script && !isType.template && !isType.style ==>
              r.script == Some([uri]) && r.style == Some(ranked.style) && r.template == Some(ranked.template)
    ensures isType.template && !isType.style ==>
              r.template == Some([uri]) && r.style == Some(ranked.style) && r.script == Some(ranked.script)
    ensures isType.style ==>
              r.template == Some(ranked.template) && r.script == Some(ranked.script)
    ensures !isType.script && !isType.template ==> r.style == f.style
    ensures r.style == f.style || r.style == Some(ranked.style)
    ensures !isType.script && !isType.template && !isType.style ==> r == f.(completed := true)
  {
    var f1 :=
      if isType.script then f.(script := Some([uri]), style := Some(ranked.style), template := Some(ranked.template))
      else f;
    var f2 :=
      if isType.template then f1.(template := Some([uri]), style := Some(ranked.style), script := Some(ranked.script))
      else f1;
    var f3 :=
      if isType.style then f2.(template := Some([uri])).(template := Some(ranked.template), script := Some(ranked.script))
      else f2;
    f3.(completed := true)
  }

  /** Once the anchor is classified as script or template, every type has a list. */
  lemma CompletedHasAllLists(uri: string, isType: ByType<bool>, ranked: ByType<seq<string>>, f: ComponentFiles)
    requires isType.script || isType.template
    ensures var r := Completed(uri, isType, ranked, f);
      r.script.Some? && r.style.Some? && r.template.Some?
  {
  }

  // ---------------------------------------------------------------------------------------------
  // readSiblingFiles

  /** `/[\\\/][^\.\/\\]+\.\w+$/` read from just after the separator: a run free of '.', '/' and '\', one '.', then word characters to the end. */
  predicate SiblingTail(u: string) {
    exists k :: 1 <= k <= |u| - 2 && u[k] == '.' && (forall j :: 0 <= j < k ==> u[j] != '.' && !Utils.IsSep(u[j])) && AllWord(u[k + 1..])
  }

  predicate SiblingMatchAt(s: string, i: int) {
    0 <= i < |s| && Utils.IsSep(s[i]) && SiblingTail(s[i + 1..])
  }

  function LastSep(s: string): (r: Option<nat>)
    ensures r.Some? ==> r.value < |s| && Utils.IsSep(s[r.value]) && forall j :: r.value < j < |s| ==> !Utils.IsSep(s[j])
    ensures r.None? ==> forall j :: 0 <= j < |s| ==> !Utils.IsSep(s[j])
  {
    if |s| == 0 then None
    else if Utils.IsSep(s[|s| - 1]) then Some(|s| - 1)
    else LastSep(s[..|s| - 1])
  }

  /** A match leaves no separator after it, so it can only start at the last separator. */
  lemma SiblingMatchIsLastSep(s: string, i: int)
    requires SiblingMatchAt(s, i)
    ensures LastSep(s) == Some(i)
  {
    var u := s[i + 1..];
    var k :| 1 <= k <= |u| - 2 && u[k] == '.' && (forall j :: 0 <= j < k ==> u[j] != '.' && !Utils.IsSep(u[j])) && AllWord(u[k + 1..]);
    forall j | i < j < |s|
      ensures !Utils.IsSep(s[j])
    {
      assert s[j] == u[j - i - 1];
      if j - i - 1 > k {
        assert u[k + 1..][j - i - 1 - (k + 1)] == u[j - i - 1];
      }
    }
    LastSepBeforeRest(s, i);
  }

  /** A separator followed by no other separator is the last one. */
  lemma LastSepBeforeRest(s: string, i: int)
    requires 0 <= i < |s| && Utils.IsSep(s[i])
    requires forall j :: i < j < |s| ==> !Utils.IsSep(s[j])
    ensures LastSep(s) == Some(i)
  {
    var x, u := s[..i + 1], s[i + 1..];
    assert |x| == i + 1 && x[i] == s[i];
    assert forall j :: 0 <= j < |u| ==> u[j] == s[i + 1 + j];
    assert x + u == s;
    LastSepSkipsName(x, u);
  }

  /** `this.uri.replace(/[\\\/][^\.\/\\]+\.\w+$/, '')`: the directory that `readSiblingFiles` lists. */
  function ComponentDir(uri: string): (r: string)
    ensures (forall i :: !SiblingMatchAt(uri, i)) ==> r == uri
    ensures forall i :: SiblingMatchAt(uri, i) ==> r == uri[..i]
  {
    MatchesAreLastSep(uri);
    match LastSep(uri)
    case None => uri
    case Some(i) =>
      if SiblingTail(uri[i + 1..]) then
        assert SiblingMatchAt(uri, i);
        uri[..i]
      else uri
  }

  lemma MatchesAreLastSep(s: string)
    ensures forall i :: SiblingMatchAt(s, i) ==> LastSep(s) == Some(i)
  {
    forall i | SiblingMatchAt(s, i)
      ensures LastSep(s) == Some(i)
    {
      SiblingMatchIsLastSep(s, i);
    }
  }

  /** For an ordinary file `d/n.e` (stem free of '.', '/' and '\', word-character extension) the listed directory is `d`. */
  lemma ComponentDirOfFile(d: string, n: string, e: string)
    requires |n| > 0 && forall j :: 0 <= j < |n| ==> n[j] != '.' && !Utils.IsSep(n[j])
    requires |e| > 0 && AllWord(e)
    ensures ComponentDir(d + "/" + n + "." + e) == d
  {
    var s := d + "/" + n + "." + e;
    var u := s[|d| + 1..];
    assert u == n + "." + e;
    assert u[|n| + 1..] == e;
    assert u[|n|] == '.' && forall j :: 0 <= j < |n| ==> u[j] == n[j];
    assert SiblingMatchAt(s, |d|);
    assert s[..|d|] == d;
  }

  /**
   * A base name with two dots (`app.component.ts`, `index.d.ts`) never matches, so the "directory"
   * that `readSiblingFiles` lists is the file itself.
   */
  lemma TwoDotNameIsNotCut(d: string, n: string, m: string, e: string)
    requires |n| > 0 && forall j :: 0 <= j < |n| ==> n[j] != '.' && !Utils.IsSep(n[j])
    requires |m| > 0 && forall j :: 0 <= j < |m| ==> m[j] != '.' && !Utils.IsSep(m[j])
    requires |e| > 0 && forall j :: 0 <= j < |e| ==> e[j] != '.' && !Utils.IsSep(e[j])
    ensures ComponentDir(d + "/" + n + "." + m + "." + e) == d + "/" + n + "." + m + "." + e
  {
    var u := n + "." + m + "." + e;
    var s := d + "/" + u;
    assert s == d + "/" + n + "." + m + "." + e;
    assert s[|d| + 1..] == u;
    TwoDotTail(n, m, e);
    LastSepBeforeName(d, u);
  }

  lemma TwoDotTail(n: string, m: string, e: string)
    requires |n| > 0 && forall j :: 0 <= j < |n| ==> n[j] != '.' && !Utils.IsSep(n[j])
    requires |m| > 0 && forall j :: 0 <= j < |m| ==> m[j] != '.' && !Utils.IsSep(m[j])
    requires |e| > 0 && forall j :: 0 <= j < |e| ==> e[j] != '.' && !Utils.IsSep(e[j])
    ensures forall j :: 0 <= j < |n + "." + m + "." + e| ==> !Utils.IsSep((n + "." + m + "." + e)[j])
    ensures !SiblingTail(n + "." + m + "." + e)
  {
    var u := n + "." + m + "." + e;
    assert forall j :: 0 <= j < |n| ==> u[j] == n[j];
    assert forall j :: |n| < j < |n| + 1 + |m| ==> u[j] == m[j - |n| - 1];
    assert forall j :: |n| + 1 + |m| < j < |u| ==> u[j] == e[j - |n| - |m| - 2];
    forall k | 0 <= k < |u| && u[k] == '.' && (forall j :: 0 <= j < k ==> u[j] != '.')
      ensures !AllWord(u[k + 1..])
    {
      assert u[|n|] == '.';
      assert k == |n|;
      assert u[k + 1..][|m|] == '.';
    }
  }

  lemma LastSepBeforeName(d: string, u: string)
    requires forall j :: 0 <= j < |u| ==> !Utils.IsSep(u[j])
    ensures LastSep(d + "/" + u) == Some(|d|)
  {
    var x := d + "/";
    assert Utils.IsSep(x[|x| - 1]);
    LastSepSkipsName(x, u);
  }

  /** Characters that are not separators do not move the last separator. */
  lemma {:induction false} LastSepSkipsName(x: string, u: string)
    requires forall j :: 0 <= j < |u| ==> !Utils.IsSep(u[j])
    ensures LastSep(x + u) == LastSep(x)
    decreases |u|
  {
    if |u| > 0 {
      var v := u[..|u| - 1];
      assert (x + u)[..|x + u| - 1] == x + v;
      assert (x + u)[|x + u| - 1] == u[|u| - 1];
      LastSepSkipsName(x, v);
    } else {
      assert x + u == x;
    }
  }

  /** The extensions of the given types, concatenated (`pattern.concat(config.extnames[type])`). */
  function Patterns(exts: Extnames, types: seq<DocType>): seq<string> {
    if |types| == 0 then [] else Patterns(exts, types[..|types| - 1]) + exts.Get(types[|types| - 1])
  }

  /** The name filter of `readSiblingFiles`: every name when no type is given, else the suffix glob `*{pattern}` at any depth. */
  predicate KeepName(exts: Extnames, types: seq<DocType>, name: string) {
    types == [] || Glob.SuffixGlob(name, Patterns(exts, types), false)
  }

  function Prefixed(dir: string, names: seq<string>): (r: seq<string>)
    ensures |r| == |names|
    ensures forall i :: 0 <= i < |names| ==> r[i] == dir + "/" + names[i]
  {
    seq(|names|, i requires 0 <= i < |names| => dir + "/" + names[i])
  }

  /** `readSiblingFiles(types)` over the listing of `dir`: the kept names, in listing order, each prefixed with `dir + '/'`. */
  function ReadSiblingFiles(dir: string, listing: seq<string>, exts: Extnames, types: seq<DocType>): (r: seq<string>)
    ensures |r| <= |listing|
    ensures types == [] ==> r == Prefixed(dir, listing)
  {
    var keep := (name: string) => KeepName(exts, types, name);
    if types == [] then
      WhereAll(listing, keep);
      Prefixed(dir, Where(listing, keep))
    else
      Prefixed(dir, Where(listing, keep))
  }

  /** A path is returned exactly when it is `dir/name` for a listed name that passes the filter. */
  lemma SiblingMembership(dir: string, listing: seq<string>, exts: Extnames, types: seq<DocType>, name: string)
    ensures dir + "/" + name in ReadSiblingFiles(dir, listing, exts, types) <==> name in listing && KeepName(exts, types, name)
  {
    var keep := (x: string) => KeepName(exts, types, x);
    var kept := Where(listing, keep);
    var r := ReadSiblingFiles(dir, listing, exts, types);
    assert r == Prefixed(dir, kept);
    if dir + "/" + name in r {
      var i :| 0 <= i < |r| && r[i] == dir + "/" + name;
      assert r[i] == dir + "/" + kept[i];
      assert kept[i] == (dir + "/" + kept[i])[|dir| + 1..];
      assert name == (dir + "/" + name)[|dir| + 1..];
      assert kept[i] in kept;
    }
    if name in listing && KeepName(exts, types, name) {
      assert keep(name);
      var i :| 0 <= i < |kept| && kept[i] == name;
      assert r[i] == dir + "/" + name;
    }
  }

  /** `getScript` / `getStyle` / `getTemplate` of src/component.ts: the siblings of that type in the listing of the component directory, ranked against the anchor. */
  function RankedSiblings(uri: string, listing: seq<string>, exts: Extnames, t: DocType): seq<string> {
    Weight.Ranked(Weight.ContainsStem, Name(t), uri, ReadSiblingFiles(ComponentDir(uri), listing, exts, [t]))
  }

  function AllRankedSiblings(uri: string, listing: seq<string>, exts: Extnames): ByType<seq<string>> {
    ByType(RankedSiblings(uri, listing, exts, Script), RankedSiblings(uri, listing, exts, Style), RankedSiblings(uri, listing, exts, Template))
  }

  /** Whether `getComponentFiles` reads the sibling files at all: only when the anchor has some type. */
  predicate ListsSiblings(isType: ByType<bool>) {
    isType.script || isType.template || isType.style
  }

  /**
   * The record as `getComponentFiles` leaves it when its first `readSiblingFiles` throws: only the
   * anchor has been written, as the script list of a script anchor or else as the template list.
   */
  function Started(uri: string, isType: ByType<bool>, f: ComponentFiles): (r: ComponentFiles)
    requires ListsSiblings(isType)
    ensures r.completed == f.completed && r.style == f.style
    ensures isType.script ==> r.script == Some([uri]) && r.template == f.template
    ensures !isType.script ==> r.template == Some([uri]) && r.script == f.script
  {
    if isType.script then f.(script := Some([uri])) else f.(template := Some([uri]))
  }

  /**
   * The record after `getComponentFiles`, given the listing of the component directory (None when
   * `readdirSync` throws). A completed record is kept; an anchor without a type completes the record
   * without listing anything; otherwise a failed listing leaves the record started but not completed.
   */
  function Filled(uri: string, isType: ByType<bool>, listing: Option<seq<string>>, exts: Extnames, f: ComponentFiles): (r: ComponentFiles)
    ensures r.completed <==> f.completed || !ListsSiblings(isType) || listing.Some?
    ensures f.completed ==> r == f
    ensures !f.completed && ListsSiblings(isType) && listing.None? ==> r == Started(uri, isType, f)
    ensures !f.completed && listing.Some? ==> r == Completed(uri, isType, AllRankedSiblings(uri, listing.value, exts), f)
    ensures !f.completed && !ListsSiblings(isType) ==> r == f.(completed := true)
  {
    if f.completed then f
    else if !ListsSiblings(isType) then f.(completed := true)
    else if listing.None? then Started(uri, isType, f)
    else Completed(uri, isType, AllRankedSiblings(uri, listing.value, exts), f)
  }

  /** With a single type the filter is that type's own extension test. */
  lemma SingleTypePattern(exts: Extnames, t: DocType)
    ensures Patterns(exts, [t]) == exts.Get(t)
  {
    assert [t][..0] == [];
  }

  /** src/component.ts: classification by the suffix glob `*{exts}` at any depth (no `dot` option) and siblings ranked with the "contains" tier 3. */
  class Component {
    const uri: string
    const id: string
    const io: Io
    const exts: Extnames
    var componentFiles: ComponentFiles

    constructor (rawUri: string, io: Io, exts: Extnames)
      ensures uri == StripPrefix(rawUri, "file://") && id == io.createId(uri)
      ensures this.io == io && this.exts == exts && componentFiles == NoFiles
    {
      uri := StripPrefix(rawUri, "file://");
      id := io.createId(StripPrefix(rawUri, "file://"));
      this.io := io;
      this.exts := exts;
      componentFiles := NoFiles;
    }

    /** `isScript()`, `isStyle()`, `isTemplate()`. */
    function Classes(): ByType<bool> {
      ByType(Classify.IsType(Classify.GlobNoDot, exts, Script, uri),
             Classify.IsType(Classify.GlobNoDot, exts, Style, uri),
             Classify.IsType(Classify.GlobNoDot, exts, Template, uri))
    }

    /** `getScript()` / `getStyle()` / `getTemplate()`: `readSiblingFiles([type])` then `getMatchFileOfWeight`; throws when the directory cannot be listed. */
    method Siblings(t: DocType) returns (r: Result<seq<string>, Error>)
      ensures io.readdir(ComponentDir(uri)).None? ==> r == Failure(NotADirectory(ComponentDir(uri)))
      ensures io.readdir(ComponentDir(uri)).Some? ==> r == Success(RankedSiblings(uri, io.readdir(ComponentDir(uri)).value, exts, t))
    {
      var dir := ComponentDir(uri);
      var listing := io.readdir(dir);
      if listing.None? {
        return Failure(NotADirectory(dir));
      }
      var siblings := ReadSiblingFiles(dir, listing.value, exts, [t]);
      var ranked := Weight.MatchFileOfWeight(Weight.ContainsStem, Name(t), uri, siblings);
      return Success(ranked);
    }

    /**
     * `getComponentFiles()`: fills the cached record in place once; later calls return it unchanged.
     * When a listing throws, the writes made so far stay and the record is not completed.
     */
    method GetComponentFiles() returns (r: Result<ComponentFiles, Error>)
      modifies this`componentFiles
      ensures componentFiles == Filled(uri, Classes(), io.readdir(ComponentDir(uri)), exts, old(componentFiles))
      ensures r.Success? <==> componentFiles.completed
      ensures r.Success? ==> r.value == componentFiles
      ensures r.Failure? ==> r.error == NotADirectory(ComponentDir(uri))
    {
      if componentFiles.completed {
        return Success(componentFiles);
      }
      var classes := Classes();
      if classes.script {
        componentFiles := componentFiles.(script := Some([uri]));
        var style := Siblings(Style);
        if style.Failure? {
          return Failure(style.error);
        }
        componentFiles := componentFiles.(style := Some(style.value));
        var template := Siblings(Template);
        componentFiles := componentFiles.(template := Some(template.value));
      }
      if classes.template {
        componentFiles := componentFiles.(template := Some([uri]));
        var style := Siblings(Style);
        if style.Failure? {
          return Failure(style.error);
        }
        componentFiles := componentFiles.(style := Some(style.value));
        var script := Siblings(Script);
        componentFiles := componentFiles.(script := Some(script.value));
      }
      if classes.style {
        componentFiles := componentFiles.(template := Some([uri]));
        var template := Siblings(Template);
        if template.Failure? {
          return Failure(template.error);
        }
        componentFiles := componentFiles.(template := Some(template.value));
        var script := Siblings(Script);
        componentFiles := componentFiles.(script := Some(script.value));
      }
      componentFiles := componentFiles.(completed := true);
      return Success(componentFiles);
    }
  }

  /** What a resolved member offers the component of src/libs/component.ts: its first file per type and its ranked lists per type. */
  datatype MemberView = MemberView(firsts: ByType<Option<string>>, ranked: ByType<seq<string>>)

  /** A `Document` for a truthy member, otherwise the field as it was. */
  function DocumentFor(t: DocType, member: Option<string>, createId: string -> string, before: Option<Documents.Document>): (r: Option<Documents.Document>)
    ensures Truthy(member) ==> r.Some? && r.value.docType == t && r.value.uri == member.value
    ensures !Truthy(member) ==> r == before
  {
    if Truthy(member) then Some(Documents.NewDocument(t, member.value, createId)) else before
  }

  /** src/libs/component.ts: classification by the static member tests (the suffix glob `*{exts}` at any depth with `dot`). */
  class MemberComponent {
    const uri: string
    const member: MemberView
    const exts: Extnames
    const createId: string -> string
    var script: Option<Documents.Document>
    var style: Option<Documents.Document>
    var template: Option<Documents.Document>
    var componentFiles: ComponentFiles

    constructor (rawUri: string, member: MemberView, exts: Extnames, createId: string -> string)
      ensures uri == StripPrefix(rawUri, "file://")
      ensures this.member == member && this.exts == exts && this.createId == createId
      ensures script.None? && style.None? && template.None? && componentFiles == NoFiles
    {
      uri := StripPrefix(rawUri, "file://");
      this.member := member;
      this.exts := exts;
      this.createId := createId;
      script, style, template := None, None, None;
      componentFiles := NoFiles;
    }

    /** `init()`: a `Document` for each member that is truthy; the other fields keep their value. */
    method Init()
      modifies this`script, this`style, this`template
      ensures script == DocumentFor(Script, member.firsts.script, createId, old(script))
      ensures style == DocumentFor(Style, member.firsts.style, createId, old(style))
      ensures template == DocumentFor(Template, member.firsts.template, createId, old(template))
    {
      if Truthy(member.firsts.script) {
        script := Some(Documents.NewDocument(Script, member.firsts.script.value, createId));
      }
      if Truthy(member.firsts.style) {
        style := Some(Documents.NewDocument(Style, member.firsts.style.value, createId));
      }
      if Truthy(member.firsts.template) {
        template := Some(Documents.NewDocument(Template, member.firsts.template.value, createId));
      }
    }

    /** `Member.isScript(uri)`, `Member.isStyle(uri)`, `Member.isTemplate(uri)`. */
    function Classes(): ByType<bool> {
      ByType(Classify.IsType(Classify.GlobDot, exts, Script, uri),
             Classify.IsType(Classify.GlobDot, exts, Style, uri),
             Classify.IsType(Classify.GlobDot, exts, Template, uri))
    }

    /** `getMemberFiles()`: fills the cached record once from the member's lists; later calls return it unchanged. */
    method GetMemberFiles() returns (files: ComponentFiles)
      modifies this`componentFiles
      ensures old(componentFiles).completed ==> files == old(componentFiles)
      ensures !old(componentFiles).completed ==> files == Completed(uri, Classes(), member.ranked, old(componentFiles))
      ensures files.completed && componentFiles == files
    {
      files := componentFiles;
      if !files.completed {
        var classes := Classes();
        if classes.script {
          files := files.(script := Some([uri]));
          files := files.(style := Some(member.ranked.style));
          files := files.(template := Some(member.ranked.template));
        }
        if classes.template {
          files := files.(template := Some([uri]));
          files := files.(style := Some(member.ranked.style));
          files := files.(script := Some(member.ranked.script));
        }
        if classes.style {
          files := files.(template := Some([uri]));
          files := files.(template := Some(member.ranked.template));
          files := files.(script := Some(member.ranked.script));
        }
        files := files.(completed := true);
        componentFiles := files;
      }
    }
  }
}
