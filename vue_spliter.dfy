/** Cutting a single-file component into per-type fragment files (src/libs/vue-spliter.ts). */
module Spliter {
  import opened Wrappers
  import opened Text
  import opened DocTypes
  import opened Host
  import Glob
  import Utils

  /** `langs`: the default language of a tag. */
  function Langs(tag: string): Option<string> {
    if tag == "script" then Some("js")
    else if tag == "style" || tag == "stylesheet" then Some("css")
    else if tag == "template" then Some("html")
    else None
  }

  // ----- masking style tags -----

  /** `mockStyleTag`: every `<style` becomes `<stylesheet`, then every `</style>` becomes `</stylesheet>`. */
  function MockStyleTag(content: string): string {
    ReplaceAll(ReplaceAll(content, "<style", "<stylesheet"), "</style>", "</stylesheet>")
  }

  /** The masked text holds no closing `</style>` tag, so the parser never sees a raw-text style element end. */
  lemma MockStyleTagRemovesClose(content: string)
    ensures !Contains(MockStyleTag(content), "</style>")
  {
    var pat, rep := "</style>", "</stylesheet>";
    assert rep[..|pat|] == "</styles";
    assert pat[1..] == "/style>" && rep[1..] == "/stylesheet>";
    ReplaceAllRemoves(ReplaceAll(content, "<style", "<stylesheet"), pat, rep);
  }

  /**
   * Replacing every `pat` by `rep` leaves no `pat` behind when no new occurrence can form: `rep` does
   * not start with `pat`, the first character of `pat` occurs nowhere else in `pat` or in `rep`.
   */
  lemma {:induction false} ReplaceAllRemoves(s: string, pat: string, rep: string)
    requires |pat| > 0 && |rep| >= |pat| && !StartsWith(rep, pat)
    requires rep[0] == pat[0] && pat[0] !in pat[1..] && pat[0] !in rep[1..]
    ensures !Contains(ReplaceAll(s, pat, rep), pat)
    decreases |s|
  {
    if |s| == 0 {
    } else if StartsWith(s, pat) {
      var rest := ReplaceAll(s[|pat|..], pat, rep);
      ReplaceAllRemoves(s[|pat|..], pat, rep);
      forall j | 0 <= j < |rep|
        ensures !StartsWith(rep[j..] + rest, pat)
      {
        if j == 0 {
          assert (rep + rest)[..|pat|] == rep[..|pat|];
        } else {
          assert (rep[j..] + rest)[0] == rep[j] == rep[1..][j - 1];
        }
      }
      NoOccurrenceIn(rep, rest, pat);
    } else {
      var rest := ReplaceAll(s[1..], pat, rep);
      ReplaceAllRemoves(s[1..], pat, rep);
      var out := [s[0]] + rest;
      assert ReplaceAll(s, pat, rep) == out;
      PrefixPreserved(s[1..], pat[1..], pat, rep);
      ConsPrefix(s, rest, pat);
      assert out[1..] == rest;
    }
  }

  lemma ConsPrefix(s: string, rest: string, pat: string)
    requires |s| > 0 && |pat| > 0
    requires StartsWith(rest, pat[1..]) ==> StartsWith(s[1..], pat[1..])
    ensures StartsWith([s[0]] + rest, pat) ==> StartsWith(s, pat)
  {
    if StartsWith([s[0]] + rest, pat) {
      assert rest[..|pat| - 1] == ([s[0]] + rest)[1..|pat|] == pat[1..];
      assert s[..|pat|] == [s[0]] + s[1..][..|pat| - 1];
    }
  }

  lemma {:induction false} NoOccurrenceIn(r: string, w: string, pat: string)
    requires !Contains(w, pat)
    requires forall j :: 0 <= j < |r| ==> !StartsWith(r[j..] + w, pat)
    ensures !Contains(r + w, pat)
    decreases |r|
  {
    if |r| > 0 {
      assert r[0..] + w == r + w;
      forall j | 0 <= j < |r| - 1
        ensures !StartsWith(r[1..][j..] + w, pat)
      {
        assert r[1..][j..] == r[j + 1..];
      }
      NoOccurrenceIn(r[1..], w, pat);
      assert (r + w)[1..] == r[1..] + w;
    } else {
      assert r + w == w;
    }
  }

  /** A prefix free of the first character of `rep` survives the replacement only if it was there before. */
  lemma {:induction false} PrefixPreserved(t: string, u: string, pat: string, rep: string)
    requires |pat| > 0 && |rep| > 0 && rep[0] !in u
    ensures StartsWith(ReplaceAll(t, pat, rep), u) ==> StartsWith(t, u)
    decreases |t|
  {
    if |u| > 0 && |t| > 0 {
      if StartsWith(t, pat) {
        assert ReplaceAll(t, pat, rep)[0] == rep[0];
        assert u[0] in u;
      } else {
        var rest := ReplaceAll(t[1..], pat, rep);
        assert ReplaceAll(t, pat, rep) == [t[0]] + rest;
        assert forall c :: c in u[1..] ==> c in u;
        PrefixPreserved(t[1..], u[1..], pat, rep);
        if StartsWith(ReplaceAll(t, pat, rep), u) {
          assert rest[..|u| - 1] == u[1..];
          assert t[..|u|] == [t[0]] + t[1..][..|u| - 1];
        }
      }
    } else if |u| > 0 {
      assert ReplaceAll(t, pat, rep) == "";
    }
  }

  // ----- slices -----

  /** `VueSlice`; `ext` always equals `lang`, so only `lang` is kept. `kind` is `type`: the tag, with `stylesheet` read as `style`. */
  datatype Slice = Slice(startWrapper: Option<string>, endWrapper: Option<string>, content: string,
                         lang: Option<string>, scope: bool, kind: string, path: string)

  /** The slice built for one top-level element. */
  function SliceOf(e: Element): (r: Slice)
    ensures r.content == e.innerHTML && r.path == ""
    ensures r.kind == (if e.tag == "stylesheet" then "style" else e.tag)
    ensures r.lang == (if Truthy(e.lang) then e.lang else Langs(e.tag))
    ensures r.scope <==> Truthy(e.scope)
  {
    var pieces := SplitBy(e.outerHTML, e.innerHTML);
    Slice(if |pieces| > 0 then Some(pieces[0]) else None,
          if |pieces| > 1 then Some(pieces[1]) else None,
          e.innerHTML,
          if Truthy(e.lang) then e.lang else Langs(e.tag),
          Truthy(e.scope),
          if e.tag == "stylesheet" then "style" else e.tag,
          "")
  }

  /**
   * When the inner markup first occurs right after the opening tag and not again in the closing
   * part, the wrappers are exactly the opening and closing markup, and wrapper, content and wrapper
   * put back together give the outer markup.
   */
  lemma WrappersReassemble(e: Element, open: string, close: string)
    requires |e.innerHTML| > 0 && e.outerHTML == open + e.innerHTML + close
    requires IndexOf(e.outerHTML, e.innerHTML) == Some(|open|)
    requires !Contains(close, e.innerHTML)
    ensures SliceOf(e).startWrapper == Some(open) && SliceOf(e).endWrapper == Some(close)
    ensures open + SliceOf(e).content + close == e.outerHTML
  {
    var inner := e.innerHTML;
    assert e.outerHTML[..|open|] == open;
    assert e.outerHTML[|open| + |inner|..] == close;
    assert SplitBy(close, inner) == [close];
  }

  /** `parts`: script and template held singly, style slices in a list. */
  datatype Parts = Parts(script: Option<Slice>, style: seq<Slice>, template: Option<Slice>)

  const NoParts := Parts(None, [], None)

  /** One step of the `forEach` in `split`: script and template overwrite, style appends, other tags are ignored. */
  function AbsorbOne(p: Parts, sl: Slice): (r: Parts)
    ensures sl.kind !in {"script", "template", "style"} ==> r == p
  {
    if sl.kind == "script" then p.(script := Some(sl))
    else if sl.kind == "template" then p.(template := Some(sl))
    else if sl.kind == "style" then p.(style := p.style + [sl])
    else p
  }

  /** The parts after `split` has run over `elems`, starting from `p`. */
  function Absorb(p: Parts, elems: seq<Element>): Parts {
    if |elems| == 0 then p
    else AbsorbOne(Absorb(p, elems[..|elems| - 1]), SliceOf(elems[|elems| - 1]))
  }

  /** Absorbing one more element of `elems` is one more `AbsorbOne`. */
  lemma AbsorbStep(p: Parts, elems: seq<Element>, i: nat)
    requires i < |elems|
    ensures Absorb(p, elems[..i + 1]) == AbsorbOne(Absorb(p, elems[..i]), SliceOf(elems[i]))
  {
    assert elems[..i + 1][..i] == elems[..i];
  }

  /** The slices of the style elements, in document order. */
  function StyleSlices(elems: seq<Element>): seq<Slice> {
    if |elems| == 0 then []
    else
      var sl := SliceOf(elems[|elems| - 1]);
      StyleSlices(elems[..|elems| - 1]) + (if sl.kind == "style" then [sl] else [])
  }

  /** The slice of the last element of kind `kind`, if any. */
  function LastOfKind(elems: seq<Element>, kind: string): Option<Slice> {
    if |elems| == 0 then None
    else
      var sl := SliceOf(elems[|elems| - 1]);
      if sl.kind == kind then Some(sl) else LastOfKind(elems[..|elems| - 1], kind)
  }

  /** Style slices are appended, in document order, to whatever the list already held. */
  lemma {:induction false} AbsorbStyles(p: Parts, elems: seq<Element>)
    ensures Absorb(p, elems).style == p.style + StyleSlices(elems)
    decreases |elems|
  {
    if |elems| > 0 {
      AbsorbStyles(p, elems[..|elems| - 1]);
    }
  }

  /** Script and template are the last slice of their kind, or what was held before when there is none. */
  lemma {:induction false} AbsorbSingles(p: Parts, elems: seq<Element>)
    ensures Absorb(p, elems).script == (if LastOfKind(elems, "script").Some? then LastOfKind(elems, "script") else p.script)
    ensures Absorb(p, elems).template == (if LastOfKind(elems, "template").Some? then LastOfKind(elems, "template") else p.template)
    decreases |elems|
  {
    if |elems| > 0 {
      AbsorbSingles(p, elems[..|elems| - 1]);
    }
  }

  /** `split` never clears the style list: a second run over the same document lists every style slice twice, and leaves script and template as they were. */
  lemma SecondSplitDuplicatesStyles(elems: seq<Element>)
    ensures Absorb(Absorb(NoParts, elems), elems).style == StyleSlices(elems) + StyleSlices(elems)
    ensures Absorb(Absorb(NoParts, elems), elems).script == Absorb(NoParts, elems).script
    ensures Absorb(Absorb(NoParts, elems), elems).template == Absorb(NoParts, elems).template
  {
    var once := Absorb(NoParts, elems);
    AbsorbStyles(NoParts, elems);
    assert once.style == StyleSlices(elems) by {
      assert NoParts.style + StyleSlices(elems) == StyleSlices(elems);
    }
    AbsorbStyles(once, elems);
    AbsorbSingles(NoParts, elems);
    AbsorbSingles(once, elems);
  }

  /** Every held single slice has a language: script and template always have a default. */
  predicate LangsKnown(p: Parts) {
    (p.script.Some? ==> p.script.value.lang.Some?) && (p.template.Some? ==> p.template.value.lang.Some?)
  }

  lemma {:induction false} AbsorbKeepsLangs(p: Parts, elems: seq<Element>)
    requires LangsKnown(p)
    ensures LangsKnown(Absorb(p, elems))
    decreases |elems|
  {
    if |elems| > 0 {
      AbsorbKeepsLangs(p, elems[..|elems| - 1]);
      var e := elems[|elems| - 1];
      assert SliceOf(e).kind == "script" ==> e.tag == "script";
      assert SliceOf(e).kind == "template" ==> e.tag == "template";
    }
  }

  // ----- the fragment files -----

  /** `${root}/.vscodeparallel/components/${id}`. */
  function TempDir(root: string, id: string): string {
    root + "/.vscodeparallel/components/" + id
  }

  /** The markup handed to the parser: the masked file inside a `<body>` element. */
  function BodyMarkup(text: string): string {
    "<body>" + MockStyleTag(text) + "</body>"
  }

  /** `[start, content, end]` of every style slice, flattened; `undefined` wrappers join as ''. */
  function StylePieces(slices: seq<Slice>): seq<string> {
    if |slices| == 0 then []
    else
      var sl := slices[|slices| - 1];
      StylePieces(slices[..|slices| - 1]) + [sl.startWrapper.GetOr(""), sl.content, sl.endWrapper.GetOr("")]
  }

  lemma {:induction false} StylePiecesLength(slices: seq<Slice>)
    ensures |StylePieces(slices)| == 3 * |slices|
    decreases |slices|
  {
    if |slices| > 0 {
      StylePiecesLength(slices[..|slices| - 1]);
    }
  }

  /** The file `createFile` writes for type `t`, as (path, content). */
  function WriteFor(dir: string, base: string, p: Parts, t: DocType): (string, string)
    requires LangsKnown(p)
  {
    match t
    case Style => (dir + "/" + base + ".css.vue", Join(StylePieces(p.style), "\n\n\r\r"))
    case Script =>
      if p.script.Some? then (dir + "/" + base + "." + StripPrefix(p.script.value.lang.value, "."), p.script.value.content)
      else (dir + "/" + base + ".js", "")
    case Template =>
      if p.template.Some? then (dir + "/" + base + "." + StripPrefix(p.template.value.lang.value, "."), p.template.value.content)
      else (dir + "/" + base + ".html", "")
  }

  /** The three writes of `createFile`, in the order script, style, template. */
  function FragmentWrites(dir: string, base: string, p: Parts): (w: seq<(string, string)>)
    requires LangsKnown(p)
    ensures |w| == 3 && forall i :: 0 <= i < 3 ==> w[i] == WriteFor(dir, base, p, TYPES[i])
  {
    [WriteFor(dir, base, p, Script), WriteFor(dir, base, p, Style), WriteFor(dir, base, p, Template)]
  }

  /** Every fragment file lies in the split directory, so no fragment is ever split again. */
  lemma FragmentsInSplitDir(root: string, id: string, base: string, p: Parts)
    requires LangsKnown(p)
    ensures forall i :: 0 <= i < 3 ==> Glob.InSplitDir(FragmentWrites(TempDir(root, id), base, p)[i].0)
  {
    forall i | 0 <= i < 3
      ensures Glob.InSplitDir(FragmentWrites(TempDir(root, id), base, p)[i].0)
    {
      var path := FragmentWrites(TempDir(root, id), base, p)[i].0;
      var name := path[|TempDir(root, id)| + 1..];
      assert path == TempDir(root, id) + "/" + name;
      Glob.TempFileInSplitDir(root, id, name);
    }
  }

  /** With no style slice the style file is written empty; an absent script or template gets an empty file with the default extension. */
  lemma DefaultFragments(dir: string, base: string, p: Parts)
    requires LangsKnown(p)
    ensures p.style == [] ==> WriteFor(dir, base, p, Style) == (dir + "/" + base + ".css.vue", "")
    ensures p.script.None? ==> WriteFor(dir, base, p, Script) == (dir + "/" + base + ".js", "")
    ensures p.template.None? ==> WriteFor(dir, base, p, Template) == (dir + "/" + base + ".html", "")
  {
  }

  /** A present script or template is written with its content only, under its language as extension (one leading '.' dropped). */
  lemma PresentFragments(dir: string, base: string, p: Parts)
    requires LangsKnown(p)
    ensures p.script.Some? ==>
              WriteFor(dir, base, p, Script).1 == p.script.value.content
              && EndsWith(WriteFor(dir, base, p, Script).0, "." + StripPrefix(p.script.value.lang.value, "."))
    ensures p.template.Some? ==>
              WriteFor(dir, base, p, Template).1 == p.template.value.content
              && EndsWith(WriteFor(dir, base, p, Template).0, "." + StripPrefix(p.template.value.lang.value, "."))
  {
    if p.script.Some? {
      var ext := "." + StripPrefix(p.script.value.lang.value, ".");
      assert WriteFor(dir, base, p, Script).0 == (dir + "/" + base) + ext;
    }
    if p.template.Some? {
      var ext := "." + StripPrefix(p.template.value.lang.value, ".");
      assert WriteFor(dir, base, p, Template).0 == (dir + "/" + base) + ext;
    }
  }

  /** `VueSpliter`. Its public `script`/`style`/`template` fields are declared but never assigned, so they stay `undefined`. */
  class VueSpliter {
    const root: string
    const path: string
    const io: Io
    const tempDir: string
    /** The base name of the component file, which names every fragment. */
    const base: string
    var parts: Parts
    /** The public fields, declared but never assigned. */
    const script: Option<string> := None
    const style: Option<string> := None
    const template: Option<string> := None
    /** The files written so far, as (path, content). */
    ghost var writes: seq<(string, string)>

    ghost predicate Valid()
      reads this`parts
    {
      LangsKnown(parts) && tempDir == TempDir(root, io.createId(path))
    }

    /** The field initialisers and `mkdir`: the temporary directory depends only on the root and the path. */
    constructor Init(root: string, path: string, io: Io)
      ensures this.root == root && this.path == path && this.io == io
      ensures tempDir == TempDir(root, io.createId(path)) && base == Utils.Parse(path).base
      ensures parts == NoParts && writes == []
      ensures Valid()
    {
      this.root := root;
      this.path := path;
      this.io := io;
      this.tempDir := TempDir(root, io.createId(path));
      this.base := Utils.Parse(path).base;
      parts := NoParts;
      writes := [];
    }

    /** `split`: reads the component, parses the masked text and absorbs every top-level element. */
    method Split() returns (err: Option<Error>)
      requires Valid()
      modifies this`parts
      ensures Valid()
      ensures io.readFile(path).None? ==> err == Some(NoSuchFile(path)) && parts == old(parts)
      ensures io.readFile(path).Some? ==> err.None? && parts == Absorb(old(parts), io.parseBody(BodyMarkup(io.readFile(path).value)))
    {
      var text := io.readFile(path);
      if text.None? {
        return Some(NoSuchFile(path));
      }
      var doms := io.parseBody(BodyMarkup(text.value));
      ghost var start := parts;
      AbsorbKeepsLangs(start, doms);
      for i := 0 to |doms|
        invariant parts == Absorb(start, doms[..i])
      {
        AbsorbStep(start, doms, i);
        var slice := SliceOf(doms[i]);
        if slice.kind == "script" || slice.kind == "template" {
          if slice.kind == "script" {
            parts := parts.(script := Some(slice));
          } else {
            parts := parts.(template := Some(slice));
          }
        } else if slice.kind == "style" {
          parts := parts.(style := parts.style + [slice]);
        }
      }
      assert doms[..|doms|] == doms;
      return None;
    }

    /** The body of the `forEach` in `createFile` for one type: the style list, a present slice, or an absent one. */
    method FileOf(dir: string, base: string, t: DocType) returns (filepath: string, content: string)
      requires Valid()
      ensures (filepath, content) == WriteFor(dir, base, parts, t)
    {
      if t == Style {
        filepath := dir + "/" + base + ".css.vue";
        content := Join(StylePieces(parts.style), "\n\n\r\r");
        return;
      }
      var part := if t == Script then parts.script else parts.template;
      if part.Some? {
        filepath := dir + "/" + base + "." + StripPrefix(part.value.lang.value, ".");
        content := part.value.content;
      } else {
        var ext := Langs(Name(t)).value;
        assert "." + ext == (if t == Script then ".js" else ".html");
        filepath := dir + "/" + base + "." + ext;
        assert filepath == (dir + "/" + base) + ("." + ext);
        content := "";
      }
    }

    /** `createFile`: one write per type, in the order script, style, template. */
    method CreateFile()
      requires Valid()
      modifies this`writes
      ensures writes == old(writes) + FragmentWrites(tempDir, base, parts)
    {
      var dir := tempDir;
      ghost var all := FragmentWrites(dir, base, parts);
      for i := 0 to |TYPES|
        invariant writes == old(writes) + all[..i]
      {
        var filepath, content := FileOf(dir, base, TYPES[i]);
        writes := writes + [(filepath, content)];
        assert all[..i + 1] == all[..i] + [all[i]];
      }
      assert all[..3] == all;
    }
  }

  /** `new VueSpliter(root, path)`: the constructor splits once and writes the fragment files; a missing file makes it throw. */
  method NewVueSpliter(root: string, path: string, io: Io) returns (r: Result<VueSpliter, Error>)
    ensures r.Failure? <==> io.readFile(path).None?
    ensures r.Failure? ==> r.error == NoSuchFile(path)
    ensures r.Success? ==>
              fresh(r.value) && r.value.Valid()
              && r.value.root == root && r.value.path == path && r.value.io == io
              && r.value.parts == Absorb(NoParts, io.parseBody(BodyMarkup(io.readFile(path).value)))
              && r.value.base == Utils.Parse(path).base
              && r.value.writes == FragmentWrites(TempDir(root, io.createId(path)), r.value.base, r.value.parts)
  {
    var s := new VueSpliter.Init(root, path, io);
    var err := s.Split();
    if err.Some? {
      return Failure(err.value);
    }
    s.CreateFile();
    return Success(s);
  }
}
