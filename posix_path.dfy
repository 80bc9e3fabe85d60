/**
 * Node's `path.posix.parse`, as the source uses it: trailing separators are ignored,
 * a leading '/' is the root, and the extension starts at the last '.' of the last
 * component unless that '.' is the component's first character (or the component is '..').
 */
module PosixPath {
  import opened Wrappers
  import opened Text

  datatype Parsed = Parsed(root: string, dir: string, base: string, ext: string, name: string)

  /** `s` with its trailing `c` characters removed. */
  function DropTrailing(s: string, c: char): (r: string)
    ensures StartsWith(s, r) && (r == "" || r[|r| - 1] != c)
    ensures forall k :: |r| <= k < |s| ==> s[k] == c
  {
    if |s| > 0 && s[|s| - 1] == c then DropTrailing(s[..|s| - 1], c) else s
  }

  /** Splits a last component into name and extension. `afterSep` tells whether the component is preceded by a separator inside the path. */
  function SplitExt(seg: string, afterSep: bool): (r: (string, string))
    ensures r.0 + r.1 == seg
  {
    match LastIndexOf(seg, '.')
    case None => (seg, "")
    case Some(d) =>
      if d == 0 || (seg == ".." && afterSep) then (seg, "")
      else (seg[..d], seg[d..])
  }

  function Parse(p: string): (r: Parsed)
    ensures r.name + r.ext == r.base
    ensures '/' !in r.base
  {
    if |p| == 0 then Parsed("", "", "", "", "")
    else
      var isAbs := p[0] == '/';
      var start := if isAbs then 1 else 0;
      var t := DropTrailing(p[start..], '/');
      var slash := LastIndexOf(t, '/');
      // startPart: index of the first character of the last component, 0 when no separator was met
      var startPart := if slash.Some? then start + slash.value + 1 else 0;
      var seg := if slash.Some? then t[slash.value + 1..] else t;
      var dir := if startPart > 0 then p[..startPart - 1] else if isAbs then "/" else "";
      var (name, ext) := SplitExt(seg, !(startPart == 0 && isAbs));
      Parsed(if isAbs then "/" else "", dir, seg, ext, name)
  }

  /** A string that does not end in `c` loses nothing to `DropTrailing`. */
  lemma DropTrailingNone(s: string, c: char)
    requires |s| > 0 && s[|s| - 1] != c
    ensures DropTrailing(s, c) == s
  {
  }

  /** In `x + [c] + b` with no `c` in `b`, the last `c` is the one between the two parts. */
  lemma {:induction false} LastIndexOfJoin(x: string, c: char, b: string)
    requires c !in b
    ensures LastIndexOf(x + [c] + b, c) == Some(|x|)
  {
    var s := x + [c] + b;
    if |b| > 0 {
      var b' := b[..|b| - 1];
      assert s[|s| - 1] == b[|b| - 1];
      assert s[..|s| - 1] == x + [c] + b';
      assert c !in b' by {
        assert forall k :: 0 <= k < |b'| ==> b'[k] == b[k];
      }
      LastIndexOfJoin(x, c, b');
    }
  }

  /** A path `d/b` whose last component `b` has no separator and whose directory part is not the root. */
  lemma ParseDirBase(d: string, b: string)
    requires |d| > 0 && |b| > 0 && '/' !in b
    ensures Parse(d + "/" + b).dir == d && Parse(d + "/" + b).base == b
  {
    var p := d + "/" + b;
    var start := if d[0] == '/' then 1 else 0;
    assert p[0] == d[0];
    var x := d[start..];
    assert p[start..] == x + "/" + b;
    assert p[|p| - 1] == b[|b| - 1];
    DropTrailingNone(p[start..], '/');
    LastIndexOfJoin(x, '/', b);
    assert (x + "/" + b)[|x| + 1..] == b;
    assert p[..|d|] == d;
  }

  /** The extension starts at the last '.' of the component: `n.e` splits into `n` and `.e`. */
  lemma SplitExtAtLastDot(n: string, e: string, afterSep: bool)
    requires |n| > 0 && '.' !in e && n + "." + e != ".."
    ensures SplitExt(n + "." + e, afterSep) == (n, "." + e)
  {
    var seg := n + "." + e;
    LastIndexOfJoin(n, '.', e);
    assert seg[..|n|] == n && seg[|n|..] == "." + e;
  }

  /** A component whose only '.' is its first character has no extension. */
  lemma SplitExtOfDotName(e: string, afterSep: bool)
    requires '.' !in e
    ensures SplitExt("." + e, afterSep) == ("." + e, "")
  {
    LastIndexOfJoin("", '.', e);
    assert "" + "." + e == "." + e;
  }

  /** The name and extension are always a split of the base made by `SplitExt`. */
  lemma ParseSplitsBase(p: string)
    ensures (Parse(p).name, Parse(p).ext) in {SplitExt(Parse(p).base, true), SplitExt(Parse(p).base, false)}
  {
  }

  /** For `d/n.e` the name is `n` and the extension `.e`. */
  lemma ParseExt(d: string, n: string, e: string)
    requires |d| > 0 && |n| > 0 && '/' !in n && '/' !in e && '.' !in e && n + "." + e != ".."
    ensures Parse(d + "/" + n + "." + e).name == n && Parse(d + "/" + n + "." + e).ext == "." + e
  {
    var b := n + "." + e;
    assert '/' !in b;
    assert d + "/" + n + "." + e == d + "/" + b;
    ParseDirBase(d, b);
    ParseSplitsBase(d + "/" + b);
    SplitExtAtLastDot(n, e, true);
    SplitExtAtLastDot(n, e, false);
  }

  /** For `d/.e` the whole base is the name and there is no extension. */
  lemma ParseDotFileExt(d: string, e: string)
    requires |d| > 0 && '/' !in e && '.' !in e
    ensures Parse(d + "/." + e).name == "." + e && Parse(d + "/." + e).ext == ""
  {
    var b := "." + e;
    assert '/' !in b;
    assert d + "/." + e == d + "/" + b;
    ParseDirBase(d, b);
    ParseSplitsBase(d + "/" + b);
    SplitExtOfDotName(e, true);
    SplitExtOfDotName(e, false);
  }

  /** A file directly under the root: the directory is "/" itself. */
  lemma ParseUnderRoot(b: string)
    requires |b| > 0 && '/' !in b
    ensures Parse("/" + b).dir == "/" && Parse("/" + b).base == b
  {
    var p := "/" + b;
    assert p[1..] == b;
    assert p[|p| - 1] == b[|b| - 1];
  }

  /** A bare name: the directory is empty. */
  lemma ParseBareName(b: string)
    requires |b| > 0 && '/' !in b
    ensures Parse(b).dir == "" && Parse(b).base == b
  {
    assert b[0] != '/' by { assert b[0] in b; }
    assert b[0..] == b;
  }
}

/** `IPath.parse` in src/libs/utils.ts. */
module Utils {
  import opened Text
  import PosixPath

  datatype IPath = IPath(ext: string, name: string, base: string, dir: string, folder: string, path: string, fullpath: string)

  predicate IsSep(c: char) {
    c == '/' || c == '\\'
  }

  /** `dir.split(/[\\\/]/g).pop() || ''`: the text after the last '/' or '\'. */
  function Folder(dir: string): string
  {
    if |dir| == 0 || IsSep(dir[|dir| - 1]) then ""
    else Folder(dir[..|dir| - 1]) + [dir[|dir| - 1]]
  }

  /** The folder is the suffix of `dir` after its last separator: free of separators, and preceded by one when it is not all of `dir`. */
  lemma {:induction false} FolderIsLastPiece(dir: string)
    ensures EndsWith(dir, Folder(dir))
    ensures forall i :: 0 <= i < |Folder(dir)| ==> !IsSep(Folder(dir)[i])
    ensures |Folder(dir)| < |dir| ==> IsSep(dir[|dir| - |Folder(dir)| - 1])
  {
    if |dir| > 0 && !IsSep(dir[|dir| - 1]) {
      var init := dir[..|dir| - 1];
      FolderIsLastPiece(init);
      var f := Folder(init);
      assert Folder(dir) == f + [dir[|dir| - 1]];
      assert dir[|dir| - |f| - 1..] == init[|init| - |f|..] + [dir[|dir| - 1]];
      if |f| + 1 < |dir| {
        assert dir[|dir| - |f| - 2] == init[|init| - |f| - 1];
      }
    }
  }

  function Parse(filepath: string): (r: IPath)
    ensures r.path == r.fullpath == r.dir + "/" + r.base
    ensures r.name + r.ext == r.base
    ensures r.folder == Folder(r.dir)
  {
    var parsed := PosixPath.Parse(filepath);
    var folder := Folder(parsed.dir);
    IPath(parsed.ext, parsed.name, parsed.base, parsed.dir, folder, parsed.dir + "/" + parsed.base, parsed.dir + "/" + parsed.base)
  }

  /** The computed full path is the input whenever the file sits in a proper directory. */
  lemma FullpathIsInput(d: string, b: string)
    requires |d| > 0 && |b| > 0 && '/' !in b
    ensures Parse(d + "/" + b).fullpath == d + "/" + b
  {
    PosixPath.ParseDirBase(d, b);
  }

  /** For a file directly under the root the computed full path gains a second leading '/'. */
  lemma FullpathUnderRoot(b: string)
    requires |b| > 0 && '/' !in b
    ensures Parse("/" + b).fullpath == "//" + b
  {
    PosixPath.ParseUnderRoot(b);
  }

  /** For a bare name the computed full path gains a leading '/'. */
  lemma FullpathOfBareName(b: string)
    requires |b| > 0 && '/' !in b
    ensures Parse(b).fullpath == "/" + b
  {
    PosixPath.ParseBareName(b);
  }
}
