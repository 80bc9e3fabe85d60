// Readings of the micromatch patterns the engine uses. A path is read as its '/'-separated
// segments; `*` never crosses a '/', `**` spans whole segments, and without the `dot`
// option no wildcard matches a segment that starts with '.'.
module Glob {
  import opened Text

  function Segments(p: string): (r: seq<string>)
    ensures |r| > 0
  {
    Split(p, '/')
  }

  // The last segment (the base name).
  function Base(p: string): string {
    Segments(p)[|Segments(p)| - 1]
  }

  predicate IsDotSegment(s: string) {
    |s| > 0 && s[0] == '.'
  }

  predicate EndsWithAny(s: string, exts: seq<string>) {
    exists e :: e in exts && EndsWith(s, e)
  }

  predicate NoDotSegment(p: string) {
    forall i :: 0 <= i < |Segments(p)| ==> !IsDotSegment(Segments(p)[i])
  }

  // `**/*{exts}`: the base name ends with one of `exts`; without `dot`, no segment is a dot segment.
  predicate SuffixGlob(p: string, exts: seq<string>, dot: bool) {
    (dot || NoDotSegment(p)) && EndsWithAny(Base(p), exts)
  }

  // `*{exts}` with `matchBase`: the base name is not a dot file and ends with one of `exts`.
  predicate BaseSuffixGlob(p: string, exts: seq<string>) {
    !IsDotSegment(Base(p)) && EndsWithAny(Base(p), exts)
  }

  // `a{s,}.*` matched case-insensitively against a base name.
  predicate PluralStemOf(base: string, a: string) {
    StartsWith(Lower(base), Lower(a) + ".") || StartsWith(Lower(base), Lower(a) + "s.")
  }

  // `{alts}{s,}.*` matched case-insensitively (with `dot`) against a base name: some alternative matches.
  predicate PluralStemGlob(base: string, alts: seq<string>) {
    |alts| > 0 && (PluralStemOf(base, alts[0]) || PluralStemGlob(base, alts[1..]))
  }

  // `a`, case-folded, occurs in `s` at `i` and a '.' follows later.
  predicate OccursBeforeDot(s: string, a: string, i: int) {
    0 <= i && i + |a| <= |s| && Lower(s[i..i + |a|]) == Lower(a) && '.' in s[i + |a|..]
  }

  // `a` occurs before a '.' at some position from `i` on.
  predicate OccursFrom(s: string, a: string, i: nat)
    decreases |s| - i
  {
    i <= |s| && (OccursBeforeDot(s, a, i) || OccursFrom(s, a, i + 1))
  }

  // Some alternative occurs before a '.'.
  predicate SomeOccurs(base: string, alts: seq<string>) {
    |alts| > 0 && (OccursFrom(base, alts[0], 0) || SomeOccurs(base, alts[1..]))
  }

  // `*{alts}*.*` matched case-insensitively (without `dot`) against a base name.
  predicate ContainsStemGlob(base: string, alts: seq<string>) {
    !IsDotSegment(base) && SomeOccurs(base, alts)
  }

  // Segment `seg` is `n` or `n + "s"` (the `{names}{s,}` part of a pattern).
  predicate NameIs(seg: string, n: string, nocase: bool) {
    if nocase then Lower(seg) == Lower(n) || Lower(seg) == Lower(n + "s")
    else seg == n || seg == n + "s"
  }

  // Directory segment `i` (not the last segment) is one of `names`, optionally plural.
  predicate NamedDirAt(segs: seq<string>, i: int, names: seq<string>, nocase: bool) {
    0 <= i < |segs| - 1 && exists n :: n in names && NameIs(segs[i], n, nocase)
  }

  // The `**/{names}{s,}/**/` prefix: some directory segment is a configured name, and
  // no other segment is a dot segment (no `dot` option).
  predicate UnderNamedDir(p: string, names: seq<string>, nocase: bool) {
    var segs := Segments(p);
    exists i :: 0 <= i < |segs| && NamedDirAt(segs, i, names, nocase) && forall j :: 0 <= j < |segs| && j != i ==> !IsDotSegment(segs[j])
  }

  // `**/{node_modules,.*}{s,}/**`: some directory segment is `node_modules(s)` or a dot segment.
  predicate ExcludedDir(p: string) {
    var segs := Segments(p);
    exists i :: 0 <= i < |segs| - 1 && (segs[i] == "node_modules" || segs[i] == "node_moduless" || IsDotSegment(segs[i]))
  }

  // `**/{dirs}{s,}/**/*{exts}`.
  predicate InDirWithExt(p: string, dirs: seq<string>, exts: seq<string>) {
    UnderNamedDir(p, dirs, false) && EndsWithAny(Base(p), exts)
  }

  // `**/{dirs}{s,}/**/*.*` (case-insensitive).
  predicate InDirWithDot(p: string, dirs: seq<string>) {
    UnderNamedDir(p, dirs, true) && '.' in Base(p)
  }

  // `**/.vscodeparallel/components/**` with `dot`: a `.vscodeparallel` segment directly followed
  // by a `components` segment and at least one more separator, i.e. the text
  // `.vscodeparallel/components/` at the start of the path or right after a '/'.
  predicate InSplitDir(p: string) {
    StartsWith(p, ".vscodeparallel/components/") || Contains(p, "/.vscodeparallel/components/")
  }

  // Every path below `<root>/.vscodeparallel/components/<id>/` is in the split directory.
  lemma TempFileInSplitDir(root: string, id: string, name: string)
    ensures InSplitDir(root + "/.vscodeparallel/components/" + id + "/" + name)
  {
    ContainsMiddle(root, "/.vscodeparallel/components/", id + "/" + name);
    assert root + "/.vscodeparallel/components/" + id + "/" + name
      == root + "/.vscodeparallel/components/" + (id + "/" + name);
  }
}
