/**
 * The discovery strategy chain shared by the two families of member resolvers
 * (src/libs/members-*.ts and src/libs/member-*.ts): grouping by type, the sibling search
 * directory and its fallback, the cross-directory walk, and `resolveFiles`.
 */
module Discovery {
  import opened Wrappers
  import opened Text
  import opened DocTypes
  import opened Classify
  import opened Host
  import Glob
  import Weight
  import Documents

  /** The candidate record (`MemberFiles`) in its three shapes. */
  datatype MemberFiles =
    | Grouped(lists: ByType<seq<string>>, crossMode: bool, commonPath: Option<string>)
    | SplitMode(entries: ByType<seq<Option<string>>>, documents: Option<ByType<Option<Documents.Document>>>)
    | Stored(firsts: ByType<Option<string>>)   // what `store[path]` holds: one entry per type, not a list

  /** How a family of resolvers differs from the other. */
  datatype Family = Family(classifier: Classifier, tier3: Weight.Tier3Rule, sameStemFilter: bool)

  /** src/libs/members-*.ts: regular-expression classifier, no tier 3, cross candidates filtered by stem. */
  const MembersFamily := Family(Regex, Weight.NoTier3, true)
  /** src/libs/member-*.ts: glob classifier with `dot`, the plural-stem tier 3, no stem filter. */
  const MemberFamily := Family(GlobDot, Weight.PluralStem, false)

  // ----- grouping by type -----

  /** The paths whose type is `t`, in input order. */
  function Select(k: Classifier, exts: Extnames, paths: seq<string>, t: DocType): seq<string> {
    if |paths| == 0 then []
    else
      var last := paths[|paths| - 1];
      Select(k, exts, paths[..|paths| - 1], t) + (if TypeByPath(k, exts, last) == Some(t) then [last] else [])
  }

  function SelectAll(k: Classifier, exts: Extnames, paths: seq<string>): ByType<seq<string>> {
    ByType(Select(k, exts, paths, Script), Select(k, exts, paths, Style), Select(k, exts, paths, Template))
  }

  predicate AllTyped(k: Classifier, exts: Extnames, paths: seq<string>) {
    forall i :: 0 <= i < |paths| ==> TypeByPath(k, exts, paths[i]).Some?
  }

  const UntypedPush := TypeError("files[''] is undefined")

  /** The outcome of pushing every path onto `files[getTypeByPath(path)]`: a path with no type makes the push throw. */
  function Grouping(k: Classifier, exts: Extnames, paths: seq<string>): Result<ByType<seq<string>>, Error> {
    if AllTyped(k, exts, paths) then Success(SelectAll(k, exts, paths)) else Failure(UntypedPush)
  }

  /** The `availables.forEach(path => files[type].push(path))` loop. */
  method GroupByType(k: Classifier, exts: Extnames, paths: seq<string>) returns (r: Result<ByType<seq<string>>, Error>)
    ensures r == Grouping(k, exts, paths)
  {
    var files: ByType<seq<string>> := ByType([], [], []);
    var i := 0;
    while i < |paths|
      invariant 0 <= i <= |paths|
      invariant AllTyped(k, exts, paths[..i])
      invariant files == SelectAll(k, exts, paths[..i])
    {
      var path := paths[i];
      match TypeByPath(k, exts, path)
      case None =>
        return Failure(UntypedPush);
      case Some(t) =>
        SelectAllStep(k, exts, paths, i, t);
        AllTypedStep(k, exts, paths, i);
        files := files.Set(t, files.Get(t) + [path]);
      i := i + 1;
    }
    assert paths[..i] == paths;
    return Success(files);
  }

  lemma SelectAllStep(k: Classifier, exts: Extnames, paths: seq<string>, i: nat, t: DocType)
    requires i < |paths| && TypeByPath(k, exts, paths[i]) == Some(t)
    ensures SelectAll(k, exts, paths[..i + 1]) == SelectAll(k, exts, paths[..i]).Set(t, SelectAll(k, exts, paths[..i]).Get(t) + [paths[i]])
  {
    var x := paths[i];
    var before, after := SelectAll(k, exts, paths[..i]), SelectAll(k, exts, paths[..i + 1]);
    SelectStep(k, exts, paths, i, Some(t));
    var b2 := before.Set(t, before.Get(t) + [x]);
    assert after.script == b2.script;
    assert after.style == b2.style;
    assert after.template == b2.template;
  }

  lemma AllTypedStep(k: Classifier, exts: Extnames, paths: seq<string>, i: nat)
    requires i < |paths| && TypeByPath(k, exts, paths[i]).Some? && AllTyped(k, exts, paths[..i])
    ensures AllTyped(k, exts, paths[..i + 1])
  {
    var typed := p => TypeByPath(k, exts, p).Some?;
    PrefixStep(typed, paths, i, i + 1);
  }

  /** A property of every element of `xs[..i]` and of `xs[i]` holds of every element of `xs[..n]`, `n == i + 1`. */
  lemma PrefixStep<T>(keep: T -> bool, xs: seq<T>, i: nat, n: nat)
    requires n == i + 1 && i < |xs| && keep(xs[i]) && forall j :: 0 <= j < i ==> keep(xs[..i][j])
    ensures forall j :: 0 <= j < n ==> keep(xs[..n][j])
  {
    assert forall j :: 0 <= j < n ==> xs[..n][j] == xs[j];
    assert forall j :: 0 <= j < i ==> xs[..i][j] == xs[j];
  }

  lemma SelectStep(k: Classifier, exts: Extnames, paths: seq<string>, i: nat, ty: Option<DocType>)
    requires i < |paths| && TypeByPath(k, exts, paths[i]) == ty
    ensures forall u :: Select(k, exts, paths[..i + 1], u) == Select(k, exts, paths[..i], u) + (if ty == Some(u) then [paths[i]] else [])
  {
    var a := paths[..i + 1];
    assert a[..|a| - 1] == paths[..i];
  }

  /** Each selected path has the selected type and comes from the input, and every input path of that type is selected. */
  lemma {:induction false} SelectMembers(k: Classifier, exts: Extnames, paths: seq<string>, t: DocType, x: string)
    ensures x in Select(k, exts, paths, t) <==> x in paths && TypeByPath(k, exts, x) == Some(t)
    decreases |paths|
  {
    if |paths| > 0 {
      var init := paths[..|paths| - 1];
      SelectMembers(k, exts, init, t, x);
      assert paths == init + [paths[|paths| - 1]];
    }
  }

  /** When every path is typed, the three lists together hold exactly as many entries as the input: nothing is lost or repeated. */
  lemma {:induction false} SelectPartition(k: Classifier, exts: Extnames, paths: seq<string>)
    requires AllTyped(k, exts, paths)
    ensures |Select(k, exts, paths, Script)| + |Select(k, exts, paths, Style)| + |Select(k, exts, paths, Template)| == |paths|
    decreases |paths|
  {
    if |paths| > 0 {
      var init := paths[..|paths| - 1];
      assert forall i :: 0 <= i < |init| ==> init[i] == paths[i];
      SelectPartition(k, exts, init);
      assert TypeByPath(k, exts, paths[|paths| - 1]).Some?;
    }
  }

  // ----- the sibling strategy -----

  /** `emptyCount`: the number of types whose list is empty. */
  function EmptyCount(g: ByType<seq<string>>): (r: nat)
    ensures r <= 3
    ensures r == 0 <==> g.script != [] && g.style != [] && g.template != []
    ensures r > 1 <==> exists t, u :: t != u && g.Get(t) == [] && g.Get(u) == []
  {
    var e := (t: DocType) => if g.Get(t) == [] then 1 else 0;
    assert g.Get(Script) == g.script && g.Get(Style) == g.style && g.Get(Template) == g.template;
    e(Script) + e(Style) + e(Template)
  }

  /**
   * `[^\/]+.(\w+)$` read from the start of `u`: a non-empty run without '/', one character that is
   * not a line terminator (the dot is not escaped, and the pattern has no `s` flag), then word
   * characters to the end.
   */
  predicate TailMatch(u: string) {
    exists k :: 1 <= k <= |u| - 2 && '/' !in u[..k] && !IsLineTerminator(u[k]) && AllWord(u[k + 1..])
  }

  /** The regular expression `/\/[^\/]+.(\w+)$/` matches `s` from index `i`. */
  predicate MatchAt(s: string, i: int) {
    0 <= i < |s| && s[i] == '/' && TailMatch(s[i + 1..])
  }

  function FirstMatch(s: string, from: nat): (r: Option<nat>)
    requires from <= |s|
    ensures r.Some? ==> from <= r.value && MatchAt(s, r.value) && forall j :: from <= j < r.value ==> !MatchAt(s, j)
    ensures r.None? ==> forall j :: from <= j ==> !MatchAt(s, j)
    decreases |s| - from
  {
    if from == |s| then None
    else if MatchAt(s, from) then Some(from)
    else FirstMatch(s, from + 1)
  }

  /** The sibling search directory: `path.replace(/\/[^\/]+.(\w+)$/, '')`, which cuts the path at the first index where the pattern matches. */
  function SearchDir(path: string): (r: string)
    ensures (forall i :: !MatchAt(path, i)) ==> r == path
    ensures forall i :: MatchAt(path, i) && (forall j :: 0 <= j < i ==> !MatchAt(path, j)) ==> r == path[..i]
  {
    match FirstMatch(path, 0)
    case None => path
    case Some(i) => path[..i]
  }

  /** For an ordinary file path `d/n.e` (the stem has no '/', the extension is word characters) the search directory is `d`. */
  lemma SearchDirOfFile(d: string, n: string, e: string)
    requires |n| > 0 && '/' !in n && |e| > 0 && AllWord(e)
    ensures SearchDir(d + "/" + n + "." + e) == d
  {
    var s := d + "/" + n + "." + e;
    var u := s[|d| + 1..];
    assert u == n + "." + e;
    assert u[..|n|] == n && u[|n| + 1..] == e;
    assert MatchAt(s, |d|);
    forall j | 0 <= j < |d|
      ensures !MatchAt(s, j)
    {
      NoEarlierMatch(s, |d|, |d| + 1 + |n|, j);
    }
    assert s[..|d|] == d;
  }

  /** The unescaped dot does not match a line break: `/a/b\nc` has no match, so it is searched whole. */
  lemma LineBreakIsNotCut()
    ensures SearchDir("/a/b\nc") == "/a/b\nc"
  {
    var s := "/a/b\nc";
    forall i | 0 <= i < |s|
      ensures !MatchAt(s, i)
    {
      if i == 0 {
        NoTailMatchOverBreak("a/b\nc");
      } else if i == 2 {
        NoTailMatchOverBreak("b\nc");
      } else {
        assert s[i] != '/';
      }
    }
  }

  /** Neither `a/b\nc` nor `b\nc` matches the tail: every candidate for the dot leaves a line break or a '/' in the way. */
  lemma NoTailMatchOverBreak(u: string)
    requires u == "a/b\nc" || u == "b\nc"
    ensures !TailMatch(u)
  {
    forall k | 1 <= k <= |u| - 2
      ensures !('/' !in u[..k] && !IsLineTerminator(u[k]) && AllWord(u[k + 1..]))
    {
      if u == "b\nc" {
        assert u[k] == '\n';
      } else if k == 1 {
        assert u[k + 1..][1] == '\n';
      } else {
        assert u[..k][1] == '/';
      }
    }
  }

  lemma NoEarlierMatch(s: string, p: nat, q: nat, j: nat)
    requires j < p < q < |s| && s[p] == '/' && s[q] == '.'
    ensures !MatchAt(s, j)
  {
    var u := s[j + 1..];
    forall k | 1 <= k <= |u| - 2
      ensures !('/' !in u[..k] && AllWord(u[k + 1..]))
    {
      if k > p - j - 1 {
        assert u[..k][p - j - 1] == '/';
      } else {
        assert u[k + 1..][q - j - 1 - (k + 1)] == '.';
      }
    }
  }

  /** The walk filter of the sibling strategy: `*{exts}` with `matchBase`. */
  predicate SiblingWalkFilter(exts: Extnames, p: string) {
    Glob.BaseSuffixGlob(p, AllExts(exts))
  }

  /** The walk filter of the cross strategy: not below `node_modules` or a dot directory, and below a configured directory with a configured extension. */
  predicate CrossWalkFilter(settings: Settings, p: string) {
    !Glob.ExcludedDir(p) && Glob.InDirWithExt(p, settings.AllDirs(), AllExts(settings.exts))
  }

  // ----- the same-stem filter of src/libs/members-base.ts -----

  /** `p.replace(/\.(\w+)$/, '')`: drops a final `.` followed by word characters only. */
  function StripWordExt(p: string): (r: string)
    ensures StartsWith(p, r)
  {
    match LastIndexOf(p, '.')
    case Some(d) => if d + 1 < |p| && AllWord(p[d + 1..]) then p[..d] else p
    case None => p
  }

  /** `getReversePathname`: '/' followed by the '/'-separated pieces of the stripped path in reverse order. */
  function ReversePathname(p: string): string {
    "/" + Join(Reverse(Split(StripWordExt(p), '/')), "/")
  }

  /** commondir splits on separator runs; '\' is read as '/'. */
  function SlashOnly(s: string): (r: string)
    ensures |r| == |s| && forall i :: 0 <= i < |s| ==> r[i] == (if s[i] == '\\' then '/' else s[i])
  {
    seq(|s|, i requires 0 <= i < |s| => if s[i] == '\\' then '/' else s[i])
  }

  /** The non-empty pieces, in order. */
  function NonEmpty(xs: seq<string>): seq<string> {
    if |xs| == 0 then [] else (if xs[0] == "" then [] else [xs[0]]) + NonEmpty(xs[1..])
  }

  /** Splitting on runs of separators: the empty pieces between two separators disappear, the first and last piece stay. */
  function RunSegments(s: string): (r: seq<string>)
    ensures |r| > 0
  {
    var pieces := Split(SlashOnly(s), '/');
    if |pieces| == 1 then pieces
    else [pieces[0]] + NonEmpty(pieces[1..|pieces| - 1]) + [pieces[|pieces| - 1]]
  }

  function CommonPrefixLength(a: seq<string>, b: seq<string>): (r: nat)
    ensures r <= |a| && r <= |b| && a[..r] == b[..r]
    ensures r < |a| && r < |b| ==> a[r] != b[r]
  {
    if |a| == 0 || |b| == 0 || a[0] != b[0] then 0 else 1 + CommonPrefixLength(a[1..], b[1..])
  }

  /** `commondir([a, b])` for two absolute paths: the common leading segments joined by '/', or '/' when at most one is shared. */
  function CommonDir(a: string, b: string): string {
    var ps := RunSegments(a);
    var res := ps[..CommonPrefixLength(ps, RunSegments(b))];
    if |res| > 1 then Join(res, "/") else "/"
  }

  /** The predicate of `filter`: the reversed path names share more than the root. */
  predicate Related(anchor: string, file: string) {
    CommonDir(ReversePathname(anchor), ReversePathname(file)) != "/"
  }

  /** `filter(files)`: the files related to the clicked file, in input order. */
  function FilterRelated(anchor: string, files: seq<string>): (r: seq<string>)
    ensures forall x :: x in r <==> x in files && Related(anchor, x)
    ensures |r| <= |files|
  {
    Where(files, (f: string) => Related(anchor, f))
  }

  /** The last '/'-separated piece of the path once its final `.\w+` is removed: the clicked file's stem. */
  function Stem(p: string): string {
    var pieces := Split(StripWordExt(p), '/');
    pieces[|pieces| - 1]
  }

  lemma {:induction false} SplitLastNoSep(s: string, c: char)
    ensures c !in Split(s, c)[|Split(s, c)| - 1]
    decreases |s|
  {
    if |s| > 0 {
      SplitLastNoSep(s[1..], c);
    }
  }

  lemma SlashOnlyConcat(a: string, b: string)
    ensures SlashOnly(a + b) == SlashOnly(a) + SlashOnly(b)
  {
  }

  lemma SlashOnlyKeeps(s: string)
    requires '\\' !in s
    ensures SlashOnly(s) == s
  {
    assert forall i :: 0 <= i < |s| ==> s[i] in s;
  }

  /** The reversed path name is '/', the stem, and then nothing or a '/' with the remaining pieces. */
  lemma ReversedShape(p: string) returns (rest: string)
    ensures ReversePathname(p) == "/" + Stem(p) + rest
    ensures rest == "" || rest[0] == '/'
  {
    var pieces := Split(StripWordExt(p), '/');
    var r := Reverse(pieces);
    if |r| == 1 {
      rest := "";
    } else {
      rest := "/" + Join(r[1..], "/");
      assert Join(r, "/") == r[0] + "/" + Join(r[1..], "/");
    }
  }

  /** For a non-empty stem without '\', the segments of the reversed path name start with the empty root piece and the stem. */
  lemma RunSegmentsHead(p: string)
    requires Stem(p) != "" && '\\' !in Stem(p)
    ensures var rs := RunSegments(ReversePathname(p)); |rs| >= 2 && rs[0] == "" && rs[1] == Stem(p)
  {
    var c := Stem(p);
    var rest := ReversedShape(p);
    SlashOnlyConcat("/" + c, rest);
    SlashOnlyConcat("/", c);
    SlashOnlyKeeps(c);
    assert SlashOnly("/") == "/";
    SplitLastNoSep(StripWordExt(p), '/');
    var t := SlashOnly(rest);
    assert SlashOnly(ReversePathname(p)) == "/" + c + t;
    SplitRootStem(c, t);
    RunHead(ReversePathname(p), c);
  }

  lemma SplitRootStem(c: string, t: string)
    requires '/' !in c
    requires t == "" || t[0] == '/'
    ensures var pieces := Split("/" + c + t, '/'); |pieces| >= 2 && pieces[0] == "" && pieces[1] == c
  {
    SplitNoSep(c, '/');
    var rest := Split(c + t, '/');
    if t != "" {
      var u := t[1..];
      assert c + t == c + ['/'] + u;
      SplitConcat(c, '/', u);
    } else {
      assert c + t == c;
    }
    assert rest[0] == c;
    assert "/" + c + t == ['/'] + (c + t);
    SplitConsSep(c + t, '/');
  }

  lemma RunHead(text: string, c: string)
    requires c != ""
    requires var pieces := Split(SlashOnly(text), '/'); |pieces| >= 2 && pieces[0] == "" && pieces[1] == c
    ensures var rs := RunSegments(text); |rs| >= 2 && rs[0] == "" && rs[1] == c
  {
    var pieces := Split(SlashOnly(text), '/');
    if |pieces| > 2 {
      var mid := pieces[1..|pieces| - 1];
      assert mid == [c] + mid[1..];
      assert NonEmpty(mid) == [c] + NonEmpty(mid[1..]);
    }
  }

  lemma JoinHead(xs: seq<string>, sep: string)
    requires |xs| > 0
    ensures StartsWith(Join(xs, sep), xs[0])
  {
  }

  /** Two segment lists that both start at the root share a directory exactly when their second segments agree. */
  lemma CommonDirOfHeads(a: string, b: string)
    requires |RunSegments(a)| >= 2 && |RunSegments(b)| >= 2
    requires RunSegments(a)[0] == "" && RunSegments(b)[0] == "" && RunSegments(a)[1] != ""
    ensures CommonDir(a, b) != "/" <==> RunSegments(a)[1] == RunSegments(b)[1]
  {
    var ps, xs := RunSegments(a), RunSegments(b);
    var n := CommonPrefixLength(ps, xs);
    var res := ps[..n];
    if ps[1] == xs[1] {
      assert n >= 2;
      assert res[1..][0] == ps[1];
      JoinHead(res[1..], "/");
      assert Join(res, "/") == res[0] + "/" + Join(res[1..], "/");
    }
  }

  /**
   * `filter` keeps a file exactly when its stem (last segment, final `.\w+` removed) equals the
   * clicked file's, provided both stems are non-empty and hold no '\'.
   */
  lemma RelatedIffSameStem(anchor: string, file: string)
    requires Stem(anchor) != "" && '\\' !in Stem(anchor)
    requires Stem(file) != "" && '\\' !in Stem(file)
    ensures Related(anchor, file) <==> Stem(anchor) == Stem(file)
  {
    RunSegmentsHead(anchor);
    RunSegmentsHead(file);
    CommonDirOfHeads(ReversePathname(anchor), ReversePathname(file));
  }

  // ----- the strategies -----

  /**
   * A klaw-sync walk with a filter: the visited paths that pass it, in visiting order. The walk is
   * read as visiting every path below the directory and filtering afterwards (klaw-sync before
   * version 4, or `traverseAll`); it throws when the directory is missing or is a file.
   */
  function Walk(io: Io, dir: string, keep: string -> bool): (r: Result<seq<string>, Error>)
    ensures io.walk(dir).None? <==> r == Failure(NotADirectory(dir))
    ensures io.walk(dir).Some? ==> r.Success? && forall p :: p in r.value <==> p in io.walk(dir).value && keep(p)
  {
    match io.walk(dir)
    case None => Failure(NotADirectory(dir))
    case Some(visited) => Success(Where(visited, keep))
  }

  /** What the cross walk keeps below the workspace root. */
  function CrossListing(io: Io, settings: Settings, root: string): Result<seq<string>, Error> {
    Walk(io, root, (p: string) => CrossWalkFilter(settings, p))
  }

  /** What the sibling walk keeps below the search directory. */
  function SiblingListing(io: Io, exts: Extnames, dir: string): Result<seq<string>, Error> {
    Walk(io, dir, (p: string) => SiblingWalkFilter(exts, p))
  }

  /** The paths the cross strategy groups: the kept walk, filtered by stem in the family that filters. */
  function CrossKept(fam: Family, io: Io, settings: Settings, root: string, path: string): Result<seq<string>, Error> {
    match CrossListing(io, settings, root)
    case Failure(e) => Failure(e)
    case Success(walked) => Success(if fam.sameStemFilter then FilterRelated(path, walked) else walked)
  }

  /** The outcome of the cross strategy. */
  function CrossOutcome(fam: Family, io: Io, settings: Settings, root: string, path: string): (r: Result<MemberFiles, Error>)
    ensures r.Success? ==> r.value.Grouped?
  {
    match CrossKept(fam, io, settings, root, path)
    case Failure(e) => Failure(e)
    case Success(kept) =>
      match Grouping(fam.classifier, settings.exts, kept)
      case Failure(e) => Failure(e)
      case Success(g) => Success(Grouped(g, true, None))
  }

  /** The outcome of the sibling strategy, falling back to the cross strategy when two or more types found nothing. */
  function SiblingOutcome(fam: Family, io: Io, settings: Settings, root: string, path: string): (r: Result<MemberFiles, Error>)
    ensures r.Success? ==> r.value.Grouped?
  {
    var dir := SearchDir(path);
    match SiblingListing(io, settings.exts, dir)
    case Failure(e) => Failure(e)
    case Success(listed) =>
      match Grouping(fam.classifier, settings.exts, listed)
      case Failure(e) => Failure(e)
      case Success(g) =>
        if EmptyCount(g) > 1 then CrossOutcome(fam, io, settings, root, path)
        else Success(Grouped(g, false, Some(dir)))
  }

  /** `getCandidates` of the cross mode: walk, filter (one family only), group. */
  method CrossCandidates(fam: Family, io: Io, settings: Settings, root: string, path: string) returns (r: Result<MemberFiles, Error>)
    ensures r == CrossOutcome(fam, io, settings, root, path)
  {
    var walked := CrossListing(io, settings, root);
    if walked.Failure? {
      return Failure(walked.error);
    }
    var availables := walked.value;
    if fam.sameStemFilter {
      availables := FilterRelated(path, availables);
    }
    var grouped := GroupByType(fam.classifier, settings.exts, availables);
    match grouped
    case Failure(e) => return Failure(e);
    case Success(files) => return Success(Grouped(files, true, None));
  }

  /** `getCandidates` of the sibling mode. */
  method SiblingCandidates(fam: Family, io: Io, settings: Settings, root: string, path: string) returns (r: Result<MemberFiles, Error>)
    ensures r == SiblingOutcome(fam, io, settings, root, path)
  {
    var dir := SearchDir(path);
    var walked := SiblingListing(io, settings.exts, dir);
    if walked.Failure? {
      return Failure(walked.error);
    }
    var availables := walked.value;
    var grouped := GroupByType(fam.classifier, settings.exts, availables);
    match grouped
    case Failure(e) => return Failure(e);
    case Success(files) =>
      if EmptyCount(files) > 1 {
        r := CrossCandidates(fam, io, settings, root, path);
      } else {
        r := Success(Grouped(files, false, Some(dir)));
      }
  }

  /**
   * The cross strategy throws when the root cannot be walked; otherwise it yields a `crossMode`
   * record of the grouped kept paths, without `commonPath`, and throws exactly when some kept path
   * has no type.
   */
  lemma CrossShape(fam: Family, io: Io, settings: Settings, root: string, path: string)
    ensures io.walk(root).None? ==> CrossOutcome(fam, io, settings, root, path) == Failure(NotADirectory(root))
    ensures io.walk(root).Some? ==>
      var r := CrossOutcome(fam, io, settings, root, path);
      var kept := CrossKept(fam, io, settings, root, path).value;
      (r.Failure? <==> exists i :: 0 <= i < |kept| && TypeByPath(fam.classifier, settings.exts, kept[i]).None?)
      && (r.Success? ==> r.value == Grouped(SelectAll(fam.classifier, settings.exts, kept), true, None))
  {
  }

  /** An entry of list `t` of the cross outcome was walked below the root, passed the walk filter, has type `t`, and (in the filtering family) is related to the clicked file. */
  lemma CrossEntry(fam: Family, io: Io, settings: Settings, root: string, path: string, t: DocType, x: string)
    requires CrossOutcome(fam, io, settings, root, path).Success?
    requires x in CrossOutcome(fam, io, settings, root, path).value.lists.Get(t)
    ensures io.walk(root).Some? && x in io.walk(root).value && CrossWalkFilter(settings, x)
    ensures TypeByPath(fam.classifier, settings.exts, x) == Some(t)
    ensures fam.sameStemFilter ==> Related(path, x)
  {
    CrossShape(fam, io, settings, root, path);
    var kept := CrossKept(fam, io, settings, root, path).value;
    assert x in SelectAll(fam.classifier, settings.exts, kept).Get(t);
    SelectMembers(fam.classifier, settings.exts, kept, t, x);
  }

  /**
   * The sibling strategy throws when the search directory cannot be walked; otherwise it either
   * throws on an untyped path, or returns the cross outcome, or returns a record grouped from the
   * sibling walk of the search directory with `commonPath` set, no `crossMode` and at most one empty
   * list.
   */
  lemma SiblingShape(fam: Family, io: Io, settings: Settings, root: string, path: string)
    ensures io.walk(SearchDir(path)).None? ==> SiblingOutcome(fam, io, settings, root, path) == Failure(NotADirectory(SearchDir(path)))
    ensures io.walk(SearchDir(path)).Some? ==>
      var r := SiblingOutcome(fam, io, settings, root, path);
      var dir := SearchDir(path);
      var listed := SiblingListing(io, settings.exts, dir).value;
      (r == Failure(UntypedPush) && !AllTyped(fam.classifier, settings.exts, listed))
      || (AllTyped(fam.classifier, settings.exts, listed) && EmptyCount(SelectAll(fam.classifier, settings.exts, listed)) > 1
          && r == CrossOutcome(fam, io, settings, root, path))
      || (AllTyped(fam.classifier, settings.exts, listed) && EmptyCount(SelectAll(fam.classifier, settings.exts, listed)) <= 1
          && r == Success(Grouped(SelectAll(fam.classifier, settings.exts, listed), false, Some(dir))))
  {
  }

  // ----- resolveFiles -----

  /** Every type has at most one candidate. */
  predicate Doubtless(files: MemberFiles)
    requires !files.Stored?
  {
    match files
    case Grouped(lists, _, _) => |lists.script| <= 1 && |lists.style| <= 1 && |lists.template| <= 1
    case SplitMode(entries, _) => |entries.script| <= 1 && |entries.style| <= 1 && |entries.template| <= 1
  }

  /** `files[type][0]`, with None for `undefined`. */
  function First(files: MemberFiles, t: DocType): (r: Option<string>)
    requires !files.Stored?
    ensures files.Grouped? ==> (r.Some? <==> files.lists.Get(t) != []) && (r.Some? ==> r.value == files.lists.Get(t)[0])
  {
    match files
    case Grouped(lists, _, _) => if lists.Get(t) == [] then None else Some(lists.Get(t)[0])
    case SplitMode(entries, _) => if entries.Get(t) == [] then None else entries.Get(t)[0]
  }

  /** The three lists, each ranked for its type. */
  function RankAll(fam: Family, anchor: string, lists: ByType<seq<string>>): (r: ByType<seq<string>>)
    ensures forall t :: r.Get(t) == Weight.Ranked(fam.tier3, Name(t), anchor, lists.Get(t))
  {
    ByType(Weight.Ranked(fam.tier3, "script", anchor, lists.script),
           Weight.Ranked(fam.tier3, "style", anchor, lists.style),
           Weight.Ranked(fam.tier3, "template", anchor, lists.template))
  }

  /** The resolved record after the first `n` types of `TYPES` are ranked. */
  function RankedUpTo(all: ByType<seq<string>>, n: nat): ByType<seq<string>> {
    ByType(if n > 0 then all.script else [], if n > 1 then all.style else [], if n > 2 then all.template else [])
  }

  /** What `resolveFiles` returns for the candidates `files`. */
  function Resolved(fam: Family, anchor: string, files: MemberFiles): MemberFiles
    requires !files.Stored?
  {
    if Doubtless(files) || files.SplitMode? then files else Grouped(RankAll(fam, anchor, files.lists), false, None)
  }

  /**
   * `resolveFiles`: the candidate record itself when no type has two or more candidates or in split
   * mode; otherwise a fresh record of the three ranked lists, without the mode fields.
   */
  method ResolveFiles(fam: Family, anchor: string, files: MemberFiles) returns (r: MemberFiles)
    requires !files.Stored?
    ensures Doubtless(files) || files.SplitMode? ==> r == files
    ensures !(Doubtless(files) || files.SplitMode?) ==>
      r == Grouped(RankAll(fam, anchor, files.lists), false, None)
    ensures r == Resolved(fam, anchor, files)
  {
    if Doubtless(files) || files.SplitMode? {
      return files;
    }
    ghost var all := RankAll(fam, anchor, files.lists);
    var resolved: ByType<seq<string>> := ByType([], [], []);
    for i := 0 to |TYPES|
      invariant resolved == RankedUpTo(all, i)
    {
      var t := TYPES[i];
      var ranked := Weight.MatchFileOfWeight(fam.tier3, Name(t), anchor, files.lists.Get(t));
      assert ranked == all.Get(t);
      resolved := resolved.Set(t, ranked);
    }
    return Grouped(resolved, false, None);
  }
}
