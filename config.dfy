/**
 * The settings of src/config.ts: the pattern cleaner applied to every configurable list, the
 * completion of the column order, and the getters that read the workspace settings (given here
 * as a value instead of being fetched from the editor).
 */
module Config {
  import opened Wrappers
  import opened Text

  // ----- the order `Array.prototype.sort` puts strings in -----

  /** `a` sorts strictly before `b`: compared character by character, a proper prefix first. */
  predicate Less(a: string, b: string)
    decreases |a|
  {
    if |a| == 0 then |b| > 0
    else if |b| == 0 then false
    else a[0] < b[0] || (a[0] == b[0] && Less(a[1..], b[1..]))
  }

  lemma {:induction false} LessIrreflexive(a: string)
    ensures !Less(a, a)
    decreases |a|
  {
    if |a| > 0 {
      LessIrreflexive(a[1..]);
    }
  }

  lemma {:induction false} LessTotal(a: string, b: string)
    ensures a == b || Less(a, b) || Less(b, a)
    decreases |a|
  {
    if |a| > 0 && |b| > 0 && a[0] == b[0] {
      LessTotal(a[1..], b[1..]);
      if a[1..] == b[1..] {
        assert a == [a[0]] + a[1..] && b == [b[0]] + b[1..];
      }
    }
  }

  lemma {:induction false} LessAsymmetric(a: string, b: string)
    requires Less(a, b)
    ensures !Less(b, a)
    decreases |a|
  {
    if |a| > 0 && |b| > 0 && a[0] == b[0] {
      LessAsymmetric(a[1..], b[1..]);
    }
  }

  lemma {:induction false} LessTransitive(a: string, b: string, c: string)
    requires Less(a, b) && Less(b, c)
    ensures Less(a, c)
    decreases |a|
  {
    if |a| > 0 && a[0] == b[0] && b[0] == c[0] {
      LessTransitive(a[1..], b[1..], c[1..]);
    }
  }

  /** `a` sorts no later than `b`. */
  predicate AtMost(a: string, b: string) {
    !Less(b, a)
  }

  lemma AtMostTransitive(a: string, b: string, c: string)
    requires AtMost(a, b) && AtMost(b, c)
    ensures AtMost(a, c)
  {
    LessTotal(a, b);
    LessTotal(b, c);
    if Less(c, a) {
      if Less(a, b) {
        LessTransitive(c, a, b);
      } else if Less(b, c) {
        LessTransitive(b, c, a);
      }
    }
  }

  /** A negation `!p` sorts before `p` whenever `p` starts with a character above '!'. */
  lemma NegationSortsFirst(p: string)
    requires |p| > 0 && p[0] > '!'
    ensures Less("!" + p, p)
  {
  }

  predicate Ascending(s: seq<string>) {
    forall i, j :: 0 <= i < j < |s| ==> AtMost(s[i], s[j])
  }

  predicate Descending(s: seq<string>) {
    forall i, j :: 0 <= i < j < |s| ==> AtMost(s[j], s[i])
  }

  predicate StrictlyDescending(s: seq<string>) {
    forall i, j :: 0 <= i < j < |s| ==> Less(s[j], s[i])
  }

  // ----- `patterns.sort().reverse()` -----

  /** Puts `x` before the first element that does not sort before it. */
  function Insert(x: string, s: seq<string>): (r: seq<string>)
    ensures multiset(r) == multiset(s) + multiset{x}
    ensures |r| == |s| + 1
  {
    if |s| == 0 then [x]
    else if AtMost(x, s[0]) then [x] + s
    else
      assert s == [s[0]] + s[1..];
      [s[0]] + Insert(x, s[1..])
  }

  /** An ascending list stays ascending behind a head that sorts no later than any of its elements. */
  lemma ConsAscending(h: string, t: seq<string>)
    requires Ascending(t)
    requires forall j :: 0 <= j < |t| ==> AtMost(h, t[j])
    ensures Ascending([h] + t)
  {
    var r := [h] + t;
    forall i, j | 0 <= i < j < |r|
      ensures AtMost(r[i], r[j])
    {
      assert r[j] == t[j - 1];
      if i > 0 {
        assert r[i] == t[i - 1];
      }
    }
  }

  /** A lower bound of `x` and of every element of `s` bounds every element of `Insert(x, s)`. */
  lemma InsertLowerBound(x: string, s: seq<string>, b: string)
    requires AtMost(b, x)
    requires forall j :: 0 <= j < |s| ==> AtMost(b, s[j])
    ensures forall j :: 0 <= j < |Insert(x, s)| ==> AtMost(b, Insert(x, s)[j])
  {
    var r := Insert(x, s);
    forall j | 0 <= j < |r|
      ensures AtMost(b, r[j])
    {
      assert r[j] in multiset(r);
      if r[j] != x {
        assert r[j] in multiset(s);
        var k :| 0 <= k < |s| && s[k] == r[j];
      }
    }
  }

  lemma {:induction false} InsertAscending(x: string, s: seq<string>)
    requires Ascending(s)
    ensures Ascending(Insert(x, s))
    decreases |s|
  {
    if |s| == 0 {
    } else if AtMost(x, s[0]) {
      forall j | 0 <= j < |s|
        ensures AtMost(x, s[j])
      {
        if j > 0 {
          AtMostTransitive(x, s[0], s[j]);
        }
      }
      ConsAscending(x, s);
    } else {
      var tail := s[1..];
      InsertAscending(x, tail);
      LessTotal(x, s[0]);
      LessAsymmetric(s[0], x);
      assert forall j :: 0 <= j < |tail| ==> AtMost(s[0], tail[j]) by {
        forall j | 0 <= j < |tail|
          ensures AtMost(s[0], tail[j])
        {
          assert tail[j] == s[j + 1];
        }
      }
      InsertLowerBound(x, tail, s[0]);
      ConsAscending(s[0], Insert(x, tail));
    }
  }

  /** The ascending arrangement of the patterns (`sort()`). */
  function Sort(s: seq<string>): (r: seq<string>)
    ensures multiset(r) == multiset(s)
    ensures |r| == |s|
  {
    if |s| == 0 then []
    else
      assert s == [s[0]] + s[1..];
      Insert(s[0], Sort(s[1..]))
  }

  lemma {:induction false} SortAscending(s: seq<string>)
    ensures Ascending(Sort(s))
    decreases |s|
  {
    if |s| > 0 {
      SortAscending(s[1..]);
      InsertAscending(s[0], Sort(s[1..]));
    }
  }

  /** `sort().reverse()` arranges the patterns from the last in sort order to the first, keeping every copy. */
  lemma SortReversed(s: seq<string>)
    ensures Descending(Reverse(Sort(s)))
    ensures multiset(Reverse(Sort(s))) == multiset(s)
  {
    SortAscending(s);
    var r := Sort(s);
    ReverseMultiset(r);
  }

  lemma {:induction false} ReverseMultiset(s: seq<string>)
    ensures multiset(Reverse(s)) == multiset(s)
    decreases |s|
  {
    if |s| > 0 {
      ReverseMultiset(s[..|s| - 1]);
      assert s == s[..|s| - 1] + [s[|s| - 1]];
    }
  }

  // ----- the `reduce` of cleanPatterns -----

  /** `cleared.filter(item => item !== pattern)`. */
  function Without(cleared: seq<string>, pattern: string): (r: seq<string>)
    ensures forall x :: x in r <==> x in cleared && x != pattern
    ensures |r| <= |cleared|
  {
    if |cleared| == 0 then []
    else (if cleared[0] == pattern then [] else [cleared[0]]) + Without(cleared[1..], pattern)
  }

  /** One step of the reduce: `!p` removes `p`; any other pattern moves to the end. */
  function Step(cleared: seq<string>, pattern: string): seq<string> {
    if StartsWith(pattern, "!") then Without(cleared, pattern[1..])
    else Without(cleared, pattern) + [pattern]
  }

  function Fold(cleared: seq<string>, patterns: seq<string>): seq<string>
    decreases |patterns|
  {
    if |patterns| == 0 then cleared else Fold(Step(cleared, patterns[0]), patterns[1..])
  }

  /** What `cleanPatterns` returns for a list of patterns. */
  function Clean(patterns: seq<string>): seq<string> {
    Fold([], Reverse(Sort(patterns)))
  }

  /**
   * `cleanPatterns(patterns)`: sorts the caller's array and reverses it in place, then folds the
   * reversed list into the cleaned one.
   */
  method CleanPatterns(patterns: array<string>) returns (r: seq<string>)
    modifies patterns
    ensures patterns[..] == Reverse(Sort(old(patterns[..])))
    ensures r == Clean(old(patterns[..]))
  {
    var arranged := Reverse(Sort(patterns[..]));
    forall i | 0 <= i < patterns.Length {
      patterns[i] := arranged[i];
    }
    r := Fold([], patterns[..]);
  }

  predicate NoNegation(s: seq<string>) {
    forall i :: 0 <= i < |s| ==> !StartsWith(s[i], "!")
  }

  lemma {:induction false} FoldNoNegation(cleared: seq<string>, patterns: seq<string>)
    requires NoNegation(cleared)
    ensures NoNegation(Fold(cleared, patterns))
    decreases |patterns|
  {
    if |patterns| > 0 {
      var next := Step(cleared, patterns[0]);
      forall i | 0 <= i < |next|
        ensures !StartsWith(next[i], "!")
      {
        if next[i] in cleared {
          var k :| 0 <= k < |cleared| && cleared[k] == next[i];
        }
      }
      FoldNoNegation(next, patterns[1..]);
    }
  }

  /** Every entry of `cleared` sorts no earlier than every pattern still to come. */
  predicate Dominates(cleared: seq<string>, patterns: seq<string>) {
    forall i, k :: 0 <= i < |cleared| && 0 <= k < |patterns| ==> AtMost(patterns[k], cleared[i])
  }

  lemma {:induction false} WithoutStrictlyDescending(cleared: seq<string>, pattern: string)
    requires StrictlyDescending(cleared)
    ensures StrictlyDescending(Without(cleared, pattern))
    decreases |cleared|
  {
    if |cleared| > 0 {
      var tail := cleared[1..];
      WithoutStrictlyDescending(tail, pattern);
      var rest := Without(tail, pattern);
      forall j | 0 <= j < |rest|
        ensures Less(rest[j], cleared[0])
      {
        assert rest[j] in tail;
        var k :| 0 <= k < |tail| && tail[k] == rest[j];
        assert cleared[k + 1] == rest[j];
      }
    }
  }

  lemma {:induction false} FoldStrictlyDescending(cleared: seq<string>, patterns: seq<string>)
    requires StrictlyDescending(cleared) && Descending(patterns) && Dominates(cleared, patterns)
    ensures StrictlyDescending(Fold(cleared, patterns))
    decreases |patterns|
  {
    if |patterns| > 0 {
      var p := patterns[0];
      var rest := patterns[1..];
      var next := Step(cleared, p);
      if StartsWith(p, "!") {
        WithoutStrictlyDescending(cleared, p[1..]);
        forall i, k | 0 <= i < |next| && 0 <= k < |rest|
          ensures AtMost(rest[k], next[i])
        {
          assert next[i] in cleared;
          var m :| 0 <= m < |cleared| && cleared[m] == next[i];
          assert rest[k] == patterns[k + 1];
        }
      } else {
        var kept := Without(cleared, p);
        WithoutStrictlyDescending(cleared, p);
        forall j | 0 <= j < |kept|
          ensures Less(p, kept[j])
        {
          assert kept[j] in cleared;
          var m :| 0 <= m < |cleared| && cleared[m] == kept[j];
          LessTotal(p, kept[j]);
        }
        forall i, k | 0 <= i < |next| && 0 <= k < |rest|
          ensures AtMost(rest[k], next[i])
        {
          assert rest[k] == patterns[k + 1];
          if i < |kept| {
            assert next[i] in cleared;
            var m :| 0 <= m < |cleared| && cleared[m] == next[i];
          }
        }
      }
      assert Descending(rest) by {
        forall i, j | 0 <= i < j < |rest|
          ensures AtMost(rest[j], rest[i])
        {
          assert rest[i] == patterns[i + 1] && rest[j] == patterns[j + 1];
        }
      }
      FoldStrictlyDescending(next, rest);
    }
  }

  /** Whether `p` is in the cleared list after the patterns are folded in, starting from `alive`. */
  function Alive(alive: bool, patterns: seq<string>, p: string): bool
    decreases |patterns|
  {
    if |patterns| == 0 then alive
    else Alive(if patterns[0] == p then true else if patterns[0] == "!" + p then false else alive, patterns[1..], p)
  }

  lemma {:induction false} FoldMembership(cleared: seq<string>, patterns: seq<string>, p: string)
    requires !StartsWith(p, "!")
    ensures p in Fold(cleared, patterns) <==> Alive(p in cleared, patterns, p)
    decreases |patterns|
  {
    if |patterns| > 0 {
      var q := patterns[0];
      var next := Step(cleared, q);
      if StartsWith(q, "!") {
        assert q == "!" + q[1..];
      } else {
        assert q != "!" + p;
      }
      assert (p in next) == (if q == p then true else if q == "!" + p then false else p in cleared);
      FoldMembership(next, patterns[1..], p);
    }
  }

  lemma {:induction false} AliveWithoutNegation(alive: bool, patterns: seq<string>, p: string)
    requires "!" + p !in patterns
    ensures Alive(alive, patterns, p) == (alive || p in patterns)
    decreases |patterns|
  {
    if |patterns| > 0 {
      assert forall x :: x in patterns[1..] ==> x in patterns;
      AliveWithoutNegation(if patterns[0] == p then true else alive, patterns[1..], p);
      assert patterns == [patterns[0]] + patterns[1..];
    }
  }

  lemma {:induction false} AliveWithNegation(alive: bool, patterns: seq<string>, p: string)
    requires Descending(patterns) && |p| > 0 && p[0] > '!'
    requires "!" + p in patterns
    ensures !Alive(alive, patterns, p)
    decreases |patterns|
  {
    var q, rest := patterns[0], patterns[1..];
    assert Descending(rest) by {
      forall i, j | 0 <= i < j < |rest|
        ensures AtMost(rest[j], rest[i])
      {
        assert rest[i] == patterns[i + 1] && rest[j] == patterns[j + 1];
      }
    }
    if q == "!" + p {
      NegationSortsFirst(p);
      forall k | 0 <= k < |rest|
        ensures rest[k] != p
      {
        assert patterns[k + 1] == rest[k];
      }
      if "!" + p in rest {
        AliveWithNegation(false, rest, p);
      } else {
        AliveWithoutNegation(false, rest, p);
      }
    } else {
      assert patterns == [q] + rest;
      AliveWithNegation(if q == p then true else alive, rest, p);
    }
  }

  lemma SameMembers(a: seq<string>, b: seq<string>, x: string)
    requires multiset(a) == multiset(b)
    ensures x in a <==> x in b
  {
    assert x in a <==> x in multiset(a);
    assert x in b <==> x in multiset(b);
  }

  /** The cleaned list holds no negated pattern. */
  lemma CleanHasNoNegation(patterns: seq<string>)
    ensures forall i :: 0 <= i < |Clean(patterns)| ==> !StartsWith(Clean(patterns)[i], "!")
  {
    FoldNoNegation([], Reverse(Sort(patterns)));
  }

  /** The cleaned list runs strictly from the last pattern in sort order to the first, so it holds no pattern twice. */
  lemma CleanStrictlyDescending(patterns: seq<string>)
    ensures forall i, j :: 0 <= i < j < |Clean(patterns)| ==> Less(Clean(patterns)[j], Clean(patterns)[i])
    ensures forall i, j :: 0 <= i < j < |Clean(patterns)| ==> Clean(patterns)[i] != Clean(patterns)[j]
  {
    SortReversed(patterns);
    var c := Clean(patterns);
    FoldStrictlyDescending([], Reverse(Sort(patterns)));
    forall i, j | 0 <= i < j < |c|
      ensures c[i] != c[j]
    {
      LessIrreflexive(c[i]);
    }
  }

  /**
   * For a pattern starting with a character above '!' (every extension and directory name does),
   * the cleaned list holds it exactly when it was given and its negation was not.
   */
  lemma CleanMembership(patterns: seq<string>, p: string)
    requires |p| > 0 && p[0] > '!'
    ensures p in Clean(patterns) <==> p in patterns && "!" + p !in patterns
  {
    var arranged := Reverse(Sort(patterns));
    SortReversed(patterns);
    SameMembers(arranged, patterns, p);
    SameMembers(arranged, patterns, "!" + p);
    DescendingFoldMembership(arranged, p);
  }

  lemma DescendingFoldMembership(arranged: seq<string>, p: string)
    requires |p| > 0 && p[0] > '!' && Descending(arranged)
    ensures p in Fold([], arranged) <==> p in arranged && "!" + p !in arranged
  {
    assert !StartsWith(p, "!");
    FoldMembership([], arranged, p);
    if "!" + p in arranged {
      AliveWithNegation(false, arranged, p);
    } else {
      AliveWithoutNegation(false, arranged, p);
    }
  }

  // ----- the settings and their getters -----

  const DEF_DIRS: seq<string> := ["/components", "/views", "/pages", "/packages"]
  const DEF_SFC_EXTS: seq<string> := [".vue", ".we", ".weex"]
  const DEF_COL_ORDER: seq<string> := ["script", "template", "style"]
  const DEF_STYLE_EXTS: seq<string> := [".css", ".scss", ".sass", ".less", ".styl", ".stylus"]
  const DEF_SCRIPT_EXTS: seq<string> := [".js", ".jsx", ".ts", ".tsx", ".mjs", ".es", ".es6", ".coffee", ".dart"]
  const DEF_TEMPLATE_EXTS: seq<string> :=
    [".jade", ".pug", ".tpl", ".html", ".mustache", ".ejs", ".def", ".dot", ".jst", ".handlebars", ".hbs", ".haml", ".dust", ".njk"]

  /** The `parallel` section of the workspace settings. A setting that is not a string or a list is out of scope. */
  datatype WorkspaceConfig = WorkspaceConfig(
    cacheDirectory: Option<string>,
    includeDirectories: seq<string>,
    splitSingleFileComponentOnEditing: Option<bool>,
    singleFileComponentExtnames: seq<string>,
    columnsOrder: seq<string>,
    styleExtnames: seq<string>,
    scriptExtnames: seq<string>,
    templateExtnames: seq<string>)

  /** `cacheDirectory`: the setting when it is a non-empty string, `.parallel` otherwise. */
  function CacheDirectory(ws: WorkspaceConfig): (r: string)
    ensures r != ""
    ensures ws.cacheDirectory.Some? && ws.cacheDirectory.value != "" ==> r == ws.cacheDirectory.value
    ensures ws.cacheDirectory.None? || ws.cacheDirectory.value == "" ==> r == ".parallel"
  {
    match ws.cacheDirectory
    case Some(d) => if d != "" then d else ".parallel"
    case None => ".parallel"
  }

  /** `isSplitSFC`: the truthiness of the split setting. */
  function IsSplitSFC(ws: WorkspaceConfig): (r: bool)
    ensures r <==> ws.splitSingleFileComponentOnEditing == Some(true)
  {
    match ws.splitSingleFileComponentOnEditing
    case Some(b) => b
    case None => false
  }

  /** `directories`: the default directories and the included ones, cleaned. */
  function Directories(ws: WorkspaceConfig): seq<string> {
    Clean(DEF_DIRS + ws.includeDirectories)
  }

  /** `sfcExtnames`. */
  function SfcExtnames(ws: WorkspaceConfig): seq<string> {
    Clean(DEF_SFC_EXTS + ws.singleFileComponentExtnames)
  }

  /** `styleExtnames`, `scriptExtnames`, `templateExtnames`. */
  function StyleExtnames(ws: WorkspaceConfig): seq<string> {
    Clean(DEF_STYLE_EXTS + ws.styleExtnames)
  }

  function ScriptExtnames(ws: WorkspaceConfig): seq<string> {
    Clean(DEF_SCRIPT_EXTS + ws.scriptExtnames)
  }

  function TemplateExtnames(ws: WorkspaceConfig): seq<string> {
    Clean(DEF_TEMPLATE_EXTS + ws.templateExtnames)
  }

  /** A default entry stays in its setting unless the user negates it; a user entry is added unless negated. */
  lemma DefaultsKept(defaults: seq<string>, user: seq<string>, p: string)
    requires |p| > 0 && p[0] > '!'
    requires p in defaults || p in user
    ensures p in Clean(defaults + user) <==> "!" + p !in user && "!" + p !in defaults
  {
    CleanMembership(defaults + user, p);
  }

  /** Every default directory is listed by `directories` unless the included directories negate it. */
  lemma DirectoriesKeepDefaults(ws: WorkspaceConfig, d: string)
    requires d in DEF_DIRS
    ensures d in Directories(ws) <==> "!" + d !in ws.includeDirectories
  {
    assert d[0] == '/' && ("!" + d)[0] == '!';
    assert forall x :: x in DEF_DIRS ==> x[0] == '/';
    DefaultsKept(DEF_DIRS, ws.includeDirectories, d);
  }

  /** Every default single-file-component extension is listed unless negated. */
  lemma SfcExtnamesKeepDefaults(ws: WorkspaceConfig, e: string)
    requires e in DEF_SFC_EXTS
    ensures e in SfcExtnames(ws) <==> "!" + e !in ws.singleFileComponentExtnames
  {
    assert e[0] == '.' && ("!" + e)[0] == '!';
    assert forall x :: x in DEF_SFC_EXTS ==> x[0] == '.';
    DefaultsKept(DEF_SFC_EXTS, ws.singleFileComponentExtnames, e);
  }

  // ----- the column order -----

  predicate Distinct(s: seq<string>) {
    forall i, j :: 0 <= i < j < |s| ==> s[i] != s[j]
  }

  /** The entries of `defaults` missing from `configured`, in the order of `defaults`. */
  function Missing(defaults: seq<string>, configured: seq<string>): (r: seq<string>)
    ensures forall x :: x in r <==> x in defaults && x !in configured
    ensures |r| <= |defaults|
    ensures Distinct(defaults) ==> Distinct(r)
  {
    if |defaults| == 0 then []
    else
      var init := defaults[..|defaults| - 1];
      var last := defaults[|defaults| - 1];
      assert defaults == init + [last];
      Missing(init, configured) + (if last in configured then [] else [last])
  }

  /** Completing a duplicate-free order with the missing defaults keeps it free of duplicates and names every default. */
  lemma CompletedOrderDistinct(configured: seq<string>)
    requires Distinct(configured)
    ensures Distinct(configured + Missing(DEF_COL_ORDER, configured))
    ensures forall x :: x in DEF_COL_ORDER ==> x in configured + Missing(DEF_COL_ORDER, configured)
  {
    var missing := Missing(DEF_COL_ORDER, configured);
    var order := configured + missing;
    assert Distinct(DEF_COL_ORDER);
    forall i, j | 0 <= i < j < |order|
      ensures order[i] != order[j]
    {
      if j >= |configured| && i < |configured| {
        assert order[j] == missing[j - |configured|];
        assert order[j] in missing;
        assert order[i] in configured;
      } else if i >= |configured| {
        assert order[i] == missing[i - |configured|] && order[j] == missing[j - |configured|];
      }
    }
  }

  /** The `forEach` of `columnsOrder`: a copy of the configured order, then each default it does not include. */
  method AppendMissing(configured: seq<string>, defaults: seq<string>) returns (order: seq<string>)
    ensures order == configured + Missing(defaults, configured)
  {
    order := configured;
    for i := 0 to |defaults|
      invariant order == configured + Missing(defaults[..i], configured)
    {
      var item := defaults[i];
      MissingStep(defaults, configured, i);
      if item !in configured {
        order := order + [item];
      }
    }
    assert defaults[..|defaults|] == defaults;
  }

  /** `columnsOrder`: the configured order, then each default column it does not name. */
  method ColumnsOrder(configured: seq<string>) returns (order: seq<string>)
    ensures order == configured + Missing(DEF_COL_ORDER, configured)
    ensures forall t :: t in DEF_COL_ORDER ==> t in order
    ensures |order| <= |configured| + |DEF_COL_ORDER|
  {
    order := AppendMissing(configured, DEF_COL_ORDER);
  }

  lemma MissingStep(defaults: seq<string>, configured: seq<string>, i: nat)
    requires i < |defaults|
    ensures Missing(defaults[..i + 1], configured) == Missing(defaults[..i], configured) + (if defaults[i] in configured then [] else [defaults[i]])
  {
    assert defaults[..i + 1][..i] == defaults[..i];
  }
}
