/** String operations with the meaning JavaScript gives them. Strings are sequences of characters. */
module Text {
  import opened Wrappers

  predicate StartsWith(s: string, p: string) {
    |p| <= |s| && s[..|p|] == p
  }

  predicate EndsWith(s: string, p: string) {
    |p| <= |s| && s[|s| - |p|..] == p
  }

  /** `p` occurs in `s` (JavaScript `s.includes(p)`). */
  predicate Contains(s: string, p: string)
    decreases |s|
  {
    StartsWith(s, p) || (|s| > 0 && Contains(s[1..], p))
  }

  lemma {:induction false} ContainsAt(s: string, p: string, k: nat)
    requires k + |p| <= |s| && s[k..k + |p|] == p
    ensures Contains(s, p)
    decreases k
  {
    if k > 0 {
      assert s[1..][k - 1..k - 1 + |p|] == s[k..k + |p|];
      ContainsAt(s[1..], p, k - 1);
    } else {
      assert s[..|p|] == s[0..|p|];
    }
  }

  lemma {:induction false} ContainsMiddle(a: string, p: string, b: string)
    ensures Contains(a + p + b, p)
  {
    var s := a + p + b;
    assert s[|a|..|a| + |p|] == p;
    ContainsAt(s, p, |a|);
  }

  /** Index of the first occurrence of `p` in `s` (JavaScript `indexOf`, None for -1). */
  function IndexOf(s: string, p: string): (r: Option<nat>)
    ensures r.Some? ==> r.value + |p| <= |s| && s[r.value..r.value + |p|] == p
    ensures r.Some? ==> forall k :: 0 <= k < r.value ==> !StartsWith(s[k..], p)
    ensures r.None? <==> !Contains(s, p)
    decreases |s|
  {
    if StartsWith(s, p) then Some(0)
    else if |s| == 0 then None
    else
      match IndexOf(s[1..], p)
      case None => None
      case Some(v) =>
        IndexOfStep(s, p, v);
        Some(v + 1)
  }

  /** An occurrence at `v` in `s[1..]` with none before it is one at `v + 1` in `s` with none before it, when `s` does not start with `p`. */
  lemma IndexOfStep(s: string, p: string, v: nat)
    requires |s| > 0 && !StartsWith(s, p)
    requires v + |p| <= |s| - 1 && s[1..][v..v + |p|] == p
    requires forall k :: 0 <= k < v ==> !StartsWith(s[1..][k..], p)
    ensures s[v + 1..v + 1 + |p|] == p
    ensures forall k :: 0 <= k < v + 1 ==> !StartsWith(s[k..], p)
  {
    assert s[v + 1..v + 1 + |p|] == s[1..][v..v + |p|];
    forall k | 1 <= k < v + 1
      ensures !StartsWith(s[k..], p)
    {
      assert s[k..] == s[1..][k - 1..];
    }
  }

  /** Index of the last occurrence of `c` in `s`. */
  function LastIndexOf(s: string, c: char): (r: Option<nat>)
    ensures r.Some? ==> r.value < |s| && s[r.value] == c && forall k :: r.value < k < |s| ==> s[k] != c
    ensures r.None? ==> forall k :: 0 <= k < |s| ==> s[k] != c
  {
    if |s| == 0 then None
    else if s[|s| - 1] == c then Some(|s| - 1)
    else LastIndexOf(s[..|s| - 1], c)
  }

  /** ASCII case folding; the only folding the model applies. */
  function LowerChar(c: char): char {
    if 'A' <= c <= 'Z' then (c as int + 32) as char else c
  }

  function Lower(s: string): (r: string)
    ensures |r| == |s| && forall i :: 0 <= i < |s| ==> r[i] == LowerChar(s[i])
  {
    seq(|s|, i requires 0 <= i < |s| => LowerChar(s[i]))
  }

  lemma LowerConcat(a: string, b: string)
    ensures Lower(a + b) == Lower(a) + Lower(b)
  {
  }

  lemma LowerTail(s: string)
    requires |s| > 0
    ensures Lower(s) == [LowerChar(s[0])] + Lower(s[1..])
  {
    var r := [LowerChar(s[0])] + Lower(s[1..]);
    forall k | 0 <= k < |s|
      ensures Lower(s)[k] == r[k]
    {
      if k > 0 {
        assert s[1..][k - 1] == s[k];
      }
    }
  }

  /** `\w` in a JavaScript regular expression. */
  predicate IsWordChar(c: char) {
    ('a' <= c <= 'z') || ('A' <= c <= 'Z') || ('0' <= c <= '9') || c == '_'
  }

  predicate AllWord(s: string) {
    forall i :: 0 <= i < |s| ==> IsWordChar(s[i])
  }

  /** An optional string counts only when it is present and non-empty (JavaScript truthiness). */
  predicate Truthy(a: Option<string>) {
    a.Some? && a.value != ""
  }

  /** `xs.filter(keep)`. */
  function Where<T(!new)>(xs: seq<T>, keep: T -> bool): (r: seq<T>)
    ensures forall x :: x in r <==> x in xs && keep(x)
    ensures |r| <= |xs|
  {
    if |xs| == 0 then []
    else Where(xs[..|xs| - 1], keep) + (if keep(xs[|xs| - 1]) then [xs[|xs| - 1]] else [])
  }

  lemma {:induction false} WhereAll<T(!new)>(xs: seq<T>, keep: T -> bool)
    requires forall x :: x in xs ==> keep(x)
    ensures Where(xs, keep) == xs
  {
    if |xs| > 0 {
      var init := xs[..|xs| - 1];
      WhereAll(init, keep);
      assert keep(xs[|xs| - 1]);
      assert Where(xs, keep) == Where(init, keep) + [xs[|xs| - 1]];
      assert init + [xs[|xs| - 1]] == xs;
    }
  }

  /** The filter keeps order: filtering a concatenation filters each part in place. */
  lemma {:induction false} WhereConcat<T(!new)>(a: seq<T>, b: seq<T>, keep: T -> bool)
    ensures Where(a + b, keep) == Where(a, keep) + Where(b, keep)
    decreases |b|
  {
    if |b| == 0 {
      assert a + b == a;
    } else {
      var init := b[..|b| - 1];
      var last := b[|b| - 1];
      var tail := if keep(last) then [last] else [];
      WhereConcat(a, init, keep);
      assert (a + b)[..|a + b| - 1] == a + init;
      assert (a + b)[|a + b| - 1] == last;
      assert Where(a + b, keep) == Where(a + init, keep) + tail;
      assert Where(b, keep) == Where(init, keep) + tail;
    }
  }

  /** The LineTerminator characters, which a regular expression `.` without the `s` flag does not match. */
  predicate IsLineTerminator(c: char) {
    c == '\n' || c == '\r' || c == '\U{2028}' || c == '\U{2029}'
  }

  /** WhiteSpace and LineTerminator as `String.prototype.trim` removes them. */
  predicate IsJsSpace(c: char) {
    c == ' ' || c == '\t' || c == '\n' || c == '\r' || c == '\U{B}' || c == '\U{C}'
    || c == '\U{A0}' || c == '\U{FEFF}' || c == '\U{1680}' || ('\U{2000}' <= c <= '\U{200A}')
    || c == '\U{2028}' || c == '\U{2029}' || c == '\U{202F}' || c == '\U{205F}' || c == '\U{3000}'
  }

  function TrimStart(s: string): (r: string)
    ensures EndsWith(s, r) && (r == "" || !IsJsSpace(r[0]))
    ensures forall k :: 0 <= k < |s| - |r| ==> IsJsSpace(s[k])
  {
    if |s| > 0 && IsJsSpace(s[0]) then
      var r := TrimStart(s[1..]);
      assert s[1..][|s| - 1 - |r|..] == s[|s| - |r|..];
      assert forall k :: 1 <= k < |s| - |r| ==> s[k] == s[1..][k - 1];
      r
    else s
  }

  function TrimEnd(s: string): (r: string)
    ensures StartsWith(s, r) && (r == "" || !IsJsSpace(r[|r| - 1]))
    ensures forall k :: |r| <= k < |s| ==> IsJsSpace(s[k])
  {
    if |s| > 0 && IsJsSpace(s[|s| - 1]) then TrimEnd(s[..|s| - 1]) else s
  }

  /**
   * `r` sits at index `i` of `s`, everything before and after it is white space, and neither end of
   * `r` is white space.
   */
  predicate TrimmedAt(s: string, r: string, i: int) {
    0 <= i && i + |r| <= |s| && s[i..i + |r|] == r
    && (forall k :: 0 <= k < i ==> IsJsSpace(s[k]))
    && (forall k :: i + |r| <= k < |s| ==> IsJsSpace(s[k]))
    && (r == "" || (!IsJsSpace(r[0]) && !IsJsSpace(r[|r| - 1])))
  }

  /** `r` is `s` with the white space at both ends removed. */
  ghost predicate IsTrimOf(s: string, r: string) {
    exists i :: TrimmedAt(s, r, i)
  }

  /** Removing the white space at both ends has one outcome. */
  lemma TrimUnique(s: string, r1: string, r2: string)
    requires IsTrimOf(s, r1) && IsTrimOf(s, r2)
    ensures r1 == r2
  {
    var i1 :| TrimmedAt(s, r1, i1);
    var i2 :| TrimmedAt(s, r2, i2);
    assert |r1| > 0 ==> s[i1] == r1[0] && s[i1 + |r1| - 1] == r1[|r1| - 1];
    assert |r2| > 0 ==> s[i2] == r2[0] && s[i2 + |r2| - 1] == r2[|r2| - 1];
    if |r1| > 0 && |r2| > 0 {
      assert i1 == i2;
      assert |r1| == |r2|;
    }
  }

  /** `String.prototype.trim`. */
  function Trim(s: string): (r: string)
    ensures IsTrimOf(s, r)
    ensures Contains(s, r)
  {
    var t := TrimStart(s);
    var r := TrimEnd(t);
    PrefixOfSuffix(s, t, r);
    TrimmedBetween(s, t, r);
    TrimmedAtIsTrim(s, r, |s| - |t|);
    r
  }

  lemma TrimmedAtIsTrim(s: string, r: string, i: int)
    requires TrimmedAt(s, r, i)
    ensures IsTrimOf(s, r)
  {
  }

  /** A white-space-free start `t` of `s` and a white-space-free end `r` of `t` leave `r` trimmed where `t` begins. */
  lemma TrimmedBetween(s: string, t: string, r: string)
    requires EndsWith(s, t) && (t == "" || !IsJsSpace(t[0])) && forall k :: 0 <= k < |s| - |t| ==> IsJsSpace(s[k])
    requires StartsWith(t, r) && (r == "" || !IsJsSpace(r[|r| - 1])) && forall k :: |r| <= k < |t| ==> IsJsSpace(t[k])
    ensures TrimmedAt(s, r, |s| - |t|)
  {
    var i := |s| - |t|;
    PrefixOfSuffix(s, t, r);
    assert s[i..] == t;
    assert t[..|r|] == r;
    assert s[i..i + |r|] == r by {
      assert s[i..i + |r|] == s[i..][..|r|];
    }
    forall k | i + |r| <= k < |s|
      ensures IsJsSpace(s[k])
    {
      assert s[k] == t[k - i];
    }
  }

  /** A prefix of a suffix of `s` occurs in `s`, and starts with the suffix's first character. */
  lemma PrefixOfSuffix(s: string, t: string, r: string)
    requires EndsWith(s, t) && StartsWith(t, r)
    ensures Contains(s, r)
    ensures r != "" ==> r[0] == t[0]
  {
    var k := |s| - |t|;
    assert s[k..][..|r|] == r;
    assert s[k..k + |r|] == r;
    ContainsAt(s, r, k);
    if r != "" {
      assert t[..|r|][0] == t[0];
    }
  }

  /** `s.replace(/pat/g, rep)` for a pattern that is a plain literal: matches are replaced left to right. */
  function ReplaceAll(s: string, pat: string, rep: string): string
    requires |pat| > 0
    decreases |s|
  {
    if |s| == 0 then ""
    else if StartsWith(s, pat) then rep + ReplaceAll(s[|pat|..], pat, rep)
    else [s[0]] + ReplaceAll(s[1..], pat, rep)
  }

  /** `s.replace(/^lit/, '')`. */
  function StripPrefix(s: string, lit: string): (r: string)
    ensures StartsWith(s, lit) ==> s == lit + r
    ensures !StartsWith(s, lit) ==> r == s
  {
    if StartsWith(s, lit) then s[|lit|..] else s
  }

  /** `s.replace(/\./g, '')`. */
  function RemoveDots(s: string): (r: string)
    ensures '.' !in r
  {
    if |s| == 0 then "" else (if s[0] == '.' then "" else [s[0]]) + RemoveDots(s[1..])
  }

  lemma {:induction false} RemoveDotsConcat(a: string, b: string)
    ensures RemoveDots(a + b) == RemoveDots(a) + RemoveDots(b)
    decreases |a|
  {
    if |a| > 0 {
      assert (a + b)[1..] == a[1..] + b;
      RemoveDotsConcat(a[1..], b);
    } else {
      assert a + b == b;
    }
  }

  lemma {:induction false} RemoveDotsKeeps(s: string, c: char)
    requires c in RemoveDots(s)
    ensures c in s
    decreases |s|
  {
    if |s| > 0 && c != s[0] {
      assert RemoveDots(s) == (if s[0] == '.' then "" else [s[0]]) + RemoveDots(s[1..]);
      RemoveDotsKeeps(s[1..], c);
    }
  }

  /** `Array.prototype.reverse`, as a value. */
  function Reverse<T>(xs: seq<T>): (r: seq<T>)
    ensures |r| == |xs| && forall i :: 0 <= i < |xs| ==> r[i] == xs[|xs| - 1 - i]
  {
    if |xs| == 0 then [] else [xs[|xs| - 1]] + Reverse(xs[..|xs| - 1])
  }

  /** `parts.join(sep)`. */
  function Join(parts: seq<string>, sep: string): string {
    if |parts| == 0 then ""
    else if |parts| == 1 then parts[0]
    else parts[0] + sep + Join(parts[1..], sep)
  }

  /** `s.split(c)` for a one-character separator. */
  function Split(s: string, c: char): (r: seq<string>)
    ensures |r| > 0
    decreases |s|
  {
    if |s| == 0 then [""]
    else if s[0] == c then [""] + Split(s[1..], c)
    else
      var rest := Split(s[1..], c);
      [[s[0]] + rest[0]] + rest[1..]
  }

  lemma {:induction false} SplitJoin(s: string, c: char)
    ensures Join(Split(s, c), [c]) == s
    decreases |s|
  {
    if |s| > 0 {
      SplitJoin(s[1..], c);
      var rest := Split(s[1..], c);
      if s[0] != c {
        if |rest| > 1 {
          assert ([[s[0]] + rest[0]] + rest[1..])[1..] == rest[1..];
          assert Join(rest, [c]) == rest[0] + [c] + Join(rest[1..], [c]);
        }
      }
    }
  }

  lemma SplitConsSep(t: string, c: char)
    ensures Split([c] + t, c) == [""] + Split(t, c)
  {
    assert ([c] + t)[1..] == t;
  }

  lemma SplitConsOther(x: char, t: string, c: char)
    requires x != c
    ensures Split([x] + t, c) == [[x] + Split(t, c)[0]] + Split(t, c)[1..]
  {
    assert ([x] + t)[1..] == t;
  }

  /** Splitting distributes over a separator placed between two strings. */
  lemma {:induction false} SplitConcat(a: string, c: char, b: string)
    ensures Split(a + [c] + b, c) == Split(a, c) + Split(b, c)
    decreases |a|
  {
    if |a| == 0 {
      assert a + [c] + b == [c] + b;
      SplitConsSep(b, c);
    } else {
      var t := a[1..] + [c] + b;
      assert a + [c] + b == [a[0]] + t;
      assert a == [a[0]] + a[1..];
      SplitConcat(a[1..], c, b);
      SplitConsStep(a[0], t, a[1..], c, Split(a[1..], c), Split(b, c));
    }
  }

  lemma SplitConsStep(x: char, t: string, a: string, c: char, left: seq<string>, right: seq<string>)
    requires |left| > 0
    requires Split(t, c) == left + right && Split(a, c) == left
    ensures Split([x] + t, c) == Split([x] + a, c) + right
  {
    if x == c {
      SplitConsSep(t, c);
      SplitConsSep(a, c);
    } else {
      SplitConsOtherStep(x, t, a, c, left, right);
    }
  }

  lemma SplitConsOtherStep(x: char, t: string, a: string, c: char, left: seq<string>, right: seq<string>)
    requires x != c && |left| > 0
    requires Split(t, c) == left + right && Split(a, c) == left
    ensures Split([x] + t, c) == Split([x] + a, c) + right
  {
    SplitConsOther(x, t, c);
    SplitConsOther(x, a, c);
    SplitTail(left, right);
    var h := [x] + left[0];
    assert [h] + (left[1..] + right) == ([h] + left[1..]) + right;
  }

  lemma SplitTail(u: seq<string>, v: seq<string>)
    requires |u| > 0
    ensures (u + v)[0] == u[0] && (u + v)[1..] == u[1..] + v
  {
  }

  /** Splitting undoes a join when no piece holds the separator. */
  lemma {:induction false} JoinSplit(parts: seq<string>, c: char)
    requires |parts| > 0
    requires forall i :: 0 <= i < |parts| ==> c !in parts[i]
    ensures Split(Join(parts, [c]), c) == parts
    decreases |parts|
  {
    if |parts| == 1 {
      SplitNoSep(parts[0], c);
    } else {
      JoinSplit(parts[1..], c);
      SplitNoSep(parts[0], c);
      SplitConcat(parts[0], c, Join(parts[1..], [c]));
      assert parts[0] + [c] + Join(parts[1..], [c]) == Join(parts, [c]);
      assert [parts[0]] + parts[1..] == parts;
    }
  }

  lemma {:induction false} SplitNoSep(s: string, c: char)
    requires c !in s
    ensures Split(s, c) == [s]
    decreases |s|
  {
    if |s| > 0 {
      assert s[0] in s;
      assert forall k :: 0 <= k < |s| - 1 ==> s[1..][k] == s[k + 1];
      SplitNoSep(s[1..], c);
      assert [s[0]] + s[1..] == s;
    }
  }

  /** `s.split(sep)` for a string separator; an empty separator splits into single characters. */
  function SplitBy(s: string, sep: string): (r: seq<string>)
    decreases |s|
  {
    if sep == "" then seq(|s|, i requires 0 <= i < |s| => [s[i]])
    else match IndexOf(s, sep)
      case None => [s]
      case Some(k) => [s[..k]] + SplitBy(s[k + |sep|..], sep)
  }
}
