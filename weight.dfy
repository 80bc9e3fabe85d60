/**
 * Ranking of candidate files against the file the user opened (`matchFileOfWeight` and
 * `getMatchFileOfWeight`). Three copies exist and differ only in their third tier.
 */
module Weight {
  import opened Text
  import Utils
  import Glob

  datatype Tier3Rule =
    | NoTier3        // src/libs/members-base.ts: the push of tier 3 sits inside a comment
    | PluralStem     // src/libs/member-base.ts: `{type,folder}{s,}.*`, nocase, dot
    | ContainsStem   // src/component.ts: `*{type,folder}*.*`, nocase

  /** The tier-3 glob applied to a candidate's base name, with the candidate's own folder as the second alternative. */
  predicate Tier3Match(rule: Tier3Rule, typeName: string, c: Utils.IPath) {
    match rule
    case NoTier3 => false
    case PluralStem => Glob.PluralStemGlob(c.base, [typeName, c.folder])
    case ContainsStem => Glob.ContainsStemGlob(c.base, [typeName, c.folder])
  }

  /** 1: same stem and the anchor's stem names its folder; 2: same stem otherwise; 3: the `index` rule; 0: dropped. */
  function TierOf(rule: Tier3Rule, typeName: string, self: Utils.IPath, c: Utils.IPath): nat {
    if self.name == c.name then (if self.name == self.folder then 1 else 2)
    else if self.name == "index" && Tier3Match(rule, typeName, c) then 3
    else 0
  }

  /** `[...siblings].map(file => IPath.parse(file))`. */
  function ParseAll(paths: seq<string>): (r: seq<Utils.IPath>)
    ensures |r| == |paths| && forall i :: 0 <= i < |paths| ==> r[i] == Utils.Parse(paths[i])
  {
    seq(|paths|, i requires 0 <= i < |paths| => Utils.Parse(paths[i]))
  }

  /** The rewritten paths (`dir + '/' + base`) of the parsed candidates in tier `n`, in input order. */
  function InTier(rule: Tier3Rule, typeName: string, self: Utils.IPath, cs: seq<Utils.IPath>, n: nat): seq<string> {
    if |cs| == 0 then []
    else
      var c := cs[|cs| - 1];
      InTier(rule, typeName, self, cs[..|cs| - 1], n) + (if TierOf(rule, typeName, self, c) == n then [c.fullpath] else [])
  }

  /** What the ranking returns: a single candidate as it is, otherwise tier 1, then tier 2, then tier 3. */
  function Ranked(rule: Tier3Rule, typeName: string, anchor: string, cands: seq<string>): seq<string> {
    if |cands| == 1 then cands
    else
      var self, cs := Utils.Parse(anchor), ParseAll(cands);
      InTier(rule, typeName, self, cs, 1) + InTier(rule, typeName, self, cs, 2) + InTier(rule, typeName, self, cs, 3)
  }

  /** `matchFileOfWeight(type, siblings)` for the file `anchor`: one pass pushing each parsed candidate into its tier list. */
  method MatchFileOfWeight(rule: Tier3Rule, typeName: string, anchor: string, siblings: seq<string>) returns (r: seq<string>)
    ensures r == Ranked(rule, typeName, anchor, siblings)
    ensures |siblings| == 1 ==> r == siblings
    ensures |r| <= |siblings|
  {
    if |siblings| == 1 {
      return siblings;
    }
    var self := Utils.Parse(anchor);
    var files := ParseAll(siblings);
    var weight1, weight2, weight3 := [], [], [];
    var i := 0;
    while i < |files|
      invariant 0 <= i <= |files|
      invariant weight1 == InTier(rule, typeName, self, files[..i], 1)
      invariant weight2 == InTier(rule, typeName, self, files[..i], 2)
      invariant weight3 == InTier(rule, typeName, self, files[..i], 3)
    {
      var sibling := files[i];
      var tier := TierOf(rule, typeName, self, sibling);
      InTierStep(rule, typeName, self, files, i);
      if tier == 1 {
        weight1 := weight1 + [sibling.fullpath];
      } else if tier == 2 {
        weight2 := weight2 + [sibling.fullpath];
      } else if tier == 3 {
        weight3 := weight3 + [sibling.fullpath];
      }
      i := i + 1;
    }
    assert files[..i] == files;
    r := weight1 + weight2 + weight3;
    RankedLength(rule, typeName, anchor, siblings);
  }

  lemma InTierStep(rule: Tier3Rule, typeName: string, self: Utils.IPath, cs: seq<Utils.IPath>, i: nat)
    requires i < |cs|
    ensures forall n: nat {:trigger InTier(rule, typeName, self, cs[..i + 1], n)} ::
      InTier(rule, typeName, self, cs[..i + 1], n) == InTier(rule, typeName, self, cs[..i], n)
        + (if TierOf(rule, typeName, self, cs[i]) == n then [cs[i].fullpath] else [])
  {
    assert cs[..i + 1][..i] == cs[..i];
  }

  /** The parsed candidates of one stem, rewritten, in input order: the reference the ranking is compared with. */
  function SameStem(self: Utils.IPath, cs: seq<Utils.IPath>): seq<string> {
    if |cs| == 0 then []
    else
      var c := cs[|cs| - 1];
      SameStem(self, cs[..|cs| - 1]) + (if c.name == self.name then [c.fullpath] else [])
  }

  lemma {:induction false} TiersBounded(rule: Tier3Rule, typeName: string, self: Utils.IPath, cs: seq<Utils.IPath>)
    ensures |InTier(rule, typeName, self, cs, 1)| + |InTier(rule, typeName, self, cs, 2)| + |InTier(rule, typeName, self, cs, 3)| <= |cs|
    decreases |cs|
  {
    if |cs| > 0 {
      TiersBounded(rule, typeName, self, cs[..|cs| - 1]);
    }
  }

  /** Each candidate lands in at most one tier, so the ranking is never longer than its input. */
  lemma RankedLength(rule: Tier3Rule, typeName: string, anchor: string, cands: seq<string>)
    ensures |Ranked(rule, typeName, anchor, cands)| <= |cands|
  {
    if |cands| != 1 {
      TiersBounded(rule, typeName, Utils.Parse(anchor), ParseAll(cands));
    }
  }

  /** Tiers 1 and 2 together are exactly the same-stem candidates: tier 1 takes all of them or none. */
  lemma StemTiers(rule: Tier3Rule, typeName: string, self: Utils.IPath, cs: seq<Utils.IPath>)
    ensures self.name == self.folder ==> InTier(rule, typeName, self, cs, 1) == SameStem(self, cs) && InTier(rule, typeName, self, cs, 2) == []
    ensures self.name != self.folder ==> InTier(rule, typeName, self, cs, 2) == SameStem(self, cs) && InTier(rule, typeName, self, cs, 1) == []
  {
    var tiers: (nat, nat) := if self.name == self.folder then (1, 2) else (2, 1);
    StemTier(rule, typeName, self, cs, tiers.0, tiers.1);
  }

  lemma {:induction false} StemTier(rule: Tier3Rule, typeName: string, self: Utils.IPath, cs: seq<Utils.IPath>, main: nat, other: nat)
    requires (main, other) == (if self.name == self.folder then (1, 2) else (2, 1))
    ensures InTier(rule, typeName, self, cs, main) == SameStem(self, cs)
    ensures InTier(rule, typeName, self, cs, other) == []
    decreases |cs|
  {
    if |cs| > 0 {
      StemTier(rule, typeName, self, cs[..|cs| - 1], main, other);
    }
  }

  /** Tier 3 is empty unless the anchor's stem is `index` and the rule has a tier 3. */
  lemma {:induction false} Tier3Empty(rule: Tier3Rule, typeName: string, self: Utils.IPath, cs: seq<Utils.IPath>)
    requires rule == NoTier3 || self.name != "index"
    ensures InTier(rule, typeName, self, cs, 3) == []
    decreases |cs|
  {
    if |cs| > 0 {
      Tier3Empty(rule, typeName, self, cs[..|cs| - 1]);
    }
  }

  /** With zero or several candidates the ranking is the same-stem candidates followed by tier 3. */
  lemma RankedIsStemThenTier3(rule: Tier3Rule, typeName: string, anchor: string, cands: seq<string>)
    requires |cands| != 1
    ensures Ranked(rule, typeName, anchor, cands) == SameStem(Utils.Parse(anchor), ParseAll(cands)) + InTier(rule, typeName, Utils.Parse(anchor), ParseAll(cands), 3)
  {
    StemThenTier3(rule, typeName, Utils.Parse(anchor), ParseAll(cands));
  }

  /** The three tiers in a row are the same-stem candidates followed by tier 3. */
  lemma StemThenTier3(rule: Tier3Rule, typeName: string, self: Utils.IPath, cs: seq<Utils.IPath>)
    ensures InTier(rule, typeName, self, cs, 1) + InTier(rule, typeName, self, cs, 2) + InTier(rule, typeName, self, cs, 3)
            == SameStem(self, cs) + InTier(rule, typeName, self, cs, 3)
  {
    StemTiers(rule, typeName, self, cs);
    var t1, t2 := InTier(rule, typeName, self, cs, 1), InTier(rule, typeName, self, cs, 2);
    if self.name == self.folder {
      assert t1 + t2 == SameStem(self, cs) + [];
    } else {
      assert t1 + t2 == [] + SameStem(self, cs);
    }
  }

  /**
   * In the copy without a tier 3 (and in every copy when the anchor is not an `index` file) the
   * ranking is a filter: the same-stem candidates, rewritten, in input order.
   */
  lemma RankedIsSameStem(rule: Tier3Rule, typeName: string, anchor: string, cands: seq<string>)
    requires |cands| != 1
    requires rule == NoTier3 || Utils.Parse(anchor).name != "index"
    ensures Ranked(rule, typeName, anchor, cands) == SameStem(Utils.Parse(anchor), ParseAll(cands))
  {
    RankedIsStemThenTier3(rule, typeName, anchor, cands);
    Tier3Empty(rule, typeName, Utils.Parse(anchor), ParseAll(cands));
  }

  /** A rewritten path is in tier `n` exactly when some candidate of tier `n` rewrites to it. */
  lemma {:induction false} InTierMembers(rule: Tier3Rule, typeName: string, self: Utils.IPath, cs: seq<Utils.IPath>, n: nat, x: string)
    ensures x in InTier(rule, typeName, self, cs, n) <==>
      exists i :: 0 <= i < |cs| && TierOf(rule, typeName, self, cs[i]) == n && cs[i].fullpath == x
    decreases |cs|
  {
    if |cs| > 0 {
      var init := cs[..|cs| - 1];
      InTierMembers(rule, typeName, self, init, n, x);
      assert forall i :: 0 <= i < |init| ==> init[i] == cs[i];
    }
  }

  /** The candidates the plural-stem copy keeps: the anchor's stem, or for an `index` anchor a base name `type[s].*` or `folder[s].*` in any case. */
  predicate PluralKept(typeName: string, self: Utils.IPath, c: Utils.IPath) {
    c.name == self.name || (self.name == "index" && Glob.PluralStemGlob(c.base, [typeName, c.folder]))
  }

  lemma KeptTiers(typeName: string, self: Utils.IPath, cs: seq<Utils.IPath>, x: string)
    ensures x in InTier(PluralStem, typeName, self, cs, 1) + InTier(PluralStem, typeName, self, cs, 2) + InTier(PluralStem, typeName, self, cs, 3) <==>
      exists i :: 0 <= i < |cs| && cs[i].fullpath == x && PluralKept(typeName, self, cs[i])
  {
    InTierMembers(PluralStem, typeName, self, cs, 1, x);
    InTierMembers(PluralStem, typeName, self, cs, 2, x);
    InTierMembers(PluralStem, typeName, self, cs, 3, x);
    assert forall c :: PluralKept(typeName, self, c) <==> TierOf(PluralStem, typeName, self, c) in {1, 2, 3};
  }

  /** Membership in the plural-stem ranking: a path is listed exactly when some kept candidate rewrites to it. */
  lemma PluralTier3Members(typeName: string, anchor: string, cands: seq<string>, x: string)
    requires |cands| != 1
    ensures x in Ranked(PluralStem, typeName, anchor, cands) <==>
      exists i :: 0 <= i < |cands| && ParseAll(cands)[i].fullpath == x && PluralKept(typeName, Utils.Parse(anchor), ParseAll(cands)[i])
  {
    KeptTiers(typeName, Utils.Parse(anchor), ParseAll(cands), x);
  }
}
