/** Deciding the type of a path from its name: the three variants of `isScript`/`isStyle`/`isTemplate` and `getTypeByPath`. */
module Classify {
  import opened Wrappers
  import opened Text
  import opened DocTypes
  import Glob

  /** The alternatives of `new RegExp('\\.(' + exts.join('|').replace(/\./g, '') + ')$', 'i')`. */
  function RegexAlternatives(exts: seq<string>): seq<string> {
    Split(RemoveDots(Join(exts, "|")), '|')
  }

  /** The regular-expression suffix test of src/libs/members-base.ts (ASCII case folding). */
  predicate RegexSuffix(uri: string, exts: seq<string>) {
    exists a :: a in RegexAlternatives(exts) && EndsWith(Lower(uri), "." + Lower(a))
  }

  function StripAllDots(exts: seq<string>): (r: seq<string>)
    ensures |r| == |exts| && forall i :: 0 <= i < |exts| ==> r[i] == RemoveDots(exts[i])
  {
    seq(|exts|, i requires 0 <= i < |exts| => RemoveDots(exts[i]))
  }

  lemma {:induction false} RemoveDotsJoin(exts: seq<string>)
    ensures RemoveDots(Join(exts, "|")) == Join(StripAllDots(exts), "|")
    decreases |exts|
  {
    if |exts| > 1 {
      RemoveDotsJoin(exts[1..]);
      RemoveDotsConcat(exts[0] + "|", Join(exts[1..], "|"));
      RemoveDotsConcat(exts[0], "|");
      assert StripAllDots(exts)[1..] == StripAllDots(exts[1..]);
    }
  }

  /**
   * When no extension holds a '|', the alternatives are the extensions with every '.' removed;
   * an empty list yields the single empty alternative, so `\.()$` accepts any name ending in '.'.
   */
  lemma AlternativesAreStrippedExts(exts: seq<string>)
    requires forall i :: 0 <= i < |exts| ==> '|' !in exts[i]
    ensures |exts| > 0 ==> RegexAlternatives(exts) == StripAllDots(exts)
    ensures |exts| == 0 ==> RegexAlternatives(exts) == [""]
  {
    RemoveDotsJoin(exts);
    if |exts| > 0 {
      var parts := StripAllDots(exts);
      forall i | 0 <= i < |parts|
        ensures '|' !in parts[i]
      {
        if '|' in parts[i] {
          RemoveDotsKeeps(exts[i], '|');
        }
      }
      JoinSplit(parts, '|');
    }
  }

  /** A name ending (in any ASCII case) with a configured single-dot extension such as `.js` passes the regular-expression test. */
  lemma RegexAcceptsSimpleExt(uri: string, exts: seq<string>, e: string)
    requires forall i :: 0 <= i < |exts| ==> '|' !in exts[i]
    requires e in exts && |e| > 0 && e[0] == '.' && '.' !in e[1..]
    requires EndsWith(Lower(uri), Lower(e))
    ensures RegexSuffix(uri, exts)
  {
    AlternativesAreStrippedExts(exts);
    var i :| 0 <= i < |exts| && exts[i] == e;
    var w := e[1..];
    NoDotsUnchanged(w);
    assert RemoveDots(e) == w;
    assert StripAllDots(exts)[i] == w;
    assert w in RegexAlternatives(exts);
    LowerTail(e);
  }

  lemma {:induction false} NoDotsUnchanged(s: string)
    requires '.' !in s
    ensures RemoveDots(s) == s
    decreases |s|
  {
    if |s| > 0 {
      assert s[0] in s;
      assert forall c :: c in s[1..] ==> c in s;
      NoDotsUnchanged(s[1..]);
    }
  }

  /** Which suffix test a copy of the classifier uses. */
  datatype Classifier =
    | Regex      // src/libs/members-base.ts: `\.(e1|e2|...)$`, case-insensitive, dots stripped
    | GlobDot    // src/libs/member-base.ts: `**/*{exts}` with `dot: true`
    | GlobNoDot  // src/component.ts: `**/*{exts}` without options

  predicate IsType(k: Classifier, exts: Extnames, t: DocType, uri: string) {
    match k
    case Regex => RegexSuffix(uri, exts.Get(t))
    case GlobDot => Glob.SuffixGlob(uri, exts.Get(t), true)
    case GlobNoDot => Glob.SuffixGlob(uri, exts.Get(t), false)
  }

  /** `getTypeByPath`: the first type, in the order script, style, template, whose test accepts `uri`; None stands for ''. */
  function TypeByPath(k: Classifier, exts: Extnames, uri: string): (r: Option<DocType>)
    ensures r.Some? ==> IsType(k, exts, r.value, uri)
    ensures r.Some? ==> forall t :: Rank(t) < Rank(r.value) ==> !IsType(k, exts, t, uri)
    ensures r.None? <==> forall t :: !IsType(k, exts, t, uri)
  {
    if IsType(k, exts, Script, uri) then Some(Script)
    else if IsType(k, exts, Style, uri) then Some(Style)
    else if IsType(k, exts, Template, uri) then Some(Template)
    else None
  }

  /** `Members.isSplitedFile`: the path contains `/.vscodeparallel/components/`. */
  predicate IsSplitedFileText(path: string) {
    Contains(path, "/.vscodeparallel/components/")
  }

  /** `Members.isSplitMode`: an SFC extension by the regular-expression test, the split setting on, and not a fragment file. */
  predicate IsSplitModeRegex(path: string, sfcExts: seq<string>, isSplitSFC: bool) {
    RegexSuffix(path, sfcExts) && isSplitSFC && !IsSplitedFileText(path)
  }

  /** `MembersSplitMode.isSplitMode`: the same decision through `*{sfcExts}` (matchBase) and the split-directory glob. */
  predicate IsSplitModeGlob(path: string, sfcExts: seq<string>, isSplitSFC: bool) {
    Glob.BaseSuffixGlob(path, sfcExts) && isSplitSFC && !Glob.InSplitDir(path)
  }

  /** The text test implies the glob test, so both copies agree that a fragment file is a split file. */
  lemma SplitedTextImpliesGlob(path: string)
    requires IsSplitedFileText(path)
    ensures Glob.InSplitDir(path)
  {
  }

  /** A fragment written below the temporary directory is never itself split again, by either copy of the test. */
  lemma FragmentNotSplitMode(root: string, id: string, name: string, sfcExts: seq<string>, isSplitSFC: bool)
    ensures !IsSplitModeGlob(root + "/.vscodeparallel/components/" + id + "/" + name, sfcExts, isSplitSFC)
    ensures !IsSplitModeRegex(root + "/.vscodeparallel/components/" + id + "/" + name, sfcExts, isSplitSFC)
  {
    Glob.TempFileInSplitDir(root, id, name);
    ContainsMiddle(root, "/.vscodeparallel/components/", id + "/" + name);
    assert root + "/.vscodeparallel/components/" + id + "/" + name
      == root + "/.vscodeparallel/components/" + (id + "/" + name);
  }
}
