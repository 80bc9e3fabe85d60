/**
 * The resolver objects: `Members` (src/libs/members-base.ts, instantiated as the split-mode subclass
 * of src/libs/members.ts) with its module-level memo `store`, and `Member` (src/libs/member-base.ts,
 * instantiated as the split-mode subclass of src/libs/member.ts) without one.
 */
module Resolvers {
  import opened Wrappers
  import opened Text
  import opened DocTypes
  import opened Host
  import Utils
  import PosixPath
  import Glob
  import Classify
  import Discovery
  import Spliter
  import MemberSplit

  /** `files[type][0]` for every type. */
  function Firsts(files: Discovery.MemberFiles): (r: ByType<Option<string>>)
    requires !files.Stored?
    ensures forall t :: r.Get(t) == Discovery.First(files, t)
  {
    ByType(Discovery.First(files, Script), Discovery.First(files, Style), Discovery.First(files, Template))
  }

  /** The record after the `forEach` has assigned the first `n` types of `TYPES`; the others are still `undefined`. */
  function FirstsUpTo(files: Discovery.MemberFiles, n: nat): ByType<Option<string>>
    requires !files.Stored?
  {
    ByType(if n > 0 then Discovery.First(files, Script) else None,
           if n > 1 then Discovery.First(files, Style) else None,
           if n > 2 then Discovery.First(files, Template) else None)
  }

  const Undefined: ByType<Option<string>> := ByType(None, None, None)

  /** The module-level `store` of src/libs/members-base.ts: for each resolved path, the first file of each type. */
  class Store {
    var entries: map<string, ByType<Option<string>>>

    constructor ()
      ensures entries == map[]
    {
      entries := map[];
    }
  }

  // ----- src/libs/members.ts -----

  /** `MembersSplitMode.isSplitedFile`: the path lies below a `.vscodeparallel/components/` directory. */
  predicate IsSplitedFile(path: string) {
    Glob.InSplitDir(path)
  }

  /** `MembersSplitMode.isSplitMode` with the settings it reads. */
  predicate IsSplitMode(settings: Settings, path: string) {
    Classify.IsSplitModeGlob(path, settings.sfcExts, settings.isSplitSFC)
  }

  /** The component file is read again for every split, so splitting fails exactly when it is missing. */
  function SplitEntries(io: Io, path: string): Result<Discovery.MemberFiles, Error> {
    if io.readFile(path).None? then Failure(NoSuchFile(path))
    else Success(Discovery.SplitMode(ByType([None], [None], [None]), None))
  }

  /** What `MembersSplitMode.getCandidates` yields. */
  function Candidates(io: Io, settings: Settings, root: string, path: string): (r: Result<Discovery.MemberFiles, Error>)
    ensures r.Success? ==> !r.value.Stored?
  {
    if IsSplitMode(settings, path) then SplitEntries(io, path)
    else Discovery.SiblingOutcome(Discovery.MembersFamily, io, settings, root, path)
  }

  /** A fragment file is never split again, whatever the settings. */
  lemma FragmentIsNotSplitMode(settings: Settings, root: string, id: string, name: string)
    ensures IsSplitedFile(Spliter.TempDir(root, id) + "/" + name)
    ensures !IsSplitMode(settings, Spliter.TempDir(root, id) + "/" + name)
  {
    Glob.TempFileInSplitDir(root, id, name);
    Classify.FragmentNotSplitMode(root, id, name, settings.sfcExts, settings.isSplitSFC);
  }

  /**
   * `getMainFileBySplitedFile(path)`: the trimmed content of the `.path` file next to `path`, or ''
   * when there is none.
   */
  function MainFileBySplitedFile(io: Io, path: string): (r: string)
    ensures io.readFile(Utils.Parse(path).dir + "/.path").None? ==> r == ""
    ensures io.readFile(Utils.Parse(path).dir + "/.path").Some? ==> IsTrimOf(io.readFile(Utils.Parse(path).dir + "/.path").value, r)
  {
    match io.readFile(Utils.Parse(path).dir + "/.path")
    case None => ""
    case Some(text) => Trim(text)
  }

  /** For a fragment `<tempDir>/<name>`, the back-reference is looked up in that same temporary directory. */
  lemma BackReferenceOfFragment(io: Io, root: string, id: string, name: string)
    requires |name| > 0 && '/' !in name
    ensures Utils.Parse(Spliter.TempDir(root, id) + "/" + name).dir + "/.path" == Spliter.TempDir(root, id) + "/.path"
    ensures MainFileBySplitedFile(io, Spliter.TempDir(root, id) + "/" + name)
            == match io.readFile(Spliter.TempDir(root, id) + "/.path") case None => "" case Some(text) => Trim(text)
  {
    PosixPath.ParseDirBase(Spliter.TempDir(root, id), name);
  }

  /** The split-mode resolver of the members family with the fields its base class sets. */
  class MembersSplitMode {
    const root: string
    const path: string
    const io: Io
    const settings: Settings
    /** `files`: what the construction resolved, or the stored firsts of an earlier construction. */
    var files: Discovery.MemberFiles
    /** `this[type]`, for script, style and template. */
    var members: ByType<Option<string>>
    var spliter: Spliter.VueSpliter?

    /** A spliter, once created, belongs to this component. */
    ghost predicate Valid()
      reads this`spliter, spliter
    {
      spliter != null ==>
        spliter.Valid() && spliter.root == root && spliter.path == path && spliter.io == io
    }

    /** The state before the base constructor resolves anything: no spliter, every member `undefined`. */
    constructor Init(root: string, path: string, io: Io, settings: Settings)
      ensures this.root == root && this.path == path && this.io == io && this.settings == settings
      ensures spliter == null && members == Undefined
      ensures Valid()
    {
      this.root := root;
      this.path := path;
      this.io := io;
      this.settings := settings;
      files := Discovery.Grouped(ByType([], [], []), false, None);
      members := Undefined;
      spliter := null;
    }

    /**
     * `getCandidates()`: in split mode, the spliter is created once (which splits and writes the
     * fragments) and split again on every call; each type gets the one-element list of the spliter's
     * never-assigned field. Otherwise the sibling strategy.
     */
    method GetCandidates() returns (r: Result<Discovery.MemberFiles, Error>)
      requires Valid()
      modifies this`spliter, spliter
      ensures Valid()
      ensures r == Candidates(io, settings, root, path)
      ensures !IsSplitMode(settings, path) ==> spliter == old(spliter)
      ensures old(spliter) != null ==> spliter == old(spliter)
      ensures old(spliter) == null && spliter != null ==> fresh(spliter)
      ensures old(spliter) == null && io.readFile(path).None? ==> spliter == null
      ensures IsSplitMode(settings, path) && io.readFile(path).Some? ==>
                var elems := io.parseBody(Spliter.BodyMarkup(io.readFile(path).value));
                spliter != null
                && spliter.parts == Spliter.Absorb(if old(spliter) == null then Spliter.Absorb(Spliter.NoParts, elems) else old(spliter.parts), elems)
    {
      if IsSplitMode(settings, path) {
        r := SplitAgain();
      } else {
        r := Discovery.SiblingCandidates(Discovery.MembersFamily, io, settings, root, path);
      }
    }

    /** The split branch of `getCandidates`. */
    method SplitAgain() returns (r: Result<Discovery.MemberFiles, Error>)
      requires Valid()
      modifies this`spliter, spliter
      ensures Valid()
      ensures r == SplitEntries(io, path)
      ensures old(spliter) != null ==> spliter == old(spliter)
      ensures old(spliter) == null && spliter != null ==> fresh(spliter)
      ensures old(spliter) == null && io.readFile(path).None? ==> spliter == null
      ensures io.readFile(path).Some? ==>
                var elems := io.parseBody(Spliter.BodyMarkup(io.readFile(path).value));
                spliter != null
                && spliter.parts == Spliter.Absorb(if old(spliter) == null then Spliter.Absorb(Spliter.NoParts, elems) else old(spliter.parts), elems)
    {
      if spliter == null {
        var created := Spliter.NewVueSpliter(root, path, io);
        if created.Failure? {
          return Failure(created.error);
        }
        spliter := created.value;
      }
      var err := spliter.Split();
      if err.Some? {
        return Failure(err.value);
      }
      r := Success(Discovery.SplitMode(ByType([spliter.script], [spliter.style], [spliter.template]), None));
    }

    /** The `forEach` of the base constructor: the first file of each type goes into `store[path]` and into the member field. */
    method RecordFirsts(store: Store)
      requires !files.Stored? && members == Undefined
      modifies this`members, store
      ensures members == Firsts(files)
      ensures store.entries == old(store.entries)[path := Firsts(files)]
    {
      var stored := Undefined;
      for i := 0 to |TYPES|
        invariant stored == FirstsUpTo(files, i)
        invariant members == stored
        invariant store.entries == if i == 0 then old(store.entries) else old(store.entries)[path := stored]
      {
        var t := TYPES[i];
        stored := stored.Set(t, Discovery.First(files, t));
        store.entries := store.entries[path := stored];
        members := members.Set(t, Discovery.First(files, t));
        assert members == stored;
      }
    }

    /**
     * The body of the base constructor: a stored entry for the path is taken as `files` and nothing
     * else happens; otherwise the candidates are resolved and, type by type, the first file is
     * recorded both in `store[path]` and in the member field.
     */
    method Construct(store: Store) returns (err: Option<Error>)
      requires Valid() && members == Undefined
      modifies this, spliter, store
      ensures Valid()
      ensures path in old(store.entries) ==>
                err.None? && files == Discovery.Stored(old(store.entries)[path])
                && members == old(members) && store.entries == old(store.entries)
      ensures path !in old(store.entries) ==>
                match Candidates(io, settings, root, path)
                case Failure(e) => err == Some(e) && store.entries == old(store.entries) && members == old(members)
                case Success(c) =>
                  err.None? && files == Discovery.Resolved(Discovery.MembersFamily, path, c)
                  && members == Firsts(files)
                  && store.entries == old(store.entries)[path := Firsts(files)]
    {
      if path in store.entries {
        files := Discovery.Stored(store.entries[path]);
        return None;
      }
      var candidates := GetCandidates();
      if candidates.Failure? {
        return Some(candidates.error);
      }
      ResolveAndRecord(store, candidates.value);
      return None;
    }

    /** `resolveFiles` on the candidates, then the `forEach` that records the firsts. */
    method ResolveAndRecord(store: Store, candidates: Discovery.MemberFiles)
      requires !candidates.Stored? && members == Undefined
      modifies this`files, this`members, store
      ensures files == Discovery.Resolved(Discovery.MembersFamily, path, candidates)
      ensures members == Firsts(files)
      ensures store.entries == old(store.entries)[path := Firsts(files)]
    {
      files := Discovery.ResolveFiles(Discovery.MembersFamily, path, candidates);
      RecordFirsts(store);
    }
  }

  /** `new MembersSplitMode(root, path)`, with the memo it shares with every other construction. */
  method NewMembers(root: string, path: string, io: Io, settings: Settings, store: Store) returns (r: Result<MembersSplitMode, Error>)
    modifies store
    ensures r.Success? ==> fresh(r.value) && r.value.root == root && r.value.path == path && r.value.Valid()
    ensures path in old(store.entries) ==>
              r.Success? && r.value.files == Discovery.Stored(old(store.entries)[path])
              && r.value.members == Undefined && store.entries == old(store.entries)
    ensures path !in old(store.entries) ==>
              match Candidates(io, settings, root, path)
              case Failure(e) => r == Failure(e) && store.entries == old(store.entries)
              case Success(c) =>
                r.Success? && r.value.files == Discovery.Resolved(Discovery.MembersFamily, path, c)
                && r.value.members == Firsts(r.value.files)
                && store.entries == old(store.entries)[path := Firsts(r.value.files)]
  {
    var m := new MembersSplitMode.Init(root, path, io, settings);
    var err := m.Construct(store);
    if err.Some? {
      return Failure(err.value);
    }
    return Success(m);
  }

  /** Split mode yields no usable file: every entry is `undefined`, so the resolved record's firsts are all `undefined`. */
  lemma SplitModeResolvesToNothing(fam: Discovery.Family, anchor: string, files: Discovery.MemberFiles)
    requires files.SplitMode?
    requires forall t :: files.entries.Get(t) == [] || files.entries.Get(t) == [None]
    ensures Discovery.Resolved(fam, anchor, files) == files
    ensures Firsts(Discovery.Resolved(fam, anchor, files)) == Undefined
  {
    assert forall t :: Discovery.First(files, t).None?;
  }

  // ----- src/libs/member-base.ts -----

  /** The split-mode resolver of the member family: no memo, the member fields are the resolved firsts. */
  class Member {
    const root: string
    const path: string
    const files: Discovery.MemberFiles
    /** `this[type]`, for script, style and template. */
    var members: ByType<Option<string>>

    /** The constructor tail: `this[type] = files[type][0]` for each type, in the order of `TYPES`. */
    constructor (root: string, path: string, files: Discovery.MemberFiles)
      requires !files.Stored?
      ensures this.root == root && this.path == path && this.files == files
      ensures members == Firsts(files)
    {
      this.root := root;
      this.path := path;
      this.files := files;
      members := Undefined;
      new;
      for i := 0 to |TYPES|
        invariant members == FirstsUpTo(files, i)
      {
        var t := TYPES[i];
        members := members.Set(t, Discovery.First(files, t));
      }
    }
  }

  /** `new MemberSplitMode(root, path)`: candidates, `resolveFiles`, then the member fields. */
  method NewMember(root: string, path: string, io: Io, settings: Settings) returns (r: Result<Member, Error>)
    ensures match MemberSplit.Outcome(io, settings, root, path)
      case Failure(e) => r == Failure(e)
      case Success(c) =>
        r.Success? && fresh(r.value)
        && r.value.files == Discovery.Resolved(Discovery.MemberFamily, path, c)
        && r.value.members == Firsts(r.value.files)
  {
    var candidates := MemberSplit.SplitCandidates(io, settings, root, path);
    if candidates.Failure? {
      return Failure(candidates.error);
    }
    var files := Discovery.ResolveFiles(Discovery.MemberFamily, path, candidates.value);
    var m := new Member(root, path, files);
    return Success(m);
  }

  /** In split mode a `Member` records no file of any type, although its candidates carry the documents. */
  lemma SplitMemberHasNoFiles(io: Io, settings: Settings, root: string, path: string)
    requires io.isSplitMode(path)
    requires MemberSplit.Outcome(io, settings, root, path).Success?
    ensures var c := MemberSplit.Outcome(io, settings, root, path).value;
      c.SplitMode? && c.documents.Some? && Firsts(Discovery.Resolved(Discovery.MemberFamily, path, c)) == Undefined
  {
    var c := MemberSplit.Outcome(io, settings, root, path).value;
    MemberSplit.SplitRecordShape(root, path, io);
    assert forall t :: c.entries.Get(t) == [] || c.entries.Get(t) == [None];
    SplitModeResolvesToNothing(Discovery.MemberFamily, path, c);
  }

  /** In split mode a `Members` construction stores and records no file of any type. */
  lemma SplitMembersHaveNoFiles(io: Io, settings: Settings, root: string, path: string)
    requires IsSplitMode(settings, path)
    requires Candidates(io, settings, root, path).Success?
    ensures var c := Candidates(io, settings, root, path).value;
      Firsts(Discovery.Resolved(Discovery.MembersFamily, path, c)) == Undefined
  {
    var c := Candidates(io, settings, root, path).value;
    SplitModeResolvesToNothing(Discovery.MembersFamily, path, c);
  }
}
