# vscode-parallel-space, modelled in Dafny

vscode-parallel-space is an editor extension that treats a *component* as three member files:
script, style and template. When one of them is opened, it finds the other two and shows all
three side by side, one per column. This project models the parts that decide:

- **which files belong together.**
  - The classification of a path as script, style or template. There are three variants: the
    regular-expression test of the `Members` family, the glob test of the `Member` family, and
    the suffix glob of `Component`.
  - Sibling discovery: a directory walk, grouping by type, and the "two or more types empty"
    fallback.
  - Cross-directory discovery: a walk of the configured directories, and a stem filter built
    from reversed path names and `commondir`.
  - The three-tier ranking (`matchFileOfWeight`).
  - The memo `store` of the `Members` family.
- **how a single-file component (`.vue`, `.we`, `.weex`) is split into fragment files** under
  `<root>/.vscodeparallel/components/<id>/`. Both splitters are modelled, `VueSpliter` and the
  `split` of `MemberSplitMode`. So is the back-reference lookup through `.path`.
- **how the settings are cleaned.** `cleanPatterns` sorts, reverses and folds the patterns, and a
  `!p` removes `p`. The model also covers the defaults, `columnsOrder`, `cacheDirectory` and
  `isSplitSFC`.
- **what the editor is asked to do.** This covers the column of each type, a direct open for a
  single file and a quick pick for several. It also covers the open-component registry of
  `parallel.ts` and of `extension.ts`: a component is registered under the id of each list's
  first file and dropped when one of them closes.

Everything the source asks of the outside world is a parameter, the `Host.Io` record:

- the md5 digest (`createId`)
- the directory walk and `readdirSync` listings
- `readFileSync` / `existsSync`
- the jsdom parse of `<body>…</body>`, given as the sequence of top-level elements

Writes come back as (path, content) lists, and editor calls as `EditorColumns.Action` values.
Stateful parts are classes whose methods are proved against specification functions:
`Components.Component`, `Components.MemberComponent`, `Spliter.VueSpliter`,
`Resolvers.MembersSplitMode`, `Resolvers.Store`, `Resolvers.Member`, `Sessions.Parallel` and
`Sessions.ComponentsEditor`. Properties of those functions are proved as lemmas.

Where the code and its intent differ, the model follows the code:

- **The `Members` family has no tier 3.** Its tier-3 `push` is commented out
  (src/libs/members-base.ts:110-111), so that tier is always empty.
- **The sibling search directory can be cut at the wrong place.** The pattern
  `/\/[^\/]+.(\w+)$/` has an unescaped dot, so the cut is made at the first position where it
  matches, the dot standing for any character but a line terminator (`\n`, `\r`, U+2028,
  U+2029), as in a pattern without the `s` flag.
- **A split record names no file.** `VueSpliter` never assigns its public `script`/`style`/
  `template` fields, so every list of a split record is `[undefined]`. In `member.ts` a
  `Document` has no `path`, which has the same effect.
- **`member.ts` passes an array as the style file's content.** Node 12 and earlier coerce it
  to a string and write it comma-joined; that is the behaviour modelled. Later Node versions
  reject an array with `ERR_INVALID_ARG_TYPE`, so there the style write throws.
- **`parallel.ts` can throw on close.** Its `onClose` hashes `scriptFiles[0] as string`, so an
  empty script list throws.
- **`getTypeByPath` can return `''`.** The following `files[''].push` then throws. This is
  modelled as an error result.
- **A base name with two dots is not cut.** For `d/app.component.ts` the directory pattern of
  src/component.ts never matches, so `readdirSync` is given the file itself and throws.
  Listings and walks that throw (a missing path, a file) are modelled as `NotADirectory`
  errors. A component whose listing throws keeps its partial record, which stays uncompleted.

## Model

| member | source | states |
|---|---|---|
| Utils.FolderIsLastPiece | src/libs/utils.ts:16 | the folder is a suffix of `dir` holding no '/' or '\', preceded by a separator when shorter than `dir` |
| Utils.Parse | src/libs/utils.ts:14-28 | `path` and `fullpath` are `dir + '/' + base`, `name + ext == base`, `folder` is the last piece of `dir` |
| Utils.FullpathIsInput | src/libs/utils.ts:23-24 | for `d/b` with a non-empty directory the computed full path is the input itself |
| Utils.FullpathUnderRoot | src/libs/utils.ts:23-24 | for `/b` the computed full path is `//b` (the root directory gains a second '/') |
| Utils.FullpathOfBareName | src/libs/utils.ts:23-24 | for a bare name `b` the computed full path is `/b` |
| PosixPath.Parse | src/libs/utils.ts:15 | `name + ext == base` and `base` holds no '/' |
| PosixPath.ParseExt | src/libs/utils.ts:15 | for `d/n.e` (non-empty `n`, no '.' in `e`) the name is `n` and the extension `.e`: the extension starts at the last '.' |
| PosixPath.ParseDotFileExt | src/libs/utils.ts:15 | for `d/.e` (no '.' in `e`) the base is all name and the extension is empty |
| PosixPath.ParseDirBase | src/libs/utils.ts:15 | `d/b` parses into directory `d` and base `b` |
| PosixPath.ParseUnderRoot | src/libs/utils.ts:15 | `/b` parses into directory `/` and base `b` |
| PosixPath.ParseBareName | src/libs/utils.ts:15 | a bare name has the empty directory and is its own base |
| Documents.NewDocument | src/libs/document.ts:28-34 | the document keeps its type and uri, is created closed, and its id is the digest of its uri |
| Documents.ParseUri | src/libs/document.ts:53-66 | the same fields as `IPath.parse` of the uri, without `path`; `fullpath` is `dir + '/' + base` |
| Classify.StripAllDots | src/libs/members-base.ts:156 | each extension with every '.' removed, position by position |
| Classify.RemoveDotsJoin | src/libs/members-base.ts:156 | removing dots from the '|'-joined list equals joining the dot-free extensions |
| Classify.AlternativesAreStrippedExts | src/libs/members-base.ts:155-181 | the alternatives of the built regular expression are exactly the dot-free extensions (or the single empty one for no extension) |
| Classify.RegexAcceptsSimpleExt | src/libs/members-base.ts:155-181 | a path ending in any case with a configured `.ext` passes the regular-expression type test |
| Classify.TypeByPath | src/libs/members-base.ts:198-207 | the result type's test accepts the path and no earlier type's does; no type exactly when every test rejects |
| Classify.SplitedTextImpliesGlob | src/libs/members-base.ts:209-211 | a path containing `/.vscodeparallel/components/` also matches the split-directory glob of src/libs/members.ts:51-53 |
| Classify.FragmentNotSplitMode | src/libs/members-base.ts:213-223 | a file under the split directory is never in split mode, under either test |
| Glob.TempFileInSplitDir | src/libs/members.ts:51-53 | every file under `<root>/.vscodeparallel/components/<id>/` matches the split-directory glob |
| Weight.MatchFileOfWeight | src/libs/members-base.ts:79-117 | the loop's result is the ranking: a single candidate unchanged, else tier 1, then tier 2, then tier 3 |
| Weight.RankedLength | src/libs/member-base.ts:71-110 | the ranking never lists more files than it was given |
| Weight.StemTiers | src/libs/member-base.ts:88-94 | tiers 1 and 2 together are exactly the candidates of the anchor's stem; tier 1 holds all of them when the stem names the folder, else tier 2 does |
| Weight.Tier3Empty | src/libs/members-base.ts:103-112 | tier 3 is empty unless the anchor is `index` and the family has a tier 3 (the members family has none) |
| Weight.RankedIsStemThenTier3 | src/libs/member-base.ts:75-108 | with zero or several candidates the result is the same-stem candidates followed by tier 3 |
| Weight.RankedIsSameStem | src/libs/members-base.ts:83-115 | without a tier 3 the result is exactly the same-stem candidates, in input order |
| Weight.InTierMembers | src/libs/member-base.ts:86-105 | a path is in tier n exactly when some candidate of tier n rewrites to it |
| Weight.StemThenTier3 | src/libs/member-base.ts:75-108 | the three tiers in a row are the candidates of the anchor's stem, in input order, followed by tier 3 |
| Weight.KeptTiers | src/libs/member-base.ts:86-105 | a path is in one of the three tiers exactly when some candidate kept by the plural-stem rule rewrites to it |
| Weight.PluralTier3Members | src/libs/member-base.ts:86-108 | a path is ranked exactly when some candidate rewrites to it and either shares the anchor's stem or, for an `index` anchor, has the base `type[s].*` or `folder[s].*` in any case |
| Discovery.GroupByType | src/libs/members-sibling.ts:34-38 | the grouping loop yields each path under its type, or the error when a path has no type |
| Discovery.SelectMembers | src/libs/members-cross.ts:27-33 | a path is in list t exactly when it was available and its type is t |
| Discovery.SelectPartition | src/libs/member-cross.ts:19-35 | when every path is typed the three lists together hold as many entries as the input |
| Discovery.EmptyCount | src/libs/members-sibling.ts:41-46 | at most 3; 0 exactly when every list is non-empty; above 1 exactly when two distinct types are empty |
| Discovery.FirstMatch | src/libs/members-sibling.ts:19 | the first index at which the search pattern matches, none before it; or none at all |
| Discovery.SearchDir | src/libs/members-sibling.ts:19 | the path unchanged when the pattern never matches, else cut at its first match; the unescaped dot matches any character but a line terminator |
| Discovery.LineBreakIsNotCut | src/libs/members-sibling.ts:19 | `/a/b\nc` is searched whole: the dot does not match the line break |
| Discovery.SearchDirOfFile | src/libs/member-sibling.ts:19 | for an ordinary `d/n.e` the searched directory is `d` |
| Discovery.StripWordExt | src/libs/members-base.ts:143 | the result is a prefix of the path |
| Discovery.FilterRelated | src/libs/members-base.ts:122-134 | a file is kept exactly when it was given and is related to the clicked file |
| Discovery.RelatedIffSameStem | src/libs/members-base.ts:122-148 | for two paths whose stems (base names without extension) are non-empty and hold no '\\', the files are related exactly when the stems agree |
| Discovery.CrossCandidates | src/libs/members-cross.ts:18-65 | the cross strategy's result is its reference outcome: the walked, filtered, related paths grouped by type |
| Discovery.SiblingCandidates | src/libs/members-sibling.ts:18-53 | the sibling strategy's result is its reference outcome, including the cross fallback |
| Discovery.Walk | src/libs/members-cross.ts:38-64 | fails with `NotADirectory` exactly when the walk throws; otherwise a path is kept exactly when it was visited and passes the filter |
| Discovery.CrossShape | src/libs/member-cross.ts:19-63 | a walk that throws fails with `NotADirectory` of the root; otherwise a cross-mode record without common path, failing exactly when some kept path has no type |
| Discovery.CrossEntry | src/libs/members-cross.ts:18-65 | an entry of list t was walked under the root, passed the directory filter, has type t and, in the members family, is related to the clicked file |
| Discovery.SiblingShape | src/libs/member-sibling.ts:18-53 | a listing of the search directory that throws fails with `NotADirectory` of it; otherwise the cross outcome when two or more types found nothing, else a record with the search directory as common path |
| Discovery.First | src/libs/members-base.ts:44 | `files[type][0]`: present exactly when the list is non-empty, and then its head |
| Discovery.RankAll | src/libs/members-base.ts:66-68 | each type's list is ranked for that type |
| Discovery.ResolveFiles | src/libs/members-base.ts:51-71 | doubtless or split-mode candidates are returned unchanged, otherwise each list is ranked |
| Config.NegationSortsFirst | src/config.ts:157-158 | `!p` sorts before `p`, so after the reversal the negation comes after the pattern it removes |
| Config.Insert | src/config.ts:157 | the same patterns plus one, as a multiset |
| Config.InsertAscending | src/config.ts:157 | inserting into an ascending list keeps it ascending |
| Config.Sort | src/config.ts:157 | the sorted list is a permutation of the input |
| Config.SortAscending | src/config.ts:157 | the sorted list is ascending |
| Config.SortReversed | src/config.ts:157-158 | the reversed sorted list is descending and a permutation of the input |
| Config.ReverseMultiset | src/config.ts:158 | reversal keeps every copy of every pattern |
| Config.Without | src/config.ts:162 | every entry except the given one, and no new one |
| Config.CleanPatterns | src/config.ts:155-169 | sorts and reverses the array in place and returns the cleaned list |
| Config.FoldNoNegation | src/config.ts:159-168 | folding keeps a negation-free list negation-free |
| Config.WithoutStrictlyDescending | src/config.ts:162 | filtering keeps a strictly descending list strictly descending |
| Config.FoldStrictlyDescending | src/config.ts:159-168 | folding descending patterns into a dominating list keeps it strictly descending |
| Config.FoldMembership | src/config.ts:159-168 | a plain pattern survives the fold exactly as the liveness function over the remaining patterns says |
| Config.AliveWithoutNegation | src/config.ts:159-168 | with no `!p` ahead, `p` is alive exactly when it was already or it occurs |
| Config.AliveWithNegation | src/config.ts:159-168 | in descending order a `!p` comes after every `p`, so `p` ends removed |
| Config.CleanHasNoNegation | src/config.ts:155-169 | the cleaned list holds no `!` pattern |
| Config.CleanStrictlyDescending | src/config.ts:155-169 | the cleaned list is strictly descending, hence free of duplicates |
| Config.CleanMembership | src/config.ts:155-169 | `p` is kept exactly when it occurs and `!p` does not |
| Config.DescendingFoldMembership | src/config.ts:159-168 | on a descending list the fold keeps `p` exactly when `p` occurs and `!p` does not |
| Config.CacheDirectory | src/config.ts:63-67 | never empty: the setting when it is a non-empty string, else `.parallel` |
| Config.IsSplitSFC | src/config.ts:97-101 | true exactly when the split setting is `true` |
| Config.DefaultsKept | src/config.ts:130-146 | a default or user pattern is kept exactly when neither list negates it |
| Config.DirectoriesKeepDefaults | src/config.ts:91-95 | every default directory is listed unless the included directories negate it |
| Config.SfcExtnamesKeepDefaults | src/config.ts:103-110 | every default single-file-component extension is listed unless negated |
| Config.Missing | src/config.ts:117-121 | exactly the defaults not configured, distinct when the defaults are |
| Config.AppendMissing | src/config.ts:115-121 | the copied order followed by each default it does not include, in default order |
| Config.CompletedOrderDistinct | src/config.ts:112-124 | completing a duplicate-free order keeps it duplicate-free and names every default type |
| Config.ColumnsOrder | src/config.ts:112-124 | the configured order followed by the missing defaults, so every default type is present |
| EditorColumns.ColumnsAfter | src/component-vscode.ts:23-32 | the column record has a key exactly for each default type and each configured item |
| EditorColumns.GetColumnsOrder | src/component-vscode.ts:23-32 | the loop yields the column record, and every type has a column |
| EditorColumns.ColumnOfLastOccurrence | src/component-vscode.ts:27-29 | an item's column is one more than the index of its last occurrence |
| EditorColumns.ColumnOfUnconfigured | src/component-vscode.ts:24 | an unconfigured type keeps its default column |
| EditorColumns.TypesGetDistinctColumns | src/component-vscode.ts:23-32 | with a duplicate-free configured order the three types open in three different columns |
| EditorColumns.DistinctOrderColumns | src/component-vscode.ts:23-32 | in an order without duplicates two different items get two different columns |
| EditorColumns.LabelOfPlainPath | src/component-vscode.ts:79 | a path with no backslash-slash pair is its own label |
| EditorColumns.QuickPickItems | src/component-vscode.ts:76-86 | one item per file, described by the full path, labelled by its last piece, only the first picked |
| EditorColumns.OpenFileInColumn | src/component-vscode.ts:65-92 | a single file opens directly in the column without focus; otherwise a quick pick lists every file |
| EditorColumns.OpenOne | src/component-vscode.ts:38-56 | one call exactly when the type's list is present and non-empty |
| EditorColumns.OpenedTypes | src/component-vscode.ts:38-56 | exactly the types whose list is present and non-empty, in the order script, template, style |
| EditorColumns.OpenActions | src/component-vscode.ts:38-56 | one call per opened type, in call order: the i-th call opens the i-th opened type's files in that type's column; none exactly when every list is absent or empty |
| EditorColumns.OpenFor | src/component-vscode.ts:38-56 | the same, with each type's column taken from the configured order completed by the default one; at most three calls |
| EditorColumns.Open | src/component-vscode.ts:38-56 | fills the memoised record (kept when already filled); when the listing succeeds, issues the calls for it, otherwise fails with `NotADirectory` and leaves the record uncompleted |
| EditorColumns.ScriptAnchorShownFirst | src/component-vscode.ts:38-56 | for a script anchor the first call opens the anchor itself in the script column |
| Components.Started | src/component.ts:248-262 | the anchor is put in its own list (script for a script anchor, else template) before any listing; the rest of the record is unchanged |
| Components.Filled | src/component.ts:245-271 | the record after one call: unchanged when completed; completed with the ranked siblings when the listing succeeds; only started when it throws; completed as it was for an unclassified anchor |
| Components.Completed | src/component.ts:245-271 | the record is completed; a script anchor lists itself as script; the style list is only ever the ranked one; an unclassified anchor leaves the record as it was |
| Components.CompletedHasAllLists | src/component.ts:245-271 | a script or template anchor gets a list for every type |
| Components.LastSep | src/component.ts:108 | the index of the last '/' or '\', none after it; or no separator at all |
| Components.SiblingMatchIsLastSep | src/component.ts:108 | a match of the directory pattern can only start at the last separator |
| Components.ComponentDir | src/component.ts:108 | the uri unchanged when the pattern does not match, else cut where it matches |
| Components.MatchesAreLastSep | src/component.ts:108 | every match starts at the last separator, so the match is unique |
| Components.ComponentDirOfFile | src/component.ts:108 | for an ordinary `d/n.e` the listed directory is `d` |
| Components.TwoDotNameIsNotCut | src/component.ts:108-109 | for `d/n.m.e` the pattern never matches, so the listed "directory" is the file itself |
| Components.Prefixed | src/component.ts:123-125 | each name is prefixed with `dir + '/'`, in order |
| Components.ReadSiblingFiles | src/component.ts:107-128 | never longer than the listing, and every name prefixed when no type is given |
| Components.SiblingMembership | src/component.ts:107-128 | `dir/name` is returned exactly when `name` is listed and passes the type filter |
| Components.SingleTypePattern | src/component.ts:113-116 | with a single type the filter pattern is that type's extension list |
| Components.Component.constructor | src/component.ts:38-41 | strips `file://`, takes the id of the stripped uri and starts with an empty record |
| Components.Component.Siblings | src/component.ts:206-237 | fails with `NotADirectory` exactly when listing the component directory throws; otherwise the siblings of one type, ranked against the anchor |
| Components.Component.GetComponentFiles | src/component.ts:245-271 | the record becomes `Filled`: filled once from the ranked siblings and returned; a listing that throws fails and leaves the partial record uncompleted; later calls after success return it unchanged |
| Components.DocumentFor | src/libs/component.ts:26-40 | a document of that type for a truthy member, else the field as it was |
| Components.MemberComponent.constructor | src/libs/component.ts:14-22 | strips `file://` and starts with no documents and an empty record |
| Components.MemberComponent.Init | src/libs/component.ts:26-40 | a document for each truthy member, every other field unchanged |
| Components.MemberComponent.GetMemberFiles | src/libs/component.ts:60-86 | fills the record once from the member's lists; later calls return it unchanged |
| Spliter.MockStyleTagRemovesClose | src/libs/vue-spliter.ts:76-81 | the masked text contains no `</style>` |
| Spliter.SliceOf | src/libs/vue-spliter.ts:96-111 | content is the inner markup, the kind is the tag with `stylesheet` read as `style`, the language is the attribute or the tag's default, and scope its truthiness |
| Spliter.WrappersReassemble | src/libs/vue-spliter.ts:98 | when the inner markup occurs once, start wrapper, content and end wrapper reassemble the outer markup |
| Spliter.AbsorbOne | src/libs/vue-spliter.ts:112-116 | an element of any other kind leaves the parts unchanged |
| Spliter.AbsorbStyles | src/libs/vue-spliter.ts:96-117 | the style slices are appended in document order to what the list held |
| Spliter.AbsorbSingles | src/libs/vue-spliter.ts:96-117 | script and template are the last slice of their kind, or what was held before |
| Spliter.SecondSplitDuplicatesStyles | src/libs/vue-spliter.ts:56 | the style list is never cleared, so splitting the same document twice lists every style twice and leaves script and template unchanged |
| Spliter.AbsorbKeepsLangs | src/libs/vue-spliter.ts:100 | held script and template slices always have a language |
| Spliter.StylePiecesLength | src/libs/vue-spliter.ts:131-135 | three pieces per style slice |
| Spliter.FragmentWrites | src/libs/vue-spliter.ts:124-144 | exactly three writes, one per type, in the order script, style, template |
| Spliter.FragmentsInSplitDir | src/libs/vue-spliter.ts:120-145 | every fragment lies under the split directory, so it is never split again |
| Spliter.DefaultFragments | src/libs/vue-spliter.ts:127-143 | with no style slice the `.css.vue` file is written empty; an absent script or template is written empty with its default extension |
| Spliter.PresentFragments | src/libs/vue-spliter.ts:137-140 | a present script or template is written with its content under its language, one leading '.' dropped |
| Spliter.VueSpliter.Init | src/libs/vue-spliter.ts:56-74 | the directory depends only on root and the path's digest; no parts, no writes; `base` is the base name of the path |
| Spliter.VueSpliter.Split | src/libs/vue-spliter.ts:93-118 | a missing file gives an error and unchanged parts; otherwise every parsed element is absorbed into the parts |
| Spliter.VueSpliter.FileOf | src/libs/vue-spliter.ts:125-143 | the path and content written for one type |
| Spliter.VueSpliter.CreateFile | src/libs/vue-spliter.ts:120-145 | appends the three fragment writes to the write log |
| Spliter.NewVueSpliter | src/libs/vue-spliter.ts:58-66 | fails exactly when the file is missing; else the parts of one split and its three fragment writes |
| MemberSplit.FragmentPath | src/libs/member.ts:58-66 | the fragment lies in `dir` |
| MemberSplit.StyleContents | src/libs/member.ts:116-120 | never more contents than elements |
| MemberSplit.StyleLang | src/libs/member.ts:83-125 | the style language is never empty |
| MemberSplit.LastOf | src/libs/member.ts:104-114 | a found element is one of the elements with that tag; none exactly when no element has it |
| MemberSplit.ElementWrites | src/libs/member.ts:104-114 | at most one write per element, each inside the split directory |
| MemberSplit.DocOf | src/libs/member.ts:113 | a document exactly when there is an element |
| MemberSplit.StyleWrite | src/libs/member.ts:124-131 | the style file lies in the split directory |
| MemberSplit.SplitDocs | src/libs/member.ts:85-133 | the style document is always present, at the style file; script and template exactly when such an element exists |
| MemberSplit.SplitWrites | src/libs/member.ts:91-131 | the style file is written last and every write is in the split directory |
| MemberSplit.Split | src/libs/member.ts:75-134 | a missing file is an error; otherwise the returned documents and writes are those of the parsed elements |
| MemberSplit.LastElementWins | src/libs/member.ts:104-114 | a later script or template element overrides an earlier one |
| MemberSplit.StyleLangIsLastLang | src/libs/member.ts:116-120 | the style language is the last non-empty `lang` among the style-fed elements |
| MemberSplit.StyleLangDefault | src/libs/member.ts:83-125 | with no such `lang` the style file is `.css` |
| MemberSplit.StyleContentsAreStyleFed | src/libs/member.ts:116-120 | the style contents are the inner markup of exactly the elements other than script and template, in order |
| MemberSplit.WritesInSplitDir | src/libs/member.ts:50-66 | every file the split writes matches the split-directory glob |
| MemberSplit.Entries | src/libs/member.ts:39-43 | a present document gives the entry `[undefined]`, an absent one `[]` |
| MemberSplit.SplitCandidates | src/libs/member.ts:31-48 | split when the host says so, else the sibling strategy |
| MemberSplit.SplitModeShape | src/libs/member.ts:33-44 | a split-mode record built from documents with a style lists `[undefined]` for style and has no first file of any type |
| MemberSplit.SplitRecordShape | src/libs/member.ts:31-48 | a split record always lists the style type, and every first entry is `undefined` |
| Resolvers.Firsts | src/libs/members-base.ts:42-47 | each field is the first entry of its list |
| Resolvers.Candidates | src/libs/members.ts:30-48 | the candidates are never a stored entry: a split record or the outcome of the sibling strategy |
| Resolvers.FragmentIsNotSplitMode | src/libs/members.ts:51-76 | a fragment is a split file and is never split again, whatever the settings |
| Resolvers.MainFileBySplitedFile | src/libs/members.ts:55-63 | empty when `.path` is missing; otherwise exactly its text trimmed of leading and trailing white space |
| Text.Trim | src/libs/members.ts:62 | `String.prototype.trim`: the result is the text between the leading and the trailing run of white space, ending in no white space |
| Text.TrimUnique | src/libs/members.ts:62 | a string has only one trimmed form, so the trim is pinned down exactly |
| Text.WhereConcat | src/component.ts:118-120 | `filter` keeps order: filtering a concatenation concatenates the filtered parts |
| Resolvers.BackReferenceOfFragment | src/libs/members.ts:55-63 | for a fragment the back-reference is read from `.path` in its own split directory |
| Resolvers.MembersSplitMode.GetCandidates | src/libs/members.ts:30-48 | the candidates of the reference outcome; a spliter is created at most once and reused, and each call absorbs the document again |
| Resolvers.MembersSplitMode.SplitAgain | src/libs/members.ts:31-45 | split entries `[undefined]` per type, with the spliter created once and split again |
| Resolvers.MembersSplitMode.RecordFirsts | src/libs/members-base.ts:41-48 | the member fields and `store[path]` become the first file of each type |
| Resolvers.MembersSplitMode.Construct | src/libs/members-base.ts:34-49 | a stored path reuses the stored firsts and leaves the store unchanged; otherwise the resolved files are recorded, or the error leaves the store unchanged |
| Resolvers.MembersSplitMode.ResolveAndRecord | src/libs/members-base.ts:39-47 | `files` becomes the resolved candidates, and the member fields and `store[path]` their first files |
| Resolvers.NewMembers | src/libs/members-base.ts:34-49 | the same as `Construct`, for a fresh object |
| Resolvers.SplitModeResolvesToNothing | src/libs/members-base.ts:63-64 | split-mode candidates are returned unresolved, and their firsts are all `undefined` |
| Resolvers.Member.constructor | src/libs/member-base.ts:33-41 | the member fields are the first file of each list |
| Resolvers.NewMember | src/libs/member-base.ts:33-63 | fails exactly when the candidates fail, else a member of the resolved candidates |
| Resolvers.SplitMemberHasNoFiles | src/libs/member.ts:31-48 | in split mode a `Member` records no file of any type |
| Resolvers.SplitMembersHaveNoFiles | src/libs/members.ts:30-48 | in split mode a `Members` construction records no file of any type |
| Sessions.MemberIds | src/libs/parallel.ts:147-163 | at most three ids: the id of the first file of each present list, and nothing else |
| Sessions.Register | src/libs/parallel.ts:147-163 | every id maps to the component, other entries unchanged |
| Sessions.Unregister | src/libs/parallel.ts:82-98 | exactly the entries not named by an id remain, unchanged |
| Sessions.RegisterThenUnregister | src/extension.ts:75-156 | closing after opening restores every entry not named by the component's ids |
| Sessions.StripScheme | src/extension.ts:76 | strips a leading `file://` and nothing else |
| Sessions.CloseIds | src/libs/parallel.ts:76-98 | fails exactly on an empty script list (the strict `[0]`), else the component's ids |
| Sessions.Present | src/libs/parallel.ts:109-130 | `Shown`: the registered component, whose record becomes `Filled` from the one it had, or a fresh one for the stripped uri (its id, host and extensions) filled from `{}`; every other registered component keeps its record; the calls are returned exactly when the record completes, else `NotADirectory` of the component directory |
| Sessions.Parallel.ShowComponent | src/libs/parallel.ts:107-131 | nothing outside the configured directories; otherwise `Shown` for the id of the stripped uri, failing with `NotADirectory` exactly when the record stays uncompleted; the registry unchanged |
| Sessions.Parallel.OpenComponent | src/libs/parallel.ts:138-165 | `Shown` for the id of the stripped uri, so the component and its filled record are fixed by the uri and the prior registry; on success the registry becomes the old one plus that component under its `MemberIds`; on failure the `NotADirectory` error, the registry unchanged |
| Sessions.Parallel.OnClose | src/libs/parallel.ts:71-100 | an unknown file changes nothing; a known one drops its component's ids, or fails on an empty script list |
| Sessions.StripLeadingSep | src/extension.ts:111 | drops one leading '/' or '\' |
| Sessions.ComponentsEditor.ShowComponent | src/extension.ts:108-125 | nothing outside the configured directories; otherwise `Shown` for the id of the uri with its scheme, failing with `NotADirectory` exactly when the record stays uncompleted; the registry unchanged |
| Sessions.ComponentsEditor.OpenComponent | src/extension.ts:132-156 | `Shown` for the id of the uri with its scheme; on success the registry becomes the old one plus that component under its `MemberIds`; on failure the `NotADirectory` error, the registry unchanged |
| Sessions.ComponentsEditor.OnClose | src/extension.ts:75-101 | an unknown file changes nothing; a known one drops its component's ids |

## Left out

- File system access (`readdirSync`, the klaw-sync walk, `mkdirp`, `writeFileSync`,
  `existsSync`, `readFileSync`) becomes the `Host.Io` record, and the written files become
  returned or recorded (path, content) lists. Directory creation is not modelled.
- jsdom is not part of this model. The parse of `<body>…</body>` is given as the sequence of
  top-level elements: tag, `lang`, `scope`, inner and outer markup.
- The md5 digest is the uninterpreted `createId`; collisions are not excluded.
- micromatch is not part of this model. Only the glob forms the code uses are read, segment by
  segment, and case folding is ASCII-only.
- Classify.TypeByPath: the `i` flag of the extension pattern `\.(e1|…)$` folds case in ASCII
  only in the model; JavaScript's case-insensitive matching also folds non-ASCII letters.
- `Array.prototype.sort` compares UTF-16 code units. Here it is ordered by Dafny characters.
- VS Code APIs are not modelled:
  - editor calls are returned as `Action` values
  - event subscription, `dispose`, the explorer and the tree view are left out
  - `workspace.getConfiguration` is the `WorkspaceConfig` value
- `Parallel.isSplitMode`, which src/libs/member.ts calls, is not defined in src/libs/parallel.ts
  (the class has no static `isSplitMode`). It is the host's `isSplitMode`.
- `config.mergePatterns`, `scriptDirs`, `styleDirs`, `templateDirs`, `componentDirs`, `scriptExts`,
  `styleExts`, `templateExts` and `sfcExts` are not defined by src/config.ts. They are the
  `Settings` values and, for parallel.ts, the `inConfiguredDir` test.
- `DocTypes`, `DocType`, `TYPES`, `SCRIPT`, `STYLE` and `TEMPLATE`, imported from src/config.ts,
  are not defined there either. src/libs/member.ts imports `TYPES` from src/libs/member-base.ts
  instead, which does not export it either. They are assumed to match the `DocumentType` enum of
  src/libs/document.ts: the keys `'script'`, `'style'` and `'template'`, in that order
  (`DocTypes.TYPES`).
- Discovery.Walk: the walk visits every path below the directory and the filter is applied
  afterwards, as klaw-sync does before version 4 or with `traverseAll`. From version 4 a
  directory that fails the filter is not descended into; that pruning is not modelled.
- Discovery.SlashOnly and Discovery.RunSegments: a mixed run such as `/\` is one separator in
  the model. The `commondir` split on `/\/+|\\+/` leaves an empty piece between the two.
- Brace globs: a single alternative such as `{vue}` and regular-expression metacharacters inside
  an extension are read as plain alternatives. micromatch reads `{vue}` literally and the regular
  expressions of the `Members` family would give the metacharacters their meaning.
- The member that src/libs/component.ts reads (`getScript`, `getStyle`, `getTemplate`, and the
  first files) comes from an asynchronous variant that is not part of this model. It is the
  `MemberView` input.
- `getMemberFiles`, which src/libs/parallel.ts calls, is read as the component's memoised
  record.
- The asynchronous member.cross.ts, member.sibling.ts and member.split.ts variants are not part
  of this model.
- Resolvers.Store: keys that collide with `Object.prototype` members (a path named `constructor`)
  are not modelled.
- `Member.documents` (src/libs/member-base.ts:27) is declared but never assigned, so it is not
  modelled.
- Document `isClosed` changes are left out. No modelled code assigns the field after
  construction.
- Sessions.ComponentsEditor.ShowComponent: the registry is looked up with the unstripped uri,
  while `onClose` strips it. With an uninterpreted `createId` the model cannot say whether the
  two ids differ.
- Resolvers.MembersSplitMode.Construct: on a store hit the member fields stay `undefined`, as in
  the code. The base constructor assigns them only on a miss.
