# Verified models of the repository's tooling algorithms

The repository's own scripts (`scripts/*.ts`) hold a number of small algorithms that
everything else leans on: the gate scheduler, the configuration-path lookup, the npm
publication run, the package sort, the documentation link and anchor tools, the exact
edits of the vendor rescope, the fixture canonicaliser, the lint worker pool and the
JSDoc parser. This project models them in Dafny and proves what they promise, for every
input, every interleaving and every interruption.

Each script has a module or two of its own. Where a script changes state step by step the
model does too: `GateGraph.CycleSearch`, `PathWalk.Walk`, `PublishRun.NpmRegistry`,
`WorkerPool.Pool` and `JsDoc.ProseBuffers` are classes with the script's own fields, and
loops are loops. Each of those methods is proved against a specification function or
predicate, and the laws are proved about that.

| file | what it models |
|---|---|
| `GateGraph.dfy` | the dependency graph of gates: cycle search, validation |
| `GateOutcomes.dfy` | the one assignment of final statuses a gate graph admits |
| `GateScheduler.dfy` | the scheduling loop, the legal event logs, the exit code |
| `GateRuns.dfy` | every run the scheduling rules allow: confluence, progress, length |
| `TypePath.dfy`, `PathWalk.dfy` | key paths and the three-valued lookup, as functions and as the walk with its shared guard |
| `TypeMeaning.dfy`, `TypeSoundness.dfy` | the least meaning of "this path exists", and the lookup against it |
| `TypeMissing.dfy` | when the definite answers are exact: the lookup against the unguarded tree of questions |
| `Publication.dfy`, `PublishRun.dfy` | a publication as interruptible registry commands, and the script's loop over them |
| `PackageGraph.dfy`, `Sorting.dfy` | the layered topological sort |
| `Anchors.dfy` | GitHub anchor allocation |
| `ExactEdit.dfy`, `EditStates.dfy` | one exact edit: application, reversal, and what its classification tells |
| `EditRuns.dfy`, `EditSites.dfy` | a whole run of exact edits, forwards and in reverse, over the sites of its texts |
| `Substring.dfy`, `Seams.dfy`, `Windows.dfy`, `Sites.dfy` | splitting at a string; occurrences next to a seam; what a joined text includes; texts with sites |
| `LinkProjection.dfy` | link destinations and back-to-front splicing |
| `CommentLines.dfy` | HTML comments clipped to lines, and the lines that remain |
| `Fixture.dfy` | the self-checking fixture canonicaliser |
| `WorkerPool.dfy` | the lint worker pool under every interleaving |
| `JsDoc.dfy` | the JSDoc prose parser against a grammar of blocks |
| `Text.dfy`, `Wrappers.dfy` | white space, words, splitting and joining; options and results |

Statements that turned out narrower than hoped are given with their exact condition:

- Where `latest` of the entry package does not name the version yet, interrupted runs can
  expose an incomplete release if and only if dealing with the entry package already moves
  `latest` (the bundle's own tag is `latest`, or the registry makes a first version
  `latest` and the entry package has none) while some package behind it is not there yet
  and nothing before it is in conflict (`SafeIff`). The first release fails on such a
  registry: packages are sorted by name, so the entry package is published before the
  others (`FirstReleaseExposed`, `FirstReleaseExample`).
- The lookup answers `missing` exactly for paths that no branch has and on whose way no
  declaration is come to twice with the same number of steps left; and where none is come
  to twice, it answers `found` exactly for present paths, unions included (`MissingIff`,
  `FoundIff`). An intersection, a union, two bases, or an interface among its own bases can
  come to one twice, and then a definite answer can turn into `unknown`
  (`UnionMayLoseFound`, `DiamondMayLoseMissing`, `SelfBaseTwice`), never into a wrong one
  (`LookupPathSound`). Where the walk can meet no union, `found` is exact even so
  (`FoundIffPresent`). A union whose branches disagree is `unknown` by itself
  (`MixedUnionIsAbsent`). Types on which no path forks need no look at the path
  (`StraightIsExact`).
- An exact edit is undone exactly where every cut is clean: at each site the target form
  is not found any earlier, and nowhere behind the last (`UndoneIff`). A pending edit lands
  and can be taken back exactly where, besides, it keeps its source form or the text
  between the sites does not form that again (`LandsIff`). The target forms that can be
  undone in every text, where the source form does not contain them, are those without a
  border (`ReversibleIffUnbordered`, `BorderedBreaks`). For a deletion whose remainder has
  no border, a clean cut means that the remainder occurs nowhere else
  (`DeletionUndoneIff`, `DeletionAppliedIff`); with a border it does not
  (`BorderedDeletionNotUndone`, `BorderedDeletionNotApplied`).
- The classification of an exact edit tells at how many sites its source and its target
  form stand; but an insertion is applied whatever bare anchors stand beside the landed
  ones, and a deletion pending whatever remainders stand beside its source forms
  (`ReplacementState`, `InsertionState`, `DeletionState`).
- A run over several edits, of one file or of many, lands all of them and can be taken
  back if in the texts it passes through each form occurs only at the sites of its own edit
  (`RunRoundTrip`). Looking at each site with its two gaps is enough (`GapsSuffice`), and
  forms may overlap, as table rows do (`RowsSettled`).
- A canonical fixture is its own canonical form if and only if its header line does not
  end in a carriage return (`FixedPointIff`, `ReturnHeaderExample`).
- A key path is parsed back to the steps it was written from if and only if it starts at
  a key and no key holds a dot or ends in `[]` (`PathRoundTrip`, `DottedKeyLost`).
- A rewritten link destination is found again if and only if it survives the scan; every
  URL without spaces and backslashes, with paired parentheses and not starting with `<`,
  does (`PlainDestinationRoundTrip`, `PlainUrlSurvives`, `SpacedDestinationLost`).

Two remarks on the code. `remoteDistTag` fails for a package the registry has never seen,
so `ensureDistTag` fails there in the model as well. And the second self-check of
`canonicalSessionFixture` can never fire, whatever the codec: the first one implies it.

## Model

| member | source | states |
|---|---|---|
| GateGraph.ById | scripts/run-gates.ts:668 | the index has exactly the listed ids, and with unique ids maps each gate to its own needs |
| GateGraph.OrderIffAcyclic | scripts/run-gates.ts:667-697 | a dependency graph has a topological order if and only if no chain of needs closes; the reference notion behind the search |
| GateGraph.CycleSearch.Visit | scripts/run-gates.ts:673-690 | one visit reports a real cycle, or restores `path` and `active` and completes the id without losing any completed one |
| GateGraph.CycleSearch.VisitNeeds | scripts/run-gates.ts:682-685 | the loop over the needs reports a real cycle, or leaves every known need complete |
| GateGraph.FindDependencyCycle | scripts/run-gates.ts:667-697 | no answer if and only if the graph is acyclic; otherwise a closed chain of at least two ids, each needing the next, first equal to last |
| GateGraph.ValidateGateGraph | scripts/run-gates.ts:647-665 | accepts exactly non-empty lists with unique ids, known needs and no cycle; each refusal comes with the witness its message names: the first repeated id, the first unknown need in list order, a real cycle |
| GateOutcomes.SolutionUnique | scripts/run-gates.ts:707-779 | on a valid graph there is at most one assignment in which a gate has its executor's status if its needs passed and is skipped otherwise |
| GateOutcomes.SolutionExists | scripts/run-gates.ts:707-779 | on a valid graph there is such an assignment |
| GateOutcomes.FinalStatusByTransitiveNeeds | scripts/run-gates.ts:707-779 | a gate ends with its own outcome if and only if everything it needs, directly or not, passes; otherwise it is skipped |
| GateOutcomes.SkippedIffTransitiveFailure | scripts/run-gates.ts:733-759 | skipped if and only if some transitive need failed |
| GateScheduler.LegalBoundsConcurrency | scripts/run-gates.ts:723-731 | at every moment of a legal run at most `maxActive` gates are in flight |
| GateScheduler.LegalOnce | scripts/run-gates.ts:723-768 | no gate is started twice and none is observed twice |
| GateScheduler.LegalNeedsFirst | scripts/run-gates.ts:724-728 | a started gate has had every need observed as passed before it |
| GateScheduler.StartKeeps | scripts/run-gates.ts:723-731 | starting a ready gate in a free slot keeps the run invariant and is a legal step |
| GateScheduler.SettleKeeps | scripts/run-gates.ts:761-767 | settling any running gate, with the pool full or nothing ready, keeps the run invariant and is a legal step |
| GateScheduler.EntryDetermined | scripts/run-gates.ts:721-732 | whatever the settlement order and the pool size, the skip phase is entered in the one state the solution determines |
| GateScheduler.SomeBlocked | scripts/run-gates.ts:734-739 | on a valid graph some pending gate always has a failed or skipped need, so the stalled error is unreachable |
| GateScheduler.StartIsFirst | scripts/run-gates.ts:724-728 | a gate is started only when no gate listed before it is ready, told by the log alone |
| GateScheduler.SkipIsFirst | scripts/run-gates.ts:735-742 | a gate is skipped only when no unobserved gate listed before it has a need seen to fail or to be skipped, told by the log alone |
| GateScheduler.SkipReports | scripts/run-gates.ts:740-752 | a skipped gate names, in the order of its needs, exactly those seen to fail or to be skipped before it |
| GateScheduler.FillPool | scripts/run-gates.ts:722-731 | starts until the pool is full or nothing is ready; progress lowers 2 * pending + running, no progress changes nothing |
| GateScheduler.SkipPending | scripts/run-gates.ts:732-759 | empties `pending` without stalling and observes every gate with its final status |
| GateScheduler.ResultsExplain | scripts/run-gates.ts:735-757 | a gate that ran returns its executor's result; a skipped one names at least one of its needs, only failed or skipped ones, and all that failed |
| GateScheduler.Schedule | scripts/run-gates.ts:717-769 | the loop ends with the determined results, a result for every gate and a legal log |
| GateScheduler.RunGates | scripts/run-gates.ts:707-775 | refusals are exact and start nothing; otherwise results and statuses depend on gates and outcomes alone, in list order; gates start and are skipped in list order as they become ready and blocked, and each result is what the log says of its gate, blockers included; neither the stalled nor the missing-result error occurs |
| GateScheduler.ExitCodeMeaning | scripts/run-gates.ts:94-96 | exit code 0 if and only if every gate that may not fail passed together with all its transitive needs |
| GateRuns.EventFits | scripts/run-gates.ts:721-768 | in every run that the rules allow, each observation is the gate's final status and each started gate was due |
| GateRuns.RunsAgree | scripts/run-gates.ts:707-779 | confluence: two runs of any schedules and any pool sizes observe the same of the same gate |
| GateRuns.FinishedRun | scripts/run-gates.ts:721-775 | a run that has observed every gate has the final statuses and has started exactly the gates whose needs passed |
| GateRuns.CompleteIsRun | scripts/run-gates.ts:717-769 | the log the loop leaves behind is one of these runs |
| GateRuns.RunProgresses | scripts/run-gates.ts:732-768 | while a gate is unobserved every reachable state has a next step, so nothing stalls |
| GateRuns.RunIsShort | scripts/run-gates.ts:721-768 | every step lowers 2 * waiting + running, so a run has at most two events for each gate |
| TypePath.ParseSegment | scripts/gen-config-catalog.ts:235-240 | name and bracket count put the segment back together, and the name ends in no bracket pair |
| TypePath.ParsePath | scripts/gen-config-catalog.ts:232-245 | the nested loops compute the steps of the segments in order |
| TypePath.PathRoundTrip | scripts/gen-config-catalog.ts:432-470 | a path written as the schema walk writes it is parsed back to its steps if and only if it starts at a key and its keys hold no dot and end in no `[]` |
| TypePath.DottedKeyLost | scripts/gen-config-catalog.ts:432-470 | a key with a dot in it is read back as two keys |
| TypePath.FindMember | scripts/gen-config-catalog.ts:335-343 | nothing if and only if no property signature has the name; otherwise the annotation of the first that has it |
| TypePath.LookupDecl | scripts/gen-config-catalog.ts:317-361 | the guarded lookup of a declaration terminates on every world, recursive ones included, and only ever adds to `seen` |
| TypePath.LookupType | scripts/gen-config-catalog.ts:362-403 | the lookup of a type node terminates and only ever adds to `seen` |
| TypeMeaning.HasUnfolds | scripts/gen-config-catalog.ts:309-316 | the least meaning of presence, in every branch of a union or in some, satisfies the rule for each kind of node in both directions |
| TypeSoundness.TypeSound | scripts/gen-config-catalog.ts:317-403 | from any `seen` at all, found implies present and missing implies absent |
| TypeSoundness.LookupPathSound | scripts/gen-config-catalog.ts:223-226 | from a declaration, where the catalog starts, or from any type: found implies present and missing implies absent in the least meaning, whatever types out of reach may hold |
| TypeSoundness.FoundIffPresent | scripts/gen-config-catalog.ts:317-403 | where the walk can meet no union, whatever other files hold, the answer is found if and only if the declared types show the path present |
| TypeSoundness.UnionMayLoseFound | scripts/gen-config-catalog.ts:370-376 | on the union of `Leaf` with itself a present member is answered unknown, because the second branch meets the guard of the first |
| TypeSoundness.DiamondMayLoseMissing | scripts/gen-config-catalog.ts:367-369 | on the intersection of `Leaf` with itself an absent member is answered unknown, because `Leaf` is come to twice |
| TypeMissing.MissingIff | scripts/gen-config-catalog.ts:317-403 | for all types: the answer is missing if and only if no branch has the path, whatever lies out of reach, and no declaration is come to twice with the same number of steps left |
| TypeMissing.FoundIff | scripts/gen-config-catalog.ts:317-403 | for all types: where no declaration is come to twice, the answer is found if and only if the declared types show the path present |
| TypeMissing.MissingIffUnionFree | scripts/gen-config-catalog.ts:317-403 | where the walk can meet no union, missing means absent and come to nothing twice |
| TypeMissing.StraightIsExact | scripts/gen-config-catalog.ts:344-401 | where no path forks and aliases and bases lead downwards, missing and found are both exact, whatever the path |
| TypeMissing.TypeTraced | scripts/gen-config-catalog.ts:322-326 | what a walk with any guard answers and marks, told by the tree it would unfold without one: missing means the tree repeats nothing, and an answer that is not fair means that it repeats something |
| TypeMissing.SelfBaseTwice | scripts/gen-config-catalog.ts:348-359 | an interface among its own bases is come to twice for every member it lacks |
| TypeMissing.MixedUnionIsAbsent | scripts/gen-config-catalog.ts:370-376 | a union with a found and a missing branch is answered unknown although the path is absent, with no guard met |
| PathWalk.Walk.Declaration | scripts/gen-config-catalog.ts:322-361 | the walk with its mutable guard answers and marks exactly as the function does |
| PathWalk.Walk.Bases | scripts/gen-config-catalog.ts:348-358 | the heritage loop answers each base with the guard left by the ones before it |
| PathWalk.Walk.TypeNode | scripts/gen-config-catalog.ts:362-403 | the walk over type nodes answers and marks exactly as the function does |
| PathWalk.Walk.Parts | scripts/gen-config-catalog.ts:367-376 | every branch is walked in order, sharing one guard |
| Publication.EnsureTagTags | scripts/publish-npm-baseline.ts:755-764 | when it succeeds, skipping a tag that is already right leaves what adding it would leave |
| Publication.StepKeeps | scripts/publish-npm-baseline.ts:630-653 | every command keeps: a prefix of the packages done, the rest as at the start, `latest` moved only after all of them, done packages never undone |
| Publication.PublicationSafe | scripts/publish-npm-baseline.ts:630-651 | where nothing can expose it, after any sequence of interrupted runs, if `latest` of the entry package names the version then every package is published with its integrity and tag |
| Publication.SafeIff | scripts/publish-npm-baseline.ts:630-651 | for every bundle and every registry: all sequences of interrupted runs are safe if and only if the entry package is not dealt with, moving `latest`, in front of a package that is not there yet, and `latest` does not already name a version that is incomplete |
| Publication.ExposedAfterEntry | scripts/publish-npm-baseline.ts:630-650 | a run cut off right behind the entry package has moved `latest` while the package after it is not there yet |
| Publication.AheadUntouched | scripts/publish-npm-baseline.ts:630-650 | a run has not touched the packages it has not come to |
| Publication.FirstReleaseExposed | scripts/publish-npm-baseline.ts:632-638 | on a registry that makes a first version `latest`, the first command of a first release with the entry package in front exposes it |
| Publication.FirstReleaseExample | scripts/publish-npm-baseline.ts:632-638 | such a bundle, with a dist-tag that is not `latest` |
| Publication.TaggableInTheEnd | scripts/publish-npm-baseline.ts:651 | `latest` can be moved at the end if and only if the entry package is in the bundle or it could be moved at the start |
| Publication.PublicationConverges | scripts/publish-npm-baseline.ts:625-654 | after any history one uninterrupted run succeeds if and only if nothing stood in the way at the start, ends in the registry of a never interrupted run, and both verifications pass |
| Publication.VersionsImmutable | scripts/publish-npm-baseline.ts:639-644 | an existing version never changes its contents, and only the bundle's own versions are added |
| Publication.VerifyMeans | scripts/publish-npm-baseline.ts:656-698 | over any registry, verification succeeds if and only if every package is there with its contents and tag and `latest` of the entry package names the version |
| Publication.TagsKept | scripts/publish-npm-baseline.ts:632-651 | after any sequence of interrupted runs every tag of every package is where it was, but for the bundle's own tag, `latest` of the entry package and what the registry does with a first version; those may name the version instead |
| Publication.TagsInTheEnd | scripts/publish-npm-baseline.ts:632-651 | after a run to the end exactly those tags name the version and every other is where it was at the start |
| Publication.OthersUntouched | scripts/publish-npm-baseline.ts:632-651 | a package that is neither in the bundle nor the entry package is not touched at all |
| PublishRun.NpmRegistry.EnsureDistTag | scripts/publish-npm-baseline.ts:755-764 | tags the version or throws, and changes nothing else |
| PublishRun.PublishPackage | scripts/publish-npm-baseline.ts:630-650 | the loop body moves the registry as the command machine does, or stops as it does |
| PublishRun.MoveLatest | scripts/publish-npm-baseline.ts:651-653 | moving `latest` and both verifications end as the command machine does |
| PublishRun.Publish | scripts/publish-npm-baseline.ts:625-654 | the script, cut off before any command, leaves the registry and outcome of the machine cut off there |
| PackageGraph.CompareIsOrder | scripts/package-graph.ts:77-83 | comparing group rank, group and name is a total preorder whose ties share a name |
| PackageGraph.CompareMeans | scripts/package-graph.ts:77-83 | the comparator is negative if and only if the first group is listed and the second is not listed before it, or neither is listed and the group names collate so, or the groups are one and the short names do |
| PackageGraph.Entries | scripts/package-graph.ts:60 | the map keeps each listed name once, with the last package of that name, in the order in which the names first occur |
| PackageGraph.LevelIsLongestChain | scripts/package-graph.ts:63-66 | the layer of a package is the length of its longest dependency chain |
| PackageGraph.CanonicalUnique | scripts/package-graph.ts:59-75 | there is only one canonical listing, so input order does not show |
| PackageGraph.DependenciesFirst | scripts/package-graph.ts:27-33 | in a canonical listing every dependency comes before its dependents |
| PackageGraph.LayerKeeps | scripts/package-graph.ts:63-73 | placing one sorted layer keeps: the placed have their level, the rest belong higher, the output increases |
| PackageGraph.StuckUnique | scripts/package-graph.ts:67 | the packages named in the error are determined by the dependencies alone |
| PackageGraph.PlaceAll | scripts/package-graph.ts:68-72 | a layer moves whole from `remaining` to `out` and `placed` |
| PackageGraph.TopoSort | scripts/package-graph.ts:59-75 | succeeds if and only if the dependencies are closed and well-founded, with the canonical listing: by layer, then the caller's order of groups, unlisted groups behind the listed ones by name, and the packages of one group by theirs; otherwise names exactly the packages that cannot be placed, in the order of the manifests. The order of groups is stated for lists no longer than the rank of an unlisted group |
| Anchors.DecimalInjective | scripts/verify-md-links.ts:123 | numbers with the same decimal suffix are equal |
| Anchors.DecimalReads | scripts/verify-md-links.ts:123 | a suffix consists of decimal digits, reads back as its number and has no zero in front |
| Anchors.LeastFreeUnique | scripts/verify-md-links.ts:106-109 | the least free name is determined |
| Anchors.AllocationUnique | scripts/verify-md-links.ts:114-127 | naive search gives each heading one name only |
| Anchors.AllocationDistinct | scripts/verify-md-links.ts:106-109 | no two headings share an anchor |
| Anchors.FragmentsUnique | scripts/verify-md-links.ts:101-113 | the set of fragments of a document is determined by its headings and explicit ids |
| Anchors.FindFree | scripts/verify-md-links.ts:120-124 | from the memoised counter the loop ends, at the least free name of all |
| Anchors.DocumentAnchors | scripts/verify-md-links.ts:114-134 | the memoised loop allocates as naive search does, and exposes exactly those names and the explicit ids |
| Substring.SplitConcat | scripts/rescope-vendor.ts:559-560 | splitting at an unbordered separator distributes over inserting it |
| Seams.SplitSeam | scripts/rescope-vendor.ts:559-560 | splitting at one form treats the two sides of a separate form on their own |
| Seams.CountKept | scripts/rescope-vendor.ts:559-560 | replacing one form by another changes the count of no form separate from both |
| Seams.Commute | scripts/rescope-vendor.ts:613-617 | replacements of separate forms can be applied in either order |
| Windows.JoinIncludesIff | scripts/rescope-vendor.ts:616 | a text joined from parts includes a form if and only if one part with the separators next to it does, or an end, whole parts and separators, and a start make it up |
| ExactEdit.SplitsBack | scripts/rescope-vendor.ts:559-560 | splitting gives back what was joined if and only if at every joint the separator comes first |
| ExactEdit.UndoneIff | scripts/rescope-vendor.ts:616 | for every text and all non-empty forms: applying an edit and then its reverse restores the text if and only if every cut is clean |
| ExactEdit.LandsIff | scripts/rescope-vendor.ts:558-571 | a pending edit of any kind becomes applied, is pending in reverse and is undone if and only if the cuts are clean and it keeps its source form or does not form it again |
| ExactEdit.ReplacementLandsIff | scripts/rescope-vendor.ts:569-570 | where neither form contains the other, looking at each part and the target forms next to it decides that |
| ExactEdit.DeletionAppliedIff | scripts/rescope-vendor.ts:565-568 | a pending deletion whose remainder has no border becomes applied if and only if that remainder occurs nowhere else and the text between the sites forms no new site |
| ExactEdit.DeletionUndoneIff | scripts/rescope-vendor.ts:616 | a deletion whose remainder has no border is undone if and only if that remainder occurs nowhere else |
| ExactEdit.DeletionReforms | scripts/rescope-vendor.ts:565-568 | a deletion whose form comes back out of the text in front of it |
| ExactEdit.DeletionReformsAcross | scripts/rescope-vendor.ts:565-568 | a deletion whose form comes back across a remainder |
| ExactEdit.BorderedDeletionNotUndone | scripts/rescope-vendor.ts:616 | a deletion with a bordered remainder that occurs nowhere else, and is not undone |
| ExactEdit.BorderedDeletionNotApplied | scripts/rescope-vendor.ts:565-568 | a deletion with a bordered remainder that occurs nowhere else and forms no new site, and is not applied |
| ExactEdit.BorderedBreaks | scripts/rescope-vendor.ts:558-571 | for every bordered target form there is a pending edit that cannot be undone |
| ExactEdit.ReversibleIffUnbordered | scripts/rescope-vendor.ts:558-571 | exactly the unbordered target forms can be undone in every pending edit that is not a deletion |
| EditStates.ReplacementState | scripts/rescope-vendor.ts:569-570 | where neither form contains the other and the two stand at k and m sites and nowhere else: pending if and only if k is the expected number and m is 0, applied if and only if k is 0 and m the expected number, invalid otherwise |
| EditStates.InsertionState | scripts/rescope-vendor.ts:561-564 | an insertion is pending if and only if k is the expected number and m is 0, applied if and only if m is the expected number, invalid otherwise |
| EditStates.DeletionState | scripts/rescope-vendor.ts:565-568 | a deletion is pending if and only if k is the expected number, applied if and only if k is 0 and m the expected number, invalid otherwise |
| EditStates.MisplacedIsInvalid | scripts/rescope-vendor.ts:558-571 | an edit of any kind whose sites are neither all to do nor all done is invalid |
| EditStates.GoneIsMisplaced | scripts/rescope-vendor.ts:558-571 | an edit with neither form left in the text is such an edit |
| EditRuns.Classify | scripts/rescope-vendor.ts:589-605 | reports one failure for each edit that is invalid or, when checking, not applied; without any, plans exactly the pending edits in order, and nothing when checking |
| EditRuns.Write | scripts/rescope-vendor.ts:612-618 | re-reading each file applies the edits one after the other |
| EditRuns.RunEdits | scripts/rescope-vendor.ts:586-618 | all or nothing: a missing file crashes the run, and it is refused if and only if some edit is invalid or, when checking, not applied; so a moved, partial or duplicated edit refuses it in every mode; otherwise applying writes the pending edits and the other modes write nothing |
| EditRuns.CleanLands | scripts/rescope-vendor.ts:558-571 | a pending edit of a file lands if and only if it is clean there |
| EditRuns.StateKept | scripts/rescope-vendor.ts:613-617 | applying one edit does not change the state of another whose forms never meet its own, in the same file or not |
| EditRuns.EditsCommute | scripts/rescope-vendor.ts:613-617 | edits whose forms never meet can be applied in either order, in the same file or not |
| EditRuns.SeparateRoundTrip | scripts/rescope-vendor.ts:589-618 | a run over clean pending edits whose forms never meet, whatever the text between them, lands all of them, and the reversed run restores every file |
| Sites.ApplySites | scripts/rescope-vendor.ts:616 | replacing a form that occurs only at its owner's sites changes those sites, one for one, and nothing else |
| EditSites.StateAt | scripts/rescope-vendor.ts:558-571 | at a settled stage each edit is classified by what stands at its sites, forwards and in reverse |
| EditSites.ApplyAt | scripts/rescope-vendor.ts:613-617 | applying an edit at a settled stage changes its own sites and no other text of any file |
| EditSites.RunRoundTrip | scripts/rescope-vendor.ts:589-618 | if at every stage each form occurs only at the sites of its own edit, a run lands every edit, several of one file and overlapping forms included; the reversed run, in list order, accepts all of them and restores every file |
| EditSites.GapsSuffice | scripts/rescope-vendor.ts:589-618 | if around every site, whichever forms stand there and at its neighbours, each form occurs at sites of its own edit only, every stage is settled |
| EditSites.RowsSettled | scripts/rescope-vendor.ts:589-618 | two table rows whose forms overlap each other and themselves are such edits |
| LinkProjection.LabelEndMeans | scripts/project-doc-site.ts:71-87 | the end of a label is the first closing bracket, not hidden by a backslash, at which such brackets from the first opening one balance, and the scan finds it |
| LinkProjection.LabelEnd | scripts/project-doc-site.ts:71-87 | the loop answers with that bracket, or with -1 if there is none |
| LinkProjection.DestinationMeans | scripts/project-doc-site.ts:89-132 | behind the first colon past the label of a definition, or the parenthesis right behind any other label, past white space: between angle brackets up to the first visible closing one, else up to the first visible white space or closing parenthesis outside parentheses; each error exactly for want of that |
| LinkProjection.DestinationRange | scripts/project-doc-site.ts:89-132 | the loops find that range, or the error |
| LinkProjection.StartAgrees | scripts/project-doc-site.ts:90-107 | where the destination starts depends only on the text before it |
| LinkProjection.PlainDestinationRoundTrip | scripts/project-doc-site.ts:117-131 | the rewritten node reads back exactly the new destination if and only if it survives the scan |
| LinkProjection.PlainUrlSurvives | scripts/project-doc-site.ts:117-131 | every URL without spaces and backslashes, with paired parentheses and not starting with `<`, survives anywhere |
| LinkProjection.SpacedDestinationLost | scripts/project-doc-site.ts:127-129 | a destination with a space in it is cut short, in whatever node it is put |
| LinkProjection.AngleDestinationRoundTrip | scripts/project-doc-site.ts:109-115 | inside angle brackets it reads back if and only if it holds no unhidden `>` and hides nothing behind it |
| LinkProjection.SortedAscending | scripts/project-doc-site.ts:265 | disjoint ranges sorted by start are in text order |
| LinkProjection.SpliceAll | scripts/project-doc-site.ts:264-268 | back-to-front splicing equals simultaneous substitution of exactly the given ranges with everything else kept |
| CommentLines.CommentsAreComments | scripts/markdown.ts:112-120 | the comments found are in order and apart, closed at the first chance, and no opening lies outside them |
| CommentLines.CommentsUnique | scripts/markdown.ts:112-120 | that description fits one list of comments only |
| CommentLines.NodeComments | scripts/markdown.ts:112-120 | the loop appends a node's comments at their source offsets |
| CommentLines.AllCommentsCover | scripts/markdown.ts:108-121 | a source offset is covered if and only if some node holds a comment there |
| CommentLines.ClippedCovers | scripts/markdown.ts:126-135 | clipping a comment to a line neither loses nor adds a column |
| CommentLines.ClippedSome | scripts/markdown.ts:128-131 | a line has ranges if and only if a comment lies on it, an empty line by its position |
| CommentLines.JoinedLine | scripts/markdown.ts:124-137 | each line is the source slice at its running offset |
| CommentLines.HtmlCommentRanges | scripts/markdown.ts:123-139 | the map holds, for exactly the lines with a comment, all their clipped ranges |
| CommentLines.SweepSegment | scripts/markdown.ts:145-151 | beyond the last start, the characters outside the ranges are those after the farthest end |
| CommentLines.HasRenderedTextOutsideComments | scripts/markdown.ts:143-153 | true if and only if there are no ranges or some non-space character lies outside all of them, overlapping and unsorted ranges included |
| CommentLines.LineShows | scripts/markdown.ts:108-153 | deciding by clipped columns is deciding by source offsets |
| CommentLines.MarkdownProseLines | scripts/markdown.ts:160-176 | keeps, in order and verbatim, exactly the lines outside code that no comment touches or that show a non-space character outside every comment |
| Fixture.RenderedRecords | scripts/session-fixture-layout.ts:55-61 | the first record of a rendered text is its header, less one return at its end |
| Fixture.ReturnedText | scripts/session-fixture-layout.ts:72-98 | a returned text renders the input's header and events and decodes to them |
| Fixture.FixedPointIff | scripts/session-fixture-layout.ts:72-98 | for any codec, a returned text decodes to the input's events, and is its own canonical form if and only if the header line does not end in a return |
| Fixture.ReturnHeaderExample | scripts/session-fixture-layout.ts:24-28 | a header closed by two returns is canonicalised to a text that is not canonical |
| Fixture.IdempotenceCheckIsImplied | scripts/session-fixture-layout.ts:94-96 | the second self-check fails for no input and no codec |
| Fixture.LawfulNeverRejects | scripts/session-fixture-layout.ts:72-98 | when rows are single lines that parse back and packing loses nothing, every session text with a decodable body is canonicalised |
| WorkerPool.StepKeeps | scripts/publint-all.ts:130-138 | every step keeps: each claimed index is run by exactly one worker or has the result of its own target |
| WorkerPool.ClaimsInOrder | scripts/publint-all.ts:132-135 | under every schedule the claimed indices come out in order, without gaps or repeats |
| WorkerPool.BoundedInFlight | scripts/publint-all.ts:130 | in every reachable state at most `concurrency` runs are in flight, each of another target |
| WorkerPool.PoolDeterminism | scripts/publint-all.ts:127-139 | every schedule has at most 2n + concurrency steps, and all that finish claim each target once and fill slot i with the run of target i |
| WorkerPool.Pool.Advance | scripts/publint-all.ts:131-138 | one worker's turn on the shared counter and results is one step of the machine |
| WorkerPool.RunAll | scripts/publint-all.ts:127-145 | returns the results in target order under any interleaving; a result is missing if and only if there are targets and no worker |
| Text.SplitJoin | scripts/gen-config-catalog.ts:234 | splitting undoes joining when no part holds the separator |
| Text.WordsJoin | scripts/jsdoc.ts:45 | joining with white space neither makes nor loses a word |
| Text.StartTrimmed | scripts/jsdoc.ts:61 | trimming the start takes white space and stops at the first other character |
| JsDoc.MarginStripped | scripts/jsdoc.ts:37 | of a line, indentation, a star, one white space character behind the star and white space at the end go, and nothing else |
| JsDoc.DelimitersGone | scripts/jsdoc.ts:34-35 | of the delimiters those that are there go, and nothing else |
| JsDoc.LinesRead | scripts/jsdoc.ts:33-37 | a comment written line by line is read line by line, each without its margin |
| JsDoc.TagMeans | scripts/jsdoc.ts:65 | a tag line begins with an at sign, white space aside |
| JsDoc.ModeTagMeans | scripts/jsdoc.ts:64 | a mode tag is `@mode` with no word character behind it |
| JsDoc.ModeMeans | scripts/jsdoc.ts:62 | a line sets a mode if and only if it is `@mode`, white space and the name of that mode |
| JsDoc.BulletMeans | scripts/jsdoc.ts:68 | a bullet is a dash and white space at the very start of the line |
| JsDoc.LastModeMeans | scripts/jsdoc.ts:60-65 | of several valid mode lines the last counts |
| JsDoc.Prose | scripts/jsdoc.ts:65-66 | the prose is every line before the first tag line |
| JsDoc.CollapseIsWords | scripts/jsdoc.ts:45 | collapsing yields the words with single spaces between them |
| JsDoc.BlocksWords | scripts/jsdoc.ts:45-80 | the blocks hold the words of the lines, in order, and no others |
| JsDoc.CutAtBlank | scripts/jsdoc.ts:67 | a blank line closes whatever is open, so the blocks on its two sides are apart |
| JsDoc.ProseBuffers.FlushItem | scripts/jsdoc.ts:46-49 | the open item joins the open list, and a paragraph is never open beside it |
| JsDoc.ProseBuffers.FlushPara | scripts/jsdoc.ts:50-59 | everything pending becomes the blocks that the grammar reads in it |
| JsDoc.ProseBuffers.Take | scripts/jsdoc.ts:68-77 | a line joins what is pending; a bullet under a paragraph closes the paragraph first |
| JsDoc.ParseJsDoc | scripts/jsdoc.ts:32-82 | the buffers yield the blocks of the grammar for the lines before the first tag, the last valid mode, and whether any mode tag is there |
| JsDoc.ProseConserved | scripts/jsdoc.ts:32-82 | the words of the text are the words of all lines before the first tag |

## Left out

- Processes, file globbing, Git, npm, tar and HTTP: gate executors are a function from gates to results, the registry is a map, fixtures and documents are given texts.
- `scripts/run-gates.ts`: durations, logging, the observer's own effects and executors that reject; a non-integer `maxActive`, since the model's is an integer.
- `scripts/run-gates.ts`: the concrete gate lists and the environment variables, which are finite data.
- `scripts/gen-config-catalog.ts`: indexed access types, which lengthen the path so that the guard no longer bounds the walk.
- `scripts/gen-config-catalog.ts`: a meaning of its own for `keyof`; the model passes every type operator through, as the code does.
- `scripts/gen-config-catalog.ts`: import resolution; what a name means in a file is given as a map, and the rest of the generator is not part of this model.
- `scripts/publish-npm-baseline.ts`: other writers to the registry, listings that fail for reasons other than an unknown package, and packing; the interactive confirmation and the ping happen before the first command and change nothing.
- `scripts/package-graph.ts`: reading manifests; `localeCompare` is any total order on strings.
- `scripts/verify-md-links.ts`: Markdown parsing and the slug rule; headings, explicit ids and the slug function are given.
- `scripts/rescope-vendor.ts`: the token pass, whose repeated application is not stable on adjacent tokens that share a quote.
- RunRoundTrip: texts in which a form occurs outside the sites of its own edit, where a classification by counts can be right for the wrong places.
- ExactEditState: an empty source or target form, which no listed edit has.
- `scripts/project-doc-site.ts`: resolving targets and routes, and locating nodes; ranges come from the parser and are taken to be disjoint.
- SpliceAll: overlapping ranges, which the parser's nodes do not produce.
- `scripts/markdown.ts`: the Markdown parser; HTML and code nodes come with their positions, and HTML values are taken to be contiguous source text.
- HasRenderedTextOutsideComments: ranges whose end lies before their start, which clipping never makes.
- `scripts/session-fixture-layout.ts`: discovery through Git; JSON and the storage format are an arbitrary codec, and deep equality of events is equality.
- `scripts/publint-all.ts`: the lint itself, which is a function from targets to results because it catches its own failures.
- ParseJsDoc: the rewriting of `{@link X}` to `X` and the trim behind it, which come after the blocks are built.
- `scripts/jsdoc.ts`: `parseTags` and the completeness checks over the TypeScript syntax tree.
- Characters are the model's own; surrogate pairs and case folding play no part.
