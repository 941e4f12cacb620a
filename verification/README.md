# Verified models of the engine's tooling and its regular expression matcher

This project models the planning, scheduling, validation, and table-building tools of an
ahead-of-time JavaScript engine, and the regular expression matcher it compiles patterns for, and
proves what they promise. Every theorem quantifies over all
inputs: job lists, cost tables, weights, hashes, and file contents are parameters. Check it with
`dafny verify dfyconfig.toml`.

## What is modelled

**Observation batches** (`CodeUnits`, `BatchPlan`, `PrefixPlan`, `PlanGuarantees`,
`PlanTermination`, `PlanPacking`, `BatchIds`, `SelectorPlan`, `BatchAssign`, `BatchPrune`,
`PlanAssignAgreement`). A planner splits sorted paths by prefix under two size limits and packs
neighbouring pieces; a matcher that sees only the emitted prefixes assigns paths to batches by
longest match. The main result is that the two agree: each batch receives exactly its planned
chunk, and pruning a plan as batches land moves no path. Plans are packed: no two neighbouring
chunks of a class would fit together. The planner finishes exactly when every path fits the limits
alone; otherwise `planPrefix` calls itself with the same arguments.

**Work graphs** (`WorkGraph`, `WorkGraphStatus`). A memoised depth-first closure, as a class whose
fields are the source's `resolved` and `visiting`, returns exactly the reachable nodes or a
genuine cycle. The status rules of the validator, which accepts exactly the graphs that meet them,
exclude deadlock: every maximal run of landings lands everything.

**Emission service** (`EmissionService`, `EmissionFailures`, `EmissionSystem`). The request and
reply protocol as a class and a transition system, with faults at every point of `emit`: which
events fail it and what that settles; then composed with the worker over two channels.

**Mac lanes** (`LaneSimulation`, `LaneGuarantees`, `LaneOverlap`, `LanePlacement`,
`LaneRefinement`, `GreedyPlacement`, `PlacementRules`, `LanePlans`, `SuiteLanes`,
`InfeasiblePlacement`, `SplitSuite`). A discrete-event simulation of lanes that slow each other
down, constrained greedy placement, and a deterministic local search, over exact reals with the
rounding tolerance and the improvement margin as parameters. The last four say what the returned
lanes keep, which two properties they can lose, and exactly when.

**Shards** (`ListSchedule`, `NodeShards`, `NativeShards`). List scheduling bounds and
monotonicity, and the two partitioners built on it.

**Unicode tables** (`CodePointSets`, `CodePointPartitions`, `CodePointAssignments`,
`UnicodeDataFile`, `UnicodeDataRules`, `GeneralCategories`, `CaseTables`). Inversion lists and
their algebra, run-length partitions, the UnicodeData.txt reader, and the case tables that share
one value array.

**Regular expressions** (`RegExpSyntax`, `RegExpSemantics`, `RegExpProgram`, `RegExpBuilder`,
`RegExpLaws`, `RegExpSimulation`, `RegExpCorrectness`, `RegExpMatching`, `RegExpLimits`,
`RegExpExecution`, `RegExpSearch`, `RegExpCharacters`, `RegExpReferences`, `RegExpEdition`). The
builder's code for every pattern, run by the backtracking executor, matches with exactly the
captures of matching by continuations on code units, or reports a limit, and that exactly where
the run first needs more than it allows. Captures, lazy and greedy repetitions with empty rounds,
lookaheads and lookbehinds, and references are included; the trail and the stack of the executor
are proved to restore states exactly, the scan of `^set+$` to change no answer, and the search to
find the first match. The last three modules compare this with section 22.2.2 of ECMA-262, which
matches over the list of characters: attempts and searches answer the edition's match, with its
positions counted in code units, for every pattern and text without `u` and `v`, and with them
unless a reference is read from the right in a text with an unpaired trail surrogate.

**Scope analysis** (`SyntaxNames`, `NameRules`, `ReferenceWalk`, `ScopeRules`, `ArgumentsObject`).
The worklists over a syntax tree equal structural recursion; a worklist that carries scope chains
computes exactly the names that are free under the scopes it knows. What each kind of node binds
and leaves free is stated one by one, and the last module says when `arguments` should not be
free.

**Reviewed results** (`ScopedUpdate`, `ReviewedManifest`, `ManifestDigest`, `Ratchet`). Selecting,
observing, and merging equals a full regeneration, the partitioned manifest round-trips, the
digest's byte stream is uniquely decodable, and the compatibility ratchet never lets anything
shrink.

`Basics`, `Courses`, `Sorting`, `Parts`, `PathLists`, and `RealLists` hold shared definitions.

## Reading the models

- A `char` stands for one UTF-16 code unit, and in `ManifestDigest` for one byte. Comparison is by
  code unit; where the source compares by locale (job names), code-unit order stands in.
- Times and weights are exact reals. Durations are not negative and a slowdown is at least one; the
  source throws on other factors.
- A fact carries its prerequisite set as the joined string that the source computes from its key
  table. The string keys that join an index or an identifier with a prefix are pairs.
- Iteration over a JavaScript `Set` or `Map` whose order cannot matter picks elements in any order.
- A text that a regular expression is matched against is a list of code units as integers, since a
  `char` here is no surrogate. Patterns come with their classes resolved to inversion lists. What
  `i` identifies is a parameter; the comparison with the edition requires of it what simple case
  folding has, that characters of different width and surrogates are identified with nothing else.
- Errors are values of a result type. Message texts are not modelled.

## Where the code and its comments differ

- `childGroups` (tools/m5c-observation-batches.ts:425-430) says that no child prefix is a prefix of
  a sibling. That fails for `test/abc` beside `test/abc-` (`BatchPlan.SiblingsCanNest`). It holds
  exactly when no listed path without a further separator starts another listed path
  (`BatchPlan.PrefixFreeIff`). What always holds, and what makes the longest match work, is
  `BatchPlan.SiblingsSeparate`.
- `feasibleLanes` (tools/generate-macos-lanes.ts:285-290) says that it checks every rule the greedy
  pass enforces. It forbids and requires what the greedy pass does not, and ignores one of its rules.
  - The greedy pass only surcharges an unmeasured job on a hosted lane, which the test forbids, and
    never counts the own-key shards. `InfeasiblePlacement.PlanIsInfeasible` gives jobs whose plan is
    infeasible. `LanePlans.PlanFeasibleIff` states exactly when a plan is feasible, and
    `LanePlans.MeasuredPlanFeasibleIff` reduces that to three own-key shards when every eligible job
    has a hosted measurement.
  - The greedy pass keeps a sanitizer suite on one lane, as the comment at
    tools/generate-macos-lanes.ts:255-257 says; the test does not ask for it, and the search can
    split a suite (`SplitSuite.SuiteIsSplit`). `SuiteLanes.SuiteStaysIff` states exactly when it does,
    by the maximum that the search reaches. Known before the search: a suite whose jobs decide the
    end of the greedy placement stays exactly when no single change improves that placement
    (`SuiteLanes.CriticalSuiteStaysIff`), and a suite stays if it takes no longer than one hosted-only
    job (`SuiteLanes.ShortSuiteStays`) or than an equal share of all of them
    (`SuiteLanes.LightSuiteStays`).
- `categorySets.set` (tools/unicode-tables.ts:1022) lets a later category of the same long name
  replace an earlier one without an error. `GeneralCategories.FindsCategoriesIff` states exactly
  when that loses a category.
- `planPrefix` has no guard for a path that exceeds the limits alone;
  `PlanTermination.FinishesIffEachFitsAlone` states exactly when it finishes.
- `matchBackreference` (packages/compiler/src/regexp-execute.ts:317-338) goes back as many code units
  as a capture has, where section 22.2.2.7 of ECMA-262 goes back as many characters. Under `u` and `v`
  it can end up between the halves of a surrogate pair and match there: `/(?<=\1(\udc00))$/u` on the
  code units D800 DC00 DC00 (`RegExpEdition.ReferenceSplitsPair`).
  `RegExpReferences.UnitReference` states exactly when a reference is resolved as in the edition, and
  `RegExpEdition.AttemptIsEditions` and `RegExpEdition.SearchIsEditions` that whole patterns are
  matched as in the edition whenever no reference is read from the right or no trail surrogate of the
  text is unpaired.
- `unresolvedReferenceNames` (tools/test262-source.ts:409-420) says that the names it returns can only
  resolve through the global object. It does not know that a function binds `arguments`, which it
  returns for `function f() { return arguments; }` (`ArgumentsObject.ArgumentsIsReported`).
  `ArgumentsObject.OnlyArgumentsDiffers` and `ArgumentsObject.DiffersIff` state that no other name is
  affected, and exactly when this one is. The names that direct `eval`, labelled functions, and
  functions in blocks add to sloppy code (section B.3 of ECMA-262) are outside that comparison; the
  comment at tools/test262-source.ts:612-618 leaves the last of these out as well.

## Model

| member | source | states |
|---|---|---|
| BatchPlan.ReviewUnits | tools/m5c-observation-batches.ts:404-414 | the number of distinct review units: generating sources, or the path itself when there are none |
| BatchPlan.FitsShrinks | tools/m5c-observation-batches.ts:416-423 | a part of a fitting list fits |
| BatchPlan.ComputeChildGroups | tools/m5c-observation-batches.ts:431-457 | the loop groups the facts as the specification does |
| BatchPlan.ChildGroupsSplit | tools/m5c-observation-batches.ts:425-457 | groups are non-empty, contiguous runs that concatenate to the input; a fact's group is the one of its child prefix, and no two groups share a prefix |
| BatchPlan.SiblingsSeparate | tools/m5c-observation-batches.ts:425-448 | a prefix reached through one sibling that also matches a path of another is shorter than that path's own child prefix |
| BatchPlan.NestedSiblings | tools/m5c-observation-batches.ts:425-448 | one child prefix starts a different one if and only if it is a whole path that starts the other path |
| BatchPlan.PrefixFreeIff | tools/m5c-observation-batches.ts:425-457 | no child prefix starts a sibling if and only if no listed path without a further separator starts another listed path |
| BatchPlan.SiblingsCanNest | tools/m5c-observation-batches.ts:425-457 | `test/abc` beside `test/abc-` gives nested child prefixes |
| PlanPacking.ChildEndsAtSeparator | tools/m5c-observation-batches.ts:425-448 | a child prefix ends behind the first of `-`, `.`, `/`, `_` behind the prefix, or is the whole path if none of them comes before its last character |
| PrefixPlan.PackAllKeeps | tools/m5c-observation-batches.ts:481-496 | packing keeps facts, prefixes, order, both limits, and every longest match |
| PrefixPlan.RecursionShrinks | tools/m5c-observation-batches.ts:475-483 | a descent keeps the facts and shortens what is left of the paths; a split gives strictly smaller groups |
| PrefixPlan.ComputePlanPrefix | tools/m5c-observation-batches.ts:470-497 | the recursive loops compute the specified plan |
| PlanGuarantees.PlanPrefixGuarantees | tools/m5c-observation-batches.ts:464-497 | chunks concatenate to the input, respect both limits, have pairwise distinct prefixes, and each fact's own leaf is its strictly longest match |
| PlanPacking.NeighboursDoNotFit | tools/m5c-observation-batches.ts:481-495 | no two neighbouring chunks of a plan fit the limits together |
| PlanPacking.ChildrenFillInTurn | tools/m5c-observation-batches.ts:481-496 | paths that must be split take the chunks of their child groups in order, each chunk as many as fit |
| PlanPacking.ChunksFillTheLimits | tools/m5c-observation-batches.ts:402-424 | in counts: each chunk keeps to the numbers of paths and of distinct handwritten paths and generator sources, and two neighbours together exceed one of them |
| PlanPacking.FittingStaysWhole | tools/m5c-observation-batches.ts:475-481 | paths that fit together are one chunk under one prefix, behind which two of them go on with different child prefixes |
| PlanTermination.FinishesIffEachFitsAlone | tools/m5c-observation-batches.ts:475-483 | the planner finishes if and only if every path fits the limits alone |
| PlanTermination.OversizedNeverFinishes | tools/m5c-observation-batches.ts:475-483 | a list holding a path that does not fit alone exceeds every recursion depth |
| PlanTermination.OversizedPathRepeats | tools/m5c-observation-batches.ts:475-483 | such a path calls the planner again with the very same arguments |
| SelectorPlan.ClassesAreSplit | tools/m5c-observation-batches.ts:510-533 | the classes are ordered, non-empty, cover the facts, and no two share a fact or overlap in a prerequisite set |
| PlanPacking.LargeSetsAreAlone | tools/m5c-observation-batches.ts:515-528 | the paths without prerequisites, and those of each set of at least so many paths, are exactly one class |
| PlanPacking.SmallSetsShareTheLast | tools/m5c-observation-batches.ts:522-533 | the paths of all other sets are exactly the last class |
| PlanPacking.ClassesInOrder | tools/m5c-observation-batches.ts:521-533 | classes of one set follow each other in the order of their sets, with the shared class behind them |
| PlanPacking.ClassNeighboursDoNotFit | tools/m5c-observation-batches.ts:535-543 | in a whole plan no two neighbouring chunks of one class fit the limits together |
| CodeUnits.LessIff | tools/m5c-observation-batches.ts:288-291 | the order of the lists is decided by the first code unit that differs, and puts a proper prefix first |
| SelectorPlan.PlanObservationSelectors | tools/m5c-observation-batches.ts:505-545 | the loops emit one selector for each planned chunk of each class |
| PlanPacking.SelectorsListTheirChunks | tools/m5c-observation-batches.ts:535-543 | each selector has the prefixes of its chunk in order, the sets of its paths once each in order, and its position in its identifier |
| BatchIds.BatchIdWellFormed | tools/m5c-observation-batches.ts:547-547 | every generated identifier matches the required pattern |
| BatchIds.BatchIdsDistinct | tools/m5c-observation-batches.ts:688-690 | identifiers of different positions differ |
| BatchIds.BatchIdShape | tools/m5c-observation-batches.ts:547-547 | an identifier is accepted if and only if it is the stem, two decimal digits or more, and at most one lower-case letter |
| BatchIds.BatchIdNumber | tools/m5c-observation-batches.ts:686-690 | the number in an identifier is its position counted from one, in decimal with at least two digits |
| BatchAssign.BestIsLongest | tools/m5c-observation-batches.ts:596-604 | the chosen entry is a longest matching one, and none is chosen only if none matches |
| BatchAssign.ExplainedIsRejected | tools/m5c-observation-batches.ts:549-632 | a reported defect is real: no input with it is acceptable |
| BatchAssign.AssignObservationBatches | tools/m5c-observation-batches.ts:554-634 | succeeds exactly on acceptable selectors and facts, gives every fact to its longest match's batch, and otherwise reports a real defect |
| BatchPrune.PruneObservationSelectors | tools/m5c-observation-batches.ts:642-677 | the loops keep exactly the used prefixes, sets, and batches |
| BatchPrune.PruneKeepsBatch | tools/m5c-observation-batches.ts:636-641 | every fact keeps its batch and its matching prefix |
| BatchPrune.PruneLeavesNothingIdle | tools/m5c-observation-batches.ts:666-676 | every kept prefix and set still selects a fact after pruning |
| BatchPrune.PruneMovesNoPath | tools/m5c-observation-batches.ts:636-677 | pruned selectors are accepted for the same facts and no path changes its batch |
| PlanAssignAgreement.PlanClassesGuarantees | tools/m5c-observation-batches.ts:535-543 | chunks of all classes select exactly their own facts, including those of the shared tail |
| PlanAssignAgreement.PlanAndAssignAgree | tools/m5c-observation-batches.ts:499-634 | assigning with the planned selectors succeeds and gives each batch exactly the facts of its planned chunk |
| PlanAssignAgreement.EachBatchIsItsChunk | tools/m5c-observation-batches.ts:549-613 | the same counting repetitions, and no fact is in two chunks |
| PlanAssignAgreement.PrunedPlanMovesNoPath | tools/m5c-observation-batches.ts:636-677 | after pruning a plan to any of its facts, assignment succeeds and every remaining path is in its planned batch |
| WorkGraph.Closure.Visit | tools/m5c-graph.ts:418-444 | a visit returns the closure of its node from a memo that stays exact, or a closed walk |
| WorkGraph.TransitiveDependencies | tools/m5c-graph.ts:412-447 | succeeds exactly on acyclic graphs, with exactly the nodes reachable by one or more edges; the reported trail is a closed walk |
| WorkGraph.OrderingIsNoDependency | tools/m5c-graph.ts:688-688 | changing `after` lists changes no transitive dependency |
| WorkGraph.OrderingCountsWhenIncluded | tools/m5c-graph.ts:687-687 | with ordering included, a node is reached exactly as if each `after` entry were a dependency |
| WorkGraphStatus.ValidateWorkGraph | tools/m5c-graph.ts:634-732 | accepts exactly the graphs with distinct identifiers that meet the node, cycle, status, and exit rules; the counts partition the nodes |
| WorkGraphStatus.CountsAre | tools/m5c-graph.ts:722-730 | the counts of landed nodes and of each status are the numbers of such nodes |
| WorkGraphStatus.ExitPathIgnoresOrdering | tools/m5c-graph.ts:708-716 | changing `after` lists moves no node onto or off the exit path |
| WorkGraphStatus.NoDeadlock | tools/m5c-graph.ts:689-703 | if an unparked node is unlanded, some unlanded unparked node is ready |
| WorkGraphStatus.LandKeepsAccepted | tools/m5c-graph.ts:650-703 | landing a ready node and recomputing the statuses keeps the graph accepted |
| WorkGraphStatus.LandedExitClosesGraph | tools/m5c-graph.ts:704-721 | a landed exit node implies that every node is landed, none is parked, and no path is unreviewed |
| WorkGraphStatus.ParkedReachesExit | tools/m5c-graph.ts:668-678 | some node is parked if and only if the exit node is |
| WorkGraphStatus.RunKeepsAccepted | tools/m5c-graph.ts:650-721 | every run of landings keeps the graph accepted and closes exactly the nodes it lands |
| WorkGraphStatus.StuckRunIsFinished | tools/m5c-graph.ts:689-721 | a run that cannot continue has landed everything but parked nodes and a held-back exit |
| WorkGraphStatus.EveryMaximalRunLandsAll | tools/m5c-graph.ts:689-721 | with an unparked exit and nothing unreviewed, every maximal run lands every node |
| EmissionService.FragmentEmitter.EmitFragments | tools/test262-emission.ts:112-132 | one call of emit with a fault at any point is the specified transition |
| EmissionService.FragmentEmitter.OnMessage | tools/test262-emission.ts:88-102 | a message is the specified transition: malformed and unexpected ones fail the service |
| EmissionService.FragmentEmitter.FailWith | tools/test262-emission.ts:77-83 | the first error stays, every pending call is rejected with it, and termination is scheduled once |
| EmissionService.FragmentEmitter.CloseService | tools/test262-emission.ts:133-139 | closing fails the service once and is idempotent |
| EmissionService.FragmentEmitter.RunTermination | tools/test262-emission.ts:68-76 | the scheduled termination runs once |
| EmissionService.EveryRunIsSafe | tools/test262-emission.ts:62-140 | after every sequence of events: unsettled calls are exactly the pending ones, identifiers are never reused, at most one worker is created and terminated once, and it is referenced exactly while something is pending |
| EmissionService.StepKeepsInv | tools/test262-emission.ts:62-140 | every single event keeps that invariant |
| EmissionService.SettledOnce | tools/test262-emission.ts:114-131 | a settled promise never changes again |
| EmissionService.FirstFailureIsFinal | tools/test262-emission.ts:77-83 | after the first failure nothing is posted, created, or pending, and every later call is rejected with it |
| EmissionService.OnlyItsReplyResolves | tools/test262-emission.ts:93-100 | a result reaches a call only through a reply with that call's identifier |
| EmissionFailures.FailingEventFails | tools/test262-emission.ts:77-83 | a worker error, an exit, a malformed or unexpected message, closing, or a throwing `emit` fails an open service with its own error: every waiting call is rejected with it, nothing is posted, the worker is released, and its termination is scheduled |
| EmissionFailures.SentCallWaits | tools/test262-emission.ts:112-120 | any other call is posted under a new identifier to the one worker and waits |
| EmissionFailures.FirstCallIsPosted | tools/test262-emission.ts:62-120 | the first call of a new service creates its one worker and posts request 0 |
| EmissionFailures.ReplySettlesItsCall | tools/test262-emission.ts:88-102 | a reply settles the call that waits for it with its outcome, and no other |
| EmissionFailures.TurnTerminates | tools/test262-emission.ts:68-76 | a failed service terminates its worker at the next turn, once; an open one terminates nothing |
| EmissionFailures.FailedServiceRefuses | tools/test262-emission.ts:111-139 | a failed service rejects every later call with the first error and settles nothing else anew |
| EmissionFailures.FailedIff | tools/test262-emission.ts:77-139 | a run leaves the service failed if and only if one of its events is such a failure, and then no call unsettled |
| EmissionSystem.PassingKeepsInv | tools/test262-emission-worker.ts:12-33 | every interleaving of service and worker keeps each pending request in exactly one place |
| EmissionSystem.NoSpuriousRejection | tools/test262-emission-worker.ts:12-33 | with the one-reply worker, every settled call has the backend's own outcome unless it was closed; quiet channels mean every call is settled |
| EmissionSystem.Drain | tools/test262-emission-worker.ts:12-33 | from every open state, working and delivering alone settles every call with its own outcome |
| EmissionSystem.CloseDown | tools/test262-emission.ts:133-139 | an open system can always be closed: three actions later its worker is terminated and gone, waiting calls are rejected as closed, and all others keep their outcomes |
| LaneSimulation.EventFinishesJob | tools/generate-macos-lanes.ts:568-580 | every event finishes at least one job, so the loop ends within the number of jobs |
| LaneSimulation.SelfHostedLaneEnds | tools/generate-macos-lanes.ts:533-582 | the event loop computes the specified lane ends |
| LaneGuarantees.LaneEndBounds | tools/generate-macos-lanes.ts:524-582 | each lane ends between its jobs back to back, less the tolerance for each, and those jobs at the worst slowdown |
| LaneOverlap.BesideBusyPartner | tools/generate-macos-lanes.ts:556-582 | a lane whose partner ends no earlier takes at least a factor times its jobs back to back, less the tolerance per job, when every pair of their jobs slows it down that much |
| LaneOverlap.EarlierJobEnds | tools/generate-macos-lanes.ts:556-582 | with both lanes of a machine busy, the job that is done first ends after its rest times the factor for these two jobs; the other has worked so long divided by its own factor, ends too if what is left is within the tolerance, and else goes on with it |
| LaneOverlap.LastJobEnds | tools/generate-macos-lanes.ts:556-582 | beside an idle lane a job ends after its rest |
| LaneOverlap.TwoJobs | tools/generate-macos-lanes.ts:533-582 | two lanes of one job each: the first ends after its cost times its factor, the second after that and what is then left of it |
| LaneGuarantees.LoneLaneIsSum | tools/generate-macos-lanes.ts:524-532 | a lane whose partner runs nothing is a plain sum |
| LaneGuarantees.WaitingIsHarmless | tools/generate-macos-lanes.ts:568-580 | splitting a step at a moment when nothing finishes changes no end |
| LaneGuarantees.MachinesAreIndependent | tools/generate-macos-lanes.ts:483-485 | in exact arithmetic the ends of a machine's two lanes equal those of simulating that pair alone |
| LanePlacement.CanonicalLaneIsCanonical | tools/generate-macos-lanes.ts:272-283 | own-key jobs lead, the others are sorted by eligibility, duration, and name |
| LaneRefinement.MoveKeepsJobs | tools/generate-macos-lanes.ts:356-372 | moving a job keeps the multiset of placed jobs |
| LaneRefinement.ExchangeKeepsJobs | tools/generate-macos-lanes.ts:374-396 | exchanging two jobs keeps the multiset of placed jobs |
| LaneRefinement.MoveChangesTwo | tools/generate-macos-lanes.ts:362-368 | a moved job leaves its lane for the other one, and no third lane changes |
| LaneRefinement.ExchangeChangesTwo | tools/generate-macos-lanes.ts:380-392 | exchanged jobs change places, and no third lane changes |
| LaneRefinement.Sweep | tools/generate-macos-lanes.ts:354-397 | a sweep finds the acceptable change that no other acceptable change precedes in sweep order, or there is none among all moves and exchanges |
| LaneRefinement.RefineLanes | tools/generate-macos-lanes.ts:340-401 | the result is where the search of first acceptable changes from the canonicalised input ends |
| LaneRefinement.SearchIsDeterministic | tools/generate-macos-lanes.ts:335-338 | two searches from one start with one limit go through the same placements |
| LaneRefinement.EndKeeps | tools/generate-macos-lanes.ts:340-401 | where a search ends, jobs are kept, lanes are canonical, and the placement is the start or feasible and better by the margin |
| LaneRefinement.EndIsLocallyOptimal | tools/generate-macos-lanes.ts:340-401 | where a search ends no single change is acceptable, or the maximum fell by the sweep limit's worth of margins |
| PlacementRules.OptimumIff | tools/generate-macos-lanes.ts:355-397 | a placement is locally optimal if and only if no job of any lane may move to any other lane and no two jobs of different lanes may change places |
| PlacementRules.SearchIsShort | tools/generate-macos-lanes.ts:354-399 | a search makes at most 64 changes for each lane |
| GreedyPlacement.BestIsLeast | tools/generate-macos-lanes.ts:668-739 | the chosen lane is the first allowed one of least projected end |
| GreedyPlacement.PlaceJobs | tools/generate-macos-lanes.ts:658-746 | the placement loop computes the specified greedy placement or its failure |
| PlacementRules.EligibleIff | tools/generate-macos-lanes.ts:237-249 | a Mac lane may take exactly the `macos-15` jobs of six families |
| PlacementRules.SuiteIff | tools/generate-macos-lanes.ts:259-263 | a sanitizer job, and no other, has the suite of its matrix |
| PlacementRules.CanonicalLaneOrder | tools/generate-macos-lanes.ts:265-281 | own-key shards lead a canonical lane in the order they had; of two others the one that only hosted lanes can take, then the longer, then the earlier named is first |
| PlacementRules.JobsInTurn | tools/generate-macos-lanes.ts:649-662 | own-key shards are placed first, then hosted-only jobs, then the rest, each longest first and then by name; without Mac lanes longest first |
| PlacementRules.AllowedIff | tools/generate-macos-lanes.ts:664-708 | which lanes may take a job: Mac lanes eligible jobs, the first one alone own-key shards; hosted lanes without Mac lanes all jobs, and else a sanitizer job only where its suite is or on an empty lane, and other jobs where there is no sanitizer job |
| PlacementRules.HostedEndIsSum | tools/generate-macos-lanes.ts:584-599 | a hosted lane ends after the sum of its jobs |
| PlacementRules.MeasuredLoadIsSum | tools/generate-macos-lanes.ts:711-724 | a hosted lane of measured and of hosted-only jobs is projected at their sum |
| PlacementRules.UnmeasuredLoadIsSurcharged | tools/generate-macos-lanes.ts:711-724 | one of eligible jobs without a hosted measurement is projected at their sum times the surcharge |
| PlacementRules.MacProjection | tools/generate-macos-lanes.ts:725-738 | on a Mac lane a job is projected at the latest end of its lane and of those that it delays |
| PlacementRules.OwnKeyRefused | tools/generate-macos-lanes.ts:665-672 | with Mac lanes an own-key shard that they may not take is refused as such, and no other job is |
| PlacementRules.FirstStaleIff | tools/generate-macos-lanes.ts:628-640 | a list of measured names is refused for its first stale one, if it has one |
| GreedyPlacement.GreedyKeepsRules | tools/generate-macos-lanes.ts:658-746 | every job is placed exactly once; Mac lanes hold only eligible jobs, own-key jobs share the first Mac lane, a sanitizer lane holds one suite and a suite has one lane |
| GreedyPlacement.GreedyIsCurrent | tools/generate-macos-lanes.ts:634-746 | the incrementally kept loads and Mac ends always equal what recomputing them from the lanes gives |
| GreedyPlacement.OtherMachinesKeepTheirEnds | tools/generate-macos-lanes.ts:607-609 | a job placed on a Mac lane moves no end of another machine |
| GreedyPlacement.FeasibleIff | tools/generate-macos-lanes.ts:285-321 | a rule-abiding placement is feasible if and only if no unmeasured eligible job is hosted and the first Mac lane holds three own-key shards |
| GreedyPlacement.FeasibleCanonical | tools/generate-macos-lanes.ts:285-321 | reordering lanes canonically does not change feasibility |
| PlacementRules.HostedFeasibleIff | tools/generate-macos-lanes.ts:291-312 | without Mac lanes a placement is feasible if and only if no lane holds an own-key shard, anything beside the jobs of a sanitizer suite, or an eligible job without a measurement |
| LanePlans.MacosLanes | tools/generate-macos-lanes.ts:611-757 | refuses too many Mac lanes, then the first stale Mac measurement, then the first stale hosted one, then an unplaceable job; otherwise every job is placed once, by the greedy pass and, with Mac lanes, its search |
| LanePlans.StaleIff | tools/generate-macos-lanes.ts:626-641 | a measured name is not stale if and only if the first job of that name may run on a Mac lane |
| LanePlans.PlanIsUnique | tools/generate-macos-lanes.ts:335-338 | the planner has one answer for one input |
| LanePlans.PlanKeepsPlaces | tools/generate-macos-lanes.ts:285-321 | in the returned lanes Mac lanes hold only eligible jobs, own-key shards share the first Mac lane, and a sanitizer lane holds one suite |
| LanePlans.PlanIsCanonical | tools/generate-macos-lanes.ts:322-401 | the returned lanes are in canonical order and end no later than the canonicalised greedy ones |
| LanePlans.PlanIsLocallyOptimal | tools/generate-macos-lanes.ts:322-401 | no single change improves the returned lanes, or the sweep limit's worth of margins was gained |
| LanePlans.PlanFeasibleIff | tools/generate-macos-lanes.ts:285-401 | the plan is feasible if and only if the greedy placement is, or its canonical form has an acceptable change |
| LanePlans.FeasibleNeedsThree | tools/generate-macos-lanes.ts:309-321 | a feasible plan holds exactly three own-key shards |
| LanePlans.MeasuredPlanFeasibleIff | tools/generate-macos-lanes.ts:285-321 | when every eligible job has a hosted measurement, the plan is feasible if and only if the list holds exactly three own-key shards |
| SuiteLanes.SuiteStaysIff | tools/generate-macos-lanes.ts:254-262 | the returned lanes keep a suite on one lane if and only if its jobs back to back end by the maximum of those lanes |
| SuiteLanes.OptimumKeepsSuites | tools/generate-macos-lanes.ts:254-321 | a canonical greedy placement that no single change improves is returned with every suite on one lane |
| SuiteLanes.CriticalSuiteStaysIff | tools/generate-macos-lanes.ts:254-321 | a suite that takes as long as the canonical greedy placement, up to the margin, stays on one lane if and only if no single change improves that placement |
| SuiteLanes.SuitesStayIff | tools/generate-macos-lanes.ts:254-321 | a suite never has two lanes if and only if every suite back to back ends by the maximum of the returned lanes |
| SuiteLanes.ShortSuiteStays | tools/generate-macos-lanes.ts:254-321 | a suite that takes no longer than some one hosted-only job is never split |
| SuiteLanes.LightSuiteStays | tools/generate-macos-lanes.ts:254-321 | a suite that takes no longer than a fifth of the hosted-only jobs' total is never split |
| InfeasiblePlacement.PlanIsInfeasible | tools/generate-macos-lanes.ts:711-757 | four jobs, at the tolerance and margin of the source, whose plan is infeasible |
| SplitSuite.SuiteIsSplit | tools/generate-macos-lanes.ts:254-321 | five jobs, at the tolerance and margin of the source, whose plan splits a suite over two lanes |
| ListSchedule.WallBounds | tools/node-shard.ts:53-64 | width times wall is at least the total and at most the total plus width minus one heaviest jobs |
| ListSchedule.AddingNeverShortens | tools/node-shard.ts:53-64 | one more job anywhere in the order never shortens the run |
| NodeShards.ModeledWall | tools/node-shard.ts:53-64 | the loop computes the modeled seconds of a run |
| NodeShards.RunsInPathOrder | tools/node-shard.ts:48-64 | a run starts its files in path order, whatever order they are given in |
| NodeShards.SelectNodeTestShard | tools/node-shard.ts:81-102 | repeated files are refused exactly when there are any; otherwise the sorted files of the shard |
| NodeShards.EveryFileInOneShard | tools/node-shard.ts:75-102 | every file is in exactly one shard, once, and nothing else is |
| NodeShards.ListingOrderIsIrrelevant | tools/node-shard.ts:91-93 | the shards do not depend on the order in which files are listed |
| NodeShards.ShardsAreHeaviestFirst | tools/node-shard.ts:88-101 | each shard takes its files heaviest first, and files of one weight in path order |
| NodeShards.EmptyShardsAreLast | tools/node-shard.ts:95-100 | with equal ends the lowest index is taken: behind an empty shard all others are empty |
| NodeShards.FewerFilesFinishSooner | tools/node-shard.ts:48-64 | a run of some of the files never takes longer than a run of all of them |
| NodeShards.ShardIsNoLongerThanAll | tools/node-shard.ts:95-100 | no shard takes longer than everything in one run |
| NodeShards.ShardsAreBalanced | tools/node-shard.ts:95-100 | no shard finishes earlier by handing the file it took last to another shard |
| NativeShards.SelectNativeTestShard | tools/native-shard.ts:87-133 | the recursive selection with its batch loops computes the specified shard |
| NativeShards.ShardsHoldAll | tools/native-shard.ts:80-133 | the shards together hold every file exactly as often as it is listed |
| NativeShards.OwnKeyIsAlone | tools/native-shard.ts:95-106 | on Linux the isolated file is alone on the first of several shards and on no other |
| NativeShards.OnlyLinuxIsolates | tools/native-shard.ts:98-106 | on any other platform, or with one shard, it does not matter which file is named for isolation |
| NativeShards.BatchesAreHeaviestFirst | tools/native-shard.ts:114-131 | each shard takes its files heaviest first, and files of one weight in path order |
| NativeShards.NoBatchStartsLate | tools/native-shard.ts:117-131 | no shard is given its last batch later than the earliest end of any shard |
| NativeShards.BatchCountRoundsUp | tools/native-shard.ts:109-109 | the number of batches is the quotient rounded up |
| NativeShards.PopulatedShardsAreBusy | tools/native-shard.ts:95-132 | with positive weights, a shard has files if and only if its index is within the populated count; when a file is isolated, if and only if it is the first or within the populated count of the other files after it |
| NativeShards.SelectionIgnoresOrder | tools/native-shard.ts:87-133 | the shards do not depend on the order in which files are listed |
| CodePointSets.CodePointSetHas | packages/unicode/src/set.ts:100-110 | binary search decides membership |
| CodePointSets.SetsAreUnique | packages/unicode/src/set.ts:5-11 | two well-formed lists with the same code points are equal |
| CodePointSets.CodePointSetFromRanges | packages/unicode/src/set.ts:133-153 | refuses exactly the invalid ranges; the well-formed result holds exactly the covered code points |
| CodePointSets.UnionCodePointSets | packages/unicode/src/set.ts:156-183 | the sweep gives a well-formed list of exactly the union |
| CodePointSets.ComplementCodePointSet | packages/unicode/src/set.ts:186-196 | a well-formed list of exactly the other code points |
| CodePointSets.ComplementIsInvolution | packages/unicode/src/set.ts:185-196 | complementing twice gives back the very list |
| CodePointPartitions.PartitionValueAt | packages/unicode/src/set.ts:266-280 | binary search finds the value of the last run at or before the code point |
| CodePointPartitions.PartitionSet | packages/unicode/src/set.ts:283-297 | exactly the code points whose value is selected, as a normalized set |
| CodePointPartitions.PartitionFromAssignments | tools/unicode-tables.ts:924-940 | runs strictly increase, have distinct neighbours, and give every code point its slot or the fallback; they start at zero if and only if code point zero has a value |
| CodePointPartitions.PartitionsAreUnique | tools/unicode-tables.ts:924-940 | the run-length form of an assignment is unique |
| CodePointAssignments.AssignmentsFromSets | tools/unicode-tables.ts:942-964 | succeeds exactly for known names and disjoint sets, with each code point's index or minus one; errors name one of the sets or a code point in two |
| UnicodeDataRules.ParseUnicodeDataFile | tools/unicode-tables.ts:502-637 | accepts exactly the files whose lines all fit; otherwise names the first line that cannot follow those before it, or reports an open range |
| UnicodeDataRules.AcceptedIff | tools/unicode-tables.ts:495-590 | the line by line rules accept a file if and only if no line is bad, code points are valid and increase, and range starts and ends come in matching pairs with only blank lines between |
| UnicodeDataFile.RecordedStands | tools/unicode-tables.ts:544-581 | every recorded range stands in one line or in a matching pair of lines |
| UnicodeDataFile.StandingRecorded | tools/unicode-tables.ts:544-581 | every line or matching pair is recorded |
| UnicodeDataFile.AcceptedAscends | tools/unicode-tables.ts:524-581 | category ranges of accepted lines are pairwise disjoint |
| GeneralCategories.BuildGeneralCategories | tools/unicode-tables.ts:1016-1029 | a table exactly for accepted lines, used categories all known by name and index, and a name for unassigned; it looks up every code point to the index of its category's name, or to the fallback if it has none or a later category took the name |
| GeneralCategories.FindsCategoriesIff | tools/unicode-tables.ts:1016-1029 | every code point finds its own category if and only if no two used categories share a name other than the fallback's |
| CaseTables.DifferingSequences | tools/unicode-tables.ts:1287-1298 | keeps exactly the full mappings that differ from the simple one |
| CaseTables.RuntimeMappings | tools/unicode-tables.ts:1638-1654 | entries ascend, one for each mapped code point, with slices that are its image; earlier values stay |
| CaseTables.RenderRuntimeTables | tools/unicode-tables.ts:1699-1715 | all four tables over the shared values stay lossless |
| CaseTables.LookUpCase | tools/unicode-tables.ts:1638-1667 | a table entry's slice, or the code point itself, is the full mapping, else the simple one, else the code point |
| RegExpSyntax.OneCaptureTakesPart | packages/compiler/src/regexp-execute.ts:277-346 | matching each named capture in turn is matching the one that took part, when at most one did; on characters as on code units |
| RegExpSemantics.MatchIsFirst | packages/compiler/src/regexp-matcher.ts:1395-1647 | matching a pattern by continuations finds the first of its ordered results that the continuation accepts, on a list of characters (section 22.2.2 of ECMA-262) and on code units |
| RegExpLaws.CharactersMatch | packages/compiler/src/regexp-execute.ts:564-582 | on a list of characters a set matches the next character in the direction of reading |
| RegExpLaws.EdgeMatches | packages/compiler/src/regexp-execute.ts:361-378 | `^` and `$` match at the ends, and with `m` next to one of the four line terminators |
| RegExpLaws.BoundaryMatches | packages/compiler/src/regexp-execute.ts:348-359 | `\b` matches where exactly one side has a word character, `\B` everywhere else |
| RegExpLaws.LookMatches | packages/compiler/src/regexp-matcher.ts:1555-1578 | looking at one character moves nothing and depends on the one on its side |
| RegExpLaws.FirstAlternativeWins | packages/compiler/src/regexp-matcher.ts:1615-1648 | the second of two alternatives matches only where the first does not |
| RegExpLaws.LiteralMatches | packages/compiler/src/regexp-matcher.ts:1600-1613 | a sequence of characters matches exactly its text ahead |
| RegExpLaws.LiteralMatchesBackward | packages/compiler/src/regexp-matcher.ts:1600-1613 | read backward it matches exactly its text behind |
| RegExpLaws.RepetitionMatches | packages/compiler/src/regexp-matcher.ts:1475-1529 | a repeated set may stop after each number of members within its bounds and no other, the most first unless it is lazy |
| RegExpLaws.GroupCaptures | packages/compiler/src/regexp-matcher.ts:1422-1428 | a group captures exactly what its body reads, in either direction |
| RegExpLaws.RoundsForget | packages/compiler/src/regexp-execute.ts:622-637 | going round again forgets what the round before captured |
| RegExpLaws.EmptyRoundIsGivenUp | packages/compiler/src/regexp-execute.ts:638-643 | a round that reads nothing is given up, captures and all, once enough rounds are made, and is made before that |
| RegExpProgram.BoundsAreRange | packages/compiler/src/regexp-matcher.ts:1357-1393 | the lowest and highest enclosed group are the first and last of the node's own range |
| RegExpBuilder.Builder.Build | packages/compiler/src/regexp-matcher.ts:1395-1647 | appends code whose labels resolve to the code of the node at its address; refused exactly when a limit is exceeded |
| RegExpBuilder.BuildMatcher | packages/compiler/src/regexp-matcher.ts:1789-1857 | builds exactly the program of the pattern, refused if and only if it costs more instructions or registers than allowed |
| RegExpBuilder.ProgramCosts | packages/compiler/src/regexp-matcher.ts:602-620 | the cost of a pattern is the length of its program with a reference written once for each capture it names |
| RegExpCorrectness.Simulate | packages/compiler/src/regexp-matcher.ts:1395-1647 | the code of a node reaches its end once for each of the node's results, in order, and then backtracks out, changing only its own registers |
| RegExpMatching.RunReports | packages/compiler/src/regexp-execute.ts:515-685 | every run of a pattern's program ends, and with the captures that matching by continuations on code units gives, or without a match if there is none |
| RegExpMatching.FinalReports | packages/compiler/src/regexp-execute.ts:515-685 | whatever a run ends with is that answer; no run gets stuck on a missing register or entry |
| RegExpExecution.UndoneKeepsEntries | packages/compiler/src/regexp-execute.ts:213-255 | undoing the trail to an entry's height leaves every entry below with the registers it was made with |
| RegExpExecution.Attempt.Put | packages/compiler/src/regexp-execute.ts:239-248 | a recorded write changes one register and no saved state, unless the trail is full |
| RegExpExecution.Attempt.Pop | packages/compiler/src/regexp-execute.ts:268-275 | resuming restores exactly the position and registers of the latest entry |
| RegExpExecution.Attempt.MatchGroups | packages/compiler/src/regexp-execute.ts:306-346 | the loop over candidates matches the named captures in turn within the steps allowed |
| RegExpExecution.Attempt.Dispatch | packages/compiler/src/regexp-execute.ts:559-684 | one instruction on registers, trail, and stack is the specified step on saved states |
| RegExpExecution.RunAttempt | packages/compiler/src/regexp-execute.ts:515-694 | a match has the captures of the pattern's semantics on code units, and no match means there is none; a limit is reported exactly at the first transition that needs more steps, trail entries, or backtrack entries than it allows, and otherwise exactly the steps of the run |
| RegExpLimits.EndsOrStops | packages/compiler/src/regexp-execute.ts:515-694 | a run that ends within its limits is stopped by none of them |
| RegExpLimits.OneTotal | packages/compiler/src/regexp-execute.ts:515-694 | a run makes one number of steps, whatever the limits |
| RegExpSearch.ScanMatches | packages/compiler/src/regexp-execute.ts:465-470 | `^set+$` matches exactly from the start of a text that is not empty and holds only members, and captures all of it |
| RegExpSearch.ScannedMatches | packages/compiler/src/regexp-execute.ts:396-461 | a program with the scanned layout matches like `^set+$`, whatever pattern it was built from |
| RegExpSearch.ScannedIff | packages/compiler/src/regexp-execute.ts:396-461 | exactly the programs that the builder makes of `^set+$` are scanned, without `i` and `m` |
| RegExpSearch.ScanAnchoredRepeat | packages/compiler/src/regexp-execute.ts:471-505 | the scan answers as that pattern matches, in exactly one step for the entry, one for each character looked at, and one for the end, or at the limit if that is less |
| RegExpSearch.MatchRegExp | packages/compiler/src/regexp-execute.ts:507-526 | one attempt at the aligned position, scanned or run |
| RegExpSearch.ScannedSearches | packages/compiler/src/regexp-execute.ts:711-712 | searching with a scanned program is matching at the first position |
| RegExpSearch.SearchRegExp | packages/compiler/src/regexp-execute.ts:696-739 | the first match on code units at or after the aligned position, and for a sticky pattern only there; what an attempt at the last position tried answers with exactly the steps that the runs before it have left |
| RegExpCharacters.CharacterStarts | packages/compiler/src/regexp-execute.ts:137-152 | the characters of a text follow each other without gaps, each starting at an aligned position |
| RegExpCharacters.EncodedCharacters | packages/compiler/src/regexp-execute.ts:130-147 | the characters of a list of code points encoded in UTF-16 (section 11.1.1 of ECMA-262) are those code points, when no lead surrogate precedes a trail one |
| RegExpCharacters.CharactersEncode | packages/compiler/src/regexp-execute.ts:130-147 | encoding the characters of any text gives the text |
| RegExpCharacters.CharacterEnds | packages/compiler/src/regexp-execute.ts:154-167 | reading backward from the start of a character gives the one before it in the list |
| RegExpCharacters.CharacterIndex | packages/compiler/src/regexp-execute.ts:181-202 | every aligned position is the start of a character or the end of the text |
| RegExpReferences.ListReference | packages/compiler/src/regexp-execute.ts:306-346 | on a list of characters a reference is resolved as section 22.2.2.7 of ECMA-262 states it, by equal runs of characters |
| RegExpReferences.UnitReference | packages/compiler/src/regexp-execute.ts:317-338 | on code units a reference is resolved as in the edition if and only if it does not match between the halves of a surrogate pair |
| RegExpReferences.NothingIsSplit | packages/compiler/src/regexp-execute.ts:317-338 | in a text without unpaired trail surrogates no reference does |
| RegExpEdition.UnitResults | packages/compiler/src/regexp-execute.ts:515-685 | the ordered results of a pattern on code units are its results on the list of characters, unless a reference is read from the right over an unpaired trail surrogate |
| RegExpEdition.MatchesAsEdition | packages/compiler/src/regexp-execute.ts:515-694 | a pattern matches at a character what the edition matches there, under that condition on the pattern and the text |
| RegExpEdition.AttemptIsEditions | packages/compiler/src/regexp-execute.ts:507-694 | an attempt that no limit stops reports the edition's captures, in code units, at the character its start names |
| RegExpEdition.SearchIsEditions | packages/compiler/src/regexp-execute.ts:696-739 | a search that no limit stops reports the edition's first match from that character on |
| RegExpEdition.ReferenceSplitsPair | packages/compiler/src/regexp-execute.ts:317-338 | a pattern and a text that the executor's reading matches and the edition does not |
| SyntaxNames.CollectBoundNames | tools/test262-source.ts:340-376 | the worklist adds exactly BoundNames of the pattern (section 8.2.1 of ECMA-262) |
| SyntaxNames.CollectLexicalNames | tools/test262-source.ts:576-607 | the loops add exactly the names the list declares itself |
| SyntaxNames.CollectHoistedNames | tools/test262-source.ts:616-669 | the worklist adds exactly the `var` names found by structural recursion |
| NameRules.BoundIff | tools/test262-source.ts:340-376 | a pattern binds a name if and only if a way through its nested patterns leads to an identifier of that name |
| NameRules.LexicalIff | tools/test262-source.ts:576-607 | a list declares a name if and only if one of its function, class, variable, exported, or import declarations binds it |
| NameRules.HoistedIff | tools/test262-source.ts:616-669 | a name is hoisted if and only if a way through nested statements, never into a function or a class, leads to a `var` that binds it |
| ReferenceWalk.ScopesOnlyHide | tools/test262-source.ts:434-474 | carrying scopes down gives the free names that no scope of the chain covers |
| ReferenceWalk.UnresolvedReferenceNames | tools/test262-source.ts:421-476 | the worklist returns exactly the names that are free under the scopes it knows, whatever order it visits |
| ScopeRules.IdentifierLeaves | tools/test262-source.ts:452-462 | an identifier is free where it is a reference, and never where it is bound |
| ScopeRules.ListLeaves | tools/test262-source.ts:445-450 | a list leaves free what its elements leave free |
| ScopeRules.ProgramLeaves | tools/test262-source.ts:493-498 | the free names of a program are those of its parts less its hoisted and lexical names; those of a static block likewise |
| ScopeRules.FunctionLeaves | tools/test262-source.ts:499-522 | parameters and body see the parameters, a function expression its own name, the body also its hoisted and lexical names; key and decorators see none of them |
| ScopeRules.BlockLeaves | tools/test262-source.ts:523-527 | a block sees what its own list declares |
| ScopeRules.SwitchLeaves | tools/test262-source.ts:535-542 | the cases of a `switch` see what any of them declares; the discriminant does not |
| ScopeRules.ForLeaves | tools/test262-source.ts:543-553 | a `for` statement of any kind sees what its head declares |
| ScopeRules.CatchClauseLeaves | tools/test262-source.ts:554-558 | a `catch` clause leaves the names of its parts less those that its parameter binds |
| ScopeRules.WithLeaves | tools/test262-source.ts:559-560 | a `with` statement leaves the free names of its object and none of its body |
| ScopeRules.ClassLeaves | tools/test262-source.ts:561-566 | heritage and body of a class see its name |
| ScopeRules.DeclaratorLeaves | tools/test262-source.ts:693-694 | a declarator leaves the names of its initializer and of the expressions in its pattern |
| ScopeRules.ImportLeaves | tools/test262-source.ts:708-711 | an import specifier leaves none of its names |
| ScopeRules.ExportLeaves | tools/test262-source.ts:716-719 | the exported name is no reference |
| ScopeRules.ReExportLeaves | tools/test262-source.ts:712-715 | the specifiers of an export from another module are no references |
| ScopeRules.LabelLeaves | tools/test262-source.ts:732-735 | a label is no reference |
| ScopeRules.MetaLeavesNothing | tools/test262-source.ts:736-739 | a meta property, a private name, and an import attribute leave nothing free |
| ScopeRules.PropertyLeaves | tools/test262-source.ts:727-731 | a key is a reference only if it is computed |
| ScopeRules.MemberLeaves | tools/test262-source.ts:720-726 | a property name is a reference only if it is computed, and the object of an installed host member is none |
| ScopeRules.UnaryLeaves | tools/test262-source.ts:740-745 | a name directly under `typeof` is no reference that must resolve |
| ScopeRules.PatternLeaves | tools/test262-source.ts:677-690 | a pattern leaves free its computed keys and defaults only |
| ScopeRules.OtherPatternLeaves | tools/test262-source.ts:686-690 | anything else in the place of a pattern is read as an expression |
| ScopeRules.OtherLeaves | tools/test262-source.ts:746-748 | every other node leaves free what its fields leave free |
| ReferenceWalk.OccurrenceIsFree | tools/test262-source.ts:409-420 | an identifier in reference position that nothing on its path covers is free |
| ReferenceWalk.FreeOccurs | tools/test262-source.ts:409-420 | every free name has such an occurrence |
| ReferenceWalk.OnlyExcusedIsResolved | tools/test262-source.ts:409-420 | a name that the program mentions only in `with` bodies, under `typeof`, or as the object of installed host members is not unresolved |
| ArgumentsObject.ArgumentsIsReported | tools/test262-source.ts:409-420 | for `function f() { return arguments; }` the walk returns `arguments`, which is not free there |
| ArgumentsObject.OnlyArgumentsDiffers | tools/test262-source.ts:493-526 | with the binding that every function but an arrow function makes, at most `arguments` is no longer free |
| ArgumentsObject.DiffersIff | tools/test262-source.ts:409-526 | the two sets of free names differ if and only if `arguments` has uncovered occurrences and all of them are in the parameters or the body of such a function |
| ScopedUpdate.SelectChangedReviewedPaths | tools/test262-incremental.ts:81-124 | each refusal exactly for its own reason (revision, features, the first removed path, no change); otherwise the new or changed paths in order |
| ScopedUpdate.ChangedAreNew | tools/test262-incremental.ts:108-123 | the changed paths are, in order, those of the entries that the baseline does not hold |
| ScopedUpdate.MergeReviewedResults | tools/test262-incremental.ts:147-222 | merges exactly when all its checks hold, into the path-sorted kept and observed records; each refusal names a path, or failures, for which its reason holds |
| ScopedUpdate.RefusedIsNotMergeable | tools/test262-incremental.ts:147-222 | every reason named by a refusal rules the merge out |
| ScopedUpdate.SelectionComposes | tools/test262-incremental.ts:81-195 | observing exactly the selected paths meets every check of the merge on paths, entries, and kept records |
| ScopedUpdate.ScopedUpdateIsRegeneration | tools/test262-incremental.ts:81-222 | select, observe, merge: with current kept records it succeeds if and only if a full regeneration holds no failing record, and it equals that regeneration |
| ReviewedManifest.SerializeManifest | tools/test262-manifest.ts:418-485 | refused exactly when unsorted, repeated, or misplaced; otherwise the grouped partitions |
| ReviewedManifest.GroupedGroups | tools/test262-manifest.ts:445-456 | one partition for each place, each sorted, together holding every record once |
| ReviewedManifest.PathTellsPlace | tools/test262-manifest.ts:101-103 | a partition's path determines its group and key |
| ReviewedManifest.PartitionPathIff | tools/test262-manifest.ts:101-120 | the paths of partitions are exactly those of four segments that lead to a file named by two hexadecimal digits two directories below the results, never out of them |
| ReviewedManifest.ParseReviewedManifest | tools/test262-manifest.ts:324-364 | accepts exactly an index and files that describe a manifest, and returns it; each refusal holds for its reason |
| ReviewedManifest.RoundTrip | tools/test262-manifest.ts:417-485 | what is written for a valid manifest reads back as the same manifest |
| ReviewedManifest.DescribesOne | tools/test262-manifest.ts:324-364 | an index and its files describe at most one manifest |
| ReviewedManifest.DescribedRecords | tools/test262-manifest.ts:324-364 | a manifest that is read holds, in strict path order, each record of each referenced file, and each is in the file that its own path names |
| ReviewedManifest.WriteAndRead | tools/test262-manifest.ts:417-485 | serializing a valid manifest and parsing the result returns it |
| ManifestDigest.FeedDigest | tools/test262-manifest.ts:502-514 | the updates concatenate to the framed stream |
| ManifestDigest.StreamIsInjective | tools/test262-manifest.ts:502-514 | different ordered file lists feed different byte streams to the hash |
| Ratchet.DetectViolations | tools/compatibility-ratchet.ts:856-959 | the loops report exactly the specified violations, each once |
| Ratchet.PassCountFollowsClassification | tools/compatibility-ratchet.ts:863-902 | without a pass-classification violation there is no pass-count violation |
| Ratchet.CleanIff | tools/compatibility-ratchet.ts:856-953 | there are no violations if and only if nothing was lost and the manifest covers the subset |
| Ratchet.ViolationIff | tools/compatibility-ratchet.ts:856-953 | a violation is reported if and only if what it says is the case, kind by kind, with its values before and after |
| Ratchet.ChainNeverShrinks | tools/compatibility-ratchet.ts:856-953 | along any chain of clean comparisons passing paths, subset, inventory, families, and seeds never shrink and no budget drops |
| Ratchet.FindAddedRatchetOverrides | tools/compatibility-ratchet.ts:1052-1065 | added overrides are the multiset difference of the two lists |
| Ratchet.MatchOverrides | tools/compatibility-ratchet.ts:1078-1089 | unoverridden violations and stale overrides are exactly the two multiset differences |
| Ratchet.ParseOverrides | tools/compatibility-ratchet.ts:961-1027 | accepts exactly overrides of the five kinds that may be overridden, a pass count only as a whole |
| Ratchet.CompareCompatibility | tools/compatibility-ratchet.ts:1067-1097 | the report in those terms; nothing left unoverridden means that the core is kept, without new overrides that nothing is lost, and with nothing stale that overrides and violations pair up |
| Ratchet.AcceptableIff | tools/compatibility-ratchet.ts:961-1097 | some overrides get a comparison accepted if and only if families and inventory are kept and the manifest covers the subset |
| Ratchet.OverriddenChainKeepsCore | tools/compatibility-ratchet.ts:961-1097 | along any accepted chain, overrides included, families and inventory never shrink and the manifest covers exactly the subset |

## Left out

- PrefixPlan.ComputePlanPrefix: requires that every path fits the limits alone; otherwise the source does not return, as `PlanTermination` states exactly.
- SelectorPlan.PlanObservationSelectors: requires distinct paths under `test/` that fit alone, which the source's callers supply; the prerequisite key table and its missing-key error are not modelled.
- UnicodeDataRules.ParseUnicodeDataFile: models the code point, name, category, class, and mirroring fields; class and mirrored ranges, decompositions, and simple mappings are recorded by the same loop and not modelled.
- EmissionSystem.NoSpuriousRejection: assumes that posting the worker's reply does not throw; the worker posts outside its `try`, so a reply that cannot be cloned would fail every pending call.
- LanePlacement.CanonicalLaneIsCanonical: orders names by code unit where the source compares by locale.
- Ratchet.DetectViolations: does not model the locale order in which violations are listed.
- Ratchet.ParseOverrides: takes overrides whose required keys, reasons, and transition values are present and well-formed; the errors for others are not modelled.
- Ratchet.CompareCompatibility: does not model the eight counts of either snapshot in the report.
- ReviewedManifest.ParseReviewedManifest: the checks of a record's own fields are the one flag `valid` of a record; a refusal of a partition does not say which of its checks failed.
- ReviewedManifest.SerializeManifest: treats a YAML document as the tree it is written from; formatting and key order are not modelled.
- WorkGraphStatus.ValidateWorkGraph: takes parsed nodes; field-level document checks, the baseline comparison, and collision lists are not modelled.
- LaneSimulation.SelfHostedLaneEnds: computes over exact reals, with floating-point rounding represented by the tolerance parameter only, and takes costs and pair factors that the source accepts; its errors for invalid ones are not modelled.
- Deriving facts from sources, batch summaries, costs, plan files, and ownership (tools/m5c-observation-batches.ts) add only easy members.
- The inventory claims and other checks of tools/m5b-graph.ts; its transitive closure is the same algorithm without `after` edges.
- The per-job cost model of the Mac lanes (`modeledJobSeconds`) is a parameter of the simulation, as are all cost tables.
- The text encodings of sets and partitions in packages/unicode/src/set.ts, and the remaining Unicode file parsers and renderers.
- `CaseTables.LookUp` scans the table in order; the C runtime that reads the tables is not part of this model.
- RegExpBuilder.BuildMatcher: takes classes, properties, `\q` strings, modifiers, and case folding already resolved to sets, alternatives, and flags; interned set indices are the sets themselves.
- RegExpSearch.MatchRegExp: positions and limits are integers; the errors for other numbers and the `clear` instruction, which the builder never emits, are not modelled.
- The parser of regular expressions, the compiler, and the runtime under packages/.
- Parsing JavaScript and YAML, the hash function, processes, files, and reports are not part of this model.
- Closure ledgers, language-claim audits, and structured-data validation are straightforward loops over documents.
