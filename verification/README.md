# A verified model of the job service and dependency auditor

The project models five parts of the repository and proves what they promise, for every
input, every interleaving and every reachable state.

- **Leased jobs** (`JobTables`, `JobInvariant`, `JobSteps`, `JobRuns`, `JobRoots`,
  `JobLeases`, `JobTimes`, `JobLaws`, `JobOverlap`, `JobWitness`, `JobStore`, `Worker`,
  `WorkerLoops`). The four PostgreSQL tables are one value; each ServiceStore operation is a function on it and a
  method of the class `Store` proved to have that effect. A world is the tables, the claim
  snapshots that workers still hold (stale ones included) and the lease tokens ever
  issued. Any worker may act on any snapshot at any time. The theorems speak of every run
  from the empty tables. `JobTimes` and `JobLaws` say in columns, times and statuses what the
  operations do, without their functions. `WorkerLoops` puts the event loops of any number of workers
  beside the store: a tick hears what the store answers at that moment, a heartbeat may
  return an error, and a final call arrives late or never.
- **Go version selection** (`GoModel`, `GoPruning`, `GoSelection`, `GoSelect`,
  `GoTheorems`, `GoLaws`). The loops of minimal version selection with graph pruning are
  proved against a declarative description (least closure of load modes, highest declared
  version, sorted result), and the theorems are about that description and the trace of
  fetch rounds. `GoPruning` and `GoLaws` restate modes and answer by chains of
  requirements.
- **PEP 440 and PEP 508** (`Text`, `PyVersion`, `PyOrder`, `PyConstraint`, `PyResolve`,
  `PyOperators`, `PyDependencies`, `PyMarkerText`, `PyMarker`, `PyMarkerGrammar`,
  `PyMarkerMeaning`, `PyMarkerStrict`). Version order as one integer key and as the rules
  of PEP 440, constraints with their normal form and the laws of their operators,
  resolution, merging, and the marker evaluator against a grammar and the meaning of its
  comparisons.
- **Worker pool** (`Pool`, `PoolInvariant`, `PoolSteps`, `PoolRuns`). Callers and workers
  as threads whose atomic operations interleave freely, with a ledger that records where
  every job is.
- **Violation paths** (`ViolationPath`). Breadth-first search against the edges.

`Common` and `Orders` hold the shared types, lexicographic order and sorting.

Library functions are parameters: `ParseVersion` (type `Parser`, with the assumption
`GoodParser` that a parsed version has a release number and its text does not start with
`=`), `golang.org/x/mod` (datatype `Library`, with the assumption `Ok` that comparison is
a total preorder and the empty version is invalid), and the round fetcher (a function; its
answers name coordinates of a finite universe). Clocks, fresh ids, tokens, row locks that
other transactions hold, and random draws are parameters too.

Some natural claims are false of the code. Each has a theorem with the exact condition and a
lemma at an input where it fails:

- *Every waiting root has something to wait for.* In a serial run it fails in exactly two
  ways: cancelling the last active child of a waiting root (the cancel transaction does not
  finalise the root), and completing a root whose children all have keys that exist already
  (`JobRoots.StrandedExactly`; runs: `JobWitness.CancelledChildStrands`,
  `JobWitness.TakenKeyStrands`). Children that end side by side, any number of them, by
  completion, failure or recovery, strand their root exactly when they are the last ones
  and none of them counts on the writes of all the others
  (`JobOverlap.OverlapStrandsExactly`; `JobWitness.OverlapCanStrand`).
- *A running job is cancelled only on request* (docs/adr/0001-job-service-contracts.md:250).
  A job that nobody asked to cancel becomes cancelled exactly when its owner's heartbeat
  returned an error, which the loop treats as a request to stop, or its handler answers so
  (`WorkerLoops.UnaskedExactly`; `WorkerLoops.MissedBeatCancels`).
- *When done is closed every accepted job is finished.* It holds exactly when, at that step,
  the counter equals the number of calls of Submit under way (`PoolRuns.DoneExactly`). A job
  accepted between the reading of zero and the closing breaks it
  (`PoolRuns.DoneCanPrecedeAJob`). A caller is safe if all calls of Submit from outside
  have returned before that reading and none follows (`PoolRuns.DoneAfterTheLastCall`).
- *A package's merged constraint is valid when its constraints are.* It is so exactly when no
  arbitrary equality `===` stands beside a different constraint
  (`PyDependencies.MergedDependency`; `PyDependencies.ClashingPair`).
- *Markers follow the grammar of PEP 508.* The parser looks only at the text of a keyword
  token, and in any letter case. It agrees with the grammar whose keywords are the
  lower-case words `and`, `or`, `in` and `not` exactly when no quoted or otherwise spelled
  token stands in the place of a keyword (`PyMarkerStrict.StrictExactly`). Any two
  comparisons joined by a quoted `'or'`, or by `OR`, show the difference
  (`PyMarkerStrict.OtherOrEvaluates`, `PyMarkerStrict.OtherOrIsNotStrict`). This
  equivalence is about the tokens and the variables that the code knows. Outside it lie
  `===`, which the scanner splits so that no text is ever read as a comparison by it
  (`PyMarkerStrict.TripleEqualityIsNeverRead`), the variables of PEP 508 that the code does
  not know, blanks other than those the standard allows, and its limits on the characters
  of a string.
- *Selection does not depend on the order of requirements.* The result does not. A
  validation error names the first invalid requirement of its owner, and which one that is
  is independent of the order exactly when only one is invalid
  (`GoTheorems.OrderIsIrrelevant`, `GoTheorems.NamesTheSameExactly`; `GoTheorems.SwappedPair`).
- *Backoff is defined.* Its window is positive and within 64 bits exactly for arguments from
  -28 to 34 (`Worker.BackoffDefined`; `Worker.BackoffFails`); the arguments that occur are 1 to 20.

## Model

| member | source | states |
|---|---|---|
| JobStore.Store.Submit | internal/store/postgres/service.go:52-104 | the new tables; a taken key returns the existing job or a conflict by hash and changes nothing, otherwise the new pending row is returned |
| JobStore.Store.Claim | internal/store/postgres/service.go:353-390 | nothing is claimed iff no unlocked row is due; otherwise the oldest due row is leased, its attempt row written, and the row returned |
| JobStore.Store.Heartbeat | internal/store/postgres/service.go:392-398 | extends the lease only of its owner and reports whether it is owned and not asked to cancel |
| JobStore.Store.Complete | internal/store/postgres/service.go:414-481 | lease lost iff the snapshot does not own the row, and then nothing changes; otherwise attempt, status, children, result and root change as specified |
| JobStore.Store.FinalizeRoot | internal/store/postgres/service.go:513-572 | the counts over descendants decide the root as the verdict says |
| JobStore.CountsDecide | internal/store/postgres/service.go:513-541 | the three counted sets decide activity and verdict of a root |
| JobStore.Store.Fail | internal/store/postgres/service.go:581-639 | as Complete, with retry, failure, dead letter or cancellation |
| JobStore.Store.Cancel | internal/store/postgres/service.go:641-694 | which rows of a family are cancelled or asked to cancel, and which error is returned |
| JobStore.Store.Retry | internal/store/postgres/service.go:696-712 | a new root linked to a finished job, or which error |
| JobStore.Store.ReplayDLQ | internal/store/postgres/service.go:760-808 | a new root for an unreplayed entry, the entry marked, or which error |
| JobStore.Store.SelectExpired | internal/store/postgres/service.go:815-830 | every unlocked row whose lease has run out, once each |
| JobStore.Store.ReclaimExpired | internal/store/postgres/service.go:810-876 | all selected rows are recovered one after the other, and counted; afterwards no unlocked row runs with a lease that ended before now |
| JobStore.Store.RecoverRow | internal/store/postgres/service.go:831-874 | one expired row is retried or dead-lettered and its root finalised |
| JobSteps.StepKeeps | internal/store/postgres/service.go:353-876 | every operation, with any held snapshot, keeps the invariant of tables, snapshots and tokens, and only lets rows, attempts, entries and results evolve |
| JobRuns.ReachableInv | internal/store/postgres/service.go:353-876 | the invariant holds after every step of every run |
| JobRuns.Fencing | internal/store/postgres/service.go:392-433 | a held snapshot that matches status, worker and token has the row's attempt number; any other snapshot's Heartbeat, Complete and Fail change nothing |
| JobRuns.OneOwner | internal/store/postgres/service.go:353-398 | two held snapshots of one job that both own it are the same claim |
| JobRuns.TokenConsumedOnce | internal/store/postgres/service.go:424-433 | no lease token is consumed by two steps of a run |
| JobRuns.Bookkeeping | internal/store/postgres/service.go:542-568 | completion time iff terminal, each of the four lease fields iff running, exactly one DLQ row iff dead-lettered, result only if completed, attempts within budget, attempt rows exactly 1 to attempts with only the last in progress and only while running, one job per key, one replay per entry |
| JobRuns.FinalIsFinal | internal/store/postgres/service.go:599-632 | terminal statuses, results, finished attempts and replayed entries never change again |
| JobRuns.BoundedWork | internal/store/postgres/service.go:353-448 | with child keys from a finite set, a run claims on a root's family at most (1 + size of the set) times the budget |
| JobRuns.ClaimsAreAttempts | internal/store/postgres/service.go:360-390 | the claims made on a family are exactly its attempt rows |
| JobRoots.FinishedRootIsFinal | internal/store/postgres/service.go:438-448 | a completed, failed or dead-lettered root keeps its status and never again has an active descendant |
| JobRoots.RootLeavesWaiting | internal/store/postgres/service.go:513-572 | a root leaves waiting dead-lettered iff a descendant is, else failed iff one failed or was cancelled, else completed; or cancelled on request |
| JobRoots.StrandedExactly | internal/store/postgres/service.go:655-670 | a step strands a waiting root iff it cancels its last active queued child or completes a root with children whose keys are all taken |
| JobRoots.NoStrandedRoot | internal/store/postgres/service.go:414-481 | if keys are derived from the root and no child is cancelled directly, every waiting root in every reachable state has an active descendant |
| JobTimes.LeasedUntil | internal/store/postgres/service.go:360-398 | in every run a running row is leased until the time plus the lease of the last Claim or Heartbeat that set it |
| JobTimes.RecoveredLate | internal/store/postgres/service.go:815-830 | in every run a recovery ends a lease only at a time later than that |
| JobTimes.NoneOverdue | internal/store/postgres/service.go:815-830 | a recovery of every unlocked overdue row leaves none |
| JobTimes.FirstComesFirst | internal/store/postgres/service.go:364-369 | a claim takes a due job, and every other due unlocked one in the queue is scheduled later, or is younger, or has the greater id |
| JobTimes.RetryWaits | internal/store/postgres/service.go:581-605 | a job that failed for now is not claimed again before its retry time |
| JobLaws.SubmittedAs | internal/store/postgres/service.go:52-104 | a public job with a new key is pending and due now, its own root, with its budget or 5; a taken key changes nothing |
| JobLaws.RetriedAs | internal/store/postgres/service.go:696-712 | only failed and dead-lettered jobs get a fresh root of the same work, linked to them |
| JobLaws.ReplayedAs | internal/store/postgres/service.go:760-808 | an unreplayed public entry gets a fresh root of its work and is marked; nothing else changes |
| JobLaws.ClaimedAs | internal/store/postgres/service.go:360-386 | a claim changes the columns of one row, adds its attempt and touches nothing else |
| JobLaws.CompletedAs | internal/store/postgres/service.go:414-481 | the owner's row is completed, or a root with children waits; the attempt ends, a result is kept, and every child has a job of its key |
| JobLaws.ChildAs | internal/store/postgres/service.go:400-412 | a row that Complete adds is a fresh internal job of a returned child in the family |
| JobLaws.FailedAs | internal/store/postgres/service.go:581-639 | failed, cancelled, retried while attempts are left, or dead-lettered with an entry after the last |
| JobLaws.RecoveredAs | internal/store/postgres/service.go:831-874 | an expired lease ends cancelled if asked, dead-lettered after the last attempt, else pending on its old schedule |
| JobLaws.VerdictMeans | internal/store/postgres/service.go:513-541 | dead-lettered iff some descendant is, completed iff all are, failed otherwise |
| JobLaws.FinalizedAs | internal/store/postgres/service.go:542-572 | only a waiting root with nothing active is finished, with a result if completed and an entry if dead |
| JobLaws.CancelledAs | internal/store/postgres/service.go:641-694 | for each row: cancelled, asked to stop, or untouched |
| JobOverlap.OverlapStrandsExactly | internal/store/postgres/service.go:513-521 | any number of overlapping endings of any kinds (Complete, Fail, recovery) leave their root waiting for nobody iff they are the last active descendants, end for good, add no child, and none counts on the writes of all others; in every other case the root keeps an active descendant or gets its verdict |
| JobOverlap.SerialIsOverlap | internal/store/postgres/service.go:414-481 | transactions run one after the other are the case in which each counts on those before it, so the last counts on all |
| JobWitness.CancelledChildStrands | internal/store/postgres/service.go:655-670 | a run from the empty tables in which cancelling the only child strands the audit |
| JobWitness.TakenKeyStrands | internal/store/postgres/service.go:400-412 | a run in which a public job has taken the only child's key, so completing the audit strands it |
| JobWitness.OverlapCanStrand | internal/store/postgres/service.go:513-521 | a run to two running last children whose completions side by side strand the audit |
| Worker.Process | internal/worker/service.go:132-195 | exactly the calls that the events draw; one heartbeat per tick, then at most one final call, decided by the first ending event |
| Worker.CallsEnd | internal/worker/service.go:154-194 | one heartbeat for each tick, then the final call if some event ends the loop, last and only there |
| WorkerLoops.LoopsFollowProcess | internal/worker/service.go:132-195 | loops of any number of workers, in any interleaving with the store and each other, are a run of the protocol in which no call is refused, and each makes exactly the calls of process, with the store's own answers as ticks |
| WorkerLoops.OverIsOver | internal/store/postgres/service.go:424-433 | from the moment its final call is committed a loop changes no more and its snapshot never owns a row again |
| WorkerLoops.LoopLosesExactly | internal/worker/service.go:165-193 | an owning loop loses its row iff its own final call is committed or the row is recovered |
| WorkerLoops.UnaskedExactly | internal/worker/service.go:183-193 | a running job that nobody asked to cancel becomes cancelled iff its owner's heartbeat returned an error or its handler answered cancelled |
| WorkerLoops.MissedBeatCancels | internal/worker/service.go:184-192 | a run in which one heartbeat returns an error and the job ends as cancelled without a request |
| JobLeases.LeaseEndsExactly | internal/store/postgres/service.go:353-876 | a lease ends, with the status that follows, iff its owner completes or fails the job or the row is recovered; every other step leaves the row running under it, at most prolonged or asked to cancel |
| JobLeases.LostForGood | internal/store/postgres/service.go:392-433 | a snapshot that does not own its row never owns it again |
| Worker.FirstEndDecides | internal/worker/service.go:154-194 | the first event that ends the loop decides the final call and its error kind, and there is one heartbeat for each tick up to it |
| Worker.Backoff | internal/worker/backoff.go:21-28 | a draw from the window |
| Worker.BackoffDefined | internal/worker/backoff.go:21-28 | positive and within 64 bits iff the argument is between -28 and 34 |
| Worker.BackoffFails | internal/worker/backoff.go:21-28 | the arguments -29 and 35: an empty window and one beyond 64 bits |
| Worker.BackoffWindow | internal/worker/backoff.go:21-28 | for 1 to 20 the window doubles from one second up to the cap of 30 |
| Worker.BackoffArgument | internal/worker/service.go:174-179 | in every run with budgets up to 20 a held snapshot gives Backoff an argument from 1 to 20 and a positive window |
| GoSelection.PropagateLoadModes | internal/gomod/selection.go:222-249 | ends, in the least set of full modules closed under legacy and full parents, whatever the visiting order |
| GoModel.PropagationUnique | internal/gomod/selection.go:222-249 | the result of propagation is unique |
| GoModel.PropagationResumes | internal/gomod/selection.go:54-63 | propagating stored modes over a larger cache equals starting afresh |
| GoSelection.SelectHigher | internal/gomod/selection.go:107-121 | the map holds the highest version seen per path; no error for valid versions |
| GoSelection.ComputeSelected | internal/gomod/selection.go:86-105 | per path the highest declared version, nothing else; no comparison error after validation |
| GoModel.SelectionUnique | internal/gomod/selection.go:86-121 | that selection is unique |
| GoSelection.MissingCoordinates | internal/gomod/selection.go:123-133 | exactly the selected coordinates not cached, sorted |
| GoSelection.ValidateRequirements | internal/gomod/selection.go:167-174 | no error iff every coordinate is valid, otherwise the owner and the first invalid requirement |
| GoSelection.AddFetchRound | internal/gomod/selection.go:135-165 | the first error in sorted order, or the cache with exactly the requested entries added |
| GoSelect.AddSelectedEdges | internal/gomod/selection.go:273-280 | one edge per requirement, to the selected version |
| GoSelect.BuildSelection | internal/gomod/selection.go:176-220 | the sorted modules are the selection and the sorted edges those of root and loaded selected modules |
| GoSelect.Select | internal/gomod/selection.go:42-84 | ends for every fetcher over a finite universe; the result is the outcome of a trace of rounds, in each of which the chains of requirements say what is loaded how |
| GoPruning.ChainsDecide | internal/gomod/selection.go:222-263 | a coordinate is loaded in full iff a chain of requirements leads to it from what does not prune, otherwise directly iff the root requires it |
| GoLaws.AcceptedInput | internal/gomod/selection.go:42-51 | the first round begins iff root path, go directive and all requirements are valid |
| GoLaws.AcceptedRound | internal/gomod/selection.go:135-165 | an answer is taken iff it holds exactly the requested modules, each under its path with valid requirements |
| GoLaws.PrunedRound | internal/gomod/selection.go:54-63 | when the root and all cached modules prune, exactly the root's requirements and those of its cached requirements are declared |
| GoLaws.ListedIsDemanded | internal/gomod/selection.go:86-105 | a listed module is asked for as it stands, by the root or a module in force, and its metadata are cached |
| GoLaws.DemandIsMet | internal/gomod/selection.go:107-121 | for every version asked for a module of that path is listed whose version is not lower, ties by text |
| GoLaws.ModulesAreSorted | internal/gomod/selection.go:176-184 | one module for each path, in the order of paths |
| GoLaws.EdgesExactly | internal/gomod/selection.go:185-200 | the edges are exactly those from the root or a listed module in force to the listed modules of the paths it asks for |
| GoLaws.EdgesAreSorted | internal/gomod/selection.go:201-212 | edges of the root first, then by source path and target path |
| GoTheorems.NeverRequestedTwice | internal/gomod/selection.go:62-84 | no coordinate is requested in two rounds, or twice in one |
| GoTheorems.SelectedOnlyRises | internal/gomod/selection.go:62-84 | from round to round no path disappears and no version falls |
| GoTheorems.FixedPoint | internal/gomod/selection.go:62-105 | at the end every requirement of the root and of loaded modules is at most the selected version, and the listed modules are the selection |
| GoTheorems.Provenance | internal/gomod/selection.go:86-133 | each listed module is declared verbatim at the end of a finite chain of loaded modules from a root requirement |
| GoTheorems.EdgesAreListed | internal/gomod/selection.go:176-212 | edge targets are listed with a version, sources are the root or listed |
| GoTheorems.LegacyRootLoadsAll | internal/gomod/selection.go:55-61 | below Go 1.17 every cached coordinate is loaded in full |
| GoTheorems.OrderIsIrrelevant | internal/gomod/selection.go:42-84 | permuting or repeating requirements, in the root or any metadata, does not change the result, and changes an error at most in which invalid requirement of the same owner it names |
| GoTheorems.RejectionsAgree | internal/gomod/selection.go:42-51 | the same for the checks before the first round |
| GoTheorems.SwappedPair | internal/gomod/selection.go:167-174 | swapping two different invalid requirements changes the one that is named |
| GoTheorems.NamesTheSameExactly | internal/gomod/selection.go:167-174 | the named requirement is independent of the order iff only one is invalid |
| PyVersion.CompareRelease | internal/pypi/version.go:146-161 | the zero-padding loop decides as lexicographic order without trailing zeros |
| PyVersion.CompareLocal | internal/pypi/version.go:163-194 | the segment loop decides as the key of the local label |
| PyVersion.Compare | internal/pypi/version.go:92-109 | Compare is lexicographic comparison of one integer key |
| PyVersion.KeyParts | internal/pypi/version.go:92-144 | the key compares epoch, release, pre, post, dev and local in turn |
| PyVersion.OrderIsTotal | internal/pypi/version.go:91-109 | a total preorder with opposite signs when swapped |
| PyOrder.OrderIsPep440 | internal/pypi/version.go:91-194 | Compare orders by the rules of PEP 440 on the fields: epoch, release up to trailing zeros, stage, post, dev, local |
| PyOrder.WithinARelease | internal/pypi/version.go:111-144 | within one release: development-only, prereleases by kind and number, final, post-releases; dev before, local label after |
| PyConstraint.Parse | internal/pypi/version.go:275-345 | the loop yields the clauses and the prerelease permission, or the first error |
| PyConstraint.NormalizeRoundTrip | internal/pypi/version.go:216-226 | the normal form parses to the same clauses and is its own normal form |
| PyConstraint.ClauseIsParsed | internal/pypi/version.go:283-343 | the text of a parsed clause parses back to it |
| PyConstraint.MatchesPrefix | internal/pypi/version.go:355-364 | wildcard matching without zero padding |
| PyConstraint.CheckCompatible | internal/pypi/version.go:400-417 | all but the last release number agree, without padding |
| PyConstraint.CheckSameRelease | internal/pypi/version.go:426-428 | same epoch and same release up to trailing zeros |
| PyConstraint.CheckClause | internal/pypi/version.go:347-396 | a clause accepts a version as each operator means it |
| PyConstraint.MatchesClauses | internal/pypi/version.go:347-398 | true iff every clause is satisfied |
| PyResolve.ResolveVersion | internal/pypi/version.go:231-273 | parse errors pass through; fails iff nothing matches; otherwise a listed version that satisfies every clause, highest in its pool, a prerelease only if a clause names one or nothing stable matches; `===` returns that text iff listed |
| PyResolve.ResolvesToTaken | internal/pypi/version.go:231-273 | resolution succeeds iff some available text is taken by the constraint, and answers with one |
| PyResolve.Collect | internal/pypi/version.go:249-261 | exactly the matching stable versions and the matching prereleases |
| PyResolve.PermutedList | internal/pypi/version.go:231-273 | reordering or repeating the list gives an answer that compares equal, and the same failure |
| PyOperators.AtLeastLaw | internal/pypi/version.go:387-390 | `>=x` takes x, nothing below it, and is closed upwards |
| PyOperators.AtMostLaw | internal/pypi/version.go:379-382 | `<=x` takes x, above it only x with a local label, and is closed downwards |
| PyOperators.BelowLaw | internal/pypi/version.go:375-378 | `<x` takes exactly what is below x but for prereleases of its release, unless x is one |
| PyOperators.AboveLaw | internal/pypi/version.go:383-386 | `>x` takes exactly what is above x but for x with a local label and post-releases of its release, unless x is one |
| PyOperators.EqualLaw | internal/pypi/version.go:367-374 | `==x` takes what compares equal to x or is x with a local label; `!=x` is the complement |
| PyOperators.BothBounds | internal/pypi/version.go:275-345 | `>=x,<=x` takes exactly what `==x` takes |
| PyOperators.CompatibleLaw | internal/pypi/version.go:391-417 | `~=x` takes what `>=x` takes and shares all but the last number of x |
| PyOperators.LabelsIgnored | internal/pypi/version.go:419-424 | a candidate's local label counts only if the constraint has one |
| PyOperators.WildcardLaw | internal/pypi/version.go:355-364 | `==n.m.*` takes the versions that start with these numbers; `!=` is the complement |
| PyOperators.Resolution | internal/pypi/version.go:231-273 | fails iff nothing listed is accepted; otherwise a highest accepted version, prereleases counting only if a clause names one or nothing stable is accepted |
| PyDependencies.PythonDependencies | internal/depfile/python.go:115-141 | one dependency per active package in name order, its range the sorted distinct non-empty constraints joined by commas |
| PyDependencies.MergedByName | internal/depfile/python.go:115-141 | the packages are those of the active requirements, once each, in dictionary order |
| PyDependencies.MergeIsUnique | internal/depfile/python.go:115-141 | the result does not depend on the order or repetition of requirements |
| PyDependencies.MergeMeansAll | internal/pypi/version.go:275-345 | joined normal constraints parse iff there is at most one or none is `===`, and then accept, of all texts, exactly what all accept |
| PyDependencies.MergedDependency | internal/depfile/python.go:115-141 | a merged range is valid iff no `===` clashes, and then accepts, of all texts, exactly what every active requirement accepts |
| PyDependencies.ClashingPair | internal/depfile/python.go:115-141 | two requirements that version 2 satisfies merge into a constraint that is an error |
| PyMarkerText.TokenizeMarker | internal/pypi/requirement.go:166-215 | the scanning loop computes the token list or reports the unterminated string |
| PyMarkerText.TokensAreLexed | internal/pypi/requirement.go:166-215 | on every input the tokens are well formed and the end mark comes last and only there |
| PyMarkerText.SpellingScans | internal/pypi/requirement.go:166-215 | tokens written out with any sufficient blanks scan back to themselves |
| PyMarker.CompareMarkerValues | internal/pypi/requirement.go:372-408 | containment, version order where both sides are versions of a version variable, text order otherwise |
| PyMarker.MarkerParser.ParseOr | internal/pypi/requirement.go:241-255 | terminates inside the tokens with the value and position of the specification |
| PyMarker.MarkerParser.ParseAnd | internal/pypi/requirement.go:257-271 | the same for conjunctions |
| PyMarker.MarkerParser.ParseTerm | internal/pypi/requirement.go:273-299 | the same for parentheses and comparisons |
| PyMarker.MarkerParser.ParseOperand | internal/pypi/requirement.go:301-315 | the same for operands |
| PyMarker.MarkerParser.ParseOperator | internal/pypi/requirement.go:317-337 | the same for operators, `not in` taking two tokens |
| PyMarker.EvaluateMarker | internal/pypi/requirement.go:225-239 | scanning, parsing and the trailing-token check together, on every input |
| PyMarkerGrammar.EvaluatesExactly | internal/pypi/requirement.go:225-345 | a token list evaluates to a value iff it spells a syntax tree with that value, and binds tighter than or |
| PyMarkerGrammar.GrammarIsUnambiguous | internal/pypi/requirement.go:241-299 | all trees of a token list have the same value |
| PyMarkerGrammar.TextEvaluates | internal/pypi/requirement.go:166-239 | any spelling of a tree, with any blanks and letter case of keywords, evaluates to its value |
| PyMarkerGrammar.PrintThenEvaluate | internal/pypi/requirement.go:166-299 | printing any tree with the parentheses it needs and evaluating the text gives its value |
| PyMarkerMeaning.VariablesByName | internal/pypi/requirement.go:347-370 | each variable gives the field it is named after, and no other name is one |
| PyMarkerMeaning.ComparisonMeans | internal/pypi/requirement.go:372-408 | the text of a comparison evaluates to what its operator means: order of versions or of texts, equality, occurrence, compatibility |
| PyMarkerMeaning.ConnectivesMean | internal/pypi/requirement.go:241-271 | two comparisons joined by `and` or `or` evaluate to conjunction or disjunction |
| PyMarkerMeaning.GroupingMeans | internal/pypi/requirement.go:241-299 | of three, `and` binds tighter and parentheses group |
| PyMarkerStrict.StrictExactly | internal/pypi/requirement.go:241-345 | the grammar with lower-case word keywords gives a value iff the evaluator does and no quoted and no otherwise cased token stands in a keyword's place |
| PyMarkerStrict.OtherOrEvaluates | internal/pypi/requirement.go:241-255 | any two comparisons joined by a quoted `or`, or by the word `OR`, evaluate to their disjunction |
| PyMarkerStrict.OtherOrIsNotStrict | internal/pypi/requirement.go:241-255 | the grammar with lower-case keywords derives none of those token lists |
| PyMarkerStrict.TripleEqualityIsNeverRead | internal/pypi/requirement.go:196-204 | no text is read as a comparison by `===` |
| PoolSteps.StepKeeps | internal/worker/pool.go:133-255 | every step of every thread keeps counter, channel, threads and ledger consistent |
| PoolRuns.CounterIsExact | internal/worker/pool.go:143-154 | at every interleaving inFlight is queued plus held plus submissions under way plus dropped jobs |
| PoolRuns.DoneIsTruthful | internal/worker/pool.go:356-360 | when done is closed, every job accepted up to the reading of zero has succeeded once or was handled as often as its attempts allow, and so have its children unless refused |
| PoolRuns.FinishedTruly | internal/worker/pool.go:201-236 | counted over the run: a completed job succeeded once, an exhausted one never and was handled exactly as often as the attempts it had left, or once |
| PoolRuns.DoneExactly | internal/worker/pool.go:356-360 | at the step that closes done, every accepted job is finished iff the counter equals the calls of Submit under way |
| PoolRuns.SettledExactly | internal/worker/pool.go:133-154 | the same equivalence in every consistent state |
| PoolRuns.DoneAfterTheLastCall | internal/worker/pool.go:356-360 | if every call of Submit from outside had returned when the counter was read as zero, every accepted job is finished at the closing and until the next call |
| PoolRuns.DoneCanPrecedeAJob | internal/worker/pool.go:133-154 | a run in which a job accepted after the reading of zero is still queued when done is closed |
| PoolRuns.HandledAtMost | internal/worker/pool.go:201-236 | no job is handled more often than the attempts it had left, or once |
| PoolRuns.NothingLostWhileOpen | internal/worker/pool.go:309-328 | before shutdown or close no child is refused and no retry dropped |
| PoolRuns.NoSendAfterClose | internal/queue/queue.go:83-104 | nothing is ever sent on the closed channel |
| PoolSteps.ZeroIsSettled | internal/worker/pool.go:356-360 | a zero counter means every accepted job is finished |
| ViolationPath.BuildParents | internal/auditor/report.go:36-41 | the reverse adjacency lists the sources of each node in edge order |
| ViolationPath.FindPath | internal/auditor/report.go:77-115 | ends on every graph; the root and a shortest walk backwards, or the node alone iff no walk reaches the root |
| ViolationPath.ShortestExplains | internal/auditor/report.go:77-115 | that walk is a shortest real dependency path in the edges |
| ViolationPath.ViolationPaths | internal/auditor/report.go:43-58 | every violating package in order, each with its shortest path, also by key |

## Left out

- HTTP handlers, JSON, routing, the dashboard and the commands: plumbing; only the bounds they put on maxAttempts appear.
- Registry, GitHub and Go proxy clients: network input; the Go fetcher is a function.
- ParseVersion's regular expression, NewTarget, ParseRequirement's name and URL checks, and SHA-256 keys: parsed versions and keys are inputs.
- Get, List, Counts, Metrics, events, worker rows, audit tables and last errors: reporting data that no modelled decision reads.
- The operations of internal/store/postgres/postgres.go and the store-backed paths of pool and queue: outside the lease protocol, with a counter that is not exact.
- License policy, summaries and Markdown: only easy members.
- The polling loop around process and the maintenance timers: a claim or a recovery may come at any time. Which of several ready events a loop's select takes is any of them.
- Liveness: nothing is said about when a claim, a retry or done happens.
- Store transactions are atomic steps; `JobOverlap` is the one place where two overlap.
- The last error of a job: Complete keeps it (internal/store/postgres/service.go:424-426), although docs/adr/0001-job-service-contracts.md line 171 asks to clear it.
- The pool is a state machine, not a class: its fields are changed by concurrent loops. The channel has no capacity bound and the queue may be closed at any time, which allows more interleavings than the code has; `accepting` is left out because it turns false only after `stopping` turned true.
- Job ids in the pool model are submissions: two submissions with the same ID are two jobs.
- Floating point and randomness in Backoff: the draw is any number below the window; the scaling is over integers, exact because it is by powers of two.
- Unicode case folding: keyword comparison folds ASCII letters only, which decides all four keywords.
- The tokenizer's branch for an unexpected character: no character reaches it.
- Sorting calls the library's in-place sort; the model inserts into a sequence and uses only that the result is a sorted permutation.
- SQL text, isolation levels and constraint errors: each statement is its effect on rows.
