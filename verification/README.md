# A verified model of the job queue and its dependency workloads

The system is a PostgreSQL-backed job queue with leases and fencing tokens whose
reference workloads expand dependency graphs: a root job seeds keyed children, each
child discovers more, and the root is finalized when its descendants have ended.
This project models the parts of it that carry hard properties and proves them:

- **Job store** (`JobTables`, `JobRuns`, `JobInvariants`, `JobSteps`, `JobOutcomes`,
  `JobSafety`, `JobClosure`, `JobProgress`, `JobStore`). Each SQL transaction is a function on tables;
  a run is any sequence of transactions, with every snapshot ever handed to a worker free to come back
  late. `JobOutcomes` says of each transaction, on the old and the new columns, what becomes of
  the row, its tree, the attempt ledger and the dead letters. `JobStore` is the store as an object
  whose methods change the tables step by step, proved to reach those outcomes and to equal those
  functions. The main theorem, `JobTreeComputesClosure`,
  says that whatever crashes, retries, recoveries and duplicate discoveries a run has, a
  completed root's descendants are the least set closed under the dependency function,
  one job a node. Transactions in these runs are serial; `RootLock` treats their overlap.
- **Root finalization under overlapping transactions** (`RootLock`): open transactions at
  READ COMMITTED, and why update scans lock the root row.
- **One worker** (`WorkerProcess`), **job listing** (`JobListing`), **violation paths**
  (`ViolationPaths`) and **termination detection in the in-memory pool** (`WorkerPool`).
- **Go module selection** (`GoModules`, `GoLoadModes`, `GoRounds`, `GoPruning`, `GoSelect`): load modes
  as a least fixed point, selection as rounds over a growing cache, and the answer said in terms of
  graph pruning alone.
- **PEP 440 versions and constraints** (`PyVersions`, `PyPrecedence`, `PyResolve`) and **PEP 508 markers**
  (`PyMarkers`, `PyMarkerParser`), down to the characters of the marker text.

`Wrappers`, `Ordering` and `Sorting` hold shared definitions: option and result types,
three-way comparisons, and sorting as done by `sort.Slice` and `ORDER BY`.

## Reading the main predicates

- `JobInvariants.Inv` is the invariant of every reachable state. `Rows`: lease fields are
  set exactly while running, `completed_at` exactly when terminal, claimable jobs have
  attempts left, only a root can wait. `Ledger`: a job's attempt rows are numbered exactly
  1 to `attempts`, and a running row is the last one and carries the lease. `DeadLetters`
  and `Replays`: one entry per dead-lettered job and for no other, each replayed at most
  once. `Trees`: how a root's status relates to its descendants'. `Snapshots`: what an
  issued snapshot still says of the tables.
- `JobSafety.Retired` means that no row holds a token any more; `Settles` means a Complete
  or Fail that was accepted.
- `JobClosure.HonestRun` is a run whose handlers are deterministic: a successful handler
  returns the children of a fixed dependency function, in any order and with repetition.
- `JobStore.Store.Valid` says that the object's tables and the snapshots it has issued
  satisfy `Inv`; the constructor establishes it and every transaction keeps it, for
  submissions without a root, fresh tokens and snapshots that were issued.
- In `JobOutcomes`, `FailedAs`, `RecoveredAs`, `CancelledAs`, `CompletedAs`, `FinalizedAs`, `SubmittedAs`,
  `ClaimedAs`, `BeatAs`, `RetriedAs` and `ReplayedAs` each relate the tables before and after one
  transaction. They spell out statuses, lease columns, times, attempts and dead letters and use none
  of the functions from which the transactions are built.
- `RootLock.Stranded` is a waiting root with no transaction open and nothing left that
  would finalize it.
- `GoLoadModes.LeastModes` is defined by what every closed map must contain, without
  reference to the propagation loop; `GoRounds.IsRun` is the sequence of caches that the
  rounds determine. `GoPruning.Requires` and `Selects` say what is selected from the root's
  requirements, the cached ones and the pruning bits, without load modes.
- `PyVersions.Precedes` is PEP 440's order on the fields of a version, without sort keys.

Where the code and its documentation disagree the model follows the code: the
repository's README (line 158) describes `waiting` as a child waiting for its parent, but
the code only ever lets a root wait for its children.

## Model

| member | source | states |
|---|---|---|
| `JobClosure.JobTreeComputesClosure` | internal/store/postgres/service.go:428-574 | In every run with deterministic handlers, a completed root's descendant nodes are exactly the least set that contains the seeds and is closed under the dependency function, with one job per node |
| `JobClosure.ReachableTree` | internal/store/postgres/service.go:428-509 | In every reachable state keys are unique, descendants are keyed by root and node, every node lies in the closure, and every job that has completed or waits has all its children present |
| `JobClosure.CompletedRootIsClosure` | internal/store/postgres/service.go:541-599 | The tree invariant and a completed root give least closure |
| `JobClosure.TreeHasOneJobPerNode` | internal/handlers/dependency_audit.go:121-124 | Two descendants of one root with the same node are the same job |
| `JobClosure.InsertChildrenTree` | internal/store/postgres/service.go:466-476 | Inserting a handler's children, duplicates ignored on their key, keeps the tree invariant, changes no other row, and leaves every child's node present |
| `JobClosure.StepKeepsTree` | internal/auditor/service_handler.go:33-68 | Every step of every kind keeps the tree invariant when handlers return what the dependency function says |
| `JobSafety.StepKeeps` | internal/store/postgres/service.go:381-923 | Every transaction keeps the whole invariant, and none aborts on a constraint |
| `JobSafety.ReachableInv` | internal/store/postgres/service.go:541-619 | Every state of every run from the empty database satisfies the invariant: row shape, attempt ledger, dead letters, replays, root and descendant statuses, snapshots |
| `JobSteps.CompleteKeeps` | internal/store/postgres/service.go:442-509 | Completing with any issued snapshot keeps the invariant and either succeeds or reports the lost lease |
| `JobSteps.FailKeeps` | internal/store/postgres/service.go:628-686 | Failing with any issued snapshot keeps the invariant and either succeeds or reports the lost lease |
| `JobSteps.ReclaimKeeps` | internal/store/postgres/service.go:857-923 | Recovering any list of expired rows keeps the invariant and never aborts |
| `JobOutcomes.FailOutcome` | internal/store/postgres/service.go:628-686 | With an issued snapshot that owns its lease: a transient failure with attempts left is scheduled at retryAt without a dead letter, one on the last attempt is dead-lettered with exactly one entry, a permanent one fails and a cancellation cancels |
| `JobOutcomes.ReclaimOutcome` | internal/store/postgres/service.go:857-923 | Every recovered row of a batch is cancelled if asked to stop, else pending with its time and attempts kept and due again, else dead-lettered with exactly one entry |
| `JobOutcomes.CancelOutcome` | internal/store/postgres/service.go:688-741 | By status: the whole tree of a waiting root, a running row asked to stop with its lease kept, a queued row cancelled, a terminal row untouched, and all else unchanged |
| `JobOutcomes.CancelledTreeStops` | internal/store/postgres/service.go:703-722 | After a waiting root is cancelled no row of its tree can be claimed and every heartbeat in it is lost |
| `JobOutcomes.CancelledJobStops` | internal/store/postgres/service.go:423 | After any accepted cancellation of an unfinished job it cannot be claimed and its heartbeat is lost |
| `JobOutcomes.FinalizeOutcome` | internal/store/postgres/service.go:541-619 | A root ends exactly when it waits and no descendant is active: dead-lettered with one entry if one is dead-lettered, else failed if one failed or was cancelled, else completed |
| `JobOutcomes.CompleteOutcome` | internal/store/postgres/service.go:442-509 | With an issued snapshot that owns its lease the row ends completed, or waiting if it is a root with children, and each child not yet present becomes a pending internal row under it |
| `JobOutcomes.SubmittedTwice` | internal/store/postgres/service.go:60-101 | Submitting again under a key changes nothing and succeeds, and with another task is refused |
| `JobSafety.FinishedRowsImmutable` | internal/store/postgres/service.go:589-615 | No step changes any field of a terminal row |
| `JobSafety.FinishedForever` | internal/store/postgres/service.go:702-722 | A terminal row is the same row in every later state of a run |
| `JobSafety.RetiredForever` | internal/store/postgres/service.go:387-400 | A token that no row holds is never held again |
| `JobSafety.SettledRetires` | internal/store/postgres/service.go:452-461 | An accepted Complete or Fail retires its token |
| `JobSafety.RecoveryRetires` | internal/store/postgres/service.go:887-890 | Recovery retires the token of every row it recovers |
| `JobSafety.StaleWritesChangeNothing` | internal/worker/service.go:155-193 | After a token is retired, no heartbeat, Complete or Fail with its snapshot changes anything, at any later point of the run |
| `JobSafety.AtMostOneSettlement` | internal/store/postgres/service.go:647-658 | No claim has two accepted Completes or Fails in one run |
| `JobSafety.ReplayedAtMostOnce` | internal/store/postgres/service.go:826-842 | Two jobs replayed from the same dead-lettered job are the same job |
| `JobSafety.DeadOnlyWhenExhausted` | internal/store/postgres/service.go:639-645 | In every reachable state a dead-lettered job without descendants has used all its attempts |
| `JobInvariants.ClaimNeverAborts` | db/migrations/002_job_service.sql:46 | The ledger invariant means the unique constraint on job and attempt never fires |
| `JobInvariants.HoldsDescribes` | internal/store/postgres/service.go:387-400 | A row that still holds a claim's token has that claim's attempt number and worker and is running |
| `JobInvariants.ClaimKeeps` | internal/store/postgres/service.go:381-418 | A claim with a fresh token keeps the invariant, with its snapshot issued |
| `JobInvariants.CloseKeeps` | internal/store/postgres/service.go:452-465 | Ending an attempt, by completion, failure or recovery, keeps the invariant |
| `JobInvariants.FinalizeKeeps` | internal/store/postgres/service.go:541-619 | finalizeRoot on any root keeps the invariant |
| `JobProgress.StepStrandsNone` | internal/store/postgres/service.go:703-706 | Of transactions that run one at a time, one leaves every waiting root an active descendant if and only if it does not cancel a waiting root's last active descendant on its own |
| `JobProgress.WaitingRootsHaveWork` | internal/store/postgres/service.go:554-561 | In runs of whole transactions without such a cancellation every waiting root has an active descendant |
| `JobProgress.QuietMeansFinished` | internal/store/postgres/service.go:554-599 | In such a run, once no job is queued or running, every job is terminal and no root is left waiting |
| `JobProgress.WorkIsBounded` | internal/store/postgres/service.go:389 | Successful claims under a root number at most maxAttempts times one plus the number of nodes in any finite closed set |
| `JobProgress.ClaimsSpendTheBudget` | internal/store/postgres/service.go:381-418 | What is left of maxAttempts times one plus the nodes of a closed set is never negative, drops at every claim under the root, and stays put at every other step |
| `JobProgress.ClaimsAreAttempts` | internal/store/postgres/service.go:401-416 | The claims of a run under a root are exactly the attempt rows under it |
| `JobStore.Store.Submit` | internal/store/postgres/service.go:52-104 | A new pending root row with the submitted task, limit and times, or the row stored under the same key and hash, or a conflict that changes nothing; a valid object stays valid |
| `JobStore.Store.NextDue` | internal/store/postgres/service.go:392-397 | A queued row whose time has come and that no other transaction locks, earliest by scheduled time, then creation, then id, or none if there is none |
| `JobStore.Store.Claim` | internal/store/postgres/service.go:381-418 | The first due unlocked row runs under the worker and the new token until the given time, with one attempt more and its attempt row open, no other row changed and its snapshot recorded; a valid object stays valid and never aborts; no row means no change |
| `JobStore.Store.Heartbeat` | internal/store/postgres/service.go:420-426 | The lease is extended exactly when the snapshot owns it and no cancellation is requested; otherwise it is reported lost and nothing changes |
| `JobStore.Store.CloseAttempt` | internal/store/postgres/service.go:452-465 | Row, attempt row and dead letter are updated as Close does |
| `JobStore.Store.FinalizeRoot` | internal/store/postgres/service.go:541-619 | Nothing unless the root waits and no descendant is active; then it ends dead-lettered, failed or completed by what its descendants ended as |
| `JobStore.Store.Complete` | internal/store/postgres/service.go:442-509 | Lost exactly when the snapshot does not own the lease; otherwise the row and attempt end, each child whose key is new becomes a pending row of the tree, the first of those that share one, and other rows but the root are unchanged; with any snapshot ever issued a valid object stays valid and nothing aborts |
| `JobStore.Store.Fail` | internal/store/postgres/service.go:628-686 | Lost exactly when the snapshot does not own the lease; otherwise retried at the given time while attempts are left, dead-lettered with one entry after the last attempt, failed if permanent, cancelled if cancelled; with any snapshot ever issued a valid object stays valid and nothing aborts |
| `JobStore.Store.ReclaimExpired` | internal/store/postgres/service.go:857-923 | Exactly the expired unlocked rows are recovered, with a rollback if a recovery fails; each becomes cancelled if asked to stop, pending again while attempts are left, and dead-lettered with one entry otherwise; on a valid object none fails and it stays valid |
| `JobStore.Store.Cancel` | internal/store/postgres/service.go:688-741 | A queued row is cancelled, a running one asked to stop, a waiting root's tree cancelled and its running rows asked to stop, a terminal row left alone; a valid object stays valid |
| `JobStore.Store.Retry` | internal/store/postgres/service.go:743-759 | A failed or dead-lettered job runs again as a new root with its task and no key; any other job is a conflict that changes nothing |
| `JobStore.Store.ReplayDLQ` | internal/store/postgres/service.go:807-855 | An entry of a visible job runs again once as a new root with its task and is marked with it; a second replay is a conflict |
| `RootLock.NeverPremature` | internal/store/postgres/service.go:554-599 | With or without the root lock, in every interleaving a finalized root's status is the verdict on descendants that have all ended |
| `RootLock.FinalizedRootMeans` | internal/store/postgres/service.go:554-599 | In every interleaving a completed root has only completed descendants, a dead-lettered one has a dead-lettered descendant, a failed one has a failed or cancelled one and none dead-lettered, and none of them is active |
| `RootLock.LockedRunsStayGuarded` | internal/store/postgres/service.go:541-561 | With the root lock, in every interleaving a waiting root has an active committed descendant and no open transaction can take the last one away unseen |
| `RootLock.RaceStrands` | internal/store/postgres/service.go:546-553 | Without the lock some run leaves the root waiting with no transaction open and no active descendant |
| `RootLock.NoStrandingIffRootLocked` | internal/store/postgres/service.go:541-561 | No run strands the root if and only if finalizers lock it first |
| `WorkerProcess.Process` | internal/worker/service.go:132-195 | The store calls are heartbeats, one a tick, followed by at most one Complete or Fail: complete on success, the handler's kind on its error, cancellation on a lost lease, transient at the shutdown deadline, whichever ends the loop first |
| `JobListing.List` | internal/store/postgres/service.go:253-312 | A page is newest first, with ids descending at equal times, holds matching rows after the cursor, at most the limit or 50 where the limit is out of 1 to 100, and the next cursor is its last row exactly when more follow |
| `JobListing.NextPageIsRest` | internal/store/postgres/service.go:262-302 | The rows after the last row of a page are exactly the rest of the listing |
| `JobListing.ListAll` | internal/store/postgres/service.go:236-302 | Following the cursor from the start terminates and yields every matching row, newest first, each once, for every limit |
| `ViolationPaths.InvertEdges` | internal/auditor/report.go:36-41 | A package is another's parent in the map if and only if an edge says so |
| `ViolationPaths.FindPath` | internal/auditor/report.go:77-115 | Terminates on any graph; a shortest path along real edges from the root when the root can be reached backwards, otherwise the node alone |
| `ViolationPaths.GenerateReport` | internal/auditor/report.go:26-69 | The violating packages in order, each with a shortest path over the recorded edges, the map from their keys to their paths, and the counts of all and of the other packages |
| `WorkerPool.StepKeeps` | internal/worker/pool.go:185-255 | Every step of every worker, submitter and closer keeps the counter equal to the number of jobs queued, held or counted |
| `WorkerPool.ReachableInv` | internal/worker/pool.go:133-154 | The counter, the queue and the workers agree in every state of every interleaving |
| `WorkerPool.NeverBounced` | internal/worker/pool.go:309-328 | In no reachable state can a child that was counted be refused by a closing queue |
| `WorkerPool.DoneMeansDrained` | internal/worker/pool.go:356-360 | When done is closed nothing is queued or held; every job and child ever accepted was completed, having failed each time it was handled but the last, or dead-lettered, having failed every time until its attempts were used up; none was handled more than max(1, MaxAttempts) times |
| `WorkerPool.DoneIsNotMissed` | internal/worker/pool.go:309-328 | Once the last job ends, done is closed or a worker is on its way to close it |
| `PyVersions.KeyOrder` | internal/pypi/version.go:92-109 | Lexicographic order on canonical keys is a total order |
| `PyVersions.VersionOrder` | internal/pypi/version.go:92-194 | Version comparison is a total preorder whose zero case is exactly equality of canonical keys |
| `PyVersions.CompareRelease` | internal/pypi/version.go:146-161 | The zero-padded loop is lexicographic comparison with trailing zeros dropped |
| `PyVersions.CompareLocal` | internal/pypi/version.go:163-194 | The loop is lexicographic comparison of the parts, numbers above text |
| `PyVersions.Compare` | internal/pypi/version.go:92-144 | Negative exactly when the first version precedes the second in PEP 440's order on the fields, and positive exactly when it follows it |
| `PyVersions.ComparesByPrecedence` | internal/pypi/version.go:92-194 | The comparison of sort keys is PEP 440's order: epoch, padded release, development releases below pre-releases by kind and number below the rest, post-releases up, development releases down, local parts last |
| `PyPrecedence.EpochThenRelease` | internal/pypi/version.go:92-161 | A higher epoch, and then a higher release, beats every suffix |
| `PyPrecedence.RungsAscend` | internal/pypi/version.go:92-144 | Of two versions of one release, whatever their numbers: development release below alpha below beta below candidate below final below post-release, and final below final with a local part |
| `PyPrecedence.WithinPreReleases` | internal/pypi/version.go:111-144 | Pre-releases of one kind go by number, then post part, then development part, each increasing |
| `PyPrecedence.WithinPostReleases` | internal/pypi/version.go:133-144 | Post-releases go by number, and a development release of one comes before it |
| `PyPrecedence.LocalDecides` | internal/pypi/version.go:163-194 | The first difference of two local parts decides: numbers above texts, numbers by value, texts by the dictionary |
| `PyPrecedence.SuffixLadder` | internal/pypi/version.go:92-194 | The twenty-six forms of one release listed in PEP 440's order ascend, for every epoch, release and numbers |
| `PyResolve.CompatiblePrefix` | internal/pypi/version.go:400-417 | True exactly when epoch and all but the last release segment of the minimum are a prefix of the candidate's |
| `PyResolve.MatchesClauses` | internal/pypi/version.go:347-398 | True exactly when every clause is satisfied |
| `PyResolve.RelationMeaning` | internal/pypi/version.go:370-398 | Each operator in terms of PEP 440's order alone, with the exclusions of < and > for prereleases and post-releases of the named release |
| `PyResolve.StableIsPreferred` | internal/pypi/version.go:255-272 | If a stable version matches and no clause names a prerelease, the chosen version is stable and not below it |
| `PyResolve.ResolveVersion` | internal/pypi/version.go:231-273 | Without ===, fails if and only if nothing available parses and matches; otherwise the choice is eligible, is stable whenever a stable match exists and no clause names a prerelease, and no eligible version is greater |
| `PyResolve.ResolutionUnique` | internal/pypi/version.go:231-273 | Under any reordering of the available versions two resolutions compare equal |
| `PyResolve.PrefixMatchIsPadded` | internal/pypi/version.go:355-364 | Wildcard prefix matching agrees with PEP 440's zero-padded matching if and only if the candidate is not short of the prefix by zeros alone |
| `PyResolve.CompatibleMatchIsPadded` | internal/pypi/version.go:400-417 | The prefix match of ~= agrees with zero-padded matching if and only if the candidate is not short of the fixed segments by zeros alone |
| `PyResolve.MissedByPrefixMatch` | internal/pypi/version.go:400-417 | Version 1 matches the prefix 1.0 when padded, but not in the code |
| `PyMarkers.EvaluatesExactlyMarkers` | internal/pypi/requirement.go:225-337 | A token list evaluates to a value if and only if it prints a marker tree, with "and" binding tighter than "or", of that meaning; all tokens are consumed |
| `PyMarkers.DisjunctionParses` | internal/pypi/requirement.go:241-299 | Every tree whose tokens stand at a position is evaluated to its meaning, up to its last token |
| `PyMarkers.OrReads` | internal/pypi/requirement.go:241-299 | Whatever the evaluator accepts is the print of a well-formed tree with the value it returns |
| `PyMarkers.OrderingOperators` | internal/pypi/requirement.go:380-400 | The comparison operators in terms of which side comes first, as versions where a version variable is involved and both sides parse and as text otherwise; <= is < or ==, != is not == |
| `PyMarkers.OtherOperators` | internal/pypi/requirement.go:372-378 | "in" holds exactly when the left text lies inside the right one, "not in" is its negation, and ~= is the compatible release |
| `PyMarkers.KeywordsInAnyCase` | internal/pypi/requirement.go:241-271 | The keywords are "and" and "or" in any case and nothing else |
| `PyMarkerParser.ScansExactlySpellings` | internal/pypi/requirement.go:166-215 | A text scans to a token list if and only if it is the list's lexemes, each as long as it can be, with blanks between |
| `PyMarkerParser.TextEvaluatesExactlyMarkers` | internal/pypi/requirement.go:225-239 | A text evaluates to a value if and only if it spells a marker tree of that meaning |
| `PyMarkerParser.Tokenize` | internal/pypi/requirement.go:166-215 | The tokenizer loop computes the scan, ends in the one end token, and never reports an unexpected character |
| `PyMarkerParser.ReadToken` | internal/pypi/requirement.go:173-212 | One pass of the loop reads the first lexeme, or finds a string that is not closed |
| `PyMarkerParser.ReadWord` | internal/pypi/requirement.go:205-212 | A word is read to its end and is never empty, so no character is unexpected |
| `PyMarkerParser.MarkerParser.ParseOr` | internal/pypi/requirement.go:241-255 | The loop computes the disjunction and leaves the index where it ends, never past the end token |
| `PyMarkerParser.MarkerParser.ParseAnd` | internal/pypi/requirement.go:257-271 | The loop computes the conjunction and leaves the index where it ends, never past the end token |
| `PyMarkerParser.MarkerParser.ParseTerm` | internal/pypi/requirement.go:273-299 | A parenthesised marker or a comparison, with the index left behind it |
| `PyMarkerParser.MarkerParser.ParseOperand` | internal/pypi/requirement.go:301-315 | An operand's value and variable, or the error |
| `PyMarkerParser.MarkerParser.ParseOperator` | internal/pypi/requirement.go:317-345 | An operator of one or two tokens, or the error, without indexing past the end token |
| `PyMarkerParser.EvaluateMarker` | internal/pypi/requirement.go:225-239 | For a target, returns a value if and only if the text spells a marker tree of that meaning, and an error otherwise |
| `GoModules.CoordinateOrderTotal` | internal/gomod/selection.go:297-315 | Coordinates are linearly ordered, given that version comparison is a total preorder |
| `GoModules.EdgeOrderTotal` | internal/gomod/selection.go:200-210 | Edges, root first, are linearly ordered |
| `GoModules.SortCoordinates` | internal/gomod/selection.go:282-295 | Whatever order a set is visited in, sorting gives its one strictly sorted sequence |
| `GoModules.ValidateRequirements` | internal/gomod/selection.go:167-174 | Reports the first invalid requirement, and none exactly when all are valid |
| `GoLoadModes.LeastIsLeast` | internal/gomod/selection.go:222-249 | LeastModes is closed under the pruning rules and below every closed map above its input |
| `GoLoadModes.PropagationIsIncremental` | internal/gomod/selection.go:54-63 | Propagating from the modes of a smaller cache equals propagating once from the first modes on the larger one |
| `GoLoadModes.Promote` | internal/gomod/selection.go:251-257 | A mode changes exactly when it rises |
| `GoLoadModes.Visit` | internal/gomod/selection.go:226-246 | Visiting a module promotes only what the rules demand, and reports a change unless the module's rules already hold |
| `GoLoadModes.Propagate` | internal/gomod/selection.go:222-249 | The passes terminate at the least closed map |
| `GoSelect.SelectHigherVersion` | internal/gomod/selection.go:107-121 | Keeps the higher version, ties broken by text; fails exactly when a comparison meets an invalid version |
| `GoSelect.ComputeSelected` | internal/gomod/selection.go:86-105 | For each required path the highest version that the root or a loaded cached module requires; never an error on validated requirements |
| `GoSelect.MissingCoordinates` | internal/gomod/selection.go:123-133 | The selected coordinates that are not cached, sorted |
| `GoSelect.CheckFetched` | internal/gomod/selection.go:140-156 | The first offending entry in sorted order, if there is one |
| `GoSelect.AddFetchRound` | internal/gomod/selection.go:135-165 | Reports the first offence, else the first missing entry, else stores exactly the round |
| `GoSelect.AddSelectedEdges` | internal/gomod/selection.go:273-280 | One edge per requirement, to the selected version of its path |
| `GoSelect.BuildSelection` | internal/gomod/selection.go:176-212 | The sorted build list and the sorted edge set of the final cache |
| `GoSelect.StartRound` | internal/gomod/selection.go:62-69 | Incremental modes, selected versions and request are those of the cache alone |
| `GoSelect.RunRounds` | internal/gomod/selection.go:62-84 | The loop carries modes from round to round and still follows the rounds that the caches alone determine |
| `GoSelect.Select` | internal/gomod/selection.go:42-84 | Terminates over a finite registry; the result is the first input error, or that of the run its inputs determine, with exactly that run's requests seen by the fetcher; a selection lists the highest version of each path that pruning lets in, and exactly the edges between them |
| `GoRounds.NothingRequestedTwice` | internal/gomod/selection.go:62-84 | The requests of two rounds of a run are disjoint |
| `GoRounds.SelectedNeverLowered` | internal/gomod/selection.go:86-121 | From round to round no selected path is dropped and no selected version lowered |
| `GoRounds.CachedReached` | internal/gomod/selection.go:86-133 | Every cached coordinate is reached from the root by requirements of loaded cached modules |
| `GoRounds.SelectionSound` | internal/gomod/selection.go:176-212 | On success the build list is sorted with one version a path, each required, cached, reached from the root and at least as high as every requirement of its path; the edges, sorted root first, are exactly those between the root or a loaded module and a member it needs |
| `GoPruning.LoadedExactly` | internal/gomod/selection.go:54-63 | With an unpruned root every cached module is loaded; with a pruning one exactly those that the root requires or that a chain of requirements from an unpruned module reaches |
| `GoPruning.RequiredExactly` | internal/gomod/selection.go:86-105 | What is required is the root's requirements and those of the loaded modules, so said |
| `GoPruning.RequiredWithoutPruning` | internal/gomod/selection.go:86-105 | Without pruning at the root, what is required is the root's requirements and those of every cached module |
| `GoPruning.SelectionExact` | internal/gomod/selection.go:176-212 | On success the list is sorted with one version a path, each required, cached and reached, and none of a path required higher; the edges are exactly those that the root or a loaded member needs, root first and then by paths |
| `GoPruning.InputAccepted` | internal/gomod/selection.go:43-51 | An input is accepted exactly when its path, its directive and each requirement are valid |
| `GoPruning.ResponseAccepted` | internal/gomod/selection.go:135-165 | A response is accepted exactly when it answers the whole request and nothing else, under its own paths and with valid requirements |
| `GoPruning.CachedIsFetched` | internal/gomod/selection.go:135-165 | In every round each cached entry has the requirements and the pruning bit of metadata that the fetcher returned for it |
| `GoRounds.OrderDoesNotMatter` | internal/gomod/selection.go:86-121 | Permuting or repeating requirements, at the root or in any metadata, changes no round and no selection; an error stays the same error of the same owner and can only name another invalid requirement |
| `GoRounds.SameOffence` | internal/gomod/selection.go:146-155 | A fetched entry offends in the same way in any order of its requirements, and the error is equal exactly when no requirement is to blame or the same invalid one comes first |
| `GoRounds.NamedByOrder` | internal/gomod/selection.go:167-174 | Two invalid requirements are each the one reported in one of their two orders |
| `GoRounds.SameInputError` | internal/gomod/selection.go:43-51 | Reordering the root requirements changes no input error but for the invalid requirement it names |

## Left out

- Events, job_results, audit_results, audit_relationships and the workers table: written by the transactions but read by none of the modelled decisions.
- Get, Counts, Metrics and ListDLQ: queries that would only add easy members.
- SHA-256, UUIDs, the clock and backoff jitter: idempotency keys are injective by construction and child keys differ from client keys, identifiers and tokens are fresh, times are parameters of each step.
- The public API never sets a root or parent on a submission, and attempt limits are at least one after defaulting; both are conditions of the Submit step.
- Which rows SKIP LOCKED skips: a parameter of `Claim` and `ReclaimExpired`; the run theorems allow any choice.
- Handlers: given by a fixed dependency function, as the closure and the bound on work need; the safety theorems do not use it. Order among the children of one handler result is left open.
- The filter of List (type, status and text search) is a given predicate, and the cursor is the decoded position; its base64 text and the error for a malformed one are not modelled.
- JobProgress.WaitingRootsHaveWork: transactions are serial there, for every type of root; where transactions overlap the same holds exactly for the roots whose finalizers lock the root row, which are the update scans, by `RootLock.NoStrandingIffRootLocked`, and `RootLock.RaceStrands` shows an unlocked root left waiting.
- JobProgress.StepStrandsNone: one serial transaction, with the same limit.
- RootLock.LockedRunsStayGuarded: covers cancellation of roots only, because cancelling a single queued descendant does not finalize its root; deadlock detection is not modelled, a transaction may abort at any time instead.
- RootLock and WorkerPool are state machines over values, one action per atomic step of a transaction or goroutine, because the source's concurrency is in their interleaving.
- WorkerPool.DoneMeansDrained: external submissions come before Start; blocking on a full channel, and the durable pool mode with its polling loop, are not modelled.
- WorkerProcess.Process: context deadlines and timers appear as the events they make ready; the result body is not modelled.
- ViolationPaths.GenerateReport: the licence policy is a flag on each package, and the summary text is not modelled.
- Text of constraints and versions: models start from parsed clauses and versions, so the PEP 440 and PEP 508 regular expressions, constraint splitting and NormalizeConstraint are not part of this model.
- Marker text is a sequence of bytes; case folding of keywords is that of ASCII letters, which is all that the keywords contain.
- golang.org/x/mod: version comparison is a given total preorder, and path and version checks are given predicates.
- GoSelect.Select: the fetcher answers as a fixed function of the request, which loses nothing because no request is made twice; error values name the offending coordinate and requirement but not the message text; the registry is bounded by a finite set.
- Selection fetches only versions that are selected when a round starts, so nothing is claimed about the maximum over the whole module graph.
- The older store in internal/store/postgres/postgres.go, the HTTP API and clients, manifest parsing, metrics, Markdown output and the web interface.
