# Noctifab, verified

Noctifab drives a graph of tasks to completion with concurrent agent workers over one stored,
version-checked state. This project models the parts of it whose correctness is not visible in any
one function body, and proves what they promise over every run or every input.

Nothing here was executed: every statement is proved by the Dafny verifier about the model.
`dafny verify dfyconfig.toml` checks the whole project.

| group | modules | main results |
|---|---|---|
| shared state | `SharedState`, `RetryLoop`, `TokenLedger`, `Mailbox` | no update lost or doubled in any interleaving; token conservation; one reply per accepted command; when shutdown stalls |
| task graph | `TaskStatus`, `Graph`, `TaskSorter`, `StoryPlan`, `Dispatch`, `TaskAttempts`, `Deadlock` | sorting succeeds exactly on acyclic plans; Kahn and depth-first search agree; slots respected; attempts accounted exactly; when healing terminates |
| patches and edits | `Text`, `UnifiedDiff`, `PatchFormats`, `PatchApply`, `FileEdits`, `ConflictMarkers` | print/parse round trips for every accepted layout; undo restores; nearest-match placement; edits as single-region replacements; merges resolve to the incoming side |
| budgets and windows | `RateLimiter`, `Oscillation`, `FallbackLoop`, `DiffGuard` | every one-minute window budgeted; windowed memory decides like unbounded memory; the turn loop ends |
| cached inspections | `InspectionCache` | when a hit equals a fresh read; when a cached linter result is stale; which keys collide |

Form. Concurrent protocols are step systems: a state, the events that one participant can do
atomically, and a `Run` relation over arbitrary event lists, so a theorem about `Run` is about every
interleaving. Loops and objects that change in place are methods and classes with specifications;
pure code is functions. Update functions, hashes, clocks, agent replies, the scheduler's answers and
the sandbox's outcomes are parameters.

Where the code and its surroundings disagree, the model follows the code:

- `Scheduler.GetReadyTasks` also starts FAILED tasks that have retries left
  (pkg/services/scheduler.go:230-237), and neither a sandbox failure nor a failed workspace setup
  uses up a retry. The retry budget bounds the attempts of every schedule in which neither happens
  to a task with retries left (`TaskAttempts.RevivalsCountedIff`, `RetryBudgetBounds`); either alone
  removes the bound (`SandboxFailuresRetryForever`, `SetupFailuresRetryForever`).
- Shutdown of the mailbox waits for the callers that hold the lock, and nobody empties the queue
  meanwhile: it can finish without cancelling a caller if and only if they all fit in the queue
  (`Mailbox.ShutdownStallsIff`, `ShutdownCanStall`).
- The deadlock handler updates the first task with an id, so with repeated ids a rescue can be
  credited to the wrong task and repeat for ever; `Deadlock.ReactionProgress` says exactly when.
- The diff parser drops a last file that has no hunk; the round trip says exactly that
  (`UnifiedDiff.PrintParseRoundTrip`).
- The oscillation breaker reads its second reported state after trimming, so with a full window it
  reports the current failure (`Oscillation.Breaker.RecordFailure`).
- `apply_patch` and `write_files` do not invalidate the inspection cache: a hit is fresh if neither
  ran since its entry was stored (`InspectionCache.HitIsOfStoredWorld`), and only then where every
  write changes what the call sees (`HitFreshIff`, `UntrackedWriteGoesStale`).
- One dirty flag is shared by tests, linter and inspections, so a linter result taken before a write
  is served again after a later test run (`InspectionCache.LinterResultFreshIff`,
  `StaleLinterResultIsServed`).
- Argument keys are not injective: every call with two arguments shares its key with one that has a
  single argument (`InspectionCache.ManyArgumentsCollide`, `OneArgumentCollidesIff`).
- The diff guard forgets a digest by its turn, not by its place in the window; the two agree exactly
  on timely submissions (`DiffGuard.RunRightIff`), which increasing turns always are.

## Model

| member | source | states |
|---|---|---|
| SharedState.StepKeepsInv | pkg/services/orchestrator.go:407-447 | every load, mutate, save, conflict, sleep and abort of any caller keeps the protocol invariant: snapshots are replays of a prefix of the commit log |
| SharedState.StoredStateIsReplayOfCommits | pkg/services/orchestrator.go:386-449 | in every interleaving the stored state is the committed updates applied in commit order, the version counts them, and a caller is in the commit log once if it returned after saving and never otherwise |
| SharedState.ExhaustedWasOvertaken | pkg/services/orchestrator.go:422-431 | a caller that gives up on conflicts committed nothing and was overtaken by at least as many other commits as it had attempts, all after its call began |
| SharedState.EnoughAttemptsNeverExhaust | pkg/services/orchestrator.go:394-431 | a caller allowed as many attempts as there are callers never runs out of attempts |
| SharedState.RetryAttempts | pkg/services/orchestrator.go:394-407 | a configured limit allows one attempt more than it names, an unset one 21 |
| RetryLoop.Repository.Save | pkg/infrastructure/storage/sqlite_repository.go:114-145 | a save succeeds exactly at the loaded version, then bumps it; a conflict changes nothing |
| RetryLoop.Attempt | pkg/services/orchestrator.go:408-424 | one load-mutate-save round: it saves only if nobody committed in between, a conflict means somebody did, and a failure has a cause outside the protocol |
| RetryLoop.UpdateStateWithRetry | pkg/services/orchestrator.go:394-449 | the loop with interfering callers: nil exactly when its own update is the last commit, on top of everything the others left; an error commits nothing; giving up needs as many foreign commits as attempts; any other error has a cause |
| RetryLoop.SaveStateWithBackoff | pkg/services/command_channel_helpers.go:26-60 | the same account for the second loop, with its twenty attempts, its nil state and its sleep after the last attempt |
| TokenLedger.RecordTokenUsage | pkg/services/orchestrator_telemetry.go:23-34 | the update closure adds the tokens to the total and to the first task with the id, and touches nothing else |
| TokenLedger.ReplayConserves | pkg/services/orchestrator_telemetry.go:23-34 | replaying any commit log grows the total by all its usage and the per-task sum by exactly the usage charged to known tasks |
| TokenLedger.ReplayConservesEach | pkg/services/orchestrator_telemetry.go:23-34 | replaying any log grows each task's counter by exactly the usage whose id it is the first task to have |
| TokenLedger.TokensAreConserved | pkg/services/orchestrator_telemetry.go:14-35 | in every interleaving of recorders the total is the initial one plus the committed usage, every task's counter grows by exactly the committed usage charged to it, and a total that covers the tasks keeps covering them |
| Mailbox.StepKeepsInv | pkg/services/command_channel.go:49-139 | every step of the loop, the callers and the asynchronous senders keeps queue order, lock discipline and the reply accounting |
| Mailbox.ExecutionIsPrefixOfArrival | pkg/services/command_channel.go:49-92 | executed commands are a prefix of the enqueue order; the rest is in hand, drained or queued, in that order |
| Mailbox.OneReplyPerAcceptedCommand | pkg/services/command_channel.go:94-139 | an accepted synchronous command has exactly one reply once it left the queue and none before; its caller gets the result if and only if it was executed, the shutdown error if it was drained |
| Mailbox.DeliveryNeverBlocks | pkg/services/command_channel.go:99-105 | the loop can always deliver a result, whether or not the caller is still there, and the drain always its error |
| Mailbox.DrainLeavesNoCallerBehind | pkg/services/command_channel.go:51-69 | once the drain released the lock no synchronous command is queued and every accepted one has its reply |
| Mailbox.ShutdownStallsIff | pkg/services/command_channel.go:51-139 | once the context has ended, some continuation without a cancelled caller reaches the drain if and only if the queued commands and the callers holding the lock fit in the queue together; otherwise every such continuation waits for ever |
| Mailbox.ShutdownCanStall | pkg/services/command_channel.go:51-139 | a run that reaches such a stall, from every initial mailbox with one caller |
| Graph.OrderExcludesCycles | pkg/services/dag.go:41-67 | a graph whose nodes can be listed after their prerequisites has no cycle |
| Graph.StuckSetHasCycle | pkg/services/plan_integrity_validator.go:77-93 | a non-empty set of nodes, each with a prerequisite in the set, contains a cycle |
| TaskSorter.Search.Visit | pkg/services/dag.go:41-59 | the three-colour search keeps its colour and order invariant; a reported node lies on a cycle |
| TaskSorter.RegisterTitles | pkg/services/dag.go:11-19 | the title table, or the title of the first task that an earlier one with another id shares |
| TaskSorter.ResolveAll | pkg/services/dag.go:25-37 | each dependency becomes the id its title or id resolves to, in order; references to other stories are left out; otherwise the first one that resolves to nothing is reported |
| TaskSorter.ResolveMeans | pkg/services/dag.go:26-37 | where titles are unambiguous a dependency resolves to exactly the task whose title it is or, if no task has that title, whose id it is; it is refused exactly if there is none and it names no other story |
| TaskSorter.PlanEdgeMeans | pkg/services/dag.go:21-39 | the edges cycles are made of lead from a task to exactly the tasks its dependencies name |
| TaskSorter.ResolveAndSortTasks | pkg/services/dag.go:10-75 | duplicate title, unresolved dependency, cycle and success are told apart exactly (each if and only if), with the first title, the first dependency or a node of the cycle at fault; in the result every task stands after each task that one of its dependencies names by title or id and, for distinct ids, it is a permutation of the input |
| TaskSorter.SortedIsPermutation | pkg/services/dag.go:69-74 | for distinct ids the sorted tasks are the given tasks, each exactly once |
| StoryPlan.CountSortable | pkg/services/plan_integrity_validator.go:69-93 | Kahn's loop counts all stories if and only if the graph has no cycle, for any map iteration order and repeated edges |
| StoryPlan.ReadDependencies | pkg/services/plan_integrity_validator.go:51-67 | the in-degree and adjacency tables are those of the declared edges, or the first dependency that is missing or the story itself is reported |
| StoryPlan.DependenciesGoodMeans | pkg/services/plan_integrity_validator.go:51-67 | dependencies are accepted exactly if every non-blank one, normalized, is another story of the roadmap |
| StoryPlan.StoryEdgeMeans | pkg/services/plan_integrity_validator.go:51-67 | the edges cycles are made of lead from a story to exactly its non-blank dependencies |
| StoryPlan.ValidateStoryDependencies | pkg/services/plan_integrity_validator.go:34-96 | accepts exactly the roadmaps with non-empty unique ids, existing and non-self dependencies and no cycle; a refusal names the first entry at fault and whether its id is empty or taken, or its first bad dependency is itself or missing |
| StoryPlan.CrossCheck | pkg/services/plan_integrity_validator.go:34-96 | on the same roadmap Kahn's validator reports a cycle if and only if the depth-first sorter does |
| Dispatch.StepKeepsInv | pkg/services/orchestrator_dispatch.go:321-371 | every launch, finish, receive, refill, skip, stop and cancellation keeps the slot and completion invariant |
| Dispatch.SlotsRespected | pkg/services/orchestrator_dispatch.go:330-371 | in every interleaving live attempts never exceed the slots, no task id has two, and they are exactly what the loop has in flight |
| Dispatch.AllCompletionsReceived | pkg/services/orchestrator_dispatch.go:333-371 | no completion is received twice, and when the loop returns every launched attempt was received exactly once |
| Dispatch.ReceiverNeverStarves | pkg/services/orchestrator_dispatch.go:349-351 | while the loop waits there is an attempt that can deliver or finish |
| Dispatch.NothingLaunchedAfterCancellation | pkg/services/orchestrator_dispatch.go:349-370 | once the loop has seen the cancellation, no continuation of the run launches anything |
| Dispatch.MarkInFlight | pkg/services/orchestrator_dispatch.go:380-385 | the snapshot for the scheduler marks exactly the in-flight tasks as in progress |
| Dispatch.DropInFlight | pkg/services/orchestrator_dispatch.go:397-404 | keeps exactly the ready tasks that are not in flight, in order |
| Dispatch.DropIsExact | pkg/services/orchestrator_dispatch.go:397-404 | the filter keeps every task that is not in flight as often as it was ready and none that is in flight |
| Dispatch.FreeSlotsAnswer | pkg/services/orchestrator_dispatch.go:379-405 | the scheduler's answer fits the free slots and never repeats an in-flight task |
| Dispatch.FittingBatchLaunches | pkg/services/orchestrator_dispatch.go:333-345 | such an answer is launched whole and in order |
| TaskAttempts.Store.RecordOutcome | pkg/services/orchestrator_execute.go:316-394 | the stored task after an attempt: success exactly if it passed, pending with one more retry exactly after an ordinary failure with retries left, failed in every other case, with progress and log; a task that vanished is put back first, no other task changes, and the build is failing unless the attempt passed |
| TaskAttempts.AttemptOutcomes | pkg/services/orchestrator_execute.go:316-394 | the same case by case for the value of the update, for any stored task and any snapshot |
| TaskAttempts.RetriesStayWithin | pkg/services/orchestrator_execute.go:319-327 | a task that goes back to the queue has at most its effective maximum of retries |
| TaskAttempts.StepAccounts | pkg/services/orchestrator_execute.go:87-115 | the exact account of every event: a start costs one unit of retry credit, a revival (sandbox failure with retries left, or failed setup below the task's own limit) returns one and is counted, and an end for good forfeits what was left |
| TaskAttempts.AttemptsBounded | pkg/services/orchestrator_execute.go:316-394 | any schedule of concurrent tasks makes at most the sum of (remaining retries + 1) attempts, plus one per revival |
| TaskAttempts.RevivalsCountedIff | pkg/services/scheduler.go:228-237 | over every schedule the revival count stays the same if and only if no event meets the revival guard |
| TaskAttempts.RetryBudgetBounds | pkg/services/orchestrator_execute.go:316-394 | a schedule in which no event meets the guard makes at most the sum of (remaining retries + 1) attempts |
| TaskAttempts.SandboxFailuresRetryForever | pkg/services/scheduler.go:228-237 | for every n a schedule of starts and sandbox failures only that makes n attempts at one task |
| TaskAttempts.SetupFailuresRetryForever | pkg/services/orchestrator_channels.go:12-33 | for every n a schedule of starts and failed setups only that makes n attempts at one task |
| Deadlock.PruningIsExact | pkg/services/deadlock_unblocker.go:32-80 | a dependency disappears exactly if it is of a pending task on a failed, cross-story, file-disjoint task; nothing else changes |
| Deadlock.FailedByIdMeans | pkg/services/deadlock_unblocker.go:20-25 | the table holds exactly the ids of failed tasks, each with the last failed task that has it |
| Deadlock.PrunableMeans | pkg/services/deadlock_unblocker.go:42-68 | a dependency may go exactly if the last failed task it names is of another story, both have target files and no file of one is, trimmed and without case, a file of the other |
| Deadlock.AbortMeans | pkg/services/orchestrator_dispatch_deadlock.go:105-117 | an abort fails exactly the tasks that had neither succeeded nor failed, with the message, and changes nothing else |
| Deadlock.RescueIsRecorded | pkg/services/orchestrator_dispatch_deadlock.go:36-87 | a successful rescue of the first unmarked failed task is recorded as success on the first task with its id and changes nothing else; a failed one leaves the marker there |
| Deadlock.PruningKeepsOrders | pkg/services/deadlock_unblocker.go:32-80 | every order that respected the dependencies before still does |
| Deadlock.ReactionProgress | pkg/services/orchestrator_dispatch_deadlock.go:16-122 | a call on a stalled graph resumes or leaves every task succeeded or failed, and changes nothing otherwise; a resumption strictly decreases unmarked failures plus dependency edges if and only if its rescue was not credited to an earlier task with the same id |
| Deadlock.DistinctIdsNeverMiss | pkg/services/orchestrator_dispatch_deadlock.go:60-72 | with distinct ids no rescue is credited elsewhere, and resuming keeps ids distinct |
| Deadlock.MissedRescueRepeats | pkg/services/orchestrator_dispatch_deadlock.go:60-72 | with a repeated id a successful rescue can leave the state as it was, so the call repeats for ever |
| Deadlock.HealingBounded | pkg/services/orchestrator_dispatch_deadlock.go:16-122 | consecutive calls resume at most as often as there were rescuable tasks and edges, plus the rescues credited elsewhere |
| Deadlock.HealingTerminates | pkg/services/orchestrator_dispatch_deadlock.go:16-122 | with distinct ids consecutive calls resume at most as often as there were rescuable tasks and edges |
| Deadlock.FilesCollide | pkg/services/deadlock_unblocker.go:50-61 | the nested loops find a common target file if and only if there is one |
| Deadlock.FilterDeps | pkg/services/deadlock_unblocker.go:39-70 | keeps exactly the dependencies that may not be pruned, in order, and says whether any was dropped |
| Deadlock.PruneEach | pkg/services/deadlock_unblocker.go:33-78 | prunes every pending task and counts the changed ones; a count of zero means nothing changed |
| Deadlock.Store.UnblockIndependentTasks | pkg/services/deadlock_unblocker.go:15-83 | the stored tasks become the pruned ones, by the failed tasks of the loaded state, or stay as they are |
| Deadlock.Store.HandleDeadlockOrRescue | pkg/services/orchestrator_dispatch_deadlock.go:16-122 | the rescue, marking, pruning and abort loops together do exactly what the reaction says, for any task list |
| UnifiedDiff.HeaderRoundTrip | pkg/services/apply_patch_tool.go:16 | a printed hunk header parses back to the same starts and counts, an omitted count being one |
| UnifiedDiff.AtoiDecimal | pkg/services/apply_patch_tool.go:236-245 | numbers are read as written, up to the largest integer |
| UnifiedDiff.ParseUnifiedDiff | pkg/services/apply_patch_tool.go:147-308 | the imperative parser computes the fold of the line machine over the lines, closing what is open at the end; what the machine does to each kind of text is stated by the round trips and laws below |
| UnifiedDiff.PrintParseRoundTrip | pkg/services/apply_patch_tool.go:147-308 | printing any list of well-formed file diffs and parsing the text gives exactly the same files, hunks, counts and lines if and only if the last file has a hunk; otherwise all but that file |
| UnifiedDiff.LayoutRoundTrip | pkg/services/apply_patch_tool.go:147-308 | the round trip for any layout whose headings the parser reads |
| PatchFormats.GitRoundTrip | pkg/services/apply_patch_tool.go:188-221 | Git's format reads back to the same files, whatever the `diff --git` lines say and whatever mode or index lines follow them |
| PatchFormats.MarkedRoundTrip | pkg/services/apply_patch_tool.go:163-186 | files headed by `*** Update File:`, `*** Add File:`, `*** File:` or `Index:` read back with the cleaned name as both paths |
| PatchFormats.HeadlessHunksReadAsFallback | pkg/services/apply_patch_tool.go:223-254 | hunks that no heading precedes belong to the fallback path |
| PatchFormats.NewPathAloneIsAHeading | pkg/services/apply_patch_tool.go:215-221 | a `+++ ` line alone opens a file with an empty old path |
| PatchFormats.EnvelopeIgnored | pkg/services/apply_patch_tool.go:159-161 | `*** Begin Patch` and `*** End Patch` lines change nothing anywhere in a patch |
| PatchFormats.NoNewlineNoteIgnored | pkg/services/apply_patch_tool.go:277-281 | nor do lines such as `\ No newline at end of file` |
| PatchFormats.BareHeaderReadsAsZeros | pkg/services/apply_patch_tool.go:256-275 | an `@@` line without readable numbers reads, anywhere, as a header with all numbers zero |
| PatchFormats.UnsignedLineIsContext | pkg/services/apply_patch_tool.go:282-293 | a line without a sign reads, anywhere, as that line with a space in front |
| PatchFormats.WindowsTextReadsAlike | pkg/services/apply_patch_tool.go:148-149 | Windows line ends make no difference |
| PatchApply.FindHunkOffset | pkg/services/apply_patch_tool.go:361-419 | -1 exactly when the block is nowhere even up to white space; an exact match whenever there is one; the nearest within 15 (25 trimmed) lines of the target, earlier on ties, else the first |
| PatchApply.PlacementUnique | pkg/services/apply_patch_tool.go:361-419 | these rules determine the position |
| PatchApply.ApplyFileDiff | pkg/services/apply_patch_tool.go:310-359 | every hunk is placed by those rules in the lines the earlier ones left, and the result is all of them applied; failure exactly at the first hunk that is nowhere in a non-empty file |
| PatchApply.ResultUnique | pkg/services/apply_patch_tool.go:310-359 | the lines and the hunks alone determine every position and the outcome: any two results that follow the rules are equal |
| PatchApply.UndoOne | pkg/services/apply_patch_tool.go:332-355 | the inverse of an exactly matched hunk matches exactly at the same line and restores the lines |
| PatchApply.UndoRestores | pkg/services/apply_patch_tool.go:310-359 | if every hunk matched exactly, the inverse hunks in reverse order at the same lines restore the file |
| PatchApply.MatchedHunkIsLocal | pkg/services/apply_patch_tool.go:332-355 | a matched hunk changes the line count by additions minus deletions and leaves all lines before and after its block |
| PatchApply.HunkLinesPlaced | pkg/services/apply_patch_tool.go:313-355 | every context or deleted line of a matched hunk is matched at its place in the file, and every context or added line stands at its place in the result |
| FileEdits.MatchTrimmedLines | pkg/services/edit_file_helper.go:43-76 | finds the block of lines equal up to white space if it is unique, and reports failure only if there is no unique one |
| FileEdits.MatchNormalizedLines | pkg/services/edit_file_helper.go:79-130 | the same for blocks equal up to white space and blank lines, through the table of non-blank lines |
| FileEdits.SolidTextMeans | pkg/services/edit_file_helper.go:79-130 | comparing the tables of non-blank lines is comparing up to blank lines and surrounding white space |
| FileEdits.LineSpliceIsReplacement | pkg/services/edit_file_helper.go:207-261 | replacing whole lines replaces exactly their joined text in the file |
| FileEdits.SliceReplacement | pkg/services/edit_file_helper.go:154-189 | replacing inside a slice of lines replaces one occurrence inside the whole text |
| FileEdits.ReindentationMeans | pkg/services/edit_file_helper.go:212-220 | line by line: the leading spaces and tabs of the first replaced line go in front of every line that is not blank, unless the replacement starts with its own or that line has none or nothing else |
| FileEdits.BlockEditInserts | pkg/services/edit_file_helper.go:207-261 | what any block edit puts in, in terms of the file and the edit alone |
| FileEdits.RangeMeans | pkg/services/edit_file_helper.go:142-152 | the lines in the range are those of the file that the given limits allow |
| FileEdits.WindowMeans | pkg/services/edit_file_helper.go:169-178 | the lines in the window are those at most 15 lines from the range |
| FileEdits.WindowsEditsAlike | pkg/services/edit_file_helper.go:135-140 | edits with Windows line ends are read as with Unix ones |
| FileEdits.ApplyEdit | pkg/services/edit_file_helper.go:142-280 | one edit replaces one region: that of the first matcher of the cascade that has one (in range, in window, counted once as it is or trimmed, unique block, loose block), and leaves single lines; it fails only if none has |
| FileEdits.FindBlock | pkg/services/edit_file_helper.go:207-261 | the last three matchers, in the window, in the file and up to blank lines: the first that has a unique block gives its lines, and none is found only if no matcher has one |
| FileEdits.RegionUnique | pkg/services/edit_file_helper.go:142-280 | the cascade leaves no choice: an edit has at most one region, and a refused one has none |
| FileEdits.ApplyFileEdits | pkg/services/edit_file_helper.go:134-283 | a successful edit list is a composition of such replacements, one per edit, starting from the text with Unix newlines; a failing one stops at the first edit without a region |
| FileEdits.EditsUnique | pkg/services/edit_file_helper.go:134-283 | the content and the edits determine every region, every intermediate list of lines and the outcome |
| ConflictMarkers.ContainsConflictMarkers | pkg/services/orchestrator_execute_workspace.go:167-179 | true exactly if some line is a marker line |
| ConflictMarkers.CleanConflictMarkers | pkg/services/orchestrator_execute_workspace.go:135-164 | the loop keeps the lines outside our side and the base, and drops the markers |
| ConflictMarkers.KindMeans | pkg/services/orchestrator_execute_workspace.go:140-160 | a line is a marker exactly if it has, after white space, seven times the same one of the four marker characters |
| ConflictMarkers.SurvivorsMean | pkg/services/orchestrator_execute_workspace.go:135-164 | in any text, balanced or not, a line is kept exactly if it is no marker and the last marker before it does not open our side or the base |
| ConflictMarkers.CleaningRemovesExactlyMarkedText | pkg/services/orchestrator_execute_workspace.go:135-179 | the result of cleaning any text has no markers, marker-free text is unchanged, and cleaning is idempotent |
| ConflictMarkers.MergeResolvesToIncoming | pkg/services/orchestrator_execute_workspace.go:135-164 | any rendering of plain and two-way or diff3 conflict segments cleans to the plain text plus the incoming side |
| RateLimiter.Limiter.Compact | pkg/services/product_manager_tpm.go:55-64 | compaction in place leaves exactly the entries after the cutoff, in order, and their sum |
| RateLimiter.Limiter.TryGrant | pkg/services/product_manager_tpm.go:51-82 | one pass under the mutex grants exactly when the request fits or nothing is retained, and otherwise asks for the time until the first entry leaves the window |
| RateLimiter.Limiter.WaitIfBudgetExceeded | pkg/services/product_manager_tpm.go:49-94 | a lone caller waits at most once per retained entry, is granted unless cancelled, and its grant is the last entry |
| RateLimiter.EveryWindowBudgeted | pkg/services/product_manager_tpm.go:49-94 | over every run of any callers every one-minute window holds grants of at most the limit, or exactly one grant |
| RateLimiter.GrantedIff | pkg/services/product_manager_tpm.go:66-74 | in every run a request is granted exactly if the tokens granted in the minute before leave room for it or there were none |
| RateLimiter.EntriesAreTheWindow | pkg/services/product_manager_tpm.go:55-64 | the list in memory is exactly the grants still in the window |
| Oscillation.PeriodIsLeast | pkg/services/oscillation_circuit_breaker.go:178-199 | the period is the least q in 2..4 such that q failures ago the hash was the same and some failure since had another, or 0 |
| Oscillation.FindPeriod | pkg/services/oscillation_circuit_breaker.go:178-199 | the nested loops find that period |
| Oscillation.SameInWindow | pkg/services/oscillation_circuit_breaker.go:201-204 | the last twelve failures give the same period as the whole history |
| Oscillation.Breaker.RecordFailure | pkg/services/oscillation_circuit_breaker.go:168-240 | the windowed breaker gives the action and period that one with unbounded memory gives, and the states it reports |
| Oscillation.ReconcileOnce | pkg/services/oscillation_circuit_breaker.go:206-235 | any stream of failures is reconciled at most once, and not at all exactly if nothing was detected |
| Oscillation.ReconcileThenTrip | pkg/services/oscillation_circuit_breaker.go:206-235 | every detected oscillation after the first trips |
| Oscillation.TripNeedsReconcile | pkg/services/oscillation_circuit_breaker.go:206-235 | a trip is always preceded by a reconciliation |
| Oscillation.ConstantStreamContinues | pkg/services/oscillation_circuit_breaker.go:182-199 | failing in the same way for ever never counts as oscillation |
| FallbackLoop.EnforceMinTurns | pkg/services/adaptive_turn_manager.go:26-32 | the configured turns or the minimum, whichever is larger |
| FallbackLoop.RefundedMeans | pkg/services/orchestrator_fallback.go:203-213 | a reply costs no turn exactly if it changes nothing and one of the two before it did (or there are none) |
| FallbackLoop.IterationsBounded | pkg/services/orchestrator_fallback.go:120-247 | any replies before each of which a turn is left are at most three per turn there can ever be |
| FallbackLoop.RunTurns | pkg/services/orchestrator_fallback.go:120-247 | over every sequence of replies at most 3 * (T + E) iterations despite refunds and extensions; it goes on exactly while a turn is left, ends with the first passing reply or the breaker's trip; the verdicts are those of an unbounded breaker on exactly the failures that cost a turn, and extensions count the replies that show progress, up to the limit; one reconciliation at most, a trip only after it, the second oscillation ends the loop |
| DiffGuard.Guard.RecordAndCheck | pkg/services/diff_oscillation_guard.go:49-78 | the map, the list and the answer after a call, in place, are those of the record step |
| DiffGuard.AcceptKeepsAgreementIff | pkg/services/diff_oscillation_guard.go:63-75 | a new digest leaves map, list and history in agreement if and only if the submission leaving the window is at least maxWindow turns old (or none leaves) |
| DiffGuard.RunRightIff | pkg/services/diff_oscillation_guard.go:49-78 | over every run, whatever its turns, the guard flags and remembers as the unbounded history does if and only if every submission is timely: a remembered digest does not come back in its own turn, and a new one meets the condition above |
| DiffGuard.MemoryIsRememberedHistory | pkg/services/diff_oscillation_guard.go:49-78 | after any timely run the map and the list hold exactly the last maxWindow accepted digests with their turns |
| DiffGuard.TimelyRunAnswers | pkg/services/diff_oscillation_guard.go:49-78 | after a timely run a digest is flagged with turn t if and only if it is among the last maxWindow accepted ones with that turn and t is not the present turn; memory never exceeds the window |
| DiffGuard.GuardAgreesWithHistory | pkg/services/diff_oscillation_guard.go:49-78 | increasing turns are timely, so there a digest is flagged with turn t if and only if it is among the last maxWindow accepted ones (all when unbounded) with that turn |
| DiffGuard.UntimelyRemembersTooMuch | pkg/services/diff_oscillation_guard.go:66-75 | whenever the condition fails, the digest that left the window is flagged in every later turn but its own |
| DiffGuard.RepeatedTurnRemembersTooMuch | pkg/services/diff_oscillation_guard.go:66-75 | a repeated turn leaves a digest in the map that the window dropped, and it is flagged |
| InspectionCache.KeyInjective | pkg/services/diagnostic_cache.go:89-103 | calls with at most one argument, and calls without ampersands, have the same key only if they are the same call |
| InspectionCache.ManyArgumentsCollide | pkg/services/diagnostic_cache.go:89-103 | every call with two or more arguments shares its key with a call that has one |
| InspectionCache.OneArgumentCollidesIff | pkg/services/diagnostic_cache.go:89-103 | a call with one argument shares its key with one that has more if and only if its value hides a later argument between an ampersand and an equals sign |
| InspectionCache.TaskDiagnosticCache.OnToolExecuted | pkg/services/diagnostic_cache.go:106-140 | what each tool does to the entries, the results and the dirty flag |
| InspectionCache.TaskDiagnosticCache.SeedFileContent | pkg/services/diagnostic_cache.go:54-66 | seeding stores the content under the read call of its path |
| InspectionCache.TaskDiagnosticCache.TryGetCachedResult | pkg/services/diagnostic_cache.go:143-154 | serves the last test or linter result unless the flag is dirty |
| InspectionCache.TaskDiagnosticCache.TryGetCachedInspection | pkg/services/diagnostic_cache.go:158-184 | the answer and the entries left, with the checksum comparison |
| InspectionCache.StepKeepsCoherence | pkg/services/diagnostic_cache.go:106-184 | every tool run, seed and lookup keeps each entry equal to a fresh run in the present workspace, or to seeded content |
| InspectionCache.HitsAreFresh | pkg/services/diagnostic_cache.go:106-184 | in every run whose workspace changes only through the four tracked mutators a hit carries the output of a fresh call; a seeded hit that was compared with the disk has the disk's checksum |
| InspectionCache.HitIsOfStoredWorld | pkg/services/diagnostic_cache.go:106-184 | whatever tools change the workspace, a hit carries the output of the call where its entry was stored, and the present output if no untracked mutator ran since |
| InspectionCache.HitFreshIff | pkg/services/diagnostic_cache.go:106-184 | where mutators change the workspace and the call tells workspaces apart, a hit is the present output if and only if no untracked mutator ran since its entry was stored |
| InspectionCache.RepeatIsServed | pkg/services/diagnostic_cache.go:129-184 | a successful inspection is served after any harmless events unless the disk disagrees, and is a miss exactly then |
| InspectionCache.UntrackedWriteGoesStale | pkg/services/diagnostic_cache.go:111-184 | after any run, an inspection followed by `apply_patch` or `write_files` is served from the cache; only `read_file` misses, when the file could be read and differs |
| InspectionCache.LinterResultFresh | pkg/services/diagnostic_cache.go:119-154 | over any workspace, the linter result served is that of the workspace the linter last ran in, and the present one if no mutator ran since |
| InspectionCache.LinterResultFreshIff | pkg/services/diagnostic_cache.go:119-154 | where mutators change the workspace and workspaces lint differently, a cached linter result is the present one if and only if no mutator ran since the linter did |
| InspectionCache.StaleLinterResultIsServed | pkg/services/diagnostic_cache.go:119-154 | after any run with a linter result, a write followed by a test run serves the old result |
| InspectionCache.ServedMeans | pkg/services/diagnostic_cache.go:106-184 | over every run, a diagnostic tool is served the result of its own last run, error included; after a tracked write and before anything that clears the flag nothing is served at all |
| InspectionCache.SeedIsServed | pkg/services/diagnostic_cache.go:54-66 | content just seeded is reported as known unless the file on disk differs |
| Text.SplitJoin | pkg/services/apply_patch_tool.go:147-150 | splitting a joined, non-empty list of lines gives the list back |
| Text.JoinSplit | pkg/services/edit_file_helper.go:134-141 | joining the lines of a text gives the text back |
| Text.TrimUnique | pkg/services/edit_file_helper.go:199-205 | trimming leaves exactly what stands between the white space at both ends |
| Text.UnixOfDos | pkg/services/edit_file_helper.go:135-140 | normalizing newlines turns every carriage return and newline into a newline and changes nothing else |
| Text.CountsOnceIff | pkg/services/edit_file_helper.go:191-205 | a count of one means that the first occurrence is the only one, apart from those that overlap it |

## Left out

- Agents, prompts, Git, Docker, the file system, HTTP: replaced by arbitrary outcomes given as parameters or events.
- Backoff durations and jitter: only attempt counts are modelled; time exists only in the rate limiter, as integers that never go back.
- The storage layer: only its version check is modelled (`RetryLoop.Repository.Save`); rows, transactions and migrations are not.
- The mailbox route of updateStateWithRetry: a running mailbox executes the update as a command, so the direct loop and the mailbox are two separate models.
- Nil repository: `updateStateWithRetry` returns nil at once; no caller of the model has it.
- SaveStateWithBackoff in the step system: its sleep after the last attempt is folded into the exhausted outcome; `RetryLoop.SaveStateWithBackoff` has it.
- PopAll, more than one Start and the wakeup channel of the mailbox: the first answers no waiting caller, so the reply theorem would not hold with it.
- Cancellation during direct execution of a command by a caller of a stopped mailbox: the command is one step.
- The scheduler's selection (dependencies, locks, priorities): `Dispatch.SchedulerAnswer` states what is relied on.
- Pre-warming of upcoming tasks, agent registration, timestamps, action logs and metrics: they do not feed back into the modelled decisions.
- Failed persistence of an outcome, task splits and operator commands in `TaskAttempts`: attempts are counted for a fixed task list whose saves succeed.
- Conflicting saves during deadlock handling: `Deadlock` takes the loaded state to be the stored one.
- isTaskReference, ExtractStoryID, ToUpper, EqualFold, cleanDiffPath: function parameters (`external`, `inStory`, `norm`, `fold`, `clean`).
- Text is a sequence of Unicode scalars, not of bytes, and integers are unbounded except where a hunk header number saturates.
- ApplyPatchTool.Execute around the parser (paths, file creation, deletion): only parsing and hunk application are modelled.
- Error texts: failures carry what is needed to say which case it is.
- Hashes, fingerprints and log normalization: abstract strings or a function parameter.
- Cache argument values: given already rendered, as a list in name order.
- Test counts read from logs in the fallback loop: part of each reply.
- Generator and tester loops, quality and acceptance gates, pattern-based validators: external judgements without a specification beyond their own patterns.
