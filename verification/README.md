# A verified model of the story engine

The story engine plays turn-based stories: it plans a turn, calls a language model, and commits the turn to a
store. This project models the parts of it that have to stay consistent over whole runs, and a few dense text
loops, and proves properties of them with Dafny 4.11. `dafny verify dfyconfig.toml` checks everything.

| modules | what they model |
|---|---|
| `RateGate` | the sliding-window rate gate in front of the language model |
| `StoryKnowledge`, `StoryStore`, `StoryEffects` | knowledge changes and the in-memory story store, and what commits to it write |
| `PackStore`, `PackHistory`, `StoryLifecycle`, `StoryOverlaps` | the pack store, and creating and removing stories across both stores, one call at a time and interleaved |
| `KnowledgeRows`, `NarrativeNodes`, `StoryCommits`, `StoryCommitRuns`, `StoryReaders`, `StoryGrowth`, `RowHistory`, `CommitEffects`, `CommitAcceptance` | the SQL story store as one transaction over rows, what it accepts and writes, runs of it, and reading it back |
| `TurnTasks`, `TaskStarts`, `TaskHistory` | the turn-task supervisor as a step machine, its history, and what can still start in it |
| `SseLanes`, `LaneTraffic`, `SseLines` | the two-lane event sink with its merged stream, and line extraction from a byte stream |
| `Utf8`, `Redactor`, `TraceMasker`, `SecretTokens`, `MaskedText`, `MaskEdits`, `MaskSplits`, `MaskPipeline` | masking secrets in trace texts, in place: each loop, and all of them together |
| `KnowledgeIds`, `RoleIds` | canonical ids, role ids and the planner's target index |
| `Ordering`, `KnowledgeRequests`, `Thinking`, `RetrievalPlans`, `RetrievalRoutes`, `PlanAudience`, `PlanContents`, `ComposedIndex`, `SnapshotKnowledge` | building a retrieval plan, and what it guarantees to the retrieval stage |
| `Wrappers`, `Widths` | `Option` and `Result`; integer widths and bytes |

Code that updates state is modelled by classes and loops, each proved against a specification function; code
that computes a value is modelled by functions. Protocols are step machines whose theorems range over every run.
Clock readings, cancellation and scheduling are parameters or nondeterministic steps.

Some statements one might expect are false of the code. Each has a lemma with a run or an input that shows it,
and a theorem that says exactly when it holds, or what holds instead:

- the rate gate does not bound all traffic: `RateGate.OversizedRequestBreaksBound`, `RateGate.AllTrafficBoundedIff`;
- a remove issued during a create can lose a pack: `StoryOverlaps.OverlapIsReachable`,
  `StoryOverlaps.RemoveDuringCreateLosesPackIff`;
- pack holders need not be stored stories at rest: `StoryLifecycle.AbandonedCreateLeavesPack`,
  `StoryLifecycle.EveryStoredStoryHoldsItsPack`;
- cancelling the service does not stop queued tasks from starting: `TurnTasks.TaskCanStartAfterCancellation`,
  `TaskStarts.StartsAfterCancellationIff`;
- a shutdown call that returns does not mean that nothing runs: `TurnTasks.SecondShutdownReturnsEarly`,
  `TaskStarts.EarlyReturnIsQuietIff`, `TurnTasks.AnswerMeansNothingRuns`;
- events of different lanes are not ordered: `SseLanes.TerminalCanOvertakeProgress`, `SseLanes.OvertakenIff`;
- a small line buffer makes chunking matter: `SseLines.ChunkingCanMatter`, `SseLines.ChunkingDoesNotMatter`;
- the retrieval-hint column does not follow updates: `RowHistory.HintColumnCanGoStale`,
  `RowHistory.HintColumnIsLastInserted`;
- a persisted story that outgrows the segment limit cannot be loaded any more:
  `StoryGrowth.NewStoryCanOutgrowItsLimit`, `StoryReaders.LoadContinuity`.

## Model

| member | source | states |
|---|---|---|
| `RateGate.RecordedTrafficBounded` | crates/aise/src/llm/limiter.rs:93-108 | In every run with a non-decreasing clock and at every instant t, the recorded admissions in (t - 60 s, t] add up to at most the limit |
| `RateGate.AllTrafficBoundedIff` | crates/aise/src/llm/limiter.rs:93-110 | All admitted traffic, recorded or not, stays within the limit at every instant if and only if no request larger than the limit ever meets an empty deque, the guard of the branch that lets it pass unrecorded |
| `RateGate.FittingRequestsKeepAllTrafficBounded` | crates/aise/src/llm/limiter.rs:38-53 | Requests no larger than the limit (one request at a time, as the requests-per-minute gate asks for) keep all traffic bounded |
| `RateGate.OversizedRequestBreaksBound` | crates/aise/src/llm/limiter.rs:102-110 | A single request larger than the limit on an empty deque passes unrecorded and breaks the bound for all traffic |
| `RateGate.RunKeepsInv` | crates/aise/src/llm/limiter.rs:93-108 | After every run the deque is the tail of the recorded history, all that was evicted is expired, and every stretch shorter than the window is within the limit |
| `RateGate.Gate.Pass` | crates/aise/src/llm/limiter.rs:96-112 | One locked pass in place: the deque loses its expired front, and the request is recorded, let through or blocked as `RateGate.NextIsRecordedIff` says of every run |
| `RateGate.Acquire` | crates/aise/src/llm/limiter.rs:93-127 | The waiting loop is admitted exactly on its last round, after being blocked and waiting on in every earlier one; a cancelled or timed-out call ends on the round that says so and has changed the gate by evictions only |
| `RateGate.NextIsRecordedIff` | crates/aise/src/llm/limiter.rs:96-112 | After every run with a non-decreasing clock the next request is recorded if and only if it fits the limit beside everything recorded in the last minute; it is blocked exactly if it does not fit and something was recorded in that minute |
| `RateGate.NextOfRun` | crates/aise/src/llm/limiter.rs:96-112 | The run then goes on with that request added to what was recorded, or only let through, or neither |
| `RateGate.WaitIsExact` | crates/aise/src/llm/limiter.rs:102-126 | The returned wait is positive, and the oldest entry is evicted at an instant if and only if the wait is over by then |
| `RateGate.BlockedUntilWaitIsOver` | crates/aise/src/llm/limiter.rs:102-126 | Whoever retries before the returned wait is over finds the oldest entry still there, whatever passed in between |
| `RateGate.EvictDropsExpiredFront` | crates/aise/src/llm/limiter.rs:97-101 | Eviction removes exactly a prefix of expired entries, and what it leaves first is not expired |
| `StoryStore.RunIsReplay` | crates/aise-core/src/persistence/story_store_mem.rs:235-365 | After any run of creates, commits and deletes, every stored context is the replay, in turn order, of its committed turns over its creation context, shown through the recent-turn window; what a replayed turn writes is stated in `StoryEffects.StoredStoryIsLastWritten` |
| `StoryStore.WindowIsExact` | crates/aise-core/src/persistence/story_store_mem.rs:40-57 | recent_turns holds exactly the committed turns numbered max(1, n-max_recent+1, covered_through+1) to n, in order and as committed |
| `StoryStore.CommittedTurnsAreOneToOne` | crates/aise-core/src/persistence/story_store_mem.rs:308-365 | Idempotency keys and turn numbers 1..n correspond one to one |
| `StoryStore.LogIsUnique` | crates/aise-core/src/persistence/story_store_mem.rs:308-365 | The committed map determines the order of the turns |
| `StoryStore.AttemptKeepsReplay` | crates/aise-core/src/persistence/story_store_mem.rs:308-365 | Every commit attempt, accepted, repeated or refused, keeps the story a replay of its committed turns |
| `StoryStore.AcceptedExtendsReplay` | crates/aise-core/src/persistence/story_store_mem.rs:333-364 | An accepted commit extends the replayed log by exactly that commit, whose effect is stated in `StoryEffects.AttemptHasEffect` |
| `StoryStore.NothingCommittedIsLost` | crates/aise-core/src/persistence/story_store_mem.rs:151-218 | Over any attempts, facts and memories once present stay with their id and origin, and committed turns stay |
| `StoryStore.ClosedStoryIsFrozen` | crates/aise-core/src/persistence/story_store_mem.rs:308-330 | Once a story is no longer active no attempt changes it |
| `StoryStore.Store.Commit` | crates/aise-core/src/persistence/story_store_mem.rs:308-365 | A known key returns the stored commit; a new one is stored exactly when it is acceptable, with the effect of `StoryEffects.AttemptHasEffect`; any failure changes nothing |
| `StoryStore.Store.Create` | crates/aise-core/src/persistence/story_store_mem.rs:235-274 | Creates exactly when the roles are valid and the id is free, and changes nothing otherwise |
| `StoryStore.Store.Delete` | crates/aise-core/src/persistence/story_store_mem.rs:276-280 | Removes the one story and reports a missing one |
| `StoryStore.Check` | crates/aise-core/src/persistence/story_store_mem.rs:315-343 | The checks before a change is applied pass exactly when the story is active, the turn number is next, the summary boundary moves forward and within the turn, and the change fits |
| `StoryStore.AdjustRecentTurns` | crates/aise-core/src/persistence/story_store_mem.rs:40-57 | The two popping loops compute the last max_recent turns beyond the summary |
| `StoryStore.TrimIsWindow` | crates/aise-core/src/persistence/story_store_mem.rs:40-57 | Trimming a window plus one turn gives the window of all turns so far, because both bounds only move forward |
| `StoryEffects.AttemptHasEffect` | crates/aise-core/src/persistence/story_store_mem.rs:333-365 | After an accepted commit every fact, rumor and memory operation has taken effect on its own entry, with its body and turn, every untouched entry is as before, and narrative, summary and life cycle are the replaced value exactly when replaced |
| `StoryEffects.StoredStoryIsLastWritten` | crates/aise-core/src/persistence/story_store_mem.rs:235-365 | After any run, every fact, rumor and memory of a stored story has the body of the last committed operation on it and the origin of the turn that added it; narrative, summary and life cycle are those last replaced, or those of the creation |
| `StoryEffects.CreationHasEffect` | crates/aise-core/src/persistence/story_store_mem.rs:235-274 | A created story holds what its specification says, and no other story changes |
| `StoryKnowledge.ValidateOps` | crates/aise-core/src/persistence/story_store_mem.rs:59-112 | Validation accepts exactly the operations with distinct ids whose adds are new and whose updates and removes have a target, and names the first fault |
| `StoryKnowledge.ValidateMemoryOps` | crates/aise-core/src/persistence/story_store_mem.rs:113-149 | The same for memories, keyed by role and id, with unknown roles refused; the fault named is that of the first operation that does not fit |
| `StoryKnowledge.EveryOpTakesEffect` | crates/aise-core/src/persistence/story_store_mem.rs:151-194 | Every operation of a change with distinct ids takes full effect, and nothing else changes |
| `StoryKnowledge.EveryMemoryOpTakesEffect` | crates/aise-core/src/persistence/story_store_mem.rs:195-218 | The same for memories; roles and their profiles stay |
| `StoryKnowledge.OrderDoesNotMatter` | crates/aise-core/src/persistence/story_store_mem.rs:151-194 | A validated change gives the same table for every permutation of its operations |
| `StoryKnowledge.MemoryOrderDoesNotMatter` | crates/aise-core/src/persistence/story_store_mem.rs:195-218 | A validated memory change gives the same roles for every permutation |
| `StoryKnowledge.FitsInAnyOrder` | crates/aise-core/src/persistence/story_store_mem.rs:59-112 | Validation does not depend on the order of the operations |
| `StoryKnowledge.MemoriesFitInAnyOrder` | crates/aise-core/src/persistence/story_store_mem.rs:113-149 | Nor does validation of memory operations |
| `StoryKnowledge.GrowingKeepsEntries` | crates/aise-core/src/persistence/story_store_mem.rs:151-194 | Facts, which are only added and updated, are never lost and keep their origin |
| `StoryKnowledge.GrowingKeepsMemories` | crates/aise-core/src/persistence/story_store_mem.rs:195-218 | Neither are memories |
| `StoryKnowledge.ApplyAll` | crates/aise-core/src/persistence/story_store_mem.rs:151-194 | The applying loop computes the operations one after the other |
| `StoryKnowledge.ApplyAllMemories` | crates/aise-core/src/persistence/story_store_mem.rs:195-218 | So does the loop over memories |
| `PackStore.RetainKeepsIndex` | crates/aise-core/src/persistence/pack_store_mem.rs:49-84 | Retaining keeps the two holder maps mutual inverses, every pack held, and the pack count within max_packs |
| `PackStore.ReleaseKeepsIndex` | crates/aise-core/src/persistence/pack_store_mem.rs:86-96 | So does releasing, which removes exactly that holder |
| `PackStore.RetainThenRelease` | crates/aise-core/src/persistence/pack_store_mem.rs:49-96 | A successful retain followed by a release of the same story restores the exact prior state |
| `PackStore.ReleaseThenRetain` | crates/aise-core/src/persistence/pack_store_mem.rs:49-96 | A release can always be undone: retaining the same pack again succeeds and restores the exact prior state |
| `PackStore.Store.Retain` | crates/aise-core/src/persistence/pack_store_mem.rs:49-84 | Refuses a second holder, a full store or a mismatched reference in that order and without change; otherwise records the holder |
| `PackStore.Store.Release` | crates/aise-core/src/persistence/pack_store_mem.rs:86-96 | Drops the holder and, with the last one, the pack |
| `PackStore.Store.Get` | crates/aise-core/src/persistence/pack_store_mem.rs:98-105 | Returns the pack only under its full reference |
| `PackHistory.EveryHolderHoldsItsReference` | crates/aise-core/src/persistence/pack_store_mem.rs:49-105 | After any run of retains and releases, each holder holds under exactly the reference it retained, and the pack kept there is one that was brought with that reference |
| `PackHistory.RetainSucceedsIff` | crates/aise-core/src/persistence/pack_store_mem.rs:49-84 | After any run, a retain succeeds if and only if the story holds nothing, all holders of the digest hold it under the same reference, and the digest is held already or there is room for one more; each error names which condition fails |
| `StoryLifecycle.EveryStoredStoryHoldsItsPack` | crates/aise-core/src/persistence/store.rs:23-67 | In every interleaving of creates and removes, any of them abandoned at an await, in which creates and removes of one id do not overlap, every stored story holds a pack; when no call is in flight the holders are exactly the stored stories and the ids whose call was abandoned |
| `StoryLifecycle.StoriesAreHoldersAtRest` | crates/aise-core/src/persistence/store.rs:23-67 | With no call abandoned, stored stories and pack holders are the same set whenever no call is in flight |
| `StoryLifecycle.AbandonedCreateLeavesPack` | crates/aise-core/src/persistence/store.rs:29-31 | A create abandoned between its two calls leaves a pack held by no story |
| `StoryLifecycle.InsertionNeverCollides` | crates/aise-core/src/persistence/store.rs:23-50 | In such runs an insertion after a successful retain never finds the story stored already |
| `StoryLifecycle.NextKeepsInv` | crates/aise-core/src/persistence/store.rs:23-67 | Every atomic step keeps every held pack accounted for by a stored story or by a call that will still use or release it |
| `StoryLifecycle.RunKeepsInv` | crates/aise-core/src/persistence/store.rs:23-67 | So does every run |
| `StoryOverlaps.OverlapIsReachable` | crates/aise-core/src/persistence/store.rs:23-50 | A create that holds its pack and has not stored the story is reachable |
| `StoryOverlaps.RemoveDuringCreateLosesPackIff` | crates/aise-core/src/persistence/store.rs:23-67 | In every state the protocol keeps, a remove that comes in while the story is being created can with that create alone leave the story stored without a pack if and only if the create is about to store it: it holds the pack, or its retain would succeed, and its roles are valid |
| `StoryLifecycle.CreateStory` | crates/aise-core/src/persistence/store.rs:23-50 | Sequentially, stored stories and pack holders stay the same set, and a failed create restores both stores |
| `StoryLifecycle.RemoveStory` | crates/aise-core/src/persistence/store.rs:52-67 | So does removal, for a missing story too |
| `StoryLifecycle.UndisturbedCreate` | crates/aise-core/src/persistence/store.rs:23-50 | In any state the protocol keeps, a create that runs to its end alone stores its story with its pack if the pack can be retained and the roles are valid, and otherwise leaves both stores as they were |
| `StoryLifecycle.UndisturbedRemove` | crates/aise-core/src/persistence/store.rs:52-67 | A removal that runs to its end alone leaves neither the story nor its holder, and nothing else changes hands |
| `TurnTasks.PermitsAreConserved` | crates/aise-server/src/tasks/supervisor.rs:125-163 | In every state of every run, permits that are free, in replies, with callers, in queued commands and in running tasks total max_active_turns |
| `TurnTasks.StepConservesPermits` | crates/aise-server/src/tasks/supervisor.rs:209-343 | No single step creates or loses a permit, abandoned reservations and dropped commands included |
| `TurnTasks.NothingStartsAfterShutdownBegins` | crates/aise-server/src/tasks/supervisor.rs:304-343 | Once admission is closed it stays closed, no task starts and the number of running tasks only falls |
| `TurnTasks.AnswerMeansNothingRuns` | crates/aise-server/src/tasks/supervisor.rs:304-343 | A shutdown is answered only when no task runs, and none runs afterwards; who is answered is stated in `TurnTasks.HeardAreAnswered` |
| `TurnTasks.HeardAreAnswered` | crates/aise-server/src/tasks/supervisor.rs:269-343 | In every state of every run the waiters whose shutdown command was taken or drained are exactly those waiting, and once the supervisor has stopped exactly those answered |
| `TurnTasks.ShutdownCanBeAnswered` | crates/aise-server/src/tasks/supervisor.rs:180-190 | A run in which a shutdown is begun, heard and answered |
| `TaskHistory.ShutdownCanFinish` | crates/aise-server/src/tasks/supervisor.rs:304-343 | From every reachable state on in which a shutdown has begun, some continuation stops the supervisor with no task running |
| `TaskHistory.CommandsAreTakenInOrder` | crates/aise-server/src/tasks/supervisor.rs:218-302 | In every run the commands taken, followed by those queued, are the commands sent, in order; a stopped supervisor has taken a first part of them |
| `TaskHistory.RunningAreStartedNotEnded` | crates/aise-server/src/tasks/supervisor.rs:247-262 | In every run exactly the tasks taken from the queue before it is drained have started, and those run that have not ended |
| `TaskHistory.PermitIsGrantedIff` | crates/aise-server/src/tasks/supervisor.rs:222-246 | The call being served can be given a permit exactly if fewer than the limit are with callers, queued with a task, or used by a running one |
| `TurnTasks.AdmissionIsOpenWhileGranting` | crates/aise-server/src/tasks/supervisor.rs:209-302 | The branch of a reservation that finds the semaphore closed is never taken |
| `TurnTasks.RunKeepsInv` | crates/aise-server/src/tasks/supervisor.rs:209-343 | Every run keeps the permit total and the phase discipline |
| `TurnTasks.FirstCallCanHold` | crates/aise-server/src/tasks/supervisor.rs:125-153 | A state in which a caller holds a permit is reachable |
| `TurnTasks.TaskCanStartAfterCancellation` | crates/aise-server/src/tasks/supervisor.rs:192-302 | From there a queued task still starts after the service is cancelled: the shutdown begins only when the supervisor observes it |
| `TaskStarts.StartsAfterCancellationIff` | crates/aise-server/src/tasks/supervisor.rs:209-302 | In every reachable state of a cancelled service some continuation starts a task if and only if admission is open and a task is queued with no shutdown command ahead of it, or no shutdown command is queued and a reservation is outstanding |
| `TaskStarts.ShutdownAheadBlocksTask` | crates/aise-server/src/tasks/supervisor.rs:269-329 | A task queued behind a shutdown command cannot start although admission is still open |
| `TurnTasks.SecondShutdownReturnsEarly` | crates/aise-server/src/tasks/supervisor.rs:180-190 | A second caller of the shutdown returns at once while a task is running |
| `TaskStarts.EarlyReturnIsQuietIff` | crates/aise-server/src/tasks/supervisor.rs:180-190 | After such an early return no task runs, now or later, if and only if none is running and none can still start by the condition above |
| `SseLanes.YieldsInOrderAndOnce` | crates/aise-server/src/api/sse.rs:158-219 | In every run the merged stream yields accepted progress events once and in order, and at most one terminal event |
| `SseLanes.EndsOnlyWhenDrained` | crates/aise-server/src/api/sse.rs:158-219 | A stream that ends by itself has yielded everything accepted into either lane |
| `SseLanes.TerminalLaneIsNeverFull` | crates/aise-server/src/api/turn.rs:25-27 | With its own lane of capacity one, the terminal send is delivered unless the client has gone |
| `SseLanes.RunKeepsInv` | crates/aise-server/src/api/sse.rs:88-129 | Every run keeps both lanes equal to what was accepted and not yet yielded |
| `SseLanes.TerminalCanOvertakeProgress` | crates/aise-server/src/api/sse.rs:158-219 | Order holds within a lane only: a run in which the terminal event is yielded before progress accepted earlier |
| `SseLanes.OvertakenIff` | crates/aise-server/src/api/sse.rs:158-219 | In every reachable state with the terminal event in its lane and the client there, some continuation yields it ahead of progress accepted before if and only if the progress lane is not empty |
| `SseLanes.EmptyLaneKeepsOrder` | crates/aise-server/src/api/sse.rs:158-219 | In a run, progress accepted up to a moment when none waits is never overtaken by the terminal event |
| `LaneTraffic.ProgressIsAcceptedIff` | crates/aise-server/src/api/sse.rs:88-129 | In every run a progress event is accepted exactly if the client is there and fewer than 64 accepted ones wait, and counted as dropped exactly if the client has gone |
| `LaneTraffic.TerminalIsTheFirstClaimed` | crates/aise-server/src/api/sse.rs:88-129 | In every run the only terminal event ever accepted is the first one claimed, and it is accepted exactly if it was sent while the client was there |
| `LaneTraffic.TerminalIsPolledFirst` | crates/aise-server/src/api/sse.rs:158-219 | At the top of its loop the stream yields a waiting terminal event and nothing else |
| `LaneTraffic.DroppedSinkCanDrain` | crates/aise-server/src/api/sse.rs:158-219 | From every reachable state with the sink dropped and the client there, the stream can reach its end having yielded everything accepted |
| `SseLines.ChunkingDoesNotMatter` | crates/aise/src/llm/openai_compat.rs:368-376 | However a stream is cut into chunks, feeding them gives the lines and leftover, or the error, of one scan of the whole stream if and only if no chunk overflows the buffer beside what the chunks before it leave unfinished |
| `SseLines.BufferStrikesIff` | crates/aise/src/llm/openai_compat.rs:370-374 | Feeding fails on the buffer limit if and only if some chunk overflows the buffer beside the leftover before it |
| `SseLines.ChunkingCanMatter` | crates/aise/src/llm/openai_compat.rs:368-376 | One stream under one limit that passes cut behind its newline and fails cut before it |
| `SseLines.ScanIsTheSplit` | crates/aise/src/llm/openai_compat.rs:500-520 | A scan succeeds with given lines and leftover if and only if these are the split of the stream at its newlines into acceptable pieces: no byte is lost or repeated |
| `SseLines.ScanContinues` | crates/aise/src/llm/openai_compat.rs:500-520 | Scanning a concatenation is scanning its second part from where the first part left off |
| `SseLines.RoomyBufferNeverStrikes` | crates/aise/src/llm/openai_compat.rs:368-376 | With room for a chunk beside any unfinished line the buffer limit never strikes |
| `SseLines.LineBuffer.Extract` | crates/aise/src/llm/openai_compat.rs:500-520 | The index loop takes the complete lines out of the buffer, and leaves it alone on failure |
| `SseLines.Feed` | crates/aise/src/llm/openai_compat.rs:368-376 | The feeding loop appends, extracts and stops at the first failure |
| `TraceMasker.MaskAssignment` | crates/aise-server/src/observability/propagation.rs:68-116 | The in-place loop terminates, although the string may grow, and computes the rewriting |
| `TraceMasker.MaskAssignmentTwice` | crates/aise-server/src/observability/propagation.rs:68-116 | Masking a key a second time changes nothing |
| `TraceMasker.MaskAssignmentKeepsUtf8` | crates/aise-server/src/observability/propagation.rs:68-116 | Masking never cuts inside a UTF-8 character |
| `MaskedText.NoAssignedValueSurvives` | crates/aise-server/src/observability/propagation.rs:68-116 | After masking a key, every value assigned to it anywhere in the text, wherever the key stands by itself, is the marker |
| `SecretTokens.MaskPrefixedToken` | crates/aise-server/src/observability/propagation.rs:118-141 | The loop over prefixed tokens terminates and computes the rewriting |
| `SecretTokens.MaskPrefixedTokenTwice` | crates/aise-server/src/observability/propagation.rs:118-141 | Masking a token prefix a second time changes nothing |
| `SecretTokens.MaskPrefixedTokenKeepsUtf8` | crates/aise-server/src/observability/propagation.rs:118-141 | Token masking never cuts inside a character |
| `MaskedText.NoTokenSurvives` | crates/aise-server/src/observability/propagation.rs:118-141 | After masking a prefix, wherever it still begins a token, no token byte follows it |
| `MaskedText.ListedSecretsAreCovered` | crates/aise-server/src/observability/propagation.rs:4-19 | Both of these theorems apply to every listed key and prefix |
| `SecretTokens.ListedSecretsAreProper` | crates/aise-server/src/observability/propagation.rs:4-19 | The listed keys and prefixes meet the conditions of the idempotence theorems |
| `MaskPipeline.Mask` | crates/aise-server/src/observability/propagation.rs:35-48 | Without personal-data redaction, the output is the longest character prefix within the limit of a text that splits into pieces of the input kept in order and markers standing for values of listed keys and tokens of listed prefixes; it is well-formed, every value assigned to a listed key is the marker or its cut-off front, no listed prefix begins a token, and a harmless text within the limit is returned as it is |
| `MaskSplits.KeyMaskSplits` | crates/aise-server/src/observability/propagation.rs:68-116 | Masking a key splits the text into kept pieces and values assigned to that key, and replaces exactly those values |
| `MaskSplits.PrefixMaskSplits` | crates/aise-server/src/observability/propagation.rs:118-141 | Masking a prefix splits the text into kept pieces and tokens that begin with it, and replaces exactly those tokens |
| `MaskPipeline.HarmlessTextIsKept` | crates/aise-server/src/observability/propagation.rs:35-48 | A text in which no listed key is assigned and no listed prefix begins a token goes through all loops unchanged |
| `MaskPipeline.KeyMaskKeepsKey` | crates/aise-server/src/observability/propagation.rs:38-40 | Masking one key keeps every other masked key masked |
| `MaskPipeline.PrefixMaskKeepsKey` | crates/aise-server/src/observability/propagation.rs:41-43 | Masking a token prefix keeps every masked key masked |
| `MaskPipeline.PrefixMaskKeepsPrefix` | crates/aise-server/src/observability/propagation.rs:41-43 | Masking a token prefix keeps every other masked prefix masked |
| `MaskPipeline.CutLeavesNoSecret` | crates/aise-server/src/observability/propagation.rs:47-48 | The final cut leaves values that are the marker or its front, and no token |
| `TraceMasker.NextAssignment` | crates/aise-server/src/observability/propagation.rs:70-101 | One round of the search decides on the string as a whole what the rewriting decides on its unsearched rest |
| `Utf8.Prefix` | crates/aise-server/src/observability/propagation.rs:173-182 | The longest prefix within the limit that does not cut a character |
| `Utf8.CutAtBoundary` | crates/aise-server/src/observability/propagation.rs:173-182 | Cutting well-formed text at a character boundary gives two well-formed texts |
| `Utf8.CutInsideCharacter` | crates/aise-server/src/observability/propagation.rs:173-182 | Cutting it anywhere else leaves a prefix that is not well-formed |
| `KnowledgeIds.ParseFormat` | crates/aise/src/domain/ids.rs:60-76 | Parsing a formatted sequence gives the sequence back, for every non-zero 64-bit value |
| `KnowledgeIds.ParseAcceptsCanonical` | crates/aise/src/domain/ids.rs:69-76 | Whatever is parsed formats back to the very same text |
| `KnowledgeIds.FormatIsCanonical` | crates/aise/src/domain/ids.rs:60-67 | A formatted sequence has only digits, at least four, and no superfluous leading zero |
| `KnowledgeIds.SourceIdRoundTrip` | crates/aise/src/domain/knowledge/query.rs:47-60 | Kind and text of a source id parse exactly to that id |
| `KnowledgeIds.TextIsInjective` | crates/aise/src/domain/ids.rs:93-125 | Knowledge ids with the same text are the same id, across kinds |
| `RoleIds.IsValidRoleId` | crates/aise/src/domain/ids.rs:230-250 | The loop accepts exactly words of [a-z0-9] joined by single separators out of [._-], up to 128 bytes |
| `RoleIds.GrammarIsTheScan` | crates/aise/src/domain/ids.rs:230-250 | The state the loop keeps accepts exactly the grammar |
| `RoleIds.TryRoleId` | crates/aise/src/domain/ids.rs:207-219 | A text becomes a role id exactly when it is grammatical and has no knowledge-id shape |
| `RoleIds.RoleIdsAreNoKnowledgeIds` | crates/aise/src/domain/ids.rs:78-82 | No role id is the text of a knowledge id |
| `RoleIds.AllocateDynamicRoleCandidates` | crates/aise/src/domain/ids.rs:493-510 | Allocation fails exactly on 64-bit overflow; the ids are consecutive, distinct and valid, so the expect never trips |
| `RoleIds.DynamicRoleIdIsValid` | crates/aise/src/domain/ids.rs:84-91 | Every dynamic role id is a role id |
| `RoleIds.DynamicRoleIdIsInjective` | crates/aise/src/domain/ids.rs:501-503 | Different sequences give different dynamic role ids |
| `RoleIds.KeysSeparateTargets` | crates/aise/src/planning/writer_planner_prompt.rs:154-166 | Proper targets with the same key are the same target |
| `RoleIds.IndexTargets` | crates/aise/src/planning/writer_planner_prompt.rs:63-77 | The index maps exactly the listed targets, each under its own key, and the collision error is unreachable |
| `PlanAudience.BuiltPlanRoutes` | crates/aise/src/context/retrieval_pipeline.rs:101-168 | When the planner was shown roles, facts and rumors of the same snapshot, every built plan passes the retrieval stage: no unknown role, no audience violation, no unauthorized seed; each request is one seed with its target and delivery, in order |
| `SnapshotKnowledge.PlanFromOneSnapshotRoutes` | crates/aise/src/context/retrieval_pipeline.rs:101-168 | So it does in every reachable state of a story, when the knowledge shown and the entries the activation index is composed from come from the story's rows |
| `ComposedIndex.ComposedIsLoadedIff` | crates/aise/src/context/activation/index.rs:109-190 | Pack entries without tombstones and with the overlay are exactly the loaded entries if and only if the seeded ones carry ids of the pack |
| `ComposedIndex.ReachableSeedsInPack` | crates/aise/src/persistence/sqlite_activation.rs:148-222 | In every reachable state they do, because ids are assigned to the pack's facts and rumors in the same order at creation and at loading |
| `ComposedIndex.AllocateKnowledgeIds` | crates/aise/src/domain/knowledge/query.rs:108-123 | Ids are assigned consecutively, failing exactly past 63 bits |
| `SnapshotKnowledge.ReachableRowsAreListable` | crates/aise/src/persistence/sqlite_knowledge_reader.rs:139-192 | In a reachable state the index reader fails on a row exactly if its id does not parse, never for lack of a hint |
| `SnapshotKnowledge.ShownIsActive` | crates/aise/src/context/activation/index.rs:153-190 | Every id shown has its entry, and its kind, in the activation index composed from the same rows and the pack |
| `SnapshotKnowledge.LoadKnowledgeIndex` | crates/aise/src/context/baseline_ctx_builder.rs:288-326 | The knowledge index holds exactly the ids of visible rows not provided already, and fails exactly on too many rows or one that does not read |
| `SnapshotKnowledge.ListIndex` | crates/aise/src/persistence/sqlite_knowledge_reader.rs:139-192 | The index reader returns the ids of the first rows in order, failing exactly on a row without a valid id or hint |
| `PlanAudience.ThinkersAreLookedUp` | crates/aise/src/planning/retrieval_plan_builder.rs:30-116 | Every built plan has distinct think roles within the limit, each with exactly one character request |
| `PlanAudience.ThinkersAreNotThePlayer` | crates/aise/src/planning/retrieval_plan_builder.rs:142-163 | Nobody thinks for the player, and whoever thinks is a role of the snapshot |
| `PlanAudience.PlannedRequestsAreProper` | crates/aise/src/planning/retrieval_plan_builder.rs:202-243 | Every knowledge request of a built plan is for something shown, unique per delivery and target, and told to the writer, or to a thinking character unless it is a fact |
| `PlanAudience.LookedUpRolesAreKnown` | crates/aise/src/context/retrieval_pipeline.rs:101-109 | Every character request of such a plan is for a role of the snapshot |
| `PlanContents.AnswerIsAcceptedIff` | crates/aise/src/planning/retrieval_plan_builder.rs:30-116 | An answer becomes a plan if and only if its goal, think requests, gaps and the impulses are allowed, each condition told from the answer, the impulses and the snapshot alone |
| `PlanContents.KnowledgeIsWhatGapsAsk` | crates/aise/src/planning/retrieval_plan_builder.rs:71-107 | The plan asks for exactly the knowledge the gaps ask for, once for the writer and once for each character named, with the reason of the first such gap |
| `PlanContents.CharactersAreWhatIsAsked` | crates/aise/src/planning/retrieval_plan_builder.rs:68-102 | Exactly the roles a writer gap asks for or that think are looked up, in order, with the reason of the first such gap or else of the think request |
| `PlanContents.ThinksAreWhatIsAsked` | crates/aise/src/planning/retrieval_plan_builder.rs:118-316 | The planner's requests come first as they are, each of an AI role with a proper reason; then, by role, one for every other role an impulse names, with its first impulse's reason or else its goal |
| `PlanContents.SeedsAreTheRequests` | crates/aise/src/context/retrieval_pipeline.rs:123-162 | Every request but one for a memory is one seed, with its target, delivery and urgency, at its place in request order |
| `RetrievalPlans.Build` | crates/aise/src/planning/retrieval_plan_builder.rs:30-116 | A plan is built exactly when goal, gaps, think requests and request count fit; it then holds the merged think requests, the characters asked for or thinking, and the best request per key |
| `RetrievalPlans.PlanThinks` | crates/aise/src/planning/retrieval_plan_builder.rs:59-66 | Think requests pass exactly when the planner asks for distinct AI roles with proper reasons and every first impulse for another role can be added within the limit |
| `RetrievalPlans.ResolveWriterGap` | crates/aise/src/planning/retrieval_plan_builder.rs:165-200 | A writer gap resolves exactly with a proper reason and a shown target, to a character or to a request for the writer |
| `RetrievalPlans.ResolveWriterGaps` | crates/aise/src/planning/retrieval_plan_builder.rs:68-82 | All gaps resolve in order; each role asked for keeps the reason of its first gap |
| `RetrievalPlans.ResolveCharacterGap` | crates/aise/src/planning/retrieval_plan_builder.rs:202-243 | A character gap resolves exactly for a thinking role and a shown rumor or memory |
| `RetrievalPlans.ResolveCharacterGaps` | crates/aise/src/planning/retrieval_plan_builder.rs:83-87 | All character gaps resolve in order |
| `RetrievalPlans.LookUp` | crates/aise/src/planning/retrieval_plan_builder.rs:88-102 | The character requests list, by role, the roles asked for and those that think, asked-for reasons first |
| `Thinking.ConvertThinks` | crates/aise/src/planning/retrieval_plan_builder.rs:118-140 | Conversion succeeds exactly for role ids with proper reasons |
| `Thinking.ValidateThinks` | crates/aise/src/planning/retrieval_plan_builder.rs:142-163 | Validation succeeds exactly for distinct AI roles of the snapshot other than the player |
| `Thinking.MergeNarrative` | crates/aise/src/planning/retrieval_plan_builder.rs:274-316 | Impulses add one request per role not planned already, with the reason of the first impulse, in role order, failing exactly on the player, an unknown role, a long reason or too many requests |
| `Thinking.MergedRolesAreDistinct` | crates/aise/src/planning/retrieval_plan_builder.rs:274-316 | Whoever is merged in, no role thinks twice, and the thinking roles are the planned and the added ones |
| `KnowledgeRequests.DedupeAndSort` | crates/aise/src/planning/retrieval_plan_builder.rs:324-351 | The result is sorted and holds exactly the best request per delivery and target: mandatory first, then origin, then earliest |
| `KnowledgeRequests.OnePerKey` | crates/aise/src/planning/retrieval_plan_builder.rs:324-351 | As many requests are kept as there are keys |
| `KnowledgeRequests.RequestOrder` | crates/aise/src/planning/retrieval_plan_builder.rs:343-350 | The sort order is total and transitive |
| `KnowledgeRequests.DedupedAndSortedMeans` | crates/aise/src/planning/retrieval_plan_builder.rs:324-372 | Mandatory requests stand before optional ones, then automatic before narrative before planned, then the writer before characters by role, then facts, rumors and memories by id; every key asked for is kept, by the request no other outranks |
| `Ordering.TextLeqIsLexicographic` | crates/aise/src/planning/retrieval_plan_builder.rs:343-350 | The order of texts: one is a prefix of the other, or has the smaller character where they first differ |
| `RetrievalRoutes.BaselineRoles` | crates/aise/src/context/baseline_ctx_builder.rs:168-189 | The player, the relevant roles and the role index split the roles of the snapshot, so a known role is a role of the snapshot and conversely; it fails exactly when the index would be too long |
| `RetrievalRoutes.SelectRelevantRoles` | crates/aise/src/context/baseline_ctx_builder.rs:220-235 | The first roles, by id, at the player's place, up to the limit |
| `RetrievalRoutes.RelevantRolesSharePlace` | crates/aise/src/context/baseline_ctx_builder.rs:220-235 | They are other roles at the player's location, in id order and within the limit; one at that place is left out only when the limit is reached by roles before it |
| `RetrievalRoutes.Route` | crates/aise/src/context/retrieval_pipeline.rs:101-168 | Routing succeeds exactly when roles are known, every request is routable and the seeds are within the limit; only the last can fail otherwise |
| `RetrievalRoutes.RouteKnowledge` | crates/aise/src/context/retrieval_pipeline.rs:123-162 | Every request goes to the seeds or to its character's memories, in order, and each error names a request that breaks that rule |
| `RetrievalRoutes.RouteRequest` | crates/aise/src/context/retrieval_pipeline.rs:125-161 | One request: a fact may be told to the writer only, a memory to a character only, a rumor to both, and seeds must be in the index; the audience rules come before the authorization |
| `RetrievalRoutes.ViewRoles` | crates/aise/src/context/retrieval_pipeline.rs:101-109 | The views hold exactly the requested roles, or an unknown one is reported |
| `RetrievalRoutes.GroupedIsByRole` | crates/aise/src/context/retrieval_pipeline.rs:129-136 | Memories are grouped under the role they are meant for, in request order |
| `RetrievalRoutes.TrimTokens` | crates/aise/src/context/retrieval_pipeline.rs:381-393 | The longest prefix within the token budget under saturating addition |
| `StoryCommits.Store.CommitTurn` | crates/aise/src/persistence/sqlite_store.rs:281-567 | A known key replays its result or conflicts on its digest; a new commit is stored whole exactly when acceptable (`CommitAcceptance.CommitIsAcceptedIff`), with the effects listed for `CommitEffects` and `RowHistory`; any failure changes nothing |
| `StoryCommits.Transact` | crates/aise/src/persistence/sqlite_store.rs:313-567 | The transaction succeeds exactly when every check passes, a revision mismatch being reported first |
| `StoryCommits.AggregateLlmUsage` | crates/aise/src/persistence/sqlite_store.rs:658-695 | Sums the calls, failing exactly when a total does not fit its width |
| `StoryCommits.UpdateRoles` | crates/aise/src/persistence/sqlite_store.rs:343-358 | The loops add new roles without collision and then change the state of known ones |
| `StoryCommits.UpdateRelationships` | crates/aise/src/persistence/sqlite_store.rs:365-384 | The loop adds new relationships and updates known ones under their own key |
| `StoryCommits.UpsertsTakeEffect` | crates/aise/src/persistence/sqlite_store.rs:582-634 | Timed-state upserts succeed exactly when none is of a memory or beyond 63 bits; then each id has its last upsert and every other id what it had |
| `CommitAcceptance.CommitIsAcceptedIff` | crates/aise/src/persistence/sqlite_store.rs:313-567 | In every reachable story a commit with a new key is accepted if and only if it is for the next revision and turn, its new roles and relationships are new, its changes have their targets, its transitions start from the state each node has by then, its mutations find their rows with the same owner, and timed state, events and usage fit their widths |
| `CommitAcceptance.MutationsFitIff` | crates/aise/src/persistence/sqlite_store.rs:805-967 | A list of mutations goes through exactly if each adds a row that is not there by then, or updates or deletes one that is, without changing its owner |
| `CommitAcceptance.TransitionsFitIff` | crates/aise/src/persistence/sqlite_store.rs:391-421 | A list of transitions goes through exactly if each finds its node inactive to activate it, or active to complete or skip it; the node then has the state of its last transition |
| `CommitEffects.CommitIsWritten` | crates/aise/src/persistence/sqlite_store.rs:340-567 | An accepted commit raises revision and turn by one, appends one turn row with the commit's key, digest, text and usage and one segment with its text under the next sequence, and replaces the constraints exactly when given |
| `CommitEffects.CommitWritesRoles` | crates/aise/src/persistence/sqlite_store.rs:343-358 | Afterwards there are the old and the new roles, each with its own profile and the state of its last change |
| `CommitEffects.CommitWritesRelationships` | crates/aise/src/persistence/sqlite_store.rs:365-384 | Every relationship has the value last given to it by the commit, or else the one it had |
| `CommitEffects.CommitWritesNarrative` | crates/aise/src/persistence/sqlite_store.rs:389-431 | The narrative keeps its revision unless nodes moved, and its pending effects are exactly those of the commit |
| `CommitEffects.CommitRaisesOverlay` | crates/aise/src/persistence/sqlite_store.rs:531-545 | The overlay version is raised by one exactly if some mutation is about a fact or a rumor |
| `CommitEffects.TimedIsWritten` | crates/aise/src/persistence/sqlite_store.rs:582-656 | A timed state is kept exactly if it was upserted last, or was there and not deleted, and a row of the same rule version backs it |
| `CommitEffects.UsageIsTotal` | crates/aise/src/persistence/sqlite_store.rs:658-695 | Usage counts the calls and adds up input, output and total tokens each on its own |
| `CommitEffects.CreationIsWritten` | crates/aise/src/persistence/sqlite_store.rs:108-210 | A new story is what its specification says, with its opening as the first segment |
| `StoryCommitRuns.RunKeepsNumbered` | crates/aise/src/persistence/sqlite_store.rs:281-338 | Over any run revision equals last turn number, turn n has segment sequence n+1, and every key has one turn |
| `StoryCommitRuns.CommitKeepsNumbered` | crates/aise/src/persistence/sqlite_store.rs:313-338 | So after every single attempt |
| `StoryCommitRuns.NewStoryIsNumbered` | crates/aise/src/persistence/sqlite_store.rs:108-210 | A new story starts that way |
| `StoryCommitRuns.InsertsNeverCollide` | crates/aise/src/persistence/sqlite_store.rs:455-488 | The unique constraints on turns and segments never fire |
| `StoryCommitRuns.OneCommitPerRevision` | crates/aise/src/persistence/sqlite_store.rs:313-317 | At most one new commit succeeds per base revision |
| `StoryCommitRuns.StoredTurnIsRemembered` | crates/aise/src/persistence/sqlite_store.rs:283-299 | A stored turn answers for its key after any further run, and repeated attempts change nothing |
| `StoryCommitRuns.OverlayVersionIsCacheKey` | crates/aise/src/persistence/sqlite_store.rs:528-545 | Two states of one story with the same overlay version load the same activation index, across every sequence of mutations |
| `StoryCommitRuns.SameOverlaySameRows` | crates/aise/src/persistence/sqlite_store.rs:570-580 | They even have the same visible rows |
| `StoryCommitRuns.RunKeepsConsistent` | crates/aise/src/persistence/sqlite_store.rs:582-656 | Over any run every row agrees with its payload, and every timed state has a live entry that is no memory and has the same rule version |
| `StoryCommitRuns.NewStoryIsConsistent` | crates/aise/src/persistence/sqlite_store.rs:108-210 | A new story starts that way |
| `StoryCommitRuns.ReachableRowsMaterialize` | crates/aise/src/persistence/sqlite_knowledge_reader.rs:306-324 | The reader's cross-check rejects no row of a reachable state |
| `StoryCommitRuns.RunKeepsCast` | crates/aise/src/persistence/sqlite_store.rs:343-384 | Over any run no role or relationship disappears, a role keeps everything but its state, and keys stay their own |
| `StoryCommitRuns.NodeAdvancesAtMostTwice` | crates/aise/src/persistence/sqlite_store.rs:385-431 | Over any run a node stands where its last move took it, only advances, at most twice, is activated at most once, and if inactive at creation carries the turn of its activation |
| `StoryCommitRuns.ClosedNodeStaysClosed` | crates/aise/src/persistence/sqlite_store.rs:385-431 | A completed node stays completed, and a skipped one skipped, over every further run |
| `StoryCommitRuns.NodeLivesThroughRun` | crates/aise/src/persistence/sqlite_store.rs:385-431 | The state of a node is where its moves over all stored turns lead |
| `NarrativeNodes.ResolveNarrative` | crates/aise/src/persistence/sqlite_store.rs:385-431 | The transition loop refuses a stale graph revision or a wrong source state, and otherwise moves the nodes and replaces the pending effects |
| `NarrativeNodes.TransitionsAreLived` | crates/aise/src/persistence/sqlite_store.rs:391-421 | Each transition of a node in a turn is one step of its rank to the state that transition names, and activation records the turn |
| `NarrativeNodes.LivesJoin` | crates/aise/src/persistence/sqlite_store.rs:385-431 | Two stretches of a node's life join |
| `KnowledgeRows.MutationsKeepAgreement` | crates/aise/src/persistence/sqlite_store.rs:805-911 | Inserts, merges and deletes keep every row in agreement with its payload |
| `KnowledgeRows.MergeKeepsIdentity` | crates/aise/src/persistence/sqlite_store.rs:913-967 | A merge succeeds exactly within one kind and owner, and keeps id and owner |
| `RowHistory.HintColumnIsLastInserted` | crates/aise/src/persistence/sqlite_store.rs:775-911 | In every reachable state the retrieval-hint column of a row is the hint of the entry last inserted under its key, deletes and re-insertions included; it differs from the payload if and only if the last update since carried another hint |
| `RowHistory.RowsAreLastWritten` | crates/aise/src/persistence/sqlite_store.rs:775-967 | In every reachable state every row has the id, key, owner and creation time of the entry last inserted, and text, proposition or claim, rule, rule version, salience, source, truth, source role and memory kind of the last write, in payload and columns alike |
| `RowHistory.IndexIsLastWritten` | crates/aise/src/persistence/sqlite_activation.rs:57-134 | So does every entry the activation index loads |
| `RowHistory.HintColumnCanGoStale` | crates/aise/src/persistence/sqlite_store.rs:863-867 | A run in which it does: any seeded fact or rumor updated with another hint |
| `RowHistory.VisibleRowsHaveHints` | crates/aise/src/persistence/sqlite_store.rs:775-803 | Every fact or rumor row of a reachable state has a hint in its column |
| `RowHistory.RowsAreTheHistory` | crates/aise/src/persistence/sqlite_store.rs:528-530 | The rows of a reachable state are the seeds and the mutations of the stored commits applied in order |
| `RowHistory.PackRowsWereSeeded` | crates/aise/src/persistence/sqlite_store.rs:913-967 | Over any run whose commits attribute what they write to a turn, a row still attributed to the pack is one that was seeded |
| `KnowledgeRows.MutateRows` | crates/aise/src/persistence/sqlite_store.rs:528-530 | The loop applies the mutations in order and stops at the first failure; when it succeeds and what it writes is stated in `CommitAcceptance.MutationsFitIff` and `RowHistory.RowsAreLastWritten` |
| `KnowledgeRows.QuietMutationsAreInvisible` | crates/aise/src/persistence/sqlite_store.rs:570-580 | Mutations that do not bump the overlay version leave what the index sees as it was |
| `KnowledgeRows.AgreeingRowsMaterialize` | crates/aise/src/persistence/sqlite_knowledge_reader.rs:286-326 | A row that agrees with its payload is never rejected and reads back what the payload says |
| `KnowledgeRows.LoadSnapshot` | crates/aise/src/persistence/sqlite_activation.rs:57-134 | The loading loop gives the metadata of every visible row, within both limits |
| `StoryReaders.TryNew` | crates/aise/src/domain/narrative.rs:51-127 | Continuity holds exactly when sizes and tokens fit and summary and segments cover the story without gap or overlap |
| `StoryReaders.CheckSequences` | crates/aise/src/domain/narrative.rs:83-111 | The sequence checks pass exactly for consecutive sequences behind the summary |
| `StoryReaders.LoadContinuity` | crates/aise/src/persistence/sqlite_snapshot.rs:236-293 | A numbered story loads exactly when its segments are within the limits, and then whole |
| `StoryReaders.CommitterAndStoreAgree` | crates/aise/src/persistence/turn_committer.rs:112-119 | Whatever is attempted between loading a snapshot and committing, a stored commit gets the very sequence the committer took from the snapshot, for its turn and its segment |
| `StoryReaders.OutgrownStoryNeverLoads` | crates/aise/src/persistence/sqlite_snapshot.rs:236-262 | As the summary never advances, a story that has outgrown the segment limit never loads again |
| `StoryGrowth.NewStoryCanOutgrowItsLimit` | crates/aise/src/persistence/sqlite_snapshot.rs:236-262 | For every specification and every limit some run takes the new story past it, and it loads neither then nor after any further attempts |
| `StoryGrowth.EveryStoryCanOutgrowItsLimit` | crates/aise/src/persistence/sqlite_snapshot.rs:236-262 | The same from any story on |
| `StoryGrowth.PlayOn` | crates/aise/src/persistence/sqlite_store.rs:313-567 | From any story on, some run stores any number of further turns |
| `StoryReaders.LoadHistory` | crates/aise/src/persistence/sqlite_story_history_reader.rs:58-145 | A page holds the next turns beyond the cursor and a cursor exactly when more follow |
| `StoryReaders.HistoryPagesCoverAllTurns` | crates/aise/src/persistence/sqlite_story_history_reader.rs:58-145 | Following the cursors to the end, with whatever commits between the pages, gives every turn committed by the last page once and in order, whatever the page sizes |

## Left out

- HTTP routes, browser pages, prompt rendering, templates, configuration checks, language-model calls and telemetry export.
- SQL text, connection pools, migrations and JSON: rows are records, a transaction is one atomic step, serialisation is an exact round trip.
- Widths of turn numbers, revisions, sequences and overlay versions in the two stores: they are unbounded here, so their overflow errors and signed casts do not appear. Token sums, id sequences and usage totals have their real widths.
- `validate_runtime_roles` is a function parameter, and so are UTF-8 decoding of a line, text sizes and token estimates in the readers.
- Texts of errors, and which of several applicable errors a plan build reports first.
- Story events, outbox records, id high-water marks, the player contribution column and timestamps of the SQL store.
- Personal-data masking (`mask_pii`) and `mask_chunks`; the second copy of the masker in the service crate has the same loops.
- The supervisor's `rejected` counter, the grace period as wall-clock time (joining may abort at any moment), and shutting down by dropping the last handle.
- The single-lane sink `new_shared`, which shares one channel between progress and terminal events.
- The activation engine and coordinator apart from `authorize_seed` and the composition of the index (whose limits on compiled patterns are left out), timed-state evaluation, and `sort_partition` of retrieved items.
- The relevant-knowledge half of the baseline (which facts and rumors are provided in full) is a parameter.
- The SQL variants of the story and pack stores in the core crate, which forward to the in-memory ones.
- RateGate.Acquire: takes the clock readings and wake-ups of its rounds as a parameter; that it waits exactly the returned time is not modelled.
- StoryCommits.Store.CommitTurn: leaves out the writes of events, outbox records and id high-water marks, which can fail on their own constraints.
- StoryCommits.Transact: accepts a commit whose event or outbox ids are taken, for the same reason.
- KnowledgeRows.LoadSnapshot: leaves out rows that do not decode; of the canonical pack entries only the ids and their kinds are modelled, in `ComposedIndex`.
- StoryReaders.LoadHistory: leaves out the opening view and the size limit on player contributions.
- KnowledgeRows.AgreeingRowsMaterialize: covers the reader's cross-check of columns against the payload, not its size limit and its parsing of ids and salience.
- StoryLifecycle.CreateStory: models the two stores' calls as atomic, which their mutexes make them; interleavings are covered by the step machine.
