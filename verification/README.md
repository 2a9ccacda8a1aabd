# Verification of the agent transaction layer

This project models, in Dafny 4.11, the optimistic transaction layer that the repository puts on top of a
versioned key-value store, and proves what that layer is for.

- **Stores.** `KvStore` is the in-memory store with conditional puts and deletes and atomic batches;
  `FileStore` the file-backed one with its journal, temporary file and rename.
- **Branches.** `WriteBuffers`, `Branches`, `BranchManager`, `BranchFold`, `BranchContents` and `Staging` are the
  private state of a candidate branch: write buffer with undo log, read set, intent log, savepoints, score.
- **Commit.** `PolicyDispatcher`, `CommitPlan`, `FallbackCommit`, `FallbackAttempt`, `CrashSafeCommit`,
  `CommitManager` and `AgentTxnManager` validate a winning branch, rebase its writes and commit them as a
  batch, one by one, or one by one with a durable artifact.
- **Verdicts and effects.** `CommitVerdict` says exactly when a branch can be planned and committed, `CommitEffects`
  what its batch then does to every object.
- **Crashes.** `FallbackProtocol` is the crash-safe commit as a machine over store and artifact, with a
  crash after every durable effect; `FallbackRecovery` and `FallbackRecoveryPass` are the recovery code,
  proved to follow that machine step by step.
- **Concurrency.** `Serializability`, `RebaseSerializability`, `DeltaConservation` and `FallbackInterference`
  are about runs in which other clients use the store at the same time.
- **Logs.** `CommitLogRecovery` and `CommitLogOutcome` recover and replay commit logs; `TaskEvents`,
  `TaskRecovery`, `TaskLifecycle`, `Recommit` and `TaskRuntime` record a task session and rebuild it from its
  event log, up to its end and to committing it again.
- **Text.** `TextCodec`, `LogText`, `RowText`, `IndexedFields`, `SnapshotText`, `CommitLogText`,
  `FallbackLogText`, `TaskLogText` and `RecoverySteps` are the printers and parsers.

Code that changes state is a class or a method proved against a specification function; the theorems are
lemmas about these functions, about step machines, or about sequences of states. Some methods take or
return ghost values: the abstract states of the branches they work on, or the trace of machine states that
their durable effects went through.

Where a natural claim is false of the code, a condition under which it holds is proved, and what happens
without it:

- the same version means the same value: while the key is not removed (`VersionPinsValue`); for every existing
  key a removal breaks it (`DeleteUnpinsValue`);
- the fallback has the verdict of the batch: exactly as `FallbackRefinesBatch` and `VerdictsAgreeExactly` say,
  with `ExemptReadSplitsVerdicts` and `MisnamedIntentSplitsVerdicts`;
- a failed fallback leaves no trace: while others touch no key it has written and do not remove a key between
  its look and its put (`FailedCommitIsInvisible`); in every state a put of a written key (`PutBreaksAbort`), and
  in every state such a removal (`DeleteBreaksAbort`), can break it;
- a successful commit of a branch whose objects all end overwritten is serializable: in its end state while
  nobody removes an object it has fetched (`EndStateSerializability`), and a removal can break that in every
  execution (`RemovalBreaksEndState`); in the answers of its reads exactly as `SerializableExactly` says, with
  `LostReadBreaks` and `RolledBackWriteHidesRead`;
- a successful commit that appends, adds or compares and swaps sends the batch it would have sent at that
  instant: exactly as `BatchSerializability` says, again while nobody removes an object it has fetched;
- an interrupted rollback can be resumed: `InterruptedRollback`, with `StrandedRollback`;
- the crash-safe commit commits when the batch does: `CrashSafeAgainstBatch`;
- a delta rebase adds the net delta: exactly as `DeltaRebaseExact` says;
- commit log recovery succeeds: exactly as `RecoverySucceedsExactly` says; it can be repeated: exactly as
  `RestartExact` says;
- a recovered task has the statuses it ended with: exactly as `EndIsRecoveredExactly` says;
- a commit that was interrupted is made up for: exactly as `RecommitExactly` says, with `LostCondition`;
- a task log can be recovered: exactly as `WrittenIsRecoverable` says, and always for an accepted task
  (`SubmittedIsRecoverable`);
- files are read back: `SnapshotRoundTrip` with `RefusedPutBreaksSnapshot`, `CommitLogRoundTrip` and
  `PrintedLogsRecover`, `ArtifactRoundTrip`.

Conventions. Versions and counts are unbounded naturals. A `long` has 64 bits. `Named` says that an intent names
the object it is written to. A store history is a sequence of atomic operations; `Kept` says that none of them
removes a key. "Alike" branches differ only in object types, conditions of intents and extra read records, which
the event log does not keep.

`dafny verify dfyconfig.toml` checks the whole project.

## Model

| member | source | states |
|---|---|---|
| `KvStore.MemoryKVStore.Get` | data_agent_system/storage/memory_kv_store.h:16-27 | Answers value, version and existence of a key; an absent key reads as empty at version 0 |
| `KvStore.MemoryKVStore.Put` | data_agent_system/storage/memory_kv_store.h:33-39 | Sets the value and raises the version by one, creating the key if need be |
| `KvStore.MemoryKVStore.PutIfVersion` | data_agent_system/storage/memory_kv_store.h:41-52 | Writes only at the expected version; a refused put of an absent key still creates an empty entry at version 0 |
| `KvStore.MemoryKVStore.DeleteIfVersion` | data_agent_system/storage/memory_kv_store.h:54-66 | Erases the key only at the expected version; deleting an absent key at version 0 succeeds |
| `KvStore.MemoryKVStore.BatchPutIfVersion` | data_agent_system/storage/memory_kv_store.h:68-86 | Either all checks hold and all writes happen in order, or nothing changes |
| `KvStore.PutAllLookup` | data_agent_system/storage/memory_kv_store.h:80-84 | A batch over distinct keys leaves each of them at its new value and exactly one version up |
| `KvStore.PutAllFrame` | data_agent_system/storage/memory_kv_store.h:80-84 | A batch leaves every key it does not name untouched |
| `KvStore.VersionPinsValue` | data_agent_system/storage/memory_kv_store.h:33-86 | While a key is not removed, whatever else happens and whatever other keys are deleted, its version only grows, an unchanged version means an unchanged value, and it keeps existing |
| `KvStore.DeleteUnpinsValue` | data_agent_system/storage/memory_kv_store.h:54-66 | For every store, every existing key at a version v above 0 and every value: a delete and v puts bring version v back with that value |
| `WriteBuffers.WriteBuffer.Upsert` | data_agent_system/cache/write_buffer.h:16-29 | Inserts or replaces an entry, appends new ids to the order, and logs what was replaced |
| `WriteBuffers.WriteBuffer.Find` | data_agent_system/cache/write_buffer.h:31-37 | The buffered entry of an object, if there is one |
| `WriteBuffers.WriteBuffer.Entries` | data_agent_system/cache/write_buffer.h:39-46 | The entries in first-write order |
| `WriteBuffers.WriteBuffer.Truncate` | data_agent_system/cache/write_buffer.h:48-63 | The undo loop computes the recursive undo of the change log down to the given size |
| `WriteBuffers.UndoUpsert` | data_agent_system/cache/write_buffer.h:16-63 | Undoing an upsert gives back entries, order and change log exactly |
| `WriteBuffers.UpsertKeepsWellFormed` | data_agent_system/cache/write_buffer.h:16-29 | Upserts keep the order duplicate-free and equal to the keys, now and after undoing any number of changes |
| `WriteBuffers.TruncateKeepsWellFormed` | data_agent_system/cache/write_buffer.h:48-63 | So do truncations, and the remaining log is a prefix of the old one |
| `WriteBuffers.TruncateRestoresSnapshot` | data_agent_system/cache/write_buffer.h:16-63 | Undo log equals snapshot: after any upserts and truncations that never go below size n, Truncate(n) restores the buffer exactly as it was at size n |
| `Branches.ReadSet.Record` | data_agent_system/cache/read_set.h:16-21 | Appends one read record |
| `Branches.IntentLog.Append` | data_agent_system/intent/intent_log.h:12 | Appends one intent |
| `Branches.IntentLog.Truncate` | data_agent_system/intent/intent_log.h:14-18 | Keeps the first intents and never grows the log |
| `BranchManager.ReadObject` | data_agent_system/branch/branch_manager.h:66-88 | Answers from the buffer or the store; only a read that reaches the store is recorded |
| `BranchManager.ApplyIntent` | data_agent_system/branch/branch_manager.h:123-153 | The new value of an entry for each kind of intent; a delta on a non-integer changes nothing |
| `BranchManager.BufferWrite` | data_agent_system/branch/branch_manager.h:106-155 | Starts from the buffered entry or a copy of the stored object, applies the intent, and logs it |
| `BranchManager.CreateSavepoint` | data_agent_system/branch/branch_manager.h:90-98 | Remembers the lengths of both logs |
| `BranchManager.StageBranch` | data_agent_system/branch/branch_manager.h:100-104 | Sets score, summary and status |
| `BranchManager.RollbackToSavepoint` | data_agent_system/agent_txn/rollback_manager.h:21-35 | Cuts both logs to the first savepoint of that id and drops later savepoints; an unknown id changes nothing |
| `BranchManager.DiscardBranch` | data_agent_system/agent_txn/rollback_manager.h:14-19 | Empties the logs and savepoints and marks the branch discarded |
| `BranchFold.BufferIsFold` | data_agent_system/branch/branch_manager.h:66-155 | In every reachable state of a branch, under reads, writes, savepoints and nested rollbacks and whatever others do to the store: buffer and intent log have equal size and matching ids, savepoint positions are ordered and in bounds, and each entry is the fold of its surviving intents over its base value |
| `BranchFold.StepKeepsInv` | data_agent_system/branch/branch_manager.h:66-155 | Each single operation keeps that invariant |
| `BranchFold.RollbackKeepsInv` | data_agent_system/agent_txn/rollback_manager.h:21-35 | Rolling back keeps it, at every depth of savepoints |
| `BranchFold.RunExtends` | data_agent_system/agent_txn/rollback_manager.h:21-35 | While no rollback goes below a savepoint, cutting to it would still give the state in which it was taken |
| `BranchFold.RollbackRestores` | data_agent_system/agent_txn/rollback_manager.h:21-35 | Rolling back to a new savepoint after any program that stays above it restores buffer, intents and savepoints exactly |
| `BranchContents.ReadsOwnWrites` | data_agent_system/branch/branch_manager.h:66-88 | In every reachable state a written object is answered by its surviving intents applied to what the store held when the branch took it over (the last payload after an overwrite or a compare-and-swap), at that version, existing if it did then or is not empty now; any other read is answered by the store and recorded |
| `BranchContents.EntriesAreWritten` | data_agent_system/branch/branch_manager.h:106-155 | Every entry, and every entry undoing could bring back, has the object type and the kind of a write of its object, and is dirty unless that was a read intent |
| `BranchContents.BufferIsOrdered` | data_agent_system/cache/write_buffer.h:16-63 | In every reachable state, rollbacks included, the buffer lists the objects in the order of their first surviving writes |
| `BranchContents.WrittenInFirstOrder` | data_agent_system/agent_txn/commit_manager.h:51-93 | A plan writes the objects in that order, without those that end with a read intent |
| `BranchContents.DiscardedIsEmpty` | data_agent_system/agent_txn/rollback_manager.h:14-19 | Discarding leaves no entry, no intent and no savepoint, and committing the branch would write nothing |
| `Staging.StagedLast` | data_agent_system/branch/branch_manager.h:100-104 | Through any program, score and summary are those of the last staging, 0 and empty without one; no other operation changes them |
| `Staging.StatusIsLast` | data_agent_system/branch/branch_manager.h:66-155 | The status is that of the last read, write or staging; savepoints and rollbacks leave it alone |
| `PolicyDispatcher.RebaseOfAppends` | data_agent_system/intent/policy_dispatcher.h:75-84 | On an append-only object the resolved value is the current store value followed by all surviving payloads in order |
| `PolicyDispatcher.FoldOfDeltas` | data_agent_system/branch/branch_manager.h:143-150 | The buffered value of a delta-only integer object is the base plus the sum of its deltas, if no partial sum leaves 64 bits |
| `PolicyDispatcher.RebaseOfDeltas` | data_agent_system/intent/policy_dispatcher.h:85-102 | On a delta-only object with an integer base the resolved value is the current integer plus the sum of surviving deltas |
| `PolicyDispatcher.DeltaRebaseOnText` | data_agent_system/intent/policy_dispatcher.h:85-102 | If the base was not an integer, only the last delta is applied, and the rebase fails if that is not an integer |
| `PolicyDispatcher.DeltaRebaseExact` | data_agent_system/intent/policy_dispatcher.h:85-102 | The rebase adds the net delta if and only if the base was an integer, or the last delta is one and equals the net delta; deltas that are not integers are allowed and count as nothing |
| `Decimal.ParsePrintedInt` | data_agent_system/intent/policy_dispatcher.h:120-128 | Printing an integer and parsing it gives it back, over the whole 64-bit range |
| `Decimal.ParsesExactly` | data_agent_system/intent/policy_dispatcher.h:120-130 | A text is read as an integer if and only if it is all digits, with or without a minus sign before them, and fits 64 bits |
| `Decimal.NumberFromText` | data_agent_system/agent_txn/commit_log_replay.h:83-84 | The lenient reading: leading space, a sign, digits and whatever follows; overflow gives the largest value, and a minus sign wraps an unsigned number around |
| `CommitManager.ValidateWinner` | data_agent_system/agent_txn/validation_manager.h:14-38 | Succeeds if and only if every recorded read of an object that is not rebased is still at its version |
| `CommitManager.SeenChecks` | data_agent_system/agent_txn/commit_manager.h:24-41 | Folds the reads into checks; two versions of one object are refused |
| `CommitManager.BuildPlan` | data_agent_system/agent_txn/commit_manager.h:24-99 | Builds exactly the planned checks and writes, or the refusal, of the specification |
| `CommitPlan.CollectReadsMeaning` | data_agent_system/agent_txn/commit_manager.h:25-35 | All recorded reads are checked at the version observed, and nothing else is |
| `CommitPlan.PlanCommitMeaning` | data_agent_system/agent_txn/commit_manager.h:24-99 | Every buffered object is written at its resolved value and checked at the version seen (if rebased) or its base version, writes have distinct keys, and other checks are those of the reads |
| `CommitVerdict.ReadsPlannedExactly` | data_agent_system/agent_txn/commit_manager.h:25-35 | The reads are accepted if and only if no object was read at two versions, nor at another version than one already on record |
| `CommitVerdict.ResolvesExactly` | data_agent_system/intent/policy_dispatcher.h:62-117 | Resolving a write fails if and only if a compare-and-swap misses its expected value or a delta its integers, and writes nothing exactly for a read intent |
| `CommitVerdict.PlannedExactly` | data_agent_system/agent_txn/commit_manager.h:24-101 | There is a plan if and only if no object was read at two versions, every buffered object can be resolved over what the plan sees, and every read of an overwritten object was at the version its write starts from |
| `CommitVerdict.BatchSucceedsExactly` | data_agent_system/agent_txn/commit_manager.h:24-128 | Plan and batch succeed if and only if, besides, overwritten objects are at their base version, rebased ones at the version the plan saw, and every other read is current |
| `CommitVerdict.ValidationIsImplied` | data_agent_system/agent_txn/agent_txn_manager.h:43-54 | Validation refuses no branch whose batch would succeed |
| `CommitVerdict.UnchangedStoreCommits` | data_agent_system/agent_txn/agent_txn_manager.h:30-64 | Any program that ran and commits while nobody changes the store passes validation, and its batch succeeds if and only if its compare-and-swaps and deltas can be resolved |
| `CommitEffects.SwapIsPlannedExactly` | data_agent_system/intent/policy_dispatcher.h:103-112 | A compare-and-swap refuses its entry if and only if the plan sees another value than the expected one, and then the whole plan |
| `CommitEffects.BatchPerforms` | data_agent_system/agent_txn/commit_manager.h:51-128 | A successful batch performs the last intent of every buffered object on what the store then holds: an overwrite finds the base version and leaves the payload, a compare-and-swap finds its expected value and leaves the payload, an append and a delta extend and add to the value found; each goes one version up, and everything else stays |
| `CommitEffects.ExecutionPerforms` | data_agent_system/agent_txn/commit_manager.h:51-128 | So it does for any program interleaved with others who remove no object it has fetched, however the store changes while it is planned |
| `CommitEffects.AppendsInOrder` | data_agent_system/intent/policy_dispatcher.h:75-84 | An object that is only appended to ends as what was there, followed by all surviving payloads |
| `CommitEffects.AddsNet` | data_agent_system/intent/policy_dispatcher.h:85-102 | An integer that is only added to ends as what was there plus all surviving deltas |
| `CommitManager.ListChecks` | data_agent_system/agent_txn/commit_manager.h:94-99 | The check list holds exactly the entries of the check map |
| `CommitManager.RollbackAppliedWrites` | data_agent_system/agent_txn/commit_manager.h:297-315 | Undoes applied writes, last first, up to the first that is refused |
| `CommitManager.CommitPlain` | data_agent_system/agent_txn/commit_manager.h:138-190 | One conditional put at a time, undone on the first stale key |
| `FallbackCommit.RollbackRestoresAll` | data_agent_system/agent_txn/commit_manager.h:297-315 | Undoing the applied writes restores every value and existence flag; existing keys end two versions up, created keys are gone |
| `FallbackCommit.ApplyAllSucceeds` | data_agent_system/agent_txn/commit_manager.h:151-190 | If all written keys are current the loop ends with the store of the batch |
| `FallbackCommit.ApplyAllFails` | data_agent_system/agent_txn/commit_manager.h:151-190 | If one is stale it fails and every key keeps its content |
| `FallbackCommit.FallbackRefinesBatch` | data_agent_system/agent_txn/commit_manager.h:103-190 | For any writes of distinct checked keys: the verdicts agree if and only if the unwritten checks hold whenever the written ones do; a successful batch has the verdict and store of the fallback; a failed fallback keeps all content |
| `FallbackCommit.ValidatedChecksHold` | data_agent_system/agent_txn/validation_manager.h:21-33 | Validation guarantees the checks on keys that are not written, which the fallback never looks at |
| `FallbackCommit.GuardedFallbackRefinesBatch` | data_agent_system/agent_txn/commit_manager.h:103-190 | The refinement for every validated branch that exempts no recorded read of an unbuffered object |
| `FallbackCommit.BranchFallbackRefinesBatch` | data_agent_system/agent_txn/commit_manager.h:103-190 | In particular for every validated branch built from intents that name their objects |
| `FallbackCommit.ExemptReadSplitsVerdicts` | data_agent_system/agent_txn/commit_manager.h:103-190 | If one read is exempt: from every store on which the branch commits, one more put of that object keeps validation and plan, fails the batch and lets the fallback commit |
| `FallbackCommit.VerdictsAgreeExactly` | data_agent_system/agent_txn/validation_manager.h:21-33 | For a branch that commits on some store, the verdicts agree on every store if and only if it exempts no read of an unbuffered object |
| `FallbackCommit.MisnamedIntentSplitsVerdicts` | data_agent_system/branch/branch_manager.h:106-155 | Such a branch can be built: a concrete one, with an intent that names another object than it is written to |
| `FallbackInterference.AloneIsApplyAll` | data_agent_system/agent_txn/commit_manager.h:151-190 | Left alone, the step machine of the plain fallback computes what the code does |
| `FallbackInterference.RunKeepsInv` | data_agent_system/agent_txn/commit_manager.h:151-190 | Invariant over every interleaving with clients that touch no applied key and do not remove a key between its look and its put |
| `FallbackInterference.FailedCommitIsInvisible` | data_agent_system/agent_txn/commit_manager.h:151-190 | A failed commit leaves each applied key at its recorded value and existence, created keys deleted, and every other key exactly, existence included, as the other clients alone would have left it; no undo is refused |
| `FallbackInterference.CommittedOverOthers` | data_agent_system/agent_txn/commit_manager.h:151-190 | A successful one adds exactly its writes, one version above what the others left, and leaves every other key exactly as they left it |
| `FallbackInterference.DeleteBreaksAbort` | data_agent_system/agent_txn/commit_manager.h:169-190 | In every state between the look at an existing key and its put: if others remove the key and put another value as often as it had versions, the put succeeds, its record does not hold what they left, and undoing it brings the old value back |
| `FallbackInterference.PutBreaksAbort` | data_agent_system/agent_txn/commit_manager.h:297-315 | In every state that is about to undo a write: one put of that key by others, whatever the value, makes the undo fail and leaves their value |
| `FallbackProtocol.DetectExact` | data_agent_system/agent_txn/fallback_commit_recovery.h:40-66 | Detection returns k if and only if exactly the first k writes are in the store, so k is unique; the stored count plays no part |
| `FallbackProtocol.RunKeepsInv` | data_agent_system/agent_txn/commit_manager.h:248-294 | Invariant of every run with crashes after every durable effect, nested recoveries and foreign work on other keys |
| `FallbackProtocol.AdvanceKeepsInv` | data_agent_system/agent_txn/commit_manager.h:248-294 | Every single durable effect of commit, recovery and rollback keeps it |
| `FallbackProtocol.PrefixInEveryRun` | data_agent_system/agent_txn/commit_manager.h:248-284 | While the durable phase is PREPARED or APPLYING the store holds exactly the first k writes, the durable count is k or k-1, detection finds k, and nobody is stuck |
| `FallbackProtocol.RestartResynchronises` | data_agent_system/agent_txn/fallback_commit_recovery.h:68-90 | In every run the first durable step of a restart records how many writes are in the store, whatever was recorded before, and is COMMITTED at once if all are |
| `FallbackProtocol.TerminalMeansAllOrNothing` | data_agent_system/agent_txn/commit_manager.h:286-294 | COMMITTED on disk means every key at its target one version up; ROLLED_BACK means every key at its old value and existence |
| `FallbackProtocol.TerminalIsFinal` | data_agent_system/agent_txn/fallback_commit_recovery.h:226-230 | A terminal artifact never changes again |
| `FallbackProtocol.ForwardFinishes` | data_agent_system/agent_txn/fallback_commit_recovery.h:92-124 | From any entry on, forward recovery finishes in two durable steps an entry and one more |
| `FallbackProtocol.ForwardCrashRecovery` | data_agent_system/agent_txn/fallback_commit_recovery.h:68-125 | From every crash point of every run with phase PREPARED or APPLYING, a completed recovery leaves all entries at target value and version expected+1, other keys untouched, and the artifact COMMITTED with the full count |
| `FallbackProtocol.RollbackFinishes` | data_agent_system/agent_txn/fallback_commit_recovery.h:150-210 | An uninterrupted rollback ends with every key at its old value and existence |
| `FallbackProtocol.InterruptedRollback` | data_agent_system/agent_txn/fallback_commit_recovery.h:127-211 | An interrupted rollback can be resumed if and only if it has not yet restored a key that existed, and then it finishes |
| `FallbackProtocol.StrandedRollback` | data_agent_system/agent_txn/fallback_commit_recovery.h:30-38 | The other case occurs: a run that leaves a rollback no restart can resume |
| `FallbackRecovery.DetectCommittedPrefix` | data_agent_system/agent_txn/fallback_commit_recovery.h:40-66 | Computes the detection of the specification, and counts a conflict exactly when it reports one |
| `FallbackRecovery.ForwardEntry` | data_agent_system/agent_txn/fallback_commit_recovery.h:92-114 | One pass of the forward loop takes the next two steps of the machine, or stops at a conflict or a failed artifact write |
| `FallbackRecovery.ResumeForwardFallbackCommit` | data_agent_system/agent_txn/fallback_commit_recovery.h:68-125 | Its durable effects are consecutive machine states from re-synchronisation on; success, counters, file and store are those of the last state |
| `FallbackRecovery.UndoLast` | data_agent_system/agent_txn/fallback_commit_recovery.h:150-200 | One pass of the rollback loop takes the next steps of the machine |
| `FallbackRecovery.NothingAlreadyUndone` | data_agent_system/agent_txn/fallback_commit_recovery.h:154-164 | The branch for an entry that already matches its previous value is never taken |
| `FallbackRecovery.ResumeRollbackFallbackCommit` | data_agent_system/agent_txn/fallback_commit_recovery.h:127-211 | As the forward case, and the rolled-back count is the detected prefix |
| `FallbackRecovery.TraceKeepsInv` | data_agent_system/agent_txn/fallback_commit_recovery.h:68-211 | Every state a resume passes through satisfies the crash invariant, so what is proved of runs holds inside the code |
| `FallbackRecovery.TraceStaysLive` | data_agent_system/agent_txn/fallback_commit_recovery.h:68-211 | Once past detection on a well-formed artifact no conflict can occur |
| `FallbackRecoveryPass.ProgressStep` | data_agent_system/agent_txn/fallback_commit_recovery.h:217-240 | Handling one artifact resolves it and leaves all key-disjoint ones as they were |
| `FallbackRecoveryPass.RecoverFallbackCommitArtifacts` | data_agent_system/agent_txn/fallback_commit_recovery.h:213-242 | Over key-disjoint well-formed artifacts: all before the first bad one are resolved and terminal, the bad one and the rest keep artifact and keys, recovered plus skipped is their number, and forward and back counts are the sums of n-k and k |
| `FallbackRecoveryPass.TalliesCountWrites` | data_agent_system/agent_txn/fallback_commit_recovery.h:213-242 | The sums: up to the first bad artifact every write that was in the store is counted as rolled back, and every write that was not as rolled forward, each for the artifacts in that phase |
| `FallbackRecoveryPass.PassSucceedsExactly` | data_agent_system/agent_txn/fallback_commit_recovery.h:213-242 | The pass stops nowhere if and only if every path has an artifact that is terminal, whatever has become of its keys, or whose store holds exactly its first writes |
| `FallbackAttempt.PreparedIsInit` | data_agent_system/agent_txn/commit_manager.h:212-237 | A prepared artifact starts a run of the crash machine |
| `FallbackAttempt.AttemptRollsBack` | data_agent_system/agent_txn/commit_manager.h:248-264 | The first key that does not exist turns the attempt into a rollback that restores all content |
| `FallbackAttempt.CrashSafeAgainstBatch` | data_agent_system/agent_txn/commit_manager.h:195-295 | If the batch fails nothing is prepared; if it succeeds the crash-safe commit ends committed with the store of the batch if and only if every written key exists, and rolled back to the old content otherwise |
| `CommitManager.PrepareArtifact` | data_agent_system/agent_txn/commit_manager.h:212-237 | Records what the store holds for every write, or refuses when a key is stale |
| `CrashSafeCommit.AttemptEntry` | data_agent_system/agent_txn/commit_manager.h:248-276 | One pass of the first attempt takes the next steps of the machine; a missing key turns it around |
| `CrashSafeCommit.ApplyPrepared` | data_agent_system/agent_txn/commit_manager.h:248-294 | The attempt follows the machine from the prepared artifact to commit, rollback or simulated crash; a failed attempt never leaves COMMITTED on disk |
| `CrashSafeCommit.DoneOnce` | data_agent_system/agent_txn/commit_manager.h:248-294 | A process left alone finishes in one state only |
| `CrashSafeCommit.FinishedAttempt` | data_agent_system/agent_txn/commit_manager.h:195-295 | The attempt as the code runs it commits exactly when the batch does and every key exists, with the batch store, and never gets stuck |
| `CommitManager.CommitCrashSafe` | data_agent_system/agent_txn/commit_manager.h:195-295 | Store, file and verdict are those of the last machine state, failed artifact writes included |
| `CommitManager.CommitWinner` | data_agent_system/agent_txn/commit_manager.h:20-127 | Refusal changes nothing; otherwise one of the three commits runs; the commit log holds the writes with their checked versions on success and is kept otherwise |
| `CommitManager.CommitMeansBatch` | data_agent_system/agent_txn/commit_manager.h:101-127 | Whatever the kind of store, success does exactly what the atomic batch does, and a finished failure keeps every value and existence; on a store without atomic batches for branches that exempt no read |
| `AgentTxnManager.SelectWinner` | data_agent_system/branch/branch_manager.h:44-53 | The first branch with the highest score; none only if there is no branch |
| `Staging.WinnerIsBestStaged` | data_agent_system/branch/branch_manager.h:44-53 | Over programs: the winner is the first branch whose last staged score is highest |
| `AgentTxnManager.MarkWinnerAndLosers` | data_agent_system/branch/branch_manager.h:55-64 | Marks every branch by whether it has the winning id, and changes nothing else |
| `AgentTxnManager.FindBranch` | data_agent_system/branch/branch_manager.h:28-34 | The first branch of an id, if there is one |
| `AgentTxnManager.AbortTransaction` | data_agent_system/agent_txn/rollback_manager.h:37-42 | Aborts and discards every branch |
| `AgentTxnManager.DiscardOthers` | data_agent_system/agent_txn/agent_txn_manager.h:58-62 | Discards exactly the branches of other ids |
| `AgentTxnManager.ValidateAndCommit` | data_agent_system/agent_txn/agent_txn_manager.h:43-54 | With atomic batches or the plain fallback succeeds if and only if the validated batch does; success has its store and log; a finished failure keeps all content |
| `AgentTxnManager.SelectWinnerAndCommit` | data_agent_system/agent_txn/agent_txn_manager.h:30-64 | The whole sequence: winner named, outcome as above on the initial store, transaction committed or aborted, every branch committed, marked or discarded accordingly |
| `Serializability.CurrentPlanIsGrounded` | data_agent_system/agent_txn/commit_manager.h:24-106 | If the checks of a plan hold, everything the branch still has on record is at the version recorded |
| `Serializability.RunAgrees` | data_agent_system/branch/branch_manager.h:66-155 | Operation by operation, rollbacks included, running again on the store of the commit agrees with the first run |
| `Serializability.AnswersAgree` | data_agent_system/branch/branch_manager.h:66-88 | Every read is answered again at the version the store then holds, and with the same answer if that is the version of the first time |
| `Serializability.EndStateSerializability` | data_agent_system/agent_txn/commit_manager.h:24-106 | Any program whose buffered objects end up overwritten, interleaved with clients that do anything but remove an object it fetched: if its batch succeeds, running it all again at the commit instant ends with the same records, buffer, logs and plan |
| `Serializability.RemovalBreaksEndState` | data_agent_system/agent_txn/commit_manager.h:24-106 | In every such execution and for every buffered object that exists at a version above 0: if others remove it and put another value as often as it had versions, the same batch still succeeds and the end state is not serializable |
| `Serializability.StrictSerializability` | data_agent_system/agent_txn/commit_manager.h:24-106 | The same with all answers on the way, if every version a read was answered with is still on record at the end |
| `Serializability.RollbackFreeIsOnRecord` | data_agent_system/branch/branch_manager.h:66-155 | That is so for every program without rollbacks |
| `Serializability.LostReadBreaks` | data_agent_system/branch/branch_manager.h:72-80 | If an answered version is not on record, the answer changes at once or after one more put of the object, and the same batch still succeeds |
| `Serializability.SerializableExactly` | data_agent_system/agent_txn/commit_manager.h:24-106 | The answers are serializable at the commit and after any further puts for which the batch would still succeed, if and only if every answered version is on record |
| `Serializability.RolledBackWriteHidesRead` | data_agent_system/branch/branch_manager.h:72-80 | Answers do get lost: a concrete program that rolls back a write it has read |
| `RebaseSerializability.ResolvedAlike` | data_agent_system/intent/policy_dispatcher.h:62-115 | Two branches with the same intents, one started from what the store holds now, resolve an object that ends replaced, or is only appended to or only added to, to the same write, unless a delta before it became an integer would be lost |
| `RebaseSerializability.EntriesAgain` | data_agent_system/agent_txn/commit_manager.h:49-99 | Planning over versions that are all current never refuses, writes the same and checks the same keys |
| `RebaseSerializability.BatchSerializability` | data_agent_system/agent_txn/commit_manager.h:24-106 | Any program of overwrites, compare-and-swaps, appends and deltas, rollbacks included, planned on a store that changes between any two looks: if its batch succeeds, it equals, checks and writes, the batch of the same program run at that instant, if and only if every object only added to started as an integer or its earlier deltas cancel out |
| `DeltaConservation.BatchAdds` | data_agent_system/intent/policy_dispatcher.h:85-102 | If its checks hold, the batch of a delta-only branch adds exactly its net delta to the counter |
| `DeltaConservation.CommitAdds` | data_agent_system/agent_txn/commit_manager.h:60-92 | So does a committed attempt inside a history, however old the values are that it was planned from |
| `BranchFold.BasesComeFromViews` | data_agent_system/branch/branch_manager.h:116-121 | Every buffered entry, and every one undoing could bring back, started as a copy of what the store held when one of the operations ran |
| `DeltaConservation.ExecutionSends` | data_agent_system/branch/branch_manager.h:106-155 | Every execution of a delta branch over the history sends such an attempt |
| `DeltaConservation.DeltaConservation` | data_agent_system/agent_txn/commit_manager.h:60-106 | Over any interleaving of delta transactions with operations that leave the counter an integer, it is its initial value plus the net deltas of exactly the committed attempts plus external changes |
| `CommitLogRecovery.RecoverLog` | data_agent_system/agent_txn/commit_log_recovery.h:42-58 | Recovers the entries of one log up to the first conflict, skipping those already there |
| `CommitLogRecovery.RecoverCommittedWrites` | data_agent_system/agent_txn/commit_log_recovery.h:22-64 | Recovers all logs in order, skips uncommitted ones, stops at a conflict or an unreadable log, and counts each |
| `CommitLogRecovery.ReplayCommitLogArtifacts` | data_agent_system/agent_txn/commit_log_replay.h:91-112 | The last committed entry of every key |
| `CommitLogRecovery.ChainRecovers` | data_agent_system/agent_txn/commit_log_recovery.h:42-58 | On a version chain every entry is written |
| `CommitLogRecovery.RecoveryAgreesWithReplay` | data_agent_system/agent_txn/commit_log_recovery.h:22-64 | On version chains recovery succeeds and ends with the values replay computes, at version expected+1, other keys untouched |
| `CommitLogRecovery.RestartExact` | data_agent_system/agent_txn/commit_log_recovery.h:42-58 | Restarting after the first k entries succeeds if and only if they name each key once, and then ends where one run ends, having skipped k; with all entries this is idempotence |
| `CommitLogRecovery.PlannedIsPlausible` | data_agent_system/agent_txn/commit_manager.h:24-99 | Every plan of a branch with a consistent buffer has distinct written keys, all of them checked |
| `CommitLogRecovery.LogReplayEqualsExecution` | data_agent_system/agent_txn/commit_manager.h:119-126 | Running any batch attempts one after the other and recovering their logs from the same start gives exactly the final store, with no conflict and no skip, if every log can be parsed, and fails otherwise; aborted attempts contribute nothing |
| `CommitLogOutcome.ReplayedIsLast` | data_agent_system/agent_txn/commit_log_replay.h:91-112 | Replay knows exactly the keys that some entry names, each with the last entry that does |
| `CommitLogOutcome.RecoveryEnds` | data_agent_system/agent_txn/commit_log_recovery.h:22-62 | For any logs and any store: where recovery stops, each of its counts, and what the store then holds |
| `CommitLogOutcome.RecoverySucceedsExactly` | data_agent_system/agent_txn/commit_log_recovery.h:22-62 | It succeeds if and only if every log parses and every entry finds its key at the expected version or holding its own write; then each key holds the last write committed to it, one version above the expected one, and all others are as they were; otherwise it fails with exactly one conflict or unreadable log |
| `CommitLogOutcome.OnceRecoversExactly` | data_agent_system/agent_txn/commit_log_recovery.h:42-58 | Entries that name each key once are recovered if and only if each fits the store as it was at the start |
| `FileStore.RunKeepsInv` | data_agent_system/storage/file_kv_store.h:188-262 | Invariant of the files over every run with crashes, restarts, reloads and failing file operations |
| `FileStore.LoadIsOldOrNew` | data_agent_system/storage/file_kv_store.h:188-262 | A load that gets to the store file finds the snapshot saved last or one whose persist began since, whole, and neither temporary file nor journal is left |
| `FileStore.LoadIsOldOrNewMap` | data_agent_system/storage/file_kv_store.h:204-262 | In terms of maps: it yields one of the maps those snapshots hold, whole, if and only if that map has no empty value |
| `FileStore.TempMeansJournal` | data_agent_system/storage/file_kv_store.h:256-258 | The branch for a temporary file without a journal is never taken |
| `FileStore.RecoveryLeavesOneFile` | data_agent_system/storage/file_kv_store.h:243-262 | Still, whatever files it finds, recovery leaves no temporary file and no journal, and a store file with what a load would have found |
| `FileStore.OutcomeIsSettled` | data_agent_system/storage/file_kv_store.h:243-262 | Crashes during recovery never change what the load will find |
| `FileStore.SnapshotDecides` | data_agent_system/storage/file_kv_store.h:188-202 | After a crash while persisting, the load finds the new map exactly if the snapshot had been written, and the old one otherwise |
| `FileStore.PersistIsRun` | data_agent_system/storage/file_kv_store.h:188-202 | A persist of the store object that stops after any number of its steps, by failure or crash, continues any run of the machine and leaves exactly its disk |
| `FileStore.RecoveryIsRun` | data_agent_system/storage/file_kv_store.h:243-262 | And so does a recovery that stops after any number of its steps; it has loaded the store file if these are all |
| `FileStore.FileKVStore.PersistToDisk` | data_agent_system/storage/file_kv_store.h:188-202 | Journal, snapshot, rename, removal in this order, stopping at the first failure, the disk being that after the steps taken |
| `FileStore.FileKVStore.RecoverIfNeeded` | data_agent_system/storage/file_kv_store.h:243-262 | Takes the steps that the files ask for, stopping at the first failure; keeps what a load will find either way, and leaves no temporary file or journal on success |
| `SnapshotText.ListRows` | data_agent_system/storage/file_kv_store.h:265-276 | Lists every entry of the map once |
| `FileStore.FileKVStore.LoadFromDisk` | data_agent_system/storage/file_kv_store.h:204-241 | Loads what the recovered store file yields, the rows before an unreadable one if there is one, and nothing if recovery failed |
| `FileStore.FileKVStore.Put` | data_agent_system/storage/file_kv_store.h:35-41 | New map in memory, and on disk when it reports success |
| `FileStore.FileKVStore.PutIfVersion` | data_agent_system/storage/file_kv_store.h:43-54 | As the in-memory store; a refused put writes nothing to disk but may leave an empty entry in memory |
| `FileStore.FileKVStore.DeleteIfVersion` | data_agent_system/storage/file_kv_store.h:56-68 | As the in-memory store, persisted |
| `FileStore.FileKVStore.BatchPutIfVersion` | data_agent_system/storage/file_kv_store.h:70-92 | As the in-memory store, persisted |
| `SnapshotText.ReadSnapshot` | data_agent_system/storage/file_kv_store.h:211-240 | The load loop over the lines of a store file |
| `SnapshotText.SnapshotRoundTrip` | data_agent_system/storage/file_kv_store.h:204-283 | A store file reads back as its map, whatever its order and text, if and only if no value is empty |
| `SnapshotText.LoadKeepsRows` | data_agent_system/storage/file_kv_store.h:215-240 | Loading any text with the right header keeps exactly the rows before the first line that cannot be read, of each key the last, and fails if there is such a line |
| `SnapshotText.EmptyLineIsIgnored` | data_agent_system/storage/file_kv_store.h:223-226 | Empty lines after the header change nothing |
| `SnapshotText.RefusedPutBreaksSnapshot` | data_agent_system/storage/file_kv_store.h:43-50 | So the empty entry a refused put leaves makes the next store file unreadable |
| `TaskRuntime.SubmitTask` | data_agent_system/runtime/task_runtime.h:80-98 | Starts a running session with one branch and one event for each branch of the plan; none exactly if the task or the plan is invalid |
| `TaskRuntime.ValidatePlan` | data_agent_system/runtime/execution_plan.h:41-58 | A plan is valid if it is not empty, every branch has an id and a candidate, and no id occurs twice |
| `TaskRuntime.Read` | data_agent_system/runtime/task_runtime.h:111-118 | Reads through the named branch and records the event with value and version |
| `TaskRuntime.Write` | data_agent_system/runtime/task_runtime.h:131-139 | Buffers the write and records payload and kind of the intent |
| `TaskRuntime.Savepoint` | data_agent_system/runtime/task_runtime.h:153-158 | Takes a savepoint and records it |
| `TaskRuntime.RollbackToSavepoint` | data_agent_system/runtime/task_runtime.h:170-179 | Rolls back and records the event only if it did |
| `TaskRuntime.StageBranch` | data_agent_system/runtime/task_runtime.h:191-198 | Stages the branch and records score and summary |
| `TaskRuntime.CommitTask` | data_agent_system/runtime/task_runtime.h:211-232 | Records the attempt, selects and commits the winner, and records the outcome with the winner; phase, flag and attempts follow; without branches it throws after the attempt |
| `TaskRuntime.AbortTask` | data_agent_system/runtime/task_runtime.h:238-247 | Discards every branch and records the abort |
| `TaskRuntime.ReplayEvent` | data_agent_system/runtime/task_runtime.h:578-613 | Replays one event on the branches; a read is recorded without asking the store |
| `TaskRuntime.BuildRecoveryPlan` | data_agent_system/runtime/task_recovery.h:274-295 | The plan of the recovered task, the branches the events created or the one to resume if there are none, and its objective, the one submitted last |
| `TaskRuntime.RebuildRecoveredSessionState` | data_agent_system/runtime/task_runtime.h:569-635 | Submits the recovered task again and replays every event: a running session with the attempts and the flag given; none exactly if the task has no id or the recovered plan is invalid |
| `TaskRuntime.ApplyRecoveredTerminalState` | data_agent_system/runtime/task_runtime.h:637-679 | Transaction, task and every branch end as committed, aborted or running, by the flag and the decision |
| `TaskRuntime.RecoverSessionFromLog` | data_agent_system/runtime/task_runtime.h:287-296 | From the text of a log: the decision, the attempts, the flag and the rebuilt branches in their terminal states; a session exactly if the text parses, has the lines looked up without a default and a task id, and gives a valid plan |
| `TaskRuntime.ExecuteResume` | data_agent_system/runtime/task_runtime.h:344-357 | Rolls the target branch back to the savepoint and marks it running; false exactly if there is no such branch or savepoint |
| `TaskEvents.OperationAlike` | data_agent_system/runtime/task_runtime.h:578-613 | Replaying the event of any operation does to the rebuilt branch what the operation did |
| `TaskEvents.IntentCodesExactly` | data_agent_system/runtime/task_runtime.h:551-567 | Each code stands for its kind of intent, and any other for an overwrite |
| `TaskEvents.ReplaySimulates` | data_agent_system/runtime/task_runtime.h:569-616 | Event-log replay simulates the session over any operations: same buffer up to object types, intents up to conditions, savepoints, status, and a read set of which the original is a subsequence |
| `TaskRecovery.RecoverTaskSessionDecision` | data_agent_system/runtime/task_recovery.h:154-228 | The decision with its reverse scans computes the specification |
| `TaskRecovery.RebuildSimulates` | data_agent_system/runtime/task_recovery.h:270-296 | Recovery starts from the branches that were planned, and every branch it rebuilds is alike to the original |
| `TaskRecovery.DecidedEvent` | data_agent_system/runtime/task_recovery.h:171-178 | A resume names a savepoint event of its branch after which the branch has none |
| `TaskRecovery.SavepointSource` | data_agent_system/runtime/task_runtime.h:153-158 | Every savepoint event comes from the operation that took that savepoint |
| `TaskRecovery.EventTells` | data_agent_system/runtime/task_runtime.h:111-198 | Every event after the submission is numbered by its place and tells one operation of the session: branch, object, kind and payload of a write, the answer of a read, score and summary of a staging |
| `TaskRecovery.UnplannedIsRecovered` | data_agent_system/runtime/task_recovery.h:290-295 | A log that plans no branch is recovered with the one branch to resume, exactly if there is one |
| `TaskRecovery.ResumeLandsExactly` | data_agent_system/runtime/task_runtime.h:344-357 | Resuming from the decided savepoint gives buffer, intents and savepoints of the moment it was taken, if its id was new and no later rollback went below it |
| `TaskLifecycle.LogTells` | data_agent_system/runtime/task_session.h:44-54 | At any moment of a task it is committed if and only if the last outcome in its log is a commit, aborted if and only if that is an abort, and running without one; the attempts are counted, and numbered in the log |
| `TaskLifecycle.DecidesExactly` | data_agent_system/runtime/task_recovery.h:187-228 | Recovery skips a task exactly if it is committed, starts it afresh exactly if it is aborted, commits it again exactly if it is running and its last event is an attempt, and otherwise goes on in the branch the log named last, from the last savepoint taken there unless there is none or it has no id |
| `TaskLifecycle.PlanIsKept` | data_agent_system/runtime/task_recovery.h:270-296 | Whatever a task does, it keeps its branches in their places, and its log the objective and the plan |
| `TaskLifecycle.EndIsRecoveredExactly` | data_agent_system/runtime/task_runtime.h:637-679 | A task that has just ended is recovered with the status of every branch, after a commit and after an abort on request; after a failed commit it is not: there the branch that should have won is discarded but recovered as aborted |
| `TaskLifecycle.RunningIsRecovered` | data_agent_system/runtime/task_runtime.h:637-679 | A task that has not ended is recovered with the status of every branch, except that the one to go on with is running |
| `TaskLifecycle.PrintedTaskDecides` | data_agent_system/runtime/task_event_log_io.h:91-121 | Whatever a task has done, its log can be printed, parsed and recovered, and gives that decision |
| `Recommit.StoppedCommitIsRevalidated` | data_agent_system/runtime/task_runtime.h:358-360 | A session that stops in the middle of its commit is recovered with the decision to commit again and with branches alike to those it had |
| `Recommit.RecommitExactly` | data_agent_system/runtime/task_runtime.h:358-360 | Committing a rebuilt branch succeeds exactly where the original would have, except that it is stricter about the additional reads and does not test the conditions of compare-and-swaps |
| `Recommit.RecommitWritesTheSame` | data_agent_system/runtime/task_runtime.h:358-360 | Where both can be planned and the conditions hold, both write the same |
| `Recommit.LostCondition` | data_agent_system/runtime/task_runtime.h:592-600 | A compare-and-swap that fails refuses the original, but never the rebuilt branch |
| `TextCodec.EscapeText` | data_agent_system/agent_txn/commit_log_io.h:12-34 | Escapes backslash, tab and line break |
| `TextCodec.UnescapeText` | data_agent_system/agent_txn/commit_log_io.h:36-67 | The loop with its pending-backslash flag computes the unescaped text |
| `TextCodec.UnescapeInvertsEscape` | data_agent_system/agent_txn/commit_log_io.h:12-67 | Unescaping inverts escaping for any text |
| `TextCodec.EscapedIsPlain` | data_agent_system/agent_txn/commit_log_io.h:12-34 | Escaped text has no tab or line break, and is empty only for empty text |
| `TextCodec.StreamFieldsOfJoined` | data_agent_system/agent_txn/commit_log_replay.h:71-79 | Chained field reads give the fields back if and only if the last one is not empty |
| `TextCodec.LinesOfPrinted` | data_agent_system/agent_txn/commit_log_replay.h:54-54 | Lines without line breaks read back as printed |
| `LogText.ReadLog` | data_agent_system/agent_txn/commit_log_replay.h:45-70 | The line loop of the log parsers: header, key lines, marker, rows |
| `LogText.ParsesExactly` | data_agent_system/agent_txn/commit_log_replay.h:45-70 | Any text parses if and only if it starts with the header and every line before the first marker is empty or holds an equals sign; its rows are the later lines that are neither empty nor a marker |
| `LogText.ValuesExactly` | data_agent_system/agent_txn/commit_log_replay.h:45-70 | Of any text that is parsed, a key has the value that the last line before the first marker gives it, and none without such a line |
| `LogText.ParsePrinted` | data_agent_system/agent_txn/commit_log_io.h:87-109 | Parsing a printed log gives back the last value of every key and all rows |
| `RowText.RowRoundTrip` | data_agent_system/agent_txn/commit_log_replay.h:71-87 | A row of key, version and value reads back if and only if its value is not empty |
| `CommitLogText.ReadCommitLog` | data_agent_system/agent_txn/commit_log_replay.h:32-89 | Yields the entries and whether the last status line says COMMITTED, or nothing if the header, a key line or a row is malformed |
| `CommitLogText.CommittedExactly` | data_agent_system/agent_txn/commit_log_recovery.h:36-40 | Of any text that is parsed, the log counts as committed if and only if a line before the first marker gives a status, and the last one that does says COMMITTED |
| `CommitLogText.CommitLogRoundTrip` | data_agent_system/agent_txn/commit_log_io.h:80-113 | A commit log as the writer prints it, metrics included, parses to its verdict and entries if and only if no entry has an empty value |
| `CommitLogText.PrintedLogsRecover` | data_agent_system/agent_txn/commit_log_recovery.h:22-64 | From the log files: recovery succeeds if and only if no log holds an empty value, and then equals execution |
| `FallbackLogText.ReadArtifact` | data_agent_system/agent_txn/fallback_commit_log.h:112-195 | Yields the artifact, or nothing if the header, a key line or a row is malformed or the count exceeds the entries |
| `FallbackLogText.PhaseNamesExactly` | data_agent_system/agent_txn/fallback_commit_log.h:59-73 | Each name stands for its phase, and any other for PREPARED |
| `FallbackLogText.EntryRoundTrip` | data_agent_system/agent_txn/fallback_commit_log.h:150-186 | An entry survives whatever text it holds, empty values included |
| `FallbackLogText.ArtifactRoundTrip` | data_agent_system/agent_txn/fallback_commit_log.h:75-195 | Parsing a printed artifact returns it unchanged if and only if its count does not exceed its entries |
| `IndexedFields.KeyInjective` | data_agent_system/workloads/kv_style/scripted_kv_task.h:140-151 | Numbered keys name their number and suffix |
| `IndexedFields.BlockHas` | data_agent_system/workloads/kv_style/scripted_kv_task.h:139-151 | Every field under numbered keys is found in the map built from them |
| `TaskLogText.ReadTaskLog` | data_agent_system/runtime/task_event_log_replay.h:74-140 | Yields the header values and the events, or nothing if a key line is malformed or a row has not exactly six fields, which may be empty |
| `TaskLogText.TypeNamesExactly` | data_agent_system/runtime/task_recovery.h:71-103 | Each name stands for its type of event, and any other for a submission |
| `TaskLogText.EventRoundTrip` | data_agent_system/runtime/task_event_log_replay.h:107-136 | An event survives whatever text it holds |
| `TaskLogText.RestoreTaskContext` | data_agent_system/runtime/task_recovery.h:109-152 | Rebuilds input objects, output objects and metadata from numbered lines, skipping empty ids and keys |
| `TaskLogText.TaskLogRoundTrip` | data_agent_system/runtime/task_event_log_io.h:63-121 | A log as the writer prints it gives back all events, the objects that have an id, exactly the metadata whose keys are not empty, the phase, the attempts and the flag |
| `TaskLogText.DecisionFromText` | data_agent_system/runtime/task_recovery.h:154-228 | From the file, recovery decides as it would from the session |
| `TaskLogText.WrittenIsRecoverable` | data_agent_system/runtime/task_event_log_io.h:84-121 | A log as the writer prints it can be recovered if and only if the task has an id and the plan found in its events is valid |
| `TaskLogText.RecoverableHasLines` | data_agent_system/runtime/task_recovery.h:308-312 | No text is recovered that lacks a line with the attempts, the flag or the task id |
| `TaskLogText.SubmittedIsRecoverable` | data_agent_system/runtime/task_runtime.h:80-98 | So the log of any session whose task was accepted can be recovered, whatever the session did |
| `RecoverySteps.LoadRecoverySteps` | data_agent_system/workloads/kv_style/scripted_kv_task.h:246-280 | Loads the numbered steps from the task metadata; codes are cast to their enumerations unchecked, keeping the low 32 bits |
| `RecoverySteps.KindNamesExactly` | data_agent_system/workloads/kv_style/scripted_kv_task.h:65-76 | Each name stands for its kind of step, and any other for a read |
| `RecoverySteps.StepDecodes` | data_agent_system/workloads/kv_style/scripted_kv_task.h:139-280 | One step survives being stored as text, whatever its codes, with its intent renamed to its object |
| `RecoverySteps.RecoveryStepsSurvive` | data_agent_system/workloads/kv_style/scripted_kv_task.h:139-280 | The steps of a script survive script, metadata, event log, parsed log, restored metadata, the entries recovery adds, and loading, whatever text they hold, with each intent renamed to its object |

## Left out

- Wrap-around at 64 bits: versions, counts and sequence numbers are unbounded; the codecs state the range
  they need. Signed overflow while adding deltas is undefined in the original and is kept out by range
  conditions.
- Scores are integers here and `double` in the original; the logs store them lossily, so nothing is said
  about fractions.
- Mutexes: every store method holds one lock for its whole body and is one step.
- Real file streams, directory listing and `mkdir`: a file is a cell that is replaced as a whole. A failing
  file operation is a nondeterministic choice that leaves the old file. Half-written temporary files are
  not part of this model.
- `ArtifactDirectory.Write`: the artifact file is a typed cell; that its text round-trips is
  `ArtifactRoundTrip`, proved apart.
- `FileKVStore.constructor`: a load that fails goes unnoticed, as in the original; what later writes then
  overwrite is not tracked beyond `LoadIsOldOrNew`.
- Redis and RocksDB adapters, the store factory and its configuration: delegation only.
- `MemoryKVStore.BatchPutIfVersion`: the variant without atomic batches is the same class with a flag, not a
  wrapper around another store.
- Metrics, latencies, CSV output, demos and the Python and shell scripts: reporting only.
- Null `failure` and `result` pointers: every call is taken to pass one. (In the original, a null `failure`
  lets a conflicting expected version through.)
- `CommitWinner`: the texts of failure reasons are kept but nothing is proved about them; the case of a put
  that fails after its version was just read belongs to `FallbackInterference`, where others may interfere.
- `AgentTxnManager.FindBranch`: the test for a missing winner after selection is dead code and has no branch.
- `RecoverFallbackCommitArtifacts`: for artifacts that share keys, or after a failed artifact write, the
  contract says nothing about the counts; each single resume is still described by its own contract.
- `FailedCommitIsInvisible`: existence is compared with what the commit recorded when it looked, because a
  refused put by another client can create an empty entry at version 0 between the look and the put.
- `StrictSerializability`: existence flags of reads may differ for keys at version 0, for the same reason.
- `SerializableExactly`: branches in which a buffered object ends with a latest intent other than an
  overwrite are not serializable in this sense, because commit rebases them; what holds for them is
  `BatchSerializability` and `DeltaConservation`.
- `BatchSerializability`: nothing is said about an object that ends with an append or a delta after intents of
  another kind, because commit then resolves it from the value the branch started with (what is written is in
  `BatchPerforms`); nor about deltas whose
  partial sums leave 64 bits, whether over the branch's start or over what the store holds at commit.
- `DeltaConservation`: one counter at a time; the other keys of the transactions are arbitrary.
- Archiving and sweeping of terminal artifacts, startup recovery and the finalisation of artifacts after a
  commit: bookkeeping around the recovery pass.
- The continuation registry and workload callbacks: dispatch through stored function objects.
- `RecoverTaskSessionDecision`: the texts of its reasons.
- `CommitTask`: the transaction, a member of the session in the original, is passed beside it and shares its
  branches.
- `RecoverSessionFromLog`: the recovered task's names and plan rationales, the object that recovery adds to a
  task without inputs or outputs, and the winner it records.
- Parsed commit log metadata beyond the verdict.
