/** The task runtime, as it runs: session operations that record events, and recovery from the log. */
module TaskRuntime {
  import opened Wrappers
  import opened KvStore
  import opened Intents
  import opened Branches
  import opened TaskEvents
  import opened TaskRecovery
  import opened TaskLifecycle
  import opened AgentTxnManager
  import opened Decimal
  import opened TaskLogText
  import AgentTxn
  import BranchManager
  import FallbackLog

  class TaskSession {
    var branches: seq<BranchContext>
    var events: seq<TaskEvent>
    var status: AgentTxn.TxnStatus
    var phase: TaskPhase
    var commitAttempts: nat
    var committed: bool

    /** A submitted session is running. */
    constructor ()
      ensures branches == [] && events == [] && commitAttempts == 0 && !committed
      ensures status == AgentTxn.TxnStatus.Running && phase == RunningPhase
    {
      branches, events, commitAttempts, committed := [], [], 0, false;
      status, phase := AgentTxn.TxnStatus.Running, RunningPhase;
    }

    method RecordEvent(eventType: EventType, branchId: string, objectId: string, detail: string, numericValue: int)
      modifies this`events
      ensures events == old(events) + [TaskEvent(|old(events)|, eventType, branchId, objectId, detail, numericValue)]
    {
      events := events + [TaskEvent(|events|, eventType, branchId, objectId, detail, numericValue)];
    }
  }

  ghost function ReadSets(branches: seq<BranchContext>): set<ReadSet> {
    set b <- branches :: b.readSet
  }

  /** The session object stands for the session `s`. */
  ghost predicate Shows(session: TaskSession, s: Session)
    reads session, session.branches, ReadSets(session.branches), Buffers(session.branches), IntentLogs(session.branches)
  {
    Separate(session.branches) && Are(session.branches, s.branches) && session.events == s.events
  }

  // ---- Branches by id ----

  lemma FoundIsIndex(states: seq<BranchState>, id: string, w: nat)
    requires FirstNamed(states, id, w)
    ensures BranchIndex(states, id) == w
  {
  }

  method Find(
      branches: seq<BranchContext>, id: string, ghost states: seq<BranchState>)
    returns (found: Option<BranchContext>)
    requires Are(branches, states)
    ensures found.None? <==> BranchIndex(states, id) == |states|
    ensures found.Some? ==> found.value == branches[BranchIndex(states, id)]
  {
    ghost var w;
    found, w := FindBranch(branches, id, states);
    if found.Some? {
      FoundIsIndex(states, id, w);
    }
  }

  // ---- Submission ----

  method ValidatePlan(plans: seq<BranchPlan>) returns (valid: bool)
    ensures valid == ValidPlan(plans)
  {
    if plans == [] {
      return false;
    }
    var ids: set<string> := {};
    for i := 0 to |plans|
      invariant forall j :: 0 <= j < i ==> plans[j].branchId != "" && plans[j].candidateId != ""
      invariant forall j, k :: 0 <= j < k < i ==> plans[j].branchId != plans[k].branchId
      invariant forall id :: id in ids <==> exists j :: 0 <= j < i && plans[j].branchId == id
    {
      if plans[i].branchId == "" || plans[i].candidateId == "" {
        assert plans[i] in plans;
        return false;
      }
      if plans[i].branchId in ids {
        return false;
      }
      ids := ids + {plans[i].branchId};
    }
    valid := true;
  }

  lemma SubmittedOneMore(objective: string, plans: seq<BranchPlan>, plan: BranchPlan)
    ensures var s, t := Submitted(objective, plans), Submitted(objective, plans + [plan]);
      && t.branches == s.branches + [NewBranch(plan.branchId)] && |s.branches| == |plans|
      && t.events == s.events
           + [TaskEvent(|s.events|, EventType.CreateBranch, plan.branchId, "", plan.candidateId, plan.priority)]
  {
  }

  lemma OneMoreBranch(branches: seq<BranchContext>, states: seq<BranchState>, branch: BranchContext, b: BranchState)
    requires Separate(branches) && Are(branches, states) && InState(branch, b)
    requires forall other <- branches :: other.Parts() !! branch.Parts()
    ensures Separate(branches + [branch]) && Are(branches + [branch], states + [b])
  {
  }

  /** One more branch of the plan. */
  method CreateBranch(session: TaskSession, plan: BranchPlan, ghost objective: string, ghost plans: seq<BranchPlan>)
    requires Shows(session, Submitted(objective, plans))
    modifies session`branches, session`events
    ensures Shows(session, Submitted(objective, plans + [plan]))
    ensures forall b <- session.branches :: b in old(session.branches) || fresh(b.Parts())
  {
    SubmittedOneMore(objective, plans, plan);
    var branch := new BranchContext(plan.branchId);
    OneMoreBranch(session.branches, NewBranches(plans), branch, NewBranch(plan.branchId));
    session.branches := session.branches + [branch];
    session.RecordEvent(EventType.CreateBranch, plan.branchId, "", plan.candidateId, plan.priority);
  }

  method CreateBranches(session: TaskSession, plans: seq<BranchPlan>, ghost objective: string)
    requires Shows(session, Submitted(objective, []))
    modifies session`branches, session`events
    ensures Shows(session, Submitted(objective, plans))
    ensures forall b <- session.branches :: fresh(b.Parts())
  {
    assert plans[..0] == [];
    for i := 0 to |plans|
      invariant Shows(session, Submitted(objective, plans[..i]))
      invariant forall b <- session.branches :: fresh(b.Parts())
    {
      CreateBranch(session, plans[i], objective, plans[..i]);
      assert plans[..i] + [plans[i]] == plans[..i + 1];
    }
    assert plans[..|plans|] == plans;
  }

  /** Starts a session, unless the task or its plan is invalid, on which the original throws. */
  method SubmitTask(taskId: string, objective: string, plans: seq<BranchPlan>) returns (session: Option<TaskSession>)
    ensures session.Some? <==> ValidTask(taskId, objective) && ValidPlan(plans)
    ensures session.Some? ==>
      && fresh(session.value) && (forall b <- session.value.branches :: fresh(b.Parts()))
      && Shows(session.value, Submitted(objective, plans))
      && session.value.commitAttempts == 0 && !session.value.committed
      && session.value.status == AgentTxn.TxnStatus.Running && session.value.phase == RunningPhase
  {
    var valid := ValidatePlan(plans);
    if taskId == "" || objective == "" || !valid {
      return None;
    }
    var started := new TaskSession();
    started.RecordEvent(EventType.SubmitTask, "", "", objective, 0);
    assert started.events == Submitted(objective, []).events;
    CreateBranches(started, plans, objective);
    session := Some(started);
  }

  // ---- Session operations ----

  method Read(session: TaskSession, branchId: string, objectId: string, store: MemoryKVStore, ghost s: Session)
    returns (r: VersionedValue)
    requires Shows(session, s)
    modifies session`events, (set b <- session.branches)`status, ReadSets(session.branches)
    ensures Shows(session, Operated(s, SessionOp(branchId, BranchOp.Read(objectId)), store.values))
    ensures r == Answer(s.branches, branchId, objectId, store.values)
  {
    var branch := Find(session.branches, branchId, s.branches);
    r := VersionedValue("", 0, false);
    if branch.Some? {
      ghost var w := BranchIndex(s.branches, branchId);
      assert session.branches[w] in session.branches && InState(session.branches[w], s.branches[w]);
      r := BranchManager.ReadObject(branch.value, objectId, store);
      OneChanged(session.branches, s.branches, w, AfterRead(s.branches[w], objectId, store.values));
    }
    session.RecordEvent(ReadEvent, branchId, objectId, r.value, r.version);
  }

  method Write(
      session: TaskSession, branchId: string, objectId: string, objectType: ObjectType, intent: WriteIntent,
      store: MemoryKVStore, ghost s: Session)
    requires Shows(session, s)
    modifies session`events, (set b <- session.branches)`status, Buffers(session.branches), IntentLogs(session.branches)
    ensures Shows(session, Operated(s, SessionOp(branchId, BranchOp.Write(objectId, objectType, intent)), store.values))
  {
    WriteBranch(session.branches, branchId, objectId, objectType, intent, store, s.branches);
    session.RecordEvent(WriteEvent, branchId, objectId, intent.payload, IntentCode(intent.intentType));
  }

  method WriteBranch(
      branches: seq<BranchContext>, branchId: string, objectId: string, objectType: ObjectType, intent: WriteIntent,
      store: MemoryKVStore, ghost states: seq<BranchState>)
    requires Separate(branches) && Are(branches, states)
    modifies (set b <- branches)`status, Buffers(branches), IntentLogs(branches)
    ensures Are(
      branches,
      BranchesAfter(states, SessionOp(branchId, BranchOp.Write(objectId, objectType, intent)), store.values))
  {
    var branch := Find(branches, branchId, states);
    if branch.Some? {
      WriteAt(branches, branch.value, objectId, objectType, intent, store, BranchIndex(states, branchId), states);
    }
  }

  method WriteAt(
      ghost branches: seq<BranchContext>, branch: BranchContext, objectId: string, objectType: ObjectType,
      intent: WriteIntent, store: MemoryKVStore, ghost w: nat, ghost states: seq<BranchState>)
    requires Separate(branches) && Are(branches, states) && w < |branches| && branch == branches[w]
    modifies branch`status, branch.writeBuffer, branch.intentLog
    ensures Are(branches, states[w := AfterWrite(states[w], objectId, objectType, intent, store.values)])
  {
    assert InState(branches[w], states[w]);
    BranchManager.BufferWrite(branch, objectId, objectType, intent, store);
    OneChanged(branches, states, w, AfterWrite(states[w], objectId, objectType, intent, store.values));
  }

  method Savepoint(session: TaskSession, branchId: string, savepointId: string, ghost s: Session, ghost m: Values)
    requires Shows(session, s)
    modifies session`events, (set b <- session.branches)`savepoints
    ensures Shows(session, Operated(s, SessionOp(branchId, CreateSavepoint(savepointId)), m))
  {
    SavepointBranch(session.branches, branchId, savepointId, s.branches, m);
    session.RecordEvent(SavepointEvent, branchId, "", savepointId, 0);
  }

  method SavepointBranch(
      branches: seq<BranchContext>, branchId: string, savepointId: string, ghost states: seq<BranchState>,
      ghost m: Values)
    requires Separate(branches) && Are(branches, states)
    modifies (set b <- branches)`savepoints
    ensures Are(branches, BranchesAfter(states, SessionOp(branchId, CreateSavepoint(savepointId)), m))
  {
    var branch := Find(branches, branchId, states);
    if branch.Some? {
      ghost var w := BranchIndex(states, branchId);
      assert branches[w] in branches && InState(branches[w], states[w]);
      BranchManager.CreateSavepoint(branch.value, savepointId);
      OneChanged(branches, states, w, AfterSavepoint(states[w], savepointId));
    }
  }

  /** A rollback that finds no branch or no savepoint leaves no trace in the log. */
  method RollbackToSavepoint(
      session: TaskSession, branchId: string, savepointId: string, ghost s: Session, ghost m: Values)
    returns (rolledBack: bool)
    requires Shows(session, s)
    modifies session`events, (set b <- session.branches)`savepoints
    modifies Buffers(session.branches), IntentLogs(session.branches)
    ensures rolledBack == RollsBack(s.branches, branchId, savepointId)
    ensures Shows(session, Operated(s, SessionOp(branchId, RollbackTo(savepointId)), m))
  {
    RollbackRecords(s, branchId, savepointId, m);
    rolledBack := RollbackBranch(session.branches, branchId, savepointId, s.branches, m);
    if rolledBack {
      session.RecordEvent(RollbackEvent, branchId, "", savepointId, 0);
    }
  }

  lemma RollbackRecords(s: Session, branchId: string, savepointId: string, m: Values)
    ensures var so := SessionOp(branchId, RollbackTo(savepointId));
      Operated(s, so, m) == Session(
        BranchesAfter(s.branches, so, m),
        if RollsBack(s.branches, branchId, savepointId)
        then s.events + [TaskEvent(|s.events|, RollbackEvent, branchId, "", savepointId, 0)] else s.events)
  {
    assert s.events + [] == s.events;
  }

  method RollbackBranch(
      branches: seq<BranchContext>, branchId: string, savepointId: string, ghost states: seq<BranchState>,
      ghost m: Values)
    returns (rolledBack: bool)
    requires Separate(branches) && Are(branches, states)
    modifies (set b <- branches)`savepoints, Buffers(branches), IntentLogs(branches)
    ensures rolledBack == RollsBack(states, branchId, savepointId)
    ensures Are(branches, BranchesAfter(states, SessionOp(branchId, RollbackTo(savepointId)), m))
  {
    var branch := Find(branches, branchId, states);
    if branch.None? {
      return false;
    }
    ghost var w := BranchIndex(states, branchId);
    assert branches[w] in branches && InState(branches[w], states[w]);
    rolledBack := BranchManager.RollbackToSavepoint(branch.value, savepointId);
    OneChanged(branches, states, w, AfterRollback(states[w], savepointId));
  }

  method StageBranch(
      session: TaskSession, branchId: string, score: int, summary: string, ghost s: Session, ghost m: Values)
    requires Shows(session, s)
    modifies session`events
    modifies (set b <- session.branches)`score, (set b <- session.branches)`summary, (set b <- session.branches)`status
    ensures Shows(session, Operated(s, SessionOp(branchId, Stage(score, summary)), m))
  {
    StageBranchOf(session.branches, branchId, score, summary, s.branches, m);
    session.RecordEvent(StageEvent, branchId, "", summary, score);
  }

  method StageBranchOf(
      branches: seq<BranchContext>, branchId: string, score: int, summary: string, ghost states: seq<BranchState>,
      ghost m: Values)
    requires Separate(branches) && Are(branches, states)
    modifies (set b <- branches)`score, (set b <- branches)`summary, (set b <- branches)`status
    ensures Are(branches, BranchesAfter(states, SessionOp(branchId, Stage(score, summary)), m))
  {
    var branch := Find(branches, branchId, states);
    if branch.Some? {
      StageAt(branches, branch.value, score, summary, BranchIndex(states, branchId), states);
    }
  }

  method StageAt(
      ghost branches: seq<BranchContext>, branch: BranchContext, score: int, summary: string,
      ghost w: nat, ghost states: seq<BranchState>)
    requires Separate(branches) && Are(branches, states) && w < |branches| && branch == branches[w]
    modifies branch`score, branch`summary, branch`status
    ensures Are(branches, states[w := AfterStage(states[w], score, summary)])
  {
    assert InState(branches[w], states[w]);
    BranchManager.StageBranch(branch, score, summary);
    OneChanged(branches, states, w, AfterStage(states[w], score, summary));
  }

  // ---- The end of a task ----

  /** The session object stands for the task `t`. */
  ghost predicate ShowsTask(session: TaskSession, t: Task)
    reads session, session.branches, ReadSets(session.branches), Buffers(session.branches), IntentLogs(session.branches)
  {
    && Shows(session, t.session) && session.phase == t.phase && session.committed == t.committed
    && session.commitAttempts == t.commitAttempts
  }

  method RecordAttempt(session: TaskSession, ghost t: Task)
    requires ShowsTask(session, t)
    modifies session`events, session`commitAttempts
    ensures ShowsTask(session, Stepped(t, Attempt))
  {
    session.commitAttempts := session.commitAttempts + 1;
    session.RecordEvent(CommitAttempt, "", "", "commit_attempt", session.commitAttempts);
  }

  /** Marks the task committed or aborted and records that. */
  method RecordOutcome(session: TaskSession, committed: bool, winnerId: string, reason: string)
    modifies session`events, session`phase, session`committed
    ensures session.committed == committed && session.phase == if committed then CommittedPhase else AbortedPhase
    ensures session.events == old(session.events)
      + [TaskEvent(|old(session.events)|, if committed then EventType.CommitTask else EventType.AbortTask,
                   winnerId, "", reason, 0)]
  {
    if committed {
      session.phase, session.committed := CommittedPhase, true;
      session.RecordEvent(EventType.CommitTask, winnerId, "", reason, 0);
    } else {
      session.phase, session.committed := AbortedPhase, false;
      session.RecordEvent(EventType.AbortTask, winnerId, "", reason, 0);
    }
  }

  function OutcomeStep(ok: bool, winnerId: string, w: nat, reason: string): TaskStep {
    if ok then Commit(winnerId, w, reason) else Fail(winnerId, w, reason)
  }

  method EndTask(
      session: TaskSession, txn: AgentTxn.AgentTxnContext, ok: bool, ghost t: Task, ghost w: nat,
      ghost store: MemoryKVStore, ghost directory: FallbackLog.ArtifactDirectory)
    requires Separate(session.branches) && Are(session.branches, Ended(t.session.branches, ok, txn.winnerBranchId, w))
    requires session.events == t.session.events && session.commitAttempts == t.commitAttempts
    modifies session`events, session`phase, session`committed, session`status
    ensures ShowsTask(session, Stepped(t, OutcomeStep(ok, txn.winnerBranchId, w, txn.validation.reason)))
    ensures session.status == txn.status && unchanged(txn) && unchanged(store) && unchanged(directory)
  {
    session.status := txn.status;
    RecordOutcome(session, ok, txn.winnerBranchId, txn.validation.reason);
  }

  method Transact(
      session: TaskSession, txn: AgentTxn.AgentTxnContext, store: MemoryKVStore,
      directory: FallbackLog.ArtifactDirectory, ghost t: Task)
    returns (threw: bool, ok: bool, ghost w: nat, ghost finished: bool)
    requires Shows(session, t.session) && txn.branches == session.branches
    requires forall w: nat :: IsWinner(t.session.branches, w) ==> CanCommit(t.session.branches[w], store.atomicBatch)
    modifies txn`status, txn`winnerBranchId, txn`validation, txn`commitLog, store, directory
    modifies (set b <- session.branches)`status, (set b <- session.branches)`savepoints
    modifies Buffers(session.branches), IntentLogs(session.branches)
    ensures threw <==> session.branches == []
    ensures threw ==> store.values == old(store.values) && Shows(session, t.session)
    ensures !threw ==>
      && Transacts(t.session.branches, txn.winnerBranchId, w, old(store.values),
                   store.atomicBatch || txn.artifactPath == "",
                   directory.faults == old(directory.faults) && txn.simulateCrashAfter == 0,
                   ok, store.values, txn.commitLog, finished)
      && Separate(session.branches) && Are(session.branches, Ended(t.session.branches, ok, txn.winnerBranchId, w))
    ensures unchanged(session)
  {
    threw, ok, w, finished := SelectWinnerAndCommit(txn, store, directory, t.session.branches);
  }

  method FinishCommit(
      session: TaskSession, txn: AgentTxn.AgentTxnContext, store: MemoryKVStore,
      directory: FallbackLog.ArtifactDirectory, ghost t: Task)
    returns (threw: bool, ok: bool, ghost w: nat, ghost finished: bool)
    requires ShowsTask(session, t) && txn.branches == session.branches
    requires forall w: nat :: IsWinner(t.session.branches, w) ==> CanCommit(t.session.branches[w], store.atomicBatch)
    modifies session`events, session`status, session`phase, session`committed
    modifies txn`status, txn`winnerBranchId, txn`validation, txn`commitLog, store, directory
    modifies (set b <- session.branches)`status, (set b <- session.branches)`savepoints
    modifies Buffers(session.branches), IntentLogs(session.branches)
    ensures threw <==> session.branches == []
    ensures threw ==> ShowsTask(session, t) && store.values == old(store.values)
    ensures !threw ==>
      && session.status == txn.status
      && Transacts(t.session.branches, txn.winnerBranchId, w, old(store.values),
                   store.atomicBatch || txn.artifactPath == "",
                   directory.faults == old(directory.faults) && txn.simulateCrashAfter == 0,
                   ok, store.values, txn.commitLog, finished)
      && ShowsTask(session, Stepped(t,
                                    OutcomeStep(ok, txn.winnerBranchId, w, txn.validation.reason)))
  {
    threw, ok, w, finished := Transact(session, txn, store, directory, t);
    if !threw {
      EndTask(session, txn, ok, t, w, store, directory);
    }
  }

  /** The attempt is recorded first, then its outcome. Without branches the original throws in between. */
  method CommitTask(
      session: TaskSession, txn: AgentTxn.AgentTxnContext, store: MemoryKVStore,
      directory: FallbackLog.ArtifactDirectory, ghost t: Task)
    returns (threw: bool, ok: bool, ghost w: nat, ghost finished: bool)
    requires ShowsTask(session, t) && txn.branches == session.branches
    requires forall w: nat :: IsWinner(t.session.branches, w) ==> CanCommit(t.session.branches[w], store.atomicBatch)
    modifies session`events, session`status, session`phase, session`committed, session`commitAttempts
    modifies txn`status, txn`winnerBranchId, txn`validation, txn`commitLog, store, directory
    modifies (set b <- session.branches)`status, (set b <- session.branches)`savepoints
    modifies Buffers(session.branches), IntentLogs(session.branches)
    ensures threw <==> session.branches == []
    ensures threw ==> ShowsTask(session, Stepped(t, Attempt)) && store.values == old(store.values)
    ensures !threw ==>
      && session.status == txn.status
      && Transacts(t.session.branches, txn.winnerBranchId, w, old(store.values),
                   store.atomicBatch || txn.artifactPath == "",
                   directory.faults == old(directory.faults) && txn.simulateCrashAfter == 0,
                   ok, store.values, txn.commitLog, finished)
      && ShowsTask(session, Stepped(Stepped(t, Attempt),
                                    OutcomeStep(ok, txn.winnerBranchId, w, txn.validation.reason)))
  {
    RecordAttempt(session, t);
    threw, ok, w, finished := FinishCommit(session, txn, store, directory, Stepped(t, Attempt));
  }

  method AbortBranches(session: TaskSession, txn: AgentTxn.AgentTxnContext, ghost s: Session)
    requires Shows(session, s) && txn.branches == session.branches
    modifies txn`status, (set b <- session.branches)`status, (set b <- session.branches)`savepoints
    modifies Buffers(session.branches), IntentLogs(session.branches)
    ensures Separate(session.branches) && Are(session.branches, AgentTxnManager.Discarded(s.branches, None))
    ensures txn.status == AgentTxn.TxnStatus.Aborted && unchanged(session)
  {
    AbortTransaction(txn, s.branches);
  }

  method RecordAbort(session: TaskSession, ghost t: Task)
    requires Separate(session.branches)
      && Are(session.branches, AgentTxnManager.Discarded(t.session.branches, None))
    requires session.events == t.session.events && session.commitAttempts == t.commitAttempts
    modifies session`events, session`phase, session`committed, session`status
    ensures ShowsTask(session, Stepped(t, Abort)) && session.status == AgentTxn.TxnStatus.Aborted
  {
    session.status := AgentTxn.TxnStatus.Aborted;
    RecordOutcome(session, false, "", "abort_requested");
  }

  method AbortTask(session: TaskSession, txn: AgentTxn.AgentTxnContext, ghost t: Task)
    requires ShowsTask(session, t) && txn.branches == session.branches
    modifies session`events, session`status, session`phase, session`committed, txn`status
    modifies (set b <- session.branches)`status, (set b <- session.branches)`savepoints
    modifies Buffers(session.branches), IntentLogs(session.branches)
    ensures ShowsTask(session, Stepped(t, Abort)) && session.status == txn.status == AgentTxn.TxnStatus.Aborted
  {
    AbortBranches(session, txn, t.session);
    RecordAbort(session, t);
  }

  // ---- Recovery ----

  /** Replays a read: the version in the event is recorded without asking the store. */
  method RecallRead(
      branches: seq<BranchContext>, branchId: string, objectId: string, version: nat, ghost states: seq<BranchState>)
    requires Separate(branches) && Are(branches, states)
    modifies (set b <- branches)`status, ReadSets(branches)
    ensures var w := BranchIndex(states, branchId);
      Are(branches, if w == |states| then states else states[w := Recalled(states[w], objectId, version)])
  {
    var branch := Find(branches, branchId, states);
    if branch.Some? {
      ghost var w := BranchIndex(states, branchId);
      assert branches[w] in branches && InState(branches[w], states[w]);
      branch.value.status := BranchStatus.Running;
      branch.value.readSet.Record(objectId, version);
      OneChanged(branches, states, w, Recalled(states[w], objectId, version));
    }
  }

  lemma ReplayedIsOperation(states: seq<BranchState>, e: TaskEvent, m: Values)
    requires !e.eventType.ReadEvent?
    ensures Replayed(states, e, m) ==
      match OperationOf(e)
      case None => states
      case Some(op) => BranchesAfter(states, SessionOp(e.branchId, op), m)
  {
    var w := BranchIndex(states, e.branchId);
    if w < |states| {
      assert states[w := states[w]] == states;
    }
  }

  method ReplayEvent(branches: seq<BranchContext>, e: TaskEvent, store: MemoryKVStore, ghost states: seq<BranchState>)
    requires Separate(branches) && Are(branches, states)
    modifies (set b <- branches), ReadSets(branches), Buffers(branches), IntentLogs(branches)
    ensures Are(branches, Replayed(states, e, store.values))
  {
    if e.eventType != ReadEvent {
      ReplayedIsOperation(states, e, store.values);
    }
    match e.eventType {
      case ReadEvent => RecallRead(branches, e.branchId, e.objectId, Unsigned(e.numericValue), states);
      case WriteEvent =>
        var intent := WriteIntent(e.objectId, IntentOfCode(e.numericValue), e.detail, NO_CONDITION);
        WriteBranch(branches, e.branchId, e.objectId, Generic, intent, store, states);
      case SavepointEvent => SavepointBranch(branches, e.branchId, e.detail, states, store.values);
      case RollbackEvent =>
        var rolledBack := RollbackBranch(branches, e.branchId, e.detail, states, store.values);
      case StageEvent => StageBranchOf(branches, e.branchId, e.numericValue, e.detail, states, store.values);
      case _ =>
    }
  }

  method ReplayEvents(
      branches: seq<BranchContext>, events: seq<TaskEvent>, store: MemoryKVStore, ghost states: seq<BranchState>)
    requires Separate(branches) && Are(branches, states)
    modifies (set b <- branches), ReadSets(branches), Buffers(branches), IntentLogs(branches)
    ensures Are(branches, ReplayedTo(states, events, store.values, |events|))
  {
    for i := 0 to |events|
      invariant Are(branches, ReplayedTo(states, events, store.values, i))
    {
      ReplayEvent(branches, events[i], store, ReplayedTo(states, events, store.values, i));
    }
  }

  /** The plan of the recovered task, and its objective. */
  method BuildRecoveryPlan(events: seq<TaskEvent>, resumeId: string) returns (plans: seq<BranchPlan>, objective: string)
    ensures plans == RecoveredPlan(events, resumeId)
    ensures objective == RecoveredObjective(events, |events|) && objective != ""
  {
    plans, objective := [], "recovered task session";
    for i := 0 to |events|
      invariant plans == PlannedBranches(events, i)
      invariant objective == RecoveredObjective(events, i) && objective != ""
    {
      var e := events[i];
      if e.eventType == EventType.SubmitTask && e.detail != "" {
        objective := e.detail;
      }
      if e.eventType == EventType.CreateBranch {
        plans := plans + [BranchPlan(e.branchId, e.detail, e.numericValue)];
      }
    }
    if plans == [] && resumeId != "" {
      plans := [BranchPlan(resumeId, resumeId + "_candidate", 0)];
    }
  }

  method ResubmitTask(taskId: string, events: seq<TaskEvent>, resumeId: string) returns (session: Option<TaskSession>)
    ensures session.Some? <==> taskId != "" && ValidPlan(RecoveredPlan(events, resumeId))
    ensures session.Some? ==>
      && fresh(session.value) && (forall b <- session.value.branches :: fresh(b.Parts()))
      && Shows(session.value, Session(NewBranches(RecoveredPlan(events, resumeId)), session.value.events))
      && session.value.status == AgentTxn.TxnStatus.Running && session.value.phase == RunningPhase
  {
    var plans, objective := BuildRecoveryPlan(events, resumeId);
    session := SubmitTask(taskId, objective, plans);
  }

  /** Submits the recovered task again, unless its plan is invalid, and brings each branch to where the log
      leaves it. */
  method RebuildRecoveredSessionState(
      taskId: string, events: seq<TaskEvent>, resumeId: string, commitAttempts: nat, committed: bool,
      store: MemoryKVStore)
    returns (session: Option<TaskSession>)
    ensures session.Some? <==> taskId != "" && ValidPlan(RecoveredPlan(events, resumeId))
    ensures session.Some? ==>
      && fresh(session.value) && (forall b <- session.value.branches :: fresh(b.Parts()))
      && Shows(session.value, Session(Rebuilt(events, resumeId, store.values), events))
      && session.value.commitAttempts == commitAttempts && session.value.committed == committed
      && session.value.status == AgentTxn.TxnStatus.Running && session.value.phase == RunningPhase
  {
    session := ResubmitTask(taskId, events, resumeId);
    if session.None? {
      return;
    }
    ReplayEvents(session.value.branches, events, store, NewBranches(RecoveredPlan(events, resumeId)));
    session.value.commitAttempts := commitAttempts;
    session.value.committed := committed;
    session.value.events := events;
  }

  /** Sets every branch to its terminal status. */
  method MarkTerminal(branches: seq<BranchContext>, committed: bool, d: Decision, ghost states: seq<BranchState>)
    requires Separate(branches) && Are(branches, states)
    modifies (set b <- branches)`status
    ensures Are(branches, TerminalStates(states, committed, d))
  {
    for i := 0 to |branches|
      invariant forall j :: 0 <= j < i ==> InState(branches[j], TerminalStates(states, committed, d)[j])
      invariant forall j :: i <= j < |branches| ==> InState(branches[j], states[j])
    {
      assert branches[i] in branches && InState(branches[i], states[i]);
      MarkTerminalBranch(branches[i], committed, d);
    }
  }

  method MarkTerminalBranch(branch: BranchContext, committed: bool, d: Decision)
    modifies branch`status
    ensures branch.State() == old(branch.State()).(status := TerminalStatus(old(branch.State()), committed, d))
  {
    var chosen := branch.branchId == d.branchId;
    if committed {
      branch.status := if chosen then BranchStatus.Committed else Discarded;
    } else if d.action == RetryFromScratch {
      branch.status := if chosen then BranchStatus.Aborted else Discarded;
    } else if chosen {
      branch.status := BranchStatus.Running;
    }
  }

  /** The transaction and task of a rebuilt session end as its log says. */
  method ApplyRecoveredTerminalState(session: TaskSession, d: Decision, ghost s: Session)
    requires Shows(session, s)
    modifies session`status, session`phase, (set b <- session.branches)`status
    ensures Shows(session, Session(TerminalStates(s.branches, session.committed, d), s.events))
    ensures (session.status, session.phase) ==
      if session.committed then (AgentTxn.TxnStatus.Committed, CommittedPhase)
      else if d.action.RetryFromScratch? then (AgentTxn.TxnStatus.Aborted, AbortedPhase)
      else (AgentTxn.TxnStatus.Running, RunningPhase)
  {
    if session.committed {
      session.status, session.phase := AgentTxn.TxnStatus.Committed, CommittedPhase;
    } else if d.action == RetryFromScratch {
      session.status, session.phase := AgentTxn.TxnStatus.Aborted, AbortedPhase;
    } else {
      session.status, session.phase := AgentTxn.TxnStatus.Running, RunningPhase;
    }
    MarkTerminal(session.branches, session.committed, d, s.branches);
  }

  /** Recovers a session from the text of its log. The original throws, and there is no session, when the
      text does not parse or the parsed log is not recoverable. */
  method RecoverSessionFromLog(text: string, store: MemoryKVStore) returns (session: Option<TaskSession>, d: Decision)
    ensures session.Some? <==> ParseTaskLog(text).Some? && Recoverable(ParseTaskLog(text).value)
    ensures session.Some? ==>
      var log := ParseTaskLog(text).value;
      var committed := MetadataValue(log.metadata, "committed") == "1";
      && d == DecisionOf(log)
      && Shows(session.value,
               Session(TerminalStates(Rebuilt(log.events, d.branchId, store.values), committed, d), log.events))
      && session.value.committed == committed
      && session.value.commitAttempts == ToUInt64(MetadataValue(log.metadata, "commit_attempts"))
  {
    d := Decision(RetryFromScratch, "", "");
    var parsed := ReadTaskLog(text);
    if parsed.None? || "commit_attempts" !in parsed.value.metadata || "committed" !in parsed.value.metadata {
      return None, d;
    }
    var log := parsed.value;
    var committed := MetadataValue(log.metadata, "committed") == "1";
    var attempts := ToUInt64(MetadataValue(log.metadata, "commit_attempts"));
    d := RecoverTaskSessionDecision(committed, MetadataValue(log.metadata, "task_phase"), log.events);
    session := RebuildRecoveredSessionState(
      MetadataValue(log.metadata, "task_id"), log.events, d.branchId, attempts, committed, store);
    if session.Some? {
      ApplyRecoveredTerminalState(
        session.value, d, Session(Rebuilt(log.events, d.branchId, store.values), log.events));
    }
  }

  ghost function ResumedStates(states: seq<BranchState>, branchId: string, savepointId: string): seq<BranchState> {
    if RollsBack(states, branchId, savepointId) then
      var w := BranchIndex(states, branchId);
      states[w := Resumed(states[w], savepointId)]
    else
      states
  }

  lemma RolledBackThenRunning(states: seq<BranchState>, branchId: string, savepointId: string, m: Values)
    ensures var w, after :=
      BranchIndex(states, branchId), BranchesAfter(states, SessionOp(branchId, RollbackTo(savepointId)), m);
      && |after| == |states|
      && ResumedStates(states, branchId, savepointId) ==
           if RollsBack(states, branchId, savepointId) then after[w := after[w].(status := BranchStatus.Running)]
           else after
  {
    var w := BranchIndex(states, branchId);
    if w < |states| && !CanRollBack(states[w], savepointId) {
      assert states[w := states[w]] == states;
    }
  }

  /** Executes RESUME_FROM_SAVEPOINT. */
  method ExecuteResume(
      branches: seq<BranchContext>, branchId: string, savepointId: string, ghost states: seq<BranchState>,
      ghost m: Values)
    returns (ok: bool)
    requires Separate(branches) && Are(branches, states)
    modifies (set b <- branches)`status, (set b <- branches)`savepoints, Buffers(branches), IntentLogs(branches)
    ensures ok == RollsBack(states, branchId, savepointId)
    ensures Are(branches, ResumedStates(states, branchId, savepointId))
  {
    RolledBackThenRunning(states, branchId, savepointId, m);
    var branch := Find(branches, branchId, states);
    if branch.None? {
      return false;
    }
    ok := RollbackBranch(branches, branchId, savepointId, states, m);
    if ok {
      assert branch.value in branches;
      MarkRunning(branch.value, branches, BranchIndex(states, branchId),
                  BranchesAfter(states, SessionOp(branchId, RollbackTo(savepointId)), m));
    }
  }

  method MarkRunning(
      branch: BranchContext, ghost branches: seq<BranchContext>, ghost w: nat, ghost states: seq<BranchState>)
    requires Separate(branches) && Are(branches, states) && w < |branches| && branch == branches[w]
    modifies branch`status
    ensures Are(branches, states[w := states[w].(status := BranchStatus.Running)])
  {
    assert branches[w] in branches && InState(branches[w], states[w]);
    branch.status := BranchStatus.Running;
    OneChanged(branches, states, w, states[w].(status := BranchStatus.Running));
  }
}
