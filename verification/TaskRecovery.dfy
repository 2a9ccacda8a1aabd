/** Recovery of a task session from its event log: what to do, and where a resumed branch stands. */
module TaskRecovery {
  import opened Wrappers
  import opened KvStore
  import opened Branches
  import opened BranchFold
  import opened TaskEvents

  datatype Action = SkipCommitted | RetryFromScratch | ResumeBranch | ResumeFromSavepoint | RevalidateCommit

  datatype Decision = Decision(action: Action, branchId: string, savepointId: string)

  // ---- The decision ----

  /** The branch of the last of the first `n` events that names one. */
  function LatestBranch(events: seq<TaskEvent>, n: nat): string
    requires n <= |events|
  {
    if n == 0 then ""
    else if events[n - 1].branchId != "" then events[n - 1].branchId
    else LatestBranch(events, n - 1)
  }

  /** One more than the position of the last savepoint event of a branch among the first `n`, or 0. */
  function LastSavepoint(events: seq<TaskEvent>, branchId: string, n: nat): (k: nat)
    requires n <= |events|
    ensures k <= n
    ensures k > 0 ==> events[k - 1].branchId == branchId && events[k - 1].eventType.SavepointEvent?
    ensures forall i :: k <= i < n ==> !(events[i].branchId == branchId && events[i].eventType.SavepointEvent?)
  {
    if n == 0 then 0
    else if events[n - 1].branchId == branchId && events[n - 1].eventType.SavepointEvent? then n
    else LastSavepoint(events, branchId, n - 1)
  }

  function LatestSavepoint(events: seq<TaskEvent>, branchId: string): string {
    var k := LastSavepoint(events, branchId, |events|);
    if k == 0 then "" else events[k - 1].detail
  }

  predicate EndsWith(events: seq<TaskEvent>, eventType: EventType) {
    events != [] && events[|events| - 1].eventType == eventType
  }

  /** `phase` is the task phase as the log prints it. */
  function Decide(committed: bool, phase: string, events: seq<TaskEvent>): Decision {
    var finalBranch := if events == [] then "" else events[|events| - 1].branchId;
    if committed || phase == "2" || EndsWith(events, CommitTask) then Decision(SkipCommitted, finalBranch, "")
    else if EndsWith(events, AbortTask) then Decision(RetryFromScratch, finalBranch, "")
    else if phase == "3" then Decision(RetryFromScratch, "", "")
    else if EndsWith(events, CommitAttempt) then Decision(RevalidateCommit, "", "")
    else
      var branchId := LatestBranch(events, |events|);
      var savepointId := LatestSavepoint(events, branchId);
      Decision(if savepointId != "" then ResumeFromSavepoint else ResumeBranch, branchId, savepointId)
  }

  method FindLatestBranch(events: seq<TaskEvent>) returns (branchId: string)
    ensures branchId == LatestBranch(events, |events|)
  {
    for i := |events| downto 0
      invariant LatestBranch(events, i) == LatestBranch(events, |events|)
    {
      if events[i].branchId != "" {
        return events[i].branchId;
      }
    }
    branchId := "";
  }

  method FindLatestSavepoint(events: seq<TaskEvent>, branchId: string) returns (savepointId: string)
    ensures savepointId == LatestSavepoint(events, branchId)
  {
    for i := |events| downto 0
      invariant LastSavepoint(events, branchId, i) == LastSavepoint(events, branchId, |events|)
    {
      if events[i].branchId == branchId && events[i].eventType == SavepointEvent {
        return events[i].detail;
      }
    }
    savepointId := "";
  }

  method RecoverTaskSessionDecision(committed: bool, phase: string, events: seq<TaskEvent>) returns (d: Decision)
    ensures d == Decide(committed, phase, events)
  {
    var finalBranch, finalType := "", None;
    if events != [] {
      finalBranch, finalType := events[|events| - 1].branchId, Some(events[|events| - 1].eventType);
    }
    if committed || phase == "2" || finalType == Some(CommitTask) {
      return Decision(SkipCommitted, finalBranch, "");
    }
    if finalType == Some(AbortTask) {
      return Decision(RetryFromScratch, finalBranch, "");
    }
    if phase == "3" {
      return Decision(RetryFromScratch, "", "");
    }
    if finalType == Some(CommitAttempt) {
      return Decision(RevalidateCommit, "", "");
    }
    var branchId := FindLatestBranch(events);
    var savepointId := FindLatestSavepoint(events, branchId);
    d := Decision(if savepointId != "" then ResumeFromSavepoint else ResumeBranch, branchId, savepointId);
  }

  // ---- The rebuilt session ----

  /** The branches the log says were planned. */
  function PlannedBranches(events: seq<TaskEvent>, n: nat): seq<BranchPlan>
    requires n <= |events|
  {
    if n == 0 then []
    else
      var e := events[n - 1];
      PlannedBranches(events, n - 1)
        + if e.eventType.CreateBranch? then [BranchPlan(e.branchId, e.detail, e.numericValue)] else []
  }

  /** The plan of the recovered task; a log that plans no branch gets the one to resume, if there is one. */
  function RecoveredPlan(events: seq<TaskEvent>, resumeId: string): seq<BranchPlan> {
    var plans := PlannedBranches(events, |events|);
    if plans == [] && resumeId != "" then [BranchPlan(resumeId, resumeId + "_candidate", 0)] else plans
  }

  /** The objective of the recovered task: the last one submitted. */
  function RecoveredObjective(events: seq<TaskEvent>, n: nat): string
    requires n <= |events|
  {
    if n == 0 then "recovered task session"
    else if events[n - 1].eventType.SubmitTask? && events[n - 1].detail != "" then events[n - 1].detail
    else RecoveredObjective(events, n - 1)
  }

  function Rebuilt(events: seq<TaskEvent>, resumeId: string, m: Values): seq<BranchState> {
    ReplayedTo(NewBranches(RecoveredPlan(events, resumeId)), events, m, |events|)
  }

  /** Executing RESUME_FROM_SAVEPOINT on a rebuilt branch. */
  function Resumed(b: BranchState, savepointId: string): BranchState {
    AfterRollback(b, savepointId).(status := BranchStatus.Running)
  }

  /** The status that a branch of a rebuilt session ends up with. */
  function TerminalStatus(b: BranchState, committed: bool, d: Decision): BranchStatus {
    if committed then (if b.branchId == d.branchId then BranchStatus.Committed else Discarded)
    else if d.action.RetryFromScratch? then (if b.branchId == d.branchId then BranchStatus.Aborted else Discarded)
    else if b.branchId == d.branchId then BranchStatus.Running
    else b.status
  }

  function TerminalStates(branches: seq<BranchState>, committed: bool, d: Decision): seq<BranchState> {
    seq(|branches|, i requires 0 <= i < |branches| => branches[i].(status := TerminalStatus(branches[i], committed, d)))
  }

  lemma {:induction false} PlannedBranchesGrow(events: seq<TaskEvent>, more: seq<TaskEvent>, n: nat)
    requires n <= |events|
    ensures PlannedBranches(events + more, n) == PlannedBranches(events, n)
  {
    if n > 0 {
      PlannedBranchesGrow(events, more, n - 1);
    }
  }

  lemma {:induction false} ObjectiveStays(events: seq<TaskEvent>, more: seq<TaskEvent>, n: nat)
    requires n <= |events|
    ensures RecoveredObjective(events + more, n) == RecoveredObjective(events, n)
  {
    if n > 0 {
      ObjectiveStays(events, more, n - 1);
    }
  }

  lemma {:induction false} NothingPlanned(events: seq<TaskEvent>, n: nat)
    requires n <= |events| && forall e <- events :: !e.eventType.CreateBranch?
    ensures PlannedBranches(events, n) == []
  {
    if n > 0 {
      assert events[n - 1] in events;
      NothingPlanned(events, n - 1);
    }
  }

  /** A log that plans no branch is recovered with the one branch to resume, exactly if there is one. */
  lemma UnplannedIsRecovered(events: seq<TaskEvent>, resumeId: string)
    requires forall e <- events :: !e.eventType.CreateBranch?
    ensures ValidPlan(RecoveredPlan(events, resumeId)) <==> resumeId != ""
    ensures resumeId != "" ==> RecoveredPlan(events, resumeId) == [BranchPlan(resumeId, resumeId + "_candidate", 0)]
  {
    NothingPlanned(events, |events|);
  }

  lemma OperationPlansNothing(s: Session, so: SessionOp, m: Values)
    ensures var t := Operated(s, so, m);
      PlannedBranches(t.events, |t.events|) == PlannedBranches(s.events, |s.events|)
  {
    var recorded := Recorded(s.branches, so, m, |s.events|);
    PlannedBranchesGrow(s.events, recorded, |s.events|);
    if recorded == [] {
      assert s.events + recorded == s.events;
    } else {
      assert |recorded| == 1 && (s.events + recorded)[|s.events|] == recorded[0];
    }
  }

  lemma {:induction false} OperationsPlanNothing(run: seq<Session>, ops: seq<SessionOp>, m: Values, n: nat)
    requires IsRun(run, ops, m) && n <= |ops|
    ensures PlannedBranches(run[n].events, |run[n].events|) == PlannedBranches(run[0].events, |run[0].events|)
  {
    if n > 0 {
      var last := n - 1;
      OperationsPlanNothing(run, ops, m, last);
      assert StepAt(run, ops, m, last);
      OperationPlansNothing(run[last], ops[last], m);
    }
  }

  lemma {:induction false} SubmittedPlan(objective: string, plans: seq<BranchPlan>, n: nat)
    requires n <= |plans|
    ensures var events := Submitted(objective, plans).events;
      |events| == |plans| + 1 && PlannedBranches(events, n + 1) == plans[..n]
  {
    var events := Submitted(objective, plans).events;
    if n > 0 {
      SubmittedPlan(objective, plans, n - 1);
      assert events[n].branchId == plans[n - 1].branchId && plans[..n] == plans[..n - 1] + [plans[n - 1]];
    } else {
      assert PlannedBranches(events, 1) == PlannedBranches(events, 0);
    }
  }

  /** A run that starts by submitting a task with this plan. */
  ghost predicate StartsWith(run: seq<Session>, plans: seq<BranchPlan>) {
    run != [] && plans != [] && exists objective: string :: run[0] == Submitted(objective, plans)
  }

  lemma StartOf(run: seq<Session>, plans: seq<BranchPlan>, m: Values)
    requires StartsWith(run, plans)
    ensures run[0].branches == NewBranches(plans) && Simulated(run[0].branches, run[0], m)
    ensures PlannedBranches(run[0].events, |run[0].events|) == plans
    ensures forall e <- run[0].events :: !e.eventType.SavepointEvent?
  {
    var objective: string :| run[0] == Submitted(objective, plans);
    SubmittedIsReplayed(objective, plans, m);
    SubmittedPlansAll(objective, plans);
    SubmittedTakesNoSavepoint(objective, plans);
  }

  lemma SubmittedPlansAll(objective: string, plans: seq<BranchPlan>)
    ensures var events := Submitted(objective, plans).events; PlannedBranches(events, |events|) == plans
  {
    SubmittedPlan(objective, plans, |plans|);
    assert plans[..|plans|] == plans;
  }

  lemma SubmittedTakesNoSavepoint(objective: string, plans: seq<BranchPlan>)
    ensures forall e <- Submitted(objective, plans).events :: !e.eventType.SavepointEvent?
  {
  }

  /** The whole recovery simulates: recovery starts from the plan the task was submitted with, and
      whatever the session did, the branches rebuilt from its log are alike to those it had. */
  lemma RebuildSimulates(
      run: seq<Session>, plans: seq<BranchPlan>, ops: seq<SessionOp>, m: Values, n: nat, resumeId: string)
    requires StartsWith(run, plans) && IsRun(run, ops, m) && n <= |ops|
    ensures RecoveredPlan(run[n].events, resumeId) == plans
    ensures AllAlike(run[n].branches, Rebuilt(run[n].events, resumeId, m))
  {
    StartOf(run, plans, m);
    OperationsPlanNothing(run, ops, m, n);
    ReplaySimulates(run[0].branches, run, ops, m, n);
  }

  // ---- From an event back to its operation ----

  lemma RecordedEvent(s: Session, so: SessionOp, m: Values, e: nat)
    requires |s.events| <= e < |Operated(s, so, m).events|
    ensures e == |s.events| && Recorded(s.branches, so, m, e) == [Operated(s, so, m).events[e]]
  {
  }

  lemma OlderEvent(s: Session, so: SessionOp, m: Values)
    ensures s.events <= Operated(s, so, m).events
  {
  }

  /** The operation that recorded event `e`. */
  lemma {:induction false} EventSource(
      run: seq<Session>, ops: seq<SessionOp>, m: Values, n: nat, e: nat)
    returns (i: nat)
    requires IsRun(run, ops, m) && n <= |ops| && |run[0].events| <= e < |run[n].events|
    ensures i < n && |run[i].events| == e && Recorded(run[i].branches, ops[i], m, e) == [run[n].events[e]]
  {
    var last := n - 1;
    assert StepAt(run, ops, m, last);
    OlderEvent(run[last], ops[last], m);
    if e < |run[last].events| {
      i := EventSource(run, ops, m, last, e);
    } else {
      i := last;
      RecordedEvent(run[last], ops[last], m, e);
    }
  }

  /** The event tells the operation: what was read or written, and where; what a read was answered and a branch
      staged with. */
  predicate Tells(e: TaskEvent, so: SessionOp, answer: VersionedValue) {
    && e.branchId == so.branchId
    && match so.op
       case Read(id) =>
         e.eventType.ReadEvent? && e.objectId == id && e.detail == answer.value && e.numericValue == answer.version
       case Write(id, _, intent) =>
         && e.eventType.WriteEvent? && e.objectId == id && e.detail == intent.payload
         && IntentOfCode(e.numericValue) == intent.intentType
       case CreateSavepoint(id) => e.eventType.SavepointEvent? && e.detail == id
       case RollbackTo(id) => e.eventType.RollbackEvent? && e.detail == id
       case Stage(score, summary) => e.eventType.StageEvent? && e.detail == summary && e.numericValue == score
  }

  /** Every event after the submission is numbered by its place and tells an operation of the session. */
  lemma EventTells(run: seq<Session>, ops: seq<SessionOp>, m: Values, n: nat, e: nat) returns (i: nat)
    requires IsRun(run, ops, m) && n <= |ops| && |run[0].events| <= e < |run[n].events|
    ensures i < n && run[n].events[e].number == e
    ensures var answer := if ops[i].op.Read? then Answer(run[i].branches, ops[i].branchId, ops[i].op.objectId, m)
        else VersionedValue("", 0, false);
      Tells(run[n].events[e], ops[i], answer)
  {
    i := EventSource(run, ops, m, n, e);
    if ops[i].op.Write? {
      IntentCodeInverts(ops[i].op.intent.intentType);
    }
  }

  lemma SavepointSource(run: seq<Session>, ops: seq<SessionOp>, m: Values, n: nat, e: nat) returns (i: nat)
    requires IsRun(run, ops, m) && n <= |ops| && |run[0].events| <= e < |run[n].events|
    requires run[n].events[e].eventType.SavepointEvent?
    ensures i < n && ops[i] == SessionOp(run[n].events[e].branchId, CreateSavepoint(run[n].events[e].detail))
  {
    i := EventSource(run, ops, m, n, e);
    assert ops[i].op.CreateSavepoint?;
  }

  lemma {:induction false} StartEventsStay(run: seq<Session>, ops: seq<SessionOp>, m: Values, n: nat)
    requires IsRun(run, ops, m) && n <= |ops|
    ensures run[0].events <= run[n].events
  {
    if n > 0 {
      var last := n - 1;
      StartEventsStay(run, ops, m, last);
      assert StepAt(run, ops, m, last);
      OlderEvent(run[last], ops[last], m);
    }
  }

  // ---- One branch of the session ----

  /** The same branches in the same places. */
  ghost predicate SamePlaces(branches: seq<BranchState>, branches': seq<BranchState>) {
    |branches'| == |branches| && forall j :: 0 <= j < |branches| ==> branches'[j].branchId == branches[j].branchId
  }

  lemma AfterKeepsPlaces(branches: seq<BranchState>, so: SessionOp, m: Values)
    ensures SamePlaces(branches, BranchesAfter(branches, so, m))
  {
  }

  lemma {:induction false} BranchesKeepTheirPlaces(run: seq<Session>, ops: seq<SessionOp>, m: Values, n: nat)
    requires IsRun(run, ops, m) && n <= |ops|
    ensures SamePlaces(run[0].branches, run[n].branches)
  {
    if n > 0 {
      var last := n - 1;
      BranchesKeepTheirPlaces(run, ops, m, last);
      assert StepAt(run, ops, m, last);
      AfterKeepsPlaces(run[last].branches, ops[last], m);
    }
  }

  /** What an operation of the session does to one of its branches. */
  function StepOf(b: BranchState, so: SessionOp, m: Values): BranchState {
    if so.branchId == b.branchId then Performed(b, so.op, m) else b
  }

  lemma AfterAt(branches: seq<BranchState>, so: SessionOp, m: Values, w: nat)
    requires w < |branches| && BranchIndex(branches, branches[w].branchId) == w
    ensures |BranchesAfter(branches, so, m)| == |branches|
      && BranchesAfter(branches, so, m)[w] == StepOf(branches[w], so, m)
  {
  }

  ghost predicate Sound(b: BranchState) { BranchInv(b) }

  lemma StepOfKeepsSound(b: BranchState, so: SessionOp, m: Values)
    requires Sound(b) && Named(so.op)
    ensures Sound(StepOf(b, so, m))
  {
    BranchFold.StepKeepsInv(b, so.op, m);
  }

  /** `trail` are the states of the branch at `w` through the session. */
  ghost predicate IsTrail(trail: seq<BranchState>, run: seq<Session>, w: nat) {
    |trail| == |run| && forall n :: 0 <= n < |run| ==> w < |run[n].branches| && trail[n] == run[n].branches[w]
  }

  ghost predicate TrailStep(trail: seq<BranchState>, ops: seq<SessionOp>, m: Values, n: nat)
    requires n < |ops| && |trail| == |ops| + 1
  {
    Sound(trail[n]) && Named(ops[n].op) && trail[n + 1] == StepOf(trail[n], ops[n], m)
  }

  lemma TrailStepAt(trail: seq<BranchState>, run: seq<Session>, ops: seq<SessionOp>, m: Values, w: nat, n: nat)
    requires IsRun(run, ops, m) && IsTrail(trail, run, w) && n < |ops|
    requires BranchIndex(run[0].branches, run[0].branches[w].branchId) == w
    ensures trail[n + 1] == StepOf(trail[n], ops[n], m) && trail[n].branchId == run[0].branches[w].branchId
  {
    BranchesKeepTheirPlaces(run, ops, m, n);
    SameBranchIndex(run[0].branches, run[n].branches, w);
    assert StepAt(run, ops, m, n);
    AfterAt(run[n].branches, ops[n], m, w);
  }

  lemma SameBranchIndex(branches: seq<BranchState>, branches': seq<BranchState>, w: nat)
    requires SamePlaces(branches, branches') && w < |branches| && BranchIndex(branches, branches[w].branchId) == w
    ensures BranchIndex(branches', branches'[w].branchId) == w
  {
    assert forall i :: 0 <= i < w ==> branches'[i].branchId == branches[i].branchId != branches[w].branchId;
  }

  lemma {:induction false} TrailIsSound(
      trail: seq<BranchState>, run: seq<Session>, ops: seq<SessionOp>, m: Values, w: nat, n: nat)
    requires IsRun(run, ops, m) && IsTrail(trail, run, w) && n <= |ops|
    requires BranchIndex(run[0].branches, run[0].branches[w].branchId) == w && Sound(run[0].branches[w])
    ensures Sound(trail[n])
  {
    if n > 0 {
      var last := n - 1;
      TrailIsSound(trail, run, ops, m, w, last);
      TrailStepAt(trail, run, ops, m, w, last);
      assert ops[last] in ops;
      StepOfKeepsSound(trail[last], ops[last], m);
    }
  }

  lemma TrailSteps(trail: seq<BranchState>, run: seq<Session>, ops: seq<SessionOp>, m: Values, w: nat)
    requires IsRun(run, ops, m) && IsTrail(trail, run, w)
    requires BranchIndex(run[0].branches, run[0].branches[w].branchId) == w && Sound(run[0].branches[w])
    ensures forall n :: 0 <= n < |ops| ==> TrailStep(trail, ops, m, n)
  {
    forall n | 0 <= n < |ops|
      ensures TrailStep(trail, ops, m, n)
    {
      assert ops[n] in ops;
      TrailIsSound(trail, run, ops, m, w, n);
      TrailStepAt(trail, run, ops, m, w, n);
    }
  }

  /** Operation `k` does not roll the branch back below its first `depth` savepoints. */
  ghost predicate KeepsAbove(trail: seq<BranchState>, ops: seq<SessionOp>, depth: nat, k: nat)
    requires k < |ops| && |trail| == |ops| + 1
  {
    ops[k].branchId == trail[k].branchId && ops[k].op.RollbackTo? ==>
      FindSavepoint(trail[k].savepoints, ops[k].op.savepointId) >= depth
  }

  lemma MarkedExtends(b: BranchState, savepointId: string)
    requires BranchInv(b)
    ensures Extends(AfterSavepoint(b, savepointId), AfterSavepoint(b, savepointId), |b.savepoints|)
  {
    var marked := AfterSavepoint(b, savepointId);
    assert marked.savepoints[..|b.savepoints| + 1] == marked.savepoints
      && marked.intents[..|marked.intents|] == marked.intents;
  }

  lemma StepOfExtends(b: BranchState, savepointId: string, now: BranchState, so: SessionOp, m: Values)
    requires BranchInv(b) && BranchInv(now) && Named(so.op)
    requires Extends(AfterSavepoint(b, savepointId), now, |b.savepoints|)
    requires so.branchId == now.branchId && so.op.RollbackTo? ==>
      FindSavepoint(now.savepoints, so.op.savepointId) >= |b.savepoints|
    ensures Extends(AfterSavepoint(b, savepointId), StepOf(now, so, m), |b.savepoints|)
  {
    if so.branchId == now.branchId {
      StepExtends(AfterSavepoint(b, savepointId), now, |b.savepoints|, so.op, m);
    }
  }

  lemma {:induction false} TrailExtends(
      trail: seq<BranchState>, ops: seq<SessionOp>, m: Values, i: nat, n: nat, savepointId: string)
    requires i < n <= |ops| && |trail| == |ops| + 1
    requires forall k :: 0 <= k < |ops| ==> TrailStep(trail, ops, m, k)
    requires ops[i] == SessionOp(trail[i].branchId, CreateSavepoint(savepointId))
    requires forall k :: i < k < n ==> KeepsAbove(trail, ops, |trail[i].savepoints|, k)
    ensures Extends(AfterSavepoint(trail[i], savepointId), trail[n], |trail[i].savepoints|)
    decreases n
  {
    assert TrailStep(trail, ops, m, i);
    if n == i + 1 {
      MarkedExtends(trail[i], savepointId);
    } else {
      var last := n - 1;
      TrailExtends(trail, ops, m, i, last, savepointId);
      assert TrailStep(trail, ops, m, last) && KeepsAbove(trail, ops, |trail[i].savepoints|, last);
      StepOfExtends(trail[i], savepointId, trail[last], ops[last], m);
    }
  }

  lemma ResumedIsAlike(b: BranchState, r: BranchState, savepointId: string)
    requires Alike(b, r)
    ensures CanRollBack(r, savepointId) <==> CanRollBack(b, savepointId)
    ensures AlikeBuffer(AfterRollback(b, savepointId).buffer, Resumed(r, savepointId).buffer)
    ensures AlikeIntents(AfterRollback(b, savepointId).intents, Resumed(r, savepointId).intents)
    ensures AfterRollback(b, savepointId).savepoints == Resumed(r, savepointId).savepoints
  {
    RollbackAlike(b, r, savepointId);
  }

  /** What `b` was when the savepoint was taken, `r` is after the resume, up to object types and
      conditions. */
  ghost predicate Landed(b: BranchState, r: BranchState, savepointId: string) {
    && CanRollBack(r, savepointId)
    && AlikeBuffer(b.buffer, Resumed(r, savepointId).buffer)
    && AlikeIntents(b.intents, Resumed(r, savepointId).intents)
    && Resumed(r, savepointId).savepoints == AfterSavepoint(b, savepointId).savepoints
  }

  /** The savepoint's id was new in its branch, and no later rollback went below it. */
  ghost predicate Kept(trail: seq<BranchState>, ops: seq<SessionOp>, i: nat, savepointId: string)
    requires i < |ops| && |trail| == |ops| + 1
  {
    && !CanRollBack(trail[i], savepointId)
    && forall k :: i < k < |ops| ==> KeepsAbove(trail, ops, |trail[i].savepoints|, k)
  }

  lemma KeptLands(
      trail: seq<BranchState>, ops: seq<SessionOp>, m: Values, i: nat, savepointId: string, rebuilt: BranchState)
    requires i < |ops| && |trail| == |ops| + 1
    requires forall k :: 0 <= k < |ops| ==> TrailStep(trail, ops, m, k)
    requires ops[i] == SessionOp(trail[i].branchId, CreateSavepoint(savepointId))
    requires Kept(trail, ops, i, savepointId) && Alike(trail[|ops|], rebuilt)
    ensures Landed(trail[i], rebuilt, savepointId)
  {
    TrailExtends(trail, ops, m, i, |ops|, savepointId);
    assert TrailStep(trail, ops, m, i);
    ExtendedRollsBack(trail[i], savepointId, trail[|ops|]);
    ResumedIsAlike(trail[|ops|], rebuilt, savepointId);
  }

  /** The event that the decision resumes from: no later event of its branch is a savepoint. */
  lemma DecidedEvent(committed: bool, phase: string, events: seq<TaskEvent>) returns (e: nat)
    requires Decide(committed, phase, events).action.ResumeFromSavepoint?
    ensures var d := Decide(committed, phase, events);
      && e < |events| && events[e].eventType.SavepointEvent?
      && events[e].branchId == d.branchId && events[e].detail == d.savepointId
      && forall i :: e < i < |events| ==> !(events[i].branchId == d.branchId && events[i].eventType.SavepointEvent?)
  {
    e := LastSavepoint(events, LatestBranch(events, |events|), |events|) - 1;
  }

  /** The operation that took the savepoint to resume from. */
  lemma ResumePoint(run: seq<Session>, ops: seq<SessionOp>, m: Values, d: Decision, committed: bool, phase: string)
    returns (i: nat)
    requires IsRun(run, ops, m) && forall e <- run[0].events :: !e.eventType.SavepointEvent?
    requires d == Decide(committed, phase, run[|ops|].events) && d.action.ResumeFromSavepoint?
    ensures i < |ops| && ops[i] == SessionOp(d.branchId, CreateSavepoint(d.savepointId))
  {
    var e := DecidedEvent(committed, phase, run[|ops|].events);
    StartEventsStay(run, ops, m, |ops|);
    NotInPrefix(run[0].events, run[|ops|].events, e);
    i := SavepointSource(run, ops, m, |ops|, e);
  }

  lemma NotInPrefix(prefix: seq<TaskEvent>, events: seq<TaskEvent>, e: nat)
    requires prefix <= events && e < |events| && events[e].eventType.SavepointEvent?
    requires forall x <- prefix :: !x.eventType.SavepointEvent?
    ensures |prefix| <= e
  {
  }

  /** Resuming lands exactly. A session submits its task, runs any operations while the store does not
      change, and is recovered from its log with the decision to resume from a savepoint of its branch
      `w`. Then the log holds the operation `i` that took this savepoint. If its id was new in the branch,
      and no later rollback went below it, the resumed branch has the buffer, the intents and the
      savepoints that the branch had when the savepoint was taken. */
  lemma ResumeLandsExactly(
      run: seq<Session>, plans: seq<BranchPlan>, ops: seq<SessionOp>, m: Values, d: Decision, committed: bool,
      phase: string, w: nat, trail: seq<BranchState>)
    returns (i: nat)
    requires StartsWith(run, plans) && IsRun(run, ops, m)
    requires d == Decide(committed, phase, run[|ops|].events) && d.action.ResumeFromSavepoint?
    requires BranchIndex(run[0].branches, d.branchId) == w < |plans| && IsTrail(trail, run, w)
    ensures i < |ops| && ops[i] == SessionOp(d.branchId, CreateSavepoint(d.savepointId))
    ensures var rebuilt := Rebuilt(run[|ops|].events, d.branchId, m);
      |rebuilt| == |plans| && (Kept(trail, ops, i, d.savepointId) ==> Landed(trail[i], rebuilt[w], d.savepointId))
  {
    StartOf(run, plans, m);
    NewBranchInv(plans[w].branchId);
    i := ResumePoint(run, ops, m, d, committed, phase);
    TrailSteps(trail, run, ops, m, w);
    TrailStepAt(trail, run, ops, m, w, i);
    RebuildSimulates(run, plans, ops, m, |ops|, d.branchId);
    BranchesKeepTheirPlaces(run, ops, m, |ops|);
    assert AlikeAt(run[|ops|].branches, Rebuilt(run[|ops|].events, d.branchId, m), w);
    if Kept(trail, ops, i, d.savepointId) {
      KeptLands(trail, ops, m, i, d.savepointId, Rebuilt(run[|ops|].events, d.branchId, m)[w]);
    }
  }
}
