/** A task from its submission to its end, and what recovery decides from its log at any moment. */
module TaskLifecycle {
  import opened Wrappers
  import opened KvStore
  import opened Decimal
  import opened Branches
  import opened TaskEvents
  import opened TaskRecovery
  import opened TaskLogText
  import AgentTxnManager

  datatype TaskPhase = CreatedPhase | RunningPhase | CommittedPhase | AbortedPhase

  function PhaseCode(phase: TaskPhase): nat {
    match phase
    case CreatedPhase => 0
    case RunningPhase => 1
    case CommittedPhase => 2
    case AbortedPhase => 3
  }

  datatype Task = Task(session: Session, phase: TaskPhase, committed: bool, commitAttempts: nat)

  /** A commit is an attempt and then its outcome; `w` is the place of the winner. */
  datatype TaskStep =
    | Operation(so: SessionOp, m: Values)
    | Attempt
    | Commit(winnerId: string, w: nat, reason: string)
    | Fail(winnerId: string, w: nat, reason: string)
    | Abort

  function Recording(
    s: Session, eventType: EventType, branchId: string, detail: string, numericValue: int): seq<TaskEvent>
  {
    s.events + [TaskEvent(|s.events|, eventType, branchId, "", detail, numericValue)]
  }

  ghost function Stepped(t: Task, step: TaskStep): Task {
    var s := t.session;
    match step
    case Operation(so, m) => t.(session := Operated(s, so, m))
    case Attempt =>
      t.(session := s.(events := Recording(s, CommitAttempt, "", "commit_attempt", t.commitAttempts + 1)),
         commitAttempts := t.commitAttempts + 1)
    case Commit(winnerId, w, reason) =>
      t.(session := Session(AgentTxnManager.Ended(s.branches, true, winnerId, w),
                            Recording(s, CommitTask, winnerId, reason, 0)),
         phase := CommittedPhase, committed := true)
    case Fail(winnerId, w, reason) =>
      t.(session := Session(AgentTxnManager.Ended(s.branches, false, winnerId, w),
                            Recording(s, AbortTask, winnerId, reason, 0)),
         phase := AbortedPhase, committed := false)
    case Abort =>
      t.(session := Session(AgentTxnManager.Discarded(s.branches, None),
                            Recording(s, AbortTask, "", "abort_requested", 0)),
         phase := AbortedPhase, committed := false)
  }

  function Submission(objective: string, plans: seq<BranchPlan>): Task {
    Task(Submitted(objective, plans), RunningPhase, false, 0)
  }

  /** The task after `n` steps. */
  ghost function After(t: Task, steps: seq<TaskStep>, n: nat): Task
    requires n <= |steps|
  {
    if n == 0 then t else Stepped(After(t, steps, n - 1), steps[n - 1])
  }

  // ---- What the log says of the task ----

  predicate IsOutcome(e: TaskEvent) {
    e.eventType.CommitTask? || e.eventType.AbortTask?
  }

  /** Event `k` is the last one that ends the task. */
  predicate LastOutcome(events: seq<TaskEvent>, k: nat)
    requires k < |events|
  {
    IsOutcome(events[k]) && forall i :: k < i < |events| ==> !IsOutcome(events[i])
  }

  /** The task ended last with an event of this type. */
  ghost predicate EndedBy(events: seq<TaskEvent>, eventType: EventType) {
    exists k :: 0 <= k < |events| && LastOutcome(events, k) && events[k].eventType == eventType
  }

  function Attempts(events: seq<TaskEvent>): nat {
    if events == [] then 0
    else Attempts(events[..|events| - 1]) + if events[|events| - 1].eventType.CommitAttempt? then 1 else 0
  }

  /** Events are numbered from 0, attempts from 1. */
  predicate Numbered(events: seq<TaskEvent>) {
    events != [] ==>
      && Numbered(events[..|events| - 1])
      && var last := events[|events| - 1];
        && last.number == |events| - 1
        && (last.eventType.CommitAttempt? ==> last.numericValue == Attempts(events))
  }

  /** Phase, flag and counter are what the events say. */
  ghost predicate Told(t: Task) {
    && (t.committed <==> t.phase.CommittedPhase?)
    && (t.committed <==> EndedBy(t.session.events, CommitTask))
    && (t.phase.AbortedPhase? <==> EndedBy(t.session.events, AbortTask))
    && !t.phase.CreatedPhase?
    && t.commitAttempts == Attempts(t.session.events)
    && Numbered(t.session.events)
  }

  lemma MoreEvents(events: seq<TaskEvent>, e: TaskEvent, eventType: EventType)
    ensures var longer := events + [e];
      && Attempts(longer) == Attempts(events) + (if e.eventType.CommitAttempt? then 1 else 0)
      && (EndedBy(longer, eventType) <==>
            if IsOutcome(e) then e.eventType == eventType else EndedBy(events, eventType))
  {
    var longer := events + [e];
    assert longer[..|longer| - 1] == events;
    if IsOutcome(e) {
      assert LastOutcome(longer, |events|);
      assert forall k :: 0 <= k < |longer| && LastOutcome(longer, k) ==> k == |events|;
    } else {
      forall k | 0 <= k < |events|
        ensures LastOutcome(longer, k) <==> LastOutcome(events, k)
      {
        assert LastOutcome(events, k) ==> forall i :: k < i < |longer| ==> !IsOutcome(longer[i]);
        assert LastOutcome(longer, k) ==> forall i :: k < i < |events| ==> !IsOutcome(longer[i]);
      }
    }
  }

  lemma TellsMore(t: Task, t': Task, e: TaskEvent)
    requires Told(t) && t'.session.events == t.session.events + [e] && e.number == |t.session.events|
    requires e.eventType.CommitAttempt? ==> e.numericValue == t.commitAttempts + 1
    requires match e.eventType
      case CommitTask => t' == t.(session := t'.session, phase := CommittedPhase, committed := true)
      case AbortTask => t' == t.(session := t'.session, phase := AbortedPhase, committed := false)
      case CommitAttempt => t' == t.(session := t'.session, commitAttempts := t.commitAttempts + 1)
      case _ => t' == t.(session := t'.session)
    ensures Told(t')
  {
    MoreEvents(t.session.events, e, CommitTask);
    MoreEvents(t.session.events, e, AbortTask);
    assert t'.session.events[..|t.session.events|] == t.session.events;
  }

  predicate IsOperation(e: TaskEvent) {
    !IsOutcome(e) && !e.eventType.CommitAttempt? && !e.eventType.SubmitTask? && !e.eventType.CreateBranch?
  }

  lemma OperationRecords(s: Session, so: SessionOp, m: Values)
    ensures var t := Operated(s, so, m);
      || t.events == s.events
      || exists e :: t.events == s.events + [e] && IsOperation(e) && e.number == |s.events|
  {
    var recorded := Recorded(s.branches, so, m, |s.events|);
    if recorded == [] {
      assert s.events + recorded == s.events;
    } else {
      assert s.events + recorded == s.events + [recorded[0]];
    }
  }

  lemma OperationTells(t: Task, so: SessionOp, m: Values)
    requires Told(t)
    ensures Told(Stepped(t, Operation(so, m)))
  {
    var t' := Stepped(t, Operation(so, m));
    OperationRecords(t.session, so, m);
    if t'.session.events != t.session.events {
      var e :| t'.session.events == t.session.events + [e] && IsOperation(e) && e.number == |t.session.events|;
      TellsMore(t, t', e);
    }
  }

  lemma StepTells(t: Task, step: TaskStep)
    requires Told(t)
    ensures Told(Stepped(t, step))
  {
    if step.Operation? {
      OperationTells(t, step.so, step.m);
    } else {
      var events := Stepped(t, step).session.events;
      TellsMore(t, Stepped(t, step), events[|t.session.events|]);
    }
  }

  lemma {:induction false} NothingAttempted(events: seq<TaskEvent>)
    requires forall i :: 0 <= i < |events| ==> !events[i].eventType.CommitAttempt? && events[i].number == i
    ensures Attempts(events) == 0 && Numbered(events)
  {
    if events != [] {
      NothingAttempted(events[..|events| - 1]);
    }
  }

  lemma SubmissionTells(objective: string, plans: seq<BranchPlan>)
    ensures Told(Submission(objective, plans))
  {
    NothingAttempted(Submitted(objective, plans).events);
  }

  /** At any moment the task is committed if and only if the last outcome in its log is a commit, aborted if and
      only if it is an abort, and running if there is none. */
  lemma {:induction false} LogTells(objective: string, plans: seq<BranchPlan>, steps: seq<TaskStep>, n: nat)
    requires n <= |steps|
    ensures Told(After(Submission(objective, plans), steps, n))
  {
    if n == 0 {
      SubmissionTells(objective, plans);
    } else {
      LogTells(objective, plans, steps, n - 1);
      StepTells(After(Submission(objective, plans), steps, n - 1), steps[n - 1]);
    }
  }

  // ---- What recovery decides ----

  /** The decision that recovery takes from the log of the task. */
  function DecisionOn(t: Task): Decision {
    Decide(t.committed, NatText(PhaseCode(t.phase)), t.session.events)
  }

  /** Event `i` is the last one that names a branch. */
  predicate LastNamed(events: seq<TaskEvent>, i: nat)
    requires i < |events|
  {
    events[i].branchId != "" && forall j :: i < j < |events| ==> events[j].branchId == ""
  }

  predicate TakesSavepoint(e: TaskEvent, branchId: string) {
    e.eventType.SavepointEvent? && e.branchId == branchId
  }

  /** Event `i` is the last savepoint event of the branch. */
  predicate LastTaken(events: seq<TaskEvent>, branchId: string, i: nat)
    requires i < |events|
  {
    TakesSavepoint(events[i], branchId) && forall j :: i < j < |events| ==> !TakesSavepoint(events[j], branchId)
  }

  /** The branch is the one that the log named last, if it names any. */
  ghost predicate NamedLast(events: seq<TaskEvent>, branchId: string) {
    if forall e <- events :: e.branchId == "" then branchId == ""
    else exists i :: 0 <= i < |events| && LastNamed(events, i) && events[i].branchId == branchId
  }

  /** The savepoint is the last one taken in the branch, if there is one. */
  ghost predicate TakenLast(events: seq<TaskEvent>, branchId: string, savepointId: string) {
    if forall e <- events :: !TakesSavepoint(e, branchId) then savepointId == ""
    else exists i :: 0 <= i < |events| && LastTaken(events, branchId, i) && events[i].detail == savepointId
  }

  lemma {:induction false} LatestBranchIsLast(events: seq<TaskEvent>, n: nat)
    requires n <= |events| && forall j :: n <= j < |events| ==> events[j].branchId == ""
    ensures NamedLast(events, LatestBranch(events, n))
  {
    if n > 0 && events[n - 1].branchId == "" {
      LatestBranchIsLast(events, n - 1);
    } else if n > 0 {
      assert events[n - 1] in events && LastNamed(events, n - 1);
    }
  }

  lemma LatestSavepointIsLast(events: seq<TaskEvent>, branchId: string)
    ensures TakenLast(events, branchId, LatestSavepoint(events, branchId))
  {
    var k := LastSavepoint(events, branchId, |events|);
    if k > 0 {
      assert events[k - 1] in events && TakesSavepoint(events[k - 1], branchId);
      assert LastTaken(events, branchId, k - 1);
    }
  }

  /** The task goes on in the branch that the log named last: from the last savepoint taken in it, or, if there
      is none or it has no id, just as it is. */
  ghost predicate GoesOn(d: Decision, events: seq<TaskEvent>) {
    && NamedLast(events, d.branchId) && TakenLast(events, d.branchId, d.savepointId)
    && d.action == if d.savepointId == "" then ResumeBranch else ResumeFromSavepoint
  }

  lemma PhaseTexts()
    ensures NatText(1) == "1" && NatText(2) == "2" && NatText(3) == "3"
  {
  }

  /** From the log of a task at any moment, recovery skips it exactly if it is committed, starts it afresh
      exactly if it is aborted, commits it once more exactly if it is running and its last event is an attempt
      to commit, and otherwise goes on. If the outcome is the last event, the decision names its branch. */
  lemma DecidesExactly(t: Task)
    requires Told(t)
    ensures var d, events := DecisionOn(t), t.session.events;
      && (d.action.SkipCommitted? <==> t.phase.CommittedPhase?)
      && (d.action.RetryFromScratch? <==> t.phase.AbortedPhase?)
      && (d.action.RevalidateCommit? <==>
            t.phase.RunningPhase? && events != [] && events[|events| - 1].eventType.CommitAttempt?)
      && (d.action.ResumeBranch? || d.action.ResumeFromSavepoint? ==> GoesOn(d, events))
      && (events != [] && IsOutcome(events[|events| - 1]) ==> d.branchId == events[|events| - 1].branchId)
  {
    PhaseTexts();
    var d, events := DecisionOn(t), t.session.events;
    if events != [] && IsOutcome(events[|events| - 1]) {
      assert LastOutcome(events, |events| - 1);
      assert forall k :: 0 <= k < |events| && LastOutcome(events, k) ==> k == |events| - 1;
    }
    if d.action.ResumeBranch? || d.action.ResumeFromSavepoint? {
      LatestBranchIsLast(events, |events|);
      LatestSavepointIsLast(events, d.branchId);
    }
  }

  // ---- The recovered task ----

  lemma EndKeepsPlaces(states: seq<BranchState>, ok: bool, winnerId: string, w: nat)
    ensures SamePlaces(states, AgentTxnManager.Ended(states, ok, winnerId, w))
    ensures SamePlaces(states, AgentTxnManager.Discarded(states, None))
  {
  }

  lemma StepKeepsPlaces(t: Task, step: TaskStep)
    ensures SamePlaces(t.session.branches, Stepped(t, step).session.branches)
  {
    match step
    case Operation(so, m) => AfterKeepsPlaces(t.session.branches, so, m);
    case Attempt =>
    case Commit(winnerId, w, _) => EndKeepsPlaces(t.session.branches, true, winnerId, w);
    case Fail(winnerId, w, _) => EndKeepsPlaces(t.session.branches, false, winnerId, w);
    case Abort => EndKeepsPlaces(t.session.branches, false, "", 0);
  }

  lemma EventPlansNothing(events: seq<TaskEvent>, e: TaskEvent)
    requires !e.eventType.CreateBranch? && !e.eventType.SubmitTask?
    ensures PlannedBranches(events + [e], |events + [e]|) == PlannedBranches(events, |events|)
    ensures RecoveredObjective(events + [e], |events + [e]|) == RecoveredObjective(events, |events|)
  {
    PlannedBranchesGrow(events, [e], |events|);
    ObjectiveStays(events, [e], |events|);
  }

  lemma StepPlansNothing(t: Task, step: TaskStep)
    ensures var events := Stepped(t, step).session.events;
      && PlannedBranches(events, |events|) == PlannedBranches(t.session.events, |t.session.events|)
      && RecoveredObjective(events, |events|) == RecoveredObjective(t.session.events, |t.session.events|)
  {
    var events := Stepped(t, step).session.events;
    if step.Operation? {
      OperationRecords(t.session, step.so, step.m);
      if events != t.session.events {
        var e :| events == t.session.events + [e] && IsOperation(e) && e.number == |t.session.events|;
        EventPlansNothing(t.session.events, e);
      }
    } else {
      EventPlansNothing(t.session.events, events[|t.session.events|]);
    }
  }

  ghost predicate KeepsPlan(t: Task, objective: string, plans: seq<BranchPlan>) {
    && SamePlaces(NewBranches(plans), t.session.branches)
    && PlannedBranches(t.session.events, |t.session.events|) == plans
    && (objective != "" ==> RecoveredObjective(t.session.events, |t.session.events|) == objective)
  }

  lemma StepKeepsPlan(t: Task, step: TaskStep, objective: string, plans: seq<BranchPlan>)
    requires KeepsPlan(t, objective, plans)
    ensures KeepsPlan(Stepped(t, step), objective, plans)
  {
    StepKeepsPlaces(t, step);
    StepPlansNothing(t, step);
  }

  lemma {:induction false} SubmittedObjective(objective: string, plans: seq<BranchPlan>, n: nat)
    requires objective != "" && n <= |plans|
    ensures RecoveredObjective(Submitted(objective, plans).events, n + 1) == objective
  {
    if n > 0 {
      SubmittedObjective(objective, plans, n - 1);
    }
  }

  lemma SubmissionKeepsPlan(objective: string, plans: seq<BranchPlan>)
    ensures KeepsPlan(Submission(objective, plans), objective, plans)
  {
    SubmittedPlansAll(objective, plans);
    if objective != "" {
      SubmittedObjective(objective, plans, |plans|);
    }
  }

  /** Whatever a task does, it keeps its branches in their places, and its log its objective and plan. */
  lemma {:induction false} PlanIsKept(objective: string, plans: seq<BranchPlan>, steps: seq<TaskStep>, n: nat)
    requires n <= |steps|
    ensures KeepsPlan(After(Submission(objective, plans), steps, n), objective, plans)
  {
    if n == 0 {
      SubmissionKeepsPlan(objective, plans);
    } else {
      PlanIsKept(objective, plans, steps, n - 1);
      StepKeepsPlan(After(Submission(objective, plans), steps, n - 1), steps[n - 1], objective, plans);
    }
  }

  lemma ReplayedKeepsPlaces(branches: seq<BranchState>, e: TaskEvent, m: Values)
    ensures SamePlaces(branches, Replayed(branches, e, m))
  {
  }

  lemma {:induction false} ReplayKeepsPlaces(branches: seq<BranchState>, events: seq<TaskEvent>, m: Values, n: nat)
    requires n <= |events|
    ensures SamePlaces(branches, ReplayedTo(branches, events, m, n))
  {
    if n > 0 {
      ReplayKeepsPlaces(branches, events, m, n - 1);
      ReplayedKeepsPlaces(ReplayedTo(branches, events, m, n - 1), events[n - 1], m);
    }
  }

  /** The branches that recovery ends up with, on the store content `m`. */
  function RecoveredBranches(t: Task, m: Values): seq<BranchState> {
    TerminalStates(Rebuilt(t.session.events, DecisionOn(t).branchId, m), t.committed, DecisionOn(t))
  }

  lemma RecoveredPlaces(t: Task, objective: string, plans: seq<BranchPlan>, m: Values)
    requires KeepsPlan(t, objective, plans) && plans != []
    ensures SamePlaces(NewBranches(plans), RecoveredBranches(t, m))
    ensures RecoveredPlan(t.session.events, DecisionOn(t).branchId) == plans
  {
    ReplayKeepsPlaces(NewBranches(plans), t.session.events, m, |t.session.events|);
  }

  predicate Ends(step: TaskStep) {
    step.Commit? || step.Fail? || step.Abort?
  }

  predicate Distinct(branches: seq<BranchState>) {
    forall i, j :: 0 <= i < j < |branches| ==> branches[i].branchId != branches[j].branchId
  }

  /** What the end makes of the branch `b` of the task. */
  predicate EndsAs(b: BranchState, step: TaskStep, status: BranchStatus) {
    status == if step.Commit? && b.branchId == step.winnerId then BranchStatus.Committed else BranchStatus.Discarded
  }

  lemma EndedStatus(t: Task, step: TaskStep, i: nat)
    requires Ends(step) && Distinct(t.session.branches) && i < |t.session.branches|
    requires step.Commit? ==> AgentTxnManager.FirstNamed(t.session.branches, step.winnerId, step.w)
    ensures var end := Stepped(t, step).session.branches;
      |end| == |t.session.branches| && EndsAs(t.session.branches[i], step, end[i].status)
  {
  }

  /** What recovery makes of it. */
  predicate RecoveredAs(b: BranchState, step: TaskStep, status: BranchStatus) {
    status ==
      if step.Commit? && b.branchId == step.winnerId then BranchStatus.Committed
      else if step.Fail? && b.branchId == step.winnerId then BranchStatus.Aborted
      else BranchStatus.Discarded
  }

  lemma EndIsDecided(t: Task, step: TaskStep)
    requires Ends(step) && Told(t)
    ensures var end, d := Stepped(t, step), DecisionOn(Stepped(t, step));
      && end.committed == step.Commit?
      && d.action == (if step.Commit? then SkipCommitted else RetryFromScratch)
      && d.branchId == if step.Abort? then "" else step.winnerId
  {
    StepTells(t, step);
    DecidesExactly(Stepped(t, step));
  }

  lemma RecoveredStatus(
      t: Task, step: TaskStep, objective: string, plans: seq<BranchPlan>, m: Values, i: nat)
    requires Ends(step) && Told(t) && KeepsPlan(t, objective, plans) && plans != [] && i < |t.session.branches|
    requires t.session.branches[i].branchId != ""
    ensures var recovered := RecoveredBranches(Stepped(t, step), m);
      |recovered| == |t.session.branches| && RecoveredAs(t.session.branches[i], step, recovered[i].status)
  {
    var end := Stepped(t, step);
    EndIsDecided(t, step);
    StepKeepsPlan(t, step, objective, plans);
    RecoveredPlaces(end, objective, plans, m);
  }

  predicate SameStatuses(branches: seq<BranchState>, branches': seq<BranchState>) {
    |branches| == |branches'| && forall i :: 0 <= i < |branches| ==> branches[i].status == branches'[i].status
  }

  predicate AnyNamed(branches: seq<BranchState>, id: string) {
    exists b <- branches :: b.branchId == id
  }

  /** Recovering a task that has just ended gives every branch the status it had: after a commit, and after an
      abort on request. After a commit that failed it does not: there all branches are discarded, but recovery
      marks the branch that should have won as aborted. */
  lemma EndIsRecoveredExactly(objective: string, plans: seq<BranchPlan>, steps: seq<TaskStep>, n: nat, m: Values)
    requires n < |steps| && ValidPlan(plans) && Ends(steps[n])
    requires var branches := After(Submission(objective, plans), steps, n).session.branches;
      steps[n].Commit? ==> AgentTxnManager.FirstNamed(branches, steps[n].winnerId, steps[n].w)
    ensures var t := After(Submission(objective, plans), steps, n + 1);
      SameStatuses(t.session.branches, RecoveredBranches(t, m)) <==>
        !(steps[n].Fail? && AnyNamed(t.session.branches, steps[n].winnerId))
  {
    LogTells(objective, plans, steps, n);
    PlanIsKept(objective, plans, steps, n);
    EndedTask(After(Submission(objective, plans), steps, n), steps[n], objective, plans, m);
  }

  lemma EndedTask(t: Task, step: TaskStep, objective: string, plans: seq<BranchPlan>, m: Values)
    requires ValidPlan(plans) && Ends(step) && Told(t) && KeepsPlan(t, objective, plans)
    requires step.Commit? ==> AgentTxnManager.FirstNamed(t.session.branches, step.winnerId, step.w)
    ensures var end := Stepped(t, step);
      SameStatuses(end.session.branches, RecoveredBranches(end, m)) <==>
        !(step.Fail? && AnyNamed(end.session.branches, step.winnerId))
  {
    var branches, end := t.session.branches, Stepped(t, step);
    StepKeepsPlaces(t, step);
    StepKeepsPlan(t, step, objective, plans);
    RecoveredPlaces(end, objective, plans, m);
    assert Distinct(branches);
    forall i | 0 <= i < |branches|
      ensures EndsAs(branches[i], step, end.session.branches[i].status)
      ensures RecoveredAs(branches[i], step, RecoveredBranches(end, m)[i].status)
    {
      assert plans[i] in plans;
      EndedStatus(t, step, i);
      RecoveredStatus(t, step, objective, plans, m, i);
    }
    StatusesCompared(branches, step, end.session.branches, RecoveredBranches(end, m));
  }

  lemma StatusesCompared(
      branches: seq<BranchState>, step: TaskStep, end: seq<BranchState>, recovered: seq<BranchState>)
    requires SamePlaces(branches, end) && |recovered| == |branches| && Ends(step)
    requires forall i :: 0 <= i < |branches| ==>
      EndsAs(branches[i], step, end[i].status) && RecoveredAs(branches[i], step, recovered[i].status)
    ensures SameStatuses(end, recovered) <==> !(step.Fail? && AnyNamed(end, step.winnerId))
  {
    if step.Fail? && AnyNamed(end, step.winnerId) {
      var b :| b in end && b.branchId == step.winnerId;
      var i :| 0 <= i < |end| && end[i] == b;
      assert branches[i].branchId == step.winnerId;
    } else if step.Fail? {
      forall i | 0 <= i < |branches|
        ensures branches[i].branchId != step.winnerId
      {
        assert end[i] in end;
      }
    }
  }

  // ---- A task that has not ended ----

  function Operations(ops: seq<SessionOp>, m: Values): (steps: seq<TaskStep>)
    ensures |steps| == |ops|
  {
    seq(|ops|, i requires 0 <= i < |ops| => Operation(ops[i], m))
  }

  function StillRunning(s: Session): Task {
    Task(s, RunningPhase, false, 0)
  }

  lemma StillRunningAfter(s: Session, so: SessionOp, m: Values)
    ensures Stepped(StillRunning(s), Operation(so, m)) == StillRunning(Operated(s, so, m))
  {
  }

  lemma OneMoreOperation(t: Task, ops: seq<SessionOp>, m: Values, n: nat, s: Session)
    requires n < |ops| && After(t, Operations(ops, m), n) == StillRunning(s)
    ensures After(t, Operations(ops, m), n + 1) == StillRunning(Operated(s, ops[n], m))
  {
    StillRunningAfter(s, ops[n], m);
  }

  lemma {:induction false} RunIsTask(run: seq<Session>, ops: seq<SessionOp>, m: Values, n: nat)
    requires IsRun(run, ops, m) && n <= |ops|
    ensures After(StillRunning(run[0]), Operations(ops, m), n) == StillRunning(run[n])
    decreases n
  {
    if n > 0 {
      RunIsTask(run, ops, m, n - 1);
      assert StepAt(run, ops, m, n - 1);
      OneMoreOperation(StillRunning(run[0]), ops, m, n - 1, run[n - 1]);
    }
  }

  lemma RunningTells(run: seq<Session>, plans: seq<BranchPlan>, ops: seq<SessionOp>, m: Values, n: nat)
    requires TaskRecovery.StartsWith(run, plans) && IsRun(run, ops, m) && n <= |ops|
    ensures Told(StillRunning(run[n]))
  {
    var objective: string :| run[0] == Submitted(objective, plans);
    RunIsTask(run, ops, m, n);
    LogTells(objective, plans, Operations(ops, m), n);
  }

  lemma RunningIsNotRetried(s: Session)
    requires Told(StillRunning(s))
    ensures !DecisionOn(StillRunning(s)).action.RetryFromScratch?
  {
    DecidesExactly(StillRunning(s));
  }

  /** Recovering a task that has only operated so far, while the store did not change, gives every branch the
      status it had; only the one to go on with is running. */
  lemma RunningIsRecovered(run: seq<Session>, plans: seq<BranchPlan>, ops: seq<SessionOp>, m: Values, n: nat, i: nat)
    requires TaskRecovery.StartsWith(run, plans) && IsRun(run, ops, m) && n <= |ops| && i < |plans|
    ensures var d, recovered := DecisionOn(StillRunning(run[n])), RecoveredBranches(StillRunning(run[n]), m);
      && |recovered| == |run[n].branches| == |plans|
      && recovered[i].branchId == run[n].branches[i].branchId == plans[i].branchId
      && recovered[i].status ==
           if plans[i].branchId == d.branchId then BranchStatus.Running else run[n].branches[i].status
  {
    var t := StillRunning(run[n]);
    RunningTells(run, plans, ops, m, n);
    RunningIsNotRetried(run[n]);
    StartOf(run, plans, m);
    BranchesKeepTheirPlaces(run, ops, m, n);
    RebuildSimulates(run, plans, ops, m, n, DecisionOn(t).branchId);
    assert AlikeAt(run[n].branches, Rebuilt(run[n].events, DecisionOn(t).branchId, m), i);
  }

  // ---- The printed log ----

  /** Whatever a task has done, its log can be printed, parsed and recovered, and the decision is the one above. */
  lemma PrintedTaskDecides(
      h: Header, objective: string, plans: seq<BranchPlan>, steps: seq<TaskStep>, n: nat, task: map<string, string>)
    requires n <= |steps| && ValidPlan(plans) && FitsHeader(h) && TaskLogText.Lists(h.pairs, task) && h.taskId != ""
    requires var t := After(Submission(objective, plans), steps, n);
      h.committed == t.committed && h.phase == PhaseCode(t.phase) && forall e <- t.session.events :: FitsEvent(e)
    ensures var t := After(Submission(objective, plans), steps, n);
      var log := ParseTaskLog(PrintTaskLog(h, t.session.events));
      log.Some? && Recoverable(log.value) && DecisionOf(log.value) == DecisionOn(t)
  {
    var t := After(Submission(objective, plans), steps, n);
    PlanIsKept(objective, plans, steps, n);
    DecisionFromText(h, t.session.events, task);
    WrittenIsRecoverable(h, t.session.events, task);
  }
}
