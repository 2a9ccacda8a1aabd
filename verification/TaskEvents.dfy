/** A task session: operations on several branches, and the events they record. */
module TaskEvents {
  import opened Wrappers
  import opened KvStore
  import opened Intents
  import opened WriteBuffers
  import opened Branches

  datatype EventType =
    | SubmitTask | CreateBranch | ReadEvent | WriteEvent | SavepointEvent | RollbackEvent | StageEvent
    | CommitAttempt | CommitTask | AbortTask

  datatype TaskEvent = TaskEvent(
    number: nat,
    eventType: EventType,
    branchId: string,
    objectId: string,
    detail: string,
    numericValue: int)

  /** An operation of a session: a branch operation on the first branch of that id, if there is one. */
  datatype SessionOp = SessionOp(branchId: string, op: BranchOp)

  function BranchIndex(branches: seq<BranchState>, id: string): (w: nat)
    ensures w <= |branches|
    ensures w < |branches| ==> branches[w].branchId == id
    ensures forall i :: 0 <= i < w ==> branches[i].branchId != id
  {
    if branches == [] || branches[0].branchId == id then 0 else 1 + BranchIndex(branches[1..], id)
  }

  function BranchesAfter(branches: seq<BranchState>, so: SessionOp, m: Values): seq<BranchState> {
    var w := BranchIndex(branches, so.branchId);
    if w == |branches| then branches else branches[w := Performed(branches[w], so.op, m)]
  }

  function IntentCode(intentType: IntentType): int {
    match intentType
    case ReadIntent => 0
    case Overwrite => 1
    case Append => 2
    case Delta => 3
    case Cas => 4
  }

  function IntentOfCode(code: int): IntentType {
    match code
    case 0 => ReadIntent
    case 1 => Overwrite
    case 2 => Append
    case 3 => Delta
    case 4 => Cas
    case _ => Overwrite
  }

  /** Each code stands for its kind of intent, and any other code for an overwrite. */
  lemma IntentCodesExactly(code: int, intentType: IntentType)
    ensures IntentOfCode(code) == intentType <==>
      code == IntentCode(intentType) || (intentType.Overwrite? && forall t: IntentType :: code != IntentCode(t))
  {
    assert IntentCode(IntentOfCode(code)) == code || IntentOfCode(code) == Overwrite;
    if IntentOfCode(code) == Overwrite && code != 1 {
      assert forall t: IntentType :: code != IntentCode(t);
    }
  }

  /** What a read answers; without a branch, nothing. */
  function Answer(branches: seq<BranchState>, branchId: string, objectId: string, m: Values): VersionedValue {
    var w := BranchIndex(branches, branchId);
    if w == |branches| then VersionedValue("", 0, false) else ReadAnswer(branches[w], objectId, m)
  }

  predicate RollsBack(branches: seq<BranchState>, branchId: string, savepointId: string) {
    var w := BranchIndex(branches, branchId);
    w < |branches| && CanRollBack(branches[w], savepointId)
  }

  /** The event that stands for an operation; `answer` is what a read was answered. */
  function EventOf(so: SessionOp, answer: VersionedValue, number: nat): TaskEvent {
    match so.op
    case Read(id) => TaskEvent(number, ReadEvent, so.branchId, id, answer.value, answer.version)
    case Write(id, _, intent) =>
      TaskEvent(number, WriteEvent, so.branchId, id, intent.payload, IntentCode(intent.intentType))
    case CreateSavepoint(id) => TaskEvent(number, SavepointEvent, so.branchId, "", id, 0)
    case RollbackTo(id) => TaskEvent(number, RollbackEvent, so.branchId, "", id, 0)
    case Stage(score, summary) => TaskEvent(number, StageEvent, so.branchId, "", summary, score)
  }

  /** The event an operation records. Only a rollback that fails records none; all others record one, even
      when there is no such branch. */
  function Recorded(branches: seq<BranchState>, so: SessionOp, m: Values, number: nat): seq<TaskEvent> {
    if so.op.RollbackTo? && !RollsBack(branches, so.branchId, so.op.savepointId) then []
    else
      var answer :=
        if so.op.Read? then Answer(branches, so.branchId, so.op.objectId, m) else VersionedValue("", 0, false);
      [EventOf(so, answer, number)]
  }

  datatype Session = Session(branches: seq<BranchState>, events: seq<TaskEvent>)

  function Operated(s: Session, so: SessionOp, m: Values): Session {
    Session(BranchesAfter(s.branches, so, m), s.events + Recorded(s.branches, so, m, |s.events|))
  }

  ghost predicate StepAt(run: seq<Session>, ops: seq<SessionOp>, m: Values, n: nat)
    requires n < |ops| && |run| == |ops| + 1
  {
    run[n + 1] == Operated(run[n], ops[n], m)
  }

  /** The states of a session that performs `ops` while nobody changes the store; every intent names the
      object it is written to. */
  ghost predicate IsRun(run: seq<Session>, ops: seq<SessionOp>, m: Values) {
    && |run| == |ops| + 1
    && (forall so <- ops :: Named(so.op))
    && (forall n :: 0 <= n < |ops| ==> StepAt(run, ops, m, n))
  }

  datatype BranchPlan = BranchPlan(branchId: string, candidateId: string, priority: int)

  /** What a plan must be for its task to be accepted. */
  predicate ValidPlan(plans: seq<BranchPlan>) {
    && plans != []
    && (forall p <- plans :: p.branchId != "" && p.candidateId != "")
    && forall i, j :: 0 <= i < j < |plans| ==> plans[i].branchId != plans[j].branchId
  }

  predicate ValidTask(taskId: string, objective: string) {
    taskId != "" && objective != ""
  }

  function NewBranches(plans: seq<BranchPlan>): seq<BranchState> {
    seq(|plans|, i requires 0 <= i < |plans| => NewBranch(plans[i].branchId))
  }

  /** A submitted task: one event for it and one for each branch of its plan. */
  function Submitted(objective: string, plans: seq<BranchPlan>): Session {
    Session(NewBranches(plans),
            [TaskEvent(0, SubmitTask, "", "", objective, 0)]
            + seq(|plans|, i requires 0 <= i < |plans| =>
                TaskEvent(i + 1, CreateBranch, plans[i].branchId, "", plans[i].candidateId, plans[i].priority)))
  }

  // ---- Replay ----

  /** A signed 64-bit number read as an unsigned one. */
  function Unsigned(n: int): nat {
    if n < 0 then n % 0x1_0000_0000_0000_0000 else n
  }

  /** Replaying a read records it without reading. */
  function Recalled(b: BranchState, objectId: string, version: nat): BranchState {
    b.(status := BranchStatus.Running, readLog := b.readLog + [ReadRecord(objectId, version)])
  }

  /** The operation that an event other than a read stands for. */
  function OperationOf(e: TaskEvent): Option<BranchOp> {
    match e.eventType
    case WriteEvent =>
      Some(Write(e.objectId, Generic, WriteIntent(e.objectId, IntentOfCode(e.numericValue), e.detail, NO_CONDITION)))
    case SavepointEvent => Some(CreateSavepoint(e.detail))
    case RollbackEvent => Some(RollbackTo(e.detail))
    case StageEvent => Some(Stage(e.numericValue, e.detail))
    case _ => None
  }

  /** Replays one event on its branch; events that record no branch operation change nothing. */
  function ReplayedOn(b: BranchState, e: TaskEvent, m: Values): BranchState {
    if e.eventType.ReadEvent? then Recalled(b, e.objectId, Unsigned(e.numericValue))
    else
      match OperationOf(e)
      case None => b
      case Some(op) => Performed(b, op, m)
  }

  function Replayed(branches: seq<BranchState>, e: TaskEvent, m: Values): seq<BranchState> {
    var w := BranchIndex(branches, e.branchId);
    if w == |branches| then branches else branches[w := ReplayedOn(branches[w], e, m)]
  }

  function ReplayedTo(branches: seq<BranchState>, events: seq<TaskEvent>, m: Values, n: nat): seq<BranchState>
    requires n <= |events|
  {
    if n == 0 then branches else Replayed(ReplayedTo(branches, events, m, n - 1), events[n - 1], m)
  }

  // ---- What replay loses ----

  predicate Subsequence<T(==)>(a: seq<T>, b: seq<T>) {
    || a == []
    || (b != [] &&
        ((a[|a| - 1] == b[|b| - 1] && Subsequence(a[..|a| - 1], b[..|b| - 1])) || Subsequence(a, b[..|b| - 1])))
  }

  /** Events do not record the condition of an intent. */
  predicate AlikeIntent(a: WriteIntent, b: WriteIntent) {
    b == a.(condition := NO_CONDITION)
  }

  /** Nor the type of the object. */
  predicate AlikeEntry(e: CacheEntry, f: CacheEntry) {
    e.(objectType := f.objectType) == f
  }

  predicate AlikeChange(c: Change, d: Change) {
    && c.objectId == d.objectId
    && c.previous.Some? == d.previous.Some?
    && (c.previous.Some? ==> AlikeEntry(c.previous.value, d.previous.value))
  }

  ghost predicate AlikeBuffer(b: Buffer, c: Buffer) {
    && b.order == c.order
    && b.entries.Keys == c.entries.Keys && (forall id <- b.entries :: AlikeEntry(b.entries[id], c.entries[id]))
    && |b.changes| == |c.changes| && (forall i :: 0 <= i < |b.changes| ==> AlikeChange(b.changes[i], c.changes[i]))
  }

  ghost predicate AlikeIntents(a: seq<WriteIntent>, b: seq<WriteIntent>) {
    |a| == |b| && forall i :: 0 <= i < |a| ==> AlikeIntent(a[i], b[i])
  }

  /** The rebuilt branch `r` against the original `b`: it may have recorded more reads. */
  ghost predicate Alike(b: BranchState, r: BranchState) {
    && b.(buffer := r.buffer, intents := r.intents, readLog := r.readLog) == r
    && AlikeBuffer(b.buffer, r.buffer)
    && AlikeIntents(b.intents, r.intents)
    && Subsequence(b.readLog, r.readLog)
  }

  lemma ReadAlike(b: BranchState, r: BranchState, id: string, m: Values, version: nat)
    requires Alike(b, r)
    requires id !in b.buffer.entries ==> version == Lookup(m, id).version
    ensures Alike(AfterRead(b, id, m), Recalled(r, id, version))
  {
    var record := ReadRecord(id, version);
    var longer := r.readLog + [record];
    assert longer[..|longer| - 1] == r.readLog;
    if id !in b.buffer.entries {
      var kept := b.readLog + [record];
      assert kept[..|kept| - 1] == b.readLog;
    }
  }

  lemma WriteAlike(b: BranchState, r: BranchState, id: string, ty: ObjectType, intent: WriteIntent, m: Values)
    requires Alike(b, r) && intent.objectId == id
    ensures Alike(AfterWrite(b, id, ty, intent, m), AfterWrite(r, id, Generic, intent.(condition := NO_CONDITION), m))
  {
    var e := EntryAfter(StartingEntry(b, id, ty, m), ty, intent);
    var f := EntryAfter(StartingEntry(r, id, Generic, m), Generic, intent.(condition := NO_CONDITION));
    assert AlikeEntry(e, f);
    UpsertAlike(b.buffer, r.buffer, e, f);
  }

  lemma UpsertAlike(b: Buffer, c: Buffer, e: CacheEntry, f: CacheEntry)
    requires AlikeBuffer(b, c) && AlikeEntry(e, f)
    ensures AlikeBuffer(Upserted(b, e), Upserted(c, f))
  {
  }

  lemma UndoAlike(b: Buffer, c: Buffer)
    requires AlikeBuffer(b, c) && b.changes != []
    ensures AlikeBuffer(UndoChange(b), UndoChange(c))
  {
    assert AlikeChange(b.changes[|b.changes| - 1], c.changes[|c.changes| - 1]);
  }

  lemma {:induction false} TruncateAlike(b: Buffer, c: Buffer, size: nat)
    requires AlikeBuffer(b, c)
    ensures AlikeBuffer(Truncated(b, size), Truncated(c, size))
    decreases |b.changes|
  {
    if size < |b.changes| {
      UndoAlike(b, c);
      TruncateAlike(UndoChange(b), UndoChange(c), size);
    }
  }

  lemma RollbackAlike(b: BranchState, r: BranchState, savepointId: string)
    requires Alike(b, r)
    ensures Alike(AfterRollback(b, savepointId), AfterRollback(r, savepointId))
  {
    var i := FindSavepoint(b.savepoints, savepointId);
    if i < |b.savepoints| {
      TruncateAlike(b.buffer, r.buffer, b.savepoints[i].writeLogPosition);
    }
  }

  lemma IntentCodeInverts(intentType: IntentType)
    ensures IntentOfCode(IntentCode(intentType)) == intentType
  {
  }

  /** Replaying the event of an operation does to the rebuilt branch what the operation did. */
  lemma EventAlike(b: BranchState, r: BranchState, so: SessionOp, answer: VersionedValue, m: Values, number: nat)
    requires Alike(b, r) && Named(so.op) && (so.op.Read? ==> answer == ReadAnswer(b, so.op.objectId, m))
    ensures Alike(Performed(b, so.op, m), ReplayedOn(r, EventOf(so, answer, number), m))
  {
    match so.op
    case Read(id) => ReadAlike(b, r, id, m, answer.version);
    case Write(id, ty, intent) =>
      WriteAlike(b, r, id, ty, intent, m);
      IntentCodeInverts(intent.intentType);
    case RollbackTo(id) => RollbackAlike(b, r, id);
    case CreateSavepoint(_) =>
    case Stage(_, _) =>
  }

  lemma OperationAlike(bs: seq<BranchState>, rs: seq<BranchState>, so: SessionOp, m: Values, number: nat)
    requires AllAlike(bs, rs) && Named(so.op)
    ensures var recorded := Recorded(bs, so, m, number);
      AllAlike(BranchesAfter(bs, so, m), if recorded == [] then rs else Replayed(rs, recorded[0], m))
  {
    SameFirst(bs, rs, so.branchId);
    var w, recorded := BranchIndex(bs, so.branchId), Recorded(bs, so, m, number);
    if w < |bs| {
      assert AlikeAt(bs, rs, w);
      if recorded == [] {
        assert bs[w := bs[w]] == bs;
      } else {
        var answer := if so.op.Read? then ReadAnswer(bs[w], so.op.objectId, m) else VersionedValue("", 0, false);
        EventAlike(bs[w], rs[w], so, answer, m, number);
        UpdatedAlike(bs, rs, w, Performed(bs[w], so.op, m), ReplayedOn(rs[w], recorded[0], m));
      }
    }
  }

  ghost predicate AlikeAt(bs: seq<BranchState>, rs: seq<BranchState>, i: nat)
    requires i < |bs| == |rs|
  {
    Alike(bs[i], rs[i])
  }

  ghost predicate AllAlike(bs: seq<BranchState>, rs: seq<BranchState>) {
    |bs| == |rs| && forall i :: 0 <= i < |bs| ==> AlikeAt(bs, rs, i)
  }

  lemma UpdatedAlike(bs: seq<BranchState>, rs: seq<BranchState>, w: nat, b: BranchState, r: BranchState)
    requires AllAlike(bs, rs) && w < |bs| && Alike(b, r)
    ensures AllAlike(bs[w := b], rs[w := r])
  {
    var bs', rs' := bs[w := b], rs[w := r];
    forall i | 0 <= i < |bs|
      ensures AlikeAt(bs', rs', i)
    {
      assert AlikeAt(bs, rs, i);
    }
  }

  lemma SameFirst(bs: seq<BranchState>, rs: seq<BranchState>, id: string)
    requires AllAlike(bs, rs)
    ensures BranchIndex(rs, id) == BranchIndex(bs, id)
  {
    assert forall i :: 0 <= i < |bs| ==> AlikeAt(bs, rs, i) && rs[i].branchId == bs[i].branchId;
    var v, w := BranchIndex(rs, id), BranchIndex(bs, id);
    assert v < |rs| ==> rs[v].branchId == bs[v].branchId;
    assert w < |bs| ==> rs[w].branchId == bs[w].branchId;
  }

  lemma {:induction false} ReplayAppended(
      branches: seq<BranchState>, events: seq<TaskEvent>, more: seq<TaskEvent>, m: Values, n: nat)
    requires n <= |events|
    ensures ReplayedTo(branches, events + more, m, n) == ReplayedTo(branches, events, m, n)
  {
    if n > 0 {
      ReplayAppended(branches, events, more, m, n - 1);
    }
  }

  /** Replaying the events of `s` on the branches `start` gives branches alike to those of `s`. */
  ghost predicate Simulated(start: seq<BranchState>, s: Session, m: Values) {
    AllAlike(s.branches, ReplayedTo(start, s.events, m, |s.events|))
  }

  lemma ReplayLonger(start: seq<BranchState>, events: seq<TaskEvent>, more: seq<TaskEvent>, m: Values)
    requires |more| <= 1
    ensures ReplayedTo(start, events + more, m, |events + more|) ==
      var before := ReplayedTo(start, events, m, |events|);
      if more == [] then before else Replayed(before, more[0], m)
  {
    if more == [] {
      assert events + more == events;
    } else {
      ReplayAppended(start, events, more, m, |events|);
      assert (events + more)[|events|] == more[0];
    }
  }

  lemma ReplayStep(start: seq<BranchState>, s: Session, so: SessionOp, m: Values)
    requires Named(so.op) && Simulated(start, s, m)
    ensures Simulated(start, Operated(s, so, m), m)
  {
    OperationAlike(s.branches, ReplayedTo(start, s.events, m, |s.events|), so, m, |s.events|);
    ReplayLonger(start, s.events, Recorded(s.branches, so, m, |s.events|), m);
  }

  /** Event-log replay simulates the session: run any operations on it while the store does not change,
      replay the events it has recorded on the branches it started with, and every branch comes out
      alike. */
  lemma {:induction false} ReplaySimulates(
      start: seq<BranchState>, run: seq<Session>, ops: seq<SessionOp>, m: Values, n: nat)
    requires IsRun(run, ops, m) && n <= |ops| && Simulated(start, run[0], m)
    ensures Simulated(start, run[n], m)
  {
    if n > 0 {
      var last := n - 1;
      ReplaySimulates(start, run, ops, m, last);
      assert StepAt(run, ops, m, last) && ops[last] in ops;
      ReplayStep(start, run[last], ops[last], m);
    }
  }

  lemma SubmittedIsReplayed(objective: string, plans: seq<BranchPlan>, m: Values)
    ensures Simulated(Submitted(objective, plans).branches, Submitted(objective, plans), m)
  {
    var s := Submitted(objective, plans);
    forall i | 0 <= i < |s.branches|
      ensures AlikeAt(s.branches, s.branches, i)
    {
    }
    NothingReplayed(s.branches, s.events, m, |s.events|);
  }

  lemma {:induction false} NothingReplayed(branches: seq<BranchState>, events: seq<TaskEvent>, m: Values, n: nat)
    requires n <= |events| && forall e <- events :: e.eventType.SubmitTask? || e.eventType.CreateBranch?
    ensures ReplayedTo(branches, events, m, n) == branches
  {
    if n > 0 {
      NothingReplayed(branches, events, m, n - 1);
      assert events[n - 1] in events;
    }
  }
}
