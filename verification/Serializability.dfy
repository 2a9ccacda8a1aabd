/** A branch that only overwrites is serializable: a successful batch commit means the whole branch could
    have run, atomically, at the instant of the commit. What it read on the way is part of that exactly
    when the versions it was answered with are still on record at the end. */
module Serializability {
  import opened KvStore
  import opened Intents
  import opened WriteBuffers
  import opened Branches
  import opened BranchFold
  import opened CommitPlan
  import opened FallbackCommit

  // ---- Executions ----

  /** A fresh branch runs a program; operation `i` sees the content that the store has after `times[i]`
      operations of its history. */
  datatype Execution = Execution(
    branchId: string, ops: seq<BranchOp>, times: seq<nat>, m: Values, history: seq<StoreOp>)
  {
    predicate Valid() {
      |times| == |ops| && forall i :: 0 <= i < |times| ==> times[i] <= |history|
    }

    function Views(): (views: seq<Values>)
      requires Valid()
      ensures |views| == |ops|
    {
      seq(|ops|, i requires 0 <= i < |ops| => After(m, history, times[i]))
    }

    /** The branch before operation `i`. */
    function At(i: nat): BranchState
      requires Valid() && i <= |ops|
    {
      Run(NewBranch(branchId), ops, Views(), i)
    }

    function End(): BranchState
      requires Valid()
    {
      At(|ops|)
    }

    function Now(): Values {
      After(m, history, |history|)
    }

    /** The same program, all of it on the content at the end of the history. */
    function Again(i: nat): BranchState
      requires i <= |ops|
    {
      Run(NewBranch(branchId), ops, seq(|ops|, _ => Now()), i)
    }

    function AnswerAt(i: nat): VersionedValue
      requires Valid() && i < |ops| && ops[i].Read?
    {
      ReadAnswer(At(i), ops[i].objectId, Views()[i])
    }

    function AnswerAgain(i: nat): VersionedValue
      requires i < |ops| && ops[i].Read?
    {
      ReadAnswer(Again(i), ops[i].objectId, Now())
    }
  }

  /** The operation takes its object from the store. */
  predicate Fetches(b: BranchState, op: BranchOp) {
    (op.Read? || op.Write?) && op.objectId !in b.buffer.entries
  }

  /** Nobody removes an object once the branch has fetched it. Any other key may be removed at any time. */
  ghost predicate KeepsFetched(x: Execution)
    requires x.Valid()
  {
    forall i :: 0 <= i < |x.ops| ==> KeepsFetchedAt(x, i)
  }

  ghost predicate KeepsFetchedAt(x: Execution, i: nat)
    requires x.Valid() && i < |x.ops|
  {
    Fetches(x.At(i), x.ops[i]) ==> Kept(x.m, x.history, x.times[i], |x.history|, x.ops[i].objectId)
  }

  lemma FetchIsNewer(x: Execution, i: nat)
    requires x.Valid() && KeepsFetched(x) && i < |x.ops| && Fetches(x.At(i), x.ops[i])
    ensures Newer(Lookup(x.Views()[i], x.ops[i].objectId), Lookup(x.Now(), x.ops[i].objectId))
  {
    assert KeepsFetchedAt(x, i);
    VersionPinsValue(x.m, x.history, x.times[i], |x.history|, x.ops[i].objectId);
  }

  /** Every buffered object is overwritten by its latest intent. */
  ghost predicate AllOverwrite(b: BranchState) {
    forall id <- b.buffer.entries :: Latest(b.intents, id).Some? ==> Latest(b.intents, id).value.intentType.Overwrite?
  }

  // ---- Reachable buffers ----

  /** An entry and all the older versions of it that undoing could bring back have one base version. */
  ghost predicate BasesKept(b: Buffer)
    decreases |b.changes|
  {
    && (forall i :: 0 <= i < |b.changes| ==> BaseKeptAt(b, b.changes[i]))
    && (b.changes != [] ==> BasesKept(UndoChange(b)))
  }

  predicate BaseKeptAt(b: Buffer, c: Change) {
    c.previous.Some? ==>
      && c.objectId in b.entries
      && b.entries[c.objectId].baseVersion == c.previous.value.baseVersion
      && c.previous.value.objectId == c.objectId
  }

  lemma UpsertKeepsBases(b: Buffer, e: CacheEntry)
    requires Consistent(b) && BasesKept(b)
    requires e.objectId in b.entries ==> b.entries[e.objectId].baseVersion == e.baseVersion
    ensures BasesKept(Upserted(b, e))
  {
    UndoUpsert(b, e);
    var u := Upserted(b, e);
    forall i | 0 <= i < |u.changes|
      ensures BaseKeptAt(u, u.changes[i])
    {
      assert i < |b.changes| ==> BaseKeptAt(b, b.changes[i]);
    }
  }

  lemma {:induction false} TruncateKeepsBases(b: Buffer, size: nat)
    requires BasesKept(b)
    ensures BasesKept(Truncated(b, size))
    decreases |b.changes|
  {
    if size < |b.changes| {
      TruncateKeepsBases(UndoChange(b), size);
    }
  }

  ghost predicate Orderly(b: Buffer) {
    WellFormed(b) && BasesKept(b)
  }

  lemma StepKeepsOrderly(b: BranchState, op: BranchOp, m: Values)
    requires Orderly(b.buffer)
    ensures Orderly(Performed(b, op, m).buffer)
  {
    match op
    case Write(id, ty, intent) =>
      var e := EntryAfter(StartingEntry(b, id, ty, m), ty, intent);
      assert e.objectId == id;
      UpsertKeepsWellFormed(b.buffer, e);
      UpsertKeepsBases(b.buffer, e);
    case RollbackTo(id) =>
      var i := FindSavepoint(b.savepoints, id);
      if i < |b.savepoints| {
        TruncateKeepsWellFormed(b.buffer, b.savepoints[i].writeLogPosition);
        TruncateKeepsBases(b.buffer, b.savepoints[i].writeLogPosition);
      }
    case _ =>
  }

  lemma {:induction false} RunKeepsOrderly(b: BranchState, ops: seq<BranchOp>, views: seq<Values>, n: nat)
    requires Orderly(b.buffer) && n <= |ops| == |views|
    ensures Orderly(Run(b, ops, views, n).buffer)
  {
    if n > 0 {
      RunKeepsOrderly(b, ops, views, n - 1);
      StepKeepsOrderly(Run(b, ops, views, n - 1), ops[n - 1], views[n - 1]);
    }
  }

  // ---- Running again ----

  predicate SameAnswer(a: VersionedValue, b: VersionedValue) {
    a.value == b.value && a.version == b.version
  }

  /** Equal, except that an absent object may by now be present but empty, at version 0. */
  predicate SameEntry(e: CacheEntry, f: CacheEntry) {
    e.(undo := e.undo.(existed := f.undo.existed)) == f
  }

  /** Two entries of one object, of which the second was copied from `now`: they are the same if the first
      one was copied at the version that `now` holds. */
  predicate AgreeingEntry(e: CacheEntry, f: CacheEntry, now: Values) {
    && e.objectId == f.objectId
    && f.baseVersion == Lookup(now, f.objectId).version
    && e.baseVersion <= f.baseVersion
    && (e.baseVersion == f.baseVersion ==> SameEntry(e, f))
  }

  predicate AgreeingChange(c: Change, d: Change, now: Values) {
    && c.objectId == d.objectId
    && c.previous.Some? == d.previous.Some?
    && (c.previous.Some? ==> AgreeingEntry(c.previous.value, d.previous.value, now))
  }

  ghost predicate AgreeingBuffer(b: Buffer, c: Buffer, now: Values) {
    && b.order == c.order
    && b.entries.Keys == c.entries.Keys && (forall id <- b.entries :: AgreeingEntry(b.entries[id], c.entries[id], now))
    && |b.changes| == |c.changes|
    && (forall i :: 0 <= i < |b.changes| ==> AgreeingChange(b.changes[i], c.changes[i], now))
  }

  predicate AgreeingRead(r: ReadRecord, q: ReadRecord, now: Values) {
    r.objectId == q.objectId && q.observedVersion == Lookup(now, q.objectId).version
  }

  /** The second branch has done on `now` what the first did on contents that came before it. */
  ghost predicate Agreeing(b: BranchState, c: BranchState, now: Values) {
    && b.(buffer := c.buffer, readLog := c.readLog) == c
    && AgreeingBuffer(b.buffer, c.buffer, now)
    && |b.readLog| == |c.readLog|
    && (forall i :: 0 <= i < |b.readLog| ==> AgreeingRead(b.readLog[i], c.readLog[i], now))
  }

  lemma WriteAgrees(b: BranchState, c: BranchState, op: BranchOp, m: Values, now: Values)
    requires Agreeing(b, c, now) && Consistent(b.buffer) && Consistent(c.buffer) && op.Write?
    requires Fetches(b, op) ==> Newer(Lookup(m, op.objectId), Lookup(now, op.objectId))
    ensures Agreeing(Performed(b, op, m), Performed(c, op, now), now)
  {
    var e := EntryAfter(StartingEntry(b, op.objectId, op.objectType, m), op.objectType, op.intent);
    var f := EntryAfter(StartingEntry(c, op.objectId, op.objectType, now), op.objectType, op.intent);
    assert AgreeingEntry(e, f, now);
    UpsertAgrees(b.buffer, c.buffer, e, f, now);
  }

  lemma UpsertAgrees(b: Buffer, c: Buffer, e: CacheEntry, f: CacheEntry, now: Values)
    requires AgreeingBuffer(b, c, now) && AgreeingEntry(e, f, now)
    ensures AgreeingBuffer(Upserted(b, e), Upserted(c, f), now)
  {
  }

  lemma UndoAgrees(b: Buffer, c: Buffer, now: Values)
    requires AgreeingBuffer(b, c, now) && b.changes != []
    ensures AgreeingBuffer(UndoChange(b), UndoChange(c), now)
  {
    assert AgreeingChange(b.changes[|b.changes| - 1], c.changes[|c.changes| - 1], now);
  }

  lemma {:induction false} TruncateAgrees(b: Buffer, c: Buffer, size: nat, now: Values)
    requires AgreeingBuffer(b, c, now)
    ensures AgreeingBuffer(Truncated(b, size), Truncated(c, size), now)
    decreases |b.changes|
  {
    if size < |b.changes| {
      UndoAgrees(b, c, now);
      TruncateAgrees(UndoChange(b), UndoChange(c), size, now);
    }
  }

  lemma StepAgrees(b: BranchState, c: BranchState, op: BranchOp, m: Values, now: Values)
    requires Agreeing(b, c, now) && Consistent(b.buffer) && Consistent(c.buffer)
    requires Fetches(b, op) ==> Newer(Lookup(m, op.objectId), Lookup(now, op.objectId))
    ensures Agreeing(Performed(b, op, m), Performed(c, op, now), now)
  {
    match op
    case Write(_, _, _) => WriteAgrees(b, c, op, m, now);
    case RollbackTo(id) =>
      var i := FindSavepoint(b.savepoints, id);
      if i < |b.savepoints| {
        TruncateAgrees(b.buffer, c.buffer, b.savepoints[i].writeLogPosition, now);
      }
    case _ =>
  }

  lemma RunsAreOrderly(x: Execution, i: nat)
    requires x.Valid() && i <= |x.ops|
    ensures Orderly(x.At(i).buffer) && Orderly(x.Again(i).buffer)
  {
    assert WellFormed(EMPTY);
    RunKeepsOrderly(NewBranch(x.branchId), x.ops, x.Views(), i);
    RunKeepsOrderly(NewBranch(x.branchId), x.ops, seq(|x.ops|, _ => x.Now()), i);
  }

  ghost predicate AgreesAt(x: Execution, i: nat)
    requires x.Valid() && i <= |x.ops|
  {
    Agreeing(x.At(i), x.Again(i), x.Now())
  }

  /** Operation by operation, the second run agrees with the first, rollbacks included. */
  lemma {:induction false} RunAgrees(x: Execution, i: nat)
    requires x.Valid() && KeepsFetched(x) && i <= |x.ops|
    ensures AgreesAt(x, i)
  {
    if i == 0 {
      StartAgrees(x);
    } else {
      RunAgrees(x, i - 1);
      OperationAgrees(x, i - 1);
    }
  }

  lemma StartAgrees(x: Execution)
    requires x.Valid()
    ensures AgreesAt(x, 0)
  {
  }

  lemma OperationAgrees(x: Execution, i: nat)
    requires x.Valid() && KeepsFetched(x) && i < |x.ops| && AgreesAt(x, i)
    ensures AgreesAt(x, i + 1)
  {
    RunsAreOrderly(x, i);
    if Fetches(x.At(i), x.ops[i]) {
      FetchIsNewer(x, i);
    }
    StepAgrees(x.At(i), x.Again(i), x.ops[i], x.Views()[i], x.Now());
  }

  /** The second run answers every read at the version that `Now` holds, and the first one at no later
      version; if it is the same version, it is the same answer. */
  lemma AnswersAgree(x: Execution, i: nat)
    requires x.Valid() && KeepsFetched(x) && i < |x.ops| && x.ops[i].Read?
    ensures x.AnswerAgain(i).version == Lookup(x.Now(), x.ops[i].objectId).version
    ensures x.AnswerAt(i).version <= x.AnswerAgain(i).version
    ensures x.AnswerAt(i).version == x.AnswerAgain(i).version ==> SameAnswer(x.AnswerAt(i), x.AnswerAgain(i))
  {
    RunAgrees(x, i);
    RunsAreOrderly(x, i);
    if Fetches(x.At(i), x.ops[i]) {
      FetchIsNewer(x, i);
    } else {
      var id := x.ops[i].objectId;
      assert AgreeingEntry(x.At(i).buffer.entries[id], x.Again(i).buffer.entries[id], x.Now());
    }
  }

  // ---- What the checks of a plan cover ----

  /** Everything still on record is at the version recorded. */
  ghost predicate Grounded(b: BranchState, now: Values) {
    && (forall r <- b.readLog :: Lookup(now, r.objectId).version == r.observedVersion)
    && (forall id <- b.buffer.entries :: Lookup(now, id).version == b.buffer.entries[id].baseVersion)
  }

  /** The branch still holds a record that it saw this version of the object. */
  predicate OnRecord(b: BranchState, id: string, version: nat) {
    || ReadRecord(id, version) in b.readLog
    || (id in b.buffer.entries && b.buffer.entries[id].baseVersion == version)
  }

  /** The branch holds no record of the object at all. */
  predicate Forgotten(b: BranchState, id: string) {
    id !in b.buffer.entries && forall r <- b.readLog :: r.objectId != id
  }

  lemma BufferedIsChecked(b: BranchState, seen: seq<VersionedValue>, id: string)
    requires Consistent(b.buffer) && AllOverwrite(b) && |seen| == |b.buffer.order| && id in b.buffer.entries
    requires PlanCommit(b, seen).Planned? && CollectReads(b.readLog, map[]).Planned?
    requires PlanMeans(
      InOrder(b.buffer), b.intents, seen, CollectReads(b.readLog, map[]).checks, [], PlanCommit(b, seen))
    ensures var plan, collected := PlanCommit(b, seen), CollectReads(b.readLog, map[]).checks;
      && id in plan.checks && plan.checks[id] == b.buffer.entries[id].baseVersion
      && (id in collected ==> collected[id] == b.buffer.entries[id].baseVersion)
  {
    var i := OrderedEntry(b.buffer, id);
    assert PlannedAt(
      InOrder(b.buffer)[i], b.intents, seen[i], CollectReads(b.readLog, map[]).checks, PlanCommit(b, seen));
  }

  /** Passing the checks of the plan grounds the branch, whenever the plan was made. */
  lemma CurrentPlanIsGrounded(b: BranchState, seen: seq<VersionedValue>, now: Values)
    requires Consistent(b.buffer) && AllOverwrite(b) && |seen| == |b.buffer.order|
    requires PlanCommit(b, seen).Planned? && AllCurrent(now, PlanCommit(b, seen).checks)
    ensures Grounded(b, now)
  {
    var plan, collected := PlanCommit(b, seen), CollectReads(b.readLog, map[]).checks;
    PlanCommitMeaning(b, seen);
    CollectReadsMeaning(b.readLog, map[]);
    forall id <- b.buffer.entries
      ensures id in plan.checks && plan.checks[id] == b.buffer.entries[id].baseVersion
      ensures id in collected ==> collected[id] == b.buffer.entries[id].baseVersion
    {
      BufferedIsChecked(b, seen, id);
    }
    forall r <- b.readLog
      ensures Lookup(now, r.objectId).version == r.observedVersion
    {
      if r.objectId !in b.buffer.entries {
        NotBuffered(b.buffer, r.objectId);
        assert SameCheck(r.objectId, collected, plan.checks);
      }
    }
  }

  /** The plan does not check an object that the branch holds no record of. */
  lemma ForgottenIsUnchecked(b: BranchState, seen: seq<VersionedValue>, id: string)
    requires Consistent(b.buffer) && |seen| == |b.buffer.order| && PlanCommit(b, seen).Planned?
    requires Forgotten(b, id)
    ensures id !in PlanCommit(b, seen).checks
  {
    PlanCommitMeaning(b, seen);
    CollectReadsMeaning(b.readLog, map[]);
    NotBuffered(b.buffer, id);
  }

  // ---- The end state ----

  predicate SameChange(c: Change, d: Change) {
    && c.objectId == d.objectId
    && c.previous.Some? == d.previous.Some?
    && (c.previous.Some? ==> SameEntry(c.previous.value, d.previous.value))
  }

  ghost predicate SameBuffer(b: Buffer, c: Buffer) {
    && b.order == c.order
    && b.entries.Keys == c.entries.Keys && (forall id <- b.entries :: SameEntry(b.entries[id], c.entries[id]))
    && |b.changes| == |c.changes| && (forall i :: 0 <= i < |b.changes| ==> SameChange(b.changes[i], c.changes[i]))
  }

  /** Equal in everything, up to the existence flags of absent objects. */
  ghost predicate SameBranch(b: BranchState, c: BranchState) {
    b.(buffer := c.buffer) == c && SameBuffer(b.buffer, c.buffer)
  }

  lemma GroundedIsSame(b: BranchState, c: BranchState, now: Values)
    requires Agreeing(b, c, now) && Grounded(b, now) && Orderly(b.buffer) && Orderly(c.buffer)
    ensures SameBranch(b, c)
  {
    forall i | 0 <= i < |b.readLog|
      ensures b.readLog[i] == c.readLog[i]
    {
      assert b.readLog[i] in b.readLog && AgreeingRead(b.readLog[i], c.readLog[i], now);
    }
    assert b.readLog == c.readLog;
    forall id <- b.buffer.entries
      ensures SameEntry(b.buffer.entries[id], c.buffer.entries[id])
    {
      assert AgreeingEntry(b.buffer.entries[id], c.buffer.entries[id], now);
    }
    forall i | 0 <= i < |b.buffer.changes|
      ensures SameChange(b.buffer.changes[i], c.buffer.changes[i])
    {
      assert BaseKeptAt(b.buffer, b.buffer.changes[i]) && AgreeingChange(b.buffer.changes[i], c.buffer.changes[i], now);
    }
  }

  lemma {:induction false} SameEntriesSamePlan(
      entries: seq<CacheEntry>, entries': seq<CacheEntry>, intents: seq<WriteIntent>,
      seen: seq<VersionedValue>, seen': seq<VersionedValue>, checks: map<string, nat>, writes: seq<WriteOp>)
    requires |entries| == |entries'| == |seen| == |seen'|
    requires forall i :: 0 <= i < |entries| ==> SameEntry(entries[i], entries'[i])
    requires forall e <- entries :: Latest(intents, e.objectId).Some? ==>
      Latest(intents, e.objectId).value.intentType.Overwrite?
    ensures PlanEntries(entries, intents, seen, checks, writes) == PlanEntries(entries', intents, seen', checks, writes)
    decreases entries
  {
    if entries != [] {
      var e := entries[0];
      assert e in entries && forall x <- entries[1..] :: x in entries;
      SameEntriesSamePlan(entries[1..], entries'[1..], intents, seen[1..], seen'[1..],
                          checks[e.objectId := e.baseVersion], writes + [WriteOp(e.objectId, e.currentValue)]);
    }
  }

  lemma SameBranchSamePlan(b: BranchState, c: BranchState, seen: seq<VersionedValue>, seen': seq<VersionedValue>)
    requires Consistent(b.buffer) && Consistent(c.buffer) && SameBranch(b, c) && AllOverwrite(b)
    requires |seen| == |seen'| == |b.buffer.order|
    ensures PlanCommit(b, seen) == PlanCommit(c, seen')
  {
    match CollectReads(b.readLog, map[])
    case Refused(_) =>
    case Planned(checks, _) =>
      EntriesOverwrite(b);
      EveryOrderedIsBuffered(b.buffer);
      SameEntriesSamePlan(InOrder(b.buffer), InOrder(c.buffer), b.intents, seen, seen', checks, []);
  }

  lemma EntriesOverwrite(b: BranchState)
    requires Consistent(b.buffer) && AllOverwrite(b)
    ensures forall e <- InOrder(b.buffer) :: Latest(b.intents, e.objectId).Some? ==>
      Latest(b.intents, e.objectId).value.intentType.Overwrite?
  {
    EveryOrderedIsBuffered(b.buffer);
  }

  // ---- The theorems ----

  /** The branch is planned at some time, with `seen` as what the store showed, and its batch succeeds at
      the end of the history. */
  ghost predicate Succeeds(x: Execution, seen: seq<VersionedValue>)
    requires x.Valid()
  {
    var b := x.End();
    && Consistent(b.buffer) && |seen| == |b.buffer.order| && PlanCommit(b, seen).Planned?
    && BatchCommit(x.Now(), PlanCommit(b, seen).checks, PlanCommit(b, seen).writes).ok
  }

  ghost predicate Commits(x: Execution, seen: seq<VersionedValue>)
    requires x.Valid()
  {
    Succeeds(x, seen) && AllOverwrite(x.End())
  }

  /** The end state is serializable without further ado: run any program, rollbacks included, interleaved
      with others who do anything but remove an object it has fetched. If the batch succeeds, running the
      program again, all of it on the store of that instant, ends with the same records, buffer, logs and
      savepoints, and makes the same plan. */
  lemma EndStateSerializability(x: Execution, seen: seq<VersionedValue>)
    requires x.Valid() && KeepsFetched(x) && Commits(x, seen)
    ensures SameBranch(x.End(), x.Again(|x.ops|)) && Consistent(x.Again(|x.ops|).buffer)
    ensures PlanCommit(x.Again(|x.ops|), ViewsOf(InOrder(x.Again(|x.ops|).buffer), x.Now()))
      == PlanCommit(x.End(), seen)
  {
    var c := x.Again(|x.ops|);
    RunAgrees(x, |x.ops|);
    RunsAreOrderly(x, |x.ops|);
    CurrentPlanIsGrounded(x.End(), seen, x.Now());
    GroundedIsSame(x.End(), c, x.Now());
    SameBranchSamePlan(x.End(), c, seen, ViewsOf(InOrder(c.buffer), x.Now()));
  }

  /** Every version a read was answered with is still on record when the program ends. */
  ghost predicate ReadsOnRecord(x: Execution)
    requires x.Valid()
  {
    forall i :: 0 <= i < |x.ops| && x.ops[i].Read? ==> OnRecord(x.End(), x.ops[i].objectId, x.AnswerAt(i).version)
  }

  ghost predicate SameAnswers(x: Execution)
    requires x.Valid()
  {
    forall i :: 0 <= i < |x.ops| && x.ops[i].Read? ==> SameAnswer(x.AnswerAt(i), x.AnswerAgain(i))
  }

  /** Strict serializability, answers included, when every answered version is still on record. */
  lemma StrictSerializability(x: Execution, seen: seq<VersionedValue>)
    requires x.Valid() && KeepsFetched(x) && Commits(x, seen) && ReadsOnRecord(x)
    ensures SameBranch(x.End(), x.Again(|x.ops|)) && SameAnswers(x)
  {
    EndStateSerializability(x, seen);
    CurrentPlanIsGrounded(x.End(), seen, x.Now());
    forall i | 0 <= i < |x.ops| && x.ops[i].Read?
      ensures SameAnswer(x.AnswerAt(i), x.AnswerAgain(i))
    {
      AnswersAgree(x, i);
    }
  }

  /** A program without rollbacks keeps every answered version on record. */
  lemma RollbackFreeIsOnRecord(x: Execution)
    requires x.Valid() && forall op <- x.ops :: !op.RollbackTo?
    ensures ReadsOnRecord(x)
  {
    forall i | 0 <= i < |x.ops| && x.ops[i].Read?
      ensures OnRecord(x.End(), x.ops[i].objectId, x.AnswerAt(i).version)
    {
      var next := i + 1;
      if Fetches(x.At(i), x.ops[i]) {
        var log := x.At(next).readLog;
        assert log[|log| - 1] == ReadRecord(x.ops[i].objectId, x.AnswerAt(i).version);
      }
      RecordsStay(x, x.ops[i].objectId, x.AnswerAt(i).version, next, |x.ops|);
    }
  }

  lemma {:induction false} RecordsStay(x: Execution, id: string, version: nat, i: nat, n: nat)
    requires x.Valid() && (forall op <- x.ops :: !op.RollbackTo?) && i <= n <= |x.ops|
    requires OnRecord(x.At(i), id, version)
    ensures OnRecord(x.At(n), id, version)
    decreases n
  {
    if i < n {
      RecordsStay(x, id, version, i, n - 1);
      OperationKeepsRecord(x, id, version, n - 1);
    }
  }

  lemma OperationKeepsRecord(x: Execution, id: string, version: nat, i: nat)
    requires x.Valid() && (forall op <- x.ops :: !op.RollbackTo?) && i < |x.ops| && OnRecord(x.At(i), id, version)
    ensures OnRecord(x.At(i + 1), id, version)
  {
    RunsAreOrderly(x, i);
    assert x.ops[i] in x.ops;
    StepKeepsRecord(x.At(i), x.ops[i], x.Views()[i], id, version);
  }

  lemma StepKeepsRecord(b: BranchState, op: BranchOp, m: Values, id: string, version: nat)
    requires Consistent(b.buffer) && OnRecord(b, id, version) && !op.RollbackTo?
    ensures OnRecord(Performed(b, op, m), id, version)
  {
    if op.Write? {
      assert StartingEntry(b, op.objectId, op.objectType, m).objectId == op.objectId;
    }
  }

  // ---- When the answers are part of it ----

  /** The history goes on with `puts`. */
  function Later(x: Execution, puts: seq<StoreOp>): Execution {
    x.(history := x.history + puts)
  }

  predicate OnlyPuts(puts: seq<StoreOp>) {
    forall op <- puts :: op.PutOp?
  }

  /** The first run is the same whatever happens later. */
  lemma LaterIsSameRun(x: Execution, puts: seq<StoreOp>)
    requires x.Valid()
    ensures Later(x, puts).Valid() && Later(x, puts).Views() == x.Views()
  {
    forall i | 0 <= i < |x.ops|
      ensures After(x.m, x.history + puts, x.times[i]) == After(x.m, x.history, x.times[i])
    {
      AfterPrefix(x.m, x.history, puts, x.times[i]);
    }
  }

  lemma LaterKeepsFetched(x: Execution, puts: seq<StoreOp>)
    requires x.Valid() && KeepsFetched(x) && OnlyPuts(puts)
    ensures Later(x, puts).Valid() && KeepsFetched(Later(x, puts))
  {
    var y := Later(x, puts);
    LaterIsSameRun(x, puts);
    forall i | 0 <= i < |x.ops|
      ensures KeepsFetchedAt(y, i)
    {
      assert KeepsFetchedAt(x, i);
      if Fetches(x.At(i), x.ops[i]) {
        PutsKeep(x.m, x.history, puts, x.times[i], x.ops[i].objectId);
      }
    }
  }

  lemma PutsKeep(m: Values, history: seq<StoreOp>, puts: seq<StoreOp>, t0: nat, key: string)
    requires t0 <= |history| && Kept(m, history, t0, |history|, key) && OnlyPuts(puts)
    ensures Kept(m, history + puts, t0, |history + puts|, key)
  {
    forall t | t0 <= t < |history + puts|
      ensures !Erases(After(m, history + puts, t), (history + puts)[t], key)
    {
      if t < |history| {
        AfterPrefix(m, history, puts, t);
        assert !Erases(After(m, history, t), history[t], key);
      } else {
        assert (history + puts)[t] == puts[t - |history|] && puts[t - |history|] in puts;
      }
    }
  }

  /** If the batch succeeds after the history and `puts`, every read would be answered there as it was. */
  ghost predicate Serializes(x: Execution, seen: seq<VersionedValue>, puts: seq<StoreOp>)
    requires x.Valid()
  {
    Later(x, puts).Valid() && (Commits(Later(x, puts), seen) ==> SameAnswers(Later(x, puts)))
  }

  /** A read whose answered version is not on record breaks it: by itself if the object is on record at
      another version, and after one more put of the object if it is not on record at all. */
  lemma LostReadBreaks(x: Execution, seen: seq<VersionedValue>, i: nat) returns (puts: seq<StoreOp>)
    requires x.Valid() && KeepsFetched(x) && Commits(x, seen) && i < |x.ops| && x.ops[i].Read?
    requires !OnRecord(x.End(), x.ops[i].objectId, x.AnswerAt(i).version)
    ensures OnlyPuts(puts) && !Serializes(x, seen, puts)
    ensures puts == if Forgotten(x.End(), x.ops[i].objectId) then [PutOp(x.ops[i].objectId, "")] else []
  {
    if Forgotten(x.End(), x.ops[i].objectId) {
      puts := [PutOp(x.ops[i].objectId, "")];
      ForgottenReadBreaks(x, seen, i);
    } else {
      puts := [];
      assert x.history + [] == x.history && Later(x, puts) == x;
      AnswersAgree(x, i);
      CurrentPlanIsGrounded(x.End(), seen, x.Now());
    }
  }

  lemma ForgottenReadBreaks(x: Execution, seen: seq<VersionedValue>, i: nat)
    requires x.Valid() && KeepsFetched(x) && Commits(x, seen) && i < |x.ops| && x.ops[i].Read?
    requires Forgotten(x.End(), x.ops[i].objectId)
    ensures !Serializes(x, seen, [PutOp(x.ops[i].objectId, "")])
  {
    var id := x.ops[i].objectId;
    var y := Later(x, [PutOp(id, "")]);
    LaterIsSameRun(x, [PutOp(id, "")]);
    LaterKeepsFetched(x, [PutOp(id, "")]);
    PutMovesOn(x, id, "");
    AnswersAgree(x, i);
    AnswersAgree(y, i);
    ForgottenPutCommits(x, seen, id);
  }

  lemma ForgottenPutCommits(x: Execution, seen: seq<VersionedValue>, id: string)
    requires x.Valid() && Commits(x, seen) && Forgotten(x.End(), id)
    ensures Later(x, [PutOp(id, "")]).Valid() && Commits(Later(x, [PutOp(id, "")]), seen)
  {
    LaterIsSameRun(x, [PutOp(id, "")]);
    PutMovesOn(x, id, "");
    ForgottenIsUnchecked(x.End(), seen, id);
  }

  lemma PutMovesOn(x: Execution, id: string, value: string)
    ensures Later(x, [PutOp(id, value)]).Now() == Written(x.Now(), id, value)
  {
    var y := Later(x, [PutOp(id, value)]);
    AfterPrefix(x.m, x.history, [PutOp(id, value)], |x.history|);
    assert y.Now() == Apply(After(y.m, y.history, |x.history|), y.history[|x.history|]);
  }

  /** Exactly then. For an execution whose batch succeeds: the answers of its reads are serializable now
      and after any further puts for which the same batch would still succeed, if and only if every
      version a read was answered with is still on record at the end. */
  lemma SerializableExactly(x: Execution, seen: seq<VersionedValue>)
    requires x.Valid() && KeepsFetched(x) && Commits(x, seen)
    ensures ReadsOnRecord(x) <==> forall puts :: OnlyPuts(puts) ==> Serializes(x, seen, puts)
  {
    if ReadsOnRecord(x) {
      forall puts | OnlyPuts(puts)
        ensures Serializes(x, seen, puts)
      {
        LaterIsSameRun(x, puts);
        LaterKeepsFetched(x, puts);
        if Commits(Later(x, puts), seen) {
          assert ReadsOnRecord(Later(x, puts)) by {
            assert forall i :: 0 <= i < |x.ops| && x.ops[i].Read? ==> Later(x, puts).AnswerAt(i) == x.AnswerAt(i);
          }
          StrictSerializability(Later(x, puts), seen);
        }
      }
    } else {
      var i :| 0 <= i < |x.ops| && x.ops[i].Read? && !OnRecord(x.End(), x.ops[i].objectId, x.AnswerAt(i).version);
      var puts := LostReadBreaks(x, seen, i);
    }
  }

  // ---- Why fetched objects must not be removed ----

  lemma AgainCopiesNow(x: Execution, id: string)
    requires x.Valid() && id in x.Again(|x.ops|).buffer.entries
    ensures x.Again(|x.ops|).buffer.entries[id].baseValue == Lookup(x.Now(), id).value
  {
    var views := seq(|x.ops|, _ => x.Now());
    RunsAreOrderly(x, |x.ops|);
    BasesComeFromViews(NewBranch(x.branchId), x.ops, views, |x.ops|);
    var i :| 0 <= i < |views| && CopiedFrom(x.Again(|x.ops|).buffer.entries[id], views[i]);
  }

  lemma ReplacedLater(x: Execution, id: string, value: string)
    requires id in x.Now() && x.Now()[id].version > 0
    ensures var y := Later(x, Replaced(id, x.Now()[id].version, value));
      && Lookup(y.Now(), id) == VersionedValue(value, x.Now()[id].version, true)
      && forall key :: key != id ==> Lookup(y.Now(), key) == Lookup(x.Now(), key)
  {
    var v := x.Now()[id].version;
    AfterMore(x.m, x.history, Replaced(id, v, value), v + 1);
    DeleteUnpinsValue(x.Now(), id, value);
    forall key | key != id
      ensures Lookup(After(x.Now(), Replaced(id, v, value), v + 1), key) == Lookup(x.Now(), key)
    {
      ReplacedAlone(x.Now(), id, v, value, key, v + 1);
    }
  }

  /** In every execution that commits, whatever object it has buffered: if others remove the object before
      the batch and put it as often as it had versions, with any other value, the same batch still succeeds,
      but the program run again at that instant ends differently. */
  lemma RemovalBreaksEndState(x: Execution, seen: seq<VersionedValue>, id: string, value: string)
    requires x.Valid() && KeepsFetched(x) && Commits(x, seen)
    requires id in x.End().buffer.entries && id in x.Now() && x.Now()[id].version > 0 && value != x.Now()[id].value
    ensures var y := Later(x, Replaced(id, x.Now()[id].version, value));
      y.Valid() && Commits(y, seen) && !SameBranch(y.End(), y.Again(|y.ops|))
  {
    var y := Later(x, Replaced(id, x.Now()[id].version, value));
    ReplacedCommits(x, seen, id, value);
    EndStateSerializability(x, seen);
    AgainCopiesNow(x, id);
    if SameBranch(y.End(), y.Again(|y.ops|)) {
      ReplacedLater(x, id, value);
      AgainCopiesNow(y, id);
    }
  }

  /** Every version is as it was, so the batch notices nothing. */
  lemma ReplacedCommits(x: Execution, seen: seq<VersionedValue>, id: string, value: string)
    requires x.Valid() && Commits(x, seen) && id in x.Now() && x.Now()[id].version > 0
    ensures var y := Later(x, Replaced(id, x.Now()[id].version, value));
      y.Valid() && y.End() == x.End() && Commits(y, seen)
  {
    LaterIsSameRun(x, Replaced(id, x.Now()[id].version, value));
    ReplacedLater(x, id, value);
  }

  // ---- A read that gets lost ----

  function LosingProgram(id: string): seq<BranchOp> {
    [CreateSavepoint("s"), Write(id, Generic, WriteIntent(id, Append, "a", NO_CONDITION)), Read(id), RollbackTo("s")]
  }

  function LosingExecution(id: string): Execution {
    Execution("", LosingProgram(id), [0, 0, 0, 0], map[id := Entry("old", 1)], [PutOp(id, "new")])
  }

  /** It does occur: a read answered from a write that is rolled back later leaves no record, so the commit
      goes through although that read would now answer differently. */
  lemma RolledBackWriteHidesRead(id: string)
    ensures var x := LosingExecution(id);
      && x.Valid() && Commits(x, [])
      && x.AnswerAt(2) == VersionedValue("olda", 1, true) && x.AnswerAgain(2) == VersionedValue("newa", 2, true)
  {
    LosingAnswers(id);
    LosingAnswersAgain(id);
    RolledBackToStart(id, map[id := Entry("old", 1)]);
    NothingToCommit(LosingExecution(id).End(), LosingExecution(id).Now());
  }

  lemma LosingAnswers(id: string)
    ensures var x := LosingExecution(id);
      && x.Valid() && x.End() == Run(NewBranch(""), LosingProgram(id), [x.m, x.m, x.m, x.m], 4)
      && x.AnswerAt(2) == VersionedValue("olda", 1, true)
  {
    var x := LosingExecution(id);
    assert x.Views() == [x.m, x.m, x.m, x.m];
    ReadsAfterAppend(id, x.m);
  }

  lemma LosingAnswersAgain(id: string)
    ensures LosingExecution(id).AnswerAgain(2) == VersionedValue("newa", 2, true)
  {
    var x, now := LosingExecution(id), map[id := Entry("new", 2)];
    assert x.Now() == Apply(After(x.m, x.history, 0), x.history[0]) == now;
    assert seq(|x.ops|, _ => now) == [now, now, now, now];
    ReadsAfterAppend(id, now);
  }

  lemma NothingToCommit(b: BranchState, now: Values)
    requires b.buffer == EMPTY && b.readLog == []
    ensures Consistent(b.buffer) && AllOverwrite(b)
    ensures PlanCommit(b, []) == Planned(map[], []) && BatchCommit(now, map[], []).ok
  {
  }

  lemma RolledBackToStart(id: string, m: Values)
    requires id in m
    ensures Run(NewBranch(""), LosingProgram(id), [m, m, m, m], 4)
         == NewBranch("").(status := BranchStatus.Running, savepoints := [Savepoint("s", 0, 0)])
  {
    LosingRunEnds(id, m);
    assert AfterSavepoint(NewBranch(""), "s").savepoints == [Savepoint("s", 0, 0)];
    WriteRolledBack(AfterSavepoint(NewBranch(""), "s"), WriteIntent(id, Append, "a", NO_CONDITION), m);
  }

  lemma LosingRunEnds(id: string, m: Values)
    requires id in m
    ensures Run(NewBranch(""), LosingProgram(id), [m, m, m, m], 4) == AfterRollback(
      AfterWrite(AfterSavepoint(NewBranch(""), "s"), id, Generic, WriteIntent(id, Append, "a", NO_CONDITION), m), "s")
  {
    var ops, views := LosingProgram(id), [m, m, m, m];
    ReadsAfterAppend(id, m);
    assert Run(NewBranch(""), ops, views, 4) == Performed(Run(NewBranch(""), ops, views, 3), ops[3], views[3]);
  }

  lemma WriteRolledBack(b: BranchState, intent: WriteIntent, m: Values)
    requires b.buffer == EMPTY && b.intents == [] && b.savepoints == [Savepoint("s", 0, 0)]
    ensures AfterRollback(AfterWrite(b, intent.objectId, Generic, intent, m), "s") == b.(status := BranchStatus.Running)
  {
    var after := AfterWrite(b, intent.objectId, Generic, intent, m);
    UndoUpsert(EMPTY, EntryAfter(StartingEntry(b, intent.objectId, Generic, m), Generic, intent));
    assert FindSavepoint(after.savepoints, "s") == 0 && after.savepoints[..1] == after.savepoints;
    assert Truncated(after.buffer, 0) == Truncated(EMPTY, 0) == EMPTY;
  }

  lemma ReadsAfterAppend(id: string, m: Values)
    requires id in m
    ensures var intent := WriteIntent(id, Append, "a", NO_CONDITION);
      var marked, second := AfterSavepoint(NewBranch(""), "s"), Run(NewBranch(""), LosingProgram(id), [m, m, m, m], 2);
      && second == AfterWrite(marked, id, Generic, intent, m)
      && Run(NewBranch(""), LosingProgram(id), [m, m, m, m], 3) == second
      && ReadAnswer(second, id, m) == VersionedValue(m[id].value + "a", m[id].version, true)
  {
    var ops, views := LosingProgram(id), [m, m, m, m];
    var first := Run(NewBranch(""), ops, views, 1);
    assert first == Performed(Run(NewBranch(""), ops, views, 0), ops[0], views[0]);
    var second := Run(NewBranch(""), ops, views, 2);
    assert second == Performed(first, ops[1], views[1]);
    assert Run(NewBranch(""), ops, views, 3) == Performed(second, ops[2], views[2]);
  }
}
