/** What a branch answers, in which order it writes, and what is left of it when it is discarded. */
module BranchContents {
  import opened KvStore
  import opened Intents
  import opened WriteBuffers
  import opened Branches
  import opened BranchFold
  import opened CommitPlan

  // ---- Reads ----

  /** The answer for a written object: its surviving intents applied to what the store held when the branch
      took it over, which comes to the last payload after an overwrite or a compare-and-swap, at that version; it
      exists if it did then, or is not empty now. */
  ghost predicate OwnAnswer(answer: VersionedValue, base: VersionedValue, intents: seq<WriteIntent>, id: string) {
    && answer.value == Fold(base.value, intents, id)
    && Latest(intents, id).Some? && LeavesValue(Latest(intents, id).value, base.value, answer.value)
    && answer.version == base.version
    && answer.present == (base.present || answer.value != "")
  }

  /** A branch reads its own writes. Any other read is answered by the store, and only such a read is recorded. */
  lemma ReadsOwnWrites(
      branchId: string, ops: seq<BranchOp>, views: seq<Values>, n: nat, id: string, m: Values)
    requires n <= |ops| == |views| && forall op <- ops :: Named(op)
    ensures var b := Run(NewBranch(branchId), ops, views, n);
      var answer, records := ReadAnswer(b, id, m), AfterRead(b, id, m).readLog;
      if Mentions(b.intents, id) then
        records == b.readLog && exists i :: 0 <= i < |views| && OwnAnswer(answer, Lookup(views[i], id), b.intents, id)
      else
        answer == Lookup(m, id) && records == b.readLog + [ReadRecord(id, Lookup(m, id).version)]
  {
    var b := Run(NewBranch(branchId), ops, views, n);
    NewBranchInv(branchId);
    BufferIsFold(NewBranch(branchId), ops, views, n);
    BasesComeFromViews(NewBranch(branchId), ops, views, n);
    if id in b.buffer.entries {
      var e := b.buffer.entries[id];
      assert FoldedAt(e, b.intents, id) && e.objectId == id;
      var i :| 0 <= i < |views| && CopiedFrom(e, views[i]);
      FoldOfReplaced(e.baseValue, b.intents, id);
      assert OwnAnswer(ReadAnswer(b, id, m), Lookup(views[i], id), b.intents, id);
    }
  }

  // ---- Entries ----

  /** The operation wrote the object and left the entry with its type and kind. */
  predicate LeftBy(op: BranchOp, e: CacheEntry) {
    && op.Write? && op.objectId == e.objectId && op.objectType == e.objectType
    && op.intent.intentType == e.intentType && (e.dirty <==> !op.intent.intentType.ReadIntent?)
  }

  ghost predicate LeftByOne(e: CacheEntry, ops: seq<BranchOp>) {
    exists op <- ops :: LeftBy(op, e)
  }

  lemma WriteLeaves(b: BranchState, op: BranchOp, ops: seq<BranchOp>, m: Values)
    requires Throughout(b.buffer, e => LeftByOne(e, ops)) && Consistent(b.buffer) && op in ops && op.Write?
    ensures Throughout(Performed(b, op, m).buffer, e => LeftByOne(e, ops))
  {
    var e := EntryAfter(StartingEntry(b, op.objectId, op.objectType, m), op.objectType, op.intent);
    assert LeftBy(op, e);
    UpsertKeepsThroughout(b.buffer, e, x => LeftByOne(x, ops));
  }

  lemma StepLeaves(b: BranchState, op: BranchOp, ops: seq<BranchOp>, m: Values)
    requires Throughout(b.buffer, e => LeftByOne(e, ops)) && Consistent(b.buffer) && op in ops
    ensures Throughout(Performed(b, op, m).buffer, e => LeftByOne(e, ops))
  {
    match op
    case Write(_, _, _) => WriteLeaves(b, op, ops, m);
    case RollbackTo(id) =>
      var i := FindSavepoint(b.savepoints, id);
      if i < |b.savepoints| {
        TruncateKeepsThroughout(b.buffer, b.savepoints[i].writeLogPosition, e => LeftByOne(e, ops));
      }
    case _ =>
  }

  /** Every entry a branch buffers, or could bring back by undoing, has the type and the kind of a write of its
      object, and is dirty unless that was a read intent. */
  lemma {:induction false} EntriesAreWritten(branchId: string, ops: seq<BranchOp>, views: seq<Values>, n: nat)
    requires n <= |ops| == |views| && forall op <- ops :: Named(op)
    ensures Throughout(Run(NewBranch(branchId), ops, views, n).buffer, e => LeftByOne(e, ops))
  {
    if n > 0 {
      EntriesAreWritten(branchId, ops, views, n - 1);
      NewBranchInv(branchId);
      BufferIsFold(NewBranch(branchId), ops, views, n - 1);
      StepLeaves(Run(NewBranch(branchId), ops, views, n - 1), ops[n - 1], ops, views[n - 1]);
    }
  }

  // ---- The order of writes ----

  /** The objects of the intents, in the order of their first ones. */
  function FirstIds(intents: seq<WriteIntent>): seq<string> {
    if intents == [] then []
    else
      var init, id := intents[..|intents| - 1], intents[|intents| - 1].objectId;
      FirstIds(init) + if Mentions(init, id) then [] else [id]
  }

  /** Now, and after undoing any number of writes. */
  ghost predicate Ordered(buffer: Buffer, intents: seq<WriteIntent>)
    decreases |intents|
  {
    && |buffer.changes| == |intents|
    && buffer.order == FirstIds(intents)
    && (intents != [] ==> Ordered(UndoChange(buffer), intents[..|intents| - 1]))
  }

  lemma WriteKeepsOrder(b: BranchState, id: string, ty: ObjectType, intent: WriteIntent, m: Values)
    requires BranchInv(b) && Ordered(b.buffer, b.intents) && intent.objectId == id
    ensures var end := AfterWrite(b, id, ty, intent, m); Ordered(end.buffer, end.intents)
  {
    var e, longer := EntryAfter(StartingEntry(b, id, ty, m), ty, intent), b.intents + [intent];
    UndoUpsert(b.buffer, e);
    assert longer[..|longer| - 1] == b.intents;
    assert id in b.buffer.entries <==> Mentions(b.intents, id);
  }

  lemma {:induction false} CutKeepsOrder(buffer: Buffer, intents: seq<WriteIntent>, size: nat)
    requires Ordered(buffer, intents)
    ensures Ordered(Truncated(buffer, size), CutIntents(intents, size))
    decreases |intents|
  {
    if size < |intents| {
      var init := intents[..|intents| - 1];
      CutKeepsOrder(UndoChange(buffer), init, size);
      assert CutIntents(init, size) == CutIntents(intents, size);
    }
  }

  lemma RollbackKeepsOrder(b: BranchState, savepointId: string)
    requires BranchInv(b) && Ordered(b.buffer, b.intents)
    ensures var end := AfterRollback(b, savepointId); Ordered(end.buffer, end.intents)
  {
    var i := FindSavepoint(b.savepoints, savepointId);
    if i < |b.savepoints| {
      assert b.savepoints[i] in b.savepoints;
      CutKeepsOrder(b.buffer, b.intents, b.savepoints[i].writeLogPosition);
    }
  }

  ghost predicate InFirstOrder(b: BranchState) {
    Ordered(b.buffer, b.intents)
  }

  lemma StepKeepsOrder(b: BranchState, op: BranchOp, m: Values)
    requires BranchInv(b) && InFirstOrder(b) && Named(op)
    ensures InFirstOrder(Performed(b, op, m))
  {
    match op
    case Write(id, ty, intent) => WriteKeepsOrder(b, id, ty, intent, m);
    case RollbackTo(id) => RollbackKeepsOrder(b, id);
    case Read(_) =>
    case CreateSavepoint(_) =>
    case Stage(_, _) =>
  }

  /** In every state a branch can reach its buffer lists the written objects in the order of their first
      surviving writes, rollbacks or not. */
  lemma {:induction false} BufferIsOrdered(branchId: string, ops: seq<BranchOp>, views: seq<Values>, n: nat)
    requires n <= |ops| == |views| && forall op <- ops :: Named(op)
    ensures var b := Run(NewBranch(branchId), ops, views, n); InFirstOrder(b) && b.buffer.order == FirstIds(b.intents)
  {
    if n > 0 {
      BufferIsOrdered(branchId, ops, views, n - 1);
      NewBranchInv(branchId);
      BufferIsFold(NewBranch(branchId), ops, views, n - 1);
      StepKeepsOrder(Run(NewBranch(branchId), ops, views, n - 1), ops[n - 1], views[n - 1]);
    }
  }

  function Keys(writes: seq<WriteOp>): seq<string> {
    seq(|writes|, i requires 0 <= i < |writes| => writes[i].key)
  }

  function Ids(entries: seq<CacheEntry>): seq<string> {
    seq(|entries|, i requires 0 <= i < |entries| => entries[i].objectId)
  }

  predicate Changes(intents: seq<WriteIntent>, id: string) {
    var latest := Latest(intents, id);
    latest.Some? && !latest.value.intentType.ReadIntent?
  }

  /** Those that do not end with a read intent. */
  function Changed(ids: seq<string>, intents: seq<WriteIntent>): seq<string>
    decreases ids
  {
    if ids == [] then []
    else (if Changes(intents, ids[0]) then [ids[0]] else []) + Changed(ids[1..], intents)
  }

  lemma {:induction false} PlannedKeys(
      entries: seq<CacheEntry>, intents: seq<WriteIntent>, views: seq<VersionedValue>,
      checks: map<string, nat>, writes: seq<WriteOp>)
    requires |views| == |entries| && PlanEntries(entries, intents, views, checks, writes).Planned?
    ensures Keys(PlanEntries(entries, intents, views, checks, writes).writes)
      == Keys(writes) + Changed(Ids(entries), intents)
    decreases entries
  {
    if entries != [] {
      var e := entries[0];
      assert Ids(entries)[1..] == Ids(entries[1..]);
      match Resolution(e, intents, views[0])
      case NoWrite => PlannedKeys(entries[1..], intents, views[1..], checks, writes);
      case Store(value) =>
        var longer := writes + [WriteOp(e.objectId, value)];
        assert Keys(longer) == Keys(writes) + [e.objectId];
        PlannedKeys(
          entries[1..], intents, views[1..], checks[e.objectId := ExpectedVersion(e, intents, views[0])], longer);
    }
  }

  /** A branch is committed in the order in which it first wrote its objects. */
  lemma WrittenInFirstOrder(b: BranchState, views: seq<VersionedValue>)
    requires BranchInv(b) && InFirstOrder(b) && |views| == |b.buffer.order| && PlanCommit(b, views).Planned?
    ensures Keys(PlanCommit(b, views).writes) == Changed(FirstIds(b.intents), b.intents)
  {
    EveryOrderedIsBuffered(b.buffer);
    assert Ids(InOrder(b.buffer)) == b.buffer.order;
    PlannedKeys(InOrder(b.buffer), b.intents, views, CollectReads(b.readLog, map[]).checks, []);
  }

  // ---- Discarding ----

  lemma {:induction false} NothingLeft(b: Buffer)
    requires WellFormed(b)
    ensures Truncated(b, 0) == EMPTY
    decreases |b.changes|
  {
    if b.changes != [] {
      NothingLeft(UndoChange(b));
    }
  }

  /** Discarding a branch leaves nothing of what it wrote: committing it would write nothing. Its name, score,
      summary and recorded reads stay. */
  lemma DiscardedIsEmpty(b: BranchState)
    requires WellFormed(b.buffer)
    ensures AfterDiscard(b) == BranchState(b.branchId, Discarded, b.readLog, EMPTY, [], b.score, b.summary, [])
    ensures PlanCommit(AfterDiscard(b), []).Planned? ==> PlanCommit(AfterDiscard(b), []).writes == []
  {
    NothingLeft(b.buffer);
  }
}
