/** What a branch buffer means: each buffered value is the surviving intents folded over its base. */
module BranchFold {
  import opened Wrappers
  import opened KvStore
  import opened Intents
  import opened WriteBuffers
  import opened Branches

  predicate Mentions(intents: seq<WriteIntent>, objectId: string) {
    exists intent <- intents :: intent.objectId == objectId
  }

  /** The intents of one object applied in order to its base value. */
  function Fold(base: string, intents: seq<WriteIntent>, objectId: string): string {
    if intents == [] then base
    else
      var last := intents[|intents| - 1];
      var before := Fold(base, intents[..|intents| - 1], objectId);
      if last.objectId == objectId then Applied(before, base, last) else before
  }

  /** The last intent of an object. */
  function Latest(intents: seq<WriteIntent>, objectId: string): (r: Option<WriteIntent>)
    ensures r.Some? <==> Mentions(intents, objectId)
    ensures r.Some? ==> r.value.objectId == objectId && r.value in intents
  {
    if intents == [] then None
    else
      var last := intents[|intents| - 1];
      assert forall intent <- intents :: intent == last || intent in intents[..|intents| - 1];
      if last.objectId == objectId then Some(last) else Latest(intents[..|intents| - 1], objectId)
  }

  /** The two logs run in step, and at every length of them each buffered value is the fold of its
      intents. */
  ghost predicate Folded(buffer: Buffer, intents: seq<WriteIntent>)
    decreases |intents|
  {
    && |buffer.changes| == |intents|
    && (forall id :: id in buffer.entries <==> Mentions(intents, id))
    && (forall id <- buffer.entries :: FoldedAt(buffer.entries[id], intents, id))
    && (intents != [] ==>
          && buffer.changes[|intents| - 1].objectId == intents[|intents| - 1].objectId
          && Folded(UndoChange(buffer), intents[..|intents| - 1]))
  }

  ghost predicate FoldedAt(e: CacheEntry, intents: seq<WriteIntent>, id: string) {
    && e.currentValue == Fold(e.baseValue, intents, id)
    && Latest(intents, id).Some? && e.intentType == Latest(intents, id).value.intentType
  }

  ghost predicate SavepointsInStep(savepoints: seq<Savepoint>, size: nat) {
    && (forall s <- savepoints :: s.writeLogPosition == s.intentLogPosition <= size)
    && (forall i, j :: 0 <= i < j < |savepoints| ==> savepoints[i].writeLogPosition <= savepoints[j].writeLogPosition)
  }

  ghost predicate BranchInv(b: BranchState) {
    && WellFormed(b.buffer)
    && Folded(b.buffer, b.intents)
    && SavepointsInStep(b.savepoints, |b.intents|)
  }

  /** What an intent that looks at no older value leaves. */
  predicate LeavesValue(intent: WriteIntent, base: string, value: string) {
    && (intent.intentType.Overwrite? || intent.intentType.Cas? ==> value == intent.payload)
    && (intent.intentType.ReadIntent? ==> value == base)
  }

  lemma {:induction false} FoldOfReplaced(base: string, intents: seq<WriteIntent>, id: string)
    requires Latest(intents, id).Some?
    ensures LeavesValue(Latest(intents, id).value, base, Fold(base, intents, id))
  {
    if intents[|intents| - 1].objectId != id {
      FoldOfReplaced(base, intents[..|intents| - 1], id);
    }
  }

  // ---- Each operation keeps it ----

  lemma {:induction false} FoldUnmentioned(base: string, intents: seq<WriteIntent>, objectId: string)
    requires !Mentions(intents, objectId)
    ensures Fold(base, intents, objectId) == base
  {
    if intents != [] {
      assert intents[|intents| - 1] in intents;
      assert forall intent <- intents[..|intents| - 1] :: intent in intents;
      FoldUnmentioned(base, intents[..|intents| - 1], objectId);
    }
  }

  lemma MentionsAppend(intents: seq<WriteIntent>, intent: WriteIntent, id: string)
    ensures Mentions(intents + [intent], id) <==> Mentions(intents, id) || intent.objectId == id
  {
    var longer := intents + [intent];
    assert longer[|intents|] == intent;
    assert forall x <- intents :: x in longer;
  }

  lemma WriteKeepsFolded(b: BranchState, objectId: string, objectType: ObjectType, intent: WriteIntent, m: Values)
    requires BranchInv(b) && intent.objectId == objectId
    ensures BranchInv(AfterWrite(b, objectId, objectType, intent, m))
  {
    var e := EntryAfter(StartingEntry(b, objectId, objectType, m), objectType, intent);
    assert e.objectId == objectId;
    UpsertKeepsWellFormed(b.buffer, e);
    WrittenIsFolded(b, objectId, objectType, intent, m);
    UpsertKeepsFolded(b.buffer, b.intents, e, intent);
  }

  /** The entry a write leaves is the fold of the intents, the new one included. */
  lemma WrittenIsFolded(b: BranchState, objectId: string, objectType: ObjectType, intent: WriteIntent, m: Values)
    requires Consistent(b.buffer) && Folded(b.buffer, b.intents) && intent.objectId == objectId
    ensures FoldedAt(
      EntryAfter(StartingEntry(b, objectId, objectType, m), objectType, intent), b.intents + [intent], objectId)
  {
    var intents := b.intents + [intent];
    assert intents[..|intents| - 1] == b.intents;
    if objectId !in b.buffer.entries {
      FoldUnmentioned(StartingEntry(b, objectId, objectType, m).baseValue, b.intents, objectId);
    } else {
      assert FoldedAt(b.buffer.entries[objectId], b.intents, objectId);
    }
  }

  lemma StaysFolded(e: CacheEntry, intents: seq<WriteIntent>, intent: WriteIntent, id: string)
    requires FoldedAt(e, intents, id) && intent.objectId != id
    ensures FoldedAt(e, intents + [intent], id)
  {
    assert (intents + [intent])[..|intents|] == intents;
  }

  lemma UpsertKeepsFolded(buffer: Buffer, intents: seq<WriteIntent>, e: CacheEntry, intent: WriteIntent)
    requires Consistent(buffer) && Folded(buffer, intents)
    requires intent.objectId == e.objectId && FoldedAt(e, intents + [intent], e.objectId)
    ensures Folded(Upserted(buffer, e), intents + [intent])
  {
    var longer := intents + [intent];
    UndoUpsert(buffer, e);
    assert longer[..|longer| - 1] == intents;
    forall id
      ensures Mentions(longer, id) <==> Mentions(intents, id) || id == e.objectId
    {
      MentionsAppend(intents, intent, id);
    }
    forall id | id in buffer.entries && id != e.objectId
      ensures FoldedAt(buffer.entries[id], longer, id)
    {
      StaysFolded(buffer.entries[id], intents, intent, id);
    }
  }

  lemma {:induction false} TruncateKeepsFolded(buffer: Buffer, intents: seq<WriteIntent>, size: nat)
    requires WellFormed(buffer) && Folded(buffer, intents)
    ensures Folded(Truncated(buffer, size), CutIntents(intents, size))
    decreases |intents|
  {
    if size < |intents| {
      TruncateKeepsFolded(UndoChange(buffer), intents[..|intents| - 1], size);
      assert CutIntents(intents[..|intents| - 1], size) == CutIntents(intents, size);
    }
  }

  lemma RollbackKeepsInv(b: BranchState, savepointId: string)
    requires BranchInv(b)
    ensures BranchInv(AfterRollback(b, savepointId))
  {
    var i := FindSavepoint(b.savepoints, savepointId);
    if i < |b.savepoints| {
      var s := b.savepoints[i];
      assert s in b.savepoints;
      TruncateKeepsWellFormed(b.buffer, s.writeLogPosition);
      TruncateKeepsFolded(b.buffer, b.intents, s.writeLogPosition);
      var kept := b.savepoints[..i + 1];
      forall k | 0 <= k < |kept|
        ensures kept[k].writeLogPosition == kept[k].intentLogPosition <= s.writeLogPosition
      {
        assert b.savepoints[k] in b.savepoints;
      }
    }
  }

  lemma SavepointKeepsInv(b: BranchState, savepointId: string)
    requires BranchInv(b)
    ensures BranchInv(AfterSavepoint(b, savepointId))
  {
    forall k | 0 <= k < |b.savepoints|
      ensures b.savepoints[k].writeLogPosition <= |b.intents|
    {
      assert b.savepoints[k] in b.savepoints;
    }
  }

  lemma StepKeepsInv(b: BranchState, op: BranchOp, m: Values)
    requires BranchInv(b) && Named(op)
    ensures BranchInv(Performed(b, op, m))
  {
    match op
    case Write(id, ty, intent) => WriteKeepsFolded(b, id, ty, intent, m);
    case RollbackTo(id) => RollbackKeepsInv(b, id);
    case CreateSavepoint(id) => SavepointKeepsInv(b, id);
    case Read(_) =>
    case Stage(_, _) =>
  }

  /** In every state a branch can reach, through any reads, writes, savepoints and nested rollbacks and
      whatever others do to the store meanwhile, the buffer is the fold of the surviving intents. */
  lemma {:induction false} BufferIsFold(b: BranchState, ops: seq<BranchOp>, views: seq<Values>, n: nat)
    requires BranchInv(b) && n <= |ops| == |views| && forall op <- ops :: Named(op)
    ensures BranchInv(Run(b, ops, views, n))
  {
    if n > 0 {
      BufferIsFold(b, ops, views, n - 1);
      StepKeepsInv(Run(b, ops, views, n - 1), ops[n - 1], views[n - 1]);
    }
  }

  lemma NewBranchInv(branchId: string)
    ensures BranchInv(NewBranch(branchId))
  {
    assert WellFormed(EMPTY);
  }

  // ---- Where base values come from ----

  /** The entry started as a copy of its object in `m`, which it also remembers as what to go back to. */
  predicate CopiedFrom(e: CacheEntry, m: Values) {
    && VersionedValue(e.baseValue, e.baseVersion, e.undo.existed) == Lookup(m, e.objectId)
    && e.undo.previousValue == e.baseValue
  }

  ghost predicate CopiedFromOne(e: CacheEntry, views: seq<Values>) {
    exists i :: 0 <= i < |views| && CopiedFrom(e, views[i])
  }

  /** Every entry a branch buffers, or could bring back by undoing, was copied from a store content that
      one of its operations saw. */
  lemma {:induction false} BasesComeFromViews(b: BranchState, ops: seq<BranchOp>, views: seq<Values>, n: nat)
    requires n <= |ops| == |views| && Throughout(b.buffer, e => CopiedFromOne(e, views))
    ensures Throughout(Run(b, ops, views, n).buffer, e => CopiedFromOne(e, views))
  {
    if n > 0 {
      BasesComeFromViews(b, ops, views, n - 1);
      var before, op := Run(b, ops, views, n - 1), ops[n - 1];
      match op
      case Write(id, ty, intent) =>
        var e := EntryAfter(StartingEntry(before, id, ty, views[n - 1]), ty, intent);
        assert id !in before.buffer.entries ==> CopiedFrom(e, views[n - 1]);
        UpsertKeepsThroughout(before.buffer, e, x => CopiedFromOne(x, views));
      case RollbackTo(id) =>
        var i := FindSavepoint(before.savepoints, id);
        if i < |before.savepoints| {
          TruncateKeepsThroughout(before.buffer, before.savepoints[i].writeLogPosition, e => CopiedFromOne(e, views));
        }
      case _ =>
    }
  }

  // ---- A rollback undoes everything since the savepoint ----

  /** No operation rolls back to one of the first `depth` savepoints. */
  ghost predicate StaysAbove(b: BranchState, ops: seq<BranchOp>, views: seq<Values>, depth: nat)
    requires |views| == |ops|
  {
    forall i :: 0 <= i < |ops| ==> AboveAt(b, ops, views, depth, i)
  }

  ghost predicate AboveAt(b: BranchState, ops: seq<BranchOp>, views: seq<Values>, depth: nat, i: nat)
    requires i < |ops| == |views|
  {
    ops[i].RollbackTo? ==> FindSavepoint(Run(b, ops, views, i).savepoints, ops[i].savepointId) >= depth
  }

  /** What survives since the savepoint at index `depth`, the last one of `b`, was created. */
  ghost predicate Extends(b: BranchState, now: BranchState, depth: nat) {
    && |now.intents| >= |b.intents|
    && Truncated(now.buffer, |b.intents|) == b.buffer
    && now.intents[..|b.intents|] == b.intents
    && depth < |now.savepoints| && now.savepoints[..depth + 1] == b.savepoints
  }

  lemma WriteExtends(
      b: BranchState, now: BranchState, depth: nat, id: string, ty: ObjectType, intent: WriteIntent, m: Values)
    requires BranchInv(now) && Extends(b, now, depth)
    ensures Extends(b, AfterWrite(now, id, ty, intent, m), depth)
  {
    UndoUpsert(now.buffer, EntryAfter(StartingEntry(now, id, ty, m), ty, intent));
    assert (now.intents + [intent])[..|b.intents|] == now.intents[..|b.intents|];
  }

  lemma RollbackExtends(b: BranchState, now: BranchState, depth: nat, id: string)
    requires |b.savepoints| == depth + 1 && b.savepoints[depth].writeLogPosition == |b.intents|
    requires BranchInv(now) && Extends(b, now, depth)
    requires FindSavepoint(now.savepoints, id) >= depth
    ensures Extends(b, AfterRollback(now, id), depth)
  {
    var i := FindSavepoint(now.savepoints, id);
    if i < |now.savepoints| {
      var s := now.savepoints[i];
      assert s in now.savepoints;
      assert now.savepoints[depth] == now.savepoints[..depth + 1][depth] == b.savepoints[depth];
      assert s.writeLogPosition >= |b.intents|;
      TruncateTwice(now.buffer, s.writeLogPosition, |b.intents|);
      assert CutIntents(now.intents, s.writeLogPosition)[..|b.intents|] == now.intents[..|b.intents|];
      assert now.savepoints[..i + 1][..depth + 1] == now.savepoints[..depth + 1];
    }
  }

  lemma StepExtends(b: BranchState, now: BranchState, depth: nat, op: BranchOp, m: Values)
    requires |b.savepoints| == depth + 1 && b.savepoints[depth].writeLogPosition == |b.intents|
    requires BranchInv(now) && Extends(b, now, depth) && Named(op)
    requires op.RollbackTo? ==> FindSavepoint(now.savepoints, op.savepointId) >= depth
    ensures Extends(b, Performed(now, op, m), depth)
  {
    match op
    case Write(id, ty, intent) => WriteExtends(b, now, depth, id, ty, intent, m);
    case RollbackTo(id) => RollbackExtends(b, now, depth, id);
    case CreateSavepoint(id) =>
      var longer := AfterSavepoint(now, id).savepoints;
      assert longer[..depth + 1] == now.savepoints[..depth + 1];
    case Read(_) =>
    case Stage(_, _) =>
  }

  lemma {:induction false} RunExtends(b: BranchState, ops: seq<BranchOp>, views: seq<Values>, depth: nat, n: nat)
    requires BranchInv(b) && |b.savepoints| == depth + 1
    requires b.savepoints[depth].writeLogPosition == |b.intents|
    requires n <= |ops| == |views| && forall op <- ops :: Named(op)
    requires StaysAbove(b, ops, views, depth)
    ensures BranchInv(Run(b, ops, views, n)) && Extends(b, Run(b, ops, views, n), depth)
  {
    if n == 0 {
      assert b.savepoints[..depth + 1] == b.savepoints && b.intents[..|b.intents|] == b.intents;
    } else {
      RunExtends(b, ops, views, depth, n - 1);
      assert AboveAt(b, ops, views, depth, n - 1);
      StepExtends(b, Run(b, ops, views, n - 1), depth, ops[n - 1], views[n - 1]);
      StepKeepsInv(Run(b, ops, views, n - 1), ops[n - 1], views[n - 1]);
    }
  }

  /** Take a savepoint under a new id, run any program that does not roll back past it, roll back to it:
      buffer, intents and savepoints are exactly those of the moment it was taken. */
  lemma RollbackRestores(b: BranchState, savepointId: string, ops: seq<BranchOp>, views: seq<Values>)
    requires BranchInv(b) && !CanRollBack(b, savepointId)
    requires |views| == |ops| && forall op <- ops :: Named(op)
    requires StaysAbove(AfterSavepoint(b, savepointId), ops, views, |b.savepoints|)
    ensures var marked := AfterSavepoint(b, savepointId);
      var now := Run(marked, ops, views, |ops|);
      var end := AfterRollback(now, savepointId);
      && CanRollBack(now, savepointId)
      && end.buffer == b.buffer && end.intents == b.intents && end.savepoints == marked.savepoints
  {
    var marked := AfterSavepoint(b, savepointId);
    SavepointKeepsInv(b, savepointId);
    RunExtends(marked, ops, views, |b.savepoints|, |ops|);
    ExtendedRollsBack(b, savepointId, Run(marked, ops, views, |ops|));
  }

  lemma ExtendedRollsBack(b: BranchState, savepointId: string, now: BranchState)
    requires BranchInv(b) && !CanRollBack(b, savepointId)
    requires Extends(AfterSavepoint(b, savepointId), now, |b.savepoints|)
    ensures FindSavepoint(now.savepoints, savepointId) == |b.savepoints|
    ensures var end := AfterRollback(now, savepointId);
      end.buffer == b.buffer && end.intents == b.intents && end.savepoints == AfterSavepoint(b, savepointId).savepoints
  {
    var depth := |b.savepoints|;
    var marked := AfterSavepoint(b, savepointId);
    forall k | 0 <= k <= depth
      ensures now.savepoints[k] == marked.savepoints[k]
      ensures k < depth ==> now.savepoints[k].savepointId != savepointId
    {
      assert k < depth ==> marked.savepoints[k] == b.savepoints[k];
      assert now.savepoints[..depth + 1][k] == now.savepoints[k];
    }
    assert now.savepoints[depth].savepointId == savepointId;
    assert CutIntents(now.intents, |b.intents|) == b.intents;
  }
}
