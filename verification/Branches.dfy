/** A candidate branch: its private state, and what each branch operation makes of it. */
module Branches {
  import opened Decimal
  import opened KvStore
  import opened Intents
  import opened WriteBuffers

  datatype BranchStatus = Created | Running | Staged | Winner | Loser | Committed | Discarded | Aborted

  datatype ReadRecord = ReadRecord(objectId: string, observedVersion: nat)

  /** Where both logs of the branch stood. */
  datatype Savepoint = Savepoint(savepointId: string, writeLogPosition: nat, intentLogPosition: nat)

  datatype BranchState = BranchState(
    branchId: string,
    status: BranchStatus,
    readLog: seq<ReadRecord>,
    buffer: Buffer,
    intents: seq<WriteIntent>,
    score: int,
    summary: string,
    savepoints: seq<Savepoint>)

  function NewBranch(branchId: string): BranchState {
    BranchState(branchId, Created, [], EMPTY, [], 0, "", [])
  }

  // ---- Reading ----

  /** A read answers from the buffer if the object is there, from the store otherwise. */
  function ReadAnswer(b: BranchState, objectId: string, m: Values): VersionedValue {
    match Found(b.buffer, objectId)
    case Some(e) =>
      VersionedValue(e.currentValue, e.baseVersion, e.undo.existed || e.baseValue != "" || e.currentValue != "")
    case None => Lookup(m, objectId)
  }

  /** Only a read that reached the store is recorded. */
  function AfterRead(b: BranchState, objectId: string, m: Values): BranchState {
    b.(status := Running,
       readLog := if objectId in b.buffer.entries then b.readLog
                else b.readLog + [ReadRecord(objectId, Lookup(m, objectId).version)])
  }

  // ---- Writing ----

  /** The value an intent leaves, given the value before it and the base value of the object. */
  function Applied(current: string, base: string, intent: WriteIntent): string {
    match intent.intentType
    case ReadIntent => base
    case Overwrite => intent.payload
    case Cas => intent.payload
    case Append => current + intent.payload
    case Delta =>
      match (ParseInt(current), ParseInt(intent.payload))
      case (Some(n), Some(d)) => IntText(n + d)
      case _ => current
  }

  /** The buffered entry a write starts from: the existing one, or a copy of the stored object. */
  function StartingEntry(b: BranchState, objectId: string, objectType: ObjectType, m: Values): CacheEntry {
    match Found(b.buffer, objectId)
    case Some(e) => e
    case None =>
      var base := Lookup(m, objectId);
      CacheEntry(objectId, objectType, base.value, base.version, base.value, false, ReadIntent,
                 UndoRecord(base.value, base.present))
  }

  function EntryAfter(e: CacheEntry, objectType: ObjectType, intent: WriteIntent): CacheEntry {
    e.(objectType := objectType,
       dirty := intent.intentType != ReadIntent,
       intentType := intent.intentType,
       currentValue := Applied(e.currentValue, e.baseValue, intent))
  }

  function AfterWrite(
    b: BranchState, objectId: string, objectType: ObjectType, intent: WriteIntent, m: Values): BranchState
  {
    b.(status := Running,
       buffer := Upserted(b.buffer, EntryAfter(StartingEntry(b, objectId, objectType, m), objectType, intent)),
       intents := b.intents + [intent])
  }

  // ---- Savepoints ----

  function AfterSavepoint(b: BranchState, savepointId: string): BranchState {
    b.(savepoints := b.savepoints + [Savepoint(savepointId, |b.buffer.changes|, |b.intents|)])
  }

  /** The first savepoint with that id. */
  function FindSavepoint(savepoints: seq<Savepoint>, savepointId: string): (i: nat)
    ensures i <= |savepoints|
    ensures i < |savepoints| ==> savepoints[i].savepointId == savepointId
    ensures forall j :: 0 <= j < i ==> savepoints[j].savepointId != savepointId
  {
    if savepoints == [] || savepoints[0].savepointId == savepointId then 0
    else 1 + FindSavepoint(savepoints[1..], savepointId)
  }

  function CutIntents(intents: seq<WriteIntent>, size: nat): seq<WriteIntent> {
    if size < |intents| then intents[..size] else intents
  }

  predicate CanRollBack(b: BranchState, savepointId: string) {
    FindSavepoint(b.savepoints, savepointId) < |b.savepoints|
  }

  /** Cuts both logs back to the savepoint and drops the savepoints after it; an unknown id changes
      nothing. */
  function AfterRollback(b: BranchState, savepointId: string): BranchState {
    var i := FindSavepoint(b.savepoints, savepointId);
    if i == |b.savepoints| then b
    else
      b.(buffer := Truncated(b.buffer, b.savepoints[i].writeLogPosition),
         intents := CutIntents(b.intents, b.savepoints[i].intentLogPosition),
         savepoints := b.savepoints[..i + 1])
  }

  function AfterDiscard(b: BranchState): BranchState {
    b.(buffer := Truncated(b.buffer, 0), intents := [], savepoints := [], status := Discarded)
  }

  function AfterStage(b: BranchState, score: int, summary: string): BranchState {
    b.(score := score, summary := summary, status := Staged)
  }

  // ---- Programs ----

  datatype BranchOp =
    | Read(objectId: string)
    | Write(objectId: string, objectType: ObjectType, intent: WriteIntent)
    | CreateSavepoint(savepointId: string)
    | RollbackTo(savepointId: string)
    | Stage(score: int, summary: string)

  /** The intent of a write is about the object written. */
  predicate Named(op: BranchOp) {
    op.Write? ==> op.intent.objectId == op.objectId
  }

  function Performed(b: BranchState, op: BranchOp, m: Values): BranchState {
    match op
    case Read(id) => AfterRead(b, id, m)
    case Write(id, ty, intent) => AfterWrite(b, id, ty, intent, m)
    case CreateSavepoint(id) => AfterSavepoint(b, id)
    case RollbackTo(id) => AfterRollback(b, id)
    case Stage(score, summary) => AfterStage(b, score, summary)
  }

  /** The branch after the first `n` operations of a program; operation `i` sees the store content
      `views[i]`, which others may have changed since operation `i - 1`. */
  function Run(b: BranchState, ops: seq<BranchOp>, views: seq<Values>, n: nat): BranchState
    requires n <= |ops| == |views|
  {
    if n == 0 then b else Performed(Run(b, ops, views, n - 1), ops[n - 1], views[n - 1])
  }

  // ---- The branch object ----

  class ReadSet {
    var entries: seq<ReadRecord>

    constructor ()
      ensures entries == []
    {
      entries := [];
    }

    method Record(objectId: string, observedVersion: nat)
      modifies this
      ensures entries == old(entries) + [ReadRecord(objectId, observedVersion)]
    {
      entries := entries + [ReadRecord(objectId, observedVersion)];
    }
  }

  class IntentLog {
    var intents: seq<WriteIntent>

    constructor ()
      ensures intents == []
    {
      intents := [];
    }

    method Append(intent: WriteIntent)
      modifies this
      ensures intents == old(intents) + [intent]
    {
      intents := intents + [intent];
    }

    method Truncate(size: nat)
      modifies this
      ensures intents == CutIntents(old(intents), size)
    {
      if size < |intents| {
        intents := intents[..size];
      }
    }
  }

  /** The three logs belong to the branch and are never replaced by others. */
  class BranchContext {
    const branchId: string
    const readSet: ReadSet
    const writeBuffer: WriteBuffer
    const intentLog: IntentLog
    var status: BranchStatus
    var score: int
    var summary: string
    var savepoints: seq<Savepoint>

    constructor (branchId: string)
      ensures State() == NewBranch(branchId)
      ensures this.branchId == branchId && fresh(readSet) && fresh(writeBuffer) && fresh(intentLog)
    {
      this.branchId := branchId;
      readSet := new ReadSet();
      writeBuffer := new WriteBuffer();
      intentLog := new IntentLog();
      status, score, summary, savepoints := Created, 0, "", [];
    }

    function State(): BranchState
      reads this, readSet, writeBuffer, intentLog
    {
      BranchState(branchId, status, readSet.entries, writeBuffer.State(), intentLog.intents, score, summary, savepoints)
    }

    ghost function Parts(): set<object> {
      {this, readSet, writeBuffer, intentLog}
    }
  }
}
