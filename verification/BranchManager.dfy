/** The operations on a branch, as they run: `BranchManager` and `RollbackManager`. */
module BranchManager {
  import opened Decimal
  import opened KvStore
  import opened Intents
  import opened Branches

  method ReadObject(branch: BranchContext, objectId: string, store: MemoryKVStore) returns (r: VersionedValue)
    modifies branch`status, branch.readSet
    ensures r == ReadAnswer(old(branch.State()), objectId, store.values)
    ensures branch.State() == AfterRead(old(branch.State()), objectId, store.values)
  {
    branch.status := Running;
    var buffered := branch.writeBuffer.Find(objectId);
    if buffered.Some? {
      var e := buffered.value;
      return VersionedValue(e.currentValue, e.baseVersion, e.undo.existed || e.baseValue != "" || e.currentValue != "");
    }
    r := store.Get(objectId);
    branch.readSet.Record(objectId, r.version);
  }

  method ApplyIntent(e: CacheEntry, objectType: ObjectType, intent: WriteIntent) returns (entry: CacheEntry)
    ensures entry == EntryAfter(e, objectType, intent)
  {
    entry := e.(objectType := objectType, dirty := intent.intentType != ReadIntent, intentType := intent.intentType);
    match intent.intentType {
      case ReadIntent => entry := entry.(currentValue := entry.baseValue);
      case Overwrite => entry := entry.(currentValue := intent.payload);
      case Cas => entry := entry.(currentValue := intent.payload);
      case Append => entry := entry.(currentValue := entry.currentValue + intent.payload);
      case Delta =>
        var current, delta := ParseInt(entry.currentValue), ParseInt(intent.payload);
        if current.Some? && delta.Some? {
          entry := entry.(currentValue := IntText(current.value + delta.value));
        }
    }
  }

  method BufferWrite(
      branch: BranchContext, objectId: string, objectType: ObjectType, intent: WriteIntent, store: MemoryKVStore)
    modifies branch`status, branch.writeBuffer, branch.intentLog
    ensures branch.State() == AfterWrite(old(branch.State()), objectId, objectType, intent, store.values)
  {
    branch.status := Running;
    var existing := branch.writeBuffer.Find(objectId);
    var entry: CacheEntry;
    if existing.Some? {
      entry := existing.value;
    } else {
      var base := store.Get(objectId);
      entry := CacheEntry(objectId, objectType, base.value, base.version, base.value, false, ReadIntent,
                          UndoRecord(base.value, base.present));
    }
    entry := ApplyIntent(entry, objectType, intent);
    branch.writeBuffer.Upsert(entry);
    branch.intentLog.Append(intent);
  }

  method CreateSavepoint(branch: BranchContext, savepointId: string)
    modifies branch`savepoints
    ensures branch.State() == AfterSavepoint(old(branch.State()), savepointId)
  {
    var savepoint := Savepoint(savepointId, branch.writeBuffer.Size(), |branch.intentLog.intents|);
    branch.savepoints := branch.savepoints + [savepoint];
  }

  method StageBranch(branch: BranchContext, score: int, summary: string)
    modifies branch`score, branch`summary, branch`status
    ensures branch.State() == AfterStage(old(branch.State()), score, summary)
  {
    branch.score, branch.summary, branch.status := score, summary, Staged;
  }

  method RollbackToSavepoint(branch: BranchContext, savepointId: string) returns (found: bool)
    modifies branch`savepoints, branch.writeBuffer, branch.intentLog
    ensures found == CanRollBack(old(branch.State()), savepointId)
    ensures branch.State() == AfterRollback(old(branch.State()), savepointId)
  {
    var i := 0;
    while i < |branch.savepoints| && branch.savepoints[i].savepointId != savepointId
      invariant i <= |branch.savepoints|
      invariant forall j :: 0 <= j < i ==> branch.savepoints[j].savepointId != savepointId
      modifies {}
    {
      i := i + 1;
    }
    if i == |branch.savepoints| {
      return false;
    }
    branch.writeBuffer.Truncate(branch.savepoints[i].writeLogPosition);
    branch.intentLog.Truncate(branch.savepoints[i].intentLogPosition);
    branch.savepoints := branch.savepoints[..i + 1];
    found := true;
  }

  method DiscardBranch(branch: BranchContext)
    modifies branch`savepoints, branch`status, branch.writeBuffer, branch.intentLog
    ensures branch.State() == AfterDiscard(old(branch.State()))
  {
    branch.writeBuffer.Truncate(0);
    branch.intentLog.Truncate(0);
    branch.savepoints := [];
    branch.status := Discarded;
  }
}
