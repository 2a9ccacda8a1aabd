/** Validation and commit of a winning branch, as they run: `ValidationManager` and `CommitManager`. */
module CommitManager {
  import opened Wrappers
  import opened KvStore
  import opened Intents
  import opened WriteBuffers
  import opened Branches
  import opened BranchFold
  import opened PolicyDispatcher
  import opened CommitPlan
  import opened FallbackCommit
  import FallbackLog
  import opened FallbackProtocol
  import opened CrashSafeCommit
  import opened FallbackAttempt
  import opened AgentTxn

  /** The last intent of every object, as a map. */
  method LatestIntents(intents: seq<WriteIntent>) returns (latest: map<string, WriteIntent>)
    ensures forall id :: Holds(latest, intents, id)
  {
    latest := map[];
    assert forall id :: Holds(latest, [], id);
    for i := 0 to |intents|
      invariant forall id :: Holds(latest, intents[..i], id)
    {
      ghost var before, prefix := latest, intents[..i + 1];
      latest := latest[intents[i].objectId := intents[i]];
      assert prefix[..i] == intents[..i];
      forall id
        ensures Holds(latest, prefix, id)
      {
        assert Holds(before, intents[..i], id);
      }
    }
    assert intents[..|intents|] == intents;
  }

  ghost predicate Holds(latest: map<string, WriteIntent>, intents: seq<WriteIntent>, id: string) {
    match Latest(intents, id)
    case None => id !in latest
    case Some(intent) => id in latest && latest[id] == intent
  }

  method ValidateWinner(winner: BranchContext, store: MemoryKVStore) returns (result: ValidationResult)
    ensures result.success <==> Validated(winner.State(), store.values)
    ensures result.success ==> result.reason == ""
  {
    var latest := LatestIntents(winner.intentLog.intents);
    var records := winner.readSet.entries;
    for i := 0 to |records|
      invariant forall j :: 0 <= j < i ==> ReadHolds(winner.intentLog.intents, records[j], store.values)
    {
      var r := records[i];
      assert Holds(latest, winner.intentLog.intents, r.objectId);
      if r.objectId in latest && UsesSemanticRebase(latest[r.objectId].intentType) {
        continue;
      }
      var current := store.GetVersion(r.objectId);
      if current != r.observedVersion {
        assert r in winner.State().readLog;
        return ValidationResult(false, "strict validation failed for " + r.objectId);
      }
    }
    result := ValidationResult(true, "");
  }

  // ---- Building the plan ----

  method SeenChecks(records: seq<ReadRecord>) returns (plan: Plan)
    ensures plan == CollectReads(records, map[])
  {
    var checks: map<string, nat> := map[];
    for i := 0 to |records|
      invariant CollectReads(records[i..], checks) == CollectReads(records, map[])
    {
      var r := records[i];
      assert records[i..][1..] == records[i + 1..];
      if r.objectId in checks && checks[r.objectId] != r.observedVersion {
        return Refused("inconsistent read versions for " + r.objectId);
      }
      checks := checks[r.objectId := r.observedVersion];
    }
    plan := Planned(checks, []);
  }

  /** The plan once the entries before `i` are done. */
  ghost function PlanFrom(
    entries: seq<CacheEntry>, intents: seq<WriteIntent>, views: seq<VersionedValue>,
    checks: map<string, nat>, writes: seq<WriteOp>, i: nat): Plan
    requires |views| == |entries| && i <= |entries|
  {
    PlanEntries(entries[i..], intents, views[i..], checks, writes)
  }

  lemma PlanFromUnfolds(
      entries: seq<CacheEntry>, intents: seq<WriteIntent>, views: seq<VersionedValue>,
      checks: map<string, nat>, writes: seq<WriteOp>, i: nat)
    requires |views| == |entries| && i < |entries|
    ensures var e := entries[i];
      PlanFrom(entries, intents, views, checks, writes, i) ==
        match Resolution(e, intents, views[i])
        case Failed(reason) => Refused(reason + " for " + e.objectId)
        case NoWrite => PlanFrom(entries, intents, views, checks, writes, i + 1)
        case Store(value) =>
          var version := ExpectedVersion(e, intents, views[i]);
          if !Rebases(e, intents) && e.objectId in checks && checks[e.objectId] != version then
            Refused("conflicting expected versions for " + e.objectId)
          else
            PlanFrom(
              entries, intents, views, checks[e.objectId := version], writes + [WriteOp(e.objectId, value)], i + 1)
  {
    assert entries[i..][1..] == entries[i + 1..] && views[i..][1..] == views[i + 1..];
  }

  /** Resolves one entry over what the store holds now, with the version to check it against. */
  method ResolveEntry(
      e: CacheEntry, latest: map<string, WriteIntent>, store: MemoryKVStore, ghost intents: seq<WriteIntent>)
    returns (resolved: ResolveResult, rebases: bool, version: nat)
    requires Holds(latest, intents, e.objectId)
    ensures var view := Lookup(store.values, e.objectId);
      && resolved == Resolution(e, intents, view)
      && rebases == Rebases(e, intents) && version == ExpectedVersion(e, intents, view)
  {
    if e.objectId !in latest {
      return Failed("missing latest intent"), false, e.baseVersion;
    }
    var current := store.Get(e.objectId);
    resolved := ResolveWrite(e, latest[e.objectId], current.value);
    rebases := UsesSemanticRebase(latest[e.objectId].intentType);
    version := if rebases then current.version else e.baseVersion;
  }

  lemma PlanStarts(b: BranchState, views: seq<VersionedValue>, seen: Plan)
    requires Consistent(b.buffer) && |views| == |b.buffer.order|
    requires seen == CollectReads(b.readLog, map[]) && seen.Planned?
    ensures PlanFrom(InOrder(b.buffer), b.intents, views, seen.checks, [], 0) == PlanCommit(b, views)
  {
    assert InOrder(b.buffer)[0..] == InOrder(b.buffer) && views[0..] == views;
  }

  method BuildPlan(winner: BranchContext, store: MemoryKVStore) returns (plan: Plan)
    requires Consistent(winner.writeBuffer.State())
    ensures plan == PlanCommit(winner.State(), ViewsOf(InOrder(winner.writeBuffer.State()), store.values))
  {
    plan := SeenChecks(winner.readSet.entries);
    if plan.Refused? {
      return;
    }
    var entries := winner.writeBuffer.Entries();
    var intents := winner.intentLog.intents;
    var latest := LatestIntents(intents);
    var checks, writes := plan.checks, [];
    ghost var views := ViewsOf(entries, store.values);
    ghost var whole := PlanCommit(winner.State(), views);
    PlanStarts(winner.State(), views, plan);
    for i := 0 to |entries|
      invariant PlanFrom(entries, intents, views, checks, writes, i) == whole
    {
      var e := entries[i];
      PlanFromUnfolds(entries, intents, views, checks, writes, i);
      assert Holds(latest, intents, e.objectId);
      var resolved, rebases, version := ResolveEntry(e, latest, store, intents);
      match resolved {
        case Failed(reason) => return Refused(reason + " for " + e.objectId);
        case NoWrite =>
        case Store(value) =>
          if !rebases && e.objectId in checks && checks[e.objectId] != version {
            return Refused("conflicting expected versions for " + e.objectId);
          }
          checks := checks[e.objectId := version];
          writes := writes + [WriteOp(e.objectId, value)];
      }
    }
    plan := Planned(checks, writes);
  }

  // ---- Committing ----

  method ListChecks(checks: map<string, nat>) returns (list: seq<VersionCheck>)
    ensures Lists(list, checks)
  {
    list := [];
    var rest := checks.Keys;
    while rest != {}
      invariant rest <= checks.Keys
      invariant forall c <- list :: c.key in checks && checks[c.key] == c.expectedVersion
      invariant forall key <- checks :: key in rest || VersionCheck(key, checks[key]) in list
      decreases rest
    {
      var key :| key in rest;
      list := list + [VersionCheck(key, checks[key])];
      rest := rest - {key};
    }
  }

  method ExpectedVersions(list: seq<VersionCheck>, ghost checks: map<string, nat>) returns (expected: map<string, nat>)
    requires Lists(list, checks)
    ensures expected == checks
  {
    expected := map[];
    for i := 0 to |list|
      invariant forall key <- expected :: key in checks && expected[key] == checks[key]
      invariant forall j :: 0 <= j < i ==> list[j].key in expected
    {
      expected := expected[list[i].key := list[i].expectedVersion];
    }
    forall key <- checks
      ensures key in expected
    {
      var j :| 0 <= j < |list| && list[j] == VersionCheck(key, checks[key]);
    }
  }

  method RollbackAppliedWrites(applied: seq<AppliedWrite>, store: MemoryKVStore, failure: ValidationResult)
    returns (ok: bool, failure': ValidationResult)
    modifies store
    ensures Effect(store.values, ok) == RollbackAll(old(store.values), applied)
    ensures if ok then failure' == failure else !failure'.success
  {
    failure' := failure;
    assert applied[..|applied|] == applied;
    for i := |applied| downto 0
      invariant RollbackAll(store.values, applied[..i]) == RollbackAll(old(store.values), applied)
    {
      var a := applied[i];
      assert applied[..i + 1][..i] == applied[..i];
      if a.previousExists {
        ok := store.PutIfVersion(a.key, a.previousVersion + 1, a.previousValue);
      } else {
        ok := store.DeleteIfVersion(a.key, a.previousVersion + 1);
      }
      if !ok {
        return false, ValidationResult(false, "fallback rollback failed for " + a.key);
      }
    }
    ok := true;
  }

  /** The plain fallback: one conditional put at a time, undone on the first stale key. */
  method CommitPlain(
      list: seq<VersionCheck>, writes: seq<WriteOp>, store: MemoryKVStore, ghost checks: map<string, nat>)
    returns (ok: bool, failure: ValidationResult)
    requires Lists(list, checks)
    modifies store
    ensures Effect(store.values, ok) == ApplyAll(old(store.values), writes, checks, [])
    ensures !ok ==> !failure.success
  {
    failure := ValidationResult(false, "");
    var expected := ExpectedVersions(list, checks);
    var applied: seq<AppliedWrite> := [];
    for i := 0 to |writes|
      invariant ApplyAll(store.values, writes[i..], checks, applied) == ApplyAll(old(store.values), writes, checks, [])
      invariant failure == ValidationResult(false, "")
    {
      var w := writes[i];
      assert writes[i..][1..] == writes[i + 1..];
      if w.key !in expected {
        return false, ValidationResult(false, "missing expected version for " + w.key);
      }
      var current := store.Get(w.key);
      if current.version != expected[w.key] {
        var undone;
        undone, failure := RollbackAppliedWrites(applied, store, failure);
        if failure.reason == "" {
          failure := ValidationResult(false, "fallback write version changed for " + w.key);
        }
        return false, failure;
      }
      // The version was just read and nobody interferes, so this put cannot fail.
      var put := store.PutIfVersion(w.key, expected[w.key], w.value);
      assert put;
      applied := applied + [AppliedWrite(w.key, current.value, current.version, current.present)];
    }
    ok := true;
  }

  /** Records what the store holds for every write, provided each key is at its expected version. */
  method PrepareArtifact(
      list: seq<VersionCheck>, writes: seq<WriteOp>, store: MemoryKVStore, ghost checks: map<string, nat>)
    returns (prepared: Option<seq<FallbackLog.CommitEntry>>, failure: ValidationResult)
    requires Lists(list, checks)
    ensures prepared == PrepareEntries(store.values, writes, checks)
    ensures !failure.success && (failure.reason == "" ==> prepared.Some?)
  {
    failure := ValidationResult(false, "");
    var expected := ExpectedVersions(list, checks);
    var entries := [];
    for i := 0 to |writes|
      invariant |entries| == i
      invariant forall j :: 0 <= j < i ==>
        writes[j].key in checks && Lookup(store.values, writes[j].key).version == checks[writes[j].key]
      invariant forall j :: 0 <= j < i ==>
        entries[j] == EntryFor(store.values, writes[j], Lookup(store.values, writes[j].key).version)
    {
      var w := writes[i];
      assert w in writes;
      if w.key !in expected {
        return None, ValidationResult(false, "missing expected version for " + w.key);
      }
      var current := store.Get(w.key);
      if current.version != expected[w.key] {
        return None, ValidationResult(false, "fallback write version changed for " + w.key);
      }
      entries := entries + [FallbackLog.CommitEntry(
        w.key, expected[w.key], w.value, current.value, current.version, current.present)];
    }
    prepared := Some(entries);
    PreparedEntries(store.values, writes, checks, entries);
  }

  lemma PreparedEntries(
      m: Values, writes: seq<WriteOp>, checks: map<string, nat>, entries: seq<FallbackLog.CommitEntry>)
    requires |entries| == |writes| && WritesCurrent(m, writes, checks)
    requires forall j :: 0 <= j < |writes| ==>
      entries[j] == EntryFor(m, writes[j], Lookup(m, writes[j].key).version)
    ensures PrepareEntries(m, writes, checks) == Some(entries)
  {
    var prepared := PrepareEntries(m, writes, checks);
    assert prepared.value == entries;
  }

  /** The crash-safe fallback: prepare, record, apply. The trace is empty when nothing was done. */
  method CommitCrashSafe(
      txn: AgentTxnContext, list: seq<VersionCheck>, writes: seq<WriteOp>, store: MemoryKVStore,
      directory: FallbackLog.ArtifactDirectory, ghost checks: map<string, nat>)
    returns (ok: bool, failure: ValidationResult, ghost trace: seq<System>)
    requires Lists(list, checks)
    modifies store, directory
    ensures CrashSafeOutcome(
      txn, old(store.values), checks, writes, old(directory.files), ok, store.values, directory.files, trace)
    ensures directory.faults == old(directory.faults) ==>
      (trace == [] <==> PrepareEntries(old(store.values), writes, checks).None?)
      && (trace != [] ==> AttemptStops(Last(trace), ok, txn.simulateCrashAfter))
    ensures !ok ==> !failure.success
  {
    var prepared;
    prepared, failure := PrepareArtifact(list, writes, store, checks);
    if prepared.None? {
      return false, failure, [];
    }
    var artifact := new FallbackLog.ArtifactRecord(
      FallbackLog.Artifact(txn.txnId, txn.taskId, FallbackLog.Prepared, 0, prepared.value));
    ok := directory.Write(txn.artifactPath, artifact.Value());
    if !ok {
      return false, ValidationResult(false, "failed to persist fallback prepare artifact"), [];
    }
    ghost var first := Attempt(store.values, txn.txnId, txn.taskId, prepared.value);
    ok, failure, trace := ApplyPrepared(artifact, txn.artifactPath, txn.simulateCrashAfter, store, directory, first);
  }

  /** What a crash-safe commit leaves, failed artifact writes included: the trace is what a process does
      from the prepared artifact on, the store and the file are where it ends, and success means it
      ended committed. */
  ghost predicate CrashSafeOutcome(
    txn: AgentTxnContext, m: Values, checks: map<string, nat>, writes: seq<WriteOp>,
    files: map<string, FallbackLog.Artifact>, ok: bool, m': Values, files': map<string, FallbackLog.Artifact>,
    trace: seq<System>)
    reads txn
  {
    if trace == [] then
      !ok && m' == m && files' == files
    else
      var prepared := PrepareEntries(m, writes, checks);
      && prepared.Some?
      && Unfolds(trace, Attempt(m, txn.txnId, txn.taskId, prepared.value))
      && m' == Last(trace).store && files' == files[txn.artifactPath := Last(trace).file]
      && (ok <==> Last(trace).file.phase.Committed?)
      && (ok ==> Last(trace).process.Done?)
  }

  /** The log of a commit: each write with the version it was checked against. */
  function LogOf(writes: seq<WriteOp>, checks: map<string, nat>): seq<CommitLogEntry> {
    seq(|writes|, i requires 0 <= i < |writes| =>
      CommitLogEntry(writes[i].key, writes[i].value, if writes[i].key in checks then checks[writes[i].key] else 0))
  }

  method LogWrites(writes: seq<WriteOp>, checks: map<string, nat>) returns (log: seq<CommitLogEntry>)
    ensures log == LogOf(writes, checks)
  {
    log := [];
    for i := 0 to |writes|
      invariant |log| == i
      invariant forall j :: 0 <= j < i ==> log[j] == LogOf(writes, checks)[j]
    {
      var w := writes[i];
      log := log + [CommitLogEntry(w.key, w.value, if w.key in checks then checks[w.key] else 0)];
    }
  }

  /** What a commit does to the store, by plan and by kind of store; nothing when the plan is refused. */
  ghost predicate CommitOutcome(
    txn: AgentTxnContext, atomicBatch: bool, m: Values, plan: Plan,
    files: map<string, FallbackLog.Artifact>, ok: bool, m': Values, files': map<string, FallbackLog.Artifact>,
    trace: seq<System>)
    reads txn
  {
    match plan
    case Refused(_) => !ok && m' == m && files' == files && trace == []
    case Planned(checks, writes) =>
      if atomicBatch then Effect(m', ok) == BatchCommit(m, checks, writes) && files' == files && trace == []
      else if txn.artifactPath == "" then
        Effect(m', ok) == ApplyAll(m, writes, checks, []) && files' == files && trace == []
      else CrashSafeOutcome(txn, m, checks, writes, files, ok, m', files', trace)
  }

  /** Commits the winner in one of three ways. On success the commit log holds the writes; otherwise it
      is as before. */
  method CommitWinner(
      txn: AgentTxnContext, winner: BranchContext, store: MemoryKVStore, directory: FallbackLog.ArtifactDirectory)
    returns (ok: bool, failure: ValidationResult, ghost trace: seq<System>)
    requires Consistent(winner.writeBuffer.State())
    modifies txn`commitLog, store, directory
    ensures
      var plan := PlanCommit(winner.State(), ViewsOf(InOrder(winner.writeBuffer.State()), old(store.values)));
      && CommitOutcome(
           txn, store.atomicBatch, old(store.values), plan, old(directory.files), ok, store.values, directory.files,
           trace)
      && txn.commitLog == (if ok then LogOf(plan.writes, plan.checks) else old(txn.commitLog))
      && (plan.Planned? && !store.atomicBatch && txn.artifactPath != "" && directory.faults == old(directory.faults) ==>
            (trace == [] <==> PrepareEntries(old(store.values), plan.writes, plan.checks).None?)
            && (trace != [] ==> AttemptStops(Last(trace), ok, txn.simulateCrashAfter)))
    ensures !ok ==> !failure.success
  {
    trace := [];
    var plan := BuildPlan(winner, store);
    if plan.Refused? {
      return false, ValidationResult(false, plan.reason), [];
    }
    var list := ListChecks(plan.checks);
    ListedChecksHold(list, plan.checks, store.values);
    failure := ValidationResult(false, "batch conditional write failed");
    if store.atomicBatch {
      ok := store.BatchPutIfVersion(list, plan.writes);
    } else if txn.artifactPath != "" {
      ok, failure, trace := CommitCrashSafe(txn, list, plan.writes, store, directory, plan.checks);
    } else {
      ok, failure := CommitPlain(list, plan.writes, store, plan.checks);
    }
    if !ok {
      return false, failure, trace;
    }
    txn.commitLog := LogWrites(plan.writes, plan.checks);
    failure := ValidationResult(true, "");
  }

  /** Whatever the kind of store: a commit that succeeds does exactly what the atomic batch of its plan
      does, and one that fails, if it came to an end, leaves every key its value and existence. A simple
      verdict is the verdict of the batch. Only without atomic batches does the branch have to check every
      read. */
  lemma CommitMeansBatch(
      txn: AgentTxnContext, atomicBatch: bool, b: BranchState, m: Values,
      files: map<string, FallbackLog.Artifact>, ok: bool, m': Values, files': map<string, FallbackLog.Artifact>,
      trace: seq<System>)
    requires Consistent(b.buffer) && Validated(b, m) && (atomicBatch || ChecksEveryRead(b))
    requires var plan := PlanCommit(b, ViewsOf(InOrder(b.buffer), m));
      CommitOutcome(txn, atomicBatch, m, plan, files, ok, m', files', trace)
    ensures var plan := PlanCommit(b, ViewsOf(InOrder(b.buffer), m));
      var batched := plan.Planned? && BatchCommit(m, plan.checks, plan.writes).ok;
      && (ok ==> batched && m' == BatchCommit(m, plan.checks, plan.writes).values)
      && (atomicBatch || txn.artifactPath == "" ==> ok == batched && trace == [])
      && (trace != [] ==> !Last(trace).process.Stuck?)
      && (!ok && (trace != [] ==> Last(trace).process.Done?) ==>
            forall key :: SameContent(Lookup(m, key), Lookup(m', key)))
  {
    var plan := PlanCommit(b, ViewsOf(InOrder(b.buffer), m));
    if plan.Planned? {
      if !atomicBatch {
        ValidatedChecksHold(b, m);
        GuardedFallbackRefinesBatch(b, m);
      }
      if !atomicBatch && txn.artifactPath != "" && trace != [] {
        FinishedAttempt(m, plan.checks, plan.writes, txn.txnId, txn.taskId, trace);
      }
    }
  }
}
