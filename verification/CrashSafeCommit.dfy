/** The first attempt of a crash-safe fallback commit, as it runs. Like the resume methods of
    `FallbackRecovery`, it returns as a ghost value the states of the machine it went through. */
module CrashSafeCommit {
  import opened KvStore
  import opened FallbackLog
  import opened FallbackProtocol
  import opened FallbackRecovery
  import opened FallbackCommit
  import opened FallbackAttempt
  import opened AgentTxn

  /** One pass of the first attempt's loop: check the key, write it, record the progress. */
  method AttemptEntry(
      artifact: ArtifactRecord, path: string, store: MemoryKVStore, directory: ArtifactDirectory, i: nat,
      ghost s: System)
    returns (put: bool, recorded: bool, ghost steps: seq<System>)
    requires i < |artifact.entries| && artifact.appliedCount == i
    requires s == System(store.values, artifact.Value(), At(FirstAttempt, i))
    modifies artifact`phase, artifact`appliedCount, store, directory
    ensures steps == (if recorded then [Advance(s), Advance(Advance(s))] else [Advance(s)])
    ensures store.values == Advance(s).store
    ensures !put ==> !recorded && Advance(s) == s.(process := Turning) && artifact.Value() == old(artifact.Value())
    ensures put && !recorded ==> Advance(s) == s.(store := store.values, process := Wrote(FirstAttempt, i))
    ensures recorded ==> put && Advance(Advance(s)) == System(store.values, artifact.Value(), At(FirstAttempt, i + 1))
    ensures directory.files == if recorded then old(directory.files)[path := artifact.Value()] else old(directory.files)
    ensures directory.faults == old(directory.faults) + if put && !recorded then 1 else 0
  {
    var e := artifact.entries[i];
    steps := [Advance(s)];
    var current := store.Get(e.key);
    if current.version != e.expectedVersion || !current.present {
      return false, false, steps;
    }
    // The version was just read and nobody interferes, so this put cannot fail.
    put := store.PutIfVersion(e.key, e.expectedVersion, e.targetValue);
    assert put;
    artifact.appliedCount := artifact.appliedCount + 1;
    artifact.phase := FallbackLog.Applying;
    recorded := directory.Write(path, artifact.Value());
    if recorded {
      steps := [Advance(s), Advance(Advance(s))];
    }
  }

  /** Where a first attempt that nobody disturbs stops: committed; rolled back, or unable to; or at the
      crash it was asked to simulate. */
  ghost predicate AttemptStops(last: System, ok: bool, crashAfter: nat) {
    if ok then last.process.Done? && last.file.phase.Committed?
    else
      || (last.process.Done? && last.file.phase.RolledBack?)
      || last.process.Stuck?
      || (crashAfter > 0 && last.process == At(FirstAttempt, crashAfter))
  }

  /** The apply loop of the first attempt, from a recorded artifact on. */
  method ApplyPrepared(
      artifact: ArtifactRecord, path: string, crashAfter: nat, store: MemoryKVStore, directory: ArtifactDirectory,
      ghost first: System)
    returns (ok: bool, failure: ValidationResult, ghost trace: seq<System>)
    requires first == System(store.values, artifact.Value(), At(FirstAttempt, 0))
    requires artifact.appliedCount == 0 && !artifact.phase.Committed?
    requires path in directory.files && directory.files[path] == artifact.Value()
    modifies artifact`phase, artifact`appliedCount, store, directory
    ensures Unfolds(trace, first) && store.values == Last(trace).store
    ensures directory.files == old(directory.files)[path := Last(trace).file]
    ensures ok ==> directory.faults == old(directory.faults)
    ensures ok || directory.faults == old(directory.faults) ==> AttemptStops(Last(trace), ok, crashAfter)
    ensures !ok ==> !Last(trace).file.phase.Committed? && !failure.success
  {
    trace := [first];
    for i := 0 to |artifact.entries|
      invariant Unfolds(trace, first)
      invariant Last(trace) == System(store.values, artifact.Value(), At(FirstAttempt, i))
      invariant artifact.Value() == old(artifact.Value()).(phase := artifact.phase, appliedCount := i)
      invariant !artifact.phase.Committed?
      invariant directory.files == old(directory.files)[path := artifact.Value()]
      invariant directory.faults == old(directory.faults)
    {
      ghost var steps: seq<System>;
      var put, recorded;
      put, recorded, steps := AttemptEntry(artifact, path, store, directory, i, Last(trace));
      ExtendTrace(trace, first, steps);
      trace := trace + steps;
      if !put {
        failure := ValidationResult(false, "fallback write version changed for " + artifact.entries[i].key);
        trace := RollbackCrashSafeArtifact(artifact, path, store, directory, trace, first);
        return false, failure, trace;
      }
      if !recorded {
        return false, ValidationResult(false, "failed to persist fallback apply progress"), trace;
      }
      if crashAfter > 0 && artifact.appliedCount == crashAfter {
        return false, ValidationResult(false, "simulated crash during fallback commit"), trace;
      }
    }
    artifact.phase := FallbackLog.Committed;
    ok := directory.Write(path, artifact.Value());
    if !ok {
      return false, ValidationResult(false, "failed to persist fallback commit state"), trace;
    }
    failure := ValidationResult(true, "");
    ExtendTrace(trace, first, [Advance(Last(trace))]);
    trace := trace + [Advance(Last(trace))];
  }

  method RollbackCrashSafeArtifact(
      artifact: ArtifactRecord, path: string, store: MemoryKVStore, directory: ArtifactDirectory,
      ghost before: seq<System>, ghost first: System)
    returns (ghost trace: seq<System>)
    requires Unfolds(before, first) && Last(before) == System(store.values, artifact.Value(), Turning)
    requires path in directory.files && directory.files[path] == artifact.Value() && !artifact.phase.Committed?
    modifies artifact`phase, artifact`appliedCount, store, directory
    ensures Unfolds(trace, first) && store.values == Last(trace).store
    ensures directory.files == old(directory.files)[path := Last(trace).file]
    ensures directory.faults == old(directory.faults) ==> AttemptStops(Last(trace), false, 0)
    ensures !Last(trace).file.phase.Committed?
  {
    var recovery := new RecoveryResult();
    ghost var tail: seq<System>;
    var ok;
    ok, tail := ResumeRollbackFallbackCommit(artifact, path, store, directory, recovery);
    trace := before + tail;
    if tail == [] {
      assert trace == before;
    } else {
      JoinTraces(before, first, tail);
      GivesUp(tail, tail[0], |tail| - 1);
      if tail[0].process.Stuck? {
        StuckStays(tail, tail[0], |tail| - 1);
      }
    }
  }

  predicate GivingUp(s: System) {
    && !s.file.phase.Committed?
    && (s.process.Stuck? || s.process.Undoing? || s.process.Undid? || s.process.Done?)
  }

  /** A process that rolls back never commits. */
  lemma {:induction false} GivesUp(trace: seq<System>, first: System, i: nat)
    requires Unfolds(trace, first) && GivingUp(first) && i < |trace|
    ensures GivingUp(trace[i])
  {
    if i > 0 {
      GivesUp(trace, first, i - 1);
      assert AdvanceAt(trace, i);
    }
  }

  lemma JoinTraces(before: seq<System>, first: System, tail: seq<System>)
    requires Unfolds(before, first) && tail != [] && Unfolds(tail, Advance(Last(before)))
    ensures Unfolds(before + tail, first) && Last(before + tail) == Last(tail)
  {
    forall i | 0 < i < |before + tail|
      ensures AdvanceAt(before + tail, i)
    {
      if i < |before| {
        assert AdvanceAt(before, i);
      } else if i > |before| {
        assert AdvanceAt(tail, i - |before|);
      }
    }
  }

  // ---- What the attempt amounts to ----

  lemma {:induction false} SameStates(trace: seq<System>, other: seq<System>, first: System, i: nat)
    requires Unfolds(trace, first) && Unfolds(other, first) && i < |trace| && i < |other|
    ensures trace[i] == other[i]
  {
    if i > 0 {
      SameStates(trace, other, first, i - 1);
      assert AdvanceAt(trace, i) && AdvanceAt(other, i);
    }
  }

  lemma {:induction false} DoneStays(trace: seq<System>, first: System, i: nat, j: nat)
    requires Unfolds(trace, first) && i <= j < |trace| && trace[i].process.Done?
    ensures trace[j] == trace[i]
  {
    if i < j {
      DoneStays(trace, first, i, j - 1);
      assert AdvanceAt(trace, j);
    }
  }

  /** A process left alone is done in one state only. */
  lemma DoneOnce(trace: seq<System>, other: seq<System>, first: System)
    requires Unfolds(trace, first) && Unfolds(other, first)
    requires Last(trace).process.Done? && Last(other).process.Done?
    ensures Last(trace) == Last(other)
  {
    var i := (if |trace| <= |other| then |trace| else |other|) - 1;
    SameStates(trace, other, first, i);
    DoneStays(trace, first, i, |trace| - 1);
    DoneStays(other, first, i, |other| - 1);
  }

  /** The finished attempt against the batch, when every check on an unwritten key holds: it commits
      exactly when the batch does and every written key exists, and then with the store of the batch;
      otherwise every key has its old content. */
  lemma FinishedAttempt(
      m: Values, checks: map<string, nat>, writes: seq<WriteOp>, txnId: string, taskId: string, trace: seq<System>)
    requires DistinctKeys(writes) && forall w <- writes :: w.key in checks
    requires forall key <- checks :: !WritesKey(writes, key) ==> Lookup(m, key).version == checks[key]
    requires PrepareEntries(m, writes, checks).Some?
    requires Unfolds(trace, Attempt(m, txnId, taskId, PrepareEntries(m, writes, checks).value))
    ensures !Last(trace).process.Stuck?
    ensures Last(trace).process.Done? ==>
      var batch := BatchCommit(m, checks, writes);
      && (Last(trace).file.phase.Committed? <==> batch.ok && forall w <- writes :: Lookup(m, w.key).present)
      && (Last(trace).file.phase.Committed? ==> Last(trace).store == batch.values)
      && (!Last(trace).file.phase.Committed? ==>
            forall key :: SameContent(Lookup(m, key), Lookup(Last(trace).store, key)))
  {
    PreparedIsInit(m, writes, checks, txnId, taskId);
    TraceStaysLive(trace, trace[0]);
    if Last(trace).process.Done? {
      var n, t := CrashSafeAgainstBatch(m, checks, writes, txnId, taskId);
      var other :| Unfolds(other, trace[0]) && |other| == n + 1 && Last(other) == t;
      DoneOnce(trace, other, trace[0]);
    }
  }
}
