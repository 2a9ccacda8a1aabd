/** Recovery of fallback commits, as it runs: detection, rolling forward, rolling back, and the pass
    over a directory of artifacts.

    Each resume method returns, as a ghost value, the states its durable effects went through. The
    contracts say that these are consecutive states of the machine in `FallbackProtocol`, so what is
    proved there about crashes holds at every point inside these methods.
  */
module FallbackRecovery {
  import opened KvStore
  import opened FallbackLog
  import opened FallbackProtocol

  class RecoveryResult {
    var recoveredArtifacts: nat
    var skippedTerminalArtifacts: nat
    var rolledForwardWrites: nat
    var rolledBackWrites: nat
    var parseFailures: nat
    var conflicts: nat
    var success: bool
    var reason: string

    constructor ()
      ensures recoveredArtifacts == skippedTerminalArtifacts == rolledForwardWrites == rolledBackWrites == 0
      ensures parseFailures == conflicts == 0 && success && reason == ""
    {
      recoveredArtifacts, skippedTerminalArtifacts, rolledForwardWrites, rolledBackWrites := 0, 0, 0, 0;
      parseFailures, conflicts, success, reason := 0, 0, true, "";
    }

    function Handled(): nat
      reads this
    {
      recoveredArtifacts + skippedTerminalArtifacts
    }

    function Failures(): nat
      reads this
    {
      parseFailures + conflicts
    }

    method Fail(reason: string)
      modifies this`success, this`reason
      ensures !success && this.reason == reason
    {
      success, this.reason := false, reason;
    }

    method Conflict(reason: string)
      modifies this`success, this`reason, this`conflicts
      ensures !success && this.reason == reason && conflicts == old(conflicts) + 1
    {
      Fail(reason);
      conflicts := conflicts + 1;
    }
  }

  method DetectCommittedPrefix(artifact: ArtifactRecord, store: MemoryKVStore, result: RecoveryResult)
    returns (prefix: nat)
    modifies result`success, result`reason, result`conflicts
    ensures prefix == Detect(store.values, artifact.entries)
    ensures prefix <= |artifact.entries| ==>
      result.success == old(result.success) && result.reason == old(result.reason)
      && result.conflicts == old(result.conflicts)
    ensures prefix > |artifact.entries| ==> !result.success && result.conflicts == old(result.conflicts) + 1
  {
    prefix := 0;
    while prefix < |artifact.entries|
      invariant prefix <= |artifact.entries|
      invariant forall i :: 0 <= i < prefix ==> AtTarget(store.values, artifact.entries[i])
      modifies {}
    {
      var current := store.Get(artifact.entries[prefix].key);
      if !MatchesTarget(artifact.entries[prefix], current) {
        break;
      }
      prefix := prefix + 1;
    }
    TargetPrefixIs(store.values, artifact.entries, prefix);
    var rest := RestIsPrevious(artifact, prefix, store, result);
    if !rest {
      prefix := |artifact.entries| + 1;
    }
  }

  /** The entries from `prefix` on must all be at their old values. */
  method RestIsPrevious(artifact: ArtifactRecord, prefix: nat, store: MemoryKVStore, result: RecoveryResult)
    returns (ok: bool)
    requires prefix <= |artifact.entries|
    modifies result`success, result`reason, result`conflicts
    ensures ok <==> forall j :: prefix <= j < |artifact.entries| ==> AtPrevious(store.values, artifact.entries[j])
    ensures ok ==>
      result.success == old(result.success) && result.reason == old(result.reason)
      && result.conflicts == old(result.conflicts)
    ensures !ok ==> !result.success && result.conflicts == old(result.conflicts) + 1
  {
    for i := prefix to |artifact.entries|
      invariant forall j :: prefix <= j < i ==> AtPrevious(store.values, artifact.entries[j])
      invariant result.success == old(result.success) && result.reason == old(result.reason)
      invariant result.conflicts == old(result.conflicts)
    {
      var current := store.Get(artifact.entries[i].key);
      if !MatchesPrevious(artifact.entries[i], current) {
        result.Conflict("fallback recovery encountered non-prefix state at key: " + artifact.entries[i].key);
        return false;
      }
    }
    ok := true;
  }

  // ---- Traces ----

  lemma ExtendTrace(trace: seq<System>, first: System, steps: seq<System>)
    requires Unfolds(trace, first)
    requires steps == [] || steps == [Advance(Last(trace))]
      || steps == [Advance(Last(trace)), Advance(Advance(Last(trace)))]
    ensures Unfolds(trace + steps, first)
    ensures Last(trace + steps) == if steps == [] then Last(trace) else Last(steps)
  {
    if steps == [] {
      assert trace + steps == trace;
      return;
    }
    forall i | 0 < i < |trace + steps|
      ensures AdvanceAt(trace + steps, i)
    {
      assert i < |trace| ==> AdvanceAt(trace, i);
    }
  }

  /** Where a resume that leaves the trace `trace` has left the file at `path`. */
  ghost predicate FileFollows(
    files: map<string, Artifact>, before: map<string, Artifact>, path: string, trace: seq<System>)
  {
    if trace == [] || trace[0].process.Stuck? then files == before else files == before[path := Last(trace).file]
  }

  /** Re-synchronising from any artifact puts a well-formed one under the invariant. */
  lemma ResumingGivesInv(s: System)
    requires WellFormed(s.file.entries) && Detect(s.store, s.file.entries) <= |s.file.entries|
    ensures Inv(StartForward(s)) && Inv(StartRollback(s))
  {
    var t := StartForward(s);
    assert if t.file.phase.Committed? then CommittedInv(t) else ForwardInv(t);
    assert RollbackInv(StartRollback(s));
  }

  lemma {:induction false} TraceKeepsInvAt(trace: seq<System>, first: System, i: nat)
    requires Unfolds(trace, first) && Inv(first) && i < |trace|
    ensures Inv(trace[i])
    ensures Untouched(first.file.entries, first.store, trace[i].store)
    ensures trace[i].file == first.file.(phase := trace[i].file.phase, appliedCount := trace[i].file.appliedCount)
  {
    if i > 0 {
      TraceKeepsInvAt(trace, first, i - 1);
      assert AdvanceAt(trace, i);
      AdvanceKeepsInv(trace[i - 1]);
      AdvanceFrame(trace[i - 1]);
      StepKeepsNames(trace[i - 1], trace[i]);
    }
  }

  /** Every state that a process passes through satisfies the crash invariant. */
  lemma TraceKeepsInv(trace: seq<System>, first: System)
    requires Unfolds(trace, first) && Inv(first)
    ensures Inv(Last(trace))
    ensures Untouched(first.file.entries, first.store, Last(trace).store)
    ensures Last(trace).file
      == first.file.(phase := Last(trace).file.phase, appliedCount := Last(trace).file.appliedCount)
    ensures forall i :: 0 <= i < |trace| ==> Inv(trace[i])
  {
    forall i | 0 <= i < |trace|
      ensures Inv(trace[i])
    {
      TraceKeepsInvAt(trace, first, i);
    }
    TraceKeepsInvAt(trace, first, |trace| - 1);
  }

  predicate Live(process: Process) {
    !process.Down? && !process.Stuck?
  }

  lemma LiveAdvances(s: System)
    requires Inv(s) && Live(s.process)
    ensures Live(Advance(s).process)
  {
    match s.process
    case At(mode, i) =>
      if i < |s.file.entries| {
        WriteEntryKeepsInv(s, mode, i);
      }
    case Undoing(c) =>
      if c > 0 {
        UndoKeepsInv(s, c);
      }
    case _ =>
  }

  /** Once past detection on a well-formed artifact, a process never meets a conflict. */
  lemma TraceStaysLive(trace: seq<System>, first: System)
    requires Unfolds(trace, first) && Inv(first) && Live(first.process)
    ensures Live(Last(trace).process)
  {
    StaysLiveAt(trace, first, |trace| - 1);
  }

  lemma {:induction false} StaysLiveAt(trace: seq<System>, first: System, i: nat)
    requires Unfolds(trace, first) && Inv(first) && Live(first.process) && i < |trace|
    ensures Live(trace[i].process)
  {
    if i > 0 {
      StaysLiveAt(trace, first, i - 1);
      TraceKeepsInvAt(trace, first, i - 1);
      assert AdvanceAt(trace, i);
      LiveAdvances(trace[i - 1]);
    }
  }

  lemma {:induction false} StuckStays(trace: seq<System>, first: System, i: nat)
    requires Unfolds(trace, first) && first.process.Stuck? && i < |trace|
    ensures trace[i] == first
  {
    if i > 0 {
      StuckStays(trace, first, i - 1);
      assert AdvanceAt(trace, i);
    }
  }

  // ---- Rolling forward ----

  /** One pass of the forward loop: write entry `i`, then record it. */
  method ForwardEntry(
      artifact: ArtifactRecord, path: string, store: MemoryKVStore, directory: ArtifactDirectory,
      result: RecoveryResult, i: nat, ghost s: System)
    returns (ok: bool, ghost steps: seq<System>)
    requires i < |artifact.entries|
    requires s == System(store.values, artifact.Value(), At(Recovery, i))
    modifies artifact`phase, artifact`appliedCount, store, directory
    modifies result`success, result`reason, result`conflicts, result`rolledForwardWrites
    ensures steps == (if ok then [Advance(s), Advance(Advance(s))] else [Advance(s)])
    ensures store.values == Advance(s).store
    ensures ok ==> Advance(Advance(s)) == System(store.values, artifact.Value(), At(Recovery, i + 1))
    ensures ok ==> directory.files == old(directory.files)[path := artifact.Value()]
    ensures ok ==>
      directory.faults == old(directory.faults) && result.rolledForwardWrites == old(result.rolledForwardWrites) + 1
    ensures ok ==> result.success == old(result.success) && result.conflicts == old(result.conflicts)
    ensures !ok ==> directory.files == old(directory.files) && !result.success && !Advance(s).process.Done?
    ensures !ok && directory.faults == old(directory.faults) ==>
      Advance(s).process.Stuck? && result.conflicts == old(result.conflicts) + 1
    ensures !ok ==> directory.faults >= old(directory.faults)
  {
    var e := artifact.entries[i];
    steps := [Advance(s)];
    var applied := store.PutIfVersion(e.key, e.expectedVersion, e.targetValue);
    if !applied {
      result.Conflict("fallback recovery forward apply failed for key: " + e.key);
      return false, steps;
    }
    artifact.appliedCount := i + 1;
    artifact.phase := Applying;
    var written := directory.Write(path, artifact.Value());
    if !written {
      result.Fail("failed to persist fallback forward progress: " + path);
      return false, steps;
    }
    steps := [Advance(s), Advance(Advance(s))];
    result.rolledForwardWrites := result.rolledForwardWrites + 1;
    ok := true;
  }

  /** The forward loop from entry `from` to the end, and the final record. */
  method ForwardFrom(
      artifact: ArtifactRecord, path: string, store: MemoryKVStore, directory: ArtifactDirectory,
      result: RecoveryResult, from: nat, ghost first: System)
    returns (ok: bool, ghost trace: seq<System>)
    requires from <= |artifact.entries| && artifact.appliedCount == from
    requires first == System(store.values, artifact.Value(), At(Recovery, from))
    requires path in directory.files && directory.files[path] == artifact.Value()
    modifies artifact`phase, artifact`appliedCount, store, directory
    modifies result`success, result`reason, result`conflicts, result`rolledForwardWrites
    ensures Unfolds(trace, first) && store.values == Last(trace).store
    ensures directory.files == old(directory.files)[path := Last(trace).file]
    ensures ok <==> Last(trace).process.Done?
    ensures ok ==> directory.faults == old(directory.faults) && artifact.Value() == Last(trace).file
    ensures ok ==> Last(trace).file == first.file.(phase := Committed, appliedCount := |artifact.entries|)
    ensures ok ==> result.success == old(result.success) && result.conflicts == old(result.conflicts)
    ensures ok ==> result.rolledForwardWrites == old(result.rolledForwardWrites) + |artifact.entries| - from
    ensures !ok ==> !result.success
    ensures !ok && directory.faults == old(directory.faults) ==>
      Last(trace).process.Stuck? && result.conflicts == old(result.conflicts) + 1
  {
    trace := [first];
    for i := from to |artifact.entries|
      invariant Unfolds(trace, first)
      invariant Last(trace) == System(store.values, artifact.Value(), At(Recovery, i))
      invariant artifact.Value() == old(artifact.Value()).(phase := artifact.phase, appliedCount := i)
      invariant directory.files == old(directory.files)[path := artifact.Value()]
      invariant directory.faults == old(directory.faults)
      invariant result.success == old(result.success) && result.conflicts == old(result.conflicts)
      invariant result.rolledForwardWrites == old(result.rolledForwardWrites) + i - from
    {
      ghost var s := Last(trace);
      ghost var steps: seq<System>;
      ok, steps := ForwardEntry(artifact, path, store, directory, result, i, s);
      ExtendTrace(trace, first, steps);
      trace := trace + steps;
      if !ok {
        return false, trace;
      }
    }
    artifact.phase := Committed;
    var written := directory.Write(path, artifact.Value());
    if !written {
      result.Fail("failed to persist fallback committed state: " + path);
      return false, trace;
    }
    ExtendTrace(trace, first, [Advance(Last(trace))]);
    trace := trace + [Advance(Last(trace))];
    ok := true;
  }

  /** Rolls a commit forward: the machine's recovery steps, in order, and nothing else. It fails on a
      conflict (the trace ends in `Stuck`) or on a failed artifact write. */
  method ResumeForwardFallbackCommit(
      artifact: ArtifactRecord, path: string, store: MemoryKVStore, directory: ArtifactDirectory,
      result: RecoveryResult)
    returns (ok: bool, ghost trace: seq<System>)
    modifies artifact`phase, artifact`appliedCount, store, directory
    modifies result`success, result`reason, result`conflicts, result`rolledForwardWrites
    ensures trace == [] ==> store.values == old(store.values) && directory.faults > old(directory.faults)
    ensures trace != [] ==> Unfolds(trace, StartForward(System(old(store.values), old(artifact.Value()), Down)))
    ensures trace != [] ==> store.values == Last(trace).store
    ensures FileFollows(directory.files, old(directory.files), path, trace)
    ensures ok <==> trace != [] && Last(trace).process.Done?
    ensures ok ==> directory.faults == old(directory.faults) && artifact.Value() == Last(trace).file
    ensures ok ==> Last(trace).file == old(artifact.Value()).(phase := Committed, appliedCount := |artifact.entries|)
    ensures ok ==> result.success == old(result.success) && result.conflicts == old(result.conflicts)
    ensures ok ==> result.rolledForwardWrites - old(result.rolledForwardWrites)
                   == |artifact.entries| - Detect(old(store.values), artifact.entries)
    ensures trace != [] && trace[0].process.Stuck? ==> result.rolledForwardWrites == old(result.rolledForwardWrites)
    ensures !ok ==> !result.success
    ensures !ok && directory.faults == old(directory.faults) ==>
      trace != [] && Last(trace).process.Stuck? && result.conflicts == old(result.conflicts) + 1
  {
    ghost var first := StartForward(System(store.values, artifact.Value(), Down));
    var committedPrefix := DetectCommittedPrefix(artifact, store, result);
    if committedPrefix > |artifact.entries| {
      return false, [first];
    }
    var written := RecordPrefix(artifact, path, committedPrefix, directory, result);
    if !written {
      return false, [];
    }
    ok, trace := ForwardFrom(artifact, path, store, directory, result, committedPrefix, first);
  }

  /** Records how much of the commit has been written. */
  method RecordPrefix(
      artifact: ArtifactRecord, path: string, prefix: nat, directory: ArtifactDirectory, result: RecoveryResult)
    returns (ok: bool)
    requires prefix <= |artifact.entries|
    modifies artifact`phase, artifact`appliedCount, directory, result`success, result`reason
    ensures artifact.Value() == old(artifact.Value()).(
      appliedCount := prefix, phase := if prefix == |artifact.entries| then Committed else Applying)
    ensures if ok
      then directory.files == old(directory.files)[path := artifact.Value()]
        && directory.faults == old(directory.faults)
           && result.success == old(result.success)
      else directory.files == old(directory.files) && directory.faults == old(directory.faults) + 1 && !result.success
  {
    artifact.appliedCount := prefix;
    artifact.phase := if prefix == |artifact.entries| then Committed else Applying;
    ok := directory.Write(path, artifact.Value());
    if !ok {
      result.Fail("failed to persist fallback forward state: " + path);
    }
  }

  // ---- Rolling back ----

  /** One pass of the rollback loop: undo the last applied entry and record it. */
  method UndoLast(
      artifact: ArtifactRecord, path: string, store: MemoryKVStore, directory: ArtifactDirectory,
      result: RecoveryResult, ghost s: System)
    returns (ok: bool, ghost steps: seq<System>)
    requires 0 < artifact.appliedCount <= |artifact.entries|
    requires s == System(store.values, artifact.Value(), Undoing(artifact.appliedCount))
    modifies artifact`appliedCount, store, directory
    modifies result`success, result`reason, result`conflicts, result`rolledBackWrites
    ensures steps == [] || steps == [Advance(s)] || steps == [Advance(s), Advance(Advance(s))]
    ensures steps == [] ==> store.values == s.store && !ok
    ensures steps != [] ==> store.values == Last(steps).store && !Last(steps).process.Done?
    ensures ok ==> Last(steps) == System(store.values, artifact.Value(), Undoing(artifact.appliedCount))
    ensures ok ==> artifact.appliedCount == old(artifact.appliedCount) - 1
    ensures ok ==> directory.files == old(directory.files)[path := artifact.Value()]
    ensures ok ==> directory.faults == old(directory.faults)
    ensures ok ==> result.rolledBackWrites - old(result.rolledBackWrites)
                   == if AtPrevious(s.store, s.file.entries[s.file.appliedCount - 1]) then 0 else 1
    ensures ok ==> result.success == old(result.success) && result.conflicts == old(result.conflicts)
    ensures !ok ==> directory.files == old(directory.files) && !result.success
    ensures !ok ==> steps == [] || Last(steps).file == s.file
    ensures !ok && directory.faults == old(directory.faults) ==>
      steps != [] && Last(steps).process.Stuck? && result.conflicts == old(result.conflicts) + 1
  {
    var e := artifact.entries[artifact.appliedCount - 1];
    var current := store.Get(e.key);
    if MatchesPrevious(e, current) {
      ok := RecordUndo(artifact, path, directory, result);
      return ok, if ok then [Advance(s)] else [];
    }
    steps := [Advance(s)];
    if !MatchesTarget(e, current) {
      result.Conflict("fallback recovery conflict for key: " + e.key);
      return false, steps;
    }
    var undone := UndoWriteOf(e, store);
    if !undone {
      result.Conflict("fallback recovery rollback failed for key: " + e.key);
      return false, steps;
    }
    ok := RecordUndo(artifact, path, directory, result);
    if !ok {
      return false, steps;
    }
    steps := [Advance(s), Advance(Advance(s))];
    result.rolledBackWrites := result.rolledBackWrites + 1;
  }

  method UndoWriteOf(e: CommitEntry, store: MemoryKVStore) returns (ok: bool)
    modifies store
    ensures Effect(store.values, ok) == UndoEntry(old(store.values), e)
  {
    if e.previousExists {
      ok := store.PutIfVersion(e.key, e.previousVersion + 1, e.previousValue);
    } else {
      ok := store.DeleteIfVersion(e.key, e.expectedVersion + 1);
    }
  }

  /** Records that one write less is applied. */
  method RecordUndo(artifact: ArtifactRecord, path: string, directory: ArtifactDirectory, result: RecoveryResult)
    returns (ok: bool)
    requires artifact.appliedCount > 0
    modifies artifact`appliedCount, directory, result`success, result`reason
    ensures artifact.Value() == old(artifact.Value()).(appliedCount := old(artifact.appliedCount) - 1)
    ensures if ok
      then directory.files == old(directory.files)[path := artifact.Value()]
        && directory.faults == old(directory.faults)
           && result.success == old(result.success)
      else directory.files == old(directory.files) && directory.faults == old(directory.faults) + 1 && !result.success
  {
    artifact.appliedCount := artifact.appliedCount - 1;
    ok := directory.Write(path, artifact.Value());
    if !ok {
      result.Fail("failed to persist fallback rollback progress: " + path);
    }
  }

  /** The rollback loop. On an artifact as `WellFormed` as preparation makes it every pass really undoes a
      write: none finds its entry already at its old value. */
  method UndoEach(
      artifact: ArtifactRecord, path: string, store: MemoryKVStore, directory: ArtifactDirectory,
      result: RecoveryResult, ghost first: System)
    returns (ok: bool, ghost trace: seq<System>)
    requires artifact.appliedCount <= |artifact.entries|
    requires first == System(store.values, artifact.Value(), Undoing(artifact.appliedCount))
    requires path in directory.files && directory.files[path] == artifact.Value()
    modifies artifact`appliedCount, store, directory
    modifies result`success, result`reason, result`conflicts, result`rolledBackWrites
    ensures Unfolds(trace, first) && store.values == Last(trace).store && !Last(trace).process.Done?
    ensures directory.files == old(directory.files)[path := Last(trace).file]
    ensures ok ==> Last(trace) == System(store.values, artifact.Value(), Undoing(0))
    ensures ok ==> artifact.Value() == first.file.(appliedCount := 0) && directory.faults == old(directory.faults)
    ensures ok ==> result.success == old(result.success) && result.conflicts == old(result.conflicts)
    ensures ok && Inv(first) ==>
      result.rolledBackWrites == old(result.rolledBackWrites) + first.file.appliedCount
    ensures !ok ==> !result.success
    ensures !ok && directory.faults == old(directory.faults) ==>
      Last(trace).process.Stuck? && result.conflicts == old(result.conflicts) + 1
  {
    trace := [first];
    while artifact.appliedCount > 0
      invariant Unfolds(trace, first) && artifact.appliedCount <= first.file.appliedCount
      invariant Last(trace) == System(store.values, artifact.Value(), Undoing(artifact.appliedCount))
      invariant artifact.Value() == first.file.(appliedCount := artifact.appliedCount)
      invariant directory.files == old(directory.files)[path := artifact.Value()]
      invariant directory.faults == old(directory.faults)
      invariant result.success == old(result.success) && result.conflicts == old(result.conflicts)
      invariant Inv(first) ==>
        result.rolledBackWrites == old(result.rolledBackWrites) + first.file.appliedCount - artifact.appliedCount
    {
      ghost var s := Last(trace);
      ghost var steps: seq<System>;
      if Inv(first) {
        NothingAlreadyUndone(trace, first);
      }
      ok, steps := UndoLast(artifact, path, store, directory, result, s);
      ExtendTrace(trace, first, steps);
      trace := trace + steps;
      if !ok {
        return false, trace;
      }
    }
    ok := true;
  }

  /** The rollback loop and the final record. */
  method UndoAll(
      artifact: ArtifactRecord, path: string, store: MemoryKVStore, directory: ArtifactDirectory,
      result: RecoveryResult, ghost first: System)
    returns (ok: bool, ghost trace: seq<System>)
    requires artifact.appliedCount <= |artifact.entries|
    requires first == System(store.values, artifact.Value(), Undoing(artifact.appliedCount))
    requires path in directory.files && directory.files[path] == artifact.Value()
    modifies artifact`phase, artifact`appliedCount, store, directory
    modifies result`success, result`reason, result`conflicts, result`rolledBackWrites
    ensures Unfolds(trace, first) && store.values == Last(trace).store
    ensures directory.files == old(directory.files)[path := Last(trace).file]
    ensures ok <==> Last(trace).process.Done?
    ensures ok ==> directory.faults == old(directory.faults) && artifact.Value() == Last(trace).file
    ensures ok ==> Last(trace).file == first.file.(phase := RolledBack, appliedCount := 0)
    ensures ok ==> result.success == old(result.success) && result.conflicts == old(result.conflicts)
    ensures ok && Inv(first) ==>
      result.rolledBackWrites == old(result.rolledBackWrites) + first.file.appliedCount
    ensures !ok ==> !result.success
    ensures !ok && directory.faults == old(directory.faults) ==>
      Last(trace).process.Stuck? && result.conflicts == old(result.conflicts) + 1
  {
    ok, trace := UndoEach(artifact, path, store, directory, result, first);
    if !ok {
      return;
    }
    ok := RecordRolledBack(artifact, path, directory, result);
    if ok {
      ExtendTrace(trace, first, [Advance(Last(trace))]);
      trace := trace + [Advance(Last(trace))];
    }
  }

  /** Records that everything is undone. */
  method RecordRolledBack(artifact: ArtifactRecord, path: string, directory: ArtifactDirectory, result: RecoveryResult)
    returns (ok: bool)
    modifies artifact`phase, directory, result`success, result`reason
    ensures artifact.Value() == old(artifact.Value()).(phase := RolledBack)
    ensures if ok
      then directory.files == old(directory.files)[path := artifact.Value()]
        && directory.faults == old(directory.faults)
           && result.success == old(result.success)
      else directory.files == old(directory.files) && directory.faults == old(directory.faults) + 1 && !result.success
  {
    artifact.phase := RolledBack;
    ok := directory.Write(path, artifact.Value());
    if !ok {
      result.Fail("failed to persist fallback terminal state: " + path);
    }
  }

  /** The branch of the rollback loop for an entry that is already at its old value is never taken. */
  lemma NothingAlreadyUndone(trace: seq<System>, first: System)
    requires Unfolds(trace, first) && Inv(first)
    requires Last(trace).process.Undoing? && Last(trace).process.c > 0
    ensures Last(trace).process.c <= |first.file.entries|
    ensures !AtPrevious(Last(trace).store, first.file.entries[Last(trace).process.c - 1])
  {
    TraceKeepsInv(trace, first);
    var s := Last(trace);
    assert RollbackInv(s);
    UndoingShrinksPrefix(s.store, s.file.entries, s.process.c);
  }

  /** Rolls a commit back: the machine's rollback steps, in order, and nothing else. */
  method ResumeRollbackFallbackCommit(
      artifact: ArtifactRecord, path: string, store: MemoryKVStore, directory: ArtifactDirectory,
      result: RecoveryResult)
    returns (ok: bool, ghost trace: seq<System>)
    modifies artifact`phase, artifact`appliedCount, store, directory
    modifies result`success, result`reason, result`conflicts, result`rolledBackWrites
    ensures trace == [] ==> store.values == old(store.values) && directory.faults > old(directory.faults)
    ensures trace != [] ==> Unfolds(trace, StartRollback(System(old(store.values), old(artifact.Value()), Down)))
    ensures trace != [] ==> store.values == Last(trace).store
    ensures FileFollows(directory.files, old(directory.files), path, trace)
    ensures ok <==> trace != [] && Last(trace).process.Done?
    ensures ok ==> directory.faults == old(directory.faults) && artifact.Value() == Last(trace).file
    ensures ok ==> Last(trace).file == old(artifact.Value()).(phase := RolledBack, appliedCount := 0)
    ensures ok ==> result.success == old(result.success) && result.conflicts == old(result.conflicts)
    ensures ok && Inv(trace[0]) ==>
      result.rolledBackWrites == old(result.rolledBackWrites) + Detect(old(store.values), artifact.entries)
    ensures trace != [] && trace[0].process.Stuck? ==> result.rolledBackWrites == old(result.rolledBackWrites)
    ensures !ok ==> !result.success
    ensures !ok && directory.faults == old(directory.faults) ==>
      trace != [] && Last(trace).process.Stuck? && result.conflicts == old(result.conflicts) + 1
  {
    ghost var first := StartRollback(System(store.values, artifact.Value(), Down));
    var committedPrefix := DetectCommittedPrefix(artifact, store, result);
    if committedPrefix > |artifact.entries| {
      return false, [first];
    }
    artifact.appliedCount := committedPrefix;
    artifact.phase := RollingBack;
    var written := directory.Write(path, artifact.Value());
    if !written {
      result.Fail("failed to persist fallback rollback state: " + path);
      return false, [];
    }
    ok, trace := UndoAll(artifact, path, store, directory, result, first);
  }
}
