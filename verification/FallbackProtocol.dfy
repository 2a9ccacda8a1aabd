/** The fallback commit as a machine over its durable state.

    A `System` is the store, the artifact on disk and where the one process working on them stands.
    `Advance` performs the process's next durable effect: one store write or one artifact write. A
    step is that, a crash (the process forgets everything), or foreign work on other keys. The
    theorems are about every run, so they cover a crash after each single durable effect, crashes
    inside recovery, and any number of them.
  */
module FallbackProtocol {
  import opened KvStore
  import opened FallbackLog

  // ---- Reading the store through an artifact ----

  predicate MatchesTarget(e: CommitEntry, current: VersionedValue) {
    current.present && current.version == e.expectedVersion + 1 && current.value == e.targetValue
  }

  predicate MatchesPrevious(e: CommitEntry, current: VersionedValue) {
    if !e.previousExists then
      !current.present && current.version == 0
    else
      current.present && current.version == e.previousVersion && current.value == e.previousValue
  }

  predicate AtTarget(m: Values, e: CommitEntry) { MatchesTarget(e, Lookup(m, e.key)) }

  predicate AtPrevious(m: Values, e: CommitEntry) { MatchesPrevious(e, Lookup(m, e.key)) }

  /** An existing key that was written and then restored: old value, two versions later. */
  predicate Restored(m: Values, e: CommitEntry) {
    e.previousExists && Lookup(m, e.key) == VersionedValue(e.previousValue, e.previousVersion + 2, true)
  }

  /** The key holds what it held before the commit, existence included. */
  predicate Settled(m: Values, e: CommitEntry) {
    AtPrevious(m, e) || Restored(m, e)
  }

  /** How many leading entries are at their target. */
  function TargetPrefix(m: Values, entries: seq<CommitEntry>): (k: nat)
    ensures k <= |entries|
    ensures forall i :: 0 <= i < k ==> AtTarget(m, entries[i])
    ensures k < |entries| ==> !AtTarget(m, entries[k])
  {
    if entries == [] || !AtTarget(m, entries[0]) then 0 else 1 + TargetPrefix(m, entries[1..])
  }

  /** Exactly the first `k` entries are written. */
  predicate PrefixState(m: Values, entries: seq<CommitEntry>, k: nat) {
    && k <= |entries|
    && (forall i :: 0 <= i < k ==> AtTarget(m, entries[i]))
    && (forall i :: k <= i < |entries| ==> AtPrevious(m, entries[i]))
  }

  /** What recovery reads off the store; `|entries| + 1` reports a conflict. */
  function Detect(m: Values, entries: seq<CommitEntry>): nat {
    var k := TargetPrefix(m, entries);
    if PrefixState(m, entries, k) then k else |entries| + 1
  }

  /** What preparing the artifact establishes: one entry a key, recorded when the key was at its
      expected version. */
  ghost predicate WellFormed(entries: seq<CommitEntry>) {
    && (forall i, j :: 0 <= i < j < |entries| ==> entries[i].key != entries[j].key)
    && (forall e <- entries :: e.expectedVersion == e.previousVersion && (!e.previousExists ==> e.previousVersion == 0))
  }

  lemma TargetPrefixIs(m: Values, entries: seq<CommitEntry>, k: nat)
    requires k <= |entries|
    requires forall i :: 0 <= i < k ==> AtTarget(m, entries[i])
    requires k < |entries| ==> !AtTarget(m, entries[k])
    ensures TargetPrefix(m, entries) == k
  {
  }

  lemma SettledIsNotTarget(m: Values, entries: seq<CommitEntry>, i: nat)
    requires WellFormed(entries) && i < |entries| && Settled(m, entries[i])
    ensures !AtTarget(m, entries[i])
  {
    assert entries[i] in entries;
  }

  /** Detection finds `k` exactly when the store is the one in which the first `k` writes happened;
      so that `k` is unique. The count stored in the artifact plays no part. */
  lemma DetectExact(m: Values, entries: seq<CommitEntry>, k: nat)
    requires WellFormed(entries) && k <= |entries|
    ensures Detect(m, entries) == k <==> PrefixState(m, entries, k)
  {
    if PrefixState(m, entries, k) {
      if k < |entries| {
        assert Settled(m, entries[k]);
        SettledIsNotTarget(m, entries, k);
      }
      TargetPrefixIs(m, entries, k);
    }
  }

  // ---- The machine ----

  /** The first attempt refuses a key that does not exist; recovery creates it. */
  datatype Mode = FirstAttempt | Recovery

  datatype Process =
    | Down                       // crashed, or not started
    | Stuck                      // gave up on a conflict
    | At(mode: Mode, i: nat)     // about to write entry i
    | Wrote(mode: Mode, i: nat)  // wrote entry i, about to record it
    | Turning                    // about to start a rollback
    | Undoing(c: nat)            // about to undo entry c - 1
    | Undid(c: nat)              // undid entry c - 1, about to record it
    | Done

  datatype System = System(store: Values, file: Artifact, process: Process)

  function StartForward(s: System): System {
    var n := |s.file.entries|;
    var k := Detect(s.store, s.file.entries);
    if k > n then
      s.(process := Stuck)
    else
      s.(file := s.file.(appliedCount := k, phase := if k == n then Committed else Applying),
         process := At(Recovery, k))
  }

  function StartRollback(s: System): System {
    var k := Detect(s.store, s.file.entries);
    if k > |s.file.entries| then
      s.(process := Stuck)
    else
      s.(file := s.file.(appliedCount := k, phase := RollingBack), process := Undoing(k))
  }

  function Restart(s: System): System {
    match s.file.phase
    case Committed => s
    case RolledBack => s
    case RollingBack => StartRollback(s)
    case _ => StartForward(s)
  }

  function WriteEntry(s: System, mode: Mode, i: nat): System
    requires i < |s.file.entries|
  {
    var e := s.file.entries[i];
    var current := Lookup(s.store, e.key);
    if mode.FirstAttempt? && (current.version != e.expectedVersion || !current.present) then
      s.(process := Turning)
    else
      var effect := PutIf(s.store, e.key, e.expectedVersion, e.targetValue);
      s.(store := effect.values,
         process := if effect.ok then Wrote(mode, i) else if mode.FirstAttempt? then Turning else Stuck)
  }

  function UndoEntry(m: Values, e: CommitEntry): Effect {
    if e.previousExists then
      PutIf(m, e.key, e.previousVersion + 1, e.previousValue)
    else
      DeleteIf(m, e.key, e.expectedVersion + 1)
  }

  function Undo(s: System, c: nat): System
    requires 0 < c <= |s.file.entries|
  {
    var e := s.file.entries[c - 1];
    if AtPrevious(s.store, e) then
      s.(file := s.file.(appliedCount := c - 1), process := Undoing(c - 1))
    else if !AtTarget(s.store, e) then
      s.(process := Stuck)
    else
      var effect := UndoEntry(s.store, e);
      s.(store := effect.values, process := if effect.ok then Undid(c) else Stuck)
  }

  /** The next durable effect of the process. */
  function Advance(s: System): System {
    match s.process
    case Down => Restart(s)
    case Stuck => s
    case Done => s
    case At(mode, i) =>
      if i < |s.file.entries| then WriteEntry(s, mode, i) else s.(file := s.file.(phase := Committed), process := Done)
    case Wrote(mode, i) => s.(file := s.file.(appliedCount := i + 1, phase := Applying), process := At(mode, i + 1))
    case Turning => StartRollback(s)
    case Undoing(c) =>
      if 0 < c <= |s.file.entries| then Undo(s, c) else s.(file := s.file.(phase := RolledBack), process := Done)
    case Undid(c) => if c == 0 then s else s.(file := s.file.(appliedCount := c - 1), process := Undoing(c - 1))
  }

  /** Anyone may change any key the artifact does not name. */
  ghost predicate Foreign(s: System, t: System) {
    && t == s.(store := t.store)
    && forall e <- s.file.entries :: Lookup(t.store, e.key) == Lookup(s.store, e.key)
  }

  ghost predicate Step(s: System, t: System) {
    t == Advance(s) || t == s.(process := Down) || Foreign(s, t)
  }

  /** The state right after the prepared artifact reached the disk. */
  ghost predicate Init(s: System) {
    && WellFormed(s.file.entries)
    && s.file.phase == Prepared && s.file.appliedCount == 0
    && s.process == At(FirstAttempt, 0)
    && PrefixState(s.store, s.file.entries, 0)
  }

  ghost predicate IsRun(run: seq<System>) {
    && run != []
    && Init(run[0])
    && forall i :: 0 < i < |run| ==> StepAt(run, i)
  }

  ghost predicate StepAt(run: seq<System>, i: nat)
    requires 0 < i < |run|
  {
    Step(run[i - 1], run[i])
  }

  // ---- The invariant ----

  /** While the durable phase is PREPARED or APPLYING the store is in a prefix state, and the durable
      count is right or one behind. */
  ghost predicate ForwardInv(s: System) {
    var k := TargetPrefix(s.store, s.file.entries);
    var count := s.file.appliedCount;
    && PrefixState(s.store, s.file.entries, k)
    && count <= k <= count + 1
    && (s.file.phase.Prepared? ==> count == 0)
    && match s.process
       case Down => true
       case At(_, i) => i == k == count
       case Wrote(_, i) => i == count && k == i + 1
       case Turning => k == count
       case _ => false
  }

  ghost predicate CommittedInv(s: System) {
    && PrefixState(s.store, s.file.entries, |s.file.entries|)
    && s.file.appliedCount == |s.file.entries|
    && (s.process.Down? || s.process.Done? || s.process == At(Recovery, |s.file.entries|))
  }

  /** During a rollback the entries past the written prefix hold their old content again. */
  ghost predicate RollbackInv(s: System) {
    var k := TargetPrefix(s.store, s.file.entries);
    var count := s.file.appliedCount;
    && k <= count <= k + 1
    && count <= |s.file.entries|
    && (forall i :: k <= i < |s.file.entries| ==> Settled(s.store, s.file.entries[i]))
    && match s.process
       case Down => true
       case Stuck => true
       case Undoing(c) => c == count == k
       case Undid(c) => c == count == k + 1
       case _ => false
  }

  ghost predicate RolledBackInv(s: System) {
    && s.file.appliedCount == 0
    && (forall e <- s.file.entries :: Settled(s.store, e))
    && (s.process.Down? || s.process.Done?)
  }

  ghost predicate Inv(s: System) {
    && WellFormed(s.file.entries)
    && match s.file.phase
       case Committed => CommittedInv(s)
       case RollingBack => RollbackInv(s)
       case RolledBack => RolledBackInv(s)
       case _ => ForwardInv(s)
  }

  lemma PutExtendsPrefix(m: Values, entries: seq<CommitEntry>, k: nat)
    requires WellFormed(entries) && k < |entries| && PrefixState(m, entries, k)
    ensures var effect := PutIf(m, entries[k].key, entries[k].expectedVersion, entries[k].targetValue);
      effect.ok && PrefixState(effect.values, entries, k + 1)
  {
    var e := entries[k];
    assert e in entries && AtPrevious(m, e);
    var m' := PutIf(m, e.key, e.expectedVersion, e.targetValue).values;
    forall i | 0 <= i < |entries| && i != k
      ensures Lookup(m', entries[i].key) == Lookup(m, entries[i].key)
    {
    }
  }

  lemma WritingExtendsPrefix(m: Values, entries: seq<CommitEntry>, k: nat)
    requires WellFormed(entries) && k < |entries| && PrefixState(m, entries, k)
    ensures var effect := PutIf(m, entries[k].key, entries[k].expectedVersion, entries[k].targetValue);
      effect.ok && PrefixState(effect.values, entries, k + 1) && TargetPrefix(effect.values, entries) == k + 1
  {
    PutExtendsPrefix(m, entries, k);
    DetectExact(PutIf(m, entries[k].key, entries[k].expectedVersion, entries[k].targetValue).values, entries, k + 1);
  }

  lemma UndoEntrySettles(m: Values, e: CommitEntry)
    requires AtTarget(m, e)
    requires e.expectedVersion == e.previousVersion && (!e.previousExists ==> e.previousVersion == 0)
    ensures !AtPrevious(m, e)
    ensures var effect := UndoEntry(m, e);
      && effect.ok
      && Settled(effect.values, e)
      && (AtPrevious(effect.values, e) <==> !e.previousExists)
      && forall key :: key != e.key ==> Lookup(effect.values, key) == Lookup(m, key)
  {
  }

  lemma OtherEntriesKeep(m: Values, m': Values, entries: seq<CommitEntry>, k: nat)
    requires WellFormed(entries) && k < |entries|
    requires forall key :: key != entries[k].key ==> Lookup(m', key) == Lookup(m, key)
    ensures forall i :: 0 <= i < |entries| && i != k ==>
      && AtTarget(m', entries[i]) == AtTarget(m, entries[i])
      && AtPrevious(m', entries[i]) == AtPrevious(m, entries[i])
      && Restored(m', entries[i]) == Restored(m, entries[i])
  {
  }

  lemma UndoingShrinksPrefix(m: Values, entries: seq<CommitEntry>, k: nat)
    requires WellFormed(entries) && 0 < k <= |entries|
    requires forall i :: 0 <= i < k ==> AtTarget(m, entries[i])
    requires forall i :: k <= i < |entries| ==> Settled(m, entries[i])
    ensures !AtPrevious(m, entries[k - 1])
    ensures var effect := UndoEntry(m, entries[k - 1]);
      && effect.ok
      && TargetPrefix(effect.values, entries) == k - 1
      && (forall i :: 0 <= i < k - 1 ==> AtTarget(effect.values, entries[i]))
      && (forall i :: k - 1 <= i < |entries| ==> Settled(effect.values, entries[i]))
      && (AtPrevious(effect.values, entries[k - 1]) <==> !entries[k - 1].previousExists)
      && (forall i :: k <= i < |entries| ==> AtPrevious(effect.values, entries[i]) == AtPrevious(m, entries[i]))
  {
    var e := entries[k - 1];
    assert e in entries && AtTarget(m, e);
    var m' := UndoEntry(m, e).values;
    UndoEntrySettles(m, e);
    OtherEntriesKeep(m, m', entries, k - 1);
    SettledIsNotTarget(m', entries, k - 1);
    TargetPrefixIs(m', entries, k - 1);
  }

  lemma StartRollbackKeepsInv(s: System)
    requires Inv(s) && (s.process.Turning? || (s.process.Down? && s.file.phase.RollingBack?))
    ensures Inv(StartRollback(s))
  {
    if Detect(s.store, s.file.entries) <= |s.file.entries| {
      var t := StartRollback(s);
      assert t.file.phase.RollingBack? && RollbackInv(t);
    }
  }

  lemma StartForwardKeepsInv(s: System)
    requires Inv(s) && s.process.Down? && (s.file.phase.Prepared? || s.file.phase.Applying?)
    ensures Inv(StartForward(s)) && StartForward(s).process.At?
  {
    var t := StartForward(s);
    assert if t.file.phase.Committed? then CommittedInv(t) else ForwardInv(t);
  }

  lemma WriteEntryKeepsInv(s: System, mode: Mode, i: nat)
    requires Inv(s) && s.process == At(mode, i) && i < |s.file.entries|
    ensures Inv(WriteEntry(s, mode, i))
    ensures WriteEntry(s, mode, i).process ==
      if mode.FirstAttempt? && !s.file.entries[i].previousExists then Turning else Wrote(mode, i)
  {
    var e := s.file.entries[i];
    assert e in s.file.entries && AtPrevious(s.store, e);
    WritingExtendsPrefix(s.store, s.file.entries, i);
    assert ForwardInv(WriteEntry(s, mode, i));
  }

  lemma UndoKeepsInv(s: System, c: nat)
    requires Inv(s) && s.process == Undoing(c) && c > 0
    ensures Inv(Undo(s, c)) && Undo(s, c).process == Undid(c) && Undo(s, c).file == s.file
    ensures Undo(s, c).store == UndoEntry(s.store, s.file.entries[c - 1]).values
  {
    assert RollbackInv(s);
    UndoingShrinksPrefix(s.store, s.file.entries, c);
    UndoIs(s, c);
  }

  lemma UndoIs(s: System, c: nat)
    requires 0 < c <= |s.file.entries|
    requires !AtPrevious(s.store, s.file.entries[c - 1]) && AtTarget(s.store, s.file.entries[c - 1])
    requires UndoEntry(s.store, s.file.entries[c - 1]).ok
    ensures Undo(s, c) == s.(store := UndoEntry(s.store, s.file.entries[c - 1]).values, process := Undid(c))
  {
  }

  lemma AllSettled(s: System)
    requires Inv(s) && s.process == Undoing(0)
    ensures Advance(s) == s.(file := s.file.(phase := RolledBack, appliedCount := 0), process := Done)
    ensures forall e <- s.file.entries :: Settled(s.store, e)
  {
    assert RollbackInv(s);
    forall e <- s.file.entries
      ensures Settled(s.store, e)
    {
      var i :| 0 <= i < |s.file.entries| && s.file.entries[i] == e;
    }
  }

  lemma RecordKeepsInv(s: System)
    requires Inv(s)
    requires s.process.Wrote? || s.process.Undid? || (s.process.At? && s.process.i >= |s.file.entries|)
    ensures Inv(Advance(s))
  {
    var t := Advance(s);
    match s.process
    case Wrote(_, i) => assert ForwardInv(t);
    case Undid(c) => assert RollbackInv(t);
    case At(_, i) => assert CommittedInv(t);
  }

  lemma AdvanceKeepsInv(s: System)
    requires Inv(s)
    ensures Inv(Advance(s))
  {
    match s.process
    case Down =>
      match s.file.phase {
        case RollingBack => StartRollbackKeepsInv(s);
        case Committed =>
        case RolledBack =>
        case _ => StartForwardKeepsInv(s);
      }
    case Stuck =>
    case Done =>
    case Turning => StartRollbackKeepsInv(s);
    case At(mode, i) =>
      if i < |s.file.entries| {
        WriteEntryKeepsInv(s, mode, i);
      } else {
        RecordKeepsInv(s);
      }
    case Undoing(c) =>
      if c > 0 {
        UndoKeepsInv(s, c);
      } else {
        AllSettled(s);
        assert RolledBackInv(Advance(s));
      }
    case _ => RecordKeepsInv(s);
  }

  lemma {:induction false} TargetPrefixFrame(m: Values, m': Values, entries: seq<CommitEntry>)
    requires forall e <- entries :: Lookup(m', e.key) == Lookup(m, e.key)
    ensures TargetPrefix(m', entries) == TargetPrefix(m, entries)
  {
    if entries != [] {
      assert entries[0] in entries;
      TargetPrefixFrame(m, m', entries[1..]);
    }
  }

  lemma SameLookupsSameState(m: Values, m': Values, entries: seq<CommitEntry>)
    requires forall e <- entries :: Lookup(m', e.key) == Lookup(m, e.key)
    ensures forall i :: 0 <= i < |entries| ==>
      && AtTarget(m', entries[i]) == AtTarget(m, entries[i])
      && AtPrevious(m', entries[i]) == AtPrevious(m, entries[i])
      && Restored(m', entries[i]) == Restored(m, entries[i])
  {
    forall i | 0 <= i < |entries|
      ensures Lookup(m', entries[i].key) == Lookup(m, entries[i].key)
    {
      assert entries[i] in entries;
    }
  }

  lemma ForeignKeepsInv(s: System, t: System)
    requires Inv(s) && Foreign(s, t)
    ensures Inv(t)
  {
    TargetPrefixFrame(s.store, t.store, s.file.entries);
    SameLookupsSameState(s.store, t.store, s.file.entries);
    match s.file.phase
    case Committed => assert CommittedInv(t);
    case RollingBack => assert RollbackInv(t);
    case RolledBack => assert RolledBackInv(t);
    case _ => assert ForwardInv(t);
  }

  lemma StepKeepsInv(s: System, t: System)
    requires Inv(s) && Step(s, t)
    ensures Inv(t)
  {
    if t == Advance(s) {
      AdvanceKeepsInv(s);
    } else if Foreign(s, t) {
      ForeignKeepsInv(s, t);
    }
  }

  /** Steps change only the phase and the count of the artifact. */
  lemma StepKeepsNames(s: System, t: System)
    requires Inv(s) && Step(s, t)
    ensures t.file == s.file.(phase := t.file.phase, appliedCount := t.file.appliedCount)
  {
  }

  lemma StepKeepsTerminal(s: System, t: System)
    requires Inv(s) && Step(s, t) && Terminal(s.file.phase)
    ensures t.file == s.file
  {
    if s.file.phase.Committed? {
      assert CommittedInv(s);
    } else {
      assert RolledBackInv(s);
    }
  }

  // ---- The theorems ----

  /** Every state of every run satisfies the invariant, and the artifact always names the same
      transaction and entries. */
  lemma {:induction false} RunKeepsInv(run: seq<System>, i: nat)
    requires IsRun(run) && i < |run|
    ensures Inv(run[i])
    ensures run[i].file == run[0].file.(phase := run[i].file.phase, appliedCount := run[i].file.appliedCount)
  {
    if i == 0 {
      DetectExact(run[0].store, run[0].file.entries, 0);
    } else {
      RunKeepsInv(run, i - 1);
      assert StepAt(run, i);
      StepKeepsInv(run[i - 1], run[i]);
      StepKeepsNames(run[i - 1], run[i]);
    }
  }

  /** The prefix property over all runs: as long as the durable phase is PREPARED or APPLYING, the
      store holds exactly the first `k` writes, the durable count is `k` or `k - 1`, detection
      finds that `k`, and nobody is stuck. */
  lemma PrefixInEveryRun(run: seq<System>, i: nat)
    requires IsRun(run) && i < |run|
    requires run[i].file.phase.Prepared? || run[i].file.phase.Applying?
    ensures var k := Detect(run[i].store, run[i].file.entries);
      && PrefixState(run[i].store, run[i].file.entries, k)
      && (run[i].file.appliedCount == k || run[i].file.appliedCount == k - 1)
      && !run[i].process.Stuck?
  {
    RunKeepsInv(run, i);
  }

  /** The first durable step of a restart brings the artifact in line with the store: it records how many writes
      are there, whatever count was recorded before, and is COMMITTED at once if all of them are. */
  lemma RestartResynchronises(run: seq<System>, i: nat)
    requires IsRun(run) && i < |run| && run[i].process.Down?
    requires run[i].file.phase.Prepared? || run[i].file.phase.Applying?
    ensures var s, t := run[i], Advance(run[i]);
      && t.store == s.store && t.file.entries == s.file.entries
      && PrefixState(s.store, s.file.entries, t.file.appliedCount)
      && t.process == At(Recovery, t.file.appliedCount)
      && t.file.phase == if t.file.appliedCount == |s.file.entries| then Committed else Applying
  {
    PrefixInEveryRun(run, i);
  }

  /** All or nothing, whatever the crashes: a COMMITTED artifact means every key holds its target one
      version up, a ROLLED_BACK one means every key holds its old value and existence. */
  lemma TerminalMeansAllOrNothing(run: seq<System>, i: nat)
    requires IsRun(run) && i < |run|
    ensures run[i].file.phase.Committed? ==>
      && run[i].file.appliedCount == |run[i].file.entries|
      && forall e <- run[i].file.entries ::
           Lookup(run[i].store, e.key) == VersionedValue(e.targetValue, e.expectedVersion + 1, true)
    ensures run[i].file.phase.RolledBack? ==>
      forall e <- run[i].file.entries ::
        && Lookup(run[i].store, e.key).present == e.previousExists
        && (e.previousExists ==> Lookup(run[i].store, e.key).value == e.previousValue)
  {
    RunKeepsInv(run, i);
    var s := run[i];
    if s.file.phase.Committed? {
      forall e <- s.file.entries
        ensures AtTarget(s.store, e)
      {
        var j :| 0 <= j < |s.file.entries| && s.file.entries[j] == e;
      }
    }
  }

  /** A terminal artifact never changes again. */
  lemma {:induction false} TerminalIsFinal(run: seq<System>, i: nat, j: nat)
    requires IsRun(run) && i <= j < |run| && Terminal(run[i].file.phase)
    ensures run[j].file == run[i].file
    decreases j
  {
    if i < j {
      TerminalIsFinal(run, i, j - 1);
      RunKeepsInv(run, j - 1);
      assert StepAt(run, j);
      StepKeepsTerminal(run[j - 1], run[j]);
    }
  }

  // ---- Uninterrupted work ----

  ghost predicate AdvanceAt(trace: seq<System>, i: nat)
    requires 0 < i < |trace|
  {
    trace[i] == Advance(trace[i - 1])
  }

  /** The consecutive states of a process that starts in `first`. */
  ghost predicate Unfolds(trace: seq<System>, first: System) {
    trace != [] && trace[0] == first && forall i :: 0 < i < |trace| ==> AdvanceAt(trace, i)
  }

  ghost function Last(trace: seq<System>): System
    requires trace != []
  {
    trace[|trace| - 1]
  }

  /** Left alone, a process gets from `s` to `t` in `n` durable effects. */
  ghost predicate Leads(s: System, t: System, n: nat) {
    exists trace :: Unfolds(trace, s) && |trace| == n + 1 && Last(trace) == t
  }

  lemma LeadsToItself(s: System)
    ensures Leads(s, s, 0)
  {
    assert Unfolds([s], s) && Last([s]) == s;
  }

  lemma LeadsOn(s: System, t: System, u: System, m: nat, n: nat)
    requires Leads(s, t, m) && Leads(t, u, n)
    ensures Leads(s, u, m + n)
  {
    var first :| Unfolds(first, s) && |first| == m + 1 && Last(first) == t;
    var second :| Unfolds(second, t) && |second| == n + 1 && Last(second) == u;
    TracesJoin(first, s, second, t);
  }

  lemma TracesJoin(first: seq<System>, s: System, second: seq<System>, t: System)
    requires Unfolds(first, s) && Unfolds(second, t) && Last(first) == t
    ensures Unfolds(first + second[1..], s)
    ensures |first + second[1..]| == |first| + |second| - 1 && Last(first + second[1..]) == Last(second)
  {
    var both, shift := first + second[1..], |first| - 1;
    forall i | 0 < i < |both|
      ensures AdvanceAt(both, i)
    {
      if i <= shift {
        assert AdvanceAt(first, i);
      } else {
        assert AdvanceAt(second, i - shift);
      }
    }
  }

  lemma LeadsOneStep(s: System)
    ensures Leads(s, Advance(s), 1)
  {
    var trace := [s, Advance(s)];
    assert AdvanceAt(trace, 1);
    assert Unfolds(trace, s) && Last(trace) == Advance(s);
  }

  lemma LeadsFirst(s: System, next: System, t: System, n: nat)
    requires next == Advance(s) && Leads(next, t, n)
    ensures Leads(s, t, n + 1)
  {
    LeadsOneStep(s);
    LeadsOn(s, next, t, 1, n);
  }

  predicate Names(entries: seq<CommitEntry>, key: string) {
    exists e <- entries :: e.key == key
  }

  /** No key outside the artifact changed. */
  ghost predicate Untouched(entries: seq<CommitEntry>, m: Values, m': Values) {
    forall key :: !Names(entries, key) ==> Lookup(m', key) == Lookup(m, key)
  }

  /** A process never touches a key the artifact does not name. */
  lemma AdvanceFrame(s: System)
    ensures Untouched(s.file.entries, s.store, Advance(s).store)
  {
    match s.process
    case At(mode, i) =>
      if i < |s.file.entries| {
        WriteFrame(s, mode, i);
      }
    case Undoing(c) =>
      if 0 < c <= |s.file.entries| {
        UndoFrame(s, c);
      }
    case _ =>
  }

  lemma WriteFrame(s: System, mode: Mode, i: nat)
    requires i < |s.file.entries|
    ensures Untouched(s.file.entries, s.store, WriteEntry(s, mode, i).store)
  {
    assert s.file.entries[i] in s.file.entries;
  }

  lemma UndoFrame(s: System, c: nat)
    requires 0 < c <= |s.file.entries|
    ensures Untouched(s.file.entries, s.store, Undo(s, c).store)
  {
    assert s.file.entries[c - 1] in s.file.entries;
  }

  lemma AdvanceTwiceFrame(s: System)
    requires Inv(s)
    ensures Advance(Advance(s)).file.entries == s.file.entries
    ensures Untouched(s.file.entries, s.store, Advance(Advance(s)).store)
  {
    StepKeepsNames(s, Advance(s));
    AdvanceKeepsInv(s);
    StepKeepsNames(Advance(s), Advance(Advance(s)));
    AdvanceFrame(s);
    AdvanceFrame(Advance(s));
  }

  /** Recovery writes an entry and records it. */
  lemma ForwardTwoSteps(s: System, i: nat)
    requires Inv(s) && s.process == At(Recovery, i) && i < |s.file.entries|
    ensures var t := Advance(Advance(s));
      && Inv(t) && t.process == At(Recovery, i + 1)
      && t.file == s.file.(phase := Applying, appliedCount := i + 1)
  {
    WriteEntryKeepsInv(s, Recovery, i);
    AdvanceKeepsInv(Advance(s));
  }

  lemma RollbackTwoSteps(s: System, c: nat)
    requires Inv(s) && s.process == Undoing(c) && c > 0
    ensures var t := Advance(Advance(s));
      && Inv(t) && t.process == Undoing(c - 1)
      && t.file == s.file.(appliedCount := c - 1)
  {
    UndoKeepsInv(s, c);
    AdvanceKeepsInv(Advance(s));
  }

  /** At the end of a recovery every entry is at its target. */
  lemma AllTargets(s: System)
    requires Inv(s) && s.process == At(Recovery, |s.file.entries|)
    ensures Advance(s) == s.(file := s.file.(phase := Committed, appliedCount := |s.file.entries|), process := Done)
    ensures forall e <- s.file.entries :: AtTarget(s.store, e)
  {
    forall e <- s.file.entries
      ensures AtTarget(s.store, e)
    {
      var j :| 0 <= j < |s.file.entries| && s.file.entries[j] == e;
    }
  }

  lemma {:induction false} ForwardFinishes(s: System, i: nat) returns (t: System)
    requires Inv(s) && s.process == At(Recovery, i)
    ensures i <= |s.file.entries| && Leads(s, t, 2 * (|s.file.entries| - i) + 1)
    ensures t.process.Done? && t.file == s.file.(phase := Committed, appliedCount := |s.file.entries|)
    ensures forall e <- s.file.entries :: AtTarget(t.store, e)
    ensures Untouched(s.file.entries, s.store, t.store)
    decreases |s.file.entries| - i
  {
    if i == |s.file.entries| {
      AllTargets(s);
      LeadsOneStep(s);
      t := Advance(s);
    } else {
      var mid := Advance(s);
      var next := Advance(mid);
      ForwardTwoSteps(s, i);
      AdvanceTwiceFrame(s);
      t := ForwardFinishes(next, i + 1);
      LeadsFirst(mid, next, t, 2 * (|s.file.entries| - i - 1) + 1);
      LeadsFirst(s, mid, t, 2 * (|s.file.entries| - i - 1) + 2);
    }
  }

  /** Crash recovery: take any run (any crash points, in the first attempt or in earlier recoveries,
      foreign work in between), cut it down where the durable phase is PREPARED or APPLYING, and let
      a restarted recovery finish. With `k` writes already in the store it takes 2(n - k) + 2 durable
      steps, and leaves every entry at its target one version up, every other key as it was, and
      the artifact COMMITTED with the full count. */
  lemma ForwardCrashRecovery(run: seq<System>, i: nat) returns (t: System)
    requires IsRun(run) && i < |run|
    requires run[i].process.Down? && (run[i].file.phase.Prepared? || run[i].file.phase.Applying?)
    ensures var s := run[i];
      var n, k := |s.file.entries|, Detect(s.store, s.file.entries);
      && k <= n && Leads(s, t, 2 * (n - k) + 2)
      && t.process.Done? && t.file == s.file.(phase := Committed, appliedCount := n)
      && (forall e <- s.file.entries ::
            Lookup(t.store, e.key) == VersionedValue(e.targetValue, e.expectedVersion + 1, true))
      && Untouched(s.file.entries, s.store, t.store)
  {
    RunKeepsInv(run, i);
    var s := run[i];
    var k := Detect(s.store, s.file.entries);
    AdvanceKeepsInv(s);
    var next := Advance(s);
    t := ForwardFinishes(next, k);
    LeadsFirst(s, next, t, 2 * (|s.file.entries| - k) + 1);
    forall e <- s.file.entries
      ensures Lookup(t.store, e.key) == VersionedValue(e.targetValue, e.expectedVersion + 1, true)
    {
      assert AtTarget(t.store, e);
    }
  }

  lemma RollbackEnds(s: System)
    requires Inv(s) && s.process == Undoing(0)
    ensures var t := Advance(s);
      && Leads(s, t, 1)
      && t.process.Done? && t.file == s.file.(phase := RolledBack, appliedCount := 0)
      && t.store == s.store && forall e <- s.file.entries :: Settled(t.store, e)
  {
    AllSettled(s);
    LeadsOneStep(s);
  }

  lemma {:induction false} RollbackFinishes(s: System, c: nat) returns (t: System)
    requires Inv(s) && s.process == Undoing(c)
    ensures Leads(s, t, 2 * c + 1)
    ensures t.process.Done? && t.file == s.file.(phase := RolledBack, appliedCount := 0)
    ensures forall e <- s.file.entries :: Settled(t.store, e)
    ensures Untouched(s.file.entries, s.store, t.store)
    decreases c
  {
    if c == 0 {
      RollbackEnds(s);
      t := Advance(s);
    } else {
      RollbackTwoSteps(s, c);
      AdvanceTwiceFrame(s);
      t := RollbackFinishes(Advance(Advance(s)), c - 1);
      LeadsFirst(Advance(s), Advance(Advance(s)), t, 2 * (c - 1) + 1);
      LeadsFirst(s, Advance(s), t, 2 * (c - 1) + 2);
    }
  }

  lemma RestoredBlocksRestart(s: System)
    requires Inv(s) && s.process.Down? && s.file.phase.RollingBack?
    ensures Advance(s).process.Stuck? <==> exists e <- s.file.entries :: Restored(s.store, e)
  {
    var entries := s.file.entries;
    var k := TargetPrefix(s.store, entries);
    if e :| e in entries && Restored(s.store, e) {
      var j :| 0 <= j < |entries| && entries[j] == e;
      SettledIsNotTarget(s.store, entries, j);
      assert k <= j && !AtPrevious(s.store, entries[j]);
    } else {
      assert forall j :: k <= j < |entries| ==> Settled(s.store, entries[j]) && entries[j] in entries;
      assert PrefixState(s.store, entries, k);
    }
  }

  lemma RollbackRestarts(s: System) returns (t: System)
    requires Inv(s) && s.process.Down? && s.file.phase.RollingBack? && !Advance(s).process.Stuck?
    ensures Detect(s.store, s.file.entries) <= |s.file.entries|
    ensures Leads(s, t, 2 * Detect(s.store, s.file.entries) + 2)
    ensures t.process.Done? && t.file.phase.RolledBack?
    ensures forall e <- s.file.entries :: Settled(t.store, e)
  {
    var k := Detect(s.store, s.file.entries);
    StartRollbackKeepsInv(s);
    t := RollbackFinishes(Advance(s), k);
    LeadsFirst(s, Advance(s), t, 2 * k + 1);
  }

  /** An interrupted rollback can be resumed if and only if it has not yet restored a key that
      existed: a restored key is two versions up, which detection takes for a conflict. When it can,
      it finishes, in `t`, and every key holds its old value and existence. */
  lemma InterruptedRollback(run: seq<System>, i: nat) returns (t: System)
    requires IsRun(run) && i < |run|
    requires run[i].process.Down? && run[i].file.phase.RollingBack?
    ensures Advance(run[i]).process.Stuck? <==> exists e <- run[i].file.entries :: Restored(run[i].store, e)
    ensures !Advance(run[i]).process.Stuck? ==>
      && Leads(run[i], t, 2 * Detect(run[i].store, run[i].file.entries) + 2)
      && t.process.Done? && t.file.phase.RolledBack?
      && forall e <- run[i].file.entries :: Settled(t.store, e)
  {
    t := run[i];
    RunKeepsInv(run, i);
    RestoredBlocksRestart(run[i]);
    if !Advance(run[i]).process.Stuck? {
      t := RollbackRestarts(run[i]);
    }
  }

  lemma RunOn(run: seq<System>, t: System)
    requires IsRun(run) && Step(Last(run), t)
    ensures IsRun(run + [t]) && Last(run + [t]) == t && run <= run + [t]
  {
    forall i | 0 < i < |run + [t]|
      ensures StepAt(run + [t], i)
    {
      assert i < |run| ==> StepAt(run, i);
    }
  }

  lemma AdvancingRun(run: seq<System>) returns (longer: seq<System>)
    requires IsRun(run)
    ensures longer == run + [Advance(Last(run))] && IsRun(longer) && Last(longer) == Advance(Last(run))
  {
    RunOn(run, Advance(Last(run)));
    longer := run + [Advance(Last(run))];
  }

  /** An existing key followed by a missing one: one write, then a rollback begins. */
  lemma OneWriteThenTurn(s: System) returns (run: seq<System>)
    requires Init(s) && |s.file.entries| >= 2
    requires s.file.entries[0].previousExists && !s.file.entries[1].previousExists
    ensures IsRun(run) && run[0] == s && Inv(Last(run))
    ensures Last(run).process == Undoing(1) && Last(run).file.phase.RollingBack?
    ensures Last(run).file.entries == s.file.entries
  {
    DetectExact(s.store, s.file.entries, 0);
    run := AdvancingRun([s]);
    WriteEntryKeepsInv(s, FirstAttempt, 0);
    var wrote := Last(run);
    AdvanceKeepsInv(wrote);
    run := AdvancingRun(run);
    var at := Last(run);
    WriteEntryKeepsInv(at, FirstAttempt, 1);
    run := AdvancingRun(run);
    StartRollbackKeepsInv(Last(run));
    run := AdvancingRun(run);
  }

  /** The stranded case does occur: a first attempt that writes an existing key, meets a missing one, and
      crashes right after restoring the first leaves a rollback that no restart can resume. */
  lemma StrandedRollback(s: System) returns (run: seq<System>)
    requires Init(s) && |s.file.entries| >= 2
    requires s.file.entries[0].previousExists && !s.file.entries[1].previousExists
    ensures IsRun(run) && run[0] == s
    ensures Last(run).process.Down? && Last(run).file.phase.RollingBack? && Advance(Last(run)).process.Stuck?
  {
    run := OneWriteThenTurn(s);
    var undoing, e0 := Last(run), s.file.entries[0];
    UndoKeepsInv(undoing, 1);
    run := AdvancingRun(run);
    var down := Last(run).(process := Down);
    RunOn(run, down);
    run := run + [down];
    assert RollbackInv(undoing);
    UndoEntrySettles(undoing.store, e0);
    assert e0 in s.file.entries && Restored(down.store, e0);
    RestoredBlocksRestart(down);
  }
}
