/** The first, uninterrupted attempt of a crash-safe fallback commit, against the batch. */
module FallbackAttempt {
  import opened Wrappers
  import opened KvStore
  import opened FallbackLog
  import opened FallbackProtocol
  import opened FallbackCommit

  // ---- Preparing the artifact ----

  function EntryFor(m: Values, w: WriteOp, expected: nat): CommitEntry {
    var current := Lookup(m, w.key);
    CommitEntry(w.key, expected, w.value, current.value, current.version, current.present)
  }

  /** One entry a write, recording what the store holds; nothing if some key is not at its expected
      version. */
  function PrepareEntries(m: Values, writes: seq<WriteOp>, checks: map<string, nat>): Option<seq<CommitEntry>> {
    if WritesCurrent(m, writes, checks) then
      Some(seq(|writes|, i requires 0 <= i < |writes| => EntryFor(m, writes[i], Lookup(m, writes[i].key).version)))
    else
      None
  }

  function Attempt(m: Values, txnId: string, taskId: string, entries: seq<CommitEntry>): System {
    System(m, Artifact(txnId, taskId, Prepared, 0, entries), At(FirstAttempt, 0))
  }

  /** A prepared artifact starts a run of the machine. */
  lemma PreparedIsInit(m: Values, writes: seq<WriteOp>, checks: map<string, nat>, txnId: string, taskId: string)
    requires DistinctKeys(writes) && PrepareEntries(m, writes, checks).Some?
    ensures var s := Attempt(m, txnId, taskId, PrepareEntries(m, writes, checks).value);
      Init(s) && Inv(s)
  {
    var s := Attempt(m, txnId, taskId, PrepareEntries(m, writes, checks).value);
    forall e <- s.file.entries
      ensures e.expectedVersion == e.previousVersion && (!e.previousExists ==> e.previousVersion == 0)
    {
      var i :| 0 <= i < |writes| && e == s.file.entries[i];
    }
    DetectExact(m, s.file.entries, 0);
  }

  // ---- Running it ----

  predicate AllExist(entries: seq<CommitEntry>, from: nat, to: nat)
    requires from <= to <= |entries|
  {
    forall i :: from <= i < to ==> entries[i].previousExists
  }

  /** While the keys exist the attempt writes them one after the other. */
  lemma {:induction false} AttemptAdvances(s: System, i: nat, j: nat) returns (t: System)
    requires Inv(s) && s.process == At(FirstAttempt, i) && i <= j <= |s.file.entries|
    requires AllExist(s.file.entries, i, j)
    ensures Leads(s, t, 2 * (j - i)) && Inv(t) && t.process == At(FirstAttempt, j)
    ensures t.file.entries == s.file.entries
    ensures Untouched(s.file.entries, s.store, t.store)
    decreases j - i
  {
    if i == j {
      LeadsToItself(s);
      t := s;
    } else {
      var mid := Advance(s);
      var next := Advance(mid);
      WriteEntryKeepsInv(s, FirstAttempt, i);
      AdvanceKeepsInv(mid);
      AdvanceTwiceFrame(s);
      t := AttemptAdvances(next, i + 1, j);
      LeadsFirst(mid, next, t, 2 * (j - i - 1));
      LeadsFirst(s, mid, t, 2 * (j - i - 1) + 1);
    }
  }

  lemma AttemptEnds(s: System)
    requires Inv(s) && s.process == At(FirstAttempt, |s.file.entries|)
    ensures Advance(s) == s.(file := s.file.(phase := Committed), process := Done)
    ensures forall e <- s.file.entries :: AtTarget(s.store, e)
  {
    assert PrefixState(s.store, s.file.entries, |s.file.entries|);
    forall e <- s.file.entries
      ensures AtTarget(s.store, e)
    {
      var j :| 0 <= j < |s.file.entries| && s.file.entries[j] == e;
    }
  }

  /** All keys exist: the attempt commits. */
  lemma AttemptCommits(s: System) returns (t: System)
    requires Inv(s) && s.process == At(FirstAttempt, 0)
    requires AllExist(s.file.entries, 0, |s.file.entries|)
    ensures Leads(s, t, 2 * |s.file.entries| + 1) && t.process.Done? && t.file.phase.Committed?
    ensures forall e <- s.file.entries :: AtTarget(t.store, e)
    ensures Untouched(s.file.entries, s.store, t.store)
  {
    var n := |s.file.entries|;
    var last := AttemptAdvances(s, 0, n);
    AttemptEnds(last);
    t := Advance(last);
    LeadsOneStep(last);
    LeadsOn(s, last, t, 2 * n, 1);
  }

  /** A missing key turns the attempt into a rollback of what was written. */
  lemma AttemptTurns(s: System, j: nat) returns (t: System)
    requires Inv(s) && s.process == At(FirstAttempt, j)
    requires j < |s.file.entries| && !s.file.entries[j].previousExists
    ensures Leads(s, t, 2) && Inv(t) && t.process == Undoing(j)
    ensures t.file.entries == s.file.entries && t.store == s.store
  {
    WriteEntryKeepsInv(s, FirstAttempt, j);
    assert s.file.entries[j] in s.file.entries && AtPrevious(s.store, s.file.entries[j]);
    var turned := Advance(s);
    assert turned == s.(process := Turning);
    StartRollbackKeepsInv(turned);
    t := Advance(turned);
    LeadsOneStep(turned);
    LeadsFirst(s, turned, t, 1);
  }

  /** Entry `j` is the first whose key does not exist: the attempt turns there and rolls back. */
  lemma AttemptRollsBack(s: System, j: nat) returns (t: System)
    requires Inv(s) && s.process == At(FirstAttempt, 0)
    requires j < |s.file.entries| && AllExist(s.file.entries, 0, j) && !s.file.entries[j].previousExists
    ensures Leads(s, t, 4 * j + 3) && t.process.Done? && t.file.phase.RolledBack?
    ensures forall e <- s.file.entries :: Settled(t.store, e)
    ensures Untouched(s.file.entries, s.store, t.store)
  {
    var at := AttemptAdvances(s, 0, j);
    var undoing := AttemptTurns(at, j);
    t := RollbackFinishes(undoing, j);
    LeadsOn(at, undoing, t, 2, 2 * j + 1);
    LeadsOn(s, at, t, 2 * j, 2 * j + 3);
  }

  // ---- Against the batch ----

  lemma SameLookupsSameValues(m: Values, m': Values)
    requires forall key :: Lookup(m, key) == Lookup(m', key)
    ensures m == m'
  {
    forall key
      ensures key in m <==> key in m'
      ensures key in m ==> m[key] == m'[key]
    {
      assert Lookup(m, key) == Lookup(m', key);
    }
  }

  lemma AllTargetsIsTheBatch(m: Values, writes: seq<WriteOp>, checks: map<string, nat>, end: Values)
    requires DistinctKeys(writes) && PrepareEntries(m, writes, checks).Some?
    requires forall e <- PrepareEntries(m, writes, checks).value :: AtTarget(end, e)
    requires Untouched(PrepareEntries(m, writes, checks).value, m, end)
    ensures end == PutAll(m, writes)
  {
    var entries := PrepareEntries(m, writes, checks).value;
    forall key
      ensures Lookup(end, key) == Lookup(PutAll(m, writes), key)
    {
      if i :| 0 <= i < |writes| && writes[i].key == key {
        assert entries[i] in entries && AtTarget(end, entries[i]);
        PutAllLookup(m, writes, i);
      } else {
        PutAllFrame(m, writes, key);
        assert !Names(entries, key);
      }
    }
    SameLookupsSameValues(end, PutAll(m, writes));
  }

  lemma AllSettledKeepsContent(m: Values, writes: seq<WriteOp>, checks: map<string, nat>, end: Values)
    requires PrepareEntries(m, writes, checks).Some?
    requires forall e <- PrepareEntries(m, writes, checks).value :: Settled(end, e)
    requires Untouched(PrepareEntries(m, writes, checks).value, m, end)
    ensures forall key :: SameContent(Lookup(m, key), Lookup(end, key))
  {
    var entries := PrepareEntries(m, writes, checks).value;
    forall key
      ensures SameContent(Lookup(m, key), Lookup(end, key))
    {
      if i :| 0 <= i < |writes| && writes[i].key == key {
        assert entries[i] in entries && Settled(end, entries[i]);
      } else {
        assert !Names(entries, key);
      }
    }
  }

  /** With all checks on unwritten keys holding, the batch succeeds exactly when the artifact can be
      prepared. */
  lemma BatchNeedsPreparation(m: Values, checks: map<string, nat>, writes: seq<WriteOp>)
    requires forall w <- writes :: w.key in checks
    requires forall key <- checks :: !WritesKey(writes, key) ==> Lookup(m, key).version == checks[key]
    ensures BatchCommit(m, checks, writes).ok <==> PrepareEntries(m, writes, checks).Some?
  {
    forall key <- checks | WritesCurrent(m, writes, checks)
      ensures Lookup(m, key).version == checks[key]
    {
      if WritesKey(writes, key) {
        var w :| w in writes && w.key == key;
      }
    }
  }

  /** The crash-safe commit against the batch, when every check on an unwritten key holds and nobody
      interferes. If the batch fails, preparation fails and nothing changes. If the batch succeeds, the
      crash-safe commit ends in `t`: committed, with the store of the batch, exactly when every written
      key exists; otherwise rolled back to the old content. */
  lemma CrashSafeAgainstBatch(m: Values, checks: map<string, nat>, writes: seq<WriteOp>, txnId: string, taskId: string)
    returns (n: nat, t: System)
    requires DistinctKeys(writes) && forall w <- writes :: w.key in checks
    requires forall key <- checks :: !WritesKey(writes, key) ==> Lookup(m, key).version == checks[key]
    ensures BatchCommit(m, checks, writes).ok <==> PrepareEntries(m, writes, checks).Some?
    ensures PrepareEntries(m, writes, checks).Some? ==>
      && Leads(Attempt(m, txnId, taskId, PrepareEntries(m, writes, checks).value), t, n) && t.process.Done?
      && (t.file.phase.Committed? <==> forall w <- writes :: Lookup(m, w.key).present)
      && (t.file.phase.Committed? ==> t.store == BatchCommit(m, checks, writes).values)
      && (!t.file.phase.Committed? ==>
            t.file.phase.RolledBack? && forall key :: SameContent(Lookup(m, key), Lookup(t.store, key)))
  {
    BatchNeedsPreparation(m, checks, writes);
    n, t := 0, Attempt(m, txnId, taskId, []);
    if PrepareEntries(m, writes, checks).Some? {
      var entries := PrepareEntries(m, writes, checks).value;
      var s := Attempt(m, txnId, taskId, entries);
      PreparedIsInit(m, writes, checks, txnId, taskId);
      PresenceOfEntries(m, writes, checks);
      if forall e <- entries :: e.previousExists {
        assert forall i :: 0 <= i < |entries| ==> entries[i] in entries;
        n := 2 * |entries| + 1;
        t := AttemptCommits(s);
        AllTargetsIsTheBatch(m, writes, checks, t.store);
      } else {
        var j := FirstMissing(entries);
        n := 4 * j + 3;
        t := AttemptRollsBack(s, j);
        AllSettledKeepsContent(m, writes, checks, t.store);
      }
    }
  }

  lemma PresenceOfEntries(m: Values, writes: seq<WriteOp>, checks: map<string, nat>)
    requires PrepareEntries(m, writes, checks).Some?
    ensures (forall e <- PrepareEntries(m, writes, checks).value :: e.previousExists)
       <==> (forall w <- writes :: Lookup(m, w.key).present)
  {
    var entries := PrepareEntries(m, writes, checks).value;
    forall i | 0 <= i < |writes|
      ensures entries[i].previousExists == Lookup(m, writes[i].key).present
      ensures entries[i] in entries && writes[i] in writes
    {
    }
  }

  lemma FirstMissing(entries: seq<CommitEntry>) returns (j: nat)
    requires exists e <- entries :: !e.previousExists
    ensures j < |entries| && AllExist(entries, 0, j) && !entries[j].previousExists
  {
    j := 0;
    while j < |entries| && entries[j].previousExists
      invariant j <= |entries| && AllExist(entries, 0, j)
    {
      j := j + 1;
    }
  }
}
