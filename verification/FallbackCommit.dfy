/** Committing on a store without atomic batches, and why it amounts to the batch. */
module FallbackCommit {
  import opened Wrappers
  import opened KvStore
  import opened Intents
  import opened Branches
  import opened BranchFold
  import opened PolicyDispatcher
  import opened WriteBuffers
  import opened CommitPlan

  // ---- The batch ----

  predicate AllCurrent(m: Values, checks: map<string, nat>) {
    forall key <- checks :: Lookup(m, key).version == checks[key]
  }

  /** The atomic commit: all checks, then all writes, or nothing. */
  function BatchCommit(m: Values, checks: map<string, nat>, writes: seq<WriteOp>): Effect {
    if AllCurrent(m, checks) then Effect(PutAll(m, writes), true) else Effect(m, false)
  }

  /** The checks as a list, in whatever order the hash map yields them. */
  ghost predicate Lists(list: seq<VersionCheck>, checks: map<string, nat>) {
    && (forall c <- list :: c.key in checks && checks[c.key] == c.expectedVersion)
    && (forall key <- checks :: VersionCheck(key, checks[key]) in list)
  }

  lemma ListedChecksHold(list: seq<VersionCheck>, checks: map<string, nat>, m: Values)
    requires Lists(list, checks)
    ensures ChecksHold(m, list) <==> AllCurrent(m, checks)
  {
    if ChecksHold(m, list) {
      forall key <- checks
        ensures Lookup(m, key).version == checks[key]
      {
        assert VersionCheck(key, checks[key]) in list;
      }
    }
  }

  // ---- One write at a time ----

  datatype AppliedWrite = AppliedWrite(key: string, previousValue: string, previousVersion: nat, previousExists: bool)

  function UndoWrite(m: Values, a: AppliedWrite): Effect {
    if a.previousExists then PutIf(m, a.key, a.previousVersion + 1, a.previousValue)
    else DeleteIf(m, a.key, a.previousVersion + 1)
  }

  /** Undoes the applied writes, last first, and stops at the first that cannot be undone. */
  function RollbackAll(m: Values, applied: seq<AppliedWrite>): Effect
    decreases applied
  {
    if applied == [] then Effect(m, true)
    else
      var undone := UndoWrite(m, applied[|applied| - 1]);
      if undone.ok then RollbackAll(undone.values, applied[..|applied| - 1]) else undone
  }

  /** Writes in order; the first write whose key is not at its expected version undoes the ones before. */
  function ApplyAll(m: Values, writes: seq<WriteOp>, checks: map<string, nat>, applied: seq<AppliedWrite>): Effect
    decreases writes
  {
    if writes == [] then Effect(m, true)
    else
      var w := writes[0];
      if w.key !in checks then Effect(m, false)
      else
        var current := Lookup(m, w.key);
        if current.version != checks[w.key] then Effect(RollbackAll(m, applied).values, false)
        else
          ApplyAll(Written(m, w.key, w.value), writes[1..], checks,
                   applied + [AppliedWrite(w.key, current.value, current.version, current.present)])
  }

  predicate WritesCurrent(m: Values, writes: seq<WriteOp>, checks: map<string, nat>) {
    forall w <- writes :: w.key in checks && Lookup(m, w.key).version == checks[w.key]
  }

  lemma {:induction false} ApplyAllSucceeds(
      m: Values, writes: seq<WriteOp>, checks: map<string, nat>, applied: seq<AppliedWrite>)
    requires DistinctKeys(writes) && WritesCurrent(m, writes, checks)
    ensures ApplyAll(m, writes, checks, applied) == Effect(PutAll(m, writes), true)
    decreases writes
  {
    if writes != [] {
      var w := writes[0];
      assert w in writes;
      var m' := Written(m, w.key, w.value);
      forall i | 0 <= i < |writes[1..]|
        ensures writes[1..][i].key in checks && Lookup(m', writes[1..][i].key).version == checks[writes[1..][i].key]
      {
        assert writes[i + 1] in writes;
      }
      var current := Lookup(m, w.key);
      ApplyAllSucceeds(
        m', writes[1..], checks, applied + [AppliedWrite(w.key, current.value, current.version, current.present)]);
    }
  }

  // ---- Rolling back restores ----

  predicate AppliesKey(applied: seq<AppliedWrite>, key: string) {
    exists a <- applied :: a.key == key
  }

  /** `m` is `m0` with the applied writes done, and `applied` remembers `m0`. */
  ghost predicate AppliedSince(m0: Values, applied: seq<AppliedWrite>, m: Values) {
    && (forall i, j :: 0 <= i < j < |applied| ==> applied[i].key != applied[j].key)
    && (forall a <- applied ::
          && Lookup(m0, a.key) == VersionedValue(a.previousValue, a.previousVersion, a.previousExists)
          && (!a.previousExists ==> a.previousVersion == 0)
          && Lookup(m, a.key).version == a.previousVersion + 1)
    && (forall key :: !AppliesKey(applied, key) ==> Lookup(m, key) == Lookup(m0, key))
  }

  /** What a rollback leaves of a key: its old value and existence, two versions later if it was applied
      and existed. */
  ghost predicate RestoredKey(m0: Values, applied: seq<AppliedWrite>, m: Values, key: string) {
    var before := Lookup(m0, key);
    Lookup(m, key) ==
      if AppliesKey(applied, key) && before.present then VersionedValue(before.value, before.version + 2, true)
      else before
  }

  /** The store `m0` would have been, had the last applied write been undone before the others. */
  function WithoutLast(m0: Values, a: AppliedWrite): Values {
    if a.previousExists then m0[a.key := Entry(a.previousValue, a.previousVersion + 2)] else m0
  }

  lemma LastIsApart(m0: Values, applied: seq<AppliedWrite>, m: Values)
    requires applied != [] && AppliedSince(m0, applied, m)
    ensures var last, init := applied[|applied| - 1], applied[..|applied| - 1];
      && last in applied && (forall a <- init :: a in applied && a.key != last.key)
      && (forall key :: AppliesKey(applied, key) <==> AppliesKey(init, key) || key == last.key)
      && !AppliesKey(init, last.key)
  {
    var last, init := applied[|applied| - 1], applied[..|applied| - 1];
    assert forall a <- applied :: a == last || a in init;
  }

  lemma UndoLastApplied(m0: Values, applied: seq<AppliedWrite>, m: Values)
    requires applied != [] && AppliedSince(m0, applied, m)
    ensures var last, init := applied[|applied| - 1], applied[..|applied| - 1];
      && UndoWrite(m, last).ok
      && !AppliesKey(init, last.key)
      && AppliedSince(WithoutLast(m0, last), init, UndoWrite(m, last).values)
  {
    LastIsApart(m0, applied, m);
    UndoneIsWithout(m0, applied[|applied| - 1], m);
  }

  /** Undoing one write changes its key only, to what the store without it holds. */
  lemma UndoneIsWithout(m0: Values, a: AppliedWrite, m: Values)
    requires Lookup(m0, a.key) == VersionedValue(a.previousValue, a.previousVersion, a.previousExists)
    requires (!a.previousExists ==> a.previousVersion == 0) && Lookup(m, a.key).version == a.previousVersion + 1
    ensures UndoWrite(m, a).ok
    ensures Lookup(UndoWrite(m, a).values, a.key) == Lookup(WithoutLast(m0, a), a.key)
    ensures forall key :: key != a.key ==>
      Lookup(UndoWrite(m, a).values, key) == Lookup(m, key) && Lookup(WithoutLast(m0, a), key) == Lookup(m0, key)
  {
  }

  lemma RestoredWithLast(m0: Values, applied: seq<AppliedWrite>, end: Values, key: string)
    requires applied != []
    requires var last, init := applied[|applied| - 1], applied[..|applied| - 1];
      && Lookup(m0, last.key) == VersionedValue(last.previousValue, last.previousVersion, last.previousExists)
      && !AppliesKey(init, last.key)
      && RestoredKey(WithoutLast(m0, last), init, end, key)
    ensures RestoredKey(m0, applied, end, key)
  {
    var last, init := applied[|applied| - 1], applied[..|applied| - 1];
    assert last in applied && forall a <- applied :: a == last || a in init;
    assert forall a <- init :: a in applied;
    assert AppliesKey(applied, key) <==> AppliesKey(init, key) || key == last.key;
  }

  lemma {:induction false} RollbackRestoresAll(m0: Values, applied: seq<AppliedWrite>, m: Values)
    requires AppliedSince(m0, applied, m)
    ensures RollbackAll(m, applied).ok
    ensures forall key :: RestoredKey(m0, applied, RollbackAll(m, applied).values, key)
    decreases applied
  {
    if applied == [] {
      assert forall key :: !AppliesKey(applied, key);
    } else {
      var last, init := applied[|applied| - 1], applied[..|applied| - 1];
      assert last in applied;
      UndoLastApplied(m0, applied, m);
      RollbackRestoresAll(WithoutLast(m0, last), init, UndoWrite(m, last).values);
      forall key
        ensures RestoredKey(m0, applied, RollbackAll(m, applied).values, key)
      {
        RestoredWithLast(m0, applied, RollbackAll(m, applied).values, key);
      }
    }
  }

  /** Some write is stale: the commit fails, and every key is as the batch leaves it up to two versions. */
  lemma {:induction false} ApplyAllFails(
      m0: Values, m: Values, writes: seq<WriteOp>, checks: map<string, nat>, applied: seq<AppliedWrite>)
    requires DistinctKeys(writes) && forall w <- writes :: w.key in checks
    requires AppliedSince(m0, applied, m)
    requires forall w <- writes :: !AppliesKey(applied, w.key)
    requires !WritesCurrent(m, writes, checks)
    ensures !ApplyAll(m, writes, checks, applied).ok
    ensures forall key :: SameContent(Lookup(m0, key), Lookup(ApplyAll(m, writes, checks, applied).values, key))
    decreases writes
  {
    var w := writes[0];
    var current := Lookup(m, w.key);
    assert w in writes;
    if current.version != checks[w.key] {
      RollbackRestoresAll(m0, applied, m);
      forall key
        ensures SameContent(Lookup(m0, key), Lookup(RollbackAll(m, applied).values, key))
      {
        assert RestoredKey(m0, applied, RollbackAll(m, applied).values, key);
      }
    } else {
      var a := AppliedWrite(w.key, current.value, current.version, current.present);
      ApplyOneMore(m0, m, applied, w.key, w.value);
      RestStaysFresh(writes, applied, a);
      RestStaysStale(m, writes, checks);
      ApplyAllFails(m0, Written(m, w.key, w.value), writes[1..], checks, applied + [a]);
    }
  }

  lemma OneMoreApplied(applied: seq<AppliedWrite>, a: AppliedWrite)
    ensures forall x <- applied + [a] :: x == a || x in applied
    ensures a in applied + [a] && forall x <- applied :: x in applied + [a]
    ensures forall key :: AppliesKey(applied + [a], key) <==> AppliesKey(applied, key) || key == a.key
    ensures !AppliesKey(applied, a.key) ==> forall i :: 0 <= i < |applied| ==> applied[i].key != a.key
  {
    assert (applied + [a])[|applied|] == a;
    forall x <- applied
      ensures x in applied + [a]
    {
      var i :| 0 <= i < |applied| && applied[i] == x;
      assert (applied + [a])[i] == x;
    }
    forall i | 0 <= i < |applied|
      ensures applied[i] in applied
    {
    }
  }

  lemma ApplyOneMore(m0: Values, m: Values, applied: seq<AppliedWrite>, key: string, value: string)
    requires AppliedSince(m0, applied, m) && !AppliesKey(applied, key)
    ensures var current := Lookup(m, key);
      AppliedSince(
        m0, applied + [AppliedWrite(key, current.value, current.version, current.present)], Written(m, key, value))
  {
    var current := Lookup(m, key);
    OneMoreApplied(applied, AppliedWrite(key, current.value, current.version, current.present));
  }

  lemma RestStaysFresh(writes: seq<WriteOp>, applied: seq<AppliedWrite>, a: AppliedWrite)
    requires writes != [] && DistinctKeys(writes) && a.key == writes[0].key
    requires forall w <- writes :: !AppliesKey(applied, w.key)
    ensures forall w <- writes[1..] :: !AppliesKey(applied + [a], w.key)
  {
    assert forall x <- applied + [a] :: x == a || x in applied;
    assert forall w <- writes[1..] :: w in writes && w.key != a.key;
  }

  lemma RestStaysStale(m: Values, writes: seq<WriteOp>, checks: map<string, nat>)
    requires writes != [] && DistinctKeys(writes)
    requires writes[0].key in checks && Lookup(m, writes[0].key).version == checks[writes[0].key]
    requires !WritesCurrent(m, writes, checks)
    ensures !WritesCurrent(Written(m, writes[0].key, writes[0].value), writes[1..], checks)
  {
    var stale :| stale in writes && !(stale.key in checks && Lookup(m, stale.key).version == checks[stale.key]);
    assert stale in writes[1..] && stale.key != writes[0].key;
  }

  /** Same value and existence; the version is the same or two later. */
  predicate SameContent(a: VersionedValue, b: VersionedValue) {
    a.value == b.value && a.present == b.present
      && (b.version == a.version || (a.present && b.version == a.version + 2))
  }

  // ---- The fallback refines the batch ----

  predicate UnwrittenCurrent(m: Values, writes: seq<WriteOp>, checks: map<string, nat>) {
    forall key <- checks :: !WritesKey(writes, key) ==> Lookup(m, key).version == checks[key]
  }

  lemma AllCurrentSplits(m: Values, checks: map<string, nat>, writes: seq<WriteOp>)
    requires forall w <- writes :: w.key in checks
    ensures AllCurrent(m, checks) <==> WritesCurrent(m, writes, checks) && UnwrittenCurrent(m, writes, checks)
  {
    forall key <- checks | WritesCurrent(m, writes, checks) && UnwrittenCurrent(m, writes, checks)
      ensures Lookup(m, key).version == checks[key]
    {
      if WritesKey(writes, key) {
        var w :| w in writes && w.key == key;
      }
    }
  }

  /** The fallback against the batch, for any writes of distinct checked keys. The verdicts agree if and
      only if the unwritten checks, which the fallback never looks at, hold whenever the written ones do.
      When the batch succeeds so does the fallback, with its store; when the fallback fails it leaves the
      content of the untouched store, which is what the batch leaves. */
  lemma FallbackRefinesBatch(m: Values, checks: map<string, nat>, writes: seq<WriteOp>)
    requires DistinctKeys(writes) && forall w <- writes :: w.key in checks
    ensures var batch, fallback := BatchCommit(m, checks, writes), ApplyAll(m, writes, checks, []);
      && (fallback.ok == batch.ok <==> (WritesCurrent(m, writes, checks) ==> UnwrittenCurrent(m, writes, checks)))
      && (batch.ok ==> fallback == batch)
      && (!batch.ok ==> batch.values == m)
      && (!fallback.ok ==> forall key :: SameContent(Lookup(m, key), Lookup(fallback.values, key)))
  {
    AllCurrentSplits(m, checks, writes);
    if WritesCurrent(m, writes, checks) {
      ApplyAllSucceeds(m, writes, checks, []);
    } else {
      assert forall key :: !AppliesKey([], key);
      ApplyAllFails(m, m, writes, checks, []);
    }
  }

  // ---- For a validated branch ----

  /** No recorded read of an unbuffered object is exempt from validation: the latest intent that names it,
      if there is one, does not rebase. */
  ghost predicate ChecksEveryRead(b: BranchState) {
    forall r <- b.readLog :: r.objectId !in b.buffer.entries ==> !ExemptsRead(b, r)
  }

  predicate ExemptsRead(b: BranchState, r: ReadRecord) {
    var latest := Latest(b.intents, r.objectId);
    latest.Some? && UsesSemanticRebase(latest.value.intentType)
  }

  /** Branches whose intents name the objects they are written to are like that. */
  lemma NamedIntentsCheckEveryRead(b: BranchState)
    requires BranchInv(b)
    ensures Consistent(b.buffer) && ChecksEveryRead(b)
  {
    forall r <- b.readLog | r.objectId !in b.buffer.entries
      ensures !ExemptsRead(b, r)
    {
      assert !Mentions(b.intents, r.objectId);
    }
  }

  /** Planning right after a successful validation: every check that is not on a written key holds. */
  lemma ValidatedChecksHold(b: BranchState, m: Values)
    requires Consistent(b.buffer) && ChecksEveryRead(b) && Validated(b, m)
    requires PlanCommit(b, ViewsOf(InOrder(b.buffer), m)).Planned?
    ensures var plan := PlanCommit(b, ViewsOf(InOrder(b.buffer), m));
      && DistinctKeys(plan.writes)
      && (forall w <- plan.writes :: w.key in plan.checks)
      && UnwrittenCurrent(m, plan.writes, plan.checks)
  {
    var views := ViewsOf(InOrder(b.buffer), m);
    var plan := PlanCommit(b, views);
    PlanIsChecked(b, views);
    forall key <- plan.checks | !WritesKey(plan.writes, key)
      ensures Lookup(m, key).version == plan.checks[key]
    {
      UnwrittenCheckHolds(b, m, key);
    }
  }

  lemma PlanIsChecked(b: BranchState, views: seq<VersionedValue>)
    requires Consistent(b.buffer) && |views| == |b.buffer.order| && PlanCommit(b, views).Planned?
    ensures var plan := PlanCommit(b, views);
      DistinctKeys(plan.writes) && forall w <- plan.writes :: w.key in plan.checks
  {
    var entries, plan := InOrder(b.buffer), PlanCommit(b, views);
    PlanCommitMeaning(b, views);
    forall w <- plan.writes
      ensures w.key in plan.checks
    {
      var i :| 0 <= i < |entries| && entries[i].objectId == w.key;
      assert PlannedAt(entries[i], b.intents, views[i], CollectReads(b.readLog, map[]).checks, plan);
      assert WritesKey(plan.writes, w.key);
    }
  }

  lemma UnwrittenCheckHolds(b: BranchState, m: Values, key: string)
    requires Consistent(b.buffer) && ChecksEveryRead(b) && Validated(b, m)
    requires PlanCommit(b, ViewsOf(InOrder(b.buffer), m)).Planned?
    requires key in PlanCommit(b, ViewsOf(InOrder(b.buffer), m)).checks
    requires !WritesKey(PlanCommit(b, ViewsOf(InOrder(b.buffer), m)).writes, key)
    ensures Lookup(m, key).version == PlanCommit(b, ViewsOf(InOrder(b.buffer), m)).checks[key]
  {
    CollectReadsMeaning(b.readLog, map[]);
    UnwrittenCheckIsARead(b, ViewsOf(InOrder(b.buffer), m), key);
    var r :| r in b.readLog && r.objectId == key;
    assert ReadHolds(b.intents, r, m);
  }

  /** A check on a key that is not written comes from a read whose object is not rebased. */
  lemma UnwrittenCheckIsARead(b: BranchState, views: seq<VersionedValue>, key: string)
    requires Consistent(b.buffer) && ChecksEveryRead(b) && |views| == |b.buffer.order|
    requires PlanCommit(b, views).Planned? && key in PlanCommit(b, views).checks
    requires !WritesKey(PlanCommit(b, views).writes, key)
    ensures CollectReads(b.readLog, map[]).Planned?
    ensures SameCheck(key, CollectReads(b.readLog, map[]).checks, PlanCommit(b, views).checks)
    ensures var latest := Latest(b.intents, key); latest.Some? ==> !UsesSemanticRebase(latest.value.intentType)
  {
    PlanCommitMeaning(b, views);
    if key in b.buffer.entries {
      UnwrittenIsNotRebased(b, views, key);
    } else {
      NotBuffered(b.buffer, key);
      CollectReadsMeaning(b.readLog, map[]);
      var r :| r in b.readLog && r.objectId == key;
      assert !ExemptsRead(b, r);
    }
  }

  lemma UnwrittenIsNotRebased(b: BranchState, views: seq<VersionedValue>, key: string)
    requires Consistent(b.buffer) && |views| == |b.buffer.order| && key in b.buffer.entries
    requires PlanCommit(b, views).Planned? && !WritesKey(PlanCommit(b, views).writes, key)
    requires CollectReads(b.readLog, map[]).Planned?
    requires PlanMeans(
      InOrder(b.buffer), b.intents, views, CollectReads(b.readLog, map[]).checks, [], PlanCommit(b, views))
    ensures SameCheck(key, CollectReads(b.readLog, map[]).checks, PlanCommit(b, views).checks)
    ensures var latest := Latest(b.intents, key); latest.Some? ==> !UsesSemanticRebase(latest.value.intentType)
  {
    var entries := InOrder(b.buffer);
    var i := OrderedEntry(b.buffer, key);
    assert PlannedAt(entries[i], b.intents, views[i], CollectReads(b.readLog, map[]).checks, PlanCommit(b, views));
    assert Resolution(entries[i], b.intents, views[i]).NoWrite?;
  }

  lemma NotBuffered(b: Buffer, key: string)
    requires Consistent(b) && key !in b.entries
    ensures !AnyId(InOrder(b), key)
  {
    EveryOrderedIsBuffered(b);
  }

  /** Fallback refines batch, for every validated branch that exempts no read of an unbuffered object. */
  lemma GuardedFallbackRefinesBatch(b: BranchState, m: Values)
    requires Consistent(b.buffer) && ChecksEveryRead(b) && Validated(b, m)
    requires PlanCommit(b, ViewsOf(InOrder(b.buffer), m)).Planned?
    ensures var plan := PlanCommit(b, ViewsOf(InOrder(b.buffer), m));
      var batch, fallback := BatchCommit(m, plan.checks, plan.writes), ApplyAll(m, plan.writes, plan.checks, []);
      && fallback.ok == batch.ok
      && (batch.ok ==> fallback.values == batch.values)
      && (!batch.ok ==> batch.values == m && forall key :: SameContent(Lookup(m, key), Lookup(fallback.values, key)))
  {
    var plan := PlanCommit(b, ViewsOf(InOrder(b.buffer), m));
    ValidatedChecksHold(b, m);
    FallbackRefinesBatch(m, plan.checks, plan.writes);
  }

  /** In particular for a branch as operations with named intents build it. */
  lemma BranchFallbackRefinesBatch(b: BranchState, m: Values)
    requires BranchInv(b) && Validated(b, m)
    requires PlanCommit(b, ViewsOf(InOrder(b.buffer), m)).Planned?
    ensures var plan := PlanCommit(b, ViewsOf(InOrder(b.buffer), m));
      var batch, fallback := BatchCommit(m, plan.checks, plan.writes), ApplyAll(m, plan.writes, plan.checks, []);
      && fallback.ok == batch.ok
      && (batch.ok ==> fallback.values == batch.values)
      && (!batch.ok ==> batch.values == m && forall key :: SameContent(Lookup(m, key), Lookup(fallback.values, key)))
  {
    NamedIntentsCheckEveryRead(b);
    GuardedFallbackRefinesBatch(b, m);
  }

  /** And for no other branch: if one read is exempt, then on every store on which the branch commits, one
      more put of that object by anybody leaves the validation and the plan as they were, fails the
      batch, and lets the fallback commit. */
  lemma ExemptReadSplitsVerdicts(b: BranchState, m: Values, r: ReadRecord, value: string)
    requires Consistent(b.buffer) && Validated(b, m)
    requires r in b.readLog && r.objectId !in b.buffer.entries && ExemptsRead(b, r)
    requires PlanCommit(b, ViewsOf(InOrder(b.buffer), m)).Planned?
    requires var plan := PlanCommit(b, ViewsOf(InOrder(b.buffer), m)); BatchCommit(m, plan.checks, plan.writes).ok
    ensures var plan, m' := PlanCommit(b, ViewsOf(InOrder(b.buffer), m)), Written(m, r.objectId, value);
      && Validated(b, m') && PlanCommit(b, ViewsOf(InOrder(b.buffer), m')) == plan
      && !BatchCommit(m', plan.checks, plan.writes).ok && ApplyAll(m', plan.writes, plan.checks, []).ok
  {
    var entries := InOrder(b.buffer);
    var views := ViewsOf(entries, m);
    var plan, m' := PlanCommit(b, views), Written(m, r.objectId, value);
    EveryOrderedIsBuffered(b.buffer);
    assert ViewsOf(entries, m') == views;
    assert Validated(b, m') by {
      assert forall x <- b.readLog :: ReadHolds(b.intents, x, m);
    }
    ExemptReadIsChecked(b, views, r);
    PlanIsChecked(b, views);
    assert forall w <- plan.writes :: w.key != r.objectId;
    ApplyAllSucceeds(m', plan.writes, plan.checks, []);
  }

  /** On this store, validating and planning the branch leads both commits to one verdict. */
  ghost predicate VerdictsAgree(b: BranchState, m: Values)
    requires Consistent(b.buffer)
  {
    var plan := PlanCommit(b, ViewsOf(InOrder(b.buffer), m));
    Validated(b, m) && plan.Planned? ==>
      ApplyAll(m, plan.writes, plan.checks, []).ok == BatchCommit(m, plan.checks, plan.writes).ok
  }

  /** Exactly then: for a branch that commits on some store at all, the verdicts agree on every store if
      and only if it exempts no read of an unbuffered object. */
  lemma VerdictsAgreeExactly(b: BranchState, m: Values)
    requires Consistent(b.buffer) && Validated(b, m)
    requires var plan := PlanCommit(b, ViewsOf(InOrder(b.buffer), m));
      plan.Planned? && BatchCommit(m, plan.checks, plan.writes).ok
    ensures ChecksEveryRead(b) <==> forall m' :: VerdictsAgree(b, m')
  {
    if ChecksEveryRead(b) {
      forall m'
        ensures VerdictsAgree(b, m')
      {
        if Validated(b, m') && PlanCommit(b, ViewsOf(InOrder(b.buffer), m')).Planned? {
          GuardedFallbackRefinesBatch(b, m');
        }
      }
    } else {
      var r :| r in b.readLog && r.objectId !in b.buffer.entries && ExemptsRead(b, r);
      ExemptReadSplitsVerdicts(b, m, r, "");
      assert !VerdictsAgree(b, Written(m, r.objectId, ""));
    }
  }

  lemma ExemptReadIsChecked(b: BranchState, views: seq<VersionedValue>, r: ReadRecord)
    requires Consistent(b.buffer) && |views| == |b.buffer.order| && PlanCommit(b, views).Planned?
    requires r in b.readLog && r.objectId !in b.buffer.entries
    ensures r.objectId in PlanCommit(b, views).checks && !WritesKey(PlanCommit(b, views).writes, r.objectId)
  {
    PlanCommitMeaning(b, views);
    CollectReadsMeaning(b.readLog, map[]);
    NotBuffered(b.buffer, r.objectId);
  }

  // ---- Why intents must name the object they are written to ----

  const NAMED := WriteIntent("y", Overwrite, "a", NO_CONDITION)
  const MISNAMED := WriteIntent("x", Append, "b", NO_CONDITION)
  const MISNAMED_PROGRAM := [Read("x"), Write("y", Generic, NAMED), Write("y", Generic, MISNAMED)]

  function MisnamedEntry(): CacheEntry {
    CacheEntry("y", Generic, "", 0, "ab", true, Append, UndoRecord("", false))
  }

  lemma MisnamedRun()
    ensures var b := Run(NewBranch(""), MISNAMED_PROGRAM, [map[], map[], map[]], 3);
      && b.readLog == [ReadRecord("x", 0)] && b.intents == [NAMED, MISNAMED]
      && b.buffer.order == ["y"] && b.buffer.entries == map["y" := MisnamedEntry()]
  {
    var views: seq<Values> := [map[], map[], map[]];
    var b1 := Run(NewBranch(""), MISNAMED_PROGRAM, views, 1);
    assert b1 == Performed(Run(NewBranch(""), MISNAMED_PROGRAM, views, 0), MISNAMED_PROGRAM[0], views[0]);
    var b2 := Run(NewBranch(""), MISNAMED_PROGRAM, views, 2);
    assert b2 == Performed(b1, MISNAMED_PROGRAM[1], views[1]);
    assert Run(NewBranch(""), MISNAMED_PROGRAM, views, 3) == Performed(b2, MISNAMED_PROGRAM[2], views[2]);
    assert "a" + "b" == "ab";
  }

  /** The branch operations accept an intent that names another object, and then the two commits can
      disagree: the misnamed intent exempts a stale read from validation, the batch checks the read all
      the same and fails, and the fallback never looks at a key it does not write and succeeds. */
  lemma MisnamedIntentSplitsVerdicts()
    ensures
      var b := Run(NewBranch(""), MISNAMED_PROGRAM, [map[], map[], map[]], 3);
      var m: Values := map["x" := Entry("v", 1)];
      && Consistent(b.buffer) && Validated(b, m)
      && var plan := PlanCommit(b, ViewsOf(InOrder(b.buffer), m));
         && plan == Planned(map["x" := 0, "y" := 0], [WriteOp("y", "ab")])
         && !BatchCommit(m, plan.checks, plan.writes).ok && ApplyAll(m, plan.writes, plan.checks, []).ok
  {
    MisnamedRun();
    MisnamedSplits(Run(NewBranch(""), MISNAMED_PROGRAM, [map[], map[], map[]], 3), map["x" := Entry("v", 1)]);
  }

  lemma MisnamedSplits(b: BranchState, m: Values)
    requires m == map["x" := Entry("v", 1)]
    requires b.readLog == [ReadRecord("x", 0)] && b.intents == [NAMED, MISNAMED]
    requires b.buffer.order == ["y"] && b.buffer.entries == map["y" := MisnamedEntry()]
    ensures
      && Consistent(b.buffer) && Validated(b, m)
      && var plan := PlanCommit(b, ViewsOf(InOrder(b.buffer), m));
         && plan == Planned(map["x" := 0, "y" := 0], [WriteOp("y", "ab")])
         && !BatchCommit(m, plan.checks, plan.writes).ok && ApplyAll(m, plan.writes, plan.checks, []).ok
  {
    LatestOfTwo(NAMED, MISNAMED);
    assert "x" != "y";
    assert forall id :: id in b.buffer.order <==> id == "y";
    assert Consistent(b.buffer);
    assert InOrder(b.buffer) == [MisnamedEntry()];
    MisnamedPlan(ViewsOf(InOrder(b.buffer), m));
    assert ReadHolds(b.intents, ReadRecord("x", 0), m);
    assert Lookup(m, "x").version == 1;
  }

  lemma LatestOfTwo(first: WriteIntent, second: WriteIntent)
    requires first.objectId != second.objectId
    ensures Latest([first, second], first.objectId) == Some(first)
    ensures Latest([first, second], second.objectId) == Some(second)
  {
    assert [first, second][..1] == [first];
  }

  lemma MisnamedPlan(views: seq<VersionedValue>)
    requires views == [VersionedValue("", 0, false)]
    ensures CollectReads([ReadRecord("x", 0)], map[]) == Planned(map["x" := 0], [])
    ensures PlanEntries([MisnamedEntry()], [NAMED, MISNAMED], views, map["x" := 0], [])
         == Planned(map["x" := 0, "y" := 0], [WriteOp("y", "ab")])
    ensures ApplyAll(map["x" := Entry("v", 1)], [WriteOp("y", "ab")], map["x" := 0, "y" := 0], []).ok
  {
    LatestOfTwo(NAMED, MISNAMED);
    assert "x" != "y";
  }
}
