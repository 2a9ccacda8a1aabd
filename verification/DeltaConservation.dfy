/** Conservation of deltas: concurrent transactions that only add to a counter lose nothing and count
    nothing twice. */
module DeltaConservation {
  import opened Decimal
  import opened KvStore
  import opened Intents
  import opened WriteBuffers
  import opened Branches
  import opened BranchFold
  import opened PolicyDispatcher
  import opened CommitPlan
  import opened FallbackCommit

  /** A commit attempt: the branch, what the store showed while it was planned, and when the branch first
      read the counter and when the plan did. */
  datatype Attempt = Attempt(branch: BranchState, seen: seq<VersionedValue>, baseTime: nat, planTime: nat)

  predicate IsInteger(m: Values, key: string) { ParseInt(Lookup(m, key).value).Some? }

  function NumberOf(text: string): int {
    match ParseInt(text)
    case Some(n) => n
    case None => 0
  }

  function Counter(m: Values, key: string): int { NumberOf(Lookup(m, key).value) }

  ghost predicate IsBatchOf(op: StoreOp, plan: Plan) {
    plan.Planned? && op.BatchOp? && op.writes == plan.writes && Lists(op.checks, plan.checks)
  }

  /** Operation `t` of the history is the batch that attempt `a` sends, and `a` only adds to the counter,
      without leaving the 64-bit range. Both of its looks at the counter may be out of date. */
  ghost predicate Sends(m: Values, history: seq<StoreOp>, key: string, t: nat, a: Attempt)
    requires t < |history|
  {
    && BranchInv(a.branch) && |a.seen| == |a.branch.buffer.order|
    && IsBatchOf(history[t], PlanCommit(a.branch, a.seen))
    && AllOfType(a.branch.intents, key, Delta)
    && a.baseTime <= t && a.planTime <= t
    && (forall i | 0 <= i < |a.seen| && a.branch.buffer.order[i] == key ::
          a.seen[i] == Lookup(After(m, history, a.planTime), key))
    && (key in a.branch.buffer.entries ==>
          && a.branch.buffer.entries[key].baseValue == Lookup(After(m, history, a.baseTime), key).value
          && StaysInt64(Counter(After(m, history, a.baseTime), key), a.branch.intents, key))
  }

  /** What operation `t` is allowed to do to the counter: an attempt must send its batch, with a sum that
      fits 64 bits if it commits; any other operation must leave an integer. */
  ghost predicate Sound(m: Values, history: seq<StoreOp>, key: string, attempts: map<nat, Attempt>, t: nat)
    requires t < |history|
  {
    if t in attempts then
      && Sends(m, history, key, t, attempts[t])
      && (Succeeds(m, history, t) ==>
            IsInt64(Counter(After(m, history, t), key) + NetDelta(attempts[t].branch.intents, key)))
    else
      IsInteger(After(m, history, t + 1), key)
  }

  predicate Succeeds(m: Values, history: seq<StoreOp>, t: nat)
    requires t < |history|
  {
    history[t].BatchOp? && ChecksHold(After(m, history, t), history[t].checks)
  }

  /** The deltas of exactly the attempts that committed among the first `n` operations. */
  ghost function CommittedDeltas(
    m: Values, history: seq<StoreOp>, key: string, attempts: map<nat, Attempt>, n: nat): int
    requires n <= |history|
  {
    if n == 0 then 0
    else
      CommittedDeltas(m, history, key, attempts, n - 1)
        + if n - 1 in attempts && Succeeds(m, history, n - 1) then NetDelta(attempts[n - 1].branch.intents, key) else 0
  }

  /** What everyone else added to the counter. */
  ghost function ExternalChange(m: Values, history: seq<StoreOp>, key: string, attempts: map<nat, Attempt>, n: nat): int
    requires n <= |history|
  {
    if n == 0 then 0
    else
      ExternalChange(m, history, key, attempts, n - 1)
        + if n - 1 in attempts then 0
          else Counter(After(m, history, n), key) - Counter(After(m, history, n - 1), key)
  }

  lemma {:induction false} NetDeltaUnmentioned(intents: seq<WriteIntent>, key: string)
    requires !Mentions(intents, key)
    ensures NetDelta(intents, key) == 0
  {
    if intents != [] {
      assert intents[|intents| - 1] in intents;
      assert forall intent <- intents[..|intents| - 1] :: intent in intents;
      NetDeltaUnmentioned(intents[..|intents| - 1], key);
    }
  }

  predicate WritesNumber(writes: seq<WriteOp>, key: string, n: int) {
    WriteOp(key, IntText(n)) in writes
  }

  lemma NumberWritten(m: Values, writes: seq<WriteOp>, key: string, n: int)
    requires DistinctKeys(writes) && WritesNumber(writes, key, n) && IsInt64(n)
    ensures IsInteger(PutAll(m, writes), key) && Counter(PutAll(m, writes), key) == n
  {
    var j :| 0 <= j < |writes| && writes[j] == WriteOp(key, IntText(n));
    PutAllLookup(m, writes, j);
    ParsePrintedInt(n);
  }

  /** What a plan that only adds to the counter holds for it, by the value it saw. */
  lemma PlannedAddition(b: BranchState, seen: seq<VersionedValue>, key: string, i: nat)
    requires BranchInv(b) && |seen| == |b.buffer.order| && PlanCommit(b, seen).Planned?
    requires AllOfType(b.intents, key, Delta) && i < |seen| && b.buffer.order[i] == key && key in b.buffer.entries
    requires ParseInt(b.buffer.entries[key].baseValue).Some?
    requires StaysInt64(ParseInt(b.buffer.entries[key].baseValue).value, b.intents, key)
    requires ParseInt(seen[i].value).Some?
    ensures var plan := PlanCommit(b, seen);
      && DistinctKeys(plan.writes)
      && WritesNumber(plan.writes, key, ParseInt(seen[i].value).value + NetDelta(b.intents, key))
      && key in plan.checks && plan.checks[key] == seen[i].version
  {
    PlanCommitMeaning(b, seen);
    RebaseOfDeltas(b, key, seen[i].value);
    LatestOfType(b.intents, key, Delta);
    assert InOrder(b.buffer)[i] == b.buffer.entries[key];
    assert PlannedAt(
      InOrder(b.buffer)[i], b.intents, seen[i], CollectReads(b.readLog, map[]).checks, PlanCommit(b, seen));
  }

  lemma NoAddition(b: BranchState, seen: seq<VersionedValue>, key: string)
    requires BranchInv(b) && |seen| == |b.buffer.order| && PlanCommit(b, seen).Planned?
    requires key !in b.buffer.entries
    ensures !WritesKey(PlanCommit(b, seen).writes, key) && NetDelta(b.intents, key) == 0
  {
    PlanCommitMeaning(b, seen);
    NotBuffered(b.buffer, key);
    assert !Mentions(b.intents, key);
    NetDeltaUnmentioned(b.intents, key);
  }

  /** If the plan's checks hold on a store where an unchanged version means an unchanged value, the batch
      adds the net delta to what the counter holds there. */
  lemma BatchAdds(
      b: BranchState, seen: seq<VersionedValue>, key: string, i: nat, now: Values, checks: seq<VersionCheck>)
    requires BranchInv(b) && |seen| == |b.buffer.order| && PlanCommit(b, seen).Planned?
    requires AllOfType(b.intents, key, Delta) && i < |seen| && b.buffer.order[i] == key && key in b.buffer.entries
    requires ParseInt(b.buffer.entries[key].baseValue).Some?
    requires StaysInt64(ParseInt(b.buffer.entries[key].baseValue).value, b.intents, key)
    requires ParseInt(seen[i].value).Some? && Newer(seen[i], Lookup(now, key))
    requires Lists(checks, PlanCommit(b, seen).checks) && ChecksHold(now, checks)
    requires IsInt64(Counter(now, key) + NetDelta(b.intents, key))
    ensures var m' := PutAll(now, PlanCommit(b, seen).writes);
      IsInteger(m', key) && Counter(m', key) == Counter(now, key) + NetDelta(b.intents, key)
  {
    var writes := PlanCommit(b, seen).writes;
    var sum := Counter(now, key) + NetDelta(b.intents, key);
    PlannedAddition(b, seen, key, i);
    ListedChecksHold(checks, PlanCommit(b, seen).checks, now);
    assert Lookup(now, key).value == seen[i].value;
    NumberWritten(now, writes, key, sum);
  }

  /** A key that stays an integer is never removed, for an absent key reads as empty text. */
  lemma IntegersAreKept(m: Values, history: seq<StoreOp>, t0: nat, t1: nat, key: string)
    requires t1 <= |history| && forall s :: 0 <= s <= t1 ==> IsInteger(After(m, history, s), key)
    ensures Kept(m, history, t0, t1, key)
  {
    forall t | t0 <= t < t1
      ensures !Erases(After(m, history, t), history[t], key)
    {
      IntegerIsKept(m, history, t, key);
    }
  }

  lemma IntegerIsKept(m: Values, history: seq<StoreOp>, t: nat, key: string)
    requires t < |history| && IsInteger(After(m, history, t + 1), key)
    ensures !Erases(After(m, history, t), history[t], key)
  {
    assert ParseInt("").None?;
  }

  lemma IntegersArePinned(m: Values, history: seq<StoreOp>, t0: nat, t1: nat, key: string)
    requires t0 <= t1 <= |history| && forall s :: 0 <= s <= t1 ==> IsInteger(After(m, history, s), key)
    ensures Newer(Lookup(After(m, history, t0), key), Lookup(After(m, history, t1), key))
  {
    IntegersAreKept(m, history, t0, t1, key);
    VersionPinsValue(m, history, t0, t1, key);
  }

  /** A committed attempt adds its net delta to what the counter holds at that instant. */
  lemma CommitAdds(m: Values, history: seq<StoreOp>, key: string, attempts: map<nat, Attempt>, t: nat)
    requires t < |history| && t in attempts
    requires Sound(m, history, key, attempts, t) && Succeeds(m, history, t)
    requires forall s :: 0 <= s <= t ==> IsInteger(After(m, history, s), key)
    ensures IsInteger(After(m, history, t + 1), key)
    ensures Counter(After(m, history, t + 1), key)
         == Counter(After(m, history, t), key) + NetDelta(attempts[t].branch.intents, key)
  {
    var a, now := attempts[t], After(m, history, t);
    assert After(m, history, t + 1) == Apply(now, history[t]) == PutAll(now, history[t].writes);
    if key in a.branch.buffer.entries {
      var i := OrderedEntry(a.branch.buffer, key);
      assert a.seen[i] == Lookup(After(m, history, a.planTime), key);
      assert IsInteger(After(m, history, a.planTime), key) && IsInteger(After(m, history, a.baseTime), key);
      IntegersArePinned(m, history, a.planTime, t, key);
      BatchAdds(a.branch, a.seen, key, i, now, history[t].checks);
    } else {
      NoAddition(a.branch, a.seen, key);
      PutAllFrame(now, history[t].writes, key);
    }
  }

  lemma OperationChanges(m: Values, history: seq<StoreOp>, key: string, attempts: map<nat, Attempt>, t: nat)
    requires t < |history| && Sound(m, history, key, attempts, t)
    requires forall s :: 0 <= s <= t ==> IsInteger(After(m, history, s), key)
    ensures IsInteger(After(m, history, t + 1), key)
    ensures t in attempts ==>
      Counter(After(m, history, t + 1), key) == Counter(After(m, history, t), key)
        + if Succeeds(m, history, t) then NetDelta(attempts[t].branch.intents, key) else 0
  {
    if t in attempts {
      if Succeeds(m, history, t) {
        CommitAdds(m, history, key, attempts, t);
      } else {
        FailedBatchChangesNothing(m, history, t);
      }
    }
  }

  lemma FailedBatchChangesNothing(m: Values, history: seq<StoreOp>, t: nat)
    requires t < |history| && history[t].BatchOp? && !Succeeds(m, history, t)
    ensures After(m, history, t + 1) == After(m, history, t)
  {
  }

  /** After each of the first `n` operations the counter is an integer. */
  ghost predicate IntegersTo(m: Values, history: seq<StoreOp>, key: string, n: nat)
    requires n <= |history|
  {
    IsInteger(After(m, history, n), key) && (n > 0 ==> IntegersTo(m, history, key, n - 1))
  }

  lemma {:induction false} IntegerAt(m: Values, history: seq<StoreOp>, key: string, n: nat, t: nat)
    requires t <= n <= |history| && IntegersTo(m, history, key, n)
    ensures IsInteger(After(m, history, t), key)
  {
    if t < n {
      IntegerAt(m, history, key, n - 1, t);
    }
  }

  lemma OneMoreOperation(m: Values, history: seq<StoreOp>, key: string, attempts: map<nat, Attempt>, t: nat)
    requires t < |history| && Sound(m, history, key, attempts, t) && IntegersTo(m, history, key, t)
    ensures IntegersTo(m, history, key, t + 1)
    ensures t in attempts ==>
      Counter(After(m, history, t + 1), key) == Counter(After(m, history, t), key)
        + if Succeeds(m, history, t) then NetDelta(attempts[t].branch.intents, key) else 0
  {
    forall s | 0 <= s <= t
      ensures IsInteger(After(m, history, s), key)
    {
      IntegerAt(m, history, key, t, s);
    }
    OperationChanges(m, history, key, attempts, t);
  }

  lemma {:induction false} ConservedTo(
      m: Values, history: seq<StoreOp>, key: string, attempts: map<nat, Attempt>, n: nat)
    requires n <= |history| && IsInteger(m, key)
    requires forall t :: 0 <= t < |history| ==> Sound(m, history, key, attempts, t)
    ensures IntegersTo(m, history, key, n)
    ensures Counter(After(m, history, n), key)
         == Counter(m, key) + CommittedDeltas(m, history, key, attempts, n)
           + ExternalChange(m, history, key, attempts, n)
  {
    if n > 0 {
      ConservedTo(m, history, key, attempts, n - 1);
      OneMoreOperation(m, history, key, attempts, n - 1);
    }
  }

  /** Conservation, over any interleaving of such transactions with any other operations that leave the
      counter an integer: after `n` operations the counter is its initial value, plus the net deltas of exactly
      the committed attempts, plus what the others added. */
  lemma DeltaConservation(m: Values, history: seq<StoreOp>, key: string, attempts: map<nat, Attempt>, n: nat)
    requires n <= |history| && IsInteger(m, key)
    requires forall t :: 0 <= t < |history| ==> Sound(m, history, key, attempts, t)
    ensures forall t :: 0 <= t <= n ==> IsInteger(After(m, history, t), key)
    ensures Counter(After(m, history, n), key)
         == Counter(m, key) + CommittedDeltas(m, history, key, attempts, n)
           + ExternalChange(m, history, key, attempts, n)
  {
    ConservedTo(m, history, key, attempts, n);
    forall t | 0 <= t <= n
      ensures IsInteger(After(m, history, t), key)
    {
      IntegerAt(m, history, key, n, t);
    }
  }

  // ---- Real executions ----

  /** Such an attempt is what every execution sends: a fresh branch runs any program, each operation on the
      content the store had at its own time, then is planned on the content at `planTime`, and its batch
      is operation `t`. That its base value once stood in the store is a consequence. */
  lemma ExecutionSends(
      m: Values, history: seq<StoreOp>, key: string, t: nat,
      branchId: string, ops: seq<BranchOp>, views: seq<Values>, times: seq<nat>, planTime: nat)
    returns (a: Attempt)
    requires t < |history| && planTime <= t && |ops| == |views| == |times| && forall op <- ops :: Named(op)
    requires forall i :: 0 <= i < |ops| ==> times[i] <= t && views[i] == After(m, history, times[i])
    requires var b := Run(NewBranch(branchId), ops, views, |ops|);
      && Consistent(b.buffer) && AllOfType(b.intents, key, Delta)
      && (key in b.buffer.entries ==>
            StaysInt64(NumberOf(b.buffer.entries[key].baseValue), b.intents, key))
      && IsBatchOf(history[t], PlanCommit(b, ViewsOf(InOrder(b.buffer), After(m, history, planTime))))
    ensures a.branch == Run(NewBranch(branchId), ops, views, |ops|)
    ensures Sends(m, history, key, t, a)
  {
    var b := Run(NewBranch(branchId), ops, views, |ops|);
    ExecutedBranch(branchId, ops, views);
    var baseTime: nat := 0;
    if key in b.buffer.entries {
      var i :| 0 <= i < |views| && CopiedFrom(b.buffer.entries[key], views[i]);
      baseTime := times[i];
    }
    a := Attempt(b, ViewsOf(InOrder(b.buffer), After(m, history, planTime)), baseTime, planTime);
    BranchSends(m, history, key, t, a);
  }

  lemma BaseStaysInt64(m: Values, b: BranchState, key: string)
    requires Consistent(b.buffer) && key in b.buffer.entries && CopiedFrom(b.buffer.entries[key], m)
    requires StaysInt64(NumberOf(b.buffer.entries[key].baseValue), b.intents, key)
    ensures b.buffer.entries[key].baseValue == Lookup(m, key).value && StaysInt64(Counter(m, key), b.intents, key)
  {
    assert b.buffer.entries[key].objectId == key;
  }

  lemma BranchSends(m: Values, history: seq<StoreOp>, key: string, t: nat, a: Attempt)
    requires t < |history| && a.baseTime <= t && a.planTime <= t && BranchInv(a.branch)
    requires AllOfType(a.branch.intents, key, Delta)
    requires a.seen == ViewsOf(InOrder(a.branch.buffer), After(m, history, a.planTime))
    requires IsBatchOf(history[t], PlanCommit(a.branch, a.seen))
    requires key in a.branch.buffer.entries ==>
      && CopiedFrom(a.branch.buffer.entries[key], After(m, history, a.baseTime))
      && StaysInt64(NumberOf(a.branch.buffer.entries[key].baseValue), a.branch.intents, key)
    ensures Sends(m, history, key, t, a)
  {
    if key in a.branch.buffer.entries {
      BaseStaysInt64(After(m, history, a.baseTime), a.branch, key);
    }
    forall i | 0 <= i < |a.seen| && a.branch.buffer.order[i] == key
      ensures a.seen[i] == Lookup(After(m, history, a.planTime), key)
    {
      ViewedAt(a.branch.buffer, After(m, history, a.planTime), i);
    }
  }

  lemma ViewedAt(b: Buffer, m: Values, i: nat)
    requires Consistent(b) && i < |b.order|
    ensures ViewsOf(InOrder(b), m)[i] == Lookup(m, b.order[i])
  {
    EveryOrderedIsBuffered(b);
  }

  lemma ExecutedBranch(branchId: string, ops: seq<BranchOp>, views: seq<Values>)
    requires |ops| == |views| && forall op <- ops :: Named(op)
    ensures var b := Run(NewBranch(branchId), ops, views, |ops|);
      BranchInv(b) && forall id <- b.buffer.entries :: CopiedFromOne(b.buffer.entries[id], views)
  {
    NewBranchInv(branchId);
    BufferIsFold(NewBranch(branchId), ops, views, |ops|);
    BasesComeFromViews(NewBranch(branchId), ops, views, |ops|);
  }
}
