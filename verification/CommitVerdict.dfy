/** When a plan exists, and when its batch succeeds. */
module CommitVerdict {
  import opened Decimal
  import opened KvStore
  import opened Intents
  import opened WriteBuffers
  import opened Branches
  import opened BranchFold
  import opened PolicyDispatcher
  import opened CommitPlan
  import opened FallbackCommit

  // ---- Reads ----

  /** No object was read at two versions. */
  predicate ReadsAgree(records: seq<ReadRecord>) {
    forall r, q | r in records && q in records :: r.objectId == q.objectId ==> r.observedVersion == q.observedVersion
  }

  predicate FitChecks(records: seq<ReadRecord>, checks: map<string, nat>) {
    forall r <- records :: r.objectId in checks ==> checks[r.objectId] == r.observedVersion
  }

  /** Reading an object again is refused only if its version moved in between. */
  lemma {:induction false} ReadsPlannedExactly(records: seq<ReadRecord>, checks: map<string, nat>)
    ensures CollectReads(records, checks).Planned? <==> ReadsAgree(records) && FitChecks(records, checks)
    decreases records
  {
    if records != [] {
      var r, rest := records[0], records[1..];
      ReadsPlannedExactly(rest, checks[r.objectId := r.observedVersion]);
      assert forall q <- records :: q == r || q in rest;
      assert r in records && forall q <- rest :: q in records;
    }
  }

  // ---- Entries ----

  /** The last intent rebases: it is resolved against what the store holds at commit. */
  predicate RebasesLast(b: BranchState, id: string) {
    var latest := Latest(b.intents, id);
    latest.Some? && (latest.value.intentType.Append? || latest.value.intentType.Delta? || latest.value.intentType.Cas?)
  }

  /** What the value of an entry needs of the stored value: a compare-and-swap its expected value, and a delta an
      integer to add to and an integer to add. */
  predicate CanResolve(e: CacheEntry, intent: WriteIntent, current: string) {
    match intent.intentType
    case Cas => intent.condition.kind.ValueEquals? ==> current == intent.condition.expectedValue
    case Delta =>
      && ParseInt(current).Some?
      && ((ParseInt(e.baseValue).Some? && ParseInt(e.currentValue).Some?) || ParseInt(intent.payload).Some?)
    case _ => true
  }

  lemma ResolvesExactly(e: CacheEntry, intent: WriteIntent, current: string)
    ensures ResolveWrite(e, intent, current).Failed? <==> !CanResolve(e, intent, current)
    ensures ResolveWrite(e, intent, current).NoWrite? <==> intent.intentType.ReadIntent?
  {
  }

  /** The entry has an intent that can be resolved, and if it is written at its base version, every read of
      its object was at that version. */
  ghost predicate EntryPlans(e: CacheEntry, b: BranchState, view: VersionedValue) {
    && Latest(b.intents, e.objectId).Some?
    && var intent := Latest(b.intents, e.objectId).value;
      && CanResolve(e, intent, view.value)
      && (intent.intentType.Overwrite? ==>
            forall r <- b.readLog :: r.objectId == e.objectId ==> r.observedVersion == e.baseVersion)
  }

  ghost predicate EntryFits(e: CacheEntry, intents: seq<WriteIntent>, view: VersionedValue, checks: map<string, nat>) {
    && Latest(intents, e.objectId).Some?
    && var intent := Latest(intents, e.objectId).value;
      && CanResolve(e, intent, view.value)
      && (intent.intentType.Overwrite? && e.objectId in checks ==> checks[e.objectId] == e.baseVersion)
  }

  lemma {:induction false} EntriesPlannedExactly(
      entries: seq<CacheEntry>, intents: seq<WriteIntent>, views: seq<VersionedValue>,
      checks: map<string, nat>, writes: seq<WriteOp>)
    requires |views| == |entries| && DistinctIds(entries)
    ensures PlanEntries(entries, intents, views, checks, writes).Planned? <==>
      forall i :: 0 <= i < |entries| ==> EntryFits(entries[i], intents, views[i], checks)
    decreases entries
  {
    if entries != [] {
      var e := entries[0];
      if Latest(intents, e.objectId).Some? {
        ResolvesExactly(e, Latest(intents, e.objectId).value, views[0].value);
      }
      match Resolution(e, intents, views[0])
      case Failed(_) => assert !EntryFits(entries[0], intents, views[0], checks);
      case NoWrite =>
        EntriesPlannedExactly(entries[1..], intents, views[1..], checks, writes);
        RestFits(entries, intents, views, checks, checks);
      case Store(value) =>
        var longer := checks[e.objectId := ExpectedVersion(e, intents, views[0])];
        EntriesPlannedExactly(entries[1..], intents, views[1..], longer, writes + [WriteOp(e.objectId, value)]);
        RestFits(entries, intents, views, checks, longer);
    }
  }

  /** The check that the first entry adds is about no other entry. */
  lemma RestFits(
      entries: seq<CacheEntry>, intents: seq<WriteIntent>, views: seq<VersionedValue>,
      checks: map<string, nat>, longer: map<string, nat>)
    requires |views| == |entries| > 0 && DistinctIds(entries)
    requires forall id :: id != entries[0].objectId ==> SameCheck(id, checks, longer)
    ensures (forall i :: 0 <= i < |entries| ==> EntryFits(entries[i], intents, views[i], checks)) <==>
      && EntryFits(entries[0], intents, views[0], checks)
      && forall i :: 0 <= i < |entries[1..]| ==> EntryFits(entries[1..][i], intents, views[1..][i], longer)
  {
    forall i | 0 < i < |entries|
      ensures EntryFits(entries[i], intents, views[i], checks) <==>
        EntryFits(entries[1..][i - 1], intents, views[1..][i - 1], longer)
    {
      assert entries[0].objectId != entries[i].objectId;
      assert SameCheck(entries[i].objectId, checks, longer);
    }
  }

  // ---- Plans ----

  lemma EntryFitsCollected(b: BranchState, e: CacheEntry, view: VersionedValue)
    requires CollectReads(b.readLog, map[]).Planned?
    ensures EntryFits(e, b.intents, view, CollectReads(b.readLog, map[]).checks) <==> EntryPlans(e, b, view)
  {
    CollectReadsMeaning(b.readLog, map[]);
  }

  /** There is a plan if and only if no object was read at two versions, every buffered object can be resolved,
      and every read of an overwritten object was at the version its write starts from. */
  lemma PlannedExactly(b: BranchState, views: seq<VersionedValue>)
    requires Consistent(b.buffer) && |views| == |b.buffer.order|
    ensures PlanCommit(b, views).Planned? <==>
      && ReadsAgree(b.readLog)
      && forall i :: 0 <= i < |views| ==> EntryPlans(InOrder(b.buffer)[i], b, views[i])
  {
    ReadsPlannedExactly(b.readLog, map[]);
    match CollectReads(b.readLog, map[])
    case Refused(_) =>
    case Planned(checks, _) =>
      EveryOrderedIsBuffered(b.buffer);
      EntriesPlannedExactly(InOrder(b.buffer), b.intents, views, checks, []);
      forall i | 0 <= i < |views|
        ensures EntryFits(InOrder(b.buffer)[i], b.intents, views[i], checks) <==>
          EntryPlans(InOrder(b.buffer)[i], b, views[i])
      {
        EntryFitsCollected(b, InOrder(b.buffer)[i], views[i]);
      }
  }

  // ---- Batches ----

  predicate BatchSucceeds(b: BranchState, views: seq<VersionedValue>, now: Values)
    requires Consistent(b.buffer) && |views| == |b.buffer.order|
  {
    var plan := PlanCommit(b, views);
    plan.Planned? && BatchCommit(now, plan.checks, plan.writes).ok
  }

  /** An overwritten object is still at the version the branch started from, and a rebased one at the version
      that the plan saw. */
  ghost predicate EntryCommits(e: CacheEntry, b: BranchState, view: VersionedValue, now: Values) {
    && Latest(b.intents, e.objectId).Some?
    && var intent := Latest(b.intents, e.objectId).value;
      && CanResolve(e, intent, view.value)
      && (intent.intentType.Overwrite? ==> Lookup(now, e.objectId).version == e.baseVersion)
      && (RebasesLast(b, e.objectId) ==> Lookup(now, e.objectId).version == view.version)
  }

  /** A read is still current, unless its object is rebased. */
  predicate ReadCommits(r: ReadRecord, b: BranchState, now: Values) {
    || Lookup(now, r.objectId).version == r.observedVersion
    || (r.objectId in b.buffer.entries && RebasesLast(b, r.objectId))
  }

  ghost predicate EntriesCommit(b: BranchState, views: seq<VersionedValue>, now: Values)
    requires Consistent(b.buffer) && |views| == |b.buffer.order|
  {
    forall i :: 0 <= i < |views| ==> EntryCommits(InOrder(b.buffer)[i], b, views[i], now)
  }

  ghost predicate AllCommit(b: BranchState, views: seq<VersionedValue>, now: Values)
    requires Consistent(b.buffer) && |views| == |b.buffer.order|
  {
    EntriesCommit(b, views, now) && forall r <- b.readLog :: ReadCommits(r, b, now)
  }

  /** What a plan checks for an entry. */
  lemma EntryIsChecked(b: BranchState, views: seq<VersionedValue>, i: nat)
    requires Consistent(b.buffer) && |views| == |b.buffer.order| && PlanCommit(b, views).Planned? && i < |views|
    ensures CollectReads(b.readLog, map[]).Planned?
    ensures var e, checks := InOrder(b.buffer)[i], PlanCommit(b, views).checks;
      && Latest(b.intents, e.objectId).Some?
      && var intent := Latest(b.intents, e.objectId).value;
        && CanResolve(e, intent, views[i].value)
        && (intent.intentType.Overwrite? ==> e.objectId in checks && checks[e.objectId] == e.baseVersion)
        && (RebasesLast(b, e.objectId) ==> e.objectId in checks && checks[e.objectId] == views[i].version)
        && (intent.intentType.ReadIntent? ==> SameCheck(e.objectId, CollectReads(b.readLog, map[]).checks, checks))
  {
    var e := InOrder(b.buffer)[i];
    PlannedExactly(b, views);
    PlanCommitMeaning(b, views);
    assert PlannedAt(e, b.intents, views[i], CollectReads(b.readLog, map[]).checks, PlanCommit(b, views));
    ResolvesExactly(e, Latest(b.intents, e.objectId).value, views[i].value);
  }

  lemma SuccessMeansAllCommit(b: BranchState, views: seq<VersionedValue>, now: Values)
    requires Consistent(b.buffer) && |views| == |b.buffer.order| && BatchSucceeds(b, views, now)
    ensures ReadsAgree(b.readLog) && AllCommit(b, views, now)
  {
    PlannedExactly(b, views);
    PlanCommitMeaning(b, views);
    CollectReadsMeaning(b.readLog, map[]);
    forall i | 0 <= i < |views|
      ensures EntryCommits(InOrder(b.buffer)[i], b, views[i], now)
    {
      EntryIsChecked(b, views, i);
    }
    forall r <- b.readLog
      ensures ReadCommits(r, b, now)
    {
      ReadIsCurrent(b, views, now, r);
    }
  }

  lemma ReadIsCurrent(b: BranchState, views: seq<VersionedValue>, now: Values, r: ReadRecord)
    requires Consistent(b.buffer) && |views| == |b.buffer.order| && BatchSucceeds(b, views, now) && r in b.readLog
    ensures ReadCommits(r, b, now)
  {
    PlanCommitMeaning(b, views);
    CollectReadsMeaning(b.readLog, map[]);
    if r.objectId in b.buffer.entries {
      var i := OrderedEntry(b.buffer, r.objectId);
      EntryIsChecked(b, views, i);
      PlannedExactly(b, views);
      assert EntryPlans(InOrder(b.buffer)[i], b, views[i]);
    } else {
      NotBuffered(b.buffer, r.objectId);
      assert SameCheck(r.objectId, CollectReads(b.readLog, map[]).checks, PlanCommit(b, views).checks);
    }
  }

  lemma AllCommitMeansSuccess(b: BranchState, views: seq<VersionedValue>, now: Values)
    requires Consistent(b.buffer) && |views| == |b.buffer.order| && ReadsAgree(b.readLog) && AllCommit(b, views, now)
    ensures BatchSucceeds(b, views, now)
  {
    forall i | 0 <= i < |views|
      ensures EntryPlans(InOrder(b.buffer)[i], b, views[i])
    {
      assert EntryCommits(InOrder(b.buffer)[i], b, views[i], now);
    }
    PlannedExactly(b, views);
    forall key <- PlanCommit(b, views).checks
      ensures Lookup(now, key).version == PlanCommit(b, views).checks[key]
    {
      CheckIsCurrent(b, views, now, key);
    }
  }

  lemma CheckIsCurrent(b: BranchState, views: seq<VersionedValue>, now: Values, key: string)
    requires Consistent(b.buffer) && |views| == |b.buffer.order| && AllCommit(b, views, now)
    requires PlanCommit(b, views).Planned? && key in PlanCommit(b, views).checks
    ensures Lookup(now, key).version == PlanCommit(b, views).checks[key]
  {
    PlanCommitMeaning(b, views);
    CollectReadsMeaning(b.readLog, map[]);
    if key in b.buffer.entries {
      var i := OrderedEntry(b.buffer, key);
      EntryIsChecked(b, views, i);
      assert EntryCommits(InOrder(b.buffer)[i], b, views[i], now);
    } else {
      NotBuffered(b.buffer, key);
      assert SameCheck(key, CollectReads(b.readLog, map[]).checks, PlanCommit(b, views).checks);
    }
  }

  /** The batch of a branch succeeds if and only if no object was read at two versions, every buffered object can
      be resolved over what the plan saw, overwritten objects are at the version the branch started from and
      rebased ones at the version the plan saw, and every read of an object that is not rebased is current. */
  lemma BatchSucceedsExactly(b: BranchState, views: seq<VersionedValue>, now: Values)
    requires Consistent(b.buffer) && |views| == |b.buffer.order|
    ensures BatchSucceeds(b, views, now) <==> ReadsAgree(b.readLog) && AllCommit(b, views, now)
  {
    if BatchSucceeds(b, views, now) {
      SuccessMeansAllCommit(b, views, now);
    }
    if ReadsAgree(b.readLog) && AllCommit(b, views, now) {
      AllCommitMeansSuccess(b, views, now);
    }
  }

  /** So validation refuses no branch whose batch would succeed. */
  lemma ValidationIsImplied(b: BranchState, views: seq<VersionedValue>, now: Values)
    requires Consistent(b.buffer) && |views| == |b.buffer.order| && BatchSucceeds(b, views, now)
    ensures Validated(b, now)
  {
    SuccessMeansAllCommit(b, views, now);
    forall r <- b.readLog
      ensures ReadHolds(b.intents, r, now)
    {
      assert ReadCommits(r, b, now);
    }
  }

  // ---- An unchanged store ----

  /** What the operations see while nobody changes the store. */
  function Steady(n: nat, m: Values): (views: seq<Values>)
    ensures |views| == n && forall i :: 0 <= i < n ==> views[i] == m
  {
    seq(n, _ => m)
  }

  ghost predicate ReadsCurrent(b: BranchState, m: Values) {
    forall r <- b.readLog :: r.observedVersion == Lookup(m, r.objectId).version
  }

  ghost predicate BasesCurrent(b: BranchState, m: Values) {
    forall id <- b.buffer.entries :: CopiedFrom(b.buffer.entries[id], m)
  }

  lemma {:induction false} ReadsAreCurrent(branchId: string, ops: seq<BranchOp>, m: Values, n: nat)
    requires n <= |ops|
    ensures ReadsCurrent(Run(NewBranch(branchId), ops, Steady(|ops|, m), n), m)
  {
    if n > 0 {
      ReadsAreCurrent(branchId, ops, m, n - 1);
    }
  }

  lemma BasesAreCurrent(branchId: string, ops: seq<BranchOp>, m: Values)
    ensures BasesCurrent(Run(NewBranch(branchId), ops, Steady(|ops|, m), |ops|), m)
  {
    var views := Steady(|ops|, m);
    BasesComeFromViews(NewBranch(branchId), ops, views, |ops|);
    var b := Run(NewBranch(branchId), ops, views, |ops|);
    forall id <- b.buffer.entries
      ensures CopiedFrom(b.buffer.entries[id], m)
    {
      assert CopiedFromOne(b.buffer.entries[id], views);
    }
  }

  lemma CurrentRunIsFold(branchId: string, ops: seq<BranchOp>, m: Values)
    requires forall op <- ops :: Named(op)
    ensures BranchInv(Run(NewBranch(branchId), ops, Steady(|ops|, m), |ops|))
  {
    NewBranchInv(branchId);
    BufferIsFold(NewBranch(branchId), ops, Steady(|ops|, m), |ops|);
  }

  /** Every buffered object can be resolved over `m`. */
  ghost predicate AllResolve(b: BranchState, m: Values) {
    forall id <- b.buffer.entries :: Latest(b.intents, id).Some? ==>
      CanResolve(b.buffer.entries[id], Latest(b.intents, id).value, Lookup(m, id).value)
  }

  ghost predicate CommitsIfResolved(b: BranchState, m: Values) {
    && Consistent(b.buffer) && Validated(b, m)
    && (BatchSucceeds(b, ViewsOf(InOrder(b.buffer), m), m) <==> AllResolve(b, m))
  }

  /** A program that ran while nobody changed the store, and is committed while nobody does, passes validation,
      and its batch succeeds if and only if its compare-and-swaps and deltas can be resolved. */
  lemma UnchangedStoreCommits(branchId: string, ops: seq<BranchOp>, m: Values)
    requires forall op <- ops :: Named(op)
    ensures CommitsIfResolved(Run(NewBranch(branchId), ops, Steady(|ops|, m), |ops|), m)
  {
    CurrentRunIsFold(branchId, ops, m);
    ReadsAreCurrent(branchId, ops, m, |ops|);
    BasesAreCurrent(branchId, ops, m);
    CurrentBranchCommits(Run(NewBranch(branchId), ops, Steady(|ops|, m), |ops|), m);
  }

  lemma CurrentBranchCommits(b: BranchState, m: Values)
    requires BranchInv(b) && BasesCurrent(b, m) && ReadsCurrent(b, m)
    ensures CommitsIfResolved(b, m)
  {
    assert WellFormed(b.buffer);
    BatchSucceedsExactly(b, ViewsOf(InOrder(b.buffer), m), m);
    CurrentReadsCommit(b, m);
    CurrentEntriesCommit(b, m);
  }

  lemma CurrentReadsCommit(b: BranchState, m: Values)
    requires ReadsCurrent(b, m)
    ensures ReadsAgree(b.readLog) && Validated(b, m)
    ensures forall r <- b.readLog :: ReadCommits(r, b, m)
  {
  }

  lemma CurrentEntriesCommit(b: BranchState, m: Values)
    requires BranchInv(b) && BasesCurrent(b, m)
    ensures EntriesCommit(b, ViewsOf(InOrder(b.buffer), m), m) <==> AllResolve(b, m)
  {
    var views := ViewsOf(InOrder(b.buffer), m);
    forall i | 0 <= i < |views|
      ensures var id := b.buffer.order[i];
        && id in b.buffer.entries
        && (EntryCommits(InOrder(b.buffer)[i], b, views[i], m) <==>
              CanResolve(b.buffer.entries[id], Latest(b.intents, id).value, Lookup(m, id).value))
    {
      CurrentEntryCommits(b, m, i);
    }
    if !AllResolve(b, m) {
      var id :| id in b.buffer.entries && Latest(b.intents, id).Some?
        && !CanResolve(b.buffer.entries[id], Latest(b.intents, id).value, Lookup(m, id).value);
      var i := OrderedEntry(b.buffer, id);
      assert !EntryCommits(InOrder(b.buffer)[i], b, views[i], m);
    }
  }

  lemma CurrentEntryCommits(b: BranchState, m: Values, i: nat)
    requires BranchInv(b) && i < |b.buffer.order|
    requires BasesCurrent(b, m)
    ensures var id := b.buffer.order[i];
      && id in b.buffer.entries && Latest(b.intents, id).Some?
      && (EntryCommits(InOrder(b.buffer)[i], b, ViewsOf(InOrder(b.buffer), m)[i], m) <==>
            CanResolve(b.buffer.entries[id], Latest(b.intents, id).value, Lookup(m, id).value))
  {
    var id := b.buffer.order[i];
    EveryOrderedIsBuffered(b.buffer);
    assert FoldedAt(b.buffer.entries[id], b.intents, id) && CopiedFrom(b.buffer.entries[id], m);
  }
}
