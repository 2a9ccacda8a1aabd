/** Serializability up to rebasing. A branch that appends to objects or adds to counters commits over what
    others have written meanwhile, so it does not end as if it had run at the instant of the commit; but it
    sends the very batch that it would have sent then. */
module RebaseSerializability {
  import opened Decimal
  import opened KvStore
  import opened Intents
  import opened WriteBuffers
  import opened Branches
  import opened BranchFold
  import opened PolicyDispatcher
  import opened CommitPlan
  import opened FallbackCommit
  import opened Serializability

  // ---- How one object is resolved ----

  predicate IgnoresBase(intentType: IntentType) {
    intentType.ReadIntent? || intentType.Overwrite? || intentType.Cas?
  }

  /** The last intent decides the value by itself, or there is nothing to write. */
  predicate Replaces(intents: seq<WriteIntent>, id: string) {
    var latest := Latest(intents, id);
    latest.Some? && IgnoresBase(latest.value.intentType)
  }

  /** What committing `b` now would write for an object it buffers. */
  function ResolvedAt(b: BranchState, id: string, current: string): ResolveResult
    requires id in b.buffer.entries && Latest(b.intents, id).Some?
  {
    ResolveWrite(b.buffer.entries[id], Latest(b.intents, id).value, current)
  }

  /** The two branches have written the same intents, but may have started from different values. */
  ghost predicate SameIntents(b: BranchState, c: BranchState, id: string) {
    BranchInv(b) && BranchInv(c) && b.intents == c.intents && id in b.buffer.entries && id in c.buffer.entries
  }

  lemma ReplacedAlike(b: BranchState, c: BranchState, id: string, current: string)
    requires SameIntents(b, c, id) && Replaces(b.intents, id)
    ensures ResolvedAt(b, id, current) == ResolvedAt(c, id, current)
  {
    assert FoldedAt(b.buffer.entries[id], b.intents, id) && FoldedAt(c.buffer.entries[id], c.intents, id);
    if !Latest(b.intents, id).value.intentType.ReadIntent? {
      FoldOfReplaced(b.buffer.entries[id].baseValue, b.intents, id);
      FoldOfReplaced(c.buffer.entries[id].baseValue, c.intents, id);
    }
  }

  lemma AppendedAlike(b: BranchState, c: BranchState, id: string, current: string)
    requires SameIntents(b, c, id) && AllOfType(b.intents, id, Append)
    ensures Mentions(b.intents, id) && ResolvedAt(b, id, current) == ResolvedAt(c, id, current)
  {
    RebaseOfAppends(b, id, current);
    RebaseOfAppends(c, id, current);
  }

  /** The base was an integer, or the earlier deltas cancel out. */
  predicate CountsAll(b: BranchState, id: string)
    requires id in b.buffer.entries && Latest(b.intents, id).Some?
  {
    || ParseInt(b.buffer.entries[id].baseValue).Some?
    || NetDelta(b.intents, id) == DeltaOf(Latest(b.intents, id).value)
  }

  /** No partial sum over this start leaves the 64-bit range; a start that is no integer does not add. */
  predicate AddsInRange(start: string, intents: seq<WriteIntent>, id: string) {
    ParseInt(start).Some? ==> StaysInt64(ParseInt(start).value, intents, id)
  }

  lemma AddedAlike(b: BranchState, c: BranchState, id: string, current: string)
    requires SameIntents(b, c, id) && AllOfType(b.intents, id, Delta)
    requires AddsInRange(b.buffer.entries[id].baseValue, b.intents, id) && AddsInRange(current, b.intents, id)
    requires c.buffer.entries[id].baseValue == current && ParseInt(current).Some?
    requires Mentions(b.intents, id) && ResolvedAt(b, id, current).Store?
    ensures ResolvedAt(b, id, current) == ResolvedAt(c, id, current) <==> CountsAll(b, id)
  {
    RebaseOfDeltas(c, id, current);
    DeltaRebaseExact(b, id, current);
    if ParseInt(b.buffer.entries[id].baseValue).None? {
      DeltaRebaseOnText(b, id, current);
    }
  }

  /** The object ends with an intent that decides its value, or is only appended to, or only added to
      within range, over its base as over what the store holds now. */
  predicate Mergeable(b: BranchState, id: string, now: string)
    requires id in b.buffer.entries
  {
    || Replaces(b.intents, id)
    || AllOfType(b.intents, id, Append)
    || (&& AllOfType(b.intents, id, Delta)
        && AddsInRange(b.buffer.entries[id].baseValue, b.intents, id) && AddsInRange(now, b.intents, id))
  }

  predicate Rebasing(b: BranchState, id: string) {
    var latest := Latest(b.intents, id);
    latest.Some? && UsesSemanticRebase(latest.value.intentType)
  }

  predicate OnlyAdded(b: BranchState, id: string) {
    AllOfType(b.intents, id, Delta)
  }

  lemma OneKind(b: BranchState, id: string)
    requires Latest(b.intents, id).Some?
    ensures OnlyAdded(b, id) ==> Latest(b.intents, id).value.intentType.Delta?
    ensures AllOfType(b.intents, id, Append) ==> Latest(b.intents, id).value.intentType.Append?
  {
    assert Latest(b.intents, id).value in b.intents;
  }

  lemma OnlyRebasesLook(b: BranchState, id: string, view: string, now: string)
    requires id in b.buffer.entries && Latest(b.intents, id).Some? && (Rebasing(b, id) ==> view == now)
    ensures ResolvedAt(b, id, view) == ResolvedAt(b, id, now)
  {
  }

  /** The object is only added to, and an earlier delta would be lost. */
  predicate Loses(b: BranchState, id: string) {
    OnlyAdded(b, id) && id in b.buffer.entries && Latest(b.intents, id).Some? && !CountsAll(b, id)
  }

  /** `c` started from what the store holds now, and `b` was planned over it. */
  lemma ResolvedAlike(b: BranchState, c: BranchState, id: string, view: string, now: string)
    requires SameIntents(b, c, id) && Latest(b.intents, id).Some? && Mergeable(b, id, now)
    requires !ResolvedAt(b, id, view).Failed? && (Rebasing(b, id) ==> view == now)
    requires c.buffer.entries[id].baseValue == now
    ensures ResolvedAt(b, id, view) == ResolvedAt(c, id, now) <==> !Loses(b, id)
    ensures Loses(b, id) ==> Rebasing(b, id)
  {
    OneKind(b, id);
    OnlyRebasesLook(b, id, view, now);
    if Replaces(b.intents, id) {
      ReplacedAlike(b, c, id, now);
    } else if AllOfType(b.intents, id, Append) {
      AppendedAlike(b, c, id, now);
    } else {
      AddedIsStored(b, id, now);
      AddedAlike(b, c, id, now);
    }
  }

  lemma AddedIsStored(b: BranchState, id: string, current: string)
    requires id in b.buffer.entries && Latest(b.intents, id).Some? && Latest(b.intents, id).value.intentType.Delta?
    requires !ResolvedAt(b, id, current).Failed?
    ensures ParseInt(current).Some? && ResolvedAt(b, id, current).Store?
  {
  }

  // ---- What a plan holds for one object ----

  lemma PlannedObject(b: BranchState, seen: seq<VersionedValue>, i: nat)
    requires Consistent(b.buffer) && |seen| == |b.buffer.order| && PlanCommit(b, seen).Planned? && i < |seen|
    ensures var plan, id := PlanCommit(b, seen), b.buffer.order[i];
      && id in b.buffer.entries && InOrder(b.buffer)[i] == b.buffer.entries[id] && b.buffer.entries[id].objectId == id
      && Latest(b.intents, id).Some?
      && Resolution(b.buffer.entries[id], b.intents, seen[i]) == ResolvedAt(b, id, seen[i].value)
      && !ResolvedAt(b, id, seen[i].value).Failed?
  {
    EveryOrderedIsBuffered(b.buffer);
    PlanCommitMeaning(b, seen);
    assert PlannedAt(
      InOrder(b.buffer)[i], b.intents, seen[i], CollectReads(b.readLog, map[]).checks, PlanCommit(b, seen));
  }

  /** A rebased object is checked at the version seen, and the plan writes what it resolved. */
  lemma PlannedRebase(b: BranchState, seen: seq<VersionedValue>, i: nat)
    requires Consistent(b.buffer) && |seen| == |b.buffer.order| && PlanCommit(b, seen).Planned? && i < |seen|
    requires Rebasing(b, b.buffer.order[i])
    ensures var plan, id := PlanCommit(b, seen), b.buffer.order[i];
      && id in b.buffer.entries && DistinctKeys(plan.writes)
      && id in plan.checks && plan.checks[id] == seen[i].version
      && ResolvedAt(b, id, seen[i].value).Store? && WriteOp(id, ResolvedAt(b, id, seen[i].value).value) in plan.writes
  {
    PlannedObject(b, seen, i);
    PlanCommitMeaning(b, seen);
    assert PlannedAt(
      InOrder(b.buffer)[i], b.intents, seen[i], CollectReads(b.readLog, map[]).checks, PlanCommit(b, seen));
  }

  /** So plans that resolve a rebased object differently differ. */
  lemma DifferentlyResolved(
      b: BranchState, c: BranchState, seen: seq<VersionedValue>, seen': seq<VersionedValue>, i: nat)
    requires Consistent(b.buffer) && Consistent(c.buffer) && b.intents == c.intents && b.buffer.order == c.buffer.order
    requires |seen| == |seen'| == |b.buffer.order| && i < |seen| && Rebasing(b, b.buffer.order[i])
    requires b.buffer.order[i] in b.buffer.entries && b.buffer.order[i] in c.buffer.entries
    requires ResolvedAt(b, b.buffer.order[i], seen[i].value) != ResolvedAt(c, b.buffer.order[i], seen'[i].value)
    ensures PlanCommit(b, seen).Planned? ==> PlanCommit(c, seen') != PlanCommit(b, seen)
  {
    if PlanCommit(b, seen).Planned? {
      PlannedRebase(b, seen, i);
      if PlanCommit(c, seen') == PlanCommit(b, seen) {
        PlannedRebase(c, seen', i);
      }
    }
  }

  // ---- Executions ----

  /** The plan looked at object `id` after the program had run, and found `view`. */
  ghost predicate LookedAt(x: Execution, id: string, view: VersionedValue, t: nat)
    requires x.Valid()
  {
    && t <= |x.history| && view == Lookup(After(x.m, x.history, t), id)
    && forall j :: 0 <= j < |x.times| ==> x.times[j] <= t
  }

  /** The plan looked at the buffered objects in order, each at its own time. */
  ghost predicate PlannedOn(x: Execution, seen: seq<VersionedValue>, at: seq<nat>)
    requires x.Valid()
  {
    && |seen| == |at| == |x.End().buffer.order|
    && forall i :: 0 <= i < |at| ==> LookedAt(x, x.End().buffer.order[i], seen[i], at[i])
  }

  /** Such an execution, planned, with a batch that succeeds. */
  ghost predicate Merges(x: Execution, seen: seq<VersionedValue>, at: seq<nat>) {
    && x.Valid() && KeepsFetched(x) && (forall op <- x.ops :: Named(op))
    && Succeeds(x, seen) && PlannedOn(x, seen, at)
    && forall id <- x.End().buffer.entries :: Mergeable(x.End(), id, Lookup(x.Now(), id).value)
  }

  ghost predicate FetchedAt(x: Execution, id: string, i: nat) {
    x.Valid() && i < |x.ops| && Fetches(x.At(i), x.ops[i]) && x.ops[i].objectId == id
  }

  ghost predicate Fetched(e: CacheEntry, x: Execution) {
    exists i: nat :: FetchedAt(x, e.objectId, i)
  }

  ghost function FetchedBy(x: Execution): CacheEntry -> bool {
    e => Fetched(e, x)
  }

  lemma WrittenIsFetched(x: Execution, i: nat)
    requires x.Valid() && i < |x.ops| && x.ops[i].Write? && Throughout(x.At(i).buffer, FetchedBy(x))
    ensures var op := x.ops[i];
      Fetched(EntryAfter(StartingEntry(x.At(i), op.objectId, op.objectType, x.Views()[i]), op.objectType, op.intent), x)
  {
    RunsAreOrderly(x, i);
    if x.ops[i].objectId !in x.At(i).buffer.entries {
      assert FetchedAt(x, x.ops[i].objectId, i);
    } else {
      assert Fetched(x.At(i).buffer.entries[x.ops[i].objectId], x);
    }
  }

  lemma StepKeepsFetched(x: Execution, i: nat)
    requires x.Valid() && i < |x.ops| && Throughout(x.At(i).buffer, FetchedBy(x))
    ensures Throughout(x.At(i + 1).buffer, FetchedBy(x))
  {
    var b := x.At(i);
    assert x.At(i + 1) == Performed(b, x.ops[i], x.Views()[i]);
    match x.ops[i]
    case Write(id, ty, intent) =>
      WrittenIsFetched(x, i);
      UpsertKeepsThroughout(
        b.buffer, EntryAfter(StartingEntry(b, id, ty, x.Views()[i]), ty, intent), FetchedBy(x));
    case RollbackTo(id) =>
      var s := FindSavepoint(b.savepoints, id);
      if s < |b.savepoints| {
        TruncateKeepsThroughout(b.buffer, b.savepoints[s].writeLogPosition, FetchedBy(x));
      }
    case _ =>
  }

  lemma NothingFetched(x: Execution)
    requires x.Valid()
    ensures Throughout(x.At(0).buffer, FetchedBy(x))
  {
  }

  /** Every entry a branch buffers, or could bring back by undoing, was fetched by some operation. */
  lemma {:induction false} EntriesAreFetched(x: Execution, n: nat)
    requires x.Valid() && n <= |x.ops|
    ensures Throughout(x.At(n).buffer, FetchedBy(x))
  {
    if n == 0 {
      NothingFetched(x);
    } else {
      EntriesAreFetched(x, n - 1);
      StepKeepsFetched(x, n - 1);
    }
  }

  /** What the plan saw of a buffered object is pinned by its version. */
  lemma LookIsNewer(x: Execution, id: string, view: VersionedValue, t: nat)
    requires x.Valid() && KeepsFetched(x) && id in x.End().buffer.entries && LookedAt(x, id, view, t)
    ensures Newer(view, Lookup(x.Now(), id))
  {
    EntriesAreFetched(x, |x.ops|);
    RunsAreOrderly(x, |x.ops|);
    assert Fetched(x.End().buffer.entries[id], x);
    var i: nat :| FetchedAt(x, id, i);
    assert KeepsFetchedAt(x, i);
    VersionPinsValue(x.m, x.history, t, |x.history|, id);
  }

  /** The checks of the plan passed, so what it saw of a rebased object is what the store still holds. */
  lemma RebasedIsCurrent(x: Execution, seen: seq<VersionedValue>, at: seq<nat>, i: nat)
    requires x.Valid() && KeepsFetched(x) && Succeeds(x, seen) && PlannedOn(x, seen, at) && i < |seen|
    requires Rebasing(x.End(), x.End().buffer.order[i])
    ensures seen[i].value == Lookup(x.Now(), x.End().buffer.order[i]).value
  {
    PlannedRebase(x.End(), seen, i);
    LookIsNewer(x, x.End().buffer.order[i], seen[i], at[i]);
  }

  // ---- The plan of the second run ----

  /** The second run plans entry `f` as the first planned `e`, and at the version that `now` holds. */
  ghost predicate PlansAlike(
    e: CacheEntry, f: CacheEntry, intents: seq<WriteIntent>, view: VersionedValue, view': VersionedValue, now: Values)
  {
    && e.objectId == f.objectId
    && Resolution(e, intents, view) == Resolution(f, intents, view')
    && f.baseVersion == view'.version == Lookup(now, f.objectId).version
  }

  lemma {:induction false} ReadsAgain(
      records: seq<ReadRecord>, records': seq<ReadRecord>, checks: map<string, nat>, checks': map<string, nat>,
      now: Values)
    requires |records| == |records'| && forall i :: 0 <= i < |records| ==> AgreeingRead(records[i], records'[i], now)
    requires checks.Keys == checks'.Keys && AllCurrent(now, checks')
    requires CollectReads(records, checks).Planned?
    ensures var p, q := CollectReads(records, checks), CollectReads(records', checks');
      q.Planned? && q.checks.Keys == p.checks.Keys && AllCurrent(now, q.checks)
    decreases records
  {
    if records != [] {
      var r, q := records[0], records'[0];
      assert AgreeingRead(r, q, now);
      ReadsAgain(records[1..], records'[1..], checks[r.objectId := r.observedVersion],
                 checks'[q.objectId := q.observedVersion], now);
    }
  }

  /** The second run, whose checks all hold, plans the same writes and checks the same keys. */
  lemma {:induction false} EntriesAgain(
      entries: seq<CacheEntry>, entries': seq<CacheEntry>, intents: seq<WriteIntent>,
      seen: seq<VersionedValue>, seen': seq<VersionedValue>, checks: map<string, nat>, checks': map<string, nat>,
      writes: seq<WriteOp>, now: Values)
    requires |entries| == |entries'| == |seen| == |seen'|
    requires forall i :: 0 <= i < |entries| ==> PlansAlike(entries[i], entries'[i], intents, seen[i], seen'[i], now)
    requires checks.Keys == checks'.Keys && AllCurrent(now, checks')
    requires PlanEntries(entries, intents, seen, checks, writes).Planned?
    ensures var p, q :=
      PlanEntries(entries, intents, seen, checks, writes), PlanEntries(entries', intents, seen', checks', writes);
      q.Planned? && q.writes == p.writes && q.checks.Keys == p.checks.Keys && AllCurrent(now, q.checks)
    decreases entries
  {
    if entries != [] {
      var e, f := entries[0], entries'[0];
      assert PlansAlike(e, f, intents, seen[0], seen'[0], now);
      match Resolution(e, intents, seen[0])
      case NoWrite =>
        EntriesAgain(entries[1..], entries'[1..], intents, seen[1..], seen'[1..], checks, checks', writes, now);
      case Store(value) =>
        EntriesAgain(entries[1..], entries'[1..], intents, seen[1..], seen'[1..],
                     checks[e.objectId := ExpectedVersion(e, intents, seen[0])],
                     checks'[f.objectId := ExpectedVersion(f, intents, seen'[0])],
                     writes + [WriteOp(e.objectId, value)], now);
    }
  }

  lemma SamePlanAgain(
      b: BranchState, c: BranchState, seen: seq<VersionedValue>, seen': seq<VersionedValue>, now: Values)
    requires Consistent(b.buffer) && Consistent(c.buffer) && Agreeing(b, c, now)
    requires |seen| == |seen'| == |b.buffer.order| && PlanCommit(b, seen).Planned?
    requires forall i :: 0 <= i < |seen| ==>
      PlansAlike(InOrder(b.buffer)[i], InOrder(c.buffer)[i], b.intents, seen[i], seen'[i], now)
    requires AllCurrent(now, PlanCommit(b, seen).checks)
    ensures PlanCommit(c, seen') == PlanCommit(b, seen)
  {
    ReadsAgain(b.readLog, c.readLog, map[], map[], now);
    EntriesAgain(InOrder(b.buffer), InOrder(c.buffer), b.intents, seen, seen',
                 CollectReads(b.readLog, map[]).checks, CollectReads(c.readLog, map[]).checks, [], now);
    assert PlanCommit(c, seen').checks == PlanCommit(b, seen).checks;
  }

  // ---- Both runs ----

  lemma RunsAreFolds(x: Execution)
    requires x.Valid() && forall op <- x.ops :: Named(op)
    ensures BranchInv(x.End()) && BranchInv(x.Again(|x.ops|))
  {
    NewBranchInv(x.branchId);
    BufferIsFold(NewBranch(x.branchId), x.ops, x.Views(), |x.ops|);
    BufferIsFold(NewBranch(x.branchId), x.ops, seq(|x.ops|, _ => x.Now()), |x.ops|);
  }

  /** Every object that is only added to is added to in full. */
  predicate AllCount(b: BranchState) {
    forall id <- b.buffer.entries :: !Loses(b, id)
  }

  lemma BothHold(x: Execution, id: string)
    requires x.Valid() && KeepsFetched(x) && (forall op <- x.ops :: Named(op)) && id in x.End().buffer.entries
    ensures SameIntents(x.End(), x.Again(|x.ops|), id) && Latest(x.End().intents, id).Some?
    ensures x.Again(|x.ops|).buffer.entries[id].baseValue == Lookup(x.Now(), id).value
  {
    RunsAreFolds(x);
    RunAgrees(x, |x.ops|);
    assert FoldedAt(x.End().buffer.entries[id], x.End().intents, id);
    AgainCopiesNow(x, id);
  }

  lemma ObjectAlike(x: Execution, seen: seq<VersionedValue>, at: seq<nat>, i: nat)
    requires Merges(x, seen, at) && i < |seen|
    ensures var b, c, id := x.End(), x.Again(|x.ops|), x.End().buffer.order[i];
      && SameIntents(b, c, id) && Latest(b.intents, id).Some?
      && (ResolvedAt(b, id, seen[i].value) == ResolvedAt(c, id, Lookup(x.Now(), id).value) <==> !Loses(b, id))
      && (Loses(b, id) ==> Rebasing(b, id))
  {
    var id := x.End().buffer.order[i];
    PlannedObject(x.End(), seen, i);
    if Rebasing(x.End(), id) {
      RebasedIsCurrent(x, seen, at, i);
    }
    BothHold(x, id);
    ResolvedAlike(x.End(), x.Again(|x.ops|), id, seen[i].value, Lookup(x.Now(), id).value);
  }

  lemma EntryAlike(x: Execution, id: string)
    requires x.Valid() && Agreeing(x.End(), x.Again(|x.ops|), x.Now()) && id in x.End().buffer.entries
    requires Consistent(x.End().buffer) && Consistent(x.Again(|x.ops|).buffer)
    ensures var e, f := x.End().buffer.entries[id], x.Again(|x.ops|).buffer.entries[id];
      e.objectId == f.objectId == id && f.baseVersion == Lookup(x.Now(), id).version
  {
    assert AgreeingEntry(x.End().buffer.entries[id], x.Again(|x.ops|).buffer.entries[id], x.Now());
  }

  /** What the store shows the second run for its `i`th object. */
  lemma ViewAgain(c: BranchState, m: Values, i: nat)
    requires Consistent(c.buffer) && i < |c.buffer.order|
    ensures ViewsOf(InOrder(c.buffer), m)[i] == Lookup(m, c.buffer.order[i])
    ensures c.buffer.order[i] in c.buffer.entries && InOrder(c.buffer)[i] == c.buffer.entries[c.buffer.order[i]]
  {
    EveryOrderedIsBuffered(c.buffer);
  }

  lemma CountingPlansAlike(x: Execution, seen: seq<VersionedValue>, at: seq<nat>, i: nat)
    requires Merges(x, seen, at) && i < |seen| && AllCount(x.End())
    requires Agreeing(x.End(), x.Again(|x.ops|), x.Now()) && Consistent(x.Again(|x.ops|).buffer)
    ensures var b, c := x.End(), x.Again(|x.ops|);
      PlansAlike(InOrder(b.buffer)[i], InOrder(c.buffer)[i], b.intents, seen[i],
                 ViewsOf(InOrder(c.buffer), x.Now())[i], x.Now())
  {
    ObjectAlike(x, seen, at, i);
    PlannedObject(x.End(), seen, i);
    ViewAgain(x.Again(|x.ops|), x.Now(), i);
    EntryAlike(x, x.End().buffer.order[i]);
  }

  lemma LosingPlansDiffer(x: Execution, seen: seq<VersionedValue>, at: seq<nat>)
    requires Merges(x, seen, at) && !AllCount(x.End())
    requires Agreeing(x.End(), x.Again(|x.ops|), x.Now()) && Consistent(x.Again(|x.ops|).buffer)
    ensures var c := x.Again(|x.ops|); PlanCommit(c, ViewsOf(InOrder(c.buffer), x.Now())) != PlanCommit(x.End(), seen)
  {
    var c := x.Again(|x.ops|);
    var i := LosingIndex(x.End());
    ObjectAlike(x, seen, at, i);
    ViewAgain(c, x.Now(), i);
    DifferentlyResolved(x.End(), c, seen, ViewsOf(InOrder(c.buffer), x.Now()), i);
  }

  lemma LosingIndex(b: BranchState) returns (i: nat)
    requires Consistent(b.buffer) && !AllCount(b)
    ensures i < |b.buffer.order| && Loses(b, b.buffer.order[i])
  {
    var id :| id in b.buffer.entries && Loses(b, id);
    i := OrderedEntry(b.buffer, id);
  }

  /** Serializability of programs that overwrite, compare and swap, append and add: run any program, rollbacks
      included, interleaved with others who do anything but remove an object it has fetched, and plan it, the
      store possibly changing between any two looks. If its batch succeeds, it is, checks and writes, the
      batch that the same program would have sent if all of it had run at that instant; exactly if every
      object that is only added to started as an integer, or its earlier deltas cancel out. */
  lemma BatchSerializability(x: Execution, seen: seq<VersionedValue>, at: seq<nat>)
    requires Merges(x, seen, at)
    ensures var c := x.Again(|x.ops|);
      && Consistent(c.buffer)
      && (PlanCommit(c, ViewsOf(InOrder(c.buffer), x.Now())) == PlanCommit(x.End(), seen) <==> AllCount(x.End()))
  {
    var c := x.Again(|x.ops|);
    RunAgrees(x, |x.ops|);
    RunsAreOrderly(x, |x.ops|);
    if AllCount(x.End()) {
      forall i | 0 <= i < |seen|
        ensures PlansAlike(InOrder(x.End().buffer)[i], InOrder(c.buffer)[i], x.End().intents, seen[i],
                           ViewsOf(InOrder(c.buffer), x.Now())[i], x.Now())
      {
        CountingPlansAlike(x, seen, at, i);
      }
      SamePlanAgain(x.End(), c, seen, ViewsOf(InOrder(c.buffer), x.Now()), x.Now());
    } else {
      LosingPlansDiffer(x, seen, at);
    }
  }
}
