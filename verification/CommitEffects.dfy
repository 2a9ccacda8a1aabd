/** What the batch of a branch does to the store, object by object, in terms of the intents of the branch. */
module CommitEffects {
  import opened Decimal
  import opened KvStore
  import opened Intents
  import opened WriteBuffers
  import opened Branches
  import opened BranchFold
  import opened PolicyDispatcher
  import opened CommitPlan
  import opened FallbackCommit
  import opened Serializability
  import opened RebaseSerializability
  import opened CommitVerdict

  // ---- What an intent asks for ----

  /** The object holds `value`, one version up. */
  predicate Holds(before: VersionedValue, after: VersionedValue, value: string) {
    after == VersionedValue(value, before.version + 1, true)
  }

  /** What the branch has made of its base value, `branch`, is appended to what is there now; if it does not
      extend the base, then the last payload. */
  ghost predicate Appends(base: string, branch: string, payload: string, before: VersionedValue, after: VersionedValue)
  {
    && (forall tail :: branch == base + tail ==> Holds(before, after, before.value + tail))
    && ((forall tail :: branch != base + tail) ==> Holds(before, after, before.value + payload))
  }

  /** What the branch has added to its base is added to what is there now; if one of both is no integer, then
      the last payload. */
  predicate Adds(base: string, branch: string, payload: string, before: VersionedValue, after: VersionedValue) {
    && ParseInt(before.value).Some?
    && if ParseInt(base).Some? && ParseInt(branch).Some? then
         Holds(before, after, IntText(ParseInt(before.value).value + ParseInt(branch).value - ParseInt(base).value))
       else
         && ParseInt(payload).Some?
         && Holds(before, after, IntText(ParseInt(before.value).value + ParseInt(payload).value))
  }

  /** An overwrite finds its object at the base version, and leaves the payload. A compare-and-swap finds the
      expected value, if it names one, and leaves the payload. */
  ghost predicate Performs(b: BranchState, id: string, before: VersionedValue, after: VersionedValue)
    requires id in b.buffer.entries && Latest(b.intents, id).Some?
  {
    var e, intent := b.buffer.entries[id], Latest(b.intents, id).value;
    match intent.intentType
    case ReadIntent => after == before
    case Overwrite => before.version == e.baseVersion && Holds(before, after, intent.payload)
    case Cas =>
      && (intent.condition.kind.ValueEquals? ==> before.value == intent.condition.expectedValue)
      && Holds(before, after, intent.payload)
    case Append => Appends(e.baseValue, Fold(e.baseValue, b.intents, id), intent.payload, before, after)
    case Delta => Adds(e.baseValue, Fold(e.baseValue, b.intents, id), intent.payload, before, after)
  }

  // ---- One write of a plan ----

  /** The store after the batch. */
  function Batched(b: BranchState, views: seq<VersionedValue>, now: Values): Values
    requires Consistent(b.buffer) && |views| == |b.buffer.order| && BatchSucceeds(b, views, now)
  {
    BatchCommit(now, PlanCommit(b, views).checks, PlanCommit(b, views).writes).values
  }

  lemma WriteIsHeld(now: Values, writes: seq<WriteOp>, w: WriteOp)
    requires DistinctKeys(writes) && w in writes
    ensures Holds(Lookup(now, w.key), Lookup(PutAll(now, writes), w.key), w.value)
  {
    var j :| 0 <= j < |writes| && writes[j] == w;
    PutAllLookup(now, writes, j);
  }

  /** A resolved object holds what it was resolved to, and is at the version that was checked. */
  lemma ResolvedIsHeld(b: BranchState, views: seq<VersionedValue>, now: Values, i: nat)
    requires Consistent(b.buffer) && |views| == |b.buffer.order| && BatchSucceeds(b, views, now) && i < |views|
    ensures var id := b.buffer.order[i];
      && id in b.buffer.entries && Latest(b.intents, id).Some?
      && var before, after := Lookup(now, id), Lookup(Batched(b, views, now), id);
        match ResolvedAt(b, id, views[i].value)
        case Failed(_) => false
        case NoWrite => after == before
        case Store(value) =>
          && Holds(before, after, value)
          && before.version == ExpectedVersion(b.buffer.entries[id], b.intents, views[i])
  {
    var id, plan := b.buffer.order[i], PlanCommit(b, views);
    PlannedObject(b, views, i);
    PlanCommitMeaning(b, views);
    assert PlannedAt(InOrder(b.buffer)[i], b.intents, views[i], CollectReads(b.readLog, map[]).checks, plan);
    match ResolvedAt(b, id, views[i].value)
    case NoWrite => PutAllFrame(now, plan.writes, id);
    case Store(value) => WriteIsHeld(now, plan.writes, WriteOp(id, value));
  }

  lemma UnbufferedIsKept(b: BranchState, views: seq<VersionedValue>, now: Values, id: string)
    requires Consistent(b.buffer) && |views| == |b.buffer.order| && BatchSucceeds(b, views, now)
    requires id !in b.buffer.entries
    ensures Lookup(Batched(b, views, now), id) == Lookup(now, id)
  {
    PlanCommitMeaning(b, views);
    NotBuffered(b.buffer, id);
    PutAllFrame(now, PlanCommit(b, views).writes, id);
  }

  // ---- One intent ----

  lemma ExtendedBy(base: string, branch: string, tail: string)
    requires branch == base + tail
    ensures PolicyDispatcher.StartsWith(branch, base) && branch[|base|..] == tail
  {
  }

  lemma AppendPerforms(e: CacheEntry, intent: WriteIntent, before: VersionedValue, after: VersionedValue)
    requires intent.intentType.Append? && ResolveWrite(e, intent, before.value).Store?
    requires Holds(before, after, ResolveWrite(e, intent, before.value).value)
    ensures Appends(e.baseValue, e.currentValue, intent.payload, before, after)
  {
    forall tail | e.currentValue == e.baseValue + tail
      ensures Holds(before, after, before.value + tail)
    {
      ExtendedBy(e.baseValue, e.currentValue, tail);
    }
    if PolicyDispatcher.StartsWith(e.currentValue, e.baseValue) {
      assert e.currentValue == e.baseValue + e.currentValue[|e.baseValue|..];
    }
  }

  lemma BufferedIsFold(b: BranchState, id: string)
    requires BranchInv(b) && id in b.buffer.entries
    ensures FoldedAt(b.buffer.entries[id], b.intents, id)
  {
  }

  /** What a resolved intent does to the object. */
  ghost predicate Resolves(b: BranchState, id: string, before: VersionedValue, after: VersionedValue)
    requires id in b.buffer.entries && Latest(b.intents, id).Some?
  {
    match ResolvedAt(b, id, before.value)
    case Failed(_) => false
    case NoWrite => after == before
    case Store(value) =>
      && Holds(before, after, value)
      && (Latest(b.intents, id).value.intentType.Overwrite? ==> before.version == b.buffer.entries[id].baseVersion)
  }

  lemma IntentPerforms(b: BranchState, id: string, before: VersionedValue, after: VersionedValue)
    requires id in b.buffer.entries && FoldedAt(b.buffer.entries[id], b.intents, id)
    requires Resolves(b, id, before, after)
    ensures Performs(b, id, before, after)
  {
    var e, intent := b.buffer.entries[id], Latest(b.intents, id).value;
    match intent.intentType
    case ReadIntent =>
    case Overwrite => FoldOfReplaced(e.baseValue, b.intents, id);
    case Cas => FoldOfReplaced(e.baseValue, b.intents, id);
    case Append => AppendPerforms(e, intent, before, after);
    case Delta =>
  }

  /** If what the plan saw of the object is pinned by its version, its intent is performed. */
  lemma ObjectPerforms(b: BranchState, views: seq<VersionedValue>, now: Values, i: nat)
    requires BranchInv(b) && |views| == |b.buffer.order| && BatchSucceeds(b, views, now) && i < |views|
    requires Newer(views[i], Lookup(now, b.buffer.order[i]))
    ensures var id := b.buffer.order[i];
      && id in b.buffer.entries && Latest(b.intents, id).Some?
      && Performs(b, id, Lookup(now, id), Lookup(Batched(b, views, now), id))
  {
    var id := b.buffer.order[i];
    ResolvedIsHeld(b, views, now, i);
    OnlyRebasesLook(b, id, views[i].value, Lookup(now, id).value);
    BufferedIsFold(b, id);
    IntentPerforms(b, id, Lookup(now, id), Lookup(Batched(b, views, now), id));
  }

  /** The batch performs the last intent of every buffered object on what the store then holds, and leaves
      every other object alone. */
  lemma BatchPerforms(b: BranchState, views: seq<VersionedValue>, now: Values)
    requires BranchInv(b) && |views| == |b.buffer.order| && BatchSucceeds(b, views, now)
    requires forall i :: 0 <= i < |views| ==> Newer(views[i], Lookup(now, b.buffer.order[i]))
    ensures forall id :: if id in b.buffer.entries
      then Latest(b.intents, id).Some? && Performs(b, id, Lookup(now, id), Lookup(Batched(b, views, now), id))
      else Lookup(Batched(b, views, now), id) == Lookup(now, id)
  {
    forall id
      ensures if id in b.buffer.entries
        then Latest(b.intents, id).Some? && Performs(b, id, Lookup(now, id), Lookup(Batched(b, views, now), id))
        else Lookup(Batched(b, views, now), id) == Lookup(now, id)
    {
      if id in b.buffer.entries {
        var i := OrderedEntry(b.buffer, id);
        ObjectPerforms(b, views, now, i);
      } else {
        UnbufferedIsKept(b, views, now, id);
      }
    }
  }

  /** So it does for any program interleaved with others who remove no object it has fetched, planned while
      the store changes between any two looks. */
  lemma ExecutionPerforms(x: Execution, seen: seq<VersionedValue>, at: seq<nat>)
    requires x.Valid() && KeepsFetched(x) && (forall op <- x.ops :: Named(op))
    requires Succeeds(x, seen) && PlannedOn(x, seen, at)
    ensures var b := x.End();
      && BatchSucceeds(b, seen, x.Now())
      && forall id :: if id in b.buffer.entries
        then Latest(b.intents, id).Some?
          && Performs(b, id, Lookup(x.Now(), id), Lookup(Batched(b, seen, x.Now()), id))
        else Lookup(Batched(b, seen, x.Now()), id) == Lookup(x.Now(), id)
  {
    var b := x.End();
    RunsAreFolds(x);
    EveryOrderedIsBuffered(b.buffer);
    forall i | 0 <= i < |seen|
      ensures Newer(seen[i], Lookup(x.Now(), b.buffer.order[i]))
    {
      LookIsNewer(x, b.buffer.order[i], seen[i], at[i]);
    }
    BatchPerforms(b, seen, x.Now());
  }

  // ---- Compare and swap, appends, deltas ----

  predicate SwapsOn(b: BranchState, id: string, expected: string) {
    var latest := Latest(b.intents, id);
    && latest.Some? && latest.value.intentType.Cas?
    && latest.value.condition == Condition(ValueEquals, expected)
  }

  /** A compare-and-swap refuses its entry if and only if the plan sees another value than the expected one. */
  lemma SwapIsPlannedExactly(b: BranchState, views: seq<VersionedValue>, i: nat, expected: string)
    requires Consistent(b.buffer) && |views| == |b.buffer.order| && i < |views|
    requires SwapsOn(b, b.buffer.order[i], expected)
    ensures EntryPlans(InOrder(b.buffer)[i], b, views[i]) <==> views[i].value == expected
    ensures views[i].value != expected ==> PlanCommit(b, views).Refused?
  {
    EveryOrderedIsBuffered(b.buffer);
    PlannedExactly(b, views);
  }

  /** An object that is only appended to holds what is there now, followed by the surviving payloads in order. */
  lemma AppendsInOrder(b: BranchState, id: string, before: VersionedValue, after: VersionedValue)
    requires id in b.buffer.entries && Latest(b.intents, id).Some? && AllOfType(b.intents, id, Append)
    requires Performs(b, id, before, after)
    ensures Holds(before, after, before.value + Payloads(b.intents, id))
  {
    LatestOfType(b.intents, id, Append);
    FoldOfAppends(b.buffer.entries[id].baseValue, b.intents, id);
  }

  /** An integer that is only added to holds what is there now, and the surviving deltas added. */
  lemma AddsNet(b: BranchState, id: string, before: VersionedValue, after: VersionedValue)
    requires id in b.buffer.entries && Latest(b.intents, id).Some? && AllOfType(b.intents, id, Delta)
    requires var base := ParseInt(b.buffer.entries[id].baseValue);
      base.Some? && StaysInt64(base.value, b.intents, id)
    requires Performs(b, id, before, after)
    ensures ParseInt(before.value).Some?
      && Holds(before, after, IntText(ParseInt(before.value).value + NetDelta(b.intents, id)))
  {
    LatestOfType(b.intents, id, Delta);
    FoldOfDeltas(b.buffer.entries[id].baseValue, b.intents, id);
  }
}
