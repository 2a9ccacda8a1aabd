/** What a winning branch asks of the store: the version checks and the writes. */
module CommitPlan {
  import opened KvStore
  import opened Intents
  import opened WriteBuffers
  import opened Branches
  import opened BranchFold
  import opened PolicyDispatcher

  // ---- Validation ----

  /** A read of an object whose latest intent rebases is not checked; any other must still be current. */
  predicate ReadHolds(intents: seq<WriteIntent>, r: ReadRecord, m: Values) {
    var latest := Latest(intents, r.objectId);
    || (latest.Some? && UsesSemanticRebase(latest.value.intentType))
    || Lookup(m, r.objectId).version == r.observedVersion
  }

  predicate Validated(b: BranchState, m: Values) {
    forall r <- b.readLog :: ReadHolds(b.intents, r, m)
  }

  // ---- Planning ----

  datatype Plan =
    | Planned(checks: map<string, nat>, writes: seq<WriteOp>)
    | Refused(reason: string)

  /** Folds the recorded reads into checks; two versions of one object are refused. */
  function CollectReads(records: seq<ReadRecord>, checks: map<string, nat>): Plan
    decreases records
  {
    if records == [] then Planned(checks, [])
    else
      var r := records[0];
      if r.objectId in checks && checks[r.objectId] != r.observedVersion then
        Refused("inconsistent read versions for " + r.objectId)
      else
        CollectReads(records[1..], checks[r.objectId := r.observedVersion])
  }

  /** What one buffered entry contributes when the store shows `view` for it. */
  function Resolution(e: CacheEntry, intents: seq<WriteIntent>, view: VersionedValue): ResolveResult {
    match Latest(intents, e.objectId)
    case None => Failed("missing latest intent")
    case Some(intent) => ResolveWrite(e, intent, view.value)
  }

  predicate Rebases(e: CacheEntry, intents: seq<WriteIntent>) {
    var latest := Latest(intents, e.objectId);
    latest.Some? && UsesSemanticRebase(latest.value.intentType)
  }

  /** The version a written entry is checked against: the one just seen for a rebase, else its base. */
  function ExpectedVersion(e: CacheEntry, intents: seq<WriteIntent>, view: VersionedValue): nat {
    if Rebases(e, intents) then view.version else e.baseVersion
  }

  /** Resolves the entries in order; `views[i]` is what the store showed for `entries[i]`. */
  function PlanEntries(
    entries: seq<CacheEntry>, intents: seq<WriteIntent>, views: seq<VersionedValue>,
    checks: map<string, nat>, writes: seq<WriteOp>): Plan
    requires |views| == |entries|
    decreases entries
  {
    if entries == [] then Planned(checks, writes)
    else
      var e := entries[0];
      match Resolution(e, intents, views[0])
      case Failed(reason) => Refused(reason + " for " + e.objectId)
      case NoWrite => PlanEntries(entries[1..], intents, views[1..], checks, writes)
      case Store(value) =>
        var version := ExpectedVersion(e, intents, views[0]);
        if !Rebases(e, intents) && e.objectId in checks && checks[e.objectId] != version then
          Refused("conflicting expected versions for " + e.objectId)
        else
          PlanEntries(
            entries[1..], intents, views[1..], checks[e.objectId := version], writes + [WriteOp(e.objectId, value)])
  }

  function PlanCommit(b: BranchState, views: seq<VersionedValue>): Plan
    requires Consistent(b.buffer) && |views| == |b.buffer.order|
  {
    match CollectReads(b.readLog, map[])
    case Refused(reason) => Refused(reason)
    case Planned(checks, _) => PlanEntries(InOrder(b.buffer), b.intents, views, checks, [])
  }

  /** What the store shows for each entry when nobody interferes. */
  function ViewsOf(entries: seq<CacheEntry>, m: Values): seq<VersionedValue> {
    seq(|entries|, i requires 0 <= i < |entries| => Lookup(m, entries[i].objectId))
  }

  // ---- What a plan means ----

  lemma {:induction false} CollectReadsMeaning(records: seq<ReadRecord>, checks: map<string, nat>)
    requires CollectReads(records, checks).Planned?
    ensures var collected := CollectReads(records, checks).checks;
      && (forall id <- checks :: id in collected && collected[id] == checks[id])
      && (forall r <- records :: r.objectId in collected && collected[r.objectId] == r.observedVersion)
      && (forall id <- collected :: id in checks || exists r <- records :: r.objectId == id)
    decreases records
  {
    if records != [] {
      var r := records[0];
      var longer := checks[r.objectId := r.observedVersion];
      CollectReadsMeaning(records[1..], longer);
      var collected := CollectReads(records, checks).checks;
      assert r.objectId in longer;
      forall id <- collected
        ensures id in checks || exists r' <- records :: r'.objectId == id
      {
        if id !in longer {
          var r' :| r' in records[1..] && r'.objectId == id;
          assert r' in records;
        } else if id !in checks {
          assert r in records;
        }
      }
      assert forall id <- checks :: id in longer;
    }
  }

  predicate DistinctIds(entries: seq<CacheEntry>) {
    forall i, j :: 0 <= i < j < |entries| ==> entries[i].objectId != entries[j].objectId
  }

  /** The check and the write a plan holds for entry `i`. */
  ghost predicate PlannedAt(
    e: CacheEntry, intents: seq<WriteIntent>, view: VersionedValue, before: map<string, nat>, plan: Plan)
    requires plan.Planned?
  {
    match Resolution(e, intents, view)
    case Failed(_) => false
    case NoWrite => SameCheck(e.objectId, before, plan.checks) && !WritesKey(plan.writes, e.objectId)
    case Store(value) =>
      && WriteOp(e.objectId, value) in plan.writes
      && e.objectId in plan.checks
      && plan.checks[e.objectId] == ExpectedVersion(e, intents, view)
      && (!Rebases(e, intents) && e.objectId in before ==> before[e.objectId] == e.baseVersion)
  }

  predicate SameCheck(id: string, before: map<string, nat>, after: map<string, nat>) {
    if id in before then id in after && after[id] == before[id] else id !in after
  }

  predicate AnyId(entries: seq<CacheEntry>, id: string) {
    exists e <- entries :: e.objectId == id
  }

  ghost predicate PlanMeans(
    entries: seq<CacheEntry>, intents: seq<WriteIntent>, views: seq<VersionedValue>,
    checks: map<string, nat>, writes: seq<WriteOp>, plan: Plan)
    requires |views| == |entries| && plan.Planned?
  {
    && writes <= plan.writes
    && DistinctKeys(plan.writes)
    && (forall w <- plan.writes :: w in writes || AnyId(entries, w.key))
    && (forall id :: !AnyId(entries, id) ==> SameCheck(id, checks, plan.checks))
    && (forall i :: 0 <= i < |entries| ==> PlannedAt(entries[i], intents, views[i], checks, plan))
  }

  lemma {:induction false} PlanEntriesMeaning(
      entries: seq<CacheEntry>, intents: seq<WriteIntent>, views: seq<VersionedValue>,
      checks: map<string, nat>, writes: seq<WriteOp>)
    requires |views| == |entries| && DistinctIds(entries)
    requires DistinctKeys(writes) && forall e <- entries :: !WritesKey(writes, e.objectId)
    requires PlanEntries(entries, intents, views, checks, writes).Planned?
    ensures PlanMeans(entries, intents, views, checks, writes, PlanEntries(entries, intents, views, checks, writes))
    decreases entries
  {
    if entries != [] {
      var e := entries[0];
      var plan := PlanEntries(entries, intents, views, checks, writes);
      match Resolution(e, intents, views[0])
      case NoWrite =>
        RestIsFresh(entries, writes);
        PlanEntriesMeaning(entries[1..], intents, views[1..], checks, writes);
        PlanHead(entries, intents, views, checks, writes, checks, writes, plan);
      case Store(value) =>
        var version := ExpectedVersion(e, intents, views[0]);
        var longer := writes + [WriteOp(e.objectId, value)];
        RestIsFresh(entries, writes);
        ExtendedIsFresh(entries, writes, value);
        PlanEntriesMeaning(entries[1..], intents, views[1..], checks[e.objectId := version], longer);
        PlanHead(entries, intents, views, checks, writes, checks[e.objectId := version], longer, plan);
    }
  }

  lemma RestIsFresh(entries: seq<CacheEntry>, writes: seq<WriteOp>)
    requires entries != [] && DistinctIds(entries)
    requires forall e <- entries :: !WritesKey(writes, e.objectId)
    ensures DistinctIds(entries[1..])
    ensures forall e <- entries[1..] :: !WritesKey(writes, e.objectId) && e.objectId != entries[0].objectId
    ensures !AnyId(entries[1..], entries[0].objectId)
  {
    assert forall e <- entries[1..] :: e in entries;
  }

  lemma ExtendedIsFresh(entries: seq<CacheEntry>, writes: seq<WriteOp>, value: string)
    requires entries != [] && DistinctIds(entries)
    requires DistinctKeys(writes) && forall e <- entries :: !WritesKey(writes, e.objectId)
    ensures DistinctKeys(writes + [WriteOp(entries[0].objectId, value)])
    ensures forall e <- entries[1..] :: !WritesKey(writes + [WriteOp(entries[0].objectId, value)], e.objectId)
  {
    var longer := writes + [WriteOp(entries[0].objectId, value)];
    RestIsFresh(entries, writes);
    assert entries[0] in entries;
    forall i | 0 <= i < |writes|
      ensures writes[i].key != entries[0].objectId
    {
      assert writes[i] in writes;
    }
    forall e <- entries[1..]
      ensures !WritesKey(longer, e.objectId)
    {
      assert forall w <- longer :: w in writes || w == WriteOp(entries[0].objectId, value);
    }
  }

  /** From the plan for the rest of the entries to the plan for all of them. */
  lemma PlanHead(
      entries: seq<CacheEntry>, intents: seq<WriteIntent>, views: seq<VersionedValue>,
      checks: map<string, nat>, writes: seq<WriteOp>,
      nextChecks: map<string, nat>, nextWrites: seq<WriteOp>, plan: Plan)
    requires |views| == |entries| > 0 && DistinctIds(entries) && plan.Planned?
    requires forall e <- entries :: !WritesKey(writes, e.objectId)
    requires PlanMeans(entries[1..], intents, views[1..], nextChecks, nextWrites, plan)
    requires match Resolution(entries[0], intents, views[0])
      case Failed(_) => false
      case NoWrite => nextChecks == checks && nextWrites == writes
      case Store(value) =>
        var id, version := entries[0].objectId, ExpectedVersion(entries[0], intents, views[0]);
        && (!Rebases(entries[0], intents) && id in checks ==> checks[id] == version)
        && nextChecks == checks[id := version] && nextWrites == writes + [WriteOp(id, value)]
    ensures PlanMeans(entries, intents, views, checks, writes, plan)
  {
    var e := entries[0];
    var rest := entries[1..];
    RestIsFresh(entries, writes);
    assert forall x <- entries :: x == e || x in rest;
    assert forall x <- rest :: x in entries;
    forall w <- plan.writes
      ensures w in writes || AnyId(entries, w.key)
    {
      if w in nextWrites {
        assert w in writes || w.key == e.objectId;
      }
    }
    assert SameCheck(e.objectId, nextChecks, plan.checks);
    forall i | 0 <= i < |entries|
      ensures PlannedAt(entries[i], intents, views[i], checks, plan)
    {
      if i > 0 {
        assert entries[i] == rest[i - 1] && views[i] == views[1..][i - 1];
        assert rest[i - 1] in rest;
        assert PlannedAt(rest[i - 1], intents, views[1..][i - 1], nextChecks, plan);
      } else {
        HeadPlanned(entries, intents, views, checks, writes, nextChecks, nextWrites, plan);
      }
    }
    forall id | !AnyId(entries, id)
      ensures SameCheck(id, checks, plan.checks)
    {
      assert !AnyId(rest, id) && id != e.objectId;
    }
  }

  lemma HeadPlanned(
      entries: seq<CacheEntry>, intents: seq<WriteIntent>, views: seq<VersionedValue>,
      checks: map<string, nat>, writes: seq<WriteOp>,
      nextChecks: map<string, nat>, nextWrites: seq<WriteOp>, plan: Plan)
    requires |views| == |entries| > 0 && plan.Planned?
    requires !WritesKey(writes, entries[0].objectId) && !AnyId(entries[1..], entries[0].objectId)
    requires nextWrites <= plan.writes && SameCheck(entries[0].objectId, nextChecks, plan.checks)
    requires forall w <- plan.writes :: w in nextWrites || AnyId(entries[1..], w.key)
    requires match Resolution(entries[0], intents, views[0])
      case Failed(_) => false
      case NoWrite => nextChecks == checks && nextWrites == writes
      case Store(value) =>
        var id, version := entries[0].objectId, ExpectedVersion(entries[0], intents, views[0]);
        && (!Rebases(entries[0], intents) && id in checks ==> checks[id] == version)
        && nextChecks == checks[id := version] && nextWrites == writes + [WriteOp(id, value)]
    ensures PlannedAt(entries[0], intents, views[0], checks, plan)
  {
    match Resolution(entries[0], intents, views[0])
    case NoWrite =>
    case Store(value) =>
      assert nextWrites[|writes|] in nextWrites && plan.writes[|writes|] == nextWrites[|writes|];
  }

  /** The whole plan of a branch whose buffer is consistent: every recorded read is checked at the
      version observed unless its object is rebased; every written object is checked at its expected
      version; writes have distinct keys. */
  lemma PlanCommitMeaning(b: BranchState, views: seq<VersionedValue>)
    requires Consistent(b.buffer) && |views| == |b.buffer.order|
    requires PlanCommit(b, views).Planned?
    ensures CollectReads(b.readLog, map[]).Planned?
    ensures PlanMeans(
      InOrder(b.buffer), b.intents, views, CollectReads(b.readLog, map[]).checks, [], PlanCommit(b, views))
    ensures DistinctIds(InOrder(b.buffer))
  {
    EveryOrderedIsBuffered(b.buffer);
    PlanEntriesMeaning(InOrder(b.buffer), b.intents, views, CollectReads(b.readLog, map[]).checks, []);
  }

  lemma OrderedEntry(b: Buffer, id: string) returns (i: nat)
    requires Consistent(b) && id in b.entries
    ensures i < |b.order| && b.order[i] == id && InOrder(b)[i] == b.entries[id] && b.entries[id].objectId == id
  {
    assert id in b.order;
    i :| 0 <= i < |b.order| && b.order[i] == id;
  }
}
