/** Committing once more after recovery: what the decision to revalidate a commit comes to. The rebuilt branch is
    alike to the original one, but it has lost the conditions of its compare-and-swaps, and it may have recorded
    more reads. */
module Recommit {
  import opened Decimal
  import opened KvStore
  import opened Intents
  import opened WriteBuffers
  import opened Branches
  import opened BranchFold
  import opened PolicyDispatcher
  import opened CommitPlan
  import opened CommitVerdict
  import opened CommitEffects
  import opened TaskEvents
  import opened TaskRecovery
  import opened TaskLifecycle

  // ---- Alike branches ----

  lemma {:induction false} SubsequenceIsSubset<T>(a: seq<T>, b: seq<T>)
    requires Subsequence(a, b)
    ensures forall x <- a :: x in b
    decreases |b|
  {
    if a != [] {
      var a', b' := a[..|a| - 1], b[..|b| - 1];
      assert forall x <- a :: x in a' || x == a[|a| - 1];
      assert forall x <- b' :: x in b;
      if a[|a| - 1] == b[|b| - 1] && Subsequence(a', b') {
        SubsequenceIsSubset(a', b');
        assert b[|b| - 1] in b;
      } else {
        SubsequenceIsSubset(a, b');
      }
    }
  }

  lemma {:induction false} LatestAlike(a: seq<WriteIntent>, b: seq<WriteIntent>, id: string)
    requires AlikeIntents(a, b)
    ensures Latest(a, id).Some? == Latest(b, id).Some?
    ensures Latest(a, id).Some? ==> AlikeIntent(Latest(a, id).value, Latest(b, id).value)
  {
    if a != [] {
      var last := |a| - 1;
      assert AlikeIntent(a[last], b[last]);
      assert forall i :: 0 <= i < last ==> AlikeIntent(a[..last][i], b[..last][i]);
      LatestAlike(a[..last], b[..last], id);
    }
  }

  /** A compare-and-swap of the original finds its expected value in what the plan sees. */
  predicate KeepsCondition(intent: WriteIntent, current: string) {
    intent.intentType.Cas? && intent.condition.kind.ValueEquals? ==> current == intent.condition.expectedValue
  }

  ghost predicate KeepsConditions(b: BranchState, views: seq<VersionedValue>)
    requires Consistent(b.buffer) && |views| == |b.buffer.order|
  {
    forall i :: 0 <= i < |views| ==> ConditionAt(b, views[i], b.buffer.order[i])
  }

  predicate ConditionAt(b: BranchState, view: VersionedValue, id: string) {
    Latest(b.intents, id).Some? ==> KeepsCondition(Latest(b.intents, id).value, view.value)
  }

  lemma ResolvesAlike(e: CacheEntry, f: CacheEntry, intent: WriteIntent, intent': WriteIntent, current: string)
    requires AlikeEntry(e, f) && AlikeIntent(intent, intent')
    ensures CanResolve(e, intent, current) <==> CanResolve(f, intent', current) && KeepsCondition(intent, current)
    ensures KeepsCondition(intent, current) ==> ResolveWrite(e, intent, current) == ResolveWrite(f, intent', current)
  {
  }

  lemma EntryAlike(b: BranchState, r: BranchState, i: nat)
    requires Alike(b, r) && Consistent(b.buffer) && Consistent(r.buffer) && i < |b.buffer.order|
    ensures InOrder(b.buffer)[i].objectId == b.buffer.order[i]
    ensures AlikeEntry(InOrder(b.buffer)[i], InOrder(r.buffer)[i])
  {
    EveryOrderedIsBuffered(b.buffer);
  }

  // ---- The verdict ----

  lemma EntryCommitsAlike(b: BranchState, r: BranchState, views: seq<VersionedValue>, now: Values, i: nat)
    requires Alike(b, r) && Consistent(b.buffer) && Consistent(r.buffer) && |views| == |b.buffer.order| && i < |views|
    ensures EntryCommits(InOrder(b.buffer)[i], b, views[i], now) <==>
      EntryCommits(InOrder(r.buffer)[i], r, views[i], now) && ConditionAt(b, views[i], b.buffer.order[i])
  {
    var id := b.buffer.order[i];
    EntryAlike(b, r, i);
    LatestAlike(b.intents, r.intents, id);
    if Latest(b.intents, id).Some? {
      ResolvesAlike(InOrder(b.buffer)[i], InOrder(r.buffer)[i], Latest(b.intents, id).value,
                    Latest(r.intents, id).value, views[i].value);
    }
  }

  lemma EntriesCommitAlike(b: BranchState, r: BranchState, views: seq<VersionedValue>, now: Values)
    requires Alike(b, r) && Consistent(b.buffer) && Consistent(r.buffer) && |views| == |b.buffer.order|
    ensures EntriesCommit(b, views, now) <==> EntriesCommit(r, views, now) && KeepsConditions(b, views)
  {
    forall i | 0 <= i < |views|
      ensures EntryCommits(InOrder(b.buffer)[i], b, views[i], now) <==>
        EntryCommits(InOrder(r.buffer)[i], r, views[i], now) && ConditionAt(b, views[i], b.buffer.order[i])
    {
      EntryCommitsAlike(b, r, views, now, i);
    }
  }

  /** With these reads on record `b` would commit. */
  ghost predicate ReadsCommit(b: BranchState, records: seq<ReadRecord>, now: Values) {
    ReadsAgree(records) && forall record <- records :: ReadCommits(record, b, now)
  }

  lemma ReadsCommitAlike(b: BranchState, r: BranchState, now: Values)
    requires Alike(b, r)
    ensures ReadsCommit(b, r.readLog, now) <==> ReadsCommit(r, r.readLog, now)
    ensures ReadsCommit(b, r.readLog, now) ==> ReadsCommit(b, b.readLog, now)
  {
    SubsequenceIsSubset(b.readLog, r.readLog);
    forall record <- r.readLog
      ensures ReadCommits(record, b, now) <==> ReadCommits(record, r, now)
    {
      LatestAlike(b.intents, r.intents, record.objectId);
    }
  }

  lemma SucceedsInParts(b: BranchState, views: seq<VersionedValue>, now: Values)
    requires Consistent(b.buffer) && |views| == |b.buffer.order|
    ensures BatchSucceeds(b, views, now) <==> EntriesCommit(b, views, now) && ReadsCommit(b, b.readLog, now)
  {
    BatchSucceedsExactly(b, views, now);
  }

  /** Recommitting a rebuilt branch succeeds exactly where the commit of the original would have, except that it
      is stricter about the additional reads and does not test the conditions of compare-and-swaps. */
  lemma RecommitExactly(b: BranchState, r: BranchState, views: seq<VersionedValue>, now: Values)
    requires Alike(b, r) && Consistent(b.buffer) && Consistent(r.buffer) && |views| == |b.buffer.order|
    ensures BatchSucceeds(r, views, now) && KeepsConditions(b, views) <==>
      BatchSucceeds(b, views, now) && ReadsCommit(b, r.readLog, now)
  {
    SucceedsInParts(b, views, now);
    SucceedsInParts(r, views, now);
    EntriesCommitAlike(b, r, views, now);
    ReadsCommitAlike(b, r, now);
  }

  /** A compare-and-swap that fails refuses the original, whatever else it does, but not the rebuilt branch. */
  lemma LostCondition(
      b: BranchState, r: BranchState, views: seq<VersionedValue>, i: nat, expected: string)
    requires Alike(b, r) && Consistent(b.buffer) && Consistent(r.buffer) && |views| == |b.buffer.order| && i < |views|
    requires SwapsOn(b, b.buffer.order[i], expected) && views[i].value != expected
    ensures PlanCommit(b, views).Refused? && EntryPlans(InOrder(r.buffer)[i], r, views[i])
  {
    SwapIsPlannedExactly(b, views, i, expected);
    EntryAlike(b, r, i);
    LatestAlike(b.intents, r.intents, b.buffer.order[i]);
  }

  // ---- The writes ----

  lemma {:induction false} SameResolutionsSameWrites(
      es: seq<CacheEntry>, fs: seq<CacheEntry>, intents: seq<WriteIntent>, intents': seq<WriteIntent>,
      views: seq<VersionedValue>, checks: map<string, nat>, checks': map<string, nat>, writes: seq<WriteOp>)
    requires |es| == |fs| == |views|
    requires forall i :: 0 <= i < |es| ==>
      es[i].objectId == fs[i].objectId && Resolution(es[i], intents, views[i]) == Resolution(fs[i], intents', views[i])
    requires PlanEntries(es, intents, views, checks, writes).Planned?
    requires PlanEntries(fs, intents', views, checks', writes).Planned?
    ensures PlanEntries(es, intents, views, checks, writes).writes
      == PlanEntries(fs, intents', views, checks', writes).writes
    decreases es
  {
    if es != [] {
      match Resolution(es[0], intents, views[0])
      case NoWrite =>
        SameResolutionsSameWrites(es[1..], fs[1..], intents, intents', views[1..], checks, checks', writes);
      case Store(value) =>
        SameResolutionsSameWrites(
          es[1..], fs[1..], intents, intents', views[1..],
          checks[es[0].objectId := ExpectedVersion(es[0], intents, views[0])],
          checks'[fs[0].objectId := ExpectedVersion(fs[0], intents', views[0])],
          writes + [WriteOp(es[0].objectId, value)]);
    }
  }

  lemma ResolutionAlike(b: BranchState, r: BranchState, view: VersionedValue, i: nat)
    requires Alike(b, r) && Consistent(b.buffer) && Consistent(r.buffer) && i < |b.buffer.order|
    requires ConditionAt(b, view, b.buffer.order[i])
    ensures InOrder(b.buffer)[i].objectId == InOrder(r.buffer)[i].objectId
    ensures Resolution(InOrder(b.buffer)[i], b.intents, view) == Resolution(InOrder(r.buffer)[i], r.intents, view)
  {
    var id := b.buffer.order[i];
    EntryAlike(b, r, i);
    LatestAlike(b.intents, r.intents, id);
    if Latest(b.intents, id).Some? {
      ResolvesAlike(InOrder(b.buffer)[i], InOrder(r.buffer)[i], Latest(b.intents, id).value,
                    Latest(r.intents, id).value, view.value);
    }
  }

  /** Where both can be planned over the same looks, and the conditions hold, they write the same. */
  lemma RecommitWritesTheSame(b: BranchState, r: BranchState, views: seq<VersionedValue>)
    requires Alike(b, r) && Consistent(b.buffer) && Consistent(r.buffer) && |views| == |b.buffer.order|
    requires PlanCommit(b, views).Planned? && PlanCommit(r, views).Planned? && KeepsConditions(b, views)
    ensures PlanCommit(r, views).writes == PlanCommit(b, views).writes
  {
    forall i | 0 <= i < |views|
      ensures InOrder(b.buffer)[i].objectId == InOrder(r.buffer)[i].objectId
      ensures Resolution(InOrder(b.buffer)[i], b.intents, views[i])
        == Resolution(InOrder(r.buffer)[i], r.intents, views[i])
    {
      ResolutionAlike(b, r, views[i], i);
    }
    SameResolutionsSameWrites(
      InOrder(b.buffer), InOrder(r.buffer), b.intents, r.intents, views,
      CollectReads(b.readLog, map[]).checks, CollectReads(r.readLog, map[]).checks, []);
  }

  // ---- From the log ----

  lemma AttemptReplaysNothing(s: Session, start: seq<BranchState>, m: Values)
    ensures var t := Stepped(StillRunning(s), Attempt);
      ReplayedTo(start, t.session.events, m, |t.session.events|) == ReplayedTo(start, s.events, m, |s.events|)
  {
    var t := Stepped(StillRunning(s), Attempt);
    var before, e := ReplayedTo(start, s.events, m, |s.events|), t.session.events[|s.events|];
    ReplayLonger(start, s.events, [e], m);
    var w := BranchIndex(before, e.branchId);
    assert w < |before| ==> before[w := before[w]] == before;
  }

  lemma RevalidationNamesNothing(committed: bool, phase: string, events: seq<TaskEvent>)
    requires Decide(committed, phase, events).action.RevalidateCommit?
    ensures Decide(committed, phase, events) == Decision(RevalidateCommit, "", "")
  {
  }

  lemma AttemptIsDecided(s: Session)
    requires Told(StillRunning(s))
    ensures DecisionOn(Stepped(StillRunning(s), Attempt)).action.RevalidateCommit?
  {
    StepTells(StillRunning(s), Attempt);
    DecidesExactly(Stepped(StillRunning(s), Attempt));
  }

  lemma AttemptIsRebuilt(
      run: seq<Session>, plans: seq<BranchPlan>, ops: seq<SessionOp>, m: Values, n: nat)
    requires TaskRecovery.StartsWith(run, plans) && IsRun(run, ops, m) && n <= |ops|
    ensures AllAlike(run[n].branches, Rebuilt(Stepped(StillRunning(run[n]), Attempt).session.events, "", m))
  {
    var t := Stepped(StillRunning(run[n]), Attempt);
    EventPlansNothing(run[n].events, t.session.events[|run[n].events|]);
    RebuildSimulates(run, plans, ops, m, n, "");
    AttemptReplaysNothing(run[n], NewBranches(plans), m);
  }

  lemma NoneIsChosen(branches: seq<BranchState>, rebuilt: seq<BranchState>, d: Decision)
    requires AllAlike(branches, rebuilt) && d == Decision(RevalidateCommit, "", "")
    requires forall b <- branches :: b.branchId != ""
    ensures TerminalStates(rebuilt, false, d) == rebuilt
  {
    forall i | 0 <= i < |rebuilt|
      ensures TerminalStates(rebuilt, false, d)[i] == rebuilt[i]
    {
      assert AlikeAt(branches, rebuilt, i) && branches[i] in branches;
    }
  }

  lemma SessionIsNamed(run: seq<Session>, plans: seq<BranchPlan>, ops: seq<SessionOp>, m: Values, n: nat)
    requires TaskRecovery.StartsWith(run, plans) && ValidPlan(plans) && IsRun(run, ops, m) && n <= |ops|
    ensures forall b <- run[n].branches :: b.branchId != ""
  {
    StartOf(run, plans, m);
    BranchesKeepTheirPlaces(run, ops, m, n);
    forall i | 0 <= i < |run[n].branches|
      ensures run[n].branches[i].branchId != ""
    {
      assert plans[i] in plans;
    }
  }

  /** A session that stops in the middle of its commit, while the store did not change before, is recovered with
      the decision to commit again, and with branches alike to those it had. */
  lemma StoppedCommitIsRevalidated(
      run: seq<Session>, plans: seq<BranchPlan>, ops: seq<SessionOp>, m: Values, n: nat)
    requires TaskRecovery.StartsWith(run, plans) && ValidPlan(plans) && IsRun(run, ops, m) && n <= |ops|
    ensures var t := Stepped(StillRunning(run[n]), Attempt);
      DecisionOn(t).action.RevalidateCommit? && AllAlike(run[n].branches, RecoveredBranches(t, m))
  {
    RunningTells(run, plans, ops, m, n);
    var t := Stepped(StillRunning(run[n]), Attempt);
    AttemptIsDecided(run[n]);
    RevalidationNamesNothing(t.committed, NatText(PhaseCode(t.phase)), t.session.events);
    AttemptIsRebuilt(run, plans, ops, m, n);
    SessionIsNamed(run, plans, ops, m, n);
    NoneIsChosen(run[n].branches, Rebuilt(t.session.events, "", m), DecisionOn(t));
  }
}
