/** One transaction from its staged branches to its end: `AgentTxnManager.SelectWinnerAndCommit`. */
module AgentTxnManager {
  import opened Wrappers
  import opened KvStore
  import opened WriteBuffers
  import opened Branches
  import opened CommitPlan
  import opened FallbackCommit
  import FallbackLog
  import FallbackProtocol
  import opened AgentTxn
  import BranchManager
  import CommitManager

  /** No two branches share a log. */
  ghost predicate Separate(branches: seq<BranchContext>) {
    forall i, j :: 0 <= i < j < |branches| ==> branches[i].Parts() !! branches[j].Parts()
  }

  ghost function Buffers(branches: seq<BranchContext>): set<WriteBuffer> {
    set b <- branches :: b.writeBuffer
  }

  ghost function IntentLogs(branches: seq<BranchContext>): set<IntentLog> {
    set b <- branches :: b.intentLog
  }

  /** The branches are in these states. */
  ghost predicate Are(branches: seq<BranchContext>, states: seq<BranchState>)
    reads branches, set b <- branches :: b.readSet, Buffers(branches), IntentLogs(branches)
  {
    |states| == |branches| && forall i :: 0 <= i < |branches| ==> InState(branches[i], states[i])
  }

  ghost predicate InState(branch: BranchContext, state: BranchState)
    reads branch, branch.readSet, branch.writeBuffer, branch.intentLog
  {
    branch.State() == state
  }

  ghost predicate FirstBest(states: seq<BranchState>, best: nat) {
    && best < |states|
    && (forall i :: 0 <= i < |states| ==> states[i].score <= states[best].score)
    && (forall i :: 0 <= i < best ==> states[i].score < states[best].score)
  }

  ghost predicate NamesBest(states: seq<BranchState>, id: string) {
    exists best: nat :: FirstBest(states, best) && states[best].branchId == id
  }

  /** The id of the first branch with the highest score; there must be a branch. */
  method SelectWinner(branches: seq<BranchContext>, ghost states: seq<BranchState>)
    returns (id: Option<string>)
    requires Are(branches, states)
    ensures id.None? <==> branches == []
    ensures id.Some? ==> NamesBest(states, id.value)
  {
    if branches == [] {
      return None;
    }
    var first := 0;
    assert InState(branches[0], states[0]);
    for i := 1 to |branches|
      invariant first < i && branches[first].score == states[first].score
        && branches[first].branchId == states[first].branchId
      invariant forall j :: 0 <= j < i ==> states[j].score <= states[first].score
      invariant forall j :: 0 <= j < first ==> states[j].score < states[first].score
    {
      assert InState(branches[i], states[i]);
      if branches[first].score < branches[i].score {
        first := i;
      }
    }
    id := Some(branches[first].branchId);
    assert FirstBest(states, first);
  }

  /** One branch changed and the others did not. */
  lemma OneChanged(branches: seq<BranchContext>, states: seq<BranchState>, w: nat, b: BranchState)
    requires |states| == |branches| && w < |branches| && InState(branches[w], b)
    requires forall i :: 0 <= i < |branches| && i != w ==> InState(branches[i], states[i])
    ensures Are(branches, states[w := b])
  {
  }

  ghost function Marked(states: seq<BranchState>, winnerId: string): seq<BranchState> {
    seq(|states|, i requires 0 <= i < |states| =>
      states[i].(status := if states[i].branchId == winnerId then Winner else Loser))
  }

  method MarkWinnerAndLosers(branches: seq<BranchContext>, winnerId: string, ghost states: seq<BranchState>)
    requires Separate(branches) && Are(branches, states)
    modifies (set b <- branches)`status
    ensures Are(branches, Marked(states, winnerId))
  {
    for i := 0 to |branches|
      invariant forall j :: 0 <= j < i ==> InState(branches[j], Marked(states, winnerId)[j])
      invariant forall j :: i <= j < |branches| ==> InState(branches[j], states[j])
    {
      assert branches[i] in branches;
      assert InState(branches[i], states[i]);
      branches[i].status := if branches[i].branchId == winnerId then Winner else Loser;
    }
  }

  /** The first `n` branches are discarded, except those called `kept`. */
  ghost function DiscardedTo(states: seq<BranchState>, kept: Option<string>, n: nat): seq<BranchState> {
    seq(|states|, i requires 0 <= i < |states| =>
      if n <= i || kept == Some(states[i].branchId) then states[i] else AfterDiscard(states[i]))
  }

  ghost function Discarded(states: seq<BranchState>, kept: Option<string>): seq<BranchState> {
    DiscardedTo(states, kept, |states|)
  }

  lemma OneMoreDiscarded(states: seq<BranchState>, kept: Option<string>, n: nat)
    requires n < |states|
    ensures var now := DiscardedTo(states, kept, n);
      && now[n] == states[n]
      && DiscardedTo(states, kept, n + 1) ==
           if kept == Some(states[n].branchId) then now else now[n := AfterDiscard(states[n])]
  {
    var now, after := DiscardedTo(states, kept, n), DiscardedTo(states, kept, n + 1);
    if kept == Some(states[n].branchId) {
      assert after == now;
    } else {
      assert after == now[n := AfterDiscard(states[n])];
    }
  }

  /** Discards every branch except those called `kept`. */
  method DiscardOthers(branches: seq<BranchContext>, kept: Option<string>, ghost states: seq<BranchState>)
    requires Separate(branches) && Are(branches, states)
    modifies (set b <- branches)`status, (set b <- branches)`savepoints, Buffers(branches), IntentLogs(branches)
    ensures Are(branches, Discarded(states, kept))
  {
    ghost var now := states;
    assert now == DiscardedTo(states, kept, 0);
    for i := 0 to |branches|
      invariant Are(branches, now) && now == DiscardedTo(states, kept, i)
    {
      assert InState(branches[i], now[i]);
      OneMoreDiscarded(states, kept, i);
      if kept != Some(branches[i].branchId) {
        DiscardAt(branches, i, now);
        now := now[i := AfterDiscard(now[i])];
      }
    }
  }

  method DiscardAt(branches: seq<BranchContext>, i: nat, ghost states: seq<BranchState>)
    requires Separate(branches) && Are(branches, states) && i < |branches|
    modifies (set b <- branches)`status, (set b <- branches)`savepoints, Buffers(branches), IntentLogs(branches)
    ensures Are(branches, states[i := AfterDiscard(states[i])])
  {
    assert branches[i] in branches && InState(branches[i], states[i]);
    BranchManager.DiscardBranch(branches[i]);
    OneChanged(branches, states, i, AfterDiscard(states[i]));
  }

  method AbortTransaction(txn: AgentTxnContext, ghost states: seq<BranchState>)
    requires Separate(txn.branches) && Are(txn.branches, states)
    modifies txn`status, (set b <- txn.branches)`status, (set b <- txn.branches)`savepoints
    modifies Buffers(txn.branches), IntentLogs(txn.branches)
    ensures txn.status == TxnStatus.Aborted && Are(txn.branches, Discarded(states, None))
  {
    txn.status := TxnStatus.Aborted;
    DiscardOthers(txn.branches, None, states);
  }

  ghost predicate FirstNamed(states: seq<BranchState>, id: string, w: nat) {
    && w < |states| && states[w].branchId == id
    && forall i :: 0 <= i < w ==> states[i].branchId != id
  }

  method FindBranch(branches: seq<BranchContext>, id: string, ghost states: seq<BranchState>)
    returns (found: Option<BranchContext>, ghost w: nat)
    requires Are(branches, states)
    ensures found.Some? ==> FirstNamed(states, id, w) && found.value == branches[w]
    ensures found.None? ==> forall b <- states :: b.branchId != id
  {
    for i := 0 to |branches|
      invariant forall j :: 0 <= j < i ==> states[j].branchId != id
    {
      assert InState(branches[i], states[i]);
      if branches[i].branchId == id {
        return Some(branches[i]), i;
      }
    }
    found, w := None, 0;
  }

  /** The plan of a branch while the store holds `m`. */
  ghost function PlanAt(b: BranchState, m: Values): Plan
    requires Consistent(b.buffer)
  {
    PlanCommit(b, ViewsOf(InOrder(b.buffer), m))
  }

  /** Does committing `b` as one atomic batch succeed on `m`? */
  ghost predicate BatchSucceeds(b: BranchState, m: Values) {
    && Consistent(b.buffer)
    && Validated(b, m)
    && PlanAt(b, m).Planned?
    && BatchCommit(m, PlanAt(b, m).checks, PlanAt(b, m).writes).ok
  }

  /** What a commit of `b` by itself, on whatever kind of store, leaves: on success the store of the
      batch and the log of its writes, on failure a store with the same values and keys. `finished` says
      that the commit was not cut short by a simulated crash or a failed artifact write. */
  ghost predicate Committing(
    b: BranchState, m: Values, ok: bool, m': Values, log: seq<CommitLogEntry>, finished: bool)
  {
    if ok then
      && BatchSucceeds(b, m)
      && m' == BatchCommit(m, PlanAt(b, m).checks, PlanAt(b, m).writes).values
      && log == CommitManager.LogOf(PlanAt(b, m).writes, PlanAt(b, m).checks)
    else
      finished ==> forall key :: SameContent(Lookup(m, key), Lookup(m', key))
  }

  /** How a commit attempt comes out. On a store with atomic batches, or with the plain fallback, the
      verdict is exactly that of the batch; with the crash-safe fallback the attempt is finished unless
      something was asked or happened to cut it short. */
  ghost predicate Outcome(
    b: BranchState, m: Values, simple: bool, undisturbed: bool, ok: bool, m': Values, log: seq<CommitLogEntry>,
    finished: bool)
  {
    && Committing(b, m, ok, m', log, finished)
    && (simple ==> finished && ok == BatchSucceeds(b, m))
    && (undisturbed ==> finished)
  }

  /** What committing needs of a branch: every reachable buffer is consistent, and on a store without atomic
      batches no recorded read is exempt from the checks; every branch built from named intents is like
      that. */
  ghost predicate CanCommit(b: BranchState, atomicBatch: bool) {
    Consistent(b.buffer) && (atomicBatch || ChecksEveryRead(b))
  }

  /** Validates the winner and commits it. */
  method ValidateAndCommit(
      txn: AgentTxnContext, winner: BranchContext, store: MemoryKVStore, directory: FallbackLog.ArtifactDirectory,
      ghost b: BranchState)
    returns (ok: bool, ghost finished: bool)
    requires InState(winner, b) && CanCommit(b, store.atomicBatch)
    modifies txn`validation, txn`commitLog, store, directory
    ensures Outcome(b, old(store.values), store.atomicBatch || txn.artifactPath == "",
                    directory.faults == old(directory.faults) && txn.simulateCrashAfter == 0,
                    ok, store.values, txn.commitLog, finished)
    ensures !ok ==> txn.commitLog == old(txn.commitLog) && !txn.validation.success
    ensures store.atomicBatch || txn.artifactPath == "" ==> directory.files == old(directory.files)
  {
    ghost var m := store.values;
    txn.validation := CommitManager.ValidateWinner(winner, store);
    if !txn.validation.success {
      return false, true;
    }
    var failure: ValidationResult;
    ghost var trace: seq<FallbackProtocol.System>;
    ok, failure, trace := CommitManager.CommitWinner(txn, winner, store, directory);
    CommitManager.CommitMeansBatch(
      txn, store.atomicBatch, b, m, old(directory.files), ok, store.values, directory.files, trace);
    finished := trace == [] || FallbackProtocol.Last(trace).process.Done?;
    if !ok {
      txn.validation := failure;
    }
  }

  /** How the branches end up: discarded after a failure; after a success the winner is committed, any
      other branch of its id stays marked, and the rest are discarded. */
  ghost function Ended(states: seq<BranchState>, ok: bool, winnerId: string, w: nat): seq<BranchState>
  {
    seq(|states|, i requires 0 <= i < |states| =>
      if !ok || states[i].branchId != winnerId then AfterDiscard(states[i])
      else states[i].(status := if i == w then BranchStatus.Committed else Winner))
  }

  /** The branch that the transaction commits. */
  ghost predicate IsWinner(states: seq<BranchState>, w: nat) {
    exists id :: NamesBest(states, id) && FirstNamed(states, id, w)
  }

  lemma MarkedCanCommit(states: seq<BranchState>, winnerId: string, w: nat, atomicBatch: bool)
    requires w < |states| && CanCommit(states[w], atomicBatch)
    ensures CanCommit(Marked(states, winnerId)[w], atomicBatch)
  {
  }

  lemma BestIsFound(states: seq<BranchState>, id: string)
    requires NamesBest(states, id)
    ensures exists b <- Marked(states, id) :: b.branchId == id
  {
    var best: nat :| FirstBest(states, best) && states[best].branchId == id;
    assert Marked(states, id)[best] in Marked(states, id);
  }

  /** Names the winner and marks the branches. */
  method MarkWinner(txn: AgentTxnContext, ghost states: seq<BranchState>)
    returns (winner: Option<BranchContext>, ghost w: nat)
    requires Separate(txn.branches) && Are(txn.branches, states)
    modifies txn`winnerBranchId, (set b <- txn.branches)`status
    ensures winner.None? <==> txn.branches == []
    ensures winner.Some? ==>
      && NamesBest(states, txn.winnerBranchId)
      && FirstNamed(states, txn.winnerBranchId, w) && winner.value == txn.branches[w]
      && Are(txn.branches, Marked(states, txn.winnerBranchId))
  {
    var id := SelectWinner(txn.branches, states);
    if id.None? {
      return None, 0;
    }
    txn.winnerBranchId := id.value;
    MarkWinnerAndLosers(txn.branches, id.value, states);
    ghost var marked := Marked(states, id.value);
    winner, w := FindBranch(txn.branches, id.value, marked);
    BestIsFound(states, id.value);
    assert forall i :: 0 <= i < |states| ==> marked[i].branchId == states[i].branchId;
  }

  /** Ends the transaction after a commit that succeeded or failed; the store and the artifacts are not
      touched again. */
  method EndTransaction(
      txn: AgentTxnContext, winner: BranchContext, ok: bool, ghost states: seq<BranchState>, ghost w: nat,
      ghost store: MemoryKVStore, ghost directory: FallbackLog.ArtifactDirectory)
    requires Separate(txn.branches) && Are(txn.branches, Marked(states, txn.winnerBranchId))
    requires FirstNamed(states, txn.winnerBranchId, w) && winner == txn.branches[w]
    modifies txn`status, (set b <- txn.branches)`status, (set b <- txn.branches)`savepoints
    modifies Buffers(txn.branches), IntentLogs(txn.branches)
    ensures txn.status == if ok then TxnStatus.Committed else TxnStatus.Aborted
    ensures Are(txn.branches, Ended(states, ok, txn.winnerBranchId, w))
    ensures unchanged(store) && unchanged(directory)
    ensures unchanged(txn`commitLog, txn`artifactPath, txn`simulateCrashAfter, txn`winnerBranchId)
  {
    ghost var marked := Marked(states, txn.winnerBranchId);
    if !ok {
      AbortTransaction(txn, marked);
      FailedEnding(states, txn.winnerBranchId, w);
      return;
    }
    txn.status := TxnStatus.Committed;
    assert winner in txn.branches && InState(winner, marked[w]);
    winner.status := BranchStatus.Committed;
    ghost var committed := marked[w := marked[w].(status := BranchStatus.Committed)];
    OneChanged(txn.branches, marked, w, committed[w]);
    DiscardOthers(txn.branches, Some(txn.winnerBranchId), committed);
    CommittedEnding(states, txn.winnerBranchId, w);
  }

  lemma FailedEnding(states: seq<BranchState>, winnerId: string, w: nat)
    ensures Discarded(Marked(states, winnerId), None) == Ended(states, false, winnerId, w)
  {
  }

  lemma CommittedEnding(states: seq<BranchState>, winnerId: string, w: nat)
    requires FirstNamed(states, winnerId, w)
    ensures var marked := Marked(states, winnerId);
      Discarded(marked[w := marked[w].(status := BranchStatus.Committed)], Some(winnerId))
        == Ended(states, true, winnerId, w)
  {
  }

  /** Validates and commits the marked winner, and ends the transaction. */
  method CommitMarked(
      txn: AgentTxnContext, winner: BranchContext, store: MemoryKVStore, directory: FallbackLog.ArtifactDirectory,
      ghost states: seq<BranchState>, ghost w: nat, ghost b: BranchState)
    returns (ok: bool, ghost finished: bool)
    requires Separate(txn.branches) && Are(txn.branches, Marked(states, txn.winnerBranchId))
    requires FirstNamed(states, txn.winnerBranchId, w) && winner == txn.branches[w]
    requires InState(winner, b) && CanCommit(b, store.atomicBatch)
    modifies txn`status, txn`validation, txn`commitLog, store, directory
    modifies (set b <- txn.branches)`status, (set b <- txn.branches)`savepoints
    modifies Buffers(txn.branches), IntentLogs(txn.branches)
    ensures Outcome(b, old(store.values), store.atomicBatch || txn.artifactPath == "",
                    directory.faults == old(directory.faults) && txn.simulateCrashAfter == 0,
                    ok, store.values, txn.commitLog, finished)
    ensures txn.status == (if ok then TxnStatus.Committed else TxnStatus.Aborted)
    ensures Are(txn.branches, Ended(states, ok, txn.winnerBranchId, w))
    ensures !ok ==> txn.commitLog == old(txn.commitLog)
  {
    ok, finished := ValidateAndCommit(txn, winner, store, directory, b);
    EndTransaction(txn, winner, ok, states, w, store, directory);
  }

  /** The first of the best branches names the winner, and the first branch of that name is committed. */
  ghost predicate Transacts(
    states: seq<BranchState>, winnerId: string, w: nat, m: Values, simple: bool, undisturbed: bool, ok: bool,
    m': Values, log: seq<CommitLogEntry>, finished: bool)
  {
    && NamesBest(states, winnerId)
    && FirstNamed(states, winnerId, w)
    && Outcome(Marked(states, winnerId)[w], m, simple, undisturbed, ok, m', log, finished)
  }

  /** The sequence of a whole transaction over branches in `states`. Without branches the original
      throws. Otherwise the first of the best branches names the winner, the winner is validated and
      committed, and the branches end as `Ended` says. */
  method SelectWinnerAndCommit(
      txn: AgentTxnContext, store: MemoryKVStore, directory: FallbackLog.ArtifactDirectory,
      ghost states: seq<BranchState>)
    returns (threw: bool, ok: bool, ghost w: nat, ghost finished: bool)
    requires Separate(txn.branches) && Are(txn.branches, states)
    requires forall w: nat :: IsWinner(states, w) ==> CanCommit(states[w], store.atomicBatch)
    modifies txn`status, txn`winnerBranchId, txn`validation, txn`commitLog, store, directory
    modifies (set b <- txn.branches)`status, (set b <- txn.branches)`savepoints
    modifies Buffers(txn.branches), IntentLogs(txn.branches)
    ensures threw <==> txn.branches == []
    ensures threw ==> !ok && store.values == old(store.values) && txn.status == old(txn.status)
    ensures !threw ==>
      && Transacts(states, txn.winnerBranchId, w, old(store.values), store.atomicBatch || txn.artifactPath == "",
                   directory.faults == old(directory.faults) && txn.simulateCrashAfter == 0,
                   ok, store.values, txn.commitLog, finished)
      && txn.status == (if ok then TxnStatus.Committed else TxnStatus.Aborted)
      && Are(txn.branches, Ended(states, ok, txn.winnerBranchId, w))
    ensures !ok ==> txn.commitLog == old(txn.commitLog)
  {
    ok, finished := false, false;
    var winner;
    winner, w := MarkWinner(txn, states);
    if winner.None? {
      return true, false, w, finished;
    }
    ghost var b := Marked(states, txn.winnerBranchId)[w];
    assert IsWinner(states, w);
    MarkedCanCommit(states, txn.winnerBranchId, w, store.atomicBatch);
    assert InState(winner.value, b);
    ok, finished := CommitMarked(txn, winner.value, store, directory, states, w, b);
    threw := false;
  }
}
