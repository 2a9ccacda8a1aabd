/** What staging makes of a branch, and which branch wins. */
module Staging {
  import opened KvStore
  import opened Branches
  import opened AgentTxnManager

  // ---- One branch ----

  /** Operation `j` is the last one of the first `n` that stages the branch. */
  predicate LastStage(ops: seq<BranchOp>, j: nat, n: nat)
    requires j < n <= |ops|
  {
    ops[j].Stage? && forall i :: j < i < n ==> !ops[i].Stage?
  }

  predicate NeverStaged(ops: seq<BranchOp>, n: nat)
    requires n <= |ops|
  {
    forall i :: 0 <= i < n ==> !ops[i].Stage?
  }

  lemma OnlyStagingScores(b: BranchState, op: BranchOp, m: Values)
    ensures var end := Performed(b, op, m);
      if op.Stage? then end.score == op.score && end.summary == op.summary
      else end.score == b.score && end.summary == b.summary
  {
  }

  lemma LastStageBefore(ops: seq<BranchOp>, j: nat, n: nat)
    requires j < n <= |ops| && LastStage(ops, j, n)
    ensures if ops[n - 1].Stage? then j == n - 1 else j < n - 1 && LastStage(ops, j, n - 1)
  {
  }

  /** Score and summary of a branch are those it was last staged with. Nothing else changes them: not a rollback
      to before it was staged, and not a later write. */
  lemma {:induction false} StagedLast(b: BranchState, ops: seq<BranchOp>, views: seq<Values>, n: nat)
    requires n <= |ops| == |views|
    ensures var end := Run(b, ops, views, n);
      && (NeverStaged(ops, n) ==> end.score == b.score && end.summary == b.summary)
      && forall j :: 0 <= j < n && LastStage(ops, j, n) ==> end.score == ops[j].score && end.summary == ops[j].summary
  {
    if n > 0 {
      StagedLast(b, ops, views, n - 1);
      OnlyStagingScores(Run(b, ops, views, n - 1), ops[n - 1], views[n - 1]);
      forall j | 0 <= j < n && LastStage(ops, j, n)
        ensures Run(b, ops, views, n).score == ops[j].score && Run(b, ops, views, n).summary == ops[j].summary
      {
        LastStageBefore(ops, j, n);
      }
    }
  }

  /** The operation gives the branch a status. */
  predicate SetsStatus(op: BranchOp) {
    op.Read? || op.Write? || op.Stage?
  }

  function StatusSet(op: BranchOp): BranchStatus {
    if op.Stage? then Staged else BranchStatus.Running
  }

  lemma OnlySomeSetStatus(b: BranchState, op: BranchOp, m: Values)
    ensures Performed(b, op, m).status == if SetsStatus(op) then StatusSet(op) else b.status
  {
  }

  predicate LastStatus(ops: seq<BranchOp>, j: nat, n: nat)
    requires j < n <= |ops|
  {
    SetsStatus(ops[j]) && forall i :: j < i < n ==> !SetsStatus(ops[i])
  }

  lemma LastStatusBefore(ops: seq<BranchOp>, j: nat, n: nat)
    requires j < n <= |ops| && LastStatus(ops, j, n)
    ensures if SetsStatus(ops[n - 1]) then j == n - 1 else j < n - 1 && LastStatus(ops, j, n - 1)
  {
  }

  /** A branch is staged if it was staged since it last read or wrote, running if it read or wrote since, and
      otherwise as it was at the start; savepoints and rollbacks leave its status alone. */
  lemma {:induction false} StatusIsLast(b: BranchState, ops: seq<BranchOp>, views: seq<Values>, n: nat)
    requires n <= |ops| == |views|
    ensures var end := Run(b, ops, views, n);
      && ((forall i :: 0 <= i < n ==> !SetsStatus(ops[i])) ==> end.status == b.status)
      && forall j :: 0 <= j < n && LastStatus(ops, j, n) ==> end.status == StatusSet(ops[j])
  {
    if n > 0 {
      StatusIsLast(b, ops, views, n - 1);
      OnlySomeSetStatus(Run(b, ops, views, n - 1), ops[n - 1], views[n - 1]);
      forall j | 0 <= j < n && LastStatus(ops, j, n)
        ensures Run(b, ops, views, n).status == StatusSet(ops[j])
      {
        LastStatusBefore(ops, j, n);
      }
    }
  }

  // ---- All branches ----

  /** A branch of a transaction: what it does, and what the store shows it meanwhile. */
  datatype Program = Program(branchId: string, ops: seq<BranchOp>, views: seq<Values>) {
    predicate Valid() {
      |views| == |ops|
    }

    function End(): BranchState
      requires Valid()
    {
      Run(NewBranch(branchId), ops, views, |ops|)
    }
  }

  /** The score it was last staged with, or 0. */
  ghost predicate StagedWith(p: Program, score: int) {
    || (NeverStaged(p.ops, |p.ops|) && score == 0)
    || exists j :: 0 <= j < |p.ops| && LastStage(p.ops, j, |p.ops|) && p.ops[j].score == score
  }

  lemma ScoreIsStaged(p: Program, score: int)
    requires p.Valid() && StagedWith(p, score)
    ensures p.End().score == score
  {
    StagedLast(NewBranch(p.branchId), p.ops, p.views, |p.ops|);
  }

  lemma {:induction false} IdIsKept(b: BranchState, ops: seq<BranchOp>, views: seq<Values>, n: nat)
    requires n <= |ops| == |views|
    ensures Run(b, ops, views, n).branchId == b.branchId
  {
    if n > 0 {
      IdIsKept(b, ops, views, n - 1);
    }
  }

  ghost predicate FirstHighest(scores: seq<int>, best: nat) {
    && best < |scores|
    && (forall i :: 0 <= i < |scores| ==> scores[i] <= scores[best])
    && (forall i :: 0 <= i < best ==> scores[i] != scores[best])
  }

  /** The winner is the first branch whose last staged score is highest. */
  lemma WinnerIsBestStaged(programs: seq<Program>, states: seq<BranchState>, scores: seq<int>, id: string)
    requires |programs| == |states| == |scores|
    requires forall i :: 0 <= i < |programs| ==>
      programs[i].Valid() && states[i] == programs[i].End() && StagedWith(programs[i], scores[i])
    ensures NamesBest(states, id) <==> exists best: nat :: FirstHighest(scores, best) && programs[best].branchId == id
  {
    forall i | 0 <= i < |programs|
      ensures states[i].score == scores[i] && states[i].branchId == programs[i].branchId
    {
      ScoreIsStaged(programs[i], scores[i]);
      IdIsKept(NewBranch(programs[i].branchId), programs[i].ops, programs[i].views, |programs[i].ops|);
    }
    forall best: nat
      ensures FirstBest(states, best) <==> FirstHighest(scores, best)
    {
    }
  }
}
