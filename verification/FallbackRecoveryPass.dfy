/** The recovery pass over a directory of fallback artifacts. */
module FallbackRecoveryPass {
  import opened KvStore
  import opened FallbackLog
  import opened FallbackProtocol
  import opened FallbackRecovery

  // ---- One artifact ----

  predicate Recoverable(files: map<string, Artifact>, m: Values, path: string) {
    && path in files
    && (Terminal(files[path].phase) || Detect(m, files[path].entries) <= |files[path].entries|)
  }

  /** What recovery makes of one artifact: a terminal one stays, a rollback ends with every key at its
      old value and existence, any other commit ends with every key at its target. */
  ghost predicate Resolved(before: Artifact, after: Artifact, m: Values, m': Values) {
    match before.phase
    case RollingBack =>
      after == before.(phase := RolledBack, appliedCount := 0) && forall e <- before.entries :: Settled(m', e)
    case Prepared => RolledForward(before, after, m')
    case Applying => RolledForward(before, after, m')
    case _ => after == before && SameEntries(before, m, m')
  }

  ghost predicate RolledForward(before: Artifact, after: Artifact, m': Values) {
    && after == before.(phase := Committed, appliedCount := |before.entries|)
    && forall e <- before.entries :: AtTarget(m', e)
  }

  ghost predicate SameEntries(artifact: Artifact, m: Values, m': Values) {
    forall e <- artifact.entries :: Lookup(m', e.key) == Lookup(m, e.key)
  }

  /** What the pass counts besides the artifacts it handles. */
  datatype Tally = Tally(skipped: int, forward: int, back: int) {
    function Plus(t: Tally): Tally {
      Tally(skipped + t.skipped, forward + t.forward, back + t.back)
    }
  }

  /** A terminal artifact is a skip; a rollback with k writes in the store undoes k; any other commit
      with k of its n writes in the store has n - k to go. */
  function TallyOf(artifact: Artifact, m: Values): Tally {
    match artifact.phase
    case RollingBack => Tally(0, 0, Detect(m, artifact.entries))
    case Committed => Tally(1, 0, 0)
    case RolledBack => Tally(1, 0, 0)
    case _ => Tally(0, |artifact.entries| - Detect(m, artifact.entries), 0)
  }

  lemma ForwardResolves(before: Artifact, m: Values, trace: seq<System>)
    requires WellFormed(before.entries) && (before.phase.Prepared? || before.phase.Applying?)
    requires Unfolds(trace, StartForward(System(m, before, Down)))
    requires Detect(m, before.entries) <= |before.entries|
    ensures !Last(trace).process.Stuck?
    ensures Untouched(before.entries, m, Last(trace).store)
    ensures Last(trace).file == before.(phase := Committed, appliedCount := |before.entries|) ==>
      Resolved(before, Last(trace).file, m, Last(trace).store)
  {
    var first := StartForward(System(m, before, Down));
    ResumingGivesInv(System(m, before, Down));
    TraceKeepsInv(trace, first);
    TraceStaysLive(trace, first);
    if Last(trace).file.phase.Committed? {
      assert CommittedInv(Last(trace));
      forall e <- before.entries
        ensures AtTarget(Last(trace).store, e)
      {
        var i :| 0 <= i < |before.entries| && before.entries[i] == e;
      }
    }
  }

  lemma RollbackResolves(before: Artifact, m: Values, trace: seq<System>)
    requires WellFormed(before.entries) && before.phase.RollingBack?
    requires Unfolds(trace, StartRollback(System(m, before, Down)))
    requires Detect(m, before.entries) <= |before.entries|
    ensures Inv(trace[0]) && !Last(trace).process.Stuck?
    ensures Untouched(before.entries, m, Last(trace).store)
    ensures Last(trace).file == before.(phase := RolledBack, appliedCount := 0) ==>
      Resolved(before, Last(trace).file, m, Last(trace).store)
  {
    var first := StartRollback(System(m, before, Down));
    ResumingGivesInv(System(m, before, Down));
    TraceKeepsInv(trace, first);
    TraceStaysLive(trace, first);
    if Last(trace).file.phase.RolledBack? {
      assert RolledBackInv(Last(trace));
    }
  }

  /** What one turn of the pass does to a well-formed artifact when no write fails. */
  ghost predicate Turned(
    files: map<string, Artifact>, m: Values, files': map<string, Artifact>, m': Values, path: string, go: bool)
  {
    if !Recoverable(files, m, path) then
      !go && files' == files && m' == m
    else
      && go
      && path in files' && files' == files[path := files'[path]]
      && Resolved(files[path], files'[path], m, m')
      && Untouched(files[path].entries, m, m')
  }

  function Counted(result: RecoveryResult): Tally
    reads result
  {
    Tally(result.skippedTerminalArtifacts, result.rolledForwardWrites, result.rolledBackWrites)
  }

  /** Resumes one artifact that is not terminal. */
  method ResumeOne(path: string, store: MemoryKVStore, directory: ArtifactDirectory, result: RecoveryResult)
    returns (go: bool)
    requires path in directory.files && !Terminal(directory.files[path].phase)
    modifies store, directory, result`success, result`reason, result`conflicts
    modifies result`rolledForwardWrites, result`rolledBackWrites
    ensures WellFormed(old(directory.files)[path].entries) && directory.faults == old(directory.faults) ==>
      && Turned(old(directory.files), old(store.values), directory.files, store.values, path, go)
      && Counted(result) ==
         old(Counted(result)).Plus(
           if go then TallyOf(old(directory.files)[path], old(store.values)) else Tally(0, 0, 0))
    ensures go ==> directory.faults == old(directory.faults) && result.success == old(result.success)
    ensures !go ==> !result.success
    ensures directory.faults == old(directory.faults) ==>
      result.Failures() == old(result.Failures()) + if go then 0 else 1
  {
    ghost var before, m := directory.files[path], store.values;
    var artifact := new ArtifactRecord(directory.files[path]);
    ghost var trace: seq<System>;
    if artifact.phase == RollingBack {
      go, trace := ResumeRollbackFallbackCommit(artifact, path, store, directory, result);
      if trace != [] && WellFormed(before.entries) && Detect(m, before.entries) <= |before.entries| {
        RollbackResolves(before, m, trace);
      }
    } else {
      go, trace := ResumeForwardFallbackCommit(artifact, path, store, directory, result);
      if trace != [] && WellFormed(before.entries) && Detect(m, before.entries) <= |before.entries| {
        ForwardResolves(before, m, trace);
      }
    }
    if trace != [] && trace[0].process.Stuck? {
      StuckStays(trace, trace[0], |trace| - 1);
    }
  }

  ghost predicate WellFormedAt(files: map<string, Artifact>, path: string) {
    path in files ==> WellFormed(files[path].entries)
  }

  /** One turn of the pass: parse, skip a terminal artifact, resume any other. */
  method RecoverOne(path: string, store: MemoryKVStore, directory: ArtifactDirectory, result: RecoveryResult)
    returns (go: bool)
    modifies store, directory, result
    ensures WellFormedAt(old(directory.files), path) && directory.faults == old(directory.faults) ==>
      && Turned(old(directory.files), old(store.values), directory.files, store.values, path, go)
      && Counted(result) ==
         old(Counted(result)).Plus(
           if go then TallyOf(old(directory.files)[path], old(store.values)) else Tally(0, 0, 0))
    ensures go ==> directory.faults == old(directory.faults) && result.success == old(result.success)
    ensures result.Handled() == old(result.Handled()) + if go then 1 else 0
    ensures !go ==> !result.success
    ensures directory.faults == old(directory.faults) ==>
      result.Failures() == old(result.Failures()) + if go then 0 else 1
  {
    if path !in directory.files {
      result.parseFailures := result.parseFailures + 1;
      result.Fail("failed to parse fallback artifact: " + path);
      return false;
    }
    var phase := directory.files[path].phase;
    if phase == Committed || phase == RolledBack {
      result.skippedTerminalArtifacts := result.skippedTerminalArtifacts + 1;
      assert directory.files == directory.files[path := directory.files[path]];
      return true;
    }
    go := ResumeOne(path, store, directory, result);
    if go {
      result.recoveredArtifacts := result.recoveredArtifacts + 1;
    }
  }

  // ---- The pass ----

  /** Distinct paths, well-formed artifacts, and no key in two of them. */
  ghost predicate Independent(files: map<string, Artifact>, paths: seq<string>) {
    && (forall i, j :: 0 <= i < j < |paths| ==> paths[i] != paths[j])
    && (forall path <- paths :: path in files ==> WellFormed(files[path].entries))
    && (forall p, q | p in paths && q in paths && p != q && p in files && q in files :: Disjoint(files[p], files[q]))
  }

  predicate Disjoint(a: Artifact, b: Artifact) {
    forall e <- a.entries :: !Names(b.entries, e.key)
  }

  /** The first path that stops the pass: missing, unreadable, or in no prefix state. */
  function FirstBad(files: map<string, Artifact>, m: Values, paths: seq<string>): (b: nat)
    ensures b <= |paths|
    ensures forall i :: 0 <= i < b ==> Recoverable(files, m, paths[i])
    ensures b < |paths| ==> !Recoverable(files, m, paths[b])
  {
    if paths == [] || !Recoverable(files, m, paths[0]) then 0 else 1 + FirstBad(files, m, paths[1..])
  }

  /** The artifact is terminal, or the store holds exactly its first writes. */
  ghost predicate InOrderAt(files: map<string, Artifact>, m: Values, path: string) {
    && path in files
    && (files[path].phase.Committed? || files[path].phase.RolledBack?
        || exists k: nat :: PrefixState(m, files[path].entries, k))
  }

  lemma RecoverableExactly(files: map<string, Artifact>, m: Values, path: string)
    requires WellFormedAt(files, path)
    ensures Recoverable(files, m, path) <==> InOrderAt(files, m, path)
  {
    if path in files {
      var entries := files[path].entries;
      forall k: nat | PrefixState(m, entries, k)
        ensures Detect(m, entries) == k
      {
        DetectExact(m, entries, k);
      }
      if Detect(m, entries) <= |entries| {
        DetectExact(m, entries, Detect(m, entries));
      }
    }
  }

  /** The pass stops nowhere if and only if every path has an artifact that is terminal, whatever has become of its
      keys, or whose store holds exactly its first writes. */
  lemma PassSucceedsExactly(files: map<string, Artifact>, m: Values, paths: seq<string>)
    requires forall path <- paths :: WellFormedAt(files, path)
    ensures FirstBad(files, m, paths) == |paths| <==> forall path <- paths :: InOrderAt(files, m, path)
  {
    forall path <- paths
      ensures Recoverable(files, m, path) <==> InOrderAt(files, m, path)
    {
      RecoverableExactly(files, m, path);
    }
    var b := FirstBad(files, m, paths);
    if b < |paths| {
      assert paths[b] in paths;
    }
  }

  /** The tally of the first `i` paths. */
  function TallyAll(files: map<string, Artifact>, m: Values, paths: seq<string>, i: nat): Tally
    requires i <= |paths|
  {
    if i == 0 then Tally(0, 0, 0)
    else
      var path := paths[i - 1];
      TallyAll(files, m, paths, i - 1).Plus(if path in files then TallyOf(files[path], m) else Tally(0, 0, 0))
  }

  // ---- What the tallies count ----

  /** How many of the entries are at their targets. */
  function AtTargets(m: Values, entries: seq<CommitEntry>): (n: nat)
    ensures n <= |entries|
    decreases entries
  {
    if entries == [] then 0 else (if AtTarget(m, entries[0]) then 1 else 0) + AtTargets(m, entries[1..])
  }

  lemma {:induction false} AtTargetsJoined(m: Values, a: seq<CommitEntry>, b: seq<CommitEntry>)
    ensures AtTargets(m, a + b) == AtTargets(m, a) + AtTargets(m, b)
    decreases a
  {
    if a == [] {
      assert a + b == b;
    } else {
      assert (a + b)[1..] == a[1..] + b;
      AtTargetsJoined(m, a[1..], b);
    }
  }

  lemma {:induction false} NoneAtTarget(m: Values, entries: seq<CommitEntry>)
    requires forall e <- entries :: !AtTarget(m, e)
    ensures AtTargets(m, entries) == 0
    decreases entries
  {
    if entries != [] {
      NoneAtTarget(m, entries[1..]);
    }
  }

  lemma {:induction false} AllAtTarget(m: Values, entries: seq<CommitEntry>)
    requires forall e <- entries :: AtTarget(m, e)
    ensures AtTargets(m, entries) == |entries|
    decreases entries
  {
    if entries != [] {
      AllAtTarget(m, entries[1..]);
    }
  }

  lemma PrefixIsCount(m: Values, entries: seq<CommitEntry>, k: nat)
    requires WellFormed(entries) && PrefixState(m, entries, k)
    ensures AtTargets(m, entries) == k
  {
    assert entries[..k] + entries[k..] == entries;
    AtTargetsJoined(m, entries[..k], entries[k..]);
    AllAtTarget(m, entries[..k]);
    forall i | k <= i < |entries|
      ensures !AtTarget(m, entries[i])
    {
      assert Settled(m, entries[i]);
      SettledIsNotTarget(m, entries, i);
    }
    NoneAtTarget(m, entries[k..]);
  }

  lemma TallyCounts(artifact: Artifact, m: Values)
    requires WellFormed(artifact.entries)
    requires Terminal(artifact.phase) || Detect(m, artifact.entries) <= |artifact.entries|
    ensures var n := AtTargets(m, artifact.entries);
      TallyOf(artifact, m) ==
        if Terminal(artifact.phase) then Tally(1, 0, 0)
        else if artifact.phase.RollingBack? then Tally(0, 0, n)
        else Tally(0, |artifact.entries| - n, 0)
  {
    if !Terminal(artifact.phase) {
      PrefixIsCount(m, artifact.entries, Detect(m, artifact.entries));
    }
  }

  /** The entries of an artifact if it is rolled back, or if it is rolled forward. */
  function EntriesAt(files: map<string, Artifact>, path: string, back: bool): seq<CommitEntry> {
    if path in files && !Terminal(files[path].phase) && files[path].phase.RollingBack? == back then files[path].entries
    else []
  }

  function EntriesOf(files: map<string, Artifact>, paths: seq<string>, n: nat, back: bool): seq<CommitEntry>
    requires n <= |paths|
  {
    if n == 0 then [] else EntriesOf(files, paths, n - 1, back) + EntriesAt(files, paths[n - 1], back)
  }

  lemma TallyCountsWrites(files: map<string, Artifact>, m: Values, path: string)
    requires Recoverable(files, m, path) && WellFormedAt(files, path)
    ensures var back, forth := EntriesAt(files, path, true), EntriesAt(files, path, false);
      && TallyOf(files[path], m).back == AtTargets(m, back)
      && TallyOf(files[path], m).forward == |forth| - AtTargets(m, forth)
  {
    TallyCounts(files[path], m);
  }

  ghost predicate CountsWrites(files: map<string, Artifact>, m: Values, paths: seq<string>, n: nat)
    requires n <= |paths|
  {
    var back, forth := EntriesOf(files, paths, n, true), EntriesOf(files, paths, n, false);
    && TallyAll(files, m, paths, n).back == AtTargets(m, back)
    && TallyAll(files, m, paths, n).forward == |forth| - AtTargets(m, forth)
  }

  lemma OneMoreCounts(files: map<string, Artifact>, m: Values, paths: seq<string>, n: nat)
    requires n < |paths| && CountsWrites(files, m, paths, n)
    requires Recoverable(files, m, paths[n]) && WellFormedAt(files, paths[n])
    ensures CountsWrites(files, m, paths, n + 1)
  {
    var path := paths[n];
    TallyCountsWrites(files, m, path);
    AtTargetsJoined(m, EntriesOf(files, paths, n, true), EntriesAt(files, path, true));
    AtTargetsJoined(m, EntriesOf(files, paths, n, false), EntriesAt(files, path, false));
  }

  /** Up to the first bad artifact the pass counts as rolled back every write that was in the store, and as rolled
      forward every write that was not. */
  lemma {:induction false} TalliesCountWrites(files: map<string, Artifact>, m: Values, paths: seq<string>, n: nat)
    requires n <= FirstBad(files, m, paths) && forall i :: 0 <= i < n ==> WellFormedAt(files, paths[i])
    ensures CountsWrites(files, m, paths, n)
  {
    if n > 0 {
      TalliesCountWrites(files, m, paths, n - 1);
      OneMoreCounts(files, m, paths, n - 1);
    }
  }

  ghost predicate ResolvedAt(
    files: map<string, Artifact>, m: Values, files': map<string, Artifact>, m': Values, path: string)
  {
    path in files && path in files' && Resolved(files[path], files'[path], m, m')
  }

  ghost predicate PendingAt(
    files: map<string, Artifact>, m: Values, files': map<string, Artifact>, m': Values, path: string)
  {
    if path in files then
      path in files' && files'[path] == files[path] && SameEntries(files[path], m, m')
    else
      path !in files'
  }

  /** The state of the pass after `i` paths: those are resolved, the others are as they were. */
  ghost predicate Progress(
    files: map<string, Artifact>, m: Values, paths: seq<string>, i: nat, files': map<string, Artifact>, m': Values)
  {
    && i <= |paths|
    && (forall j :: 0 <= j < i ==> ResolvedAt(files, m, files', m', paths[j]))
    && (forall j :: i <= j < |paths| ==> PendingAt(files, m, files', m', paths[j]))
  }

  lemma DetectFrame(artifact: Artifact, m: Values, m': Values)
    requires SameEntries(artifact, m, m')
    ensures Detect(m', artifact.entries) == Detect(m, artifact.entries)
  {
    TargetPrefixFrame(m, m', artifact.entries);
    SameLookupsSameState(m, m', artifact.entries);
  }

  lemma DisjointIsUntouched(a: Artifact, b: Artifact, m: Values, m': Values)
    requires Disjoint(a, b) && Untouched(b.entries, m, m')
    ensures SameEntries(a, m, m')
  {
  }

  lemma ResolvedFrame(before: Artifact, after: Artifact, m: Values, m': Values, m'': Values)
    requires Resolved(before, after, m, m') && SameEntries(before, m', m'')
    ensures Resolved(before, after, m, m'')
  {
  }

  lemma ResolvedFromPending(before: Artifact, after: Artifact, m: Values, m': Values, m'': Values)
    requires SameEntries(before, m, m') && Resolved(before, after, m', m'')
    ensures Resolved(before, after, m, m'')
  {
  }

  lemma ProgressStep(
      files: map<string, Artifact>, m: Values, paths: seq<string>, i: nat,
      files': map<string, Artifact>, m': Values, files'': map<string, Artifact>, m'': Values, go: bool)
    requires Independent(files, paths) && i < |paths|
    requires Progress(files, m, paths, i, files', m')
    requires Turned(files', m', files'', m'', paths[i], go)
    ensures go <==> Recoverable(files, m, paths[i])
    ensures go ==> Progress(files, m, paths, i + 1, files'', m'')
  {
    var path := paths[i];
    assert PendingAt(files, m, files', m', path);
    if path in files {
      DetectFrame(files[path], m, m');
    }
    if go {
      ResolvedFromPending(files[path], files''[path], m, m', m'');
      forall j | 0 <= j < |paths| && j != i && paths[j] in files
        ensures SameEntries(files[paths[j]], m', m'')
      {
        assert paths[j] in paths && path in paths && paths[j] != path;
        DisjointIsUntouched(files[paths[j]], files[path], m', m'');
      }
      forall j | 0 <= j < i
        ensures ResolvedAt(files, m, files'', m'', paths[j])
      {
        ResolvedFrame(files[paths[j]], files'[paths[j]], m, m', m'');
      }
      forall j | i < j < |paths|
        ensures PendingAt(files, m, files'', m'', paths[j])
      {
        assert PendingAt(files, m, files', m', paths[j]);
      }
    }
  }

  /** A path whose turn comes is as it was at the start, and adds its own counts to the sums. */
  lemma PendingCounts(
      files: map<string, Artifact>, m: Values, paths: seq<string>, i: nat, files': map<string, Artifact>, m': Values)
    requires Independent(files, paths) && i < |paths|
    requires Progress(files, m, paths, i, files', m')
    ensures paths[i] in files' <==> paths[i] in files
    ensures paths[i] in files ==> files'[paths[i]] == files[paths[i]] && WellFormed(files[paths[i]].entries)
    ensures paths[i] in files ==> TallyOf(files'[paths[i]], m') == TallyOf(files[paths[i]], m)
  {
    assert PendingAt(files, m, files', m', paths[i]) && paths[i] in paths;
    if paths[i] in files {
      DetectFrame(files[paths[i]], m, m');
    }
  }

  /** The state and the counters of the pass after `i` paths, none of them bad. */
  ghost predicate Passed(
    files: map<string, Artifact>, m: Values, paths: seq<string>, i: nat,
    files': map<string, Artifact>, m': Values, tally: Tally)
  {
    && Progress(files, m, paths, i, files', m')
    && i <= FirstBad(files, m, paths)
    && tally == TallyAll(files, m, paths, i)
  }

  lemma PassStep(
      files: map<string, Artifact>, m: Values, paths: seq<string>, i: nat,
      files': map<string, Artifact>, m': Values, tally: Tally,
      files'': map<string, Artifact>, m'': Values, go: bool)
    requires Independent(files, paths) && i < |paths|
    requires Passed(files, m, paths, i, files', m', tally)
    requires Turned(files', m', files'', m'', paths[i], go)
    ensures go ==> paths[i] in files'
    ensures go ==> Passed(files, m, paths, i + 1, files'', m'', tally.Plus(TallyOf(files'[paths[i]], m')))
    ensures !go ==> i == FirstBad(files, m, paths)
  {
    PendingCounts(files, m, paths, i, files', m');
    ProgressStep(files, m, paths, i, files', m', files'', m'', go);
  }

  /** The whole pass, over independent artifacts and with no failed write. With `b` the first path that
      cannot be recovered (or their number), every path before `b` is resolved, every path from `b`
      on keeps its artifact and keys, and the counters account for exactly the paths before `b`: one
      recovery or one skip each, and the writes `TallyOf` says. The pass reports success when there is
      no such path, and exactly one failure otherwise. */
  method RecoverFallbackCommitArtifacts(paths: seq<string>, store: MemoryKVStore, directory: ArtifactDirectory)
    returns (result: RecoveryResult)
    modifies store, directory
    ensures fresh(result)
    ensures Independent(old(directory.files), paths) && directory.faults == old(directory.faults) ==>
      var b := FirstBad(old(directory.files), old(store.values), paths);
      && Passed(old(directory.files), old(store.values), paths, b, directory.files, store.values, Counted(result))
      && (result.success <==> b == |paths|)
      && result.Failures() == (if b == |paths| then 0 else 1)
      && result.Handled() == b
  {
    result := new RecoveryResult();
    ghost var files, m := directory.files, store.values;
    ghost var independent := Independent(files, paths);
    for i := 0 to |paths|
      invariant result.success && directory.faults == old(directory.faults)
      invariant result.Failures() == 0 && result.Handled() == i
      invariant independent ==> Passed(files, m, paths, i, directory.files, store.values, Counted(result))
    {
      ghost var files', m', tally := directory.files, store.values, Counted(result);
      if independent {
        PendingCounts(files, m, paths, i, files', m');
      }
      var go := RecoverOne(paths[i], store, directory, result);
      if independent && directory.faults == old(directory.faults) {
        PassStep(files, m, paths, i, files', m', tally, directory.files, store.values, go);
      }
      if !go {
        return;
      }
    }
  }
}
