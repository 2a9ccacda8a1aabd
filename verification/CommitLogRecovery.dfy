/** Recovery and replay of commit logs. */
module CommitLogRecovery {
  import opened Wrappers
  import opened KvStore
  import opened WriteBuffers
  import opened Branches
  import opened CommitPlan
  import opened FallbackCommit
  import AgentTxn
  import CommitManager

  type LogEntry = AgentTxn.CommitLogEntry

  /** A parsed commit log: whether its transaction committed, and its entries. */
  datatype CommitLog = CommitLog(committed: bool, entries: seq<LogEntry>)

  datatype RecoveryResult = RecoveryResult(
    applied: nat,
    skippedEntries: nat,
    skippedLogs: nat,
    parseFailures: nat,
    conflicts: nat,
    success: bool)

  const CLEAN := RecoveryResult(0, 0, 0, 0, 0, true)

  datatype Recovery = Recovery(values: Values, result: RecoveryResult)

  // ---- What recovery does ----

  predicate AlreadyThere(m: Values, e: LogEntry) {
    Lookup(m, e.key) == VersionedValue(e.value, e.expectedVersion + 1, true)
  }

  /** An entry is skipped if its write is already there, else put if the version allows it. */
  function RecoverEntry(r: Recovery, e: LogEntry): Recovery {
    if AlreadyThere(r.values, e) then r.(result := r.result.(skippedEntries := r.result.skippedEntries + 1))
    else
      var put := PutIf(r.values, e.key, e.expectedVersion, e.value);
      Recovery(put.values,
               if put.ok then r.result.(applied := r.result.applied + 1)
               else r.result.(conflicts := r.result.conflicts + 1, success := false))
  }

  /** The entries from `i` on, up to the first conflict. */
  function RecoverEntries(r: Recovery, entries: seq<LogEntry>, i: nat): Recovery
    requires i <= |entries|
    decreases |entries| - i
  {
    if i == |entries| || !r.result.success then r else RecoverEntries(RecoverEntry(r, entries[i]), entries, i + 1)
  }

  /** The logs from `i` on; `None` stands for a log that cannot be parsed. */
  function RecoverLogs(r: Recovery, logs: seq<Option<CommitLog>>, i: nat): Recovery
    requires i <= |logs|
    decreases |logs| - i
  {
    if i == |logs| || !r.result.success then r
    else
      var next := match logs[i]
        case None => r.(result := r.result.(parseFailures := r.result.parseFailures + 1, success := false))
        case Some(log) =>
          if log.committed then RecoverEntries(r, log.entries, 0)
          else r.(result := r.result.(skippedLogs := r.result.skippedLogs + 1));
      RecoverLogs(next, logs, i + 1)
  }

  method RecoverLog(
      entries: seq<LogEntry>, store: MemoryKVStore, before: RecoveryResult)
    returns (result: RecoveryResult)
    requires before.success
    modifies store
    ensures Recovery(store.values, result) == RecoverEntries(Recovery(old(store.values), before), entries, 0)
  {
    result := before;
    for i := 0 to |entries|
      invariant result.success
      invariant RecoverEntries(Recovery(store.values, result), entries, i)
             == RecoverEntries(Recovery(old(store.values), before), entries, 0)
    {
      var e := entries[i];
      var current := store.Get(e.key);
      if current.present && current.version == e.expectedVersion + 1 && current.value == e.value {
        result := result.(skippedEntries := result.skippedEntries + 1);
        continue;
      }
      var put := store.PutIfVersion(e.key, e.expectedVersion, e.value);
      if !put {
        return result.(conflicts := result.conflicts + 1, success := false);
      }
      result := result.(applied := result.applied + 1);
    }
  }

  method RecoverCommittedWrites(logs: seq<Option<CommitLog>>, store: MemoryKVStore) returns (result: RecoveryResult)
    modifies store
    ensures Recovery(store.values, result) == RecoverLogs(Recovery(old(store.values), CLEAN), logs, 0)
  {
    result := CLEAN;
    for i := 0 to |logs|
      invariant result.success
      invariant RecoverLogs(Recovery(store.values, result), logs, i)
             == RecoverLogs(Recovery(old(store.values), CLEAN), logs, 0)
    {
      match logs[i] {
        case None =>
          return result.(parseFailures := result.parseFailures + 1, success := false);
        case Some(log) =>
          if log.committed {
            result := RecoverLog(log.entries, store, result);
            if !result.success {
              return;
            }
          } else {
            result := result.(skippedLogs := result.skippedLogs + 1);
          }
      }
    }
  }

  // ---- Version chains ----

  /** The store after the first `n` entries are simply written. */
  function WrittenTo(m: Values, entries: seq<LogEntry>, n: nat): Values
    requires n <= |entries|
  {
    if n == 0 then m else Written(WrittenTo(m, entries, n - 1), entries[n - 1].key, entries[n - 1].value)
  }

  /** Each entry expects the version that the entries before it leave. */
  ghost predicate Chain(m: Values, entries: seq<LogEntry>) {
    forall i :: 0 <= i < |entries| ==> Linked(m, entries, i)
  }

  ghost predicate Linked(m: Values, entries: seq<LogEntry>, i: nat)
    requires i < |entries|
  {
    Lookup(WrittenTo(m, entries, i), entries[i].key).version == entries[i].expectedVersion
  }

  predicate OnceUpTo(entries: seq<LogEntry>, k: nat)
    requires k <= |entries|
  {
    forall i, j :: 0 <= i < j < k ==> entries[i].key != entries[j].key
  }

  /** From the store as the first `i` entries left it, recovery writes all the others. */
  lemma {:induction false} ChainRecovers(m: Values, entries: seq<LogEntry>, i: nat, result: RecoveryResult)
    requires Chain(m, entries) && i <= |entries| && result.success
    ensures RecoverEntries(Recovery(WrittenTo(m, entries, i), result), entries, i)
         == Recovery(WrittenTo(m, entries, |entries|), result.(applied := result.applied + |entries| - i))
    decreases |entries| - i
  {
    if i < |entries| {
      assert Linked(m, entries, i);
      ChainRecovers(m, entries, i + 1, result.(applied := result.applied + 1));
    }
  }

  /** Later entries only raise the version of a key. */
  lemma {:induction false} VersionsRise(m: Values, entries: seq<LogEntry>, i: nat, k: nat)
    requires i < k <= |entries|
    ensures var now, e :=
      Lookup(WrittenTo(m, entries, k), entries[i].key), Lookup(WrittenTo(m, entries, i), entries[i].key);
      && now.version > e.version
      && ((forall j :: i < j < k ==> entries[j].key != entries[i].key) ==>
            now == VersionedValue(entries[i].value, e.version + 1, true))
      && ((exists j :: i < j < k && entries[j].key == entries[i].key) ==> now.version > e.version + 1)
    decreases k
  {
    if i + 1 < k {
      VersionsRise(m, entries, i, k - 1);
    }
  }

  /** Entry `i` of the first `k` is found already there exactly when no later one of them has its key. */
  lemma WrittenIsThere(m: Values, entries: seq<LogEntry>, i: nat, k: nat)
    requires Chain(m, entries) && i < k <= |entries|
    ensures var now := WrittenTo(m, entries, k);
      if forall j :: i < j < k ==> entries[j].key != entries[i].key then AlreadyThere(now, entries[i])
      else !AlreadyThere(now, entries[i]) && Lookup(now, entries[i].key).version != entries[i].expectedVersion
  {
    assert Linked(m, entries, i);
    VersionsRise(m, entries, i, k);
  }

  lemma {:induction false} SkipsToFailure(m: Values, entries: seq<LogEntry>, i: nat, k: nat, result: RecoveryResult)
    requires Chain(m, entries) && i < k <= |entries| && result.success
    requires exists p, q :: i <= p < q < k && entries[p].key == entries[q].key
    ensures !RecoverEntries(Recovery(WrittenTo(m, entries, k), result), entries, i).result.success
    decreases k - i
  {
    WrittenIsThere(m, entries, i, k);
    if forall j :: i < j < k ==> entries[j].key != entries[i].key {
      SkipsToFailure(m, entries, i + 1, k, result.(skippedEntries := result.skippedEntries + 1));
    } else {
      var failed := RecoverEntry(Recovery(WrittenTo(m, entries, k), result), entries[i]);
      assert RecoverEntries(failed, entries, i + 1) == failed;
    }
  }

  lemma {:induction false} SkipsThenWrites(m: Values, entries: seq<LogEntry>, i: nat, k: nat, result: RecoveryResult)
    requires Chain(m, entries) && i <= k <= |entries| && result.success
    requires OnceUpTo(entries, k)
    ensures RecoverEntries(Recovery(WrittenTo(m, entries, k), result), entries, i)
         == Recovery(WrittenTo(m, entries, |entries|),
                     result.(skippedEntries := result.skippedEntries + k - i,
                             applied := result.applied + |entries| - k))
    decreases k - i
  {
    if i == k {
      ChainRecovers(m, entries, k, result);
    } else {
      WrittenIsThere(m, entries, i, k);
      SkipsThenWrites(m, entries, i + 1, k, result.(skippedEntries := result.skippedEntries + 1));
    }
  }

  /** Restarting recovery after it wrote the first `k` entries works exactly when those entries name each
      key once; then it skips them, writes the rest, and ends where an uninterrupted run ends. With all
      entries written this says when recovery is idempotent. */
  lemma RestartExact(m: Values, entries: seq<LogEntry>, k: nat)
    requires Chain(m, entries) && k <= |entries|
    ensures var restarted := RecoverEntries(Recovery(WrittenTo(m, entries, k), CLEAN), entries, 0);
      && (restarted.result.success <==> OnceUpTo(entries, k))
      && (OnceUpTo(entries, k) ==>
            && restarted.values == RecoverEntries(Recovery(m, CLEAN), entries, 0).values
            && restarted.result == CLEAN.(skippedEntries := k, applied := |entries| - k))
  {
    if OnceUpTo(entries, k) {
      SkipsThenWrites(m, entries, 0, k, CLEAN);
      ChainRecovers(m, entries, 0, CLEAN);
    } else {
      SkipsToFailure(m, entries, 0, k, CLEAN);
    }
  }

  // ---- Recovery against replay ----

  /** `ReplayCommitLogArtifacts` on the committed entries: the last one of each key. */
  function Replayed(entries: seq<LogEntry>, n: nat): map<string, LogEntry>
    requires n <= |entries|
  {
    if n == 0 then map[] else Replayed(entries, n - 1)[entries[n - 1].key := entries[n - 1]]
  }

  /** The entries of the committed logs from `i` on, in order. */
  function CommittedEntries(logs: seq<Option<CommitLog>>, i: nat): seq<LogEntry>
    requires i <= |logs|
    decreases |logs| - i
  {
    if i == |logs| then []
    else
      (if logs[i].Some? && logs[i].value.committed then logs[i].value.entries else []) + CommittedEntries(logs, i + 1)
  }

  /** Replays one committed log, which stands in the list of all entries from `done` on. */
  method ReplayLog(entries: seq<LogEntry>, before: map<string, LogEntry>, ghost all: seq<LogEntry>, ghost done: nat)
    returns (state: map<string, LogEntry>)
    requires done + |entries| <= |all| && all[done..done + |entries|] == entries
    requires before == Replayed(all, done)
    ensures state == Replayed(all, done + |entries|)
  {
    state := before;
    for j := 0 to |entries|
      invariant state == Replayed(all, done + j)
    {
      assert all[done..done + |entries|][j] == entries[j];
      state := state[entries[j].key := entries[j]];
    }
  }

  method ReplayCommitLogArtifacts(logs: seq<Option<CommitLog>>) returns (state: map<string, LogEntry>)
    ensures var all := CommittedEntries(logs, 0);
      state == Replayed(all, |all|)
  {
    state := map[];
    ghost var all := CommittedEntries(logs, 0);
    ghost var done: nat := 0;
    for i := 0 to |logs|
      invariant Reached(all, done, logs, i) && state == Replayed(all, done)
    {
      NextLog(all, done, logs, i);
      if logs[i].None? || !logs[i].value.committed {
        continue;
      }
      var entries := logs[i].value.entries;
      state := ReplayLog(entries, state, all, done);
      done := done + |entries|;
    }
  }

  /** The entries of the logs from `i` on are those of `all` from `done` on. */
  ghost predicate Reached(all: seq<LogEntry>, done: nat, logs: seq<Option<CommitLog>>, i: nat)
    requires i <= |logs|
  {
    done <= |all| && all[done..] == CommittedEntries(logs, i)
  }

  lemma NextLog(all: seq<LogEntry>, done: nat, logs: seq<Option<CommitLog>>, i: nat)
    requires i < |logs| && Reached(all, done, logs, i)
    ensures
      if logs[i].None? || !logs[i].value.committed then Reached(all, done, logs, i + 1)
      else
        var entries := logs[i].value.entries;
        && done + |entries| <= |all| && all[done..done + |entries|] == entries
        && Reached(all, done + |entries|, logs, i + 1)
  {
    if logs[i].Some? && logs[i].value.committed {
      var entries := logs[i].value.entries;
      assert all[done..][..|entries|] == entries && all[done..][|entries|..] == CommittedEntries(logs, i + 1);
    }
  }

  lemma {:induction false} ReplayedIsWritten(m: Values, entries: seq<LogEntry>, n: nat, key: string)
    requires Chain(m, entries) && n <= |entries|
    ensures var state, now := Replayed(entries, n), Lookup(WrittenTo(m, entries, n), key);
      if key in state then now == VersionedValue(state[key].value, state[key].expectedVersion + 1, true)
      else now == Lookup(m, key)
  {
    if n > 0 {
      ReplayedIsWritten(m, entries, n - 1, key);
      assert Linked(m, entries, n - 1);
    }
  }

  predicate AllParsed(logs: seq<Option<CommitLog>>) {
    forall log <- logs :: log.Some?
  }

  lemma {:induction false} RecoverTail(r: Recovery, head: seq<LogEntry>, tail: seq<LogEntry>, i: nat)
    requires i <= |tail|
    ensures RecoverEntries(r, head + tail, |head| + i) == RecoverEntries(r, tail, i)
    decreases |tail| - i
  {
    if i < |tail| && r.result.success {
      RecoverTail(RecoverEntry(r, tail[i]), head, tail, i + 1);
    }
  }

  lemma {:induction false} RecoverJoined(r: Recovery, head: seq<LogEntry>, tail: seq<LogEntry>, i: nat)
    requires i <= |head|
    ensures RecoverEntries(r, head + tail, i) == RecoverEntries(RecoverEntries(r, head, i), tail, 0)
    decreases |head| - i
  {
    if i == |head| {
      RecoverTail(r, head, tail, 0);
    } else if r.result.success {
      RecoverJoined(RecoverEntry(r, head[i]), head, tail, i + 1);
    }
  }

  /** The same recovery, with another number of skipped logs. */
  function Counted(r: Recovery, skipped: nat): Recovery {
    r.(result := r.result.(skippedLogs := skipped))
  }

  lemma {:induction false} SkippedLogsStay(r: Recovery, entries: seq<LogEntry>, i: nat, skipped: nat)
    requires i <= |entries|
    ensures RecoverEntries(Counted(r, skipped), entries, i) == Counted(RecoverEntries(r, entries, i), skipped)
    decreases |entries| - i
  {
    if i < |entries| && r.result.success {
      SkippedLogsStay(RecoverEntry(r, entries[i]), entries, i + 1, skipped);
    }
  }

  lemma CommittedLogIsEntries(r: Recovery, entries: seq<LogEntry>, rest: seq<LogEntry>, end: Recovery)
    requires Counted(end, RecoverEntries(r, entries, 0).result.skippedLogs)
      == RecoverEntries(RecoverEntries(r, entries, 0), rest, 0)
    ensures Counted(end, r.result.skippedLogs) == RecoverEntries(r, entries + rest, 0)
  {
    RecoverJoined(r, entries, rest, 0);
    SkippedLogsStay(r, entries, 0, r.result.skippedLogs);
  }

  lemma SkippedLogIsNothing(r: Recovery, rest: seq<LogEntry>, end: Recovery)
    requires var counted := Counted(r, r.result.skippedLogs + 1);
      Counted(end, counted.result.skippedLogs) == RecoverEntries(counted, rest, 0)
    ensures Counted(end, r.result.skippedLogs) == RecoverEntries(r, [] + rest, 0)
  {
    var counted := Counted(r, r.result.skippedLogs + 1);
    assert [] + rest == rest;
    SkippedLogsStay(counted, rest, 0, r.result.skippedLogs);
    assert Counted(counted, r.result.skippedLogs) == r;
  }

  /** Recovering logs that all parse is recovering the entries of the committed ones; the others are only
      counted. */
  lemma {:induction false} LogsAreEntries(r: Recovery, logs: seq<Option<CommitLog>>, i: nat)
    requires AllParsed(logs) && i <= |logs|
    ensures Counted(RecoverLogs(r, logs, i), r.result.skippedLogs) == RecoverEntries(r, CommittedEntries(logs, i), 0)
    decreases |logs| - i
  {
    if i < |logs| && r.result.success {
      assert logs[i] in logs;
      var log, rest := logs[i].value, CommittedEntries(logs, i + 1);
      if log.committed {
        LogsAreEntries(RecoverEntries(r, log.entries, 0), logs, i + 1);
        CommittedLogIsEntries(r, log.entries, rest, RecoverLogs(r, logs, i));
      } else {
        LogsAreEntries(Counted(r, r.result.skippedLogs + 1), logs, i + 1);
        SkippedLogIsNothing(r, rest, RecoverLogs(r, logs, i));
      }
    }
  }

  /** Recovery agrees with replay: on logs whose entries form a version chain from the store, it succeeds,
      writes every entry, and leaves each key that replay knows at the value replay computes, one version
      above the one it expects, and all others as they were. */
  lemma RecoveryAgreesWithReplay(m: Values, logs: seq<Option<CommitLog>>)
    requires AllParsed(logs) && Chain(m, CommittedEntries(logs, 0))
    ensures var all, end := CommittedEntries(logs, 0), RecoverLogs(Recovery(m, CLEAN), logs, 0);
      var state := Replayed(all, |all|);
      && end.result.success && end.result.applied == |all|
      && forall key :: Lookup(end.values, key) ==
           if key in state then VersionedValue(state[key].value, state[key].expectedVersion + 1, true)
           else Lookup(m, key)
  {
    var all, end := CommittedEntries(logs, 0), RecoverLogs(Recovery(m, CLEAN), logs, 0);
    LogsAreEntries(Recovery(m, CLEAN), logs, 0);
    ChainRecovers(m, all, 0, CLEAN);
    forall key
      ensures var state := Replayed(all, |all|);
        Lookup(end.values, key) ==
          if key in state then VersionedValue(state[key].value, state[key].expectedVersion + 1, true)
          else Lookup(m, key)
    {
      ReplayedIsWritten(m, all, |all|, key);
    }
  }

  // ---- Recovery against execution ----

  /** What one batch commit attempt asks of the store. */
  datatype Batch = Batch(checks: map<string, nat>, writes: seq<WriteOp>)

  /** What planning a commit guarantees. */
  predicate Plausible(b: Batch) {
    DistinctKeys(b.writes) && forall w <- b.writes :: w.key in b.checks
  }

  /** Every plan of a branch that operations can build is plausible. */
  lemma PlannedIsPlausible(b: BranchState, views: seq<VersionedValue>)
    requires Consistent(b.buffer) && |views| == |b.buffer.order| && PlanCommit(b, views).Planned?
    ensures Plausible(Batch(PlanCommit(b, views).checks, PlanCommit(b, views).writes))
  {
    PlanIsChecked(b, views);
  }

  /** The store after the first `n` attempts. */
  function Executed(m: Values, batches: seq<Batch>, n: nat): Values
    requires n <= |batches|
  {
    if n == 0 then m
    else BatchCommit(Executed(m, batches, n - 1), batches[n - 1].checks, batches[n - 1].writes).values
  }

  /** The log an attempt leaves when it runs on `m`; a failed one is marked as not committed, whatever
      its entries. */
  ghost predicate LoggedAs(m: Values, b: Batch, log: CommitLog) {
    && log.committed == BatchCommit(m, b.checks, b.writes).ok
    && (log.committed ==> log.entries == CommitManager.LogOf(b.writes, b.checks))
  }

  /** Attempt `i` left log `i`; `None` stands for a log that cannot be parsed. */
  ghost predicate LoggedAt(m: Values, batches: seq<Batch>, logs: seq<Option<CommitLog>>, i: nat)
    requires i < |batches| == |logs|
  {
    logs[i].Some? ==> LoggedAs(Executed(m, batches, i), batches[i], logs[i].value)
  }

  /** The log of a successful batch, recovered on the store the batch ran on, redoes the batch. */
  lemma {:induction false} BatchRecovers(m: Values, b: Batch, n: nat, r: Recovery)
    requires Plausible(b) && BatchCommit(m, b.checks, b.writes).ok && n <= |b.writes|
    requires r.values == PutAll(m, b.writes[..n]) && r.result.success
    ensures RecoverEntries(r, CommitManager.LogOf(b.writes, b.checks), n)
         == Recovery(PutAll(m, b.writes), r.result.(applied := r.result.applied + |b.writes| - n))
    decreases |b.writes| - n
  {
    var log := CommitManager.LogOf(b.writes, b.checks);
    if n < |b.writes| {
      var w := b.writes[n];
      assert w in b.writes;
      forall x <- b.writes[..n]
        ensures x.key != w.key
      {
        var j :| 0 <= j < n && b.writes[j] == x;
      }
      PutAllFrame(m, b.writes[..n], w.key);
      PutAllAppend(m, b.writes[..n], w);
      assert b.writes[..n] + [w] == b.writes[..n + 1];
      BatchRecovers(m, b, n + 1, RecoverEntry(r, log[n]));
    } else {
      assert b.writes[..n] == b.writes;
    }
  }

  function AfterLog(r: Recovery, log: CommitLog): Recovery {
    if log.committed then RecoverEntries(r, log.entries, 0) else Counted(r, r.result.skippedLogs + 1)
  }

  /** Recovering the log of an attempt does what the attempt did. */
  lemma LogRedoes(m: Values, b: Batch, log: CommitLog, r: Recovery)
    requires Plausible(b) && LoggedAs(m, b, log) && r.values == m && r.result.success
    ensures var next := AfterLog(r, log);
      && next.values == BatchCommit(m, b.checks, b.writes).values && next.result.success
      && next.result.conflicts == r.result.conflicts && next.result.skippedEntries == r.result.skippedEntries
      && next.result.parseFailures == r.result.parseFailures
  {
    if log.committed {
      assert b.writes[..0] == [];
      BatchRecovers(m, b, 0, r);
    }
  }

  predicate ParsedFrom(logs: seq<Option<CommitLog>>, n: nat) {
    forall i :: n <= i < |logs| ==> logs[i].Some?
  }

  /** Recovery is execution: run any attempts one after the other on `m`, and recover their logs in that
      order on `m` again. If all logs can be parsed, recovery succeeds without a conflict or a skipped entry
      and ends with exactly the store of the execution; otherwise it fails, at the first that cannot. */
  lemma {:induction false} LogReplayEqualsExecution(
      m: Values, batches: seq<Batch>, logs: seq<Option<CommitLog>>, n: nat, r: Recovery)
    requires |logs| == |batches| && n <= |batches|
    requires forall b <- batches :: Plausible(b)
    requires forall i :: 0 <= i < |batches| ==> LoggedAt(m, batches, logs, i)
    requires r.values == Executed(m, batches, n) && r.result.success
    ensures var end := RecoverLogs(r, logs, n);
      && end.result.conflicts == r.result.conflicts && end.result.skippedEntries == r.result.skippedEntries
      && if ParsedFrom(logs, n) then
           end.result.success && end.values == Executed(m, batches, |batches|)
           && end.result.parseFailures == r.result.parseFailures
         else
           !end.result.success && end.result.parseFailures == r.result.parseFailures + 1
    decreases |batches| - n
  {
    if n < |batches| && logs[n].Some? {
      assert LoggedAt(m, batches, logs, n) && batches[n] in batches;
      assert ParsedFrom(logs, n) <==> ParsedFrom(logs, n + 1);
      LogRedoes(Executed(m, batches, n), batches[n], logs[n].value, r);
      LogReplayEqualsExecution(m, batches, logs, n + 1, AfterLog(r, logs[n].value));
    }
  }
}
