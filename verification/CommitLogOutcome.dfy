/** What the recovery of commit logs comes to, whatever the logs hold and whatever the store holds. */
module CommitLogOutcome {
  import opened Wrappers
  import opened KvStore
  import opened CommitLogRecovery

  // ---- What replay keeps ----

  predicate IsLast(entries: seq<LogEntry>, i: nat, n: nat)
    requires i < n <= |entries|
  {
    forall j :: i < j < n ==> entries[j].key != entries[i].key
  }

  /** Replay knows the keys that some entry names, each with the last entry that does. */
  lemma {:induction false} ReplayedIsLast(entries: seq<LogEntry>, n: nat, key: string)
    requires n <= |entries|
    ensures key in Replayed(entries, n) <==> exists i :: 0 <= i < n && entries[i].key == key
    ensures key in Replayed(entries, n) ==> Replayed(entries, n)[key].key == key
    ensures forall i :: 0 <= i < n && entries[i].key == key && IsLast(entries, i, n) ==>
      key in Replayed(entries, n) && Replayed(entries, n)[key] == entries[i]
  {
    if n > 0 {
      ReplayedIsLast(entries, n - 1, key);
      forall i | 0 <= i < n - 1 && entries[i].key == key && IsLast(entries, i, n)
        ensures key in Replayed(entries, n) && Replayed(entries, n)[key] == entries[i]
      {
        assert IsLast(entries, i, n - 1) && entries[n - 1].key != key;
      }
    }
  }

  // ---- The entries of all logs ----

  /** What the first `n` entries make of a key. */
  function LeftBy(m: Values, entries: seq<LogEntry>, n: nat, key: string): VersionedValue
    requires n <= |entries|
  {
    var state := Replayed(entries, n);
    if key in state then VersionedValue(state[key].value, state[key].expectedVersion + 1, true) else Lookup(m, key)
  }

  ghost predicate Leaves(m: Values, entries: seq<LogEntry>, n: nat, values: Values)
    requires n <= |entries|
  {
    forall key :: Lookup(values, key) == LeftBy(m, entries, n, key)
  }

  predicate IsDue(m: Values, entries: seq<LogEntry>, i: nat)
    requires i < |entries|
  {
    LeftBy(m, entries, i, entries[i].key).version == entries[i].expectedVersion
  }

  predicate IsThere(m: Values, entries: seq<LogEntry>, i: nat)
    requires i < |entries|
  {
    var now := LeftBy(m, entries, i, entries[i].key);
    now.present && now.value == entries[i].value && now.version == entries[i].expectedVersion + 1
  }

  /** Entry `i` finds its key at the version it expects, or holding its own write; any other write in its place
      is a conflict. */
  predicate Follows(m: Values, entries: seq<LogEntry>, i: nat)
    requires i < |entries|
  {
    IsDue(m, entries, i) || IsThere(m, entries, i)
  }

  function DueFrom(m: Values, entries: seq<LogEntry>, i: nat, k: nat): (n: nat)
    requires i <= k <= |entries|
    ensures n <= k - i
    decreases k - i
  {
    if i == k then 0 else (if IsDue(m, entries, i) then 1 else 0) + DueFrom(m, entries, i + 1, k)
  }

  lemma EntryFollows(m: Values, entries: seq<LogEntry>, i: nat, r: Recovery)
    requires i < |entries| && Leaves(m, entries, i, r.values) && Follows(m, entries, i)
    ensures var next := RecoverEntry(r, entries[i]);
      && Leaves(m, entries, i + 1, next.values)
      && next.result ==
           if IsDue(m, entries, i) then r.result.(applied := r.result.applied + 1)
           else r.result.(skippedEntries := r.result.skippedEntries + 1)
  {
    assert Lookup(r.values, entries[i].key) == LeftBy(m, entries, i, entries[i].key);
    forall key
      ensures Lookup(RecoverEntry(r, entries[i]).values, key) == LeftBy(m, entries, i + 1, key)
    {
      assert Lookup(r.values, key) == LeftBy(m, entries, i, key);
    }
  }

  /** The recovery stopped at entry `k`: all that it may have done to its key is to make it exist. */
  ghost predicate StopsAt(m: Values, entries: seq<LogEntry>, k: nat, values: Values)
    requires k < |entries|
  {
    forall key ::
      var left, now := LeftBy(m, entries, k, key), Lookup(values, key);
      && now.value == left.value && now.version == left.version
      && (key != entries[k].key || left.present ==> now == left)
  }

  lemma EntryConflicts(m: Values, entries: seq<LogEntry>, i: nat, r: Recovery)
    requires i < |entries| && Leaves(m, entries, i, r.values) && !Follows(m, entries, i)
    ensures var next := RecoverEntry(r, entries[i]);
      && StopsAt(m, entries, i, next.values)
      && next.result == r.result.(conflicts := r.result.conflicts + 1, success := false)
  {
    assert Lookup(r.values, entries[i].key) == LeftBy(m, entries, i, entries[i].key);
    forall key
      ensures var left, now := LeftBy(m, entries, i, key), Lookup(RecoverEntry(r, entries[i]).values, key);
        && now.value == left.value && now.version == left.version
        && (key != entries[i].key || left.present ==> now == left)
    {
      assert Lookup(r.values, key) == LeftBy(m, entries, i, key);
    }
  }

  /** Entry `k` is the first that does not follow, or there is none and `k` is the number of entries. */
  ghost predicate FirstConflict(m: Values, entries: seq<LogEntry>, k: nat) {
    && k <= |entries|
    && (forall i :: 0 <= i < k ==> Follows(m, entries, i))
    && (k < |entries| ==> !Follows(m, entries, k))
  }

  /** How a recovery ends that has come to entry `i`. */
  ghost predicate EndsAt(m: Values, entries: seq<LogEntry>, i: nat, k: nat, r: Recovery, end: Recovery)
    requires i <= k <= |entries|
  {
    var due := DueFrom(m, entries, i, k);
    && (if k == |entries| then Leaves(m, entries, k, end.values) else StopsAt(m, entries, k, end.values))
    && end.result == r.result.(
         applied := r.result.applied + due,
         skippedEntries := r.result.skippedEntries + k - i - due,
         conflicts := r.result.conflicts + (if k == |entries| then 0 else 1),
         success := k == |entries|)
  }

  lemma {:induction false} EntriesEnd(m: Values, entries: seq<LogEntry>, i: nat, k: nat, r: Recovery)
    requires FirstConflict(m, entries, k) && i <= k && Leaves(m, entries, i, r.values) && r.result.success
    ensures EndsAt(m, entries, i, k, r, RecoverEntries(r, entries, i))
    decreases k - i
  {
    if i < k {
      EntryFollows(m, entries, i, r);
      EntriesEnd(m, entries, i + 1, k, RecoverEntry(r, entries[i]));
    } else if k < |entries| {
      EntryConflicts(m, entries, k, r);
      var failed := RecoverEntry(r, entries[k]);
      assert RecoverEntries(failed, entries, k + 1) == failed;
    }
  }

  lemma {:induction false} ConflictOrNone(m: Values, entries: seq<LogEntry>, i: nat) returns (k: nat)
    requires i <= |entries| && forall j :: 0 <= j < i ==> Follows(m, entries, j)
    ensures FirstConflict(m, entries, k)
    decreases |entries| - i
  {
    if i < |entries| && Follows(m, entries, i) {
      k := ConflictOrNone(m, entries, i + 1);
    } else {
      k := i;
    }
  }

  // ---- The logs ----

  function SkippedFrom(logs: seq<Option<CommitLog>>, i: nat): nat
    requires i <= |logs|
    decreases |logs| - i
  {
    if i == |logs| then 0
    else (if logs[i].Some? && !logs[i].value.committed then 1 else 0) + SkippedFrom(logs, i + 1)
  }

  /** Log `p` is the first that cannot be parsed, or there is none and `p` is the number of logs. */
  ghost predicate FirstUnparsed(logs: seq<Option<CommitLog>>, p: nat) {
    p <= |logs| && AllParsed(logs[..p]) && (p < |logs| ==> logs[p].None?)
  }

  function Unparsed(r: Recovery): Recovery {
    r.(result := r.result.(parseFailures := r.result.parseFailures + 1, success := false))
  }

  lemma {:induction false} LogsUpTo(r: Recovery, logs: seq<Option<CommitLog>>, p: nat, i: nat)
    requires FirstUnparsed(logs, p) && i <= p
    ensures var read := RecoverLogs(r, logs[..p], i);
      RecoverLogs(r, logs, i) == if read.result.success && p < |logs| then Unparsed(read) else read
    decreases p - i
  {
    if r.result.success {
      if i < p {
        assert logs[..p][i] == logs[i] && logs[..p][i] in logs[..p];
        LogsUpTo(AfterLog(r, logs[i].value), logs, p, i + 1);
      } else if p < |logs| {
        assert RecoverLogs(Unparsed(r), logs, p + 1) == Unparsed(r);
      }
    }
  }

  lemma {:induction false} EntriesSkipNoLog(r: Recovery, entries: seq<LogEntry>, i: nat)
    requires i <= |entries|
    ensures RecoverEntries(r, entries, i).result.skippedLogs == r.result.skippedLogs
    decreases |entries| - i
  {
    if i < |entries| && r.result.success {
      EntriesSkipNoLog(RecoverEntry(r, entries[i]), entries, i + 1);
    }
  }

  lemma {:induction false} LogsSkipped(r: Recovery, logs: seq<Option<CommitLog>>, i: nat)
    requires AllParsed(logs) && i <= |logs| && RecoverLogs(r, logs, i).result.success
    ensures RecoverLogs(r, logs, i).result.skippedLogs == r.result.skippedLogs + SkippedFrom(logs, i)
    decreases |logs| - i
  {
    if i < |logs| {
      assert logs[i] in logs;
      var log := logs[i].value;
      if log.committed {
        EntriesSkipNoLog(r, log.entries, 0);
      }
      LogsSkipped(AfterLog(r, log), logs, i + 1);
    }
  }

  /** What recovery comes to, for any logs on any store. It goes through the entries of the committed logs, up
      to the first log that cannot be parsed, and stops at the first entry that does not follow. An entry that
      is due is put, any other before that is skipped; a log that is not committed only counts. The store ends
      as replay says. */
  lemma RecoveryEnds(m: Values, logs: seq<Option<CommitLog>>, p: nat, k: nat)
    requires FirstUnparsed(logs, p) && FirstConflict(m, CommittedEntries(logs[..p], 0), k)
    ensures var all, end := CommittedEntries(logs[..p], 0), RecoverLogs(Recovery(m, CLEAN), logs, 0);
      && end.result.success == (k == |all| && p == |logs|)
      && end.result.conflicts == (if k < |all| then 1 else 0)
      && end.result.parseFailures == (if k == |all| && p < |logs| then 1 else 0)
      && end.result.applied == DueFrom(m, all, 0, k)
      && end.result.skippedEntries == k - DueFrom(m, all, 0, k)
      && (k == |all| ==> end.result.skippedLogs == SkippedFrom(logs[..p], 0))
      && if k == |all| then Leaves(m, all, k, end.values) else StopsAt(m, all, k, end.values)
  {
    var start := Recovery(m, CLEAN);
    LogsUpTo(start, logs, p, 0);
    LogsAreEntries(start, logs[..p], 0);
    EntriesEnd(m, CommittedEntries(logs[..p], 0), 0, k, start);
    if k == |CommittedEntries(logs[..p], 0)| {
      LogsSkipped(start, logs[..p], 0);
    }
  }

  lemma {:induction false} UnparsedOrNone(logs: seq<Option<CommitLog>>, i: nat) returns (p: nat)
    requires i <= |logs| && AllParsed(logs[..i])
    ensures FirstUnparsed(logs, p)
    decreases |logs| - i
  {
    if i < |logs| && logs[i].Some? {
      assert logs[..i + 1] == logs[..i] + [logs[i]];
      p := UnparsedOrNone(logs, i + 1);
    } else {
      p := i;
    }
  }

  /** Recovery succeeds if and only if every log can be parsed and every entry of the committed ones follows.
      Then each key holds the last write committed to it, one version above the one it expects, and all other
      keys are as they were. Otherwise it fails with one conflict or one log that cannot be parsed. */
  lemma RecoverySucceedsExactly(m: Values, logs: seq<Option<CommitLog>>)
    ensures var all, end := CommittedEntries(logs, 0), RecoverLogs(Recovery(m, CLEAN), logs, 0);
      && (end.result.success <==> AllParsed(logs) && forall i :: 0 <= i < |all| ==> Follows(m, all, i))
      && (end.result.success ==>
            forall key :: Lookup(end.values, key) ==
              var state := Replayed(all, |all|);
              if key in state then VersionedValue(state[key].value, state[key].expectedVersion + 1, true)
              else Lookup(m, key))
      && end.result.conflicts + end.result.parseFailures == (if end.result.success then 0 else 1)
  {
    assert logs[..0] == [];
    var p := UnparsedOrNone(logs, 0);
    var k := ConflictOrNone(m, CommittedEntries(logs[..p], 0), 0);
    RecoveryEnds(m, logs, p, k);
    if p < |logs| {
      assert logs[p] in logs;
    } else {
      assert logs[..p] == logs;
    }
  }

  /** The key is in the store at the version expected, or holds this very write. */
  predicate Fits(m: Values, e: LogEntry) {
    || Lookup(m, e.key).version == e.expectedVersion
    || Lookup(m, e.key) == VersionedValue(e.value, e.expectedVersion + 1, true)
  }

  lemma OnceFollows(m: Values, entries: seq<LogEntry>, i: nat)
    requires OnceUpTo(entries, |entries|) && i < |entries|
    ensures Follows(m, entries, i) <==> Fits(m, entries[i])
  {
    ReplayedIsLast(entries, i, entries[i].key);
  }

  /** In particular, entries that name each key once are recovered if and only if each of them fits the store. */
  lemma OnceRecoversExactly(m: Values, logs: seq<Option<CommitLog>>)
    requires AllParsed(logs) && OnceUpTo(CommittedEntries(logs, 0), |CommittedEntries(logs, 0)|)
    ensures RecoverLogs(Recovery(m, CLEAN), logs, 0).result.success <==>
      forall e <- CommittedEntries(logs, 0) :: Fits(m, e)
  {
    var all := CommittedEntries(logs, 0);
    RecoverySucceedsExactly(m, logs);
    forall i | 0 <= i < |all|
      ensures all[i] in all && (Follows(m, all, i) <==> Fits(m, all[i]))
    {
      OnceFollows(m, all, i);
    }
  }
}
