/** The text of a commit log. */
module CommitLogText {
  import opened Wrappers
  import opened Decimal
  import opened KvStore
  import opened TextCodec
  import opened LogText
  import opened RowText
  import AgentTxn
  import CommitLogRecovery

  const FORMAT := Format("DAS_COMMIT_LOG_V1", "[entries]")

  function StatusName(status: AgentTxn.TxnStatus): string {
    match status
    case Running => "RUNNING"
    case Committed => "COMMITTED"
    case Aborted => "ABORTED"
  }

  /** The metrics of a transaction; `latency` is a floating-point number as a stream prints it. */
  datatype Metrics = Metrics(
    branches: nat, plannedLosers: nat, winnerCommits: nat, realAborts: nat, conflictAborts: nat, validationFails: nat,
    retries: nat, latency: string)

  /** Every printed floating-point number looks like this, infinities and NaN included. */
  predicate NumberText(s: string) {
    forall c <- s :: IsDigit(c) || c in ['+', '-', '.', 'e', 'i', 'n', 'f', 'a']
  }

  function MetricFields(m: Metrics): seq<Field> {
    [Field("branch_count", NatText(m.branches)), Field("planned_loser_count", NatText(m.plannedLosers)),
     Field("winner_commit_count", NatText(m.winnerCommits)), Field("real_abort_count", NatText(m.realAborts)),
     Field("conflict_abort_count", NatText(m.conflictAborts)),
     Field("validation_fail_count", NatText(m.validationFails)), Field("retry_count", NatText(m.retries)),
     Field("commit_latency_us", m.latency)]
  }

  /** What a log says besides its entries. */
  datatype Summary = Summary(
    txnId: string, taskId: string, status: AgentTxn.TxnStatus, winnerBranchId: string, success: bool, reason: string,
    metrics: Metrics)

  /** The summary, already as text. */
  datatype Texts = Texts(
    txnId: string, taskId: string, status: string, winnerBranchId: string, success: string, reason: string,
    counters: seq<Field>, size: string)
  {
    function Named(): seq<Field> {
      [Field("txn_id", txnId), Field("task_id", taskId), Field("status", status),
       Field("winner_branch_id", winnerBranchId), Field("validation_success", success),
       Field("validation_reason", reason)]
    }

    function Fields(): seq<Field> {
      Named() + counters + [Field("entry_count", size)]
    }
  }

  function TextsOf(s: Summary, size: nat): Texts {
    Texts(Escape(s.txnId), Escape(s.taskId), StatusName(s.status), Escape(s.winnerBranchId),
          if s.success then "1" else "0", Escape(s.reason), MetricFields(s.metrics), NatText(size))
  }

  function EntryRow(e: AgentTxn.CommitLogEntry): Row {
    Row(e.key, e.expectedVersion, e.value)
  }

  function EntryRows(entries: seq<AgentTxn.CommitLogEntry>): seq<Row> {
    seq(|entries|, i requires 0 <= i < |entries| => EntryRow(entries[i]))
  }

  function EntriesOf(rows: seq<Row>): seq<AgentTxn.CommitLogEntry> {
    seq(|rows|, i requires 0 <= i < |rows| => AgentTxn.CommitLogEntry(rows[i].key, rows[i].value, rows[i].version))
  }

  function PrintCommitLog(s: Summary, entries: seq<AgentTxn.CommitLogEntry>): string {
    PrintLog(FORMAT, TextsOf(s, |entries|).Fields(), RowLines(EntryRows(entries)))
  }

  /** A log counts as committed when its last status line says so. */
  function ParseCommitLog(text: string): Option<CommitLogRecovery.CommitLog> {
    match ParseLog(FORMAT, text)
    case None => None
    case Some(log) =>
      match ParseRows(log.rows)
      case None => None
      case Some(rows) =>
        var committed := "status" in log.metadata && Unescape(log.metadata["status"]) == "COMMITTED";
        Some(CommitLogRecovery.CommitLog(committed, EntriesOf(rows)))
  }

  method ReadCommitLog(text: string) returns (parsed: Option<CommitLogRecovery.CommitLog>)
    ensures parsed == ParseCommitLog(text)
  {
    var log := ReadLog(FORMAT, Lines(text));
    if log.None? {
      return None;
    }
    var lines, rows := log.value.rows, [];
    ghost var parses := seq(|lines|, i requires 0 <= i < |lines| => ParseRow(lines[i]));
    for i := 0 to |lines|
      invariant AllParsed(parses, i, rows) == AllParsed(parses, 0, [])
    {
      var row := ParseRow(lines[i]);
      if row.None? {
        return None;
      }
      rows := rows + [row.value];
    }
    var committed := false;
    if "status" in log.value.metadata {
      var status := UnescapeText(log.value.metadata["status"]);
      committed := status == "COMMITTED";
    }
    parsed := Some(CommitLogRecovery.CommitLog(committed, EntriesOf(rows)));
  }

  /** A parsed log counts as committed if and only if a line before the first marker gives a status, and the last one
      that does says COMMITTED. */
  lemma CommittedExactly(text: string, k: nat)
    requires Lines(text) != [] && FirstMarker(FORMAT, Lines(text), 1, k) && ParseCommitLog(text).Some?
    ensures var lines := Lines(text);
      ParseCommitLog(text).value.committed <==>
        exists j ::
          && 1 <= j < k && LastGiven(lines, 1, j, k, "status")
          && Unescape(lines[j][|"status"| + 1..]) == "COMMITTED"
  {
    var lines, metadata := Lines(text), ParseLog(FORMAT, text).value.metadata;
    ValuesExactly(FORMAT, text, k, "status");
    forall j | 1 <= j < k && LastGiven(lines, 1, j, k, "status")
      ensures "status" in metadata && metadata["status"] == lines[j][|"status"| + 1..]
    {
      GivenIs(lines, 1, k, metadata, "status", j);
    }
    if "status" in metadata {
      var j :| 1 <= j < k && LastGiven(lines, 1, j, k, "status") && metadata["status"] == lines[j][|"status"| + 1..];
    }
  }

  /** The fields can be printed and none of them is called `status`. */
  predicate PlainCounters(counters: seq<Field>) {
    forall f <- counters :: Printable(FORMAT, f) && f.key != "status"
  }

  lemma StatusNameIsPlain(status: AgentTxn.TxnStatus)
    ensures Plain(StatusName(status)) && '\\' !in StatusName(status)
    ensures StatusName(status) == "COMMITTED" <==> status == AgentTxn.TxnStatus.Committed
  {
    assert "COMMITTED"[0] == 'C' && "RUNNING"[0] == 'R' && "ABORTED"[0] == 'A';
  }

  predicate AllPlain(t: Texts) {
    && Plain(t.txnId) && Plain(t.taskId) && Plain(t.status) && Plain(t.winnerBranchId) && Plain(t.success)
    && Plain(t.reason) && Plain(t.size) && PlainCounters(t.counters)
  }

  lemma NamesAreWords()
    ensures IsWord("txn_id") && IsWord("task_id") && IsWord("status") && IsWord("winner_branch_id")
    ensures IsWord("validation_success") && IsWord("validation_reason") && IsWord("entry_count")
  {
  }

  lemma NamedPrintable(t: Texts)
    requires AllPlain(t)
    ensures forall f <- t.Named() :: Printable(FORMAT, f)
    ensures Printable(FORMAT, Field("entry_count", t.size))
  {
    NamesAreWords();
    KeyedFieldPrintable(FORMAT, Field("txn_id", t.txnId));
    KeyedFieldPrintable(FORMAT, Field("task_id", t.taskId));
    KeyedFieldPrintable(FORMAT, Field("status", t.status));
    KeyedFieldPrintable(FORMAT, Field("winner_branch_id", t.winnerBranchId));
    KeyedFieldPrintable(FORMAT, Field("validation_success", t.success));
    KeyedFieldPrintable(FORMAT, Field("validation_reason", t.reason));
    KeyedFieldPrintable(FORMAT, Field("entry_count", t.size));
  }

  lemma TextsPrintable(t: Texts)
    requires AllPlain(t)
    ensures forall f <- t.Fields() :: Printable(FORMAT, f)
  {
    NamedPrintable(t);
    forall f <- t.Fields()
      ensures f in t.Named() || f in t.counters || f == Field("entry_count", t.size)
    {
    }
  }

  lemma CountKeysAreWords()
    ensures IsWord("branch_count") && IsWord("planned_loser_count") && IsWord("winner_commit_count")
    ensures IsWord("real_abort_count") && IsWord("retry_count")
  {
  }

  lemma FailureKeysAreWords()
    ensures IsWord("conflict_abort_count") && IsWord("validation_fail_count") && IsWord("commit_latency_us")
  {
  }

  lemma CountPrintable(key: string, n: nat)
    requires IsWord(key)
    ensures Printable(FORMAT, Field(key, NatText(n)))
  {
    DigitsArePlain(n);
    KeyedFieldPrintable(FORMAT, Field(key, NatText(n)));
  }

  lemma MetricsPrintable(m: Metrics)
    requires NumberText(m.latency)
    ensures forall f <- MetricFields(m) :: Printable(FORMAT, f)
  {
    CountKeysAreWords();
    FailureKeysAreWords();
    CountPrintable("branch_count", m.branches);
    CountPrintable("planned_loser_count", m.plannedLosers);
    CountPrintable("winner_commit_count", m.winnerCommits);
    CountPrintable("real_abort_count", m.realAborts);
    CountPrintable("conflict_abort_count", m.conflictAborts);
    CountPrintable("validation_fail_count", m.validationFails);
    CountPrintable("retry_count", m.retries);
    KeyedFieldPrintable(FORMAT, Field("commit_latency_us", m.latency));
  }

  /** No metric is called `status`. */
  lemma MetricsAreNoStatus(m: Metrics)
    ensures forall f <- MetricFields(m) :: f.key != "status"
  {
    assert |"status"| == 6 && |"branch_count"| == 12 && |"planned_loser_count"| == 19 && |"winner_commit_count"| == 19;
    assert |"real_abort_count"| == 16 && |"conflict_abort_count"| == 20 && |"validation_fail_count"| == 21;
    assert |"retry_count"| == 11 && |"commit_latency_us"| == 17;
  }

  lemma TextsOfArePlain(s: Summary, size: nat)
    requires NumberText(s.metrics.latency)
    ensures AllPlain(TextsOf(s, size))
  {
    MetricsPrintable(s.metrics);
    MetricsAreNoStatus(s.metrics);
    EscapedIsPlain(s.txnId);
    EscapedIsPlain(s.taskId);
    EscapedIsPlain(s.winnerBranchId);
    EscapedIsPlain(s.reason);
    StatusNameIsPlain(s.status);
    assert AllDigits(NatText(size));
  }

  lemma StatusKept(t: Texts)
    requires PlainCounters(t.counters)
    ensures var kept := Collected(t.Fields(), |t.Fields()|);
      "status" in kept && kept["status"] == t.status
  {
    var fields := t.Fields();
    assert |"status"| == 6 && |"winner_branch_id"| == 16 && |"validation_success"| == 18;
    assert |"validation_reason"| == 17 && |"entry_count"| == 11;
    forall j | 2 < j < |fields|
      ensures fields[j].key != "status"
    {
      if 6 <= j < |fields| - 1 {
        assert fields[j] == t.counters[j - 6] && t.counters[j - 6] in t.counters;
      }
    }
    CollectedHas(fields, |fields|, 2);
  }

  lemma TextsParse(t: Texts, lines: seq<string>)
    requires AllPlain(t) && forall line <- lines :: PrintableRow(FORMAT, line)
    ensures var log := ParseLog(FORMAT, PrintLog(FORMAT, t.Fields(), lines));
      log.Some? && log.value.rows == lines && "status" in log.value.metadata && log.value.metadata["status"] == t.status
  {
    TextsPrintable(t);
    FieldsParse(t.Fields(), lines);
    StatusKept(t);
  }

  lemma FormatIsPlain()
    ensures '\n' !in FORMAT.header && '\n' !in FORMAT.marker
  {
  }

  lemma FieldsParse(fields: seq<Field>, lines: seq<string>)
    requires (forall f <- fields :: Printable(FORMAT, f)) && forall line <- lines :: PrintableRow(FORMAT, line)
    ensures ParseLog(FORMAT, PrintLog(FORMAT, fields, lines)) == Some(Log(Collected(fields, |fields|), lines))
  {
    FormatIsPlain();
    ParsePrinted(FORMAT, fields, lines);
  }

  lemma EntriesAreRows(entries: seq<AgentTxn.CommitLogEntry>)
    requires forall e <- entries :: e.expectedVersion <= UINT64_MAX
    ensures Fit(EntryRows(entries)) && EntriesOf(EntryRows(entries)) == entries
    ensures NoEmptyValue(EntryRows(entries)) <==> !exists e <- entries :: e.value == ""
  {
    var rows := EntryRows(entries);
    assert forall i :: 0 <= i < |entries| ==>
      rows[i] in rows && entries[i] in entries && rows[i] == EntryRow(entries[i]);
    assert EntriesOf(rows) == entries;
  }

  /** Parsing a printed commit log gives back its verdict and its entries, exactly when no entry has an
      empty value; a log with an empty value cannot be read. */
  lemma CommitLogRoundTrip(s: Summary, entries: seq<AgentTxn.CommitLogEntry>)
    requires NumberText(s.metrics.latency) && forall e <- entries :: e.expectedVersion <= UINT64_MAX
    ensures ParseCommitLog(PrintCommitLog(s, entries)) ==
      if exists e <- entries :: e.value == "" then None
      else Some(CommitLogRecovery.CommitLog(s.status == AgentTxn.TxnStatus.Committed, entries))
  {
    EntriesAreRows(entries);
    RowsRoundTrip(EntryRows(entries), FORMAT);
    TextsOfArePlain(s, |entries|);
    TextsParse(TextsOf(s, |entries|), RowLines(EntryRows(entries)));
    StatusNameIsPlain(s.status);
    PlainDecodes(StatusName(s.status));
  }

  // ---- Recovery from the printed logs ----

  /** What an attempt writes to its log file. */
  datatype LogFile = LogFile(summary: Summary, entries: seq<AgentTxn.CommitLogEntry>) {
    function Text(): string {
      PrintCommitLog(summary, entries)
    }

    function Log(): CommitLogRecovery.CommitLog {
      CommitLogRecovery.CommitLog(summary.status == AgentTxn.TxnStatus.Committed, entries)
    }

    predicate HoldsEmptyValue() {
      exists e <- entries :: e.value == ""
    }

    predicate Printable() {
      NumberText(summary.metrics.latency) && forall e <- entries :: e.expectedVersion <= UINT64_MAX
    }
  }

  function ParsedLogs(files: seq<LogFile>): seq<Option<CommitLogRecovery.CommitLog>> {
    seq(|files|, i requires 0 <= i < |files| => ParseCommitLog(files[i].Text()))
  }

  ghost predicate FileLoggedAt(m: Values, batches: seq<CommitLogRecovery.Batch>, files: seq<LogFile>, i: nat)
    requires i < |batches| == |files|
  {
    files[i].Printable()
      && CommitLogRecovery.LoggedAs(CommitLogRecovery.Executed(m, batches, i), batches[i], files[i].Log())
  }

  lemma FilesParse(m: Values, batches: seq<CommitLogRecovery.Batch>, files: seq<LogFile>)
    requires |files| == |batches| && forall i :: 0 <= i < |files| ==> FileLoggedAt(m, batches, files, i)
    ensures Parses(files, ParsedLogs(files))
  {
    forall i | 0 <= i < |files|
      ensures ParsesAt(files, ParsedLogs(files), i)
    {
      assert FileLoggedAt(m, batches, files, i);
      CommitLogRoundTrip(files[i].summary, files[i].entries);
    }
  }

  /** `logs` are the files without empty values, and `None` for each of the others. */
  ghost predicate Parses(files: seq<LogFile>, logs: seq<Option<CommitLogRecovery.CommitLog>>) {
    |logs| == |files| && forall i :: 0 <= i < |files| ==> ParsesAt(files, logs, i)
  }

  ghost predicate ParsesAt(files: seq<LogFile>, logs: seq<Option<CommitLogRecovery.CommitLog>>, i: nat)
    requires i < |files| == |logs|
  {
    logs[i] == if files[i].HoldsEmptyValue() then None else Some(files[i].Log())
  }

  lemma AllParseExactly(files: seq<LogFile>, logs: seq<Option<CommitLogRecovery.CommitLog>>)
    requires Parses(files, logs)
    ensures CommitLogRecovery.ParsedFrom(logs, 0) <==> forall f <- files :: !f.HoldsEmptyValue()
  {
    forall f | f in files && f.HoldsEmptyValue()
      ensures !CommitLogRecovery.ParsedFrom(logs, 0)
    {
      var i :| 0 <= i < |files| && files[i] == f;
      assert ParsesAt(files, logs, i) && logs[i].None?;
    }
    forall i | 0 <= i < |files| && logs[i].None?
      ensures files[i] in files && files[i].HoldsEmptyValue()
    {
      assert ParsesAt(files, logs, i);
    }
  }

  /** From the files: run any attempts, print their logs, parse them and recover. Recovery succeeds if and
      only if no log, committed or not, holds an empty value, and then it ends with exactly the store of
      the execution. */
  lemma PrintedLogsRecover(m: Values, batches: seq<CommitLogRecovery.Batch>, files: seq<LogFile>)
    requires |files| == |batches| && forall b <- batches :: CommitLogRecovery.Plausible(b)
    requires forall i :: 0 <= i < |files| ==> FileLoggedAt(m, batches, files, i)
    ensures var end := CommitLogRecovery.RecoverLogs(
        CommitLogRecovery.Recovery(m, CommitLogRecovery.CLEAN), ParsedLogs(files), 0);
      && (end.result.success <==> forall f <- files :: !f.HoldsEmptyValue())
      && (end.result.success ==> end.values == CommitLogRecovery.Executed(m, batches, |batches|))
  {
    FilesParse(m, batches, files);
    AllParseExactly(files, ParsedLogs(files));
    ParsedLogsRecover(m, batches, files, ParsedLogs(files));
  }

  lemma ParsedLogsRecover(
      m: Values, batches: seq<CommitLogRecovery.Batch>, files: seq<LogFile>,
      logs: seq<Option<CommitLogRecovery.CommitLog>>)
    requires |files| == |batches| && Parses(files, logs) && forall b <- batches :: CommitLogRecovery.Plausible(b)
    requires forall i :: 0 <= i < |files| ==> FileLoggedAt(m, batches, files, i)
    ensures var end := CommitLogRecovery.RecoverLogs(CommitLogRecovery.Recovery(m, CommitLogRecovery.CLEAN), logs, 0);
      && (end.result.success <==> CommitLogRecovery.ParsedFrom(logs, 0))
      && (end.result.success ==> end.values == CommitLogRecovery.Executed(m, batches, |batches|))
  {
    forall i | 0 <= i < |files|
      ensures CommitLogRecovery.LoggedAt(m, batches, logs, i)
    {
      assert FileLoggedAt(m, batches, files, i) && ParsesAt(files, logs, i);
    }
    CommitLogRecovery.LogReplayEqualsExecution(
      m, batches, logs, 0, CommitLogRecovery.Recovery(m, CommitLogRecovery.CLEAN));
  }
}
