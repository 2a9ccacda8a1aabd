/** The text of a fallback commit artifact. */
module FallbackLogText {
  import opened Wrappers
  import opened Decimal
  import opened TextCodec
  import opened LogText
  import opened FallbackLog

  const FORMAT := Format("DAS_FALLBACK_COMMIT_V1", "[entries]")

  function PhaseName(phase: Phase): string {
    match phase
    case Prepared => "PREPARED"
    case Applying => "APPLYING"
    case RollingBack => "ROLLING_BACK"
    case Committed => "COMMITTED"
    case RolledBack => "ROLLED_BACK"
  }

  function PhaseFromName(name: string): Phase {
    if name == "PREPARED" then Prepared
    else if name == "APPLYING" then Applying
    else if name == "ROLLING_BACK" then RollingBack
    else if name == "COMMITTED" then Committed
    else if name == "ROLLED_BACK" then RolledBack
    else Prepared
  }

  /** Each name stands for its phase, and any other name for PREPARED. */
  lemma PhaseNamesExactly(name: string, phase: Phase)
    ensures PhaseFromName(name) == phase <==>
      name == PhaseName(phase) || (phase.Prepared? && forall p: Phase :: name != PhaseName(p))
  {
    PhaseNamesDiffer();
    assert PhaseName(PhaseFromName(name)) == name || PhaseFromName(name) == Prepared;
  }

  lemma PhaseNamesDiffer()
    ensures forall p: Phase, q: Phase :: PhaseName(p) == PhaseName(q) ==> p == q
  {
    assert |PhaseName(Prepared)| == |PhaseName(Applying)| == 8 && PhaseName(Prepared)[0] != PhaseName(Applying)[0];
    assert |PhaseName(RollingBack)| == 12 && |PhaseName(Committed)| == 9 && |PhaseName(RolledBack)| == 11;
  }

  // ---- Printing ----

  function EntryFields(e: CommitEntry): seq<string> {
    [Escape(e.key), NatText(e.expectedVersion), Escape(e.targetValue), Escape(e.previousValue),
     NatText(e.previousVersion), if e.previousExists then "1" else "0"]
  }

  function EntryRow(e: CommitEntry): string {
    Joined(EntryFields(e))
  }

  /** The metadata of an artifact, already as text. */
  datatype Texts = Texts(txnId: string, taskId: string, phase: string, appliedCount: string, entryCount: string) {
    function Fields(): seq<Field> {
      [Field("txn_id", txnId), Field("task_id", taskId), Field("phase", phase),
       Field("applied_count", appliedCount), Field("entry_count", entryCount)]
    }
  }

  function TextsOf(a: Artifact): Texts {
    Texts(Escape(a.txnId), Escape(a.taskId), PhaseName(a.phase), NatText(a.appliedCount), NatText(|a.entries|))
  }

  function EntryRows(entries: seq<CommitEntry>): seq<string> {
    seq(|entries|, i requires 0 <= i < |entries| => EntryRow(entries[i]))
  }

  function PrintArtifact(a: Artifact): string {
    PrintLog(FORMAT, TextsOf(a).Fields(), EntryRows(a.entries))
  }

  // ---- Parsing ----

  function EntryOf(f: seq<string>): CommitEntry
    requires |f| == 6
  {
    CommitEntry(Unescape(f[0]), ToUInt64(f[1]), Unescape(f[2]), Unescape(f[3]), ToUInt64(f[4]), f[5] == "1")
  }

  function ParseEntry(row: string): Option<CommitEntry> {
    match StreamFields(row, 6)
    case None => None
    case Some(f) => Some(EntryOf(f))
  }

  function ParseEntries(rows: seq<string>): Option<seq<CommitEntry>> {
    AllParsed(seq(|rows|, i requires 0 <= i < |rows| => ParseEntry(rows[i])), 0, [])
  }

  /** A count beyond the entries is refused. */
  function Decoded(metadata: map<string, string>, entries: seq<CommitEntry>): Option<Artifact> {
    var count := ToUInt64(ValueOf(metadata, "applied_count"));
    if count > |entries| then None
    else
      Some(Artifact(Unescape(ValueOf(metadata, "txn_id")), Unescape(ValueOf(metadata, "task_id")),
                    PhaseFromName(ValueOf(metadata, "phase")), count, entries))
  }

  function ParseArtifact(text: string): Option<Artifact> {
    match ParseLog(FORMAT, text)
    case None => None
    case Some(log) =>
      match ParseEntries(log.rows)
      case None => None
      case Some(entries) => Decoded(log.metadata, entries)
  }

  method ReadArtifact(text: string) returns (parsed: Option<Artifact>)
    ensures parsed == ParseArtifact(text)
  {
    var log := ReadLog(FORMAT, Lines(text));
    if log.None? {
      return None;
    }
    var rows, entries := log.value.rows, [];
    ghost var parses := seq(|rows|, i requires 0 <= i < |rows| => ParseEntry(rows[i]));
    for i := 0 to |rows|
      invariant AllParsed(parses, i, entries) == AllParsed(parses, 0, [])
    {
      var e := ParseEntry(rows[i]);
      if e.None? {
        return None;
      }
      entries := entries + [e.value];
    }
    var count := ToUInt64(ValueOf(log.value.metadata, "applied_count"));
    if count > |entries| {
      return None;
    }
    var txnId := UnescapeText(ValueOf(log.value.metadata, "txn_id"));
    var taskId := UnescapeText(ValueOf(log.value.metadata, "task_id"));
    parsed := Some(Artifact(txnId, taskId, PhaseFromName(ValueOf(log.value.metadata, "phase")), count, entries));
  }

  // ---- The round trip ----

  /** All numbers fit 64 bits, as the types of the original ensure. */
  predicate Fits(a: Artifact) {
    && a.appliedCount <= UINT64_MAX && |a.entries| <= UINT64_MAX
    && forall e <- a.entries :: e.expectedVersion <= UINT64_MAX && e.previousVersion <= UINT64_MAX
  }

  lemma FieldsArePlain(e: CommitEntry)
    ensures forall field <- EntryFields(e) :: Plain(field)
  {
    EscapedIsPlain(e.key);
    EscapedIsPlain(e.targetValue);
    EscapedIsPlain(e.previousValue);
    DigitsArePlain(e.expectedVersion);
    DigitsArePlain(e.previousVersion);
  }

  lemma FieldsDecode(e: CommitEntry)
    requires e.expectedVersion <= UINT64_MAX && e.previousVersion <= UINT64_MAX
    ensures EntryOf(EntryFields(e)) == e
  {
    UnescapeInvertsEscape(e.key);
    UnescapeInvertsEscape(e.targetValue);
    UnescapeInvertsEscape(e.previousValue);
    ToUInt64OfNatText(e.expectedVersion);
    ToUInt64OfNatText(e.previousVersion);
  }

  lemma EntryRowSplits(e: CommitEntry)
    ensures StreamFields(EntryRow(e), |EntryFields(e)|) == Some(EntryFields(e))
    ensures PrintableRow(FORMAT, EntryRow(e))
  {
    FieldsArePlain(e);
    RowPrintable(FORMAT, EntryFields(e));
    StreamFieldsOfJoined(EntryFields(e));
  }

  /** Any text in the entry survives: empty values, tabs, line breaks, backslashes. */
  lemma EntryRoundTrip(e: CommitEntry)
    requires e.expectedVersion <= UINT64_MAX && e.previousVersion <= UINT64_MAX
    ensures ParseEntry(EntryRow(e)) == Some(e)
  {
    EntryRowSplits(e);
    FieldsDecode(e);
  }

  lemma EntriesRoundTrip(entries: seq<CommitEntry>)
    requires forall e <- entries :: e.expectedVersion <= UINT64_MAX && e.previousVersion <= UINT64_MAX
    ensures ParseEntries(EntryRows(entries)) == Some(entries)
    ensures forall row <- EntryRows(entries) :: PrintableRow(FORMAT, row)
  {
    var rows := EntryRows(entries);
    var parses := seq(|rows|, i requires 0 <= i < |rows| => ParseEntry(rows[i]));
    forall j | 0 <= j < |rows|
      ensures parses[j] == Some(entries[j]) && PrintableRow(FORMAT, rows[j])
    {
      assert entries[j] in entries;
      EntryRowSplits(entries[j]);
      EntryRoundTrip(entries[j]);
    }
    AllParse(parses, entries, 0);
  }

  lemma PhaseRoundTrip(phase: Phase)
    ensures PhaseFromName(PhaseName(phase)) == phase && Plain(PhaseName(phase))
  {
  }

  lemma NamesAreWords()
    ensures IsWord("txn_id") && IsWord("task_id") && IsWord("phase") && IsWord("applied_count") && IsWord("entry_count")
  {
  }

  lemma TextsPrintable(t: Texts)
    requires Plain(t.txnId) && Plain(t.taskId) && Plain(t.phase) && Plain(t.appliedCount) && Plain(t.entryCount)
    ensures forall f <- t.Fields() :: Printable(FORMAT, f)
  {
    NamesAreWords();
    KeyedFieldPrintable(FORMAT, t.Fields()[0]);
    KeyedFieldPrintable(FORMAT, t.Fields()[1]);
    KeyedFieldPrintable(FORMAT, t.Fields()[2]);
    KeyedFieldPrintable(FORMAT, t.Fields()[3]);
    KeyedFieldPrintable(FORMAT, t.Fields()[4]);
  }

  lemma TextsOfArePlain(a: Artifact)
    ensures var t := TextsOf(a);
      Plain(t.txnId) && Plain(t.taskId) && Plain(t.phase) && Plain(t.appliedCount) && Plain(t.entryCount)
  {
    EscapedIsPlain(a.txnId);
    EscapedIsPlain(a.taskId);
    DigitsArePlain(a.appliedCount);
    DigitsArePlain(|a.entries|);
    PhaseRoundTrip(a.phase);
  }

  /** The five keys differ, so each field is found under its own. */
  lemma FieldKept(t: Texts, i: nat)
    requires i < 5
    ensures ValueOf(Collected(t.Fields(), 5), t.Fields()[i].key) == t.Fields()[i].value
  {
    assert |"txn_id"| == 6 && |"task_id"| == 7 && |"phase"| == 5 && |"applied_count"| == 13 && |"entry_count"| == 11;
    CollectedHas(t.Fields(), 5, i);
  }

  lemma DecodedTexts(t: Texts, a: Artifact)
    requires Unescape(t.txnId) == a.txnId && Unescape(t.taskId) == a.taskId && PhaseFromName(t.phase) == a.phase
    requires ToUInt64(t.appliedCount) == a.appliedCount
    ensures Decoded(Collected(t.Fields(), 5), a.entries) == if a.appliedCount <= |a.entries| then Some(a) else None
  {
    FieldKept(t, 0);
    FieldKept(t, 1);
    FieldKept(t, 2);
    FieldKept(t, 3);
  }

  lemma TextsOfDecode(a: Artifact)
    requires Fits(a)
    ensures Decoded(Collected(TextsOf(a).Fields(), 5), a.entries)
         == if a.appliedCount <= |a.entries| then Some(a) else None
  {
    PhaseRoundTrip(a.phase);
    UnescapeInvertsEscape(a.txnId);
    UnescapeInvertsEscape(a.taskId);
    ToUInt64OfNatText(a.appliedCount);
    DecodedTexts(TextsOf(a), a);
  }

  lemma TextsParse(t: Texts, rows: seq<string>)
    requires Plain(t.txnId) && Plain(t.taskId) && Plain(t.phase) && Plain(t.appliedCount) && Plain(t.entryCount)
    requires forall row <- rows :: PrintableRow(FORMAT, row)
    ensures ParseLog(FORMAT, PrintLog(FORMAT, t.Fields(), rows)) == Some(Log(Collected(t.Fields(), 5), rows))
  {
    TextsPrintable(t);
    ParsePrinted(FORMAT, t.Fields(), rows);
  }

  lemma TextsOfParse(a: Artifact)
    requires Fits(a)
    ensures ParseLog(FORMAT, PrintArtifact(a)) == Some(Log(Collected(TextsOf(a).Fields(), 5), EntryRows(a.entries)))
  {
    TextsOfArePlain(a);
    EntriesRoundTrip(a.entries);
    TextsParse(TextsOf(a), EntryRows(a.entries));
  }

  lemma LogDecodes(text: string, log: Log, entries: seq<CommitEntry>, result: Option<Artifact>)
    requires ParseLog(FORMAT, text) == Some(log) && ParseEntries(log.rows) == Some(entries)
    requires Decoded(log.metadata, entries) == result
    ensures ParseArtifact(text) == result
  {
  }

  /** Parsing a printed artifact returns it unchanged, whatever text it holds, exactly when its count does
      not exceed its entries; otherwise the parser refuses it. */
  lemma ArtifactRoundTrip(a: Artifact)
    requires Fits(a)
    ensures ParseArtifact(PrintArtifact(a)) == if a.appliedCount <= |a.entries| then Some(a) else None
  {
    TextsOfParse(a);
    TextsOfDecode(a);
    EntriesRoundTrip(a.entries);
    LogDecodes(PrintArtifact(a), Log(Collected(TextsOf(a).Fields(), 5), EntryRows(a.entries)), a.entries,
               if a.appliedCount <= |a.entries| then Some(a) else None);
  }
}
