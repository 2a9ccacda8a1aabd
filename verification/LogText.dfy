/** The common shape of the log files: a header line, `key=value` lines, a marker line, then rows. */
module LogText {
  import opened Wrappers
  import opened Decimal
  import opened TextCodec

  datatype Format = Format(header: string, marker: string)

  /** A parsed log before its values and rows are decoded: the last value of every key, and the rows. */
  datatype Log = Log(metadata: map<string, string>, rows: seq<string>)

  datatype Field = Field(key: string, value: string)

  // ---- Printing ----

  function FieldLine(f: Field): string {
    f.key + "=" + f.value
  }

  function LogLines(format: Format, fields: seq<Field>, rows: seq<string>): seq<string> {
    [format.header] + seq(|fields|, i requires 0 <= i < |fields| => FieldLine(fields[i])) + [format.marker] + rows
  }

  function PrintLog(format: Format, fields: seq<Field>, rows: seq<string>): string {
    Printed(LogLines(format, fields, rows))
  }

  // ---- Parsing ----

  /** One line: the marker opens the rows, empty lines are ignored, and before the marker a line must hold
      an equals sign. */
  function ParseLine(format: Format, log: Log, inRows: bool, line: string): Option<(Log, bool)> {
    if line == format.marker then Some((log, true))
    else if line == "" then Some((log, inRows))
    else if inRows then Some((log.(rows := log.rows + [line]), true))
    else
      var i := Find(line, '=');
      if i == |line| then None
      else Some((log.(metadata := log.metadata[line[..i] := line[i + 1..]]), false))
  }

  function ParseLines(format: Format, log: Log, inRows: bool, lines: seq<string>, i: nat): Option<Log>
    requires i <= |lines|
    decreases |lines| - i
  {
    if i == |lines| then Some(log)
    else
      match ParseLine(format, log, inRows, lines[i])
      case None => None
      case Some((next, nextInRows)) => ParseLines(format, next, nextInRows, lines, i + 1)
  }

  function ParseLog(format: Format, text: string): Option<Log> {
    var lines := Lines(text);
    if lines == [] || lines[0] != format.header then None
    else ParseLines(format, Log(map[], []), false, lines, 1)
  }

  /** The parsing loop over the lines of a file. */
  method ReadLog(format: Format, lines: seq<string>) returns (parsed: Option<Log>)
    ensures parsed == if lines == [] || lines[0] != format.header then None
                      else ParseLines(format, Log(map[], []), false, lines, 1)
  {
    if lines == [] || lines[0] != format.header {
      return None;
    }
    var log, inRows := Log(map[], []), false;
    for i := 1 to |lines|
      invariant ParseLines(format, log, inRows, lines, i) == ParseLines(format, Log(map[], []), false, lines, 1)
    {
      var line := lines[i];
      if line == format.marker {
        inRows := true;
        continue;
      }
      if line == "" {
        continue;
      }
      if inRows {
        log := log.(rows := log.rows + [line]);
        continue;
      }
      var delimiter := Find(line, '=');
      if delimiter == |line| {
        return None;
      }
      log := log.(metadata := log.metadata[line[..delimiter] := line[delimiter + 1..]]);
    }
    parsed := Some(log);
  }

  function ValueOf(metadata: map<string, string>, key: string): string {
    if key in metadata then metadata[key] else ""
  }

  // ---- Any text ----

  /** Line `k` is the first marker from `i` on, or there is none and `k` is the number of lines. */
  predicate FirstMarker(format: Format, lines: seq<string>, i: nat, k: nat) {
    && i <= k <= |lines|
    && (forall j :: i <= j < k ==> lines[j] != format.marker)
    && (k < |lines| ==> lines[k] == format.marker)
  }

  /** The lines that are neither empty nor a marker. */
  function RowsIn(format: Format, lines: seq<string>): seq<string>
    decreases lines
  {
    if lines == [] then []
    else (if lines[0] != "" && lines[0] != format.marker then [lines[0]] else []) + RowsIn(format, lines[1..])
  }

  lemma {:induction false} RowsAfterMarker(format: Format, log: Log, lines: seq<string>, i: nat)
    requires i <= |lines|
    ensures ParseLines(format, log, true, lines, i)
      == Some(log.(rows := log.rows + RowsIn(format, lines[i..])))
    decreases |lines| - i
  {
    if i < |lines| {
      assert lines[i..][1..] == lines[i + 1..];
      var next := if lines[i] != "" && lines[i] != format.marker then log.(rows := log.rows + [lines[i]]) else log;
      RowsAfterMarker(format, next, lines, i + 1);
      assert next.rows + RowsIn(format, lines[i + 1..]) == log.rows + RowsIn(format, lines[i..]);
    } else {
      assert log.rows + RowsIn(format, lines[i..]) == log.rows;
    }
  }

  predicate Readable(line: string) {
    line == "" || '=' in line
  }

  lemma {:induction false} LinesBeforeMarker(format: Format, log: Log, lines: seq<string>, i: nat, k: nat)
    requires FirstMarker(format, lines, i, k)
    ensures var parsed := ParseLines(format, log, false, lines, i);
      && (parsed.Some? <==> forall j :: i <= j < k ==> Readable(lines[j]))
      && (parsed.Some? ==> parsed.value.rows == log.rows + RowsIn(format, lines[k..]))
    decreases k - i
  {
    if i < k {
      var equals := Find(lines[i], '=');
      assert lines[i] != format.marker;
      if lines[i] == "" {
        LinesBeforeMarker(format, log, lines, i + 1, k);
      } else if equals < |lines[i]| {
        var next := log.(metadata := log.metadata[lines[i][..equals] := lines[i][equals + 1..]]);
        LinesBeforeMarker(format, next, lines, i + 1, k);
      } else {
        assert lines[i][..equals] == lines[i];
      }
    } else if k < |lines| {
      RowsAfterMarker(format, log, lines, k);
    } else {
      assert log.rows + RowsIn(format, lines[k..]) == log.rows;
    }
  }

  /** Any text is parsed if and only if it starts with the header and every line before the first marker is empty
      or holds an equals sign; its rows are the lines after that are neither empty nor a marker. */
  lemma ParsesExactly(format: Format, text: string, k: nat)
    requires Lines(text) != [] && FirstMarker(format, Lines(text), 1, k)
    ensures var lines, parsed := Lines(text), ParseLog(format, text);
      && (parsed.Some? <==> lines[0] == format.header && forall j :: 1 <= j < k ==> Readable(lines[j]))
      && (parsed.Some? ==> parsed.value.rows == RowsIn(format, lines[k..]))
  {
    LinesBeforeMarker(format, Log(map[], []), Lines(text), 1, k);
  }

  /** The line gives the key a value. */
  predicate Gives(line: string, key: string) {
    '=' !in key && |key| < |line| && line[|key|] == '=' && line[..|key|] == key
  }

  /** Line `j` is the last of those from `i` to `k` that does. */
  predicate LastGiven(lines: seq<string>, i: nat, j: nat, k: nat, key: string)
    requires i <= j < k <= |lines|
  {
    Gives(lines[j], key) && forall l :: j < l < k ==> !Gives(lines[l], key)
  }

  /** After lines `i` to `k` a key has the last value given, or, if there is none, what it had before. */
  ghost predicate GivenAt(
    lines: seq<string>, i: nat, k: nat, before: map<string, string>, after: map<string, string>, key: string)
    requires i <= k <= |lines|
  {
    if forall j :: i <= j < k ==> !Gives(lines[j], key) then
      (key in after <==> key in before) && (key in after ==> after[key] == before[key])
    else
      && key in after
      && exists j :: i <= j < k && LastGiven(lines, i, j, k, key) && after[key] == lines[j][|key| + 1..]
  }

  lemma GivesFound(line: string, key: string)
    ensures Gives(line, key) <==>
      Find(line, '=') < |line| && line[..Find(line, '=')] == key
    ensures Gives(line, key) ==> |key| == Find(line, '=')
  {
  }

  lemma {:induction false} ValuesBeforeMarker(
      format: Format, log: Log, lines: seq<string>, i: nat, k: nat, key: string)
    requires FirstMarker(format, lines, i, k) && ParseLines(format, log, false, lines, i).Some?
    ensures GivenAt(lines, i, k, log.metadata, ParseLines(format, log, false, lines, i).value.metadata, key)
    decreases k - i
  {
    if i == k {
      if k < |lines| {
        RowsAfterMarker(format, log, lines, k);
      }
    } else {
      assert lines[i] != format.marker;
      GivesFound(lines[i], key);
      var next := ParseLine(format, log, false, lines[i]).value.0;
      ValuesBeforeMarker(format, next, lines, i + 1, k, key);
      GivenBefore(lines, i, k, log.metadata, next.metadata,
                  ParseLines(format, log, false, lines, i).value.metadata, key);
    }
  }

  lemma GivenBefore(
      lines: seq<string>, i: nat, k: nat, before: map<string, string>, next: map<string, string>,
      after: map<string, string>, key: string)
    requires i < k <= |lines| && GivenAt(lines, i + 1, k, next, after, key)
    requires
      if Gives(lines[i], key) then key in next && next[key] == lines[i][|key| + 1..]
      else (key in next <==> key in before) && (key in next ==> next[key] == before[key])
    ensures GivenAt(lines, i, k, before, after, key)
  {
    if forall j :: i < j < k ==> !Gives(lines[j], key) {
      assert Gives(lines[i], key) ==> LastGiven(lines, i, i, k, key);
    } else {
      var j :| i + 1 <= j < k && LastGiven(lines, i + 1, j, k, key) && after[key] == lines[j][|key| + 1..];
      assert LastGiven(lines, i, j, k, key);
    }
  }

  lemma GivenIs(lines: seq<string>, i: nat, k: nat, after: map<string, string>, key: string, j: nat)
    requires i <= j < k <= |lines| && GivenAt(lines, i, k, map[], after, key) && LastGiven(lines, i, j, k, key)
    ensures key in after && after[key] == lines[j][|key| + 1..]
  {
    assert Gives(lines[j], key);
    var j' :| i <= j' < k && LastGiven(lines, i, j', k, key) && after[key] == lines[j'][|key| + 1..];
    assert Gives(lines[j'], key);
  }

  /** Of any text that is parsed, a key has the value that the last line before the first marker gives it. */
  lemma ValuesExactly(format: Format, text: string, k: nat, key: string)
    requires Lines(text) != [] && FirstMarker(format, Lines(text), 1, k) && ParseLog(format, text).Some?
    ensures GivenAt(Lines(text), 1, k, map[], ParseLog(format, text).value.metadata, key)
  {
    ValuesBeforeMarker(format, Log(map[], []), Lines(text), 1, k, key);
  }

  // ---- The round trip ----

  /** The last value of every key. */
  function Collected(fields: seq<Field>, n: nat): map<string, string>
    requires n <= |fields|
  {
    if n == 0 then map[] else Collected(fields, n - 1)[fields[n - 1].key := fields[n - 1].value]
  }

  /** A field that prints to one line which is neither empty nor the marker. */
  predicate Printable(format: Format, f: Field) {
    && '=' !in f.key && '\n' !in f.key && '\n' !in f.value
    && FieldLine(f) != format.marker
  }

  predicate PrintableRow(format: Format, row: string) {
    row != "" && row != format.marker && '\n' !in row
  }

  predicate PrintableLog(format: Format, fields: seq<Field>, rows: seq<string>) {
    && '\n' !in format.header && '\n' !in format.marker
    && (forall f <- fields :: Printable(format, f))
    && (forall row <- rows :: PrintableRow(format, row))
  }

  /** `lines` are the lines of the log. */
  ghost predicate Are(lines: seq<string>, format: Format, fields: seq<Field>, rows: seq<string>) {
    && |lines| == |fields| + |rows| + 2
    && lines[0] == format.header && lines[|fields| + 1] == format.marker
    && (forall i :: 0 <= i < |fields| ==> lines[i + 1] == FieldLine(fields[i]))
    && (forall i :: 0 <= i < |rows| ==> lines[|fields| + 2 + i] == rows[i])
  }

  lemma LogLinesAre(format: Format, fields: seq<Field>, rows: seq<string>)
    ensures Are(LogLines(format, fields, rows), format, fields, rows)
  {
  }

  lemma LinesArePlain(lines: seq<string>, format: Format, fields: seq<Field>, rows: seq<string>)
    requires Are(lines, format, fields, rows) && PrintableLog(format, fields, rows)
    ensures forall line <- lines :: '\n' !in line
  {
    forall i | 0 <= i < |lines|
      ensures '\n' !in lines[i]
    {
      if 1 <= i <= |fields| {
        assert lines[i - 1 + 1] == FieldLine(fields[i - 1]);
        assert Printable(format, fields[i - 1]) by { assert fields[i - 1] in fields; }
      } else if i >= |fields| + 2 {
        var j := i - |fields| - 2;
        assert lines[|fields| + 2 + j] == rows[j] && rows[j] in rows;
      }
    }
  }

  lemma {:induction false} RowsRead(
      lines: seq<string>, format: Format, fields: seq<Field>, rows: seq<string>, log: Log, j: nat)
    requires Are(lines, format, fields, rows) && PrintableLog(format, fields, rows)
    requires j <= |rows| && log.rows == rows[..j]
    ensures ParseLines(format, log, true, lines, |fields| + 2 + j) == Some(log.(rows := rows))
    decreases |rows| - j
  {
    if j < |rows| {
      assert PrintableRow(format, rows[j]) by { assert rows[j] in rows; }
      assert rows[..j] + [rows[j]] == rows[..j + 1];
      RowsRead(lines, format, fields, rows, log.(rows := rows[..j + 1]), j + 1);
    } else {
      assert rows[..j] == rows;
    }
  }

  lemma FieldRead(format: Format, log: Log, f: Field)
    requires Printable(format, f)
    ensures ParseLine(format, log, false, FieldLine(f))
      == Some((log.(metadata := log.metadata[f.key := f.value]), false))
  {
    FoundAt(f.key, '=', f.value);
  }

  lemma {:induction false} FieldsRead(lines: seq<string>, format: Format, fields: seq<Field>, rows: seq<string>, i: nat)
    requires Are(lines, format, fields, rows) && PrintableLog(format, fields, rows) && i <= |fields|
    ensures ParseLines(format, Log(Collected(fields, i), []), false, lines, i + 1)
         == Some(Log(Collected(fields, |fields|), rows))
    decreases |fields| - i
  {
    if i < |fields| {
      assert Printable(format, fields[i]) by { assert fields[i] in fields; }
      FieldRead(format, Log(Collected(fields, i), []), fields[i]);
      FieldsRead(lines, format, fields, rows, i + 1);
    } else {
      assert rows[..0] == [];
      RowsRead(lines, format, fields, rows, Log(Collected(fields, i), []), 0);
    }
  }

  /** Parsing inverts printing. */
  lemma ParsePrinted(format: Format, fields: seq<Field>, rows: seq<string>)
    requires PrintableLog(format, fields, rows)
    ensures ParseLog(format, PrintLog(format, fields, rows)) == Some(Log(Collected(fields, |fields|), rows))
  {
    var lines := LogLines(format, fields, rows);
    LogLinesAre(format, fields, rows);
    LinesArePlain(lines, format, fields, rows);
    LinesOfPrinted(lines);
    FieldsRead(lines, format, fields, rows, 0);
  }

  lemma {:induction false} CollectedHas(fields: seq<Field>, n: nat, i: nat)
    requires i < n <= |fields|
    requires forall j :: i < j < n ==> fields[j].key != fields[i].key
    ensures fields[i].key in Collected(fields, n) && Collected(fields, n)[fields[i].key] == fields[i].value
  {
    if i < n - 1 {
      CollectedHas(fields, n - 1, i);
    }
  }

  predicate WordChar(c: char) { 'a' <= c <= 'z' || c == '_' || c == '.' || '0' <= c <= '9' }

  predicate IsWord(s: string) {
    s != "" && forall c <- s :: WordChar(c)
  }

  /** A word as key and a plain value print well. */
  lemma KeyedFieldPrintable(format: Format, f: Field)
    requires IsWord(f.key) && Plain(f.value) && format.marker != "" && !WordChar(format.marker[0])
    ensures Printable(format, f)
  {
    assert FieldLine(f)[0] == f.key[0] && f.key[0] in f.key;
  }

  lemma DigitsArePlain(n: nat)
    ensures Plain(NatText(n)) && NatText(n) != ""
  {
    assert AllDigits(NatText(n));
  }

  // ---- Decoding rows ----

  lemma RowPrintable(format: Format, fields: seq<string>)
    requires |fields| > 1 && (forall field <- fields :: Plain(field)) && '\t' !in format.marker
    ensures PrintableRow(format, Joined(fields))
  {
    JoinedIsOneLine(fields);
  }

  /** The decoded rows from `i` on after those in `done`, unless one of them does not decode. */
  function AllParsed<T>(parses: seq<Option<T>>, i: nat, done: seq<T>): Option<seq<T>>
    requires i <= |parses|
    decreases |parses| - i
  {
    if i == |parses| then Some(done)
    else
      match parses[i]
      case None => None
      case Some(x) => AllParsed(parses, i + 1, done + [x])
  }

  lemma {:induction false} AllParse<T>(parses: seq<Option<T>>, items: seq<T>, i: nat)
    requires |parses| == |items| && i <= |parses|
    requires forall j :: 0 <= j < |parses| ==> parses[j] == Some(items[j])
    ensures AllParsed(parses, i, items[..i]) == Some(items)
    decreases |parses| - i
  {
    if i < |parses| {
      assert items[..i] + [items[i]] == items[..i + 1];
      AllParse(parses, items, i + 1);
    } else {
      assert items[..i] == items;
    }
  }

  lemma {:induction false} OneFails<T>(parses: seq<Option<T>>, i: nat, done: seq<T>)
    requires i <= |parses| && exists j :: i <= j < |parses| && parses[j].None?
    ensures AllParsed(parses, i, done).None?
    decreases |parses| - i
  {
    if parses[i].Some? {
      OneFails(parses, i + 1, done + [parses[i].value]);
    }
  }
}
