/** The text of a store file. */
module SnapshotText {
  import opened Decimal
  import opened KvStore
  import opened TextCodec
  import opened LogText
  import opened RowText

  const HEADER := "DAS_KV_V1"

  /** A load fails on a foreign header or on a row it cannot read, keeping the rows before it. */
  datatype Load = Load(ok: bool, values: Values)

  function PrintSnapshot(rows: seq<Row>): string {
    Printed([HEADER] + RowLines(rows))
  }

  datatype Parsed = Blank | Bad | Good(row: Row)

  function ParseLine(line: string): Parsed {
    if line == "" then Blank
    else
      match ParseRow(line)
      case None => Bad
      case Some(row) => Good(row)
  }

  function LoadRows(parses: seq<Parsed>, i: nat, values: Values): Load
    requires i <= |parses|
    decreases |parses| - i
  {
    if i == |parses| then Load(true, values)
    else
      match parses[i]
      case Blank => LoadRows(parses, i + 1, values)
      case Bad => Load(false, values)
      case Good(row) => LoadRows(parses, i + 1, values[row.key := Entry(row.value, row.version)])
  }

  function ParseLines(lines: seq<string>): seq<Parsed> {
    seq(|lines|, i requires 0 <= i < |lines| => ParseLine(lines[i]))
  }

  function LoadSnapshot(text: string): Load {
    var lines := Lines(text);
    if lines == [] then Load(true, map[])
    else if lines[0] != HEADER then Load(false, map[])
    else LoadRows(ParseLines(lines), 1, map[])
  }

  method ReadSnapshot(text: string) returns (load: Load)
    ensures load == LoadSnapshot(text)
  {
    var lines := Lines(text);
    if lines == [] {
      return Load(true, map[]);
    }
    if lines[0] != HEADER {
      return Load(false, map[]);
    }
    var values: Values := map[];
    ghost var parses := ParseLines(lines);
    for i := 1 to |lines|
      invariant LoadRows(parses, i, values) == LoadRows(parses, 1, map[])
    {
      if lines[i] == "" {
        continue;
      }
      var row := ParseRow(lines[i]);
      if row.None? {
        return Load(false, values);
      }
      values := values[row.value.key := Entry(row.value.value, row.value.version)];
    }
    load := Load(true, values);
  }

  // ---- Any text ----

  predicate Reads(p: Parsed, key: string) {
    p.Good? && p.row.key == key
  }

  /** Line `j` is the last of those from `i` to `k` that holds the key. */
  predicate LastRead(parses: seq<Parsed>, i: nat, j: nat, k: nat, key: string)
    requires i <= j < k <= |parses|
  {
    Reads(parses[j], key) && forall l :: j < l < k ==> !Reads(parses[l], key)
  }

  /** Line `k` is the first from `i` on that cannot be read, or there is none and `k` is the number of lines. */
  predicate FirstBad(parses: seq<Parsed>, i: nat, k: nat) {
    && i <= k <= |parses|
    && (forall j :: i <= j < k ==> !parses[j].Bad?)
    && (k < |parses| ==> parses[k].Bad?)
  }

  /** After lines `i` to `k` a key is at its last row, or, if none of them holds it, where it was. */
  ghost predicate KeptAt(parses: seq<Parsed>, i: nat, k: nat, before: Values, after: Values, key: string)
    requires i <= k <= |parses|
  {
    if forall j :: i <= j < k ==> !Reads(parses[j], key) then Lookup(after, key) == Lookup(before, key)
    else
      exists j ::
        && i <= j < k && LastRead(parses, i, j, k, key)
        && Lookup(after, key) == VersionedValue(parses[j].row.value, parses[j].row.version, true)
  }

  lemma {:induction false} RowsKept(parses: seq<Parsed>, i: nat, k: nat, values: Values, key: string)
    requires FirstBad(parses, i, k)
    ensures LoadRows(parses, i, values).ok == (k == |parses|)
    ensures KeptAt(parses, i, k, values, LoadRows(parses, i, values).values, key)
    decreases k - i
  {
    if i < k {
      var next := match parses[i]
        case Good(row) => values[row.key := Entry(row.value, row.version)]
        case _ => values;
      var after := LoadRows(parses, i, values).values;
      RowsKept(parses, i + 1, k, next, key);
      if forall j :: i < j < k ==> !Reads(parses[j], key) {
        assert Reads(parses[i], key) ==> LastRead(parses, i, i, k, key);
      } else {
        var j :| i < j < k && LastRead(parses, i + 1, j, k, key)
          && Lookup(after, key) == VersionedValue(parses[j].row.value, parses[j].row.version, true);
        assert LastRead(parses, i, j, k, key);
      }
    }
  }

  /** Loading any text with the right header keeps exactly the rows before the first line that cannot be read,
      of each key the last, and fails if there is such a line. */
  lemma LoadKeepsRows(text: string, k: nat, key: string)
    requires Lines(text) != [] && Lines(text)[0] == HEADER && FirstBad(ParseLines(Lines(text)), 1, k)
    ensures LoadSnapshot(text).ok == (k == |Lines(text)|)
    ensures KeptAt(ParseLines(Lines(text)), 1, k, map[], LoadSnapshot(text).values, key)
  {
    RowsKept(ParseLines(Lines(text)), 1, k, map[], key);
  }

  lemma {:induction false} TailAlike(x: seq<Parsed>, y: seq<Parsed>, j: nat, values: Values)
    requires j <= |y|
    ensures LoadRows(x + [Blank] + y, |x| + 1 + j, values) == LoadRows(x + y, |x| + j, values)
    decreases |y| - j
  {
    if j < |y| {
      assert (x + [Blank] + y)[|x| + 1 + j] == y[j] == (x + y)[|x| + j];
      match y[j]
      case Blank => TailAlike(x, y, j + 1, values);
      case Bad =>
      case Good(row) => TailAlike(x, y, j + 1, values[row.key := Entry(row.value, row.version)]);
    }
  }

  lemma {:induction false} BlankIsSkipped(x: seq<Parsed>, y: seq<Parsed>, i: nat, values: Values)
    requires i <= |x|
    ensures LoadRows(x + [Blank] + y, i, values) == LoadRows(x + y, i, values)
    decreases |x| - i
  {
    if i < |x| {
      assert (x + [Blank] + y)[i] == x[i] == (x + y)[i];
      match x[i]
      case Blank => BlankIsSkipped(x, y, i + 1, values);
      case Bad =>
      case Good(row) => BlankIsSkipped(x, y, i + 1, values[row.key := Entry(row.value, row.version)]);
    } else {
      assert (x + [Blank] + y)[i] == Blank;
      TailAlike(x, y, 0, values);
    }
  }

  lemma ParsesJoined(a: seq<string>, b: seq<string>)
    ensures ParseLines(a + b) == ParseLines(a) + ParseLines(b)
  {
  }

  /** Empty lines after the header change nothing. */
  lemma EmptyLineIsIgnored(text: string, text': string, a: seq<string>, b: seq<string>)
    requires a != [] && Lines(text) == a + b && Lines(text') == a + [""] + b
    ensures LoadSnapshot(text') == LoadSnapshot(text)
  {
    ParsesJoined(a, b);
    ParsesJoined(a + [""], b);
    ParsesJoined(a, [""]);
    assert ParseLines([""]) == [Blank];
    BlankIsSkipped(ParseLines(a), ParseLines(b), 1, map[]);
  }

  // ---- Printed text ----

  /** The rows list the map, each key once, in whatever order the hash map yields them. */
  ghost predicate RowsOf(rows: seq<Row>, m: Values) {
    && (forall i, j :: 0 <= i < j < |rows| ==> rows[i].key != rows[j].key)
    && (forall row <- rows :: row.key in m && m[row.key] == Entry(row.value, row.version))
    && (forall key <- m :: Row(key, m[key].version, m[key].value) in rows)
  }

  /** The rows of a map, in whatever order the hash map yields them. */
  method ListRows(values: Values) returns (rows: seq<Row>)
    ensures RowsOf(rows, values)
  {
    rows := [];
    var rest := values.Keys;
    while rest != {}
      invariant rest <= values.Keys
      invariant forall i, j :: 0 <= i < j < |rows| ==> rows[i].key != rows[j].key
      invariant forall row <- rows :: row.key in values && values[row.key] == Entry(row.value, row.version)
      invariant forall row <- rows :: row.key !in rest
      invariant forall key <- values :: key in rest || Row(key, values[key].version, values[key].value) in rows
      decreases rest
    {
      var key :| key in rest;
      rows := rows + [Row(key, values[key].version, values[key].value)];
      rest := rest - {key};
    }
  }

  /** `done` holds exactly the first `n` rows. */
  ghost predicate LoadedTo(rows: seq<Row>, m: Values, done: Values, n: nat)
    requires n <= |rows|
  {
    && (forall i :: 0 <= i < n ==> rows[i].key in done)
    && (forall key <- done :: key in m && done[key] == m[key])
  }

  /** What a row of the map parses to. */
  function RowParse(row: Row): Parsed {
    if row.value == "" then Bad else Good(row)
  }

  lemma AllLoaded(rows: seq<Row>, m: Values, done: Values)
    requires RowsOf(rows, m) && LoadedTo(rows, m, done, |rows|)
    ensures done == m
  {
    forall key <- m
      ensures key in done
    {
      var i :| 0 <= i < |rows| && rows[i] == Row(key, m[key].version, m[key].value);
    }
  }

  lemma OneMoreLoaded(rows: seq<Row>, m: Values, done: Values, n: nat)
    requires RowsOf(rows, m) && n < |rows| && LoadedTo(rows, m, done, n)
    ensures LoadedTo(rows, m, done[rows[n].key := Entry(rows[n].value, rows[n].version)], n + 1)
  {
    assert rows[n] in rows;
  }

  lemma {:induction false} RowsLoad(rows: seq<Row>, m: Values, parses: seq<Parsed>, done: Values, n: nat)
    requires RowsOf(rows, m) && n <= |rows| && |parses| == |rows| + 1
    requires forall i :: 0 <= i < |rows| ==> parses[i + 1] == RowParse(rows[i])
    requires LoadedTo(rows, m, done, n)
    ensures var load := LoadRows(parses, n + 1, done);
      && (load.ok <==> forall i :: n <= i < |rows| ==> rows[i].value != "")
      && (load.ok ==> load.values == m)
    decreases |rows| - n
  {
    if n == |rows| {
      AllLoaded(rows, m, done);
    } else {
      assert parses[n + 1] == RowParse(rows[n]);
      if rows[n].value != "" {
        OneMoreLoaded(rows, m, done, n);
        RowsLoad(rows, m, parses, done[rows[n].key := Entry(rows[n].value, rows[n].version)], n + 1);
      }
    }
  }

  predicate Representable(m: Values) {
    forall key <- m :: m[key].version <= UINT64_MAX
  }

  /** A store file is read back as the map it was printed from, in whatever order it was printed and
      whatever text it holds, exactly when no value in it is empty; otherwise the load fails. */
  lemma SnapshotRoundTrip(m: Values, rows: seq<Row>)
    requires RowsOf(rows, m) && Representable(m)
    ensures var load := LoadSnapshot(PrintSnapshot(rows));
      && (load.ok <==> forall key <- m :: m[key].value != "")
      && (load.ok ==> load.values == m)
  {
    RowsFit(m, rows);
    SnapshotParses(rows);
    ParsedRowsLoad(m, rows, ParseLines([HEADER] + RowLines(rows)));
    HeadedLoad(PrintSnapshot(rows), RowLines(rows));
  }

  lemma RowsFit(m: Values, rows: seq<Row>)
    requires RowsOf(rows, m) && Representable(m)
    ensures Fit(rows)
  {
  }

  lemma HeadedLoad(text: string, rowLines: seq<string>)
    requires Lines(text) == [HEADER] + rowLines
    ensures LoadSnapshot(text) == LoadRows(ParseLines([HEADER] + rowLines), 1, map[])
  {
  }

  lemma ParsedRowsLoad(m: Values, rows: seq<Row>, parses: seq<Parsed>)
    requires RowsOf(rows, m) && |parses| == |rows| + 1
    requires forall i :: 0 <= i < |rows| ==> parses[i + 1] == RowParse(rows[i])
    ensures var load := LoadRows(parses, 1, map[]);
      && (load.ok <==> forall key <- m :: m[key].value != "")
      && (load.ok ==> load.values == m)
  {
    RowsLoad(rows, m, parses, map[], 0);
    EmptyRowsAreEmptyValues(m, rows);
  }

  lemma EmptyRowsAreEmptyValues(m: Values, rows: seq<Row>)
    requires RowsOf(rows, m)
    ensures (forall i :: 0 <= i < |rows| ==> rows[i].value != "") <==> forall key <- m :: m[key].value != ""
  {
    forall key | key in m && m[key].value == ""
      ensures exists i :: 0 <= i < |rows| && rows[i].value == ""
    {
      var i :| 0 <= i < |rows| && rows[i] == Row(key, m[key].version, m[key].value);
    }
    forall i | 0 <= i < |rows|
      ensures rows[i].key in m && m[rows[i].key].value == rows[i].value
    {
      assert rows[i] in rows;
    }
  }

  lemma RowLinesParse(rows: seq<Row>)
    requires Fit(rows)
    ensures forall i :: 0 <= i < |rows| ==>
      ParseLine(RowLines(rows)[i]) == RowParse(rows[i]) && '\n' !in RowLines(rows)[i]
  {
    var format := Format(HEADER, "");
    forall i | 0 <= i < |rows|
      ensures ParseLine(RowLines(rows)[i]) == RowParse(rows[i]) && '\n' !in RowLines(rows)[i]
    {
      assert rows[i] in rows;
      RowRoundTrip(rows[i], format);
    }
  }

  lemma SnapshotParses(rows: seq<Row>)
    requires Fit(rows)
    ensures var lines := [HEADER] + RowLines(rows);
      && Lines(PrintSnapshot(rows)) == lines
      && |ParseLines(lines)| == |rows| + 1
      && forall i :: 0 <= i < |rows| ==> ParseLines(lines)[i + 1] == RowParse(rows[i])
  {
    RowLinesParse(rows);
    HeadedLines(RowLines(rows));
    HeadedParses(RowLines(rows));
  }

  lemma HeadedLines(rowLines: seq<string>)
    requires forall i :: 0 <= i < |rowLines| ==> '\n' !in rowLines[i]
    ensures Lines(Printed([HEADER] + rowLines)) == [HEADER] + rowLines
  {
    assert forall line <- [HEADER] + rowLines :: line == HEADER || line in rowLines;
    LinesOfPrinted([HEADER] + rowLines);
  }

  lemma HeadedParses(rowLines: seq<string>)
    ensures |ParseLines([HEADER] + rowLines)| == |rowLines| + 1
    ensures forall i :: 0 <= i < |rowLines| ==> ParseLines([HEADER] + rowLines)[i + 1] == ParseLine(rowLines[i])
  {
    forall i | 0 <= i < |rowLines|
      ensures ParseLines([HEADER] + rowLines)[i + 1] == ParseLine(rowLines[i])
    {
      ParsedAt([HEADER] + rowLines, i + 1, rowLines[i]);
    }
  }

  lemma ParsedAt(lines: seq<string>, i: nat, line: string)
    requires i < |lines| && lines[i] == line
    ensures ParseLines(lines)[i] == ParseLine(line)
  {
  }

  /** So a refused put of an absent key makes the store unreadable once it is written out: the entry the
      put leaves behind has an empty value. */
  lemma RefusedPutBreaksSnapshot(m: Values, key: string, expected: nat, value: string, rows: seq<Row>)
    requires key !in m && !PutIf(m, key, expected, value).ok
    requires Representable(m) && RowsOf(rows, PutIf(m, key, expected, value).values)
    ensures !LoadSnapshot(PrintSnapshot(rows)).ok
  {
    var touched := PutIf(m, key, expected, value).values;
    assert touched[key] == Entry("", 0);
    SnapshotRoundTrip(touched, rows);
  }
}
