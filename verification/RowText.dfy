/** Rows of a key, a version and a value: the entries of a commit log and of a store file. */
module RowText {
  import opened Wrappers
  import opened Decimal
  import opened TextCodec
  import opened LogText

  datatype Row = Row(key: string, version: nat, value: string)

  function RowFields(row: Row): seq<string> {
    [Escape(row.key), NatText(row.version), Escape(row.value)]
  }

  function RowLine(row: Row): string {
    Joined(RowFields(row))
  }

  function RowOf(f: seq<string>): Row
    requires |f| == 3
  {
    Row(Unescape(f[0]), ToUInt64(f[1]), Unescape(f[2]))
  }

  /** The last field is read by a `getline` of its own, which fails when nothing is left. */
  function ParseRow(line: string): Option<Row> {
    match StreamFields(line, 3)
    case None => None
    case Some(f) => Some(RowOf(f))
  }

  lemma RowDecodes(row: Row)
    requires row.version <= UINT64_MAX
    ensures RowOf(RowFields(row)) == row
  {
    UnescapeInvertsEscape(row.key);
    UnescapeInvertsEscape(row.value);
    ToUInt64OfNatText(row.version);
  }

  lemma RowFieldsArePlain(row: Row)
    ensures forall field <- RowFields(row) :: Plain(field)
    ensures RowFields(row)[2] == "" <==> row.value == ""
  {
    EscapedIsPlain(row.key);
    EscapedIsPlain(row.value);
    assert AllDigits(NatText(row.version));
  }

  lemma RowSplits(row: Row, format: Format)
    requires '\t' !in format.marker
    ensures StreamFields(RowLine(row), |RowFields(row)|) == if row.value == "" then None else Some(RowFields(row))
    ensures PrintableRow(format, RowLine(row))
  {
    RowFieldsArePlain(row);
    RowPrintable(format, RowFields(row));
    StreamFieldsOfJoined(RowFields(row));
  }

  /** A printed row is read back, whatever text it holds, exactly when its value is not empty. */
  lemma RowRoundTrip(row: Row, format: Format)
    requires row.version <= UINT64_MAX && '\t' !in format.marker
    ensures ParseRow(RowLine(row)) == if row.value == "" then None else Some(row)
    ensures PrintableRow(format, RowLine(row))
  {
    RowSplits(row, format);
    RowDecodes(row);
  }

  predicate Fit(rows: seq<Row>) {
    forall row <- rows :: row.version <= UINT64_MAX
  }

  predicate NoEmptyValue(rows: seq<Row>) {
    forall row <- rows :: row.value != ""
  }

  function RowLines(rows: seq<Row>): seq<string> {
    seq(|rows|, i requires 0 <= i < |rows| => RowLine(rows[i]))
  }

  function ParseRows(lines: seq<string>): Option<seq<Row>> {
    AllParsed(seq(|lines|, i requires 0 <= i < |lines| => ParseRow(lines[i])), 0, [])
  }

  /** A whole list of rows is read back exactly when no value in it is empty. */
  lemma RowsRoundTrip(rows: seq<Row>, format: Format)
    requires Fit(rows) && '\t' !in format.marker
    ensures ParseRows(RowLines(rows)) == if NoEmptyValue(rows) then Some(rows) else None
    ensures forall line <- RowLines(rows) :: PrintableRow(format, line)
  {
    var lines := RowLines(rows);
    var parses := seq(|lines|, i requires 0 <= i < |lines| => ParseRow(lines[i]));
    forall i | 0 <= i < |rows|
      ensures parses[i] == (if rows[i].value == "" then None else Some(rows[i])) && PrintableRow(format, lines[i])
    {
      assert rows[i] in rows;
      RowRoundTrip(rows[i], format);
    }
    if NoEmptyValue(rows) {
      assert forall i :: 0 <= i < |rows| ==> rows[i] in rows;
      AllParse(parses, rows, 0);
    } else {
      var i :| 0 <= i < |rows| && rows[i].value == "";
      assert parses[i].None?;
      OneFails(parses, 0, []);
    }
  }
}
