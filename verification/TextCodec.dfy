/** Escaped text, and how the parsers cut files into lines and lines into fields. */
module TextCodec {
  import opened Wrappers

  // ---- Escaping ----

  function EscapeChar(c: char): string {
    match c
    case '\\' => "\\\\"
    case '\t' => "\\t"
    case '\n' => "\\n"
    case _ => [c]
  }

  function Escape(text: string): string {
    if text == "" then "" else EscapeChar(text[0]) + Escape(text[1..])
  }

  /** What a backslash and `c` stand for. */
  function UnescapeChar(c: char): char {
    match c
    case 't' => '\t'
    case 'n' => '\n'
    case _ => c
  }

  /** `escaped` says that a backslash came just before. */
  function UnescapeFrom(text: string, escaped: bool): string {
    if text == "" then (if escaped then "\\" else "")
    else if escaped then [UnescapeChar(text[0])] + UnescapeFrom(text[1..], false)
    else if text[0] == '\\' then UnescapeFrom(text[1..], true)
    else [text[0]] + UnescapeFrom(text[1..], false)
  }

  function Unescape(text: string): string {
    UnescapeFrom(text, false)
  }

  method EscapeText(text: string) returns (output: string)
    ensures output == Escape(text)
  {
    output := "";
    for i := 0 to |text|
      invariant output + Escape(text[i..]) == Escape(text)
    {
      var c := text[i];
      EscapeUnfolds(text, i, output);
      if c == '\\' || c == '\t' || c == '\n' {
        var letter := if c == '\\' then '\\' else if c == '\t' then 't' else 'n';
        output := output + ['\\', letter];
      } else {
        output := output + [c];
      }
    }
  }

  lemma EscapeUnfolds(text: string, i: nat, before: string)
    requires i < |text|
    ensures before + Escape(text[i..]) == before + EscapeChar(text[i]) + Escape(text[i + 1..])
  {
    assert text[i..][0] == text[i] && text[i..][1..] == text[i + 1..];
  }

  method UnescapeText(text: string) returns (output: string)
    ensures output == Unescape(text)
  {
    output := "";
    var escaped := false;
    for i := 0 to |text|
      invariant output + UnescapeFrom(text[i..], escaped) == Unescape(text)
    {
      var c := text[i];
      UnescapeUnfolds(text, i, escaped, output);
      if escaped {
        output := output + [UnescapeChar(c)];
        escaped := false;
      } else if c == '\\' {
        escaped := true;
      } else {
        output := output + [c];
      }
    }
    if escaped {
      output := output + ['\\'];
    }
  }

  lemma UnescapeUnfolds(text: string, i: nat, escaped: bool, before: string)
    requires i < |text|
    ensures before + UnescapeFrom(text[i..], escaped) ==
      if escaped then before + [UnescapeChar(text[i])] + UnescapeFrom(text[i + 1..], false)
      else if text[i] == '\\' then before + UnescapeFrom(text[i + 1..], true)
      else before + [text[i]] + UnescapeFrom(text[i + 1..], false)
  {
    assert text[i..][0] == text[i] && text[i..][1..] == text[i + 1..];
  }

  lemma UnescapeCode(c: char, tail: string)
    ensures UnescapeFrom(EscapeChar(c) + tail, false) == [c] + UnescapeFrom(tail, false)
  {
    var code := EscapeChar(c);
    if |code| == 2 {
      assert (code + tail)[1..] == [code[1]] + tail && ([code[1]] + tail)[1..] == tail;
    } else {
      assert (code + tail)[1..] == tail;
    }
  }

  lemma {:induction false} UnescapeEscaped(text: string, rest: string)
    ensures UnescapeFrom(Escape(text) + rest, false) == text + UnescapeFrom(rest, false)
  {
    if text == "" {
      assert Escape(text) + rest == rest;
    } else {
      var tail := Escape(text[1..]) + rest;
      UnescapeEscaped(text[1..], rest);
      UnescapeCode(text[0], tail);
      assert Escape(text) + rest == EscapeChar(text[0]) + tail;
      assert text == [text[0]] + text[1..];
    }
  }

  /** Unescaping inverts escaping, for any text. */
  lemma UnescapeInvertsEscape(text: string)
    ensures Unescape(Escape(text)) == text
  {
    UnescapeEscaped(text, "");
    assert Escape(text) + "" == Escape(text);
  }

  predicate Plain(text: string) { '\n' !in text && '\t' !in text }

  /** Escaped text holds no tab and no line break, and is empty only for the empty text. */
  lemma {:induction false} EscapedIsPlain(text: string)
    ensures Plain(Escape(text))
    ensures Escape(text) == "" <==> text == ""
  {
    if text != "" {
      EscapedIsPlain(text[1..]);
    }
  }

  lemma PlainDecodes(text: string)
    requires '\\' !in text && Plain(text)
    ensures Unescape(text) == text
  {
    NothingToEscape(text);
    UnescapeInvertsEscape(text);
  }

  lemma {:induction false} NothingToEscape(text: string)
    requires Plain(text) && '\\' !in text
    ensures Escape(text) == text
  {
    if text != "" {
      NothingToEscape(text[1..]);
    }
  }

  // ---- Cutting ----

  /** Where `c` first occurs, or the length. */
  function Find(s: string, c: char): (i: nat)
    ensures i <= |s|
    ensures c !in s[..i]
    ensures i < |s| ==> s[i] == c
  {
    if s == "" || s[0] == c then 0
    else
      var i := 1 + Find(s[1..], c);
      assert s[..i] == [s[0]] + s[1..][..i - 1];
      i
  }

  lemma {:induction false} FoundAt(head: string, c: char, tail: string)
    requires c !in head
    ensures Find(head + [c] + tail, c) == |head|
    ensures (head + [c] + tail)[..|head|] == head && (head + [c] + tail)[|head| + 1..] == tail
  {
    var s := head + [c] + tail;
    if head != "" {
      assert s[1..] == head[1..] + [c] + tail;
      FoundAt(head[1..], c, tail);
    }
  }

  lemma FoundNowhere(s: string, c: char)
    requires c !in s
    ensures Find(s, c) == |s|
  {
  }

  /** The lines `getline` yields: a line break ends a line, and the end of the text ends one unless
      nothing is left. */
  function Lines(text: string): seq<string>
    decreases |text|
  {
    if text == "" then []
    else
      var i := Find(text, '\n');
      if i == |text| then [text] else [text[..i]] + Lines(text[i + 1..])
  }

  function Printed(lines: seq<string>): string {
    if lines == [] then "" else lines[0] + "\n" + Printed(lines[1..])
  }

  /** Lines without line breaks are read back as they were printed. */
  lemma {:induction false} LinesOfPrinted(lines: seq<string>)
    requires forall line <- lines :: '\n' !in line
    ensures Lines(Printed(lines)) == lines
  {
    if lines != [] {
      assert lines[0] in lines && forall line <- lines[1..] :: line in lines;
      LinesOfPrinted(lines[1..]);
      FoundAt(lines[0], '\n', Printed(lines[1..]));
    }
  }

  /** The fields of a line between tabs; a line has at least one. */
  function Fields(line: string): (fields: seq<string>)
    ensures fields != []
    decreases |line|
  {
    var i := Find(line, '\t');
    if i == |line| then [line] else [line[..i]] + Fields(line[i + 1..])
  }

  function Joined(fields: seq<string>): string
    requires fields != []
  {
    if |fields| == 1 then fields[0] else fields[0] + "\t" + Joined(fields[1..])
  }

  /** Fields without tabs are read back as they were joined. */
  lemma {:induction false} FieldsOfJoined(fields: seq<string>)
    requires fields != [] && forall field <- fields :: '\t' !in field
    ensures Fields(Joined(fields)) == fields
  {
    assert fields[0] in fields;
    if |fields| == 1 {
      FoundNowhere(fields[0], '\t');
    } else {
      assert forall field <- fields[1..] :: field in fields;
      FieldsOfJoined(fields[1..]);
      FoundAt(fields[0], '\t', Joined(fields[1..]));
    }
  }

  lemma {:induction false} JoinedIsOneLine(fields: seq<string>)
    requires fields != [] && forall field <- fields :: '\n' !in field
    ensures '\n' !in Joined(fields)
    ensures |fields| > 1 ==> Joined(fields) != "" && '\t' in Joined(fields)
  {
    assert fields[0] in fields;
    if |fields| > 1 {
      assert forall field <- fields[1..] :: field in fields;
      JoinedIsOneLine(fields[1..]);
    }
  }

  /** The first `n` fields as chained `getline` calls read them: all but the last end at a tab, the last
      one takes the rest of the line, and one that would start at the end of the line does not exist. */
  function StreamFields(line: string, n: nat): (fields: Option<seq<string>>)
    ensures fields.Some? ==> |fields.value| == n
    decreases n
  {
    if n == 0 then Some([])
    else if line == "" then None
    else if n == 1 then Some([line])
    else
      var i := Find(line, '\t');
      match StreamFields(if i == |line| then "" else line[i + 1..], n - 1)
      case None => None
      case Some(rest) => Some([line[..i]] + rest)
  }

  /** What joined fields are read back as. */
  function ReadBack(fields: seq<string>): Option<seq<string>>
    requires fields != []
  {
    if fields[|fields| - 1] == "" then None else Some(fields)
  }

  /** Reading as many fields as a line has works exactly when the last one is not empty. */
  lemma {:induction false} StreamFieldsExactly(line: string, n: nat)
    requires n == |Fields(line)|
    ensures StreamFields(line, n) == ReadBack(Fields(line))
    decreases n
  {
    var i := Find(line, '\t');
    if i < |line| {
      StreamFieldsExactly(line[i + 1..], n - 1);
      ReadBackUnfolds(line[..i], Fields(line[i + 1..]));
    }
  }

  lemma ReadBackUnfolds(head: string, rest: seq<string>)
    requires rest != []
    ensures ReadBack([head] + rest) ==
      match ReadBack(rest)
      case None => None
      case Some(fields) => Some([head] + fields)
  {
  }

  lemma StreamFieldsOfJoined(fields: seq<string>)
    requires fields != [] && forall field <- fields :: '\t' !in field
    ensures StreamFields(Joined(fields), |fields|) == ReadBack(fields)
  {
    FieldsOfJoined(fields);
    StreamFieldsExactly(Joined(fields), |fields|);
  }
}
