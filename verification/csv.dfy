/** The CSV reader of the event contracts: quoted fields with doubled quotes, trimming of every
    field, and no blank rows (compare section 2 of RFC 4180). */
module Csv {
  import opened JsText

  type Row = seq<string>

  datatype Parsed = InvalidCsv | Rows(rows: seq<Row>)

  predicate Blank(row: Row) {
    forall i :: 0 <= i < |row| ==> row[i] == ""
  }

  /** A finished row is kept when some entry has text. */
  function Keep(rows: seq<Row>, row: Row): seq<Row> {
    if Blank(row) then rows else rows + [row]
  }

  /** The reader's meaning on the text that is left, given what it has gathered. */
  function Read(text: string, rows: seq<Row>, row: Row, field: string, quoted: bool): Parsed
    decreases |text|
  {
    if text == "" then
      if quoted then InvalidCsv else Rows(Keep(rows, row + [Trim(field)]))
    else if quoted then
      if text[0] == '"' && |text| > 1 && text[1] == '"' then Read(text[2..], rows, row, field + "\"", true)
      else if text[0] == '"' then Read(text[1..], rows, row, field, false)
      else Read(text[1..], rows, row, field + [text[0]], true)
    else if text[0] == '"' && field == "" then Read(text[1..], rows, row, field, true)
    else if text[0] == ',' then Read(text[1..], rows, row + [Trim(field)], "", false)
    else if text[0] == '\n' then Read(text[1..], Keep(rows, row + [Trim(field)]), [], "", false)
    else if text[0] == '\r' then Read(text[1..], rows, row, field, false)
    else Read(text[1..], rows, row, field + [text[0]], false)
  }

  method ParseCsvRows(text: string) returns (result: Parsed)
    ensures result == Read(text, [], [], "", false)
  {
    var rows: seq<Row> := [];
    var row: Row := [];
    var field := "";
    var quoted := false;
    var index := 0;
    assert text[0..] == text;
    while index < |text|
      invariant index <= |text|
      invariant Read(text, [], [], "", false) == Read(text[index..], rows, row, field, quoted)
    {
      var character := text[index];
      var rest := text[index..];
      assert rest[1..] == text[index + 1..];
      if quoted {
        if character == '"' && index + 1 < |text| && text[index + 1] == '"' {
          assert rest[2..] == text[index + 2..];
          field := field + "\"";
          index := index + 1;
        } else if character == '"' {
          quoted := false;
        } else {
          field := field + [character];
        }
      } else if character == '"' && |field| == 0 {
        quoted := true;
      } else if character == ',' {
        row := row + [Trim(field)];
        field := "";
      } else if character == '\n' {
        row := row + [Trim(field)];
        if !Blank(row) {
          rows := rows + [row];
        }
        row := [];
        field := "";
      } else if character != '\r' {
        field := field + [character];
      }
      index := index + 1;
    }
    if quoted {
      return InvalidCsv;
    }
    row := row + [Trim(field)];
    if !Blank(row) {
      rows := rows + [row];
    }
    return Rows(rows);
  }

  // ---------- printing ----------

  function Doubled(field: string): string {
    if field == "" then ""
    else (if field[0] == '"' then "\"\"" else [field[0]]) + Doubled(field[1..])
  }

  function Quoted(field: string): string {
    "\"" + Doubled(field) + "\""
  }

  function PrintRow(row: Row): string {
    if row == [] then ""
    else if |row| == 1 then Quoted(row[0])
    else Quoted(row[0]) + "," + PrintRow(row[1..])
  }

  datatype LineEnd = LF | CRLF

  function Break(end: LineEnd): string {
    if end.LF? then "\n" else "\r\n"
  }

  /** Every field quoted; the last row with or without a line end of its own. */
  function Print(table: seq<Row>, end: LineEnd, trailing: bool): string {
    if table == [] then ""
    else if |table| == 1 && !trailing then PrintRow(table[0])
    else PrintRow(table[0]) + Break(end) + Print(table[1..], end, trailing)
  }

  function Trimmed(row: Row): (r: Row)
    ensures |r| == |row|
    ensures forall i :: 0 <= i < |row| ==> r[i] == Trim(row[i])
  {
    seq(|row|, i requires 0 <= i < |row| => Trim(row[i]))
  }

  /** What survives reading: fields trimmed, blank rows gone. */
  function Kept(table: seq<Row>): seq<Row> {
    if table == [] then [] else Keep([], Trimmed(table[0])) + Kept(table[1..])
  }

  // ---------- reading what was printed ----------

  predicate NoQuoteFirst(text: string) {
    text == "" || text[0] != '"'
  }

  lemma {:induction false} ReadQuotedBody(f: string, rest: string, rows: seq<Row>, row: Row, field: string)
    requires NoQuoteFirst(rest)
    ensures Read(Doubled(f) + ("\"" + rest), rows, row, field, true) == Read(rest, rows, row, field + f, false)
    decreases |f|
  {
    var text := Doubled(f) + ("\"" + rest);
    if f == "" {
      assert text == "\"" + rest && text[1..] == rest;
      assert field + f == field;
    } else {
      var tail := Doubled(f[1..]) + ("\"" + rest);
      ReadQuotedBody(f[1..], rest, rows, row, field + [f[0]]);
      assert field + f == field + [f[0]] + f[1..];
      if f[0] == '"' {
        assert text == "\"\"" + tail && text[2..] == tail;
      } else {
        assert text == [f[0]] + tail && text[1..] == tail;
      }
    }
  }

  lemma ReadQuoted(f: string, rest: string, rows: seq<Row>, row: Row)
    requires NoQuoteFirst(rest)
    ensures Read(Quoted(f) + rest, rows, row, "", false) == Read(rest, rows, row, f, false)
  {
    var body := Doubled(f) + ("\"" + rest);
    assert Quoted(f) + rest == "\"" + body && ("\"" + body)[1..] == body;
    ReadQuotedBody(f, rest, rows, row, "");
    assert "" + f == f;
  }

  lemma ReadFirstField(fields: Row, rest: string, rows: seq<Row>, row: Row)
    requires |fields| > 1 && NoQuoteFirst(rest)
    ensures Read(PrintRow(fields) + rest, rows, row, "", false)
         == Read(PrintRow(fields[1..]) + rest, rows, row + [Trim(fields[0])], "", false)
  {
    var tail := PrintRow(fields[1..]) + rest;
    assert PrintRow(fields) + rest == Quoted(fields[0]) + ("," + tail);
    ReadQuoted(fields[0], "," + tail, rows, row);
    assert ("," + tail)[1..] == tail;
  }

  lemma TrimmedFirst(fields: Row, row: Row)
    requires |fields| > 1
    ensures fields[1..][|fields| - 2] == fields[|fields| - 1]
    ensures row + [Trim(fields[0])] + Trimmed(fields[1..][..|fields| - 2]) == row + Trimmed(fields[..|fields| - 1])
  {
    assert fields[..|fields| - 1] == [fields[0]] + fields[1..][..|fields| - 2];
    assert Trimmed(fields[..|fields| - 1]) == [Trim(fields[0])] + Trimmed(fields[1..][..|fields| - 2]);
  }

  /** A printed row leaves its last field open; what comes next closes it. */
  lemma {:induction false} ReadRow(fields: Row, rest: string, rows: seq<Row>, row: Row)
    requires fields != [] && NoQuoteFirst(rest)
    ensures Read(PrintRow(fields) + rest, rows, row, "", false)
         == Read(rest, rows, row + Trimmed(fields[..|fields| - 1]), fields[|fields| - 1], false)
    decreases |fields|
  {
    if |fields| == 1 {
      ReadQuoted(fields[0], rest, rows, row);
      assert row + Trimmed(fields[..0]) == row;
    } else {
      ReadFirstField(fields, rest, rows, row);
      ReadRow(fields[1..], rest, rows, row + [Trim(fields[0])]);
      TrimmedFirst(fields, row);
    }
  }

  lemma ReadBreak(end: LineEnd, rest: string, rows: seq<Row>, row: Row, field: string)
    ensures Read(Break(end) + rest, rows, row, field, false) ==
              Read(rest, Keep(rows, row + [Trim(field)]), [], "", false)
  {
    assert ("\n" + rest)[1..] == rest;
    assert ("\r\n" + rest)[1..] == "\n" + rest;
  }

  lemma WholeRow(fields: Row)
    requires fields != []
    ensures Trimmed(fields[..|fields| - 1]) + [Trim(fields[|fields| - 1])] == Trimmed(fields)
  {
  }

  lemma ReadLine(fields: Row, end: LineEnd, rest: string, rows: seq<Row>)
    ensures Read(PrintRow(fields) + Break(end) + rest, rows, [], "", false) ==
              Read(rest, Keep(rows, Trimmed(fields)), [], "", false)
  {
    assert PrintRow(fields) + Break(end) + rest == PrintRow(fields) + (Break(end) + rest);
    if fields == [] {
      assert PrintRow(fields) + (Break(end) + rest) == Break(end) + rest;
      ReadBreak(end, rest, rows, [], "");
      assert Trim("") == "";
    } else {
      ReadRow(fields, Break(end) + rest, rows, []);
      ReadBreak(end, rest, rows, [] + Trimmed(fields[..|fields| - 1]), fields[|fields| - 1]);
      WholeRow(fields);
      assert [] + Trimmed(fields[..|fields| - 1]) == Trimmed(fields[..|fields| - 1]);
    }
  }

  lemma ReadLastLine(fields: Row, rows: seq<Row>)
    ensures Read(PrintRow(fields), rows, [], "", false) == Rows(Keep(rows, Trimmed(fields)))
  {
    if fields == [] {
      assert Trim("") == "";
    } else {
      assert PrintRow(fields) + "" == PrintRow(fields);
      ReadRow(fields, "", rows, []);
      WholeRow(fields);
      assert [] + Trimmed(fields[..|fields| - 1]) == Trimmed(fields[..|fields| - 1]);
    }
  }

  lemma KeptFirst(rows: seq<Row>, table: seq<Row>)
    requires table != []
    ensures rows + Kept(table) == Keep(rows, Trimmed(table[0])) + Kept(table[1..])
  {
    KeepAppended(rows, Trimmed(table[0]), Kept(table[1..]));
  }

  lemma KeepAppended(rows: seq<Row>, row: Row, more: seq<Row>)
    ensures rows + (Keep([], row) + more) == Keep(rows, row) + more
  {
    if Blank(row) {
      assert [] + more == more;
    } else {
      assert [] + [row] == [row];
    }
  }

  lemma {:induction false} ReadPrinted(table: seq<Row>, end: LineEnd, trailing: bool, rows: seq<Row>)
    ensures Read(Print(table, end, trailing), rows, [], "", false) == Rows(rows + Kept(table))
    decreases |table|
  {
    if table == [] {
      assert Trim("") == "" && rows + Kept(table) == rows;
    } else {
      var next := Keep(rows, Trimmed(table[0]));
      KeptFirst(rows, table);
      if |table| == 1 && !trailing {
        ReadLastLine(table[0], rows);
        assert next + Kept(table[1..]) == next;
      } else {
        ReadLine(table[0], end, Print(table[1..], end, trailing), rows);
        ReadPrinted(table[1..], end, trailing, next);
      }
    }
  }

  /** Reading a printed table trims its fields, drops its blank rows, and changes nothing else,
      whatever the line ends and with or without a final one. */
  lemma PrintThenRead(table: seq<Row>, end: LineEnd, trailing: bool)
    ensures Read(Print(table, end, trailing), [], [], "", false) == Rows(Kept(table))
  {
    ReadPrinted(table, end, trailing, []);
    assert [] + Kept(table) == Kept(table);
  }

  lemma {:induction false} KeptLength(table: seq<Row>)
    ensures |Kept(table)| <= |table|
  {
    if table != [] { KeptLength(table[1..]); }
  }

  predicate Clean(row: Row) {
    !Blank(row) && forall i :: 0 <= i < |row| ==> IsTrimmed(row[i])
  }

  lemma {:induction false} KeptAllIff(table: seq<Row>)
    ensures Kept(table) == table <==> forall i :: 0 <= i < |table| ==> Clean(table[i])
  {
    if table != [] {
      var head, rest := table[0], table[1..];
      KeptAllIff(rest);
      KeptLength(rest);
      CleanIff(head);
      assert table == [head] + rest;
      if Kept(table) == table {
        assert !Blank(Trimmed(head));
        assert Kept(table)[1..] == Kept(rest);
        forall i | 0 <= i < |table| ensures Clean(table[i]) {
          if i > 0 { assert table[i] == rest[i - 1]; }
        }
      }
      if forall i :: 0 <= i < |table| ==> Clean(table[i]) {
        forall i | 0 <= i < |rest| ensures Clean(rest[i]) { assert rest[i] == table[i + 1]; }
        assert Clean(table[0]);
      }
    }
  }

  lemma CleanIff(row: Row)
    ensures Clean(row) <==> Trimmed(row) == row && !Blank(Trimmed(row))
  {
    forall i | 0 <= i < |row| ensures Trim(row[i]) == row[i] <==> IsTrimmed(row[i]) {
      TrimFixedIffTrimmed(row[i]);
    }
    if Trimmed(row) == row {
      forall i | 0 <= i < |row| ensures IsTrimmed(row[i]) { assert Trimmed(row)[i] == row[i]; }
    }
  }

  /** The round trip is exact exactly for tables of trimmed fields without a blank row. */
  lemma RoundTripIff(table: seq<Row>, end: LineEnd, trailing: bool)
    ensures Read(Print(table, end, trailing), [], [], "", false) == Rows(table)
       <==> forall i :: 0 <= i < |table| ==> Clean(table[i])
  {
    PrintThenRead(table, end, trailing);
    KeptAllIff(table);
  }

  // ---------- a quote that is never closed ----------

  lemma {:induction false} ReadUnclosed(f: string, rows: seq<Row>, row: Row, field: string)
    ensures Read(Doubled(f), rows, row, field, true) == InvalidCsv
    decreases |f|
  {
    if f != "" {
      var rest := Doubled(f[1..]);
      ReadUnclosed(f[1..], rows, row, field + [f[0]]);
      if f[0] == '"' {
        assert Doubled(f) == "\"\"" + rest && Doubled(f)[2..] == rest;
      } else {
        assert Doubled(f) == [f[0]] + rest && Doubled(f)[1..] == rest;
      }
    }
  }

  lemma {:induction false} ReadLines(table: seq<Row>, end: LineEnd, rest: string, rows: seq<Row>)
    ensures Read(Print(table, end, true) + rest, rows, [], "", false) == Read(rest, rows + Kept(table), [], "", false)
    decreases |table|
  {
    if table == [] {
      assert Print(table, end, true) + rest == rest && rows + Kept(table) == rows;
    } else {
      var more := Print(table[1..], end, true) + rest;
      assert Print(table, end, true) + rest == PrintRow(table[0]) + Break(end) + more;
      ReadLine(table[0], end, more, rows);
      ReadLines(table[1..], end, rest, Keep(rows, Trimmed(table[0])));
      KeptFirst(rows, table);
    }
  }

  lemma OpenedFails(rows: seq<Row>, row: Row, f: string)
    ensures Read("\"" + Doubled(f), rows, row, "", false) == InvalidCsv
  {
    assert ("\"" + Doubled(f))[1..] == Doubled(f);
    ReadUnclosed(f, rows, row, "");
  }

  lemma OpenedAfterFields(rows: seq<Row>, fields: Row, f: string)
    requires fields != []
    ensures Read(PrintRow(fields) + ("," + ("\"" + Doubled(f))), rows, [], "", false) == InvalidCsv
  {
    var last := "\"" + Doubled(f);
    ReadRow(fields, "," + last, rows, []);
    assert ("," + last)[1..] == last;
    OpenedFails(rows, [] + Trimmed(fields[..|fields| - 1]) + [Trim(fields[|fields| - 1])], f);
  }

  /** After any printed rows and fields, a quote that begins a field and is never closed makes the whole
      text invalid, whatever comes after it. */
  lemma UnclosedQuoteFails(table: seq<Row>, end: LineEnd, fields: Row, f: string)
    ensures var open := if fields == [] then "" else PrintRow(fields) + ",";
            Read(Print(table, end, true) + (open + ("\"" + Doubled(f))), [], [], "", false) == InvalidCsv
  {
    var last := "\"" + Doubled(f);
    if fields == [] {
      ReadLines(table, end, last, []);
      assert "" + last == last;
      OpenedFails([] + Kept(table), [], f);
    } else {
      assert PrintRow(fields) + "," + last == PrintRow(fields) + ("," + last);
      ReadLines(table, end, PrintRow(fields) + ("," + last), []);
      OpenedAfterFields([] + Kept(table), fields, f);
    }
  }

  // ---------- text in which no field begins with a quote ----------

  predicate Quoteless(text: string) {
    forall i :: 0 <= i < |text| ==> text[i] != '"'
  }

  /** Every quote comes when its field has already begun; carriage returns do not begin a field. */
  predicate QuotesInside(text: string, begun: bool) {
    text == ""
    || match text[0]
       case '"' => begun && QuotesInside(text[1..], true)
       case ',' => QuotesInside(text[1..], false)
       case '\n' => QuotesInside(text[1..], false)
       case '\r' => QuotesInside(text[1..], begun)
       case _ => QuotesInside(text[1..], true)
  }

  lemma {:induction false} QuotelessInside(text: string, begun: bool)
    requires Quoteless(text)
    ensures QuotesInside(text, begun)
    decreases |text|
  {
    if text != "" {
      QuotelessInside(text[1..], true);
      QuotelessInside(text[1..], false);
    }
  }

  /** The pieces of a text between occurrences of a separator. */
  function Split(text: string, separator: char): (parts: seq<string>)
    ensures parts != []
  {
    if text == "" then [""]
    else
      var rest := Split(text[1..], separator);
      if text[0] == separator then [""] + rest else [[text[0]] + rest[0]] + rest[1..]
  }

  function Without(text: string, c: char): string {
    if text == "" then ""
    else if text[0] == c then Without(text[1..], c)
    else [text[0]] + Without(text[1..], c)
  }

  function SplitLines(lines: seq<string>): seq<Row> {
    if lines == [] then [] else [Split(lines[0], ',')] + SplitLines(lines[1..])
  }

  /** The pieces, with a prefix put before the first. */
  function Glue(prefix: string, parts: seq<string>): seq<string>
    requires parts != []
  {
    [prefix + parts[0]] + parts[1..]
  }

  /** The rows so far, the open row finished by the first line, and the rows of the other lines. */
  function RowsOfLines(rows: seq<Row>, row: Row, field: string, lines: seq<string>): Parsed
    requires lines != []
  {
    Rows(Keep(rows, row + Trimmed(Glue(field, Split(lines[0], ',')))) + Kept(SplitLines(lines[1..])))
  }

  lemma {:induction false} ReadUnquoted(text: string, rows: seq<Row>, row: Row, field: string)
    requires QuotesInside(text, field != "")
    ensures Read(text, rows, row, field, false)
         == RowsOfLines(rows, row, field, Split(Without(text, '\r'), '\n'))
    decreases |text|
  {
    var lines := Split(Without(text, '\r'), '\n');
    if text == "" {
      assert Trimmed(Glue(field, [""])) == [Trim(field)] by { assert field + "" == field; }
      assert Keep(rows, row + [Trim(field)]) + [] == Keep(rows, row + [Trim(field)]);
    } else {
      var rest := text[1..];
      var more := Split(Without(rest, '\r'), '\n');
      if text[0] == '\r' {
        ReadUnquoted(rest, rows, row, field);
      } else if text[0] == '\n' {
        var next := Keep(rows, row + [Trim(field)]);
        ReadUnquoted(rest, next, [], "");
        assert lines == [""] + more by { assert Without(text, '\r')[1..] == Without(rest, '\r'); }
        LineEnds(field, row);
        LineStarts(next, more);
      } else {
        assert Without(text, '\r')[1..] == Without(rest, '\r');
        assert lines[0] == [text[0]] + more[0] && lines[1..] == more[1..];
        if text[0] == ',' {
          ReadUnquoted(rest, rows, row + [Trim(field)], "");
          FieldEnds(field, row, more[0]);
        } else {
          ReadUnquoted(rest, rows, row, field + [text[0]]);
          FieldGrows(field, text[0], more[0]);
        }
      }
    }
  }

  lemma GlueNothing(parts: seq<string>)
    requires parts != []
    ensures Glue("", parts) == parts
  {
    assert "" + parts[0] == parts[0];
  }

  lemma LineEnds(field: string, row: Row)
    ensures row + Trimmed(Glue(field, Split("", ','))) == row + [Trim(field)]
  {
    assert field + "" == field;
    assert Trimmed([field]) == [Trim(field)];
  }

  lemma LineStarts(next: seq<Row>, more: seq<string>)
    requires more != []
    ensures Keep(next, [] + Trimmed(Glue("", Split(more[0], ',')))) + Kept(SplitLines(more[1..]))
         == next + Kept(SplitLines(([""] + more)[1..]))
  {
    var first := Split(more[0], ',');
    GlueNothing(first);
    assert [] + Trimmed(first) == Trimmed(first);
    assert ([""] + more)[1..] == more;
    var table := SplitLines(more);
    assert table[0] == first && table[1..] == SplitLines(more[1..]);
    KeptFirst(next, table);
  }

  lemma FieldEnds(field: string, row: Row, line: string)
    ensures row + Trimmed(Glue(field, Split([','] + line, ',')))
         == row + [Trim(field)] + Trimmed(Glue("", Split(line, ',')))
  {
    assert ([','] + line)[1..] == line;
    var parts := Split(line, ',');
    GlueNothing(parts);
    TrimmedSplit(field, parts);
  }

  lemma TrimmedSplit(field: string, parts: seq<string>)
    ensures Trimmed(Glue(field, [""] + parts)) == [Trim(field)] + Trimmed(parts)
  {
    assert field + "" == field;
    assert ([""] + parts)[1..] == parts;
  }

  lemma FieldGrows(field: string, c: char, line: string)
    requires c != ','
    ensures Glue(field, Split([c] + line, ',')) == Glue(field + [c], Split(line, ','))
  {
    assert ([c] + line)[1..] == line;
    var parts := Split(line, ',');
    assert field + ([c] + parts[0]) == field + [c] + parts[0];
  }

  /** Unless a field begins with a quote, reading is splitting at line feeds and commas, and quotes are
      characters like others. */
  lemma UnquotedIsSplit(text: string)
    requires QuotesInside(text, false)
    ensures Read(text, [], [], "", false) == Rows(Kept(SplitLines(Split(Without(text, '\r'), '\n'))))
  {
    ReadUnquoted(text, [], [], "");
    var lines := Split(Without(text, '\r'), '\n');
    LineStarts([], lines);
    assert ([""] + lines)[1..] == lines;
    assert [] + Kept(SplitLines(lines)) == Kept(SplitLines(lines));
  }

  /** So it is for every text without quotes. */
  lemma QuotelessIsSplit(text: string)
    requires Quoteless(text)
    ensures Read(text, [], [], "", false) == Rows(Kept(SplitLines(Split(Without(text, '\r'), '\n'))))
  {
    QuotelessInside(text, false);
    UnquotedIsSplit(text);
  }
}
