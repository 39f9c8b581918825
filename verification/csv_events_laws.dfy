/** Which cells can be read back from the records. */
module CsvEventsLaws {
  import opened AttributeKeys
  import opened Csv
  import opened CsvEvents

  /** What a record says of a column; nothing said is an empty cell. */
  function Cell(record: Record, header: string): string {
    if |header| >= 10 && header[..10] == "attribute." then FieldOf(record, "attributes", header[10..])
    else if header == "actorUser" then FieldOf(record, "actor", "user")
    else if header == "actorIp" then FieldOf(record, "actor", "ip")
    else if header == "actorDevice" then FieldOf(record, "actor", "device")
    else if header in record && record[header].Text? then record[header].text
    else ""
  }

  function FieldOf(record: Record, property: string, field: string): string {
    if property in record && record[property].Fields? && field in record[property].fields then
      record[property].fields[field]
    else ""
  }

  /** A cell of a column named `actor`. */
  predicate ActorText(headers: seq<string>, row: Row, j: int)
    requires |headers| == |row|
  {
    0 <= j < |headers| && headers[j] == ACTOR && row[j] != ""
  }

  /** The columns whose cells are displaced: `attributes`, `attribute.__proto__`, and actor columns
      beside a text in a column `actor`. */
  ghost predicate Displaced(headers: seq<string>, row: Row, i: nat)
    requires i < |headers| == |row|
  {
    || headers[i] == ATTRIBUTES
    || headers[i] == PREFIX + PROTO
    || (IsActorColumn(headers[i]) && exists j :: ActorText(headers, row, j))
  }

  // ---------- what a draft holds ----------

  /** The attributes and plain properties that the first cells leave. */
  ghost predicate Holds(headers: seq<string>, row: Row, n: nat, d: Draft)
    requires n <= |headers| == |row|
  {
    && (forall i :: 0 <= i < n && IsAttribute(headers[i]) && AttributeName(headers[i]) != PROTO ==>
          AttributeName(headers[i]) in d.attributes && d.attributes[AttributeName(headers[i])] == row[i])
    && PROTO !in d.attributes
    && (forall i :: 0 <= i < n && Plain(headers[i]) && row[i] != "" ==>
         headers[i] in d.record && d.record[headers[i]] == Text(row[i]))
    && (forall i :: 0 <= i < n && Plain(headers[i]) && headers[i] != ACTOR && row[i] == "" ==> headers[i] !in d.record)
    && (forall h :: h in d.record && h != ACTOR ==> exists i :: 0 <= i < n && headers[i] == h)
  }

  predicate Plain(header: string) {
    !IsAttribute(header) && !IsActorColumn(header)
  }

  /** What is under `actor`: a text from the column of that name, or else the actor cells. */
  ghost predicate HoldsActor(headers: seq<string>, row: Row, n: nat, d: Draft)
    requires n <= |headers| == |row|
  {
    && (ACTOR in d.record && d.record[ACTOR].Text? <==> exists j :: j < n && ActorText(headers, row, j))
    && (ACTOR in d.record && d.record[ACTOR].Fields? ==> exists i :: 0 <= i < n && IsActorColumn(headers[i]))
    && (forall i :: 0 <= i < n && IsActorColumn(headers[i]) ==> ACTOR in d.record)
    && (ACTOR in d.record && d.record[ACTOR].Fields? ==>
          forall i :: 0 <= i < n && IsActorColumn(headers[i]) ==>
            ActorField(headers[i]) in d.record[ACTOR].fields &&
                d.record[ACTOR].fields[ActorField(headers[i])] == row[i])
  }

  lemma ColumnsApart(g: string, h: string)
    requires g != h
    ensures IsAttribute(g) && IsAttribute(h) ==> AttributeName(g) != AttributeName(h)
    ensures IsActorColumn(g) && IsActorColumn(h) ==> ActorField(g) != ActorField(h)
    ensures !IsAttribute(ACTOR) && !IsActorColumn(ACTOR) && !IsAttribute(ATTRIBUTES) && !IsActorColumn(ATTRIBUTES)
  {
    if IsAttribute(g) && IsAttribute(h) {
      assert g == PREFIX + AttributeName(g) && h == PREFIX + AttributeName(h);
    }
    assert ATTRIBUTES[..|PREFIX|][9] != PREFIX[9];
  }

  lemma AttributeHolds(headers: seq<string>, row: Row, n: nat, d: Draft, e: Draft)
    requires n < |headers| == |row| && Distinct(headers) && Holds(headers, row, n, d)
    requires IsAttribute(headers[n]) && Put(d, headers[n], row[n]) == Ok(e)
    ensures Holds(headers, row, n + 1, e)
  {
    forall i | 0 <= i < n ensures headers[i] != headers[n] { ColumnsApart(headers[i], headers[n]); }
    ColumnsApart(ACTOR, ATTRIBUTES);
    forall i | 0 <= i < n + 1 && IsAttribute(headers[i]) && AttributeName(headers[i]) != PROTO
      ensures AttributeName(headers[i]) in e.attributes && e.attributes[AttributeName(headers[i])] == row[i]
    {
      if i < n { ColumnsApart(headers[i], headers[n]); }
    }
  }

  lemma ActorHolds(headers: seq<string>, row: Row, n: nat, d: Draft, e: Draft)
    requires n < |headers| == |row| && Distinct(headers) && Holds(headers, row, n, d) && HoldsActor(headers, row, n, d)
    requires !IsAttribute(headers[n]) && IsActorColumn(headers[n]) && Put(d, headers[n], row[n]) == Ok(e)
    ensures Holds(headers, row, n + 1, e)
  {
    ColumnsApart(ACTOR, ATTRIBUTES);
    assert forall i :: 0 <= i < n && headers[i] == ACTOR && row[i] != "" ==> ActorText(headers, row, i);
    assert e.attributes == d.attributes && forall h :: h != ACTOR ==> (h in e.record <==> h in d.record);
  }

  lemma PlainHolds(headers: seq<string>, row: Row, n: nat, d: Draft, e: Draft)
    requires n < |headers| == |row| && Distinct(headers) && Holds(headers, row, n, d)
    requires Plain(headers[n]) && Put(d, headers[n], row[n]) == Ok(e)
    ensures Holds(headers, row, n + 1, e)
  {
    assert forall i :: 0 <= i < n ==> headers[i] != headers[n];
  }

  lemma ActorCellKept(headers: seq<string>, row: Row, n: nat, d: Draft, e: Draft)
    requires n < |headers| == |row| && Distinct(headers) && HoldsActor(headers, row, n, d)
    requires !IsAttribute(headers[n]) && IsActorColumn(headers[n]) && Put(d, headers[n], row[n]) == Ok(e)
    ensures HoldsActor(headers, row, n + 1, e)
  {
    ColumnsApart(ACTOR, ATTRIBUTES);
    forall i | 0 <= i < n && IsActorColumn(headers[i]) ensures ActorField(headers[i]) != ActorField(headers[n]) {
      ColumnsApart(headers[i], headers[n]);
    }
    assert !ActorText(headers, row, n);
  }

  lemma OtherCellKept(headers: seq<string>, row: Row, n: nat, d: Draft, e: Draft)
    requires n < |headers| == |row| && Distinct(headers) && HoldsActor(headers, row, n, d)
    requires IsAttribute(headers[n]) || !IsActorColumn(headers[n])
    requires Put(d, headers[n], row[n]) == Ok(e)
    ensures HoldsActor(headers, row, n + 1, e)
  {
    ColumnsApart(ACTOR, ATTRIBUTES);
    if IsActorColumn(headers[n]) { NoActorColumnIsAttribute(headers[n]); }
    if ActorText(headers, row, n) { assert e.record[ACTOR].Text?; }
  }

  lemma ActorKept(headers: seq<string>, row: Row, n: nat, d: Draft, e: Draft)
    requires n < |headers| == |row| && Distinct(headers) && HoldsActor(headers, row, n, d)
    requires Put(d, headers[n], row[n]) == Ok(e)
    ensures HoldsActor(headers, row, n + 1, e)
  {
    if !IsAttribute(headers[n]) && IsActorColumn(headers[n]) {
      ActorCellKept(headers, row, n, d, e);
    } else {
      OtherCellKept(headers, row, n, d, e);
    }
  }

  /** An actor column that comes after a text in the column `actor`. */
  ghost predicate Clash(headers: seq<string>, row: Row, n: nat)
    requires n <= |headers| == |row|
  {
    exists i, j :: 0 <= i < j < n && ActorText(headers, row, i) && IsActorColumn(headers[j])
  }

  lemma {:induction false} DraftHolds(headers: seq<string>, row: Row, n: nat)
    requires n <= |headers| == |row| && Distinct(headers) && Drafting(headers, row, n).Ok?
    ensures var d := Drafting(headers, row, n).draft; Holds(headers, row, n, d) && HoldsActor(headers, row, n, d)
  {
    if n > 0 {
      DraftHolds(headers, row, n - 1);
      CellHolds(headers, row, n - 1, Drafting(headers, row, n - 1).draft, Drafting(headers, row, n).draft);
    }
  }

  lemma {:induction false} DraftBrokenIff(headers: seq<string>, row: Row, n: nat)
    requires n <= |headers| == |row| && Distinct(headers)
    ensures Drafting(headers, row, n).Broken? <==> Clash(headers, row, n)
  {
    if n > 0 {
      DraftBrokenIff(headers, row, n - 1);
      if Drafting(headers, row, n - 1).Ok? { DraftHolds(headers, row, n - 1); }
      ClashStep(headers, row, n, Drafting(headers, row, n - 1), Drafting(headers, row, n));
    }
  }

  lemma CellHolds(headers: seq<string>, row: Row, n: nat, d: Draft, e: Draft)
    requires n < |headers| == |row| && Distinct(headers) && Holds(headers, row, n, d) && HoldsActor(headers, row, n, d)
    requires Put(d, headers[n], row[n]) == Ok(e)
    ensures Holds(headers, row, n + 1, e) && HoldsActor(headers, row, n + 1, e)
  {
    ActorKept(headers, row, n, d, e);
    if IsAttribute(headers[n]) {
      AttributeHolds(headers, row, n, d, e);
    } else if IsActorColumn(headers[n]) {
      ActorHolds(headers, row, n, d, e);
    } else {
      PlainHolds(headers, row, n, d, e);
    }
  }

  lemma ClashStep(headers: seq<string>, row: Row, n: nat, before: Drafted, after: Drafted)
    requires 0 < n <= |headers| == |row|
    requires before == Drafting(headers, row, n - 1) && after == Drafting(headers, row, n)
    requires before.Broken? <==> Clash(headers, row, n - 1)
    requires before.Ok? ==> HoldsActor(headers, row, n - 1, before.draft)
    ensures after.Broken? <==> Clash(headers, row, n)
  {
    if before.Broken? {
      var i, j :| 0 <= i < j < n - 1 && ActorText(headers, row, i) && IsActorColumn(headers[j]);
      assert Clash(headers, row, n);
    } else if after.Broken? {
      var i :| i < n - 1 && ActorText(headers, row, i);
      assert IsActorColumn(headers[n - 1]);
    } else if Clash(headers, row, n) {
      var i, j :| 0 <= i < j < n && ActorText(headers, row, i) && IsActorColumn(headers[j]);
      assert j == n - 1;
      NoActorColumnIsAttribute(headers[j]);
      assert false;
    }
  }

  lemma NoActorColumnIsAttribute(h: string)
    requires IsActorColumn(h)
    ensures !IsAttribute(h)
  {
    assert |h| >= |PREFIX| ==> h[..|PREFIX|][1] == 'c' && PREFIX[1] == 't';
  }

  /** Every attribute comes from a column. */
  lemma {:induction false} AttributesComeFromColumns(headers: seq<string>, row: Row, n: nat, name: string)
    requires n <= |headers| == |row| && Drafting(headers, row, n).Ok?
    requires name in Drafting(headers, row, n).draft.attributes
    ensures exists i :: 0 <= i < n && headers[i] == PREFIX + name
  {
    assert n > 0;
    var before := Drafting(headers, row, n - 1).draft;
    if name in before.attributes {
      AttributesComeFromColumns(headers, row, n - 1, name);
    } else {
      assert IsAttribute(headers[n - 1]) && AttributeName(headers[n - 1]) == name;
      assert headers[n - 1] == PREFIX + name;
    }
  }

  // ---------- the two laws of a row ----------

  /** A row makes a record unless an actor column follows a text in a column `actor`. */
  lemma RowFailsIff(headers: seq<string>, row: Row)
    requires |headers| == |row| && Distinct(headers)
    ensures RecordOf(headers, row).TypeError? <==> Clash(headers, row, |headers|)
  {
    DraftBrokenIff(headers, row, |headers|);
  }

  /** A cell can be read back from the record exactly when it is empty or its column is not displaced. */
  lemma CellKeptIff(headers: seq<string>, row: Row, i: nat)
    requires i < |headers| == |row| && Distinct(headers) && RecordOf(headers, row).Record?
    ensures Cell(RecordOf(headers, row).record, headers[i]) == row[i] <==> row[i] == "" || !Displaced(headers, row, i)
  {
    DraftHolds(headers, row, |headers|);
    var d, h := Drafting(headers, row, |headers|).draft, headers[i];
    ColumnsApart(ACTOR, ATTRIBUTES);
    if IsAttribute(h) {
      AttributeCell(headers, row, i, d);
    } else if IsActorColumn(h) {
      ActorCell(headers, row, i, d);
    } else {
      PlainCell(headers, row, i, d);
    }
  }

  lemma AttributeCell(headers: seq<string>, row: Row, i: nat, d: Draft)
    requires i < |headers| == |row| && Holds(headers, row, |headers|, d) && IsAttribute(headers[i])
    ensures Cell(Finished(d), headers[i]) == row[i] <==> row[i] == "" || !Displaced(headers, row, i)
  {
    var h := headers[i];
    assert h == PREFIX + AttributeName(h);
    ColumnsApart(ACTOR, ATTRIBUTES);
    assert !IsActorColumn(h) by { if IsActorColumn(h) { NoActorColumnIsAttribute(h); } }
    assert AttributeName(h) == PROTO <==> h == PREFIX + PROTO;
  }

  lemma ActorCell(headers: seq<string>, row: Row, i: nat, d: Draft)
    requires i < |headers| == |row| && HoldsActor(headers, row, |headers|, d) && IsActorColumn(headers[i])
    ensures Cell(Finished(d), headers[i]) == row[i] <==> row[i] == "" || !Displaced(headers, row, i)
  {
    NoActorColumnIsAttribute(headers[i]);
    assert ACTOR != ATTRIBUTES && headers[i] != ATTRIBUTES && headers[i] != PREFIX + PROTO;
    assert (exists j :: j < |headers| && ActorText(headers, row, j)) <==> exists j :: ActorText(headers, row, j);
  }

  lemma PlainCell(headers: seq<string>, row: Row, i: nat, d: Draft)
    requires i < |headers| == |row| && Distinct(headers) && Plain(headers[i])
    requires Holds(headers, row, |headers|, d) && HoldsActor(headers, row, |headers|, d)
    ensures Cell(Finished(d), headers[i]) == row[i] <==> row[i] == "" || !Displaced(headers, row, i)
  {
    assert headers[i] != PREFIX + PROTO by { assert (PREFIX + PROTO)[..|PREFIX|] == PREFIX; }
    if headers[i] == ACTOR && row[i] == "" {
      assert forall j :: 0 <= j < |headers| && j != i ==> headers[j] != ACTOR;
    }
  }

  // ---------- whole tables ----------

  lemma {:induction false} RecordsAre(headers: seq<string>, rows: seq<Row>)
    ensures RecordsOf(headers, rows).Events? <==>
              forall k :: 0 <= k < |rows| ==> |rows[k]| == |headers| && RecordOf(headers, rows[k]).Record?
    ensures RecordsOf(headers, rows).Events? ==>
              |RecordsOf(headers, rows).records| == |rows|
              && forall k :: 0 <= k < |rows| ==>
                   RecordOf(headers, rows[k]) == Record(RecordsOf(headers, rows).records[k])
  {
    if rows != [] {
      RecordsAre(headers, rows[1..]);
      assert forall k :: 0 < k < |rows| ==> rows[k] == rows[1..][k - 1];
    }
  }

  predicate Letter(c: char) { 'a' <= c <= 'z' || 'A' <= c <= 'Z' }

  /** A letter and up to 79 letters, digits, dots, underscores or hyphens. */
  predicate FineHeader(header: string) {
    && 1 <= |header| <= 80 && Letter(header[0])
    && forall i :: 1 <= i < |header| ==> Letter(header[i]) || '0' <= header[i] <= '9' || header[i] in "._-"
  }

  lemma FineIsSafe(header: string)
    ensures FineHeader(header) <==> SafeHeader(header)
  {
    var codes := Codes(header);
    if FineHeader(header) {
      forall i | 1 <= i < |codes|
        ensures IsLetter(codes[i]) || 0x30 <= codes[i] <= 0x39 || codes[i] in {0x2D, 0x2E, 0x5F}
      {
        assert Letter(header[i]) || '0' <= header[i] <= '9' || header[i] in "._-";
      }
    }
    if SafeHeader(header) {
      forall i | 1 <= i < |header| ensures Letter(header[i]) || '0' <= header[i] <= '9' || header[i] in "._-" {
        assert IsLetter(codes[i]) || 0x30 <= codes[i] <= 0x39 || codes[i] in {0x2D, 0x2E, 0x5F};
        assert '.' in "._-" && '_' in "._-" && '-' in "._-";
      }
    }
  }

  /** A header row that the limits let through. */
  predicate FineHeaders(headers: seq<string>) {
    && 1 <= |headers| <= 50 && Distinct(headers) && (forall i :: 0 <= i < |headers| ==> FineHeader(headers[i]))
    && "eventType" in headers && "occurredAt" in headers
  }

  /** A text gives events exactly when it reads as a fine header row and 1 to 500 rows of the same width
      in none of which an actor column follows a text under `actor`; it is over the limits exactly
      for too many rows or columns, a header that does not fit the pattern, or one that repeats. */
  lemma EventsIff(text: string)
    ensures var table, parsed := Read(text, [], [], "", false), ParseCsvEvents(text);
            && (parsed.Events? <==>
                  && table.Rows? && 2 <= |table.rows| <= 501 && FineHeaders(table.rows[0])
                  && forall k :: 1 <= k < |table.rows| ==>
                       |table.rows[k]| == |table.rows[0]|
                       && !Clash(table.rows[0], table.rows[k], |table.rows[0]|))
            && (parsed == LimitsExceeded <==>
                 && table.Rows? && |table.rows| >= 2 && table.rows[0] != []
                 && (|| |table.rows| > 501 || |table.rows[0]| > 50 || !Distinct(table.rows[0])
                     || exists i :: 0 <= i < |table.rows[0]| && !FineHeader(table.rows[0][i])))
  {
    var table := Read(text, [], [], "", false);
    if table.Rows? && |table.rows| >= 2 {
      var headers, rows := table.rows[0], table.rows[1..];
      forall i | 0 <= i < |headers| ensures FineHeader(headers[i]) <==> SafeHeader(headers[i]) {
        FineIsSafe(headers[i]);
      }
      RecordsAre(headers, rows);
      NeverTooMany(headers, rows);
      if Distinct(headers) { RowsRecordIff(headers, table.rows); }
    }
  }

  lemma RowsRecordIff(headers: seq<string>, table: seq<Row>)
    requires Distinct(headers) && table != []
    ensures (forall k :: 0 <= k < |table[1..]| ==>
              |table[1..][k]| == |headers| && RecordOf(headers, table[1..][k]).Record?)
       <==> forall k :: 1 <= k < |table| ==> |table[k]| == |headers| && !Clash(headers, table[k], |headers|)
  {
    var rows := table[1..];
    forall k | 1 <= k < |table| && |table[k]| == |headers|
      ensures RecordOf(headers, rows[k - 1]).Record? <==> !Clash(headers, table[k], |headers|)
    {
      RowFailsIff(headers, table[k]);
    }
    assert forall k :: 0 <= k < |rows| ==> rows[k] == table[k + 1];
    assert forall k :: 1 <= k < |table| ==> table[k] == rows[k - 1];
  }

  lemma {:induction false} NeverTooMany(headers: seq<string>, rows: seq<Row>)
    ensures RecordsOf(headers, rows) != LimitsExceeded
  {
    if rows != [] { NeverTooMany(headers, rows[1..]); }
  }

  /** From text to events and back to cells: a table of trimmed cells and rows that are not blank,
      written as CSV under fine headers, comes back as one record a row with every cell that is not
      displaced, unless some row clashes or has the wrong number of cells. */
  lemma EventsKeepTheTable(headers: Row, rows: seq<Row>, end: LineEnd, trailing: bool)
    requires FineHeaders(headers) && 1 <= |rows| <= 500
    requires Csv.Clean(headers) && forall k :: 0 <= k < |rows| ==> Csv.Clean(rows[k])
    ensures var parsed := ParseCsvEvents(Print([headers] + rows, end, trailing));
            && (parsed.Events? <==>
                 forall k :: 0 <= k < |rows| ==> |rows[k]| == |headers| && !Clash(headers, rows[k], |headers|))
            && (parsed.Events? ==>
                  |parsed.records| == |rows|
                  && forall k, i :: 0 <= k < |rows| && 0 <= i < |headers| && !Displaced(headers, rows[k], i) ==>
                       Cell(parsed.records[k], headers[i]) == rows[k][i])
  {
    var table := [headers] + rows;
    RoundTripIff(table, end, trailing);
    forall i | 0 <= i < |table| ensures Csv.Clean(table[i]) {
      if i > 0 { assert table[i] == rows[i - 1]; }
    }
    assert table[0] == headers && table[1..] == rows;
    forall i | 0 <= i < |headers| ensures SafeHeader(headers[i]) { FineIsSafe(headers[i]); }
    assert EventsOf(Rows(table)) == RecordsOf(headers, rows);
    RecordsAre(headers, rows);
    forall k | 0 <= k < |rows| && |rows[k]| == |headers|
      ensures RecordOf(headers, rows[k]).Record? <==> !Clash(headers, rows[k], |headers|)
    {
      RowFailsIff(headers, rows[k]);
    }
    var parsed := ParseCsvEvents(Print(table, end, trailing));
    if parsed.Events? {
      forall k, i | 0 <= k < |rows| && 0 <= i < |headers| && !Displaced(headers, rows[k], i)
        ensures Cell(parsed.records[k], headers[i]) == rows[k][i]
      {
        CellKeptIff(headers, rows[k], i);
      }
    }
  }
}
