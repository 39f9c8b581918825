/** Which admitted CSV texts the masker refuses. The header check of the reader looks at a column's
    name with its prefix `attribute.`, the masker at the name without it. */
module CsvMasking {
  import opened AttributeKeys
  import opened CanonicalJson
  import opened Csv
  import opened CsvEvents
  import opened CsvEventsLaws
  import opened Masking
  import opened MaskingLaws

  // ---------- text as code units ----------

  function UnitsOf(c: char): Text {
    var u := c as int;
    if u < 0x1_0000 then [u] else [0xD800 + (u - 0x1_0000) / 0x400, 0xDC00 + (u - 0x1_0000) % 0x400]
  }

  function Units(s: string): Text {
    if s == "" then [] else UnitsOf(s[0]) + Units(s[1..])
  }

  predicate Ascii(s: string) {
    forall i :: 0 <= i < |s| ==> s[i] as int < 0x80
  }

  lemma {:induction false} AsciiUnits(s: string)
    requires Ascii(s)
    ensures |Units(s)| == |s| && forall i :: 0 <= i < |s| ==> Units(s)[i] == s[i] as int
  {
    if s != "" {
      assert Ascii(s[1..]) by { assert forall i :: 0 <= i < |s[1..]| ==> s[1..][i] == s[i + 1]; }
      AsciiUnits(s[1..]);
    }
  }

  lemma SameUnits(s: string, t: string)
    requires Ascii(s) && Ascii(t)
    ensures Units(s) == Units(t) <==> s == t
  {
    AsciiUnits(s);
    AsciiUnits(t);
    if Units(s) == Units(t) {
      forall i | 0 <= i < |s| ensures s[i] == t[i] { assert Units(s)[i] == Units(t)[i]; }
    }
  }

  lemma SpelledProto()
    ensures Ascii("__proto__") && Units("__proto__") == Masking.PROTO
  {
    AsciiUnits("__proto__");
  }

  lemma SpelledConstructor()
    ensures Ascii("constructor") && Units("constructor") == CONSTRUCTOR
  {
    AsciiUnits("constructor");
  }

  lemma SpelledPrototype()
    ensures Ascii("prototype") && Units("prototype") == PROTOTYPE
  {
    AsciiUnits("prototype");
  }

  /** The three names that the masker forbids. */
  lemma ForbiddenUnits(name: string, proto: string, construct: string, prototype: string)
    requires Ascii(name) && Ascii(proto) && Ascii(construct) && Ascii(prototype)
    requires Units(proto) == Masking.PROTO && Units(construct) == CONSTRUCTOR && Units(prototype) == PROTOTYPE
    ensures Forbidden(Units(name)) <==> name == proto || name == construct || name == prototype
  {
    SameUnits(name, proto);
    SameUnits(name, construct);
    SameUnits(name, prototype);
  }

  lemma ForbiddenNames(name: string)
    requires Ascii(name)
    ensures Forbidden(Units(name)) <==> name == "__proto__" || name == "constructor" || name == "prototype"
  {
    SpelledProto();
    SpelledConstructor();
    SpelledPrototype();
    ForbiddenUnits(name, "__proto__", "constructor", "prototype");
  }

  // ---------- from columns to attributes ----------

  /** The attributes of a record, which the builder always sets. */
  function AttributesOf(record: Record): map<string, string>
    requires ATTRIBUTES in record && record[ATTRIBUTES].Fields?
  {
    record[ATTRIBUTES].fields
  }

  function EntryFor(fields: map<string, string>, name: string): Entry
    requires name in fields
  {
    Entry(Units(name), String(Units(fields[name])))
  }

  /** The JSON object of some fields, in any order. */
  ghost predicate IsObjectOf(attributes: Json, fields: map<string, string>) {
    && attributes.Object?
    && (forall e :: e in attributes.entries ==> IsEntryOf(e, fields))
    && (forall name :: name in fields ==> EntryFor(fields, name) in attributes.entries)
  }

  ghost predicate IsEntryOf(e: Entry, fields: map<string, string>) {
    exists name :: name in fields && e == EntryFor(fields, name)
  }

  /** Flat attributes are refused exactly for a forbidden name. */
  lemma FieldsMaskableIff(rules: Rules, attributes: Json, fields: map<string, string>)
    requires IsObjectOf(attributes, fields)
    ensures MaskValue(rules, attributes, 0).Safe? <==> forall name :: name in fields ==> !Forbidden(Units(name))
  {
    var entries := attributes.entries;
    forall i | 0 <= i < |entries| ensures IsEntryOf(entries[i], fields) && entries[i].value.String? {
      assert entries[i] in attributes.entries;
    }
    FlatMaskableIff(rules, entries);
    KeysAreNames(entries, fields);
  }

  lemma KeysAreNames(entries: seq<Entry>, fields: map<string, string>)
    requires forall i :: 0 <= i < |entries| ==> IsEntryOf(entries[i], fields)
    requires forall name :: name in fields ==> EntryFor(fields, name) in entries
    ensures (forall i :: 0 <= i < |entries| ==> !Forbidden(entries[i].key)) <==>
              forall name :: name in fields ==> !Forbidden(Units(name))
  {
    if forall i :: 0 <= i < |entries| ==> !Forbidden(entries[i].key) {
      forall name | name in fields ensures !Forbidden(Units(name)) {
        assert EntryFor(fields, name) in entries;
      }
    }
    if forall name :: name in fields ==> !Forbidden(Units(name)) {
      forall i | 0 <= i < |entries| ensures !Forbidden(entries[i].key) {
        assert IsEntryOf(entries[i], fields);
      }
    }
  }

  /** The attributes of a record are the cells of the attribute columns, but for `__proto__`. */
  lemma AttributeNames(headers: seq<string>, row: Row, name: string)
    requires |headers| == |row| && Distinct(headers) && RecordOf(headers, row).Record?
    ensures ATTRIBUTES in RecordOf(headers, row).record && RecordOf(headers, row).record[ATTRIBUTES].Fields?
    ensures name in AttributesOf(RecordOf(headers, row).record) <==> name != CsvEvents.PROTO && PREFIX + name in headers
  {
    DraftHolds(headers, row, |headers|);
    var d := Drafting(headers, row, |headers|).draft;
    if name in d.attributes { AttributesComeFromColumns(headers, row, |headers|, name); }
    if name != CsvEvents.PROTO && PREFIX + name in headers {
      var i :| 0 <= i < |headers| && headers[i] == PREFIX + name;
      assert AttributeName(headers[i]) == name;
    }
  }

  lemma NamesAreAscii(header: string, name: string)
    requires SafeHeader(header) && header == PREFIX + name
    ensures Ascii(name)
  {
    forall i | 0 <= i < |name| ensures name[i] as int < 0x80 {
      assert header[|PREFIX| + i] == name[i] && Codes(header)[|PREFIX| + i] < 0x80;
    }
  }

  /** Of the names that can be stored, these two are forbidden. */
  lemma StoredAndForbidden(headers: seq<string>, row: Row, name: string)
    requires |headers| == |row| && Distinct(headers) && RecordOf(headers, row).Record?
    requires forall i :: 0 <= i < |headers| ==> SafeHeader(headers[i])
    requires ATTRIBUTES in RecordOf(headers, row).record && RecordOf(headers, row).record[ATTRIBUTES].Fields?
    requires name in AttributesOf(RecordOf(headers, row).record)
    ensures Forbidden(Units(name)) <==> name == "constructor" || name == "prototype"
  {
    AttributeNames(headers, row, name);
    var i :| 0 <= i < |headers| && headers[i] == PREFIX + name;
    NamesAreAscii(headers[i], name);
    ForbiddenNames(name);
  }

  /** One row: its attributes are refused exactly for the columns named. */
  lemma RowMaskableIff(rules: Rules, headers: seq<string>, row: Row, attributes: Json)
    requires |headers| == |row| && Distinct(headers) && RecordOf(headers, row).Record?
    requires forall i :: 0 <= i < |headers| ==> SafeHeader(headers[i])
    requires ATTRIBUTES in RecordOf(headers, row).record && RecordOf(headers, row).record[ATTRIBUTES].Fields?
    requires IsObjectOf(attributes, AttributesOf(RecordOf(headers, row).record))
    ensures MaskValue(rules, attributes, 0).Safe?
       <==> PREFIX + "constructor" !in headers && PREFIX + "prototype" !in headers
  {
    var fields := AttributesOf(RecordOf(headers, row).record);
    FieldsMaskableIff(rules, attributes, fields);
    forall name | name in fields ensures Forbidden(Units(name)) <==> name == "constructor" || name == "prototype" {
      StoredAndForbidden(headers, row, name);
    }
    NoneForbidden(fields, "constructor", "prototype");
    NotProto();
    AttributeNames(headers, row, "constructor");
    AttributeNames(headers, row, "prototype");
  }

  lemma NoneForbidden(fields: map<string, string>, a: string, b: string)
    requires forall name :: name in fields ==> (Forbidden(Units(name)) <==> name == a || name == b)
    ensures (forall name :: name in fields ==> !Forbidden(Units(name))) <==> a !in fields && b !in fields
  {
  }

  lemma NotProto()
    ensures "constructor" != CsvEvents.PROTO && "prototype" != CsvEvents.PROTO
  {
    assert "constructor"[0] != CsvEvents.PROTO[0] && "prototype"[0] != CsvEvents.PROTO[0];
  }

  /** The records of an admitted CSV text are maskable, each and all, exactly when no column is named
      `attribute.constructor` or `attribute.prototype`; `attribute.__proto__` is never stored. */
  lemma CsvMaskableIff(rules: Rules, text: string, k: nat, attributes: Json)
    requires ParseCsvEvents(text).Events? && k < |ParseCsvEvents(text).records|
    ensures Read(text, [], [], "", false).Rows? && Read(text, [], [], "", false).rows != []
    ensures var record := ParseCsvEvents(text).records[k]; ATTRIBUTES in record && record[ATTRIBUTES].Fields?
    ensures var headers := Read(text, [], [], "", false).rows[0];
            IsObjectOf(attributes, AttributesOf(ParseCsvEvents(text).records[k])) ==>
              (MaskValue(rules, attributes, 0).Safe?
               <==> PREFIX + "constructor" !in headers && PREFIX + "prototype" !in headers)
  {
    var table := Read(text, [], [], "", false).rows;
    var headers, rows := table[0], table[1..];
    RecordsAre(headers, rows);
    assert RecordOf(headers, rows[k]) == Record(ParseCsvEvents(text).records[k]);
    AttributeNames(headers, rows[k], "");
    if IsObjectOf(attributes, AttributesOf(ParseCsvEvents(text).records[k])) {
      RowMaskableIff(rules, headers, rows[k], attributes);
    }
  }

  /** There are such texts: the header check lets the column `attribute.constructor` through. */
  lemma RefusedTextIsAdmitted() returns (text: string)
    ensures ParseCsvEvents(text).Events?
    ensures var table := Read(text, [], [], "", false);
            table.Rows? && table.rows != [] && PREFIX + "constructor" in table.rows[0]
  {
    var headers, row := ["eventType", "occurredAt", "attribute.constructor"], ["a", "b", "c"];
    HeadersAreFine(headers);
    CellsAreClean(row);
    NamedThird(headers);
    text := OneRowAdmitted(headers, row);
  }

  lemma NamedThird(headers: seq<string>)
    requires |headers| == 3 && headers[2] == "attribute.constructor"
    ensures PREFIX + "constructor" in headers
  {
    assert PREFIX + "constructor" == headers[2];
  }

  lemma OneRowAdmitted(headers: Row, row: Row) returns (text: string)
    requires FineHeaders(headers) && Csv.Clean(headers) && Csv.Clean(row) && |row| == |headers| && ACTOR !in headers
    ensures ParseCsvEvents(text).Events?
    ensures var table := Read(text, [], [], "", false); table.Rows? && table.rows != [] && table.rows[0] == headers
  {
    text := Print([headers] + [row], LF, false);
    EventsKeepTheTable(headers, [row], LF, false);
    assert !Clash(headers, row, |headers|);
    forall i | 0 <= i < |[headers] + [row]| ensures Csv.Clean(([headers] + [row])[i]) {
    }
    RoundTripIff([headers] + [row], LF, false);
  }

  lemma HeadersAreFine(headers: seq<string>)
    requires headers == ["eventType", "occurredAt", "attribute.constructor"]
    ensures FineHeaders(headers) && ACTOR !in headers && Csv.Clean(headers)
  {
    HeadersAreTrimmed(headers);
    HeadersAreSafe();
    assert headers[0][0] == 'e' && headers[1][0] == 'o' && headers[2][0] == 'a' && |headers[2]| != |ACTOR|;
  }

  lemma HeadersAreSafe()
    ensures FineHeader("eventType") && FineHeader("occurredAt") && FineHeader("attribute.constructor")
  {
  }

  lemma HeadersAreTrimmed(headers: seq<string>)
    requires headers == ["eventType", "occurredAt", "attribute.constructor"]
    ensures Csv.Clean(headers)
  {
    assert headers[0] != "";
  }

  lemma CellsAreClean(row: Row)
    requires row == ["a", "b", "c"]
    ensures Csv.Clean(row)
  {
    assert row[0] != "";
  }
}
