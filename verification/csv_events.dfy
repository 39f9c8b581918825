/** The records that CSV rows become: plain columns as properties, actor columns in one object, and
    columns named `attribute.…` in another. A JavaScript property is one value at a time, so columns
    can displace each other. */
module CsvEvents {
  import opened AttributeKeys
  import opened Csv

  datatype Value = Text(text: string) | Fields(fields: map<string, string>)

  type Record = map<string, Value>

  datatype Built = TypeError | Record(record: Record)

  datatype Parsed = InvalidRows | LimitsExceeded | WrongType | Events(records: seq<Record>)

  const MAX_RECORDS := 500
  const MAX_COLUMNS := 50
  const PREFIX := "attribute."
  const ACTOR := "actor"
  const ATTRIBUTES := "attributes"
  const PROTO := "__proto__"

  // ---------- columns ----------

  predicate IsAttribute(header: string) {
    |header| >= |PREFIX| && header[..|PREFIX|] == PREFIX
  }

  function AttributeName(header: string): string
    requires IsAttribute(header)
  {
    header[|PREFIX|..]
  }

  predicate IsActorColumn(header: string) {
    header in {"actorUser", "actorIp", "actorDevice"}
  }

  function ActorField(header: string): string {
    if header == "actorUser" then "user" else if header == "actorIp" then "ip" else "device"
  }

  predicate SafeHeader(header: string) {
    SafeCodes(Codes(header))
  }

  predicate AllSafe(headers: seq<string>) {
    forall i :: 0 <= i < |headers| ==> SafeHeader(headers[i])
  }

  predicate Distinct(headers: seq<string>) {
    forall i, j :: 0 <= i < j < |headers| ==> headers[i] != headers[j]
  }

  // ---------- one record ----------

  /** A record under construction, with its attributes apart. */
  datatype Draft = Draft(record: Record, attributes: map<string, string>)

  datatype Drafted = Broken | Ok(draft: Draft)

  /** One cell. Assigning a text to `__proto__` does nothing, and to a property of a text throws. */
  function Put(d: Draft, header: string, value: string): Drafted {
    if IsAttribute(header) then
      if AttributeName(header) == PROTO then Ok(d)
      else Ok(d.(attributes := d.attributes[AttributeName(header) := value]))
    else if IsActorColumn(header) then
      if ACTOR !in d.record then Ok(d.(record := d.record[ACTOR := Fields(map[ActorField(header) := value])]))
      else
        match d.record[ACTOR]
        case Text(_) => Broken
        case Fields(fields) => Ok(d.(record := d.record[ACTOR := Fields(fields[ActorField(header) := value])]))
    else if value != "" then Ok(d.(record := d.record[header := Text(value)]))
    else Ok(d)
  }

  /** The first cells of a row. */
  function Drafting(headers: seq<string>, row: Row, n: nat): Drafted
    requires n <= |headers| == |row|
  {
    if n == 0 then Ok(Draft(map[], map[]))
    else
      match Drafting(headers, row, n - 1)
      case Broken => Broken
      case Ok(draft) => Put(draft, headers[n - 1], row[n - 1])
  }

  function Finished(d: Draft): Record {
    d.record[ATTRIBUTES := Fields(d.attributes)]
  }

  function RecordOf(headers: seq<string>, row: Row): Built
    requires |headers| == |row|
  {
    match Drafting(headers, row, |headers|)
    case Broken => TypeError
    case Ok(draft) => Record(Finished(draft))
  }

  lemma {:induction false} BrokenStaysBroken(headers: seq<string>, row: Row, m: nat, n: nat)
    requires m <= n <= |headers| == |row| && Drafting(headers, row, m).Broken?
    ensures Drafting(headers, row, n).Broken?
  {
    if m < n { BrokenStaysBroken(headers, row, m, n - 1); }
  }

  method BuildRecord(headers: seq<string>, row: Row) returns (built: Built)
    requires |headers| == |row|
    ensures built == RecordOf(headers, row)
  {
    var record: Record := map[];
    var attributes: map<string, string> := map[];
    for index := 0 to |headers|
      invariant Drafting(headers, row, index) == Ok(Draft(record, attributes))
    {
      var header, value := headers[index], row[index];
      if IsAttribute(header) {
        if AttributeName(header) != PROTO {
          attributes := attributes[AttributeName(header) := value];
        }
      } else if IsActorColumn(header) {
        var actor := if ACTOR in record then record[ACTOR] else Fields(map[]);
        if actor.Text? {
          BrokenStaysBroken(headers, row, index + 1, |headers|);
          return TypeError;
        }
        record := record[ACTOR := Fields(actor.fields[ActorField(header) := value])];
      } else if value != "" {
        record := record[header := Text(value)];
      }
      assert Drafting(headers, row, index + 1) == Ok(Draft(record, attributes));
    }
    record := record[ATTRIBUTES := Fields(attributes)];
    return Record(record);
  }

  // ---------- the whole text ----------

  function RecordsOf(headers: seq<string>, rows: seq<Row>): Parsed {
    if rows == [] then Events([])
    else if |rows[0]| != |headers| then InvalidRows
    else
      match RecordOf(headers, rows[0])
      case TypeError => WrongType
      case Record(record) =>
        match RecordsOf(headers, rows[1..])
        case Events(records) => Events([record] + records)
        case other => other
  }

  function EventsOf(table: Csv.Parsed): Parsed {
    if table.InvalidCsv? || |table.rows| < 2 || table.rows[0] == [] then InvalidRows
    else
      var headers, rows := table.rows[0], table.rows[1..];
      if |rows| > MAX_RECORDS || |headers| > MAX_COLUMNS || !AllSafe(headers) || !Distinct(headers)
      then LimitsExceeded
      else if "eventType" !in headers || "occurredAt" !in headers then InvalidRows
      else RecordsOf(headers, rows)
  }

  /** parseCsvEvents */
  function ParseCsvEvents(text: string): Parsed {
    EventsOf(Read(text, [], [], "", false))
  }
}
