/** The event list: filtered, newest first, a page at a time, each page continued from the last
    event of the one before. Ids are compared as the database compares them. */
module EventPages {
  import opened Basics

  type Id = nat
  type Time = int

  datatype Event = Event(
    id: Id, assetId: Option<Id>, connectorId: Id, eventType: string, severity: nat, message: string, occurredAt: Time)

  datatype Cursor = Cursor(id: Id, occurredAt: Time)

  /** The filters of a query; `search` is the database's case-insensitive match on the message. */
  datatype Filters = Filters(
    assetId: Option<Id>, connectorId: Option<Id>, eventType: Option<string>, severity: Option<nat>,
    search: Option<string -> bool>, from: Option<Time>, to: Option<Time>)

  datatype Page = Page(data: seq<Event>, next: Option<Cursor>)

  datatype Listing = Listed(page: Page) | InvalidRange

  const MAX_RANGE: Time := 31 * 24 * 60 * 60_000
  const DEFAULT_LIMIT := 50

  predicate Matches(f: Filters, e: Event) {
    && (f.assetId.None? || e.assetId == f.assetId)
    && (f.connectorId.None? || e.connectorId == f.connectorId.value)
    && (f.eventType.None? || e.eventType == f.eventType.value)
    && (f.search.None? || f.search.value(e.message))
    && (f.from.None? || e.occurredAt >= f.from.value)
    && (f.to.None? || e.occurredAt <= f.to.value)
    && (f.severity.None? || e.severity == f.severity.value)
  }

  /** The keyset condition of a cursor. */
  predicate Past(c: Option<Cursor>, e: Event) {
    c.None? || e.occurredAt < c.value.occurredAt || (e.id < c.value.id && e.occurredAt == c.value.occurredAt)
  }

  /** `ORDER BY occurred_at DESC, id DESC` */
  predicate Before(a: Event, b: Event) {
    a.occurredAt > b.occurredAt || (a.occurredAt == b.occurredAt && a.id > b.id)
  }

  function Selected(rows: seq<Event>, f: Filters, c: Option<Cursor>): (r: seq<Event>)
    ensures forall e :: e in r <==> e in rows && Matches(f, e) && Past(c, e)
  {
    if rows == [] then []
    else if Matches(f, rows[0]) && Past(c, rows[0]) then [rows[0]] + Selected(rows[1..], f, c)
    else Selected(rows[1..], f, c)
  }

  function Insert(e: Event, sorted: seq<Event>): (r: seq<Event>)
    ensures |r| == |sorted| + 1 && forall x :: x in r <==> x == e || x in sorted
  {
    if sorted == [] || Before(e, sorted[0]) then [e] + sorted else [sorted[0]] + Insert(e, sorted[1..])
  }

  function Ordered(rows: seq<Event>): (r: seq<Event>)
    ensures |r| == |rows| && forall x :: x in r <==> x in rows
  {
    if rows == [] then []
    else
      assert rows == [rows[0]] + rows[1..];
      Insert(rows[0], Ordered(rows[1..]))
  }

  function Take(rows: seq<Event>, limit: nat): seq<Event> {
    if |rows| <= limit then rows else rows[..limit]
  }

  function FindMany(rows: seq<Event>, f: Filters, c: Option<Cursor>, limit: nat): seq<Event> {
    Take(Ordered(Selected(rows, f, c)), limit)
  }

  function CursorOf(e: Event): Cursor {
    Cursor(e.id, e.occurredAt)
  }

  function PageOf(rows: seq<Event>, f: Filters, c: Option<Cursor>, limit: nat): Page {
    var events := FindMany(rows, f, c, limit);
    Page(events, if |events| == limit && events != [] then Some(CursorOf(events[|events| - 1])) else None)
  }

  predicate ValidRange(f: Filters) {
    f.from.Some? && f.to.Some? ==> f.from.value <= f.to.value && f.to.value - f.from.value <= MAX_RANGE
  }

  function ListEvents(rows: seq<Event>, f: Filters, c: Option<Cursor>, limit: Option<nat>): Listing {
    if !ValidRange(f) then InvalidRange
    else Listed(PageOf(rows, f, c, if limit.Some? then limit.value else DEFAULT_LIMIT))
  }

  // ---------- following the cursors ----------

  /** The events of a walk and whether it came to its end. */
  datatype Walk = Walk(data: seq<Event>, done: bool, pages: nat)

  /** Asks for a page, then for the next from its cursor, until none is named. Each request meets
      the table as it is then. */
  function Follow(tables: seq<seq<Event>>, f: Filters, c: Option<Cursor>, limit: nat): Walk {
    if tables == [] then Walk([], false, 0)
    else
      var page := PageOf(tables[0], f, c, limit);
      if page.next.None? then Walk(page.data, true, 1)
      else
        var rest := Follow(tables[1..], f, page.next, limit);
        Walk(page.data + rest.data, rest.done, rest.pages + 1)
  }

  /** One table that does not change. */
  function Steady(rows: seq<Event>, n: nat): (tables: seq<seq<Event>>)
    ensures |tables| == n && forall i :: 0 <= i < n ==> tables[i] == rows
  {
    seq(n, _ => rows)
  }
}
