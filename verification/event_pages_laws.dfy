/** What following the cursors returns. */
module EventPagesLaws {
  import opened Basics
  import opened EventPages

  /** Ids are unique in a table. */
  predicate UniqueIds(rows: seq<Event>) {
    forall i, j :: 0 <= i < j < |rows| ==> rows[i].id != rows[j].id
  }

  /** Newest first, with no event twice. */
  predicate Descending(s: seq<Event>) {
    forall i, j :: 0 <= i < j < |s| ==> Newer(s[i], s[j])
  }

  predicate Newer(a: Event, b: Event) {
    a.occurredAt > b.occurredAt || (a.occurredAt == b.occurredAt && a.id > b.id)
  }

  /** The event is what every filter that is given asks for. */
  predicate Wanted(f: Filters, e: Event) {
    && (f.from.Some? ==> f.from.value <= e.occurredAt)
    && (f.to.Some? ==> e.occurredAt <= f.to.value)
    && (f.assetId.Some? ==> e.assetId == f.assetId)
    && (f.connectorId.Some? ==> f.connectorId == Some(e.connectorId))
    && (f.eventType.Some? ==> f.eventType == Some(e.eventType))
    && (f.severity.Some? ==> f.severity == Some(e.severity))
    && (f.search.Some? ==> f.search.value(e.message))
  }

  // ---------- one page ----------

  lemma {:induction false} SelectedIds(rows: seq<Event>, f: Filters, c: Option<Cursor>)
    requires UniqueIds(rows)
    ensures UniqueIds(Selected(rows, f, c)) && |Selected(rows, f, c)| <= |rows|
  {
    if rows != [] {
      var rest := Selected(rows[1..], f, c);
      SelectedIds(rows[1..], f, c);
      forall j | 0 <= j < |rest| ensures rest[j].id != rows[0].id {
        assert rest[j] in rows[1..];
      }
    }
  }

  lemma {:induction false} InsertSorts(e: Event, sorted: seq<Event>)
    requires Descending(sorted) && forall i :: 0 <= i < |sorted| ==> sorted[i].id != e.id
    ensures Descending(Insert(e, sorted))
  {
    if sorted != [] && !Before(e, sorted[0]) {
      var rest := Insert(e, sorted[1..]);
      InsertSorts(e, sorted[1..]);
      forall j | 0 <= j < |rest| ensures Before(sorted[0], rest[j]) {
        assert rest[j] == e || rest[j] in sorted[1..];
      }
    }
  }

  lemma {:induction false} OrderedSorts(rows: seq<Event>)
    requires UniqueIds(rows)
    ensures Descending(Ordered(rows))
  {
    if rows != [] {
      var rest := Ordered(rows[1..]);
      OrderedSorts(rows[1..]);
      forall i | 0 <= i < |rest| ensures rest[i].id != rows[0].id {
        assert rest[i] in rows[1..];
      }
      InsertSorts(rows[0], rest);
    }
  }

  /** A page is newest first, holds only matching events past the cursor, at most `limit` of them,
      and leaves out only those past its own cursor. */
  lemma PageFacts(rows: seq<Event>, f: Filters, c: Option<Cursor>, limit: nat)
    requires UniqueIds(rows)
    ensures var page := PageOf(rows, f, c, limit);
            && |page.data| <= limit && Descending(page.data)
            && (forall e :: e in page.data ==> e in rows && Matches(f, e) && Past(c, e))
            && (page.next.Some? ==> page.data != [] && page.next.value == CursorOf(page.data[|page.data| - 1]))
            && (page.next.None? && limit > 0 ==> |page.data| < limit)
            && (forall e :: e in rows && Matches(f, e) && Past(c, e) ==>
                  e in page.data || (page.next.Some? && Past(page.next, e)) || limit == 0)
  {
    var selected := Selected(rows, f, c);
    var all, page := Ordered(selected), PageOf(rows, f, c, limit);
    SelectedIds(rows, f, c);
    OrderedSorts(selected);
    forall e | e in rows && Matches(f, e) && Past(c, e)
      ensures e in page.data || (page.next.Some? && Past(page.next, e)) || limit == 0
    {
      assert e in selected && e in all;
      var i :| 0 <= i < |all| && all[i] == e;
      if i < |page.data| { assert page.data[i] == e; }
    }
  }

  lemma PastGoesDown(c: Option<Cursor>, last: Event, e: Event)
    requires Past(c, last) && Past(Some(CursorOf(last)), e)
    ensures Past(c, e) && Before(last, e)
  {
  }

  // ---------- a walk over changing tables ----------

  predicate Somewhere(tables: seq<seq<Event>>, e: Event) {
    exists i :: 0 <= i < |tables| && e in tables[i]
  }

  predicate Throughout(tables: seq<seq<Event>>, e: Event) {
    forall i :: 0 <= i < |tables| ==> e in tables[i]
  }

  /** Even while events come and go between requests, a walk is newest first, has no event twice and
      only matching ones that were there. */
  lemma {:induction false} WalkIsSound(tables: seq<seq<Event>>, f: Filters, c: Option<Cursor>, limit: nat)
    requires limit >= 1 && forall i :: 0 <= i < |tables| ==> UniqueIds(tables[i])
    ensures SoundList(Follow(tables, f, c, limit).data, tables, f, c)
    decreases |tables|
  {
    if tables != [] {
      var page := PageOf(tables[0], f, c, limit);
      PageFacts(tables[0], f, c, limit);
      assert forall e :: e in page.data ==> Somewhere(tables, e);
      if page.next.Some? {
        var rest := tables[1..];
        assert forall i :: 0 <= i < |rest| ==> rest[i] == tables[i + 1];
        WalkIsSound(rest, f, page.next, limit);
        SoundTogether(page.data, Follow(rest, f, page.next, limit).data, tables, f, c);
      }
    }
  }

  /** Newest first, with no event twice, and every one matches, lies past the cursor and was in a table. */
  predicate SoundList(data: seq<Event>, tables: seq<seq<Event>>, f: Filters, c: Option<Cursor>) {
    Descending(data) && forall e :: e in data ==> Matches(f, e) && Past(c, e) && Somewhere(tables, e)
  }

  lemma SoundTogether(data: seq<Event>, more: seq<Event>, tables: seq<seq<Event>>, f: Filters, c: Option<Cursor>)
    requires tables != [] && data != [] && SoundList(data, tables, f, c)
    requires SoundList(more, tables[1..], f, Some(CursorOf(data[|data| - 1])))
    ensures SoundList(data + more, tables, f, c)
  {
    var last := data[|data| - 1];
    forall e | e in more ensures Past(c, e) && Before(last, e) && Somewhere(tables, e) {
      PastGoesDown(c, last, e);
      SomewhereLater(tables, e);
    }
    Appended(data, more);
  }

  lemma SomewhereLater(tables: seq<seq<Event>>, e: Event)
    requires tables != [] && Somewhere(tables[1..], e)
    ensures Somewhere(tables, e)
  {
    var i :| 0 <= i < |tables[1..]| && e in tables[1..][i];
    assert e in tables[i + 1];
  }

  /** If such a walk comes to its end, it has every matching event that was there throughout. */
  lemma {:induction false} WalkMissesNothing(tables: seq<seq<Event>>, f: Filters, c: Option<Cursor>, limit: nat,
      e: Event)
    requires limit >= 1 && forall i :: 0 <= i < |tables| ==> UniqueIds(tables[i])
    requires Follow(tables, f, c, limit).done && Matches(f, e) && Past(c, e) && Throughout(tables, e)
    ensures e in Follow(tables, f, c, limit).data
    decreases |tables|
  {
    var page := PageOf(tables[0], f, c, limit);
    PageFacts(tables[0], f, c, limit);
    assert e in tables[0];
    if e !in page.data {
      assert forall i :: 0 <= i < |tables[1..]| ==> tables[1..][i] == tables[i + 1];
      WalkMissesNothing(tables[1..], f, page.next, limit, e);
    }
  }

  lemma Appended(a: seq<Event>, b: seq<Event>)
    requires Descending(a) && Descending(b) && a != [] && forall e :: e in b ==> Before(a[|a| - 1], e)
    ensures Descending(a + b)
  {
    forall i, j | 0 <= i < j < |a + b| ensures Before((a + b)[i], (a + b)[j]) {
      if i < |a| <= j { assert (a + b)[j] in b && (i == |a| - 1 || Before(a[i], a[|a| - 1])); }
    }
  }

  // ---------- a walk over one table ----------

  lemma HeadIsFirst(s: seq<Event>, e: Event)
    requires Descending(s) && e in s
    ensures e == s[0] || Before(s[0], e)
  {
  }

  lemma {:induction false} DescendingUnique(a: seq<Event>, b: seq<Event>)
    requires Descending(a) && Descending(b) && forall e :: e in a <==> e in b
    ensures a == b
    decreases |a|
  {
    assert b != [] ==> b[0] in a;
    if a != [] {
      assert a[0] in b && b != [];
      HeadIsFirst(a, b[0]);
      HeadIsFirst(b, a[0]);
      assert a[0] == b[0];
      forall e ensures e in a[1..] <==> e in b[1..] {
        assert e in a[1..] ==> e in a && Before(a[0], e);
        assert e in b[1..] ==> e in b && Before(b[0], e);
      }
      DescendingUnique(a[1..], b[1..]);
    }
  }

  /** What is left past the cursor of a full page is the rest of the list. */
  lemma Remaining(rows: seq<Event>, f: Filters, c: Option<Cursor>, limit: nat)
    requires UniqueIds(rows) && limit >= 1 && PageOf(rows, f, c, limit).next.Some?
    ensures |Selected(rows, f, c)| >= limit
    ensures var all := Ordered(Selected(rows, f, c));
            Ordered(Selected(rows, f, PageOf(rows, f, c, limit).next)) == all[limit..]
  {
    var all, next := Ordered(Selected(rows, f, c)), PageOf(rows, f, c, limit).next;
    var rest := Ordered(Selected(rows, f, next));
    NextIs(rows, f, c, limit, all);
    ListDescends(rows, f, c);
    ListDescends(rows, f, next);
    RemainingEvents(rows, f, c, limit, all, next, rest, all[limit..]);
    DescendingUnique(rest, all[limit..]);
  }

  lemma NextIs(rows: seq<Event>, f: Filters, c: Option<Cursor>, limit: nat, all: seq<Event>)
    requires limit >= 1 && all == Ordered(Selected(rows, f, c)) && PageOf(rows, f, c, limit).next.Some?
    ensures limit <= |all| && PageOf(rows, f, c, limit).next == Some(CursorOf(all[limit - 1]))
  {
  }

  lemma RemainingEvents(rows: seq<Event>, f: Filters, c: Option<Cursor>, limit: nat, all: seq<Event>,
      next: Option<Cursor>, rest: seq<Event>, left: seq<Event>)
    requires all == Ordered(Selected(rows, f, c)) && Descending(all) && 1 <= limit <= |all| && left == all[limit..]
    requires next == Some(CursorOf(all[limit - 1])) && rest == Ordered(Selected(rows, f, next))
    ensures forall e :: e in rest <==> e in left
  {
    forall e ensures e in rest <==> e in left {
      RemainingEvent(rows, f, c, limit, all, next, e);
    }
  }

  lemma RemainingEvent(
      rows: seq<Event>, f: Filters, c: Option<Cursor>, limit: nat, all: seq<Event>, next: Option<Cursor>, e: Event)
    requires all == Ordered(Selected(rows, f, c)) && Descending(all) && 1 <= limit <= |all|
    requires next == Some(CursorOf(all[limit - 1]))
    ensures e in Selected(rows, f, next) <==> e in all[limit..]
  {
    RestOrPage(all, limit, e);
    LeftPast(rows, f, c, all[limit - 1], e);
  }

  lemma ListDescends(rows: seq<Event>, f: Filters, c: Option<Cursor>)
    requires UniqueIds(rows)
    ensures Descending(Ordered(Selected(rows, f, c)))
  {
    SelectedIds(rows, f, c);
    OrderedSorts(Selected(rows, f, c));
  }

  /** Past an event of the list lie the events of the list that are past it. */
  lemma LeftPast(rows: seq<Event>, f: Filters, c: Option<Cursor>, last: Event, e: Event)
    requires last in Selected(rows, f, c)
    ensures e in Selected(rows, f, Some(CursorOf(last))) <==> e in Selected(rows, f, c) && Past(Some(CursorOf(last)), e)
  {
    if Past(Some(CursorOf(last)), e) { PastGoesDown(c, last, e); }
  }

  lemma RestOrPage(all: seq<Event>, limit: nat, e: Event)
    requires Descending(all) && 1 <= limit <= |all|
    ensures e in all[limit..] <==> e in all && Past(Some(CursorOf(all[limit - 1])), e)
  {
    if e in all {
      var i :| 0 <= i < |all| && all[i] == e;
      if i >= limit { assert all[limit..][i - limit] == e; }
      assert i < limit - 1 ==> Before(e, all[limit - 1]);
      assert i > limit - 1 ==> Before(all[limit - 1], e);
    }
  }

  /** `count / limit`, page by page. */
  function FullPages(count: nat, limit: nat): (n: nat)
    requires limit >= 1
    ensures n <= count
  {
    if count < limit then 0 else 1 + FullPages(count - limit, limit)
  }

  /** Over one table and for every limit: the walk comes to its end with the request after the last
      full page, and returns exactly the matching events, newest first, each once. */
  lemma WalkIsComplete(rows: seq<Event>, f: Filters, c: Option<Cursor>, limit: nat, n: nat)
    requires UniqueIds(rows) && limit >= 1
    requires n > FullPages(|Selected(rows, f, c)|, limit)
    ensures Follow(Steady(rows, n), f, c, limit)
         == Walk(Ordered(Selected(rows, f, c)), true, FullPages(|Selected(rows, f, c)|, limit) + 1)
  {
    var all := Ordered(Selected(rows, f, c));
    WalkOver(rows, f, c, limit, n, all, FullPages(|all|, limit));
  }

  lemma {:induction false} WalkOver(rows: seq<Event>, f: Filters, c: Option<Cursor>, limit: nat, n: nat,
      all: seq<Event>, pages: nat)
    requires UniqueIds(rows) && limit >= 1 && all == Ordered(Selected(rows, f, c))
    requires pages == FullPages(|all|, limit) && n > pages
    ensures Follow(Steady(rows, n), f, c, limit) == Walk(all, true, pages + 1)
    decreases n, 1
  {
    var page := PageOf(rows, f, c, limit);
    PageAndRest(rows, f, c, limit, all, page);
    PagesCount(|all|, limit, pages);
    if page.next.Some? {
      WalkOverRest(rows, f, c, limit, n, page, all, all[limit..], pages);
    } else {
      WalkEnds(rows, f, c, limit, n, page, all);
    }
  }

  lemma {:induction false} WalkOverRest(rows: seq<Event>, f: Filters, c: Option<Cursor>, limit: nat, n: nat,
      page: Page, all: seq<Event>, left: seq<Event>, pages: nat)
    requires UniqueIds(rows) && limit >= 1 && page == PageOf(rows, f, c, limit) && page.next.Some?
    requires page.data + left == all && left == Ordered(Selected(rows, f, page.next))
    requires 1 <= pages < n && FullPages(|left|, limit) == pages - 1
    ensures Follow(Steady(rows, n), f, c, limit) == Walk(all, true, pages + 1)
    decreases n, 0
  {
    WalkOver(rows, f, page.next, limit, n - 1, left, pages - 1);
    WalkGoesOn(rows, f, c, limit, n, page, all, left, pages);
  }

  lemma WalkEnds(rows: seq<Event>, f: Filters, c: Option<Cursor>, limit: nat, n: nat, page: Page, all: seq<Event>)
    requires n >= 1 && page == PageOf(rows, f, c, limit) && page.next.None? && page.data == all
    ensures Follow(Steady(rows, n), f, c, limit) == Walk(all, true, 1)
  {
    FollowOnce(rows, f, c, limit, n, page);
  }

  lemma WalkGoesOn(
      rows: seq<Event>, f: Filters, c: Option<Cursor>, limit: nat, n: nat, page: Page,
      all: seq<Event>, left: seq<Event>, pages: nat)
    requires n >= 1 && pages >= 1 && page == PageOf(rows, f, c, limit) && page.next.Some?
    requires page.data + left == all
    requires Follow(Steady(rows, n - 1), f, page.next, limit) == Walk(left, true, pages)
    ensures Follow(Steady(rows, n), f, c, limit) == Walk(all, true, pages + 1)
  {
    FollowOnce(rows, f, c, limit, n, page);
  }

  lemma PagesCount(count: nat, limit: nat, pages: nat)
    requires limit >= 1 && pages == FullPages(count, limit)
    ensures if count < limit then pages == 0 else pages >= 1 && FullPages(count - limit, limit) == pages - 1
  {
  }

  /** A page and what is left past it make up the list. */
  lemma PageAndRest(rows: seq<Event>, f: Filters, c: Option<Cursor>, limit: nat, all: seq<Event>, page: Page)
    requires UniqueIds(rows) && limit >= 1 && all == Ordered(Selected(rows, f, c)) && page == PageOf(rows, f, c, limit)
    ensures page.next.None? ==> page.data == all && |all| < limit
    ensures page.next.Some? ==> |all| >= limit && page.data + all[limit..] == all
    ensures page.next.Some? ==> Ordered(Selected(rows, f, page.next)) == all[limit..]
  {
    if page.next.Some? {
      Remaining(rows, f, c, limit);
      assert page.data == all[..limit] && all[..limit] + all[limit..] == all;
    }
  }

  lemma FollowOnce(rows: seq<Event>, f: Filters, c: Option<Cursor>, limit: nat, n: nat, page: Page)
    requires n >= 1 && page == PageOf(rows, f, c, limit)
    ensures page.next.None? ==> Follow(Steady(rows, n), f, c, limit) == Walk(page.data, true, 1)
    ensures page.next.Some? ==>
              var rest := Follow(Steady(rows, n - 1), f, page.next, limit);
              Follow(Steady(rows, n), f, c, limit) == Walk(page.data + rest.data, rest.done, rest.pages + 1)
  {
    assert Steady(rows, n)[1..] == Steady(rows, n - 1);
  }

  /** The first page and its successors, as the use case serves them, 50 events at a time unless it is
      asked for another number: they return the wanted events, newest first, each once. */
  lemma ListingFromTheTop(rows: seq<Event>, f: Filters, limit: Option<nat>)
    requires UniqueIds(rows) && (limit.Some? ==> limit.value >= 1)
    ensures var size := if limit.Some? then limit.value else 50;
            var w := Follow(Steady(rows, |rows| + 1), f, None, size);
            && w.done && Descending(w.data) && (forall e :: e in w.data <==> e in rows && Wanted(f, e))
            && (ListEvents(rows, f, None, limit).Listed? ==>
                  ListEvents(rows, f, None, limit).page.data == Take(w.data, size))
  {
    var size := if limit.Some? then limit.value else 50;
    ListDescends(rows, f, None);
    SelectedIds(rows, f, None);
    WalkIsComplete(rows, f, None, size, |rows| + 1);
    ListingIs(rows, f, None, limit);
  }

  /** Every page that is listed is the walk's; none is listed for a range that is reversed or too long. */
  lemma ListingIs(rows: seq<Event>, f: Filters, c: Option<Cursor>, limit: Option<nat>)
    ensures ListEvents(rows, f, c, limit).InvalidRange? <==>
              f.from.Some? && f.to.Some?
              && (f.from.value > f.to.value || f.to.value - f.from.value > 2_678_400_000)
    ensures ListEvents(rows, f, c, limit).Listed? ==>
              ListEvents(rows, f, c, limit).page == PageOf(rows, f, c, if limit.Some? then limit.value else 50)
  {
  }
}
