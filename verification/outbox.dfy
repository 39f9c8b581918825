/** The leased outbox. Any number of dispatchers claim rows, put jobs on a queue and mark the
    rows; any of them can stop between two steps, and a lease can run out while its holder is
    still at work. Times are milliseconds. */
module Outbox {
  import opened Basics

  type Id = nat
  type Time = int

  const MAX_CLAIMS := 10
  const BATCH := 200
  const LEASE: Time := 60_000

  datatype Status = Pending | Processing | Published | Failed

  datatype Row = Row(status: Status, retryCount: nat, availableAt: Time)

  /** How far the holder of a claim has come. */
  datatype Phase = Claimed | Enqueued

  /** A row with the work on it that is under way: each claim is known by the retry count it was
      given. `enqueued` says whether the job was ever put on the queue. */
  datatype Event = Event(row: Row, claims: map<nat, Phase>, enqueued: bool)

  datatype Step =
    | Claim(now: Time)
    | Enqueue(n: nat)
    | MarkPublished(n: nat)
    | MarkFailed(n: nat, now: Time)
    | Abandon(n: nat)

  function NewEvent(availableAt: Time): Event {
    Event(Row(Pending, 0, availableAt), map[], false)
  }

  predicate Claimable(row: Row, now: Time) {
    row.status in {Pending, Processing} && row.availableAt <= now && row.retryCount < MAX_CLAIMS
  }

  function ClaimedRow(row: Row, now: Time): Row {
    Row(Processing, row.retryCount + 1, now + LEASE)
  }

  function Power2(n: nat): nat { if n == 0 then 1 else 2 * Power2(n - 1) }

  /** `now() + make_interval(secs => LEAST(300, power(2, retry_count)))` */
  function RetryAt(row: Row, now: Time): Time {
    now + 1_000 * Min(300, Power2(row.retryCount))
  }

  /** updatePublished and updateFailed touch the row only while it is PROCESSING. */
  function PublishedRow(row: Row): Row {
    if row.status.Processing? then row.(status := Published) else row
  }

  function FailedRow(row: Row, n: nat, now: Time): Row {
    if row.status.Processing? then
      Row(if n >= MAX_CLAIMS then Failed else Pending, row.retryCount, RetryAt(row, now))
    else row
  }

  function Without(claims: map<nat, Phase>, n: nat): map<nat, Phase> {
    map k | k in claims && k != n :: claims[k]
  }

  /** One step of one dispatcher; a step without its claim does nothing. */
  function Next(e: Event, step: Step): Event {
    match step
    case Claim(now) =>
      if !Claimable(e.row, now) then e
      else e.(row := ClaimedRow(e.row, now), claims := e.claims[e.row.retryCount + 1 := Claimed])
    case Enqueue(n) =>
      if n in e.claims then e.(claims := e.claims[n := Enqueued], enqueued := true) else e
    case MarkPublished(n) =>
      if n in e.claims && e.claims[n].Enqueued? then
        e.(row := PublishedRow(e.row), claims := Without(e.claims, n))
      else e
    case MarkFailed(n, now) =>
      if n in e.claims then e.(row := FailedRow(e.row, n, now), claims := Without(e.claims, n)) else e
    case Abandon(n) =>
      if n in e.claims then e.(claims := Without(e.claims, n)) else e
  }

  function Run(e: Event, steps: seq<Step>): Event
    decreases |steps|
  {
    if steps == [] then e else Next(Run(e, steps[..|steps| - 1]), steps[|steps| - 1])
  }

  // ---------- the dispatcher ----------

  datatype ClaimedEvent = ClaimedEvent(id: Id, retryCount: nat)

  /** The first rows in the given order that can be claimed, at most `limit` of them. */
  function Chosen(rows: map<Id, Row>, order: seq<Id>, locked: set<Id>, now: Time, limit: nat): (ids: seq<Id>)
    requires forall i :: 0 <= i < |order| ==> order[i] in rows
    ensures |ids| <= limit && forall i :: 0 <= i < |ids| ==> ids[i] in rows
  {
    if order == [] || limit == 0 then []
    else if order[0] !in locked && Claimable(rows[order[0]], now) then
      [order[0]] + Chosen(rows, order[1..], locked, now, limit - 1)
    else Chosen(rows, order[1..], locked, now, limit)
  }

  /** Only claimable rows are chosen, and all of them unless the limit is reached. */
  lemma {:induction false} ChosenRows(rows: map<Id, Row>, order: seq<Id>, locked: set<Id>, now: Time, limit: nat)
    requires forall i :: 0 <= i < |order| ==> order[i] in rows
    ensures var ids := Chosen(rows, order, locked, now, limit);
            && (forall id :: id in ids ==> id in order && id !in locked && Claimable(rows[id], now))
            && (|ids| < limit ==> forall id :: id in order && id !in locked && Claimable(rows[id], now) ==> id in ids)
    decreases |order|
  {
    if order != [] && limit > 0 {
      ChosenRows(rows, order[1..], locked, now,
                 if order[0] !in locked && Claimable(rows[order[0]], now) then limit - 1 else limit);
    }
  }

  lemma ChosenStep(rows: map<Id, Row>, order: seq<Id>, i: nat, locked: set<Id>, now: Time, limit: nat)
    requires forall k :: 0 <= k < |order| ==> order[k] in rows
    requires i < |order| && limit > 0
    ensures Chosen(rows, order[i..], locked, now, limit)
         == if order[i] !in locked && Claimable(rows[order[i]], now)
            then [order[i]] + Chosen(rows, order[i + 1..], locked, now, limit - 1)
            else Chosen(rows, order[i + 1..], locked, now, limit)
  {
    assert order[i..][1..] == order[i + 1..] && order[i..][0] == order[i];
  }

  lemma Regroup(a: seq<Id>, id: Id, b: seq<Id>)
    ensures a + ([id] + b) == a + [id] + b
  {
  }

  function AfterClaims(rows: map<Id, Row>, ids: seq<Id>, now: Time): map<Id, Row> {
    map id | id in rows :: if id in ids then ClaimedRow(rows[id], now) else rows[id]
  }

  function ClaimedEvents(rows: map<Id, Row>, ids: seq<Id>): seq<ClaimedEvent>
    requires forall i :: 0 <= i < |ids| ==> ids[i] in rows
  {
    seq(|ids|, i requires 0 <= i < |ids| => ClaimedEvent(ids[i], rows[ids[i]].retryCount))
  }

  class Dispatcher {
    var rows: map<Id, Row>
    var queue: set<Id>

    constructor (rows: map<Id, Row>)
      ensures this.rows == rows && queue == {}
    {
      this.rows, queue := rows, {};
    }

    /** `WITH candidates AS (SELECT … FOR UPDATE SKIP LOCKED LIMIT 200)`, row by row in the order of
        the query. */
    method SelectCandidates(order: seq<Id>, locked: set<Id>, now: Time) returns (ids: seq<Id>)
      requires forall i :: 0 <= i < |order| ==> order[i] in rows
      ensures ids == Chosen(rows, order, locked, now, BATCH)
    {
      ids := [];
      var i := 0;
      ghost var all := Chosen(rows, order, locked, now, BATCH);
      ghost var left := BATCH;
      assert order[0..] == order;
      while i < |order| && |ids| < BATCH
        invariant 0 <= i <= |order| && left == BATCH - |ids| >= 0
        invariant all == ids + Chosen(rows, order[i..], locked, now, left)
      {
        var id := order[i];
        ChosenStep(rows, order, i, locked, now, left);
        if id !in locked && Claimable(rows[id], now) {
          Regroup(ids, id, Chosen(rows, order[i + 1..], locked, now, left - 1));
          ids := ids + [id];
          left := left - 1;
        }
        i := i + 1;
      }
      assert all == ids;
    }

    /** The whole claiming statement: the candidates become PROCESSING under a lease. */
    method ClaimBatch(order: seq<Id>, locked: set<Id>, now: Time) returns (claimed: seq<ClaimedEvent>)
      requires forall i :: 0 <= i < |order| ==> order[i] in rows
      modifies `rows
      ensures rows == AfterClaims(old(rows), Chosen(old(rows), order, locked, now, BATCH), now)
      ensures |claimed| <= 200
      ensures forall id :: id in rows && rows[id] != old(rows)[id] ==> id in order && id !in locked
      ensures forall id :: id in rows && rows[id] != old(rows)[id] ==>
                             var row := old(rows)[id];
                             && row.status in {Pending, Processing} && row.availableAt <= now && row.retryCount < 10
                             && rows[id] == Row(Processing, row.retryCount + 1, now + 60_000)
      ensures forall id :: id in order && id !in locked && |claimed| < 200 ==>
                             var row := old(rows)[id];
                             row.status in {Pending, Processing} && row.availableAt <= now && row.retryCount < 10 ==>
                               rows[id] == Row(Processing, row.retryCount + 1, now + 60_000)
      ensures claimed == ClaimedEvents(rows, Chosen(old(rows), order, locked, now, BATCH))
    {
      var ids := SelectCandidates(order, locked, now);
      ChosenRows(rows, order, locked, now, BATCH);
      rows := map id | id in rows ::
        if id in ids then Row(Processing, rows[id].retryCount + 1, now + LEASE) else rows[id];
      claimed := seq(|ids|, i requires 0 <= i < |ids| && ids[i] in rows reads this =>
        ClaimedEvent(ids[i], rows[ids[i]].retryCount));
    }

    method UpdatePublished(id: Id)
      requires id in rows
      modifies `rows
      ensures rows == old(rows)[id := PublishedRow(old(rows)[id])]
    {
      if rows[id].status == Processing {
        rows := rows[id := rows[id].(status := Published)];
      }
    }

    method UpdateFailed(id: Id, retryCount: nat, now: Time)
      requires id in rows
      modifies `rows
      ensures rows == old(rows)[id := FailedRow(old(rows)[id], retryCount, now)]
    {
      var failed := retryCount >= MAX_CLAIMS;
      if rows[id].status == Processing {
        rows := rows[id := Row(if failed then Failed else Pending, rows[id].retryCount, RetryAt(rows[id], now))];
      }
    }

    /** `publish`: `added` and `marked` say whether the queue and the first update succeed. */
    method Publish(event: ClaimedEvent, now: Time, added: bool, marked: bool)
      requires event.id in rows
      modifies this
      ensures queue == if added then old(queue) + {event.id} else old(queue)
      ensures rows == old(rows)[event.id := if added && marked then PublishedRow(old(rows)[event.id])
                                            else FailedRow(old(rows)[event.id], event.retryCount, now)]
    {
      if added {
        queue := queue + {event.id};
        if marked {
          UpdatePublished(event.id);
        } else {
          UpdateFailed(event.id, event.retryCount, now);
        }
      } else {
        UpdateFailed(event.id, event.retryCount, now);
      }
    }
  }

  /** The claiming statement takes one step of every row: a claim for the chosen, none for the others.
      A claimed event carries the number of its claim. */
  lemma ClaimBatchIsSteps(rows: map<Id, Row>, order: seq<Id>, locked: set<Id>, now: Time, id: Id, e: Event)
    requires (forall i :: 0 <= i < |order| ==> order[i] in rows) && id in rows && e.row == rows[id]
    ensures var ids := Chosen(rows, order, locked, now, BATCH);
            var after := AfterClaims(rows, ids, now);
            && id in after && after[id] == (if id in ids then Next(e, Claim(now)) else e).row
            && forall i :: 0 <= i < |ids| && ids[i] == id ==>
                 ClaimedEvents(after, ids)[i].retryCount in Next(e, Claim(now)).claims
  {
    ChosenRows(rows, order, locked, now, BATCH);
  }

  /** Publishing a claimed row is a run of the steps above: it either enqueues and marks, or fails. */
  function PublishSteps(n: nat, now: Time, added: bool, marked: bool): seq<Step> {
    if !added then [MarkFailed(n, now)]
    else if marked then [Enqueue(n), MarkPublished(n)]
    else [Enqueue(n), MarkFailed(n, now)]
  }

  lemma PublishIsRun(e: Event, n: nat, now: Time, added: bool, marked: bool)
    requires n in e.claims
    ensures Run(e, PublishSteps(n, now, added, marked)).row
         == if added && marked then PublishedRow(e.row) else FailedRow(e.row, n, now)
    ensures n !in Run(e, PublishSteps(n, now, added, marked)).claims
    ensures added ==> Run(e, PublishSteps(n, now, added, marked)).enqueued
  {
    var steps := PublishSteps(n, now, added, marked);
    assert steps[..|steps| - 1] == if added then [Enqueue(n)] else [];
    if added {
      assert Run(e, [Enqueue(n)]) == Next(Run(e, []), Enqueue(n)) by { assert [Enqueue(n)][..0] == []; }
    }
  }
}
