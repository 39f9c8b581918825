/** The reception of events: an idempotency record for each connector and key, and one raw event for
    each connector and deduplication key. Both are read and written under advisory locks held to
    the end of the transaction, so a reception is one step. */
module Ingress {
  import opened Basics
  import opened CanonicalJson
  import opened Utf16
  import RawEvents

  type Id = nat
  type Time = int
  type Body = seq<bv8>

  /** What inspectIngressPayload finds in a body under a content type. */
  datatype Inspection = Malformed | Valid(sourceEventId: Option<Text>)

  /** The functions whose inner workings do not matter here: the digests, the inspection of a
      connector's payloads, and localeCompare. */
  datatype World = World(
    hashBytes: Body -> Text,
    hashText: Text -> Text,
    hashKey: Text -> Text,
    inspect: (Id, Body, Text) -> Inspection,
    le: KeyOrder)

  /** No two inputs ever met share a digest. A text is digested as UTF-8; a digest is hexadecimal. */
  ghost predicate CollisionFree(w: World) {
    && (forall a, b :: w.hashBytes(a) == w.hashBytes(b) ==> a == b)
    && (forall a :: WellPaired(w.hashBytes(a)))
    && (forall a, b :: w.hashText(a) == w.hashText(b) <==> Repaired(a) == Repaired(b))
    && (forall a, b :: w.hashKey(a) == w.hashKey(b) ==> a == b)
  }

  /** A request with the outcome of its signature or API key check. */
  datatype Request = Request(connector: Id, body: Body, contentType: Text, key: Text, authentic: bool, receivedAt: Time)

  datatype RawEvent = RawEvent(connector: Id, dedup: Text, payloadHash: Text, receivedAt: Time,
      status: RawEvents.Status)

  datatype Receipt = Receipt(receiptId: Id, duplicate: bool, receivedAt: Time, status: RawEvents.Status)

  /** An idempotency record; without a response it is still PROCESSING. */
  datatype Record = Record(requestHash: Text, expiresAt: Time, response: Option<Receipt>)

  /** The scope and the hash of an idempotency key. */
  type Slot = (Id, Text)

  datatype State = State(
    active: set<Id>,
    raws: map<Id, RawEvent>,
    messages: multiset<Id>,
    records: map<Slot, Record>)

  datatype Answer =
    | Accepted(replayed: bool, receipt: Receipt)
    | ValidationFailed
    | AuthenticationFailed
    | KeyConflict
    | StillProcessing

  datatype Op =
    | Receive(request: Request, newId: Id, lookedUpAt: Time, storedAt: Time)
    | SetActive(connector: Id, active: bool)
    | Progress(raw: Id, status: RawEvents.Status)

  const MAX_BODY := 1_048_576
  const DAY: Time := 24 * 60 * 60_000
  const PAYLOAD: Text := [0x70, 0x61, 0x79, 0x6C, 0x6F, 0x61, 0x64, 0x3A]
  const SOURCE_EVENT: Text := [0x73, 0x6F, 0x75, 0x72, 0x63, 0x65, 0x2D, 0x65, 0x76, 0x65, 0x6E, 0x74, 0x3A]
  const BODY_HASH: Text := [0x62, 0x6F, 0x64, 0x79, 0x48, 0x61, 0x73, 0x68]
  const CONTENT_TYPE: Text := [0x63, 0x6F, 0x6E, 0x74, 0x65, 0x6E, 0x74, 0x54, 0x79, 0x70, 0x65]

  function Empty(): State {
    State({}, map[], multiset{}, map[])
  }

  // ---------- the two keys of a request ----------

  function DedupKey(w: World, body: Body, source: Option<Text>): Text {
    w.hashText(if source.None? then PAYLOAD + w.hashBytes(body) else SOURCE_EVENT + source.value)
  }

  function RequestObject(w: World, body: Body, contentType: Text): Json {
    Object([Entry(BODY_HASH, String(w.hashBytes(body))), Entry(CONTENT_TYPE, String(contentType))])
  }

  function RequestHash(w: World, body: Body, contentType: Text): Text {
    w.hashText(StableStringify(w.le, RequestObject(w, body, contentType)))
  }

  // ---------- one reception ----------

  ghost predicate Holds(raws: map<Id, RawEvent>, connector: Id, dedup: Text, id: Id) {
    id in raws && raws[id].connector == connector && raws[id].dedup == dedup
  }

  ghost function Find(raws: map<Id, RawEvent>, connector: Id, dedup: Text): (r: Option<Id>)
    ensures r.Some? ==> Holds(raws, connector, dedup, r.value)
    ensures r.None? ==> forall id :: !Holds(raws, connector, dedup, id)
  {
    if id :| Holds(raws, connector, dedup, id) then Some(id) else None
  }

  function SlotOf(w: World, r: Request): Slot {
    (r.connector, w.hashKey(r.key))
  }

  predicate Expired(record: Record, now: Time) {
    record.expiresAt <= now
  }

  predicate Proper(w: World, r: Request) {
    1 <= |r.body| <= MAX_BODY && r.authentic && w.inspect(r.connector, r.body, r.contentType).Valid?
  }

  /** The record that an unexpired idempotency key has left. */
  function Lookup(s: State, slot: Slot, now: Time): Option<Record> {
    if slot in s.records && !Expired(s.records[slot], now) then Some(s.records[slot]) else None
  }

  /** The tables and receipt of a first or duplicate reception; `id` is that of its raw event. */
  function Stored(w: World, s: State, r: Request, id: Id, isNew: bool, storedAt: Time): (State, Receipt)
    requires w.inspect(r.connector, r.body, r.contentType).Valid? && (!isNew ==> id in s.raws)
  {
    var source := w.inspect(r.connector, r.body, r.contentType).sourceEventId;
    var raw :=
      if isNew then
        RawEvent(r.connector, DedupKey(w, r.body, source), w.hashBytes(r.body), r.receivedAt, RawEvents.Received)
      else s.raws[id];
    var receipt := Receipt(id, !isNew, raw.receivedAt, raw.status);
    (s.(raws := if isNew then s.raws[id := raw] else s.raws,
        messages := if isNew then s.messages + multiset{id} else s.messages,
        records := s.records[SlotOf(w, r) :=
            Record(RequestHash(w, r.body, r.contentType), storedAt + DAY, Some(receipt))]),
     receipt)
  }

  ghost function Reception(w: World, s: State, op: Op): (State, Answer)
    requires op.Receive?
  {
    var r := op.request;
    if !(1 <= |r.body| <= MAX_BODY) then (s, ValidationFailed)
    else if !r.authentic then (s, AuthenticationFailed)
    else if w.inspect(r.connector, r.body, r.contentType).Malformed? then (s, ValidationFailed)
    else
      var found := Lookup(s, SlotOf(w, r), op.lookedUpAt);
      if found.Some? then
        (s, if found.value.requestHash != RequestHash(w, r.body, r.contentType) then KeyConflict
            else if found.value.response.None? then StillProcessing
            else Accepted(true, found.value.response.value))
      else if r.connector !in s.active then (s, AuthenticationFailed)
      else
        var existing := Find(s.raws, r.connector,
            DedupKey(w, r.body, w.inspect(r.connector, r.body, r.contentType).sourceEventId));
        if existing.None? && op.newId in s.raws then (s, ValidationFailed)
        else
          var id := if existing.Some? then existing.value else op.newId;
          var stored := Stored(w, s, r, id, existing.None?, op.storedAt);
          (stored.0, Accepted(false, stored.1))
  }

  ghost function Next(w: World, s: State, op: Op): State {
    match op
    case Receive(_, _, _, _) => Reception(w, s, op).0
    case SetActive(connector, active) => s.(active := if active then s.active + {connector} else s.active - {connector})
    case Progress(raw, status) => if raw in s.raws then s.(raws := s.raws[raw := s.raws[raw].(status := status)]) else s
  }

  ghost function Run(w: World, s: State, ops: seq<Op>): State
    decreases |ops|
  {
    if ops == [] then s else Next(w, Run(w, s, ops[..|ops| - 1]), ops[|ops| - 1])
  }

  /** What the tables decide of a request that reaches them. */
  lemma ProperCases(w: World, s: State, op: Op)
    requires op.Receive? && Proper(w, op.request) && op.newId !in s.raws
    ensures var r := op.request;
            var found := Lookup(s, SlotOf(w, r), op.lookedUpAt);
            var dedup := DedupKey(w, r.body, w.inspect(r.connector, r.body, r.contentType).sourceEventId);
            var existing := Find(s.raws, r.connector, dedup);
            var id := if existing.Some? then existing.value else op.newId;
            && (found.Some? ==> Reception(w, s, op).0 == s)
            && (found.Some? && found.value.requestHash != RequestHash(w, r.body, r.contentType) ==>
                  Reception(w, s, op).1 == KeyConflict)
            && (found.Some? && found.value.requestHash == RequestHash(w, r.body, r.contentType) ==>
                  Reception(w, s, op).1 == if found.value.response.None? then StillProcessing
                                           else Accepted(true, found.value.response.value))
            && (found.None? && r.connector !in s.active ==> Reception(w, s, op) == (s, AuthenticationFailed))
            && (found.None? && r.connector in s.active ==>
                  var stored := Stored(w, s, r, id, existing.None?, op.storedAt);
                  Reception(w, s, op) == (stored.0, Accepted(false, stored.1)))
  {
  }

  // ---------- the repository ----------

  ghost predicate UniqueRaws(raws: map<Id, RawEvent>) {
    forall i, j :: i in raws && j in raws && raws[i].connector == raws[j].connector &&
                   raws[i].dedup == raws[j].dedup ==>
      i == j
  }

  lemma PutTwice(saved: map<Slot, Record>, records: map<Slot, Record>, slot: Slot, a: Record, b: Record)
    requires records == saved[slot := a] || records == (saved - {slot})[slot := a]
    ensures records[slot := b] == saved[slot := b]
  {
  }

  class ResourceRepository {
    var active: set<Id>
    var raws: map<Id, RawEvent>
    var messages: multiset<Id>
    var records: map<Slot, Record>

    ghost function Tables(): State
      reads this
    {
      State(active, raws, messages, records)
    }

    constructor ()
      ensures Tables() == Empty()
    {
      active, raws, messages, records := {}, map[], multiset{}, map[];
    }

    /** The operation that recordIngress runs under the idempotency record. Without a receipt it
        throws. */
    method Ingest(connector: Id, dedup: Text, payloadHash: Text, newId: Id, receivedAt: Time)
        returns (receipt: Option<Receipt>)
      requires UniqueRaws(raws) && newId !in raws
      modifies `raws, `messages
      ensures receipt.None? <==> connector !in active
      ensures receipt.None? ==> raws == old(raws) && messages == old(messages)
      ensures receipt.Some? ==>
                var existing := Find(old(raws), connector, dedup);
                if existing.Some? then
                  raws == old(raws) && messages == old(messages)
                  && receipt.value ==
                       Receipt(existing.value, true, raws[existing.value].receivedAt, raws[existing.value].status)
                else
                  raws == old(raws)[newId := RawEvent(connector, dedup, payloadHash, receivedAt, RawEvents.Received)]
                  && messages == old(messages) + multiset{newId}
                  && receipt.value == Receipt(newId, false, receivedAt, RawEvents.Received)
    {
      if connector !in active {
        return None;
      }
      if id :| id in raws && raws[id].connector == connector && raws[id].dedup == dedup {
        assert Holds(raws, connector, dedup, id);
        return Some(Receipt(id, true, raws[id].receivedAt, raws[id].status));
      }
      assert forall id :: !Holds(raws, connector, dedup, id);
      raws := raws[newId := RawEvent(connector, dedup, payloadHash, receivedAt, RawEvents.Received)];
      messages := messages + multiset{newId};
      return Some(Receipt(newId, false, receivedAt, RawEvents.Received));
    }

    /** `idempotent` around the operation above: the look-up, then the rest. */
    method RecordIngress(
        w: World, r: Request, source: Option<Text>, newId: Id, lookedUpAt: Time, storedAt: Time)
      returns (answer: Answer)
      requires Proper(w, r) && source == w.inspect(r.connector, r.body, r.contentType).sourceEventId
      requires UniqueRaws(raws) && newId !in raws
      modifies this
      ensures (Tables(), answer) == Reception(w, old(Tables()), Receive(r, newId, lookedUpAt, storedAt))
    {
      ghost var before := Tables();
      ProperCases(w, before, Receive(r, newId, lookedUpAt, storedAt));
      var slot := SlotOf(w, r);
      var hash := RequestHash(w, r.body, r.contentType);
      var saved := records;
      if slot in records && records[slot].expiresAt <= lookedUpAt {
        records := records - {slot};
      }
      if slot in records {
        if records[slot].requestHash != hash {
          return KeyConflict;
        }
        if records[slot].response.None? {
          return StillProcessing;
        }
        return Accepted(true, records[slot].response.value);
      }
      answer := Perform(w, r, source, newId, storedAt, saved);
    }

    /** A record is made, the operation runs, and the record is completed. If the operation throws, the
        last assignment rolls back that record and the deletion of an expired one. */
    method Perform(
        w: World, r: Request, source: Option<Text>, newId: Id, storedAt: Time, saved: map<Slot, Record>)
      returns (answer: Answer)
      requires Proper(w, r) && source == w.inspect(r.connector, r.body, r.contentType).sourceEventId
      requires UniqueRaws(raws) && newId !in raws
      requires records == saved || records == saved - {SlotOf(w, r)}
      modifies this
      ensures r.connector !in active ==> Tables() == old(Tables()).(records := saved) && answer == AuthenticationFailed
      ensures r.connector in active ==>
                var s, existing := old(Tables()).(records := saved),
                    Find(old(raws), r.connector, DedupKey(w, r.body, source));
                var id := if existing.Some? then existing.value else newId;
                var stored := Stored(w, s, r, id, existing.None?, storedAt);
                Tables() == stored.0 && answer == Accepted(false, stored.1)
    {
      var slot, hash := SlotOf(w, r), RequestHash(w, r.body, r.contentType);
      records := records[slot := Record(hash, storedAt + DAY, None)];
      var receipt := Ingest(r.connector, DedupKey(w, r.body, source), w.hashBytes(r.body), newId, r.receivedAt);
      if receipt.None? {
        records := saved;
        return AuthenticationFailed;
      }
      PutTwice(saved, records, slot, Record(hash, storedAt + DAY, None), Record(hash, storedAt + DAY, receipt));
      records := records[slot := records[slot].(response := receipt)];
      return Accepted(false, receipt.value);
    }

    /** The rest of receiveIngress: what it refuses before it reaches the tables. */
    method ReceiveIngress(w: World, r: Request, newId: Id, lookedUpAt: Time, storedAt: Time) returns (answer: Answer)
      requires UniqueRaws(raws) && newId !in raws
      modifies this
      ensures (Tables(), answer) == Reception(w, old(Tables()), Receive(r, newId, lookedUpAt, storedAt))
    {
      if |r.body| == 0 || |r.body| > MAX_BODY {
        return ValidationFailed;
      }
      if !r.authentic {
        return AuthenticationFailed;
      }
      var inspected := w.inspect(r.connector, r.body, r.contentType);
      if inspected.Malformed? {
        return ValidationFailed;
      }
      answer := RecordIngress(w, r, inspected.sourceEventId, newId, lookedUpAt, storedAt);
    }
  }
}
