/** What the two keys of a reception promise over every run. */
module IngressLaws {
  import opened Basics
  import opened CanonicalJson
  import opened CanonicalJsonLaws
  import opened Utf16
  import opened Ingress

  // ---------- the keys ----------

  /** Two requests have the same request hash exactly when bodies and content types agree. */
  lemma RequestHashIff(w: World, a: Body, s: Text, b: Body, t: Text)
    requires CollisionFree(w)
    ensures RequestHash(w, a, s) == RequestHash(w, b, t) <==> a == b && s == t
  {
    if RequestHash(w, a, s) == RequestHash(w, b, t) {
      var x, y := RequestObject(w, a, s), RequestObject(w, b, t);
      CanonicalIsPaired(w.le, x);
      CanonicalIsPaired(w.le, y);
      assert StableStringify(w.le, x) + [] == StableStringify(w.le, x);
      assert StableStringify(w.le, y) + [] == StableStringify(w.le, y);
      ValuePrefixFree(w.le, x, y, [], []);
      ArrangedRequest(w, a, s);
      ArrangedRequest(w, b, t);
    }
  }

  lemma ArrangedRequest(w: World, body: Body, contentType: Text)
    ensures var x := Arrange(w.le, RequestObject(w, body, contentType));
            var h, c := Entry(BODY_HASH, String(w.hashBytes(body))), Entry(CONTENT_TYPE, String(contentType));
            x == Object(if w.le(BODY_HASH, CONTENT_TYPE) then [h, c] else [c, h])
  {
    var h, c := Entry(BODY_HASH, String(w.hashBytes(body))), Entry(CONTENT_TYPE, String(contentType));
    var x := RequestObject(w, body, contentType);
    assert [h, c][1..] == [c] && [c][1..] == [];
    assert SortEntries(w.le, [c]) == [c];
    var sorted := if w.le(BODY_HASH, CONTENT_TYPE) then [h, c] else [c, h];
    assert SortEntries(w.le, [h, c]) == InsertEntry(w.le, h, [c]);
    assert InsertEntry(w.le, h, []) == [h];
    assert InsertEntry(w.le, h, [c]) == sorted;
    assert sorted[1..] == [sorted[1]] && sorted[1..][1..] == [];
    assert Arrange(w.le, h.value) == h.value && Arrange(w.le, c.value) == c.value;
    assert ArrangeEntries(w.le, x, sorted[1..][1..]) == [];
    assert ArrangeEntries(w.le, x, sorted[1..]) == [Entry(sorted[1].key, Arrange(w.le, sorted[1].value))];
    assert ArrangeEntries(w.le, x, sorted) ==
             [Entry(sorted[0].key, Arrange(w.le, sorted[0].value))] + ArrangeEntries(w.le, x, sorted[1..]);
    assert ArrangeEntries(w.le, x, sorted) == sorted;
  }

  /** What makes two submissions one event: source event ids that UTF-8 does not tell apart, or, without
      any, the same body. */
  predicate SameSubmission(a: Body, s: Option<Text>, b: Body, t: Option<Text>) {
    (s.None? && t.None? && a == b) || (s.Some? && t.Some? && Repaired(s.value) == Repaired(t.value))
  }

  /** Ids without lone surrogates are the same when they are equal. */
  lemma SameProperSource(a: Body, s: Text, b: Body, t: Text)
    requires WellPaired(s) && WellPaired(t)
    ensures SameSubmission(a, Some(s), b, Some(t)) <==> s == t
  {
  }

  lemma DedupKeyIff(w: World, a: Body, s: Option<Text>, b: Body, t: Option<Text>)
    requires CollisionFree(w)
    ensures DedupKey(w, a, s) == DedupKey(w, b, t) <==> SameSubmission(a, s, b, t)
  {
    var x := RepairedKeyText(w, a, s);
    var y := RepairedKeyText(w, b, t);
    if x == y {
      assert x[0] == (if s.None? then PAYLOAD[0] else SOURCE_EVENT[0]);
      assert y[0] == (if t.None? then PAYLOAD[0] else SOURCE_EVENT[0]);
      assert s.None? <==> t.None?;
      var skip := if s.None? then |PAYLOAD| else |SOURCE_EVENT|;
      assert x[skip..] == if s.None? then w.hashBytes(a) else Repaired(s.value);
      assert y[skip..] == if t.None? then w.hashBytes(b) else Repaired(t.value);
    }
  }

  /** What the digest of a deduplication key sees. */
  lemma RepairedKeyText(w: World, body: Body, source: Option<Text>) returns (r: Text)
    requires CollisionFree(w)
    ensures r == if source.None? then PAYLOAD + w.hashBytes(body) else SOURCE_EVENT + Repaired(source.value)
    ensures r == Repaired(if source.None? then PAYLOAD + w.hashBytes(body) else SOURCE_EVENT + source.value)
  {
    if source.None? {
      PayloadPrefixIsPaired();
      r := PAYLOAD + w.hashBytes(body);
      RepairedAfter(PAYLOAD, w.hashBytes(body));
    } else {
      SourcePrefixIsPaired();
      r := SOURCE_EVENT + Repaired(source.value);
      RepairedAfter(SOURCE_EVENT, source.value);
    }
  }

  lemma PayloadPrefixIsPaired()
    ensures WellPaired(PAYLOAD)
  {
    PlainIsPaired(PAYLOAD);
  }

  lemma SourcePrefixIsPaired()
    ensures WellPaired(SOURCE_EVENT)
  {
    PlainIsPaired(SOURCE_EVENT);
  }

  // ---------- what every step keeps ----------

  /** The raw event that a receipt names. */
  ghost predicate Names(s: State, receipt: Receipt, connector: Id, dedup: Text) {
    Holds(s.raws, connector, dedup, receipt.receiptId) && s.raws[receipt.receiptId].receivedAt == receipt.receivedAt
  }

  function SourceOf(w: World, connector: Id, body: Body, contentType: Text): Option<Text> {
    var i := w.inspect(connector, body, contentType);
    if i.Valid? then i.sourceEventId else None
  }

  function KeyOf(w: World, r: Request): Text {
    DedupKey(w, r.body, SourceOf(w, r.connector, r.body, r.contentType))
  }

  /** A committed record is complete, and its receipt is right for every request it may answer. */
  ghost predicate Recorded(w: World, s: State, connector: Id, record: Record) {
    && record.response.Some?
    && forall body, contentType :: RequestHash(w, body, contentType) == record.requestHash ==>
         Names(s, record.response.value, connector, DedupKey(w, body, SourceOf(w, connector, body, contentType)))
  }

  ghost predicate OneMessageEach(s: State) {
    forall id :: s.messages[id] == if id in s.raws then 1 else 0
  }

  ghost predicate AllRecorded(w: World, s: State) {
    forall slot :: slot in s.records ==> Recorded(w, s, slot.0, s.records[slot])
  }

  ghost predicate Inv(w: World, s: State) {
    UniqueRaws(s.raws) && OneMessageEach(s) && AllRecorded(w, s)
  }

  predicate NewEvent(answer: Answer) {
    answer.Accepted? && !answer.replayed && !answer.receipt.duplicate
  }

  /** The raw events that are there stay, but for their status. */
  ghost predicate Grows(a: State, b: State) {
    forall id :: id in a.raws ==> id in b.raws && a.raws[id].(status := b.raws[id].status) == b.raws[id]
  }

  /** The cases of a reception. */
  lemma ReceptionCases(w: World, s: State, op: Op)
    requires op.Receive?
    ensures var r := op.request;
            var (n, answer) := Reception(w, s, op);
            && n.active == s.active
            && (!answer.Accepted? || answer.replayed ==> n == s)
            && (answer.Accepted? ==> Proper(w, r))
            && (answer.Accepted? && answer.replayed ==>
                  SlotOf(w, r) in s.records && s.records[SlotOf(w, r)].response == Some(answer.receipt)
                  && s.records[SlotOf(w, r)].requestHash == RequestHash(w, r.body, r.contentType))
            && (answer.Accepted? && !answer.replayed ==>
                  var id := answer.receipt.receiptId;
                  var raw := n.raws[id];
                  && n.records == s.records[SlotOf(w, r) :=
                       Record(RequestHash(w, r.body, r.contentType), op.storedAt + DAY, Some(answer.receipt))]
                  && id in n.raws && raw.connector == r.connector && raw.dedup == KeyOf(w, r)
                  && raw.receivedAt == answer.receipt.receivedAt
                  && n.raws == s.raws[id := raw]
                  && (answer.receipt.duplicate ==> id in s.raws && s.raws[id] == raw && n.messages == s.messages)
                  && (!answer.receipt.duplicate ==>
                        id !in s.raws && n.messages == s.messages + multiset{id}
                        && raw == RawEvent(r.connector, KeyOf(w, r), w.hashBytes(r.body), r.receivedAt,
                                           RawEvents.Received)
                        && forall other :: !Holds(s.raws, r.connector, KeyOf(w, r), other)))
  {
  }

  lemma RawsStep(w: World, s: State, op: Op)
    requires UniqueRaws(s.raws) && OneMessageEach(s)
    ensures var n := Next(w, s, op); UniqueRaws(n.raws) && OneMessageEach(n) && Grows(s, n)
  {
    if op.Receive? {
      ReceptionCases(w, s, op);
      var (n, answer) := Reception(w, s, op);
      if NewEvent(answer) {
        var id := answer.receipt.receiptId;
        forall i, j | i in n.raws && j in n.raws && n.raws[i].connector == n.raws[j].connector &&
            n.raws[i].dedup == n.raws[j].dedup
          ensures i == j
        {
          assert i in s.raws ==> !Holds(s.raws, op.request.connector, KeyOf(w, op.request), i);
          assert j in s.raws ==> !Holds(s.raws, op.request.connector, KeyOf(w, op.request), j);
        }
      }
    }
  }

  lemma StaysRecorded(w: World, a: State, b: State, connector: Id, record: Record)
    requires Recorded(w, a, connector, record) && Grows(a, b)
    ensures Recorded(w, b, connector, record)
  {
    forall body, contentType | RequestHash(w, body, contentType) == record.requestHash
      ensures Names(b, record.response.value, connector, DedupKey(w, body, SourceOf(w, connector, body, contentType)))
    {
      assert Names(a, record.response.value, connector, DedupKey(w, body, SourceOf(w, connector, body, contentType)));
    }
  }

  lemma RecordsStep(w: World, s: State, op: Op)
    requires CollisionFree(w) && Inv(w, s)
    ensures AllRecorded(w, Next(w, s, op))
  {
    var n := Next(w, s, op);
    RawsStep(w, s, op);
    if op.Receive? { ReceptionCases(w, s, op); }
    forall slot | slot in n.records ensures Recorded(w, n, slot.0, n.records[slot]) {
      if slot in s.records && n.records[slot] == s.records[slot] {
        StaysRecorded(w, s, n, slot.0, s.records[slot]);
      } else {
        var r := op.request;
        forall body, contentType | RequestHash(w, body, contentType) == n.records[slot].requestHash
          ensures body == r.body && contentType == r.contentType
        {
          RequestHashIff(w, body, contentType, r.body, r.contentType);
        }
      }
    }
  }

  lemma {:induction false} RunKeepsInv(w: World, ops: seq<Op>)
    requires CollisionFree(w)
    ensures Inv(w, Run(w, Empty(), ops))
    decreases |ops|
  {
    if ops != [] {
      var front := ops[..|ops| - 1];
      RunKeepsInv(w, front);
      RawsStep(w, Run(w, Empty(), front), ops[|ops| - 1]);
      RecordsStep(w, Run(w, Empty(), front), ops[|ops| - 1]);
    }
  }

  // ---------- runs ----------

  ghost function AnswerAt(w: World, ops: seq<Op>, i: nat): Answer
    requires i < |ops| && ops[i].Receive?
  {
    Reception(w, Run(w, Empty(), ops[..i]), ops[i]).1
  }

  lemma {:induction false} RunGrows(w: World, ops: seq<Op>, k: nat)
    requires CollisionFree(w) && k <= |ops|
    ensures Grows(Run(w, Empty(), ops[..k]), Run(w, Empty(), ops))
    decreases |ops|
  {
    if k == |ops| {
      assert ops[..k] == ops;
    } else {
      var front := ops[..|ops| - 1];
      assert front[..k] == ops[..k];
      RunGrows(w, front, k);
      RunKeepsInv(w, front);
      RawsStep(w, Run(w, Empty(), front), ops[|ops| - 1]);
    }
  }

  /** Every receipt, replayed or not, names for ever after the raw event that has its request's
      deduplication key, which has exactly one message. */
  lemma ReceiptNamesItsEvent(w: World, ops: seq<Op>, i: nat)
    requires CollisionFree(w) && i < |ops| && ops[i].Receive? && AnswerAt(w, ops, i).Accepted?
    ensures var s := Run(w, Empty(), ops);
            Names(s, AnswerAt(w, ops, i).receipt, ops[i].request.connector, KeyOf(w, ops[i].request))
            && s.messages[AnswerAt(w, ops, i).receipt.receiptId] == 1
  {
    var before := Run(w, Empty(), ops[..i]);
    var after := Run(w, Empty(), ops[..i + 1]);
    assert ops[..i + 1][..i] == ops[..i];
    RunKeepsInv(w, ops[..i]);
    RunKeepsInv(w, ops);
    ReceptionCases(w, before, ops[i]);
    var r := ops[i].request;
    if AnswerAt(w, ops, i).replayed {
      assert Recorded(w, before, r.connector, before.records[SlotOf(w, r)]);
      assert RequestHash(w, r.body, r.contentType) == before.records[SlotOf(w, r)].requestHash;
    }
    assert Names(after, AnswerAt(w, ops, i).receipt, r.connector, KeyOf(w, r));
    RunGrows(w, ops, i + 1);
  }

  /** Two receipts of a run name one raw event exactly when the requests came through one connector
      and are one submission, whatever idempotency keys, replays and expiries lie between. */
  lemma SameEventIffSameSubmission(w: World, ops: seq<Op>, i: nat, j: nat)
    requires CollisionFree(w) && i < |ops| && j < |ops| && ops[i].Receive? && ops[j].Receive?
    requires AnswerAt(w, ops, i).Accepted? && AnswerAt(w, ops, j).Accepted?
    ensures var a, b := ops[i].request, ops[j].request;
            AnswerAt(w, ops, i).receipt.receiptId == AnswerAt(w, ops, j).receipt.receiptId <==>
            a.connector == b.connector
            && SameSubmission(a.body, SourceOf(w, a.connector, a.body, a.contentType), b.body,
                 SourceOf(w, b.connector, b.body, b.contentType))
  {
    var a, b := ops[i].request, ops[j].request;
    ReceiptNamesItsEvent(w, ops, i);
    ReceiptNamesItsEvent(w, ops, j);
    RunKeepsInv(w, ops);
    DedupKeyIff(w, a.body, SourceOf(w, a.connector, a.body, a.contentType), b.body,
        SourceOf(w, b.connector, b.body, b.contentType));
  }

  /** How many receptions of a run were answered as new events. */
  ghost function NewEvents(w: World, ops: seq<Op>): nat
    decreases |ops|
  {
    if ops == [] then 0
    else
      var last := |ops| - 1;
      NewEvents(w, ops[..last]) + if ops[last].Receive? && NewEvent(AnswerAt(w, ops, last)) then 1 else 0
  }

  /** Every raw event, and every message, was answered as new exactly once. */
  lemma {:induction false} NothingGainedOrLost(w: World, ops: seq<Op>)
    ensures |Run(w, Empty(), ops).raws| == NewEvents(w, ops) == |Run(w, Empty(), ops).messages|
    decreases |ops|
  {
    if ops != [] {
      var front, op := ops[..|ops| - 1], ops[|ops| - 1];
      NothingGainedOrLost(w, front);
      OneForOne(w, Run(w, Empty(), front), op);
    }
  }

  lemma OneForOne(w: World, s: State, op: Op)
    ensures var n := Next(w, s, op);
            var gained := if op.Receive? && NewEvent(Reception(w, s, op).1) then 1 else 0;
            |n.raws| == |s.raws| + gained && |n.messages| == |s.messages| + gained
  {
    var n := Next(w, s, op);
    assert |n.raws.Keys| == |n.raws| && |s.raws.Keys| == |s.raws|;
    if op.Receive? {
      ReceptionCases(w, s, op);
      var answer := Reception(w, s, op).1;
      if NewEvent(answer) {
        assert n.raws.Keys == s.raws.Keys + {answer.receipt.receiptId};
      } else {
        assert n.raws == s.raws;
      }
    } else {
      assert n.raws.Keys == s.raws.Keys;
    }
  }

  /** Until a record expires, every look-up of its slot comes in time. */
  ghost predicate InTime(w: World, ops: seq<Op>, slot: Slot, until: Time) {
    forall i :: 0 <= i < |ops| && ops[i].Receive? && SlotOf(w, ops[i].request) == slot ==> ops[i].lookedUpAt < until
  }

  lemma {:induction false} RecordStays(w: World, s: State, ops: seq<Op>, slot: Slot)
    requires slot in s.records && InTime(w, ops, slot, s.records[slot].expiresAt)
    ensures slot in Run(w, s, ops).records && Run(w, s, ops).records[slot] == s.records[slot]
    decreases |ops|
  {
    if ops != [] {
      var front, op := ops[..|ops| - 1], ops[|ops| - 1];
      assert forall i :: 0 <= i < |front| ==> front[i] == ops[i];
      RecordStays(w, s, front, slot);
      if op.Receive? { ReceptionCases(w, Run(w, s, front), op); }
    }
  }

  /** Within a day of the first answer, and whatever happens in between, the same idempotency key
      gives that answer again for the same request, and a conflict for every other. */
  lemma KeyReplaysFirstAnswer(w: World, s: State, first: Op, ops: seq<Op>, again: Op)
    requires CollisionFree(w) && first.Receive? && again.Receive?
    requires Reception(w, s, first).1.Accepted? && !Reception(w, s, first).1.replayed
    requires Proper(w, again.request) && SlotOf(w, again.request) == SlotOf(w, first.request)
    requires InTime(w, ops, SlotOf(w, first.request), first.storedAt + 86_400_000)
    requires again.lookedUpAt < first.storedAt + 86_400_000
    ensures Reception(w, Run(w, Next(w, s, first), ops), again)
         == (Run(w, Next(w, s, first), ops),
             if again.request.body == first.request.body && again.request.contentType == first.request.contentType
             then Accepted(true, Reception(w, s, first).1.receipt)
             else KeyConflict)
  {
    ReceptionCases(w, s, first);
    RecordStays(w, Next(w, s, first), ops, SlotOf(w, first.request));
    RequestHashIff(w, first.request.body, first.request.contentType, again.request.body, again.request.contentType);
  }

  /** A record that has run out is as good as none. */
  lemma RunOutIsUnused(w: World, t: State, again: Op)
    requires again.Receive? && SlotOf(w, again.request) in t.records
    requires t.records[SlotOf(w, again.request)].expiresAt <= again.lookedUpAt
    ensures var unused := t.(records := t.records - {SlotOf(w, again.request)});
            && Reception(w, t, again).1 == Reception(w, unused, again).1
            && Reception(w, t, again).0.raws == Reception(w, unused, again).0.raws
  {
  }

  lemma RunOutIsReceived(w: World, t: State, again: Op)
    requires again.Receive? && SlotOf(w, again.request) in t.records
    requires t.records[SlotOf(w, again.request)].expiresAt <= again.lookedUpAt
    requires Proper(w, again.request) && again.request.connector in t.active && again.newId !in t.raws
    ensures Reception(w, t, again).1.Accepted? && !Reception(w, t, again).1.replayed
  {
    ProperCases(w, t, again);
  }

  /** A day after its answer the key is free again: the next request with it, whatever it is, is received
      as if the key had never been used. */
  lemma KeyRunsOut(w: World, s: State, first: Op, ops: seq<Op>, again: Op)
    requires first.Receive? && again.Receive?
    requires Reception(w, s, first).1.Accepted? && !Reception(w, s, first).1.replayed
    requires SlotOf(w, again.request) == SlotOf(w, first.request)
    requires InTime(w, ops, SlotOf(w, first.request), first.storedAt + 86_400_000)
    requires again.lookedUpAt >= first.storedAt + 86_400_000
    ensures var t := Run(w, Next(w, s, first), ops);
            var unused := t.(records := t.records - {SlotOf(w, first.request)});
            && Reception(w, t, again).1 == Reception(w, unused, again).1
            && Reception(w, t, again).0.raws == Reception(w, unused, again).0.raws
            && (Proper(w, again.request) && again.request.connector in t.active && again.newId !in t.raws ==>
                  Reception(w, t, again).1.Accepted? && !Reception(w, t, again).1.replayed)
  {
    ReceptionCases(w, s, first);
    RecordStays(w, Next(w, s, first), ops, SlotOf(w, first.request));
    var t := Run(w, Next(w, s, first), ops);
    RunOutIsUnused(w, t, again);
    if Proper(w, again.request) && again.request.connector in t.active && again.newId !in t.raws {
      RunOutIsReceived(w, t, again);
    }
  }

  /** The key of the request has a record that has not run out when it is looked up. */
  predicate KeyTaken(w: World, s: State, op: Op)
    requires op.Receive?
  {
    var slot := (op.request.connector, w.hashKey(op.request.key));
    slot in s.records && s.records[slot].expiresAt > op.lookedUpAt
  }

  /** Which answer a request gets: validation failed, for a size or a content that will not do;
      authentication failed, for its credentials, or, unless its key is taken, for an inactive
      connector; with a key that is taken, a conflict or the answer of then; and else a receipt. */
  lemma AnsweredIff(w: World, s: State, op: Op)
    requires op.Receive? && op.newId !in s.raws
    ensures var r, (n, answer) := op.request, Reception(w, s, op);
            var sized := 1 <= |r.body| <= 1_048_576;
            var readable := w.inspect(r.connector, r.body, r.contentType).Valid?;
            var fine, taken := sized && r.authentic && readable, KeyTaken(w, s, op);
            var record := if taken then Some(s.records[(r.connector, w.hashKey(r.key))]) else None;
            var same := taken && record.value.requestHash == RequestHash(w, r.body, r.contentType);
            && (answer.ValidationFailed? <==> !sized || (r.authentic && !readable))
            && (answer.AuthenticationFailed? <==>
                  sized && (!r.authentic || (fine && !taken && r.connector !in s.active)))
            && (answer.KeyConflict? <==> fine && taken && !same)
            && (answer.Accepted? && answer.replayed <==> fine && same && record.value.response.Some?)
            && (answer.Accepted? && answer.replayed ==> record.value.response == Some(answer.receipt))
            && (answer.Accepted? && !answer.replayed <==> fine && !taken && r.connector in s.active)
            && (answer.Accepted? && !answer.replayed ==>
                  && answer.receipt.receiptId in n.raws
                  && answer.receipt.status == n.raws[answer.receipt.receiptId].status
                  && (answer.receipt.duplicate <==> answer.receipt.receiptId in s.raws))
  {
  }

  predicate Moves(op: Op, id: Id) {
    op.Progress? && op.raw == id
  }

  predicate IsLastMove(ops: seq<Op>, j: int, id: Id) {
    0 <= j < |ops| && Moves(ops[j], id) && forall m :: j < m < |ops| ==> !Moves(ops[m], id)
  }

  /** Every raw event was made by one reception of the run, from its request, and keeps what it was made
      of; its status is RECEIVED until the worker moves it on. */
  lemma {:induction false} RawEventHasOrigin(w: World, ops: seq<Op>, id: Id) returns (k: nat)
    requires id in Run(w, Empty(), ops).raws
    ensures k < |ops| && ops[k].Receive? && NewEvent(AnswerAt(w, ops, k))
    ensures AnswerAt(w, ops, k).receipt.receiptId == id
    ensures var raw, r := Run(w, Empty(), ops).raws[id], ops[k].request;
            && raw.(status := RawEvents.Received)
               == RawEvent(r.connector, KeyOf(w, r), w.hashBytes(r.body), r.receivedAt, RawEvents.Received)
            && ((forall j :: k < j < |ops| ==> !Moves(ops[j], id)) ==> raw.status == RawEvents.Received)
    decreases |ops|
  {
    var n := |ops| - 1;
    var s := Run(w, Empty(), ops[..n]);
    if ops[n].Receive? { ReceptionCases(w, s, ops[n]); }
    if id in s.raws {
      k := RawEventHasOrigin(w, ops[..n], id);
      assert ops[..n][k] == ops[k] && ops[..n][..k] == ops[..k];
    } else {
      k := n;
    }
  }

  lemma StatusStep(w: World, s: State, op: Op, id: Id)
    requires id in s.raws
    ensures id in Next(w, s, op).raws
    ensures Next(w, s, op).raws[id].status == if Moves(op, id) then op.status else s.raws[id].status
  {
    if op.Receive? { ReceptionCases(w, s, op); }
  }

  /** And then it is what the worker last made it. */
  lemma {:induction false} StatusIsLastMove(w: World, ops: seq<Op>, j: nat, id: Id)
    requires IsLastMove(ops, j, id) && id in Run(w, Empty(), ops[..j]).raws
    ensures id in Run(w, Empty(), ops).raws && Run(w, Empty(), ops).raws[id].status == ops[j].status
    decreases |ops|
  {
    var n := |ops| - 1;
    var front := ops[..n];
    if j < n {
      assert front[..j] == ops[..j] && front[j] == ops[j];
      StatusIsLastMove(w, front, j, id);
    }
    StatusStep(w, Run(w, Empty(), front), ops[n], id);
  }

  /** A request is told that its key is taken, or still in use, only if another request with that
      key was answered before; it is never told to wait for one that is still processing. */
  lemma ConflictHasCause(w: World, ops: seq<Op>, i: nat)
    requires CollisionFree(w) && i < |ops| && ops[i].Receive?
    ensures AnswerAt(w, ops, i) != StillProcessing
    ensures AnswerAt(w, ops, i) == KeyConflict ==>
              exists k :: 0 <= k < i && ops[k].Receive? && ops[k].request.key == ops[i].request.key
                          && ops[k].request.connector == ops[i].request.connector
                          && (ops[k].request.body != ops[i].request.body
                              || ops[k].request.contentType != ops[i].request.contentType)
                          && AnswerAt(w, ops, k).Accepted?
  {
    var before := Run(w, Empty(), ops[..i]);
    RunKeepsInv(w, ops[..i]);
    var r := ops[i].request;
    if SlotOf(w, r) in before.records { assert Recorded(w, before, r.connector, before.records[SlotOf(w, r)]); }
    if AnswerAt(w, ops, i) == KeyConflict {
      var k := RecordHasCause(w, ops[..i], SlotOf(w, r));
      assert ops[..i][k] == ops[k] && ops[..i][..k] == ops[..k];
    }
  }

  lemma {:induction false} RecordHasCause(w: World, ops: seq<Op>, slot: Slot) returns (k: nat)
    requires slot in Run(w, Empty(), ops).records
    ensures k < |ops| && ops[k].Receive? && SlotOf(w, ops[k].request) == slot && AnswerAt(w, ops, k).Accepted?
    ensures Run(w, Empty(), ops).records[slot].requestHash ==
              RequestHash(w, ops[k].request.body, ops[k].request.contentType)
    decreases |ops|
  {
    var front, op := ops[..|ops| - 1], ops[|ops| - 1];
    var s := Run(w, Empty(), front);
    if op.Receive? { ReceptionCases(w, s, op); }
    if slot in s.records && s.records[slot] == Run(w, Empty(), ops).records[slot] {
      k := RecordHasCause(w, front, slot);
      assert front[k] == ops[k] && front[..k] == ops[..k];
    } else {
      k := |ops| - 1;
    }
  }
}
