/** What holds of a raw event and its rows over every run of deliveries and late marks. */
module RawEventsLaws {
  import opened Basics
  import opened RawEvents

  ghost predicate Complete(s: State) {
    s.rows.Keys == Indices(s.recordCount) && s.batches == [s.recordCount]
  }

  predicate Untouched(s: State) {
    s.rows == map[] && s.batches == []
  }

  ghost predicate Inv(s: State) {
    && s.recordCount >= 1
    && s.status in {Received, Normalized, Rejected, Failed}
    && (if s.status.Normalized? then Complete(s) else Untouched(s))
    && s.retryCount == (if s.status.Normalized? then 1 else 0)
    && (s.rejectionCode.Some? <==> s.status.Rejected?)
  }

  lemma {:induction false} JudgedLength(items: seq<Candidate>)
    ensures Judge(items).Normalizes? <==> forall i :: 0 <= i < |items| ==> items[i].Accepted?
    ensures Judge(items).Normalizes? ==>
              |Judge(items).values| == |items|
              && forall i :: 0 <= i < |items| ==> items[i] == Accepted(Judge(items).values[i])
  {
    if items != [] {
      JudgedLength(items[1..]);
      assert forall i :: 0 < i < |items| ==> items[i] == items[1..][i - 1];
    }
  }

  lemma VerdictLength(s: State, d: Delivery)
    ensures VerdictOn(s, d).Normalizes? ==>
              |VerdictOn(s, d).values| == s.recordCount && s.status !in {Normalized, Rejected}
              && Deserves(d.payload, s.recordCount) == VerdictOn(s, d)
  {
    if d.payload.Candidates? { JudgedLength(d.payload.items); }
  }

  lemma StepKeepsInv(s: State, op: Op)
    requires Inv(s)
    ensures Inv(Next(s, op))
    ensures Next(s, op).connector == s.connector && Next(s, op).recordCount == s.recordCount
    ensures s.status.Normalized? ==> Next(s, op) == s.(marks := Next(s, op).marks)
    ensures s.status.Rejected? ==> Next(s, op).status.Rejected?
  {
    if op.Deliver? {
      VerdictLength(s, op.delivery);
      var n := Next(s, op);
      if VerdictOn(s, op.delivery).Normalizes? {
        assert n.rows.Keys == Indices(s.recordCount);
        assert n.batches == [s.recordCount];
      }
    }
  }

  lemma {:induction false} RunKeepsInv(s: State, ops: seq<Op>)
    requires Inv(s)
    ensures Inv(Run(s, ops))
    ensures Run(s, ops).connector == s.connector && Run(s, ops).recordCount == s.recordCount
    ensures s.status.Normalized? ==> Run(s, ops) == s.(marks := Run(s, ops).marks)
    ensures s.status.Rejected? ==> Run(s, ops).status.Rejected?
    decreases |ops|
  {
    if ops != [] {
      RunKeepsInv(s, ops[..|ops| - 1]);
      StepKeepsInv(Run(s, ops[..|ops| - 1]), ops[|ops| - 1]);
    }
  }

  /** Whatever is delivered, retried or marked late: NORMALIZED goes with exactly the rows 0 to
      record_count - 1 and one batch message, every other status with neither; PROCESSING is never
      committed; the retry counter, rolled back with every failure, counts no retry; and NORMALIZED,
      with all its rows, and REJECTED are final. */
  lemma EveryRun(connector: Id, recordCount: nat, ops: seq<Op>, more: seq<Op>)
    requires recordCount >= 1
    ensures var s := Run(NewEvent(connector, recordCount), ops);
            && (s.status.Normalized? <==> s.rows.Keys == Indices(recordCount))
            && (s.status.Normalized? <==> s.batches == [recordCount])
            && (!s.status.Normalized? ==> s.rows == map[] && s.batches == [])
            && !s.status.Processing? && s.retryCount == (if s.status.Normalized? then 1 else 0)
            && (s.status.Normalized? ==> Run(s, more) == s.(marks := Run(s, more).marks))
            && (s.status.Rejected? ==> Run(s, more).status.Rejected? && Run(s, more).rows == map[])
  {
    var s := Run(NewEvent(connector, recordCount), ops);
    RunKeepsInv(NewEvent(connector, recordCount), ops);
    RunKeepsInv(s, more);
    assert 0 in Indices(recordCount);
  }

  /** Every delivery reads the payload that was stored with the row. */
  predicate SamePayload(ops: seq<Op>, payload: Payload) {
    forall i :: 0 <= i < |ops| && ops[i].Deliver? ==> ops[i].delivery.payload == payload
  }

  /** The first refusal among the candidates. */
  predicate FirstRefusal(items: seq<Candidate>, i: int, code: Code) {
    0 <= i < |items| && items[i] == Refused(code) && forall j :: 0 <= j < i ==> items[j].Accepted?
  }

  /** The payload is malformed with this code, has not as many candidates as were counted at its
      reception, or has one that is refused with this code before any other. */
  ghost predicate RejectedFor(payload: Payload, recordCount: nat, code: Code) {
    match payload
    case Unreadable => false
    case Malformed(c) => c == code
    case Candidates(items) =>
      if |items| != recordCount then code == "payload_limits_exceeded" else exists i :: FirstRefusal(items, i, code)
  }

  /** The payload has as many candidates as were counted, all acceptable, with these values. */
  predicate AcceptedAs(payload: Payload, recordCount: nat, values: seq<Value>) {
    && payload.Candidates? && |payload.items| == recordCount == |values|
    && forall i :: 0 <= i < recordCount ==> payload.items[i] == Candidate.Accepted(values[i])
  }

  lemma {:induction false} JudgedRefusal(items: seq<Candidate>, code: Code)
    ensures Judge(items) == Rejects(code) <==> exists i :: FirstRefusal(items, i, code)
  {
    if items != [] {
      var rest := items[1..];
      JudgedRefusal(rest, code);
      if i :| FirstRefusal(rest, i, code) {
        if items[0].Accepted? {
          assert forall j :: 0 < j <= i ==> items[j] == rest[j - 1];
          assert FirstRefusal(items, i + 1, code);
        }
      }
      if i :| FirstRefusal(items, i, code) {
        if i > 0 {
          assert forall j :: 0 <= j < i ==> rest[j] == items[j + 1];
          assert FirstRefusal(rest, i - 1, code);
        }
      } else if items[0].Refused? && items[0].code == code {
        assert FirstRefusal(items, 0, code);
      }
    }
  }

  /** A payload deserves to be rejected or normalised exactly for these reasons. */
  lemma DeservesIff(payload: Payload, recordCount: nat, code: Code, values: seq<Value>)
    ensures Deserves(payload, recordCount) == Rejects(code) <==> RejectedFor(payload, recordCount, code)
    ensures Deserves(payload, recordCount) == Normalizes(values) <==> AcceptedAs(payload, recordCount, values)
    ensures Deserves(payload, recordCount) == Fails <==> payload.Unreadable?
  {
    if payload.Candidates? {
      JudgedLength(payload.items);
      JudgedRefusal(payload.items, code);
    }
  }

  /** What one payload can leave behind. */
  ghost predicate Settled(s: State, payload: Payload) {
    var v := Deserves(payload, s.recordCount);
    && (s.status.Normalized? ==> v.Normalizes? && |v.values| == s.recordCount
                                 && s.rows == map k | k in Indices(s.recordCount) :: v.values[k])
    && (s.status.Rejected? ==> v.Rejects? && s.rejectionCode == Some(v.code))
    && (forall code :: RejectMark(code) in s.marks ==> v == Rejects(code))
  }

  lemma StepSettles(s: State, op: Op, payload: Payload)
    requires Inv(s) && Settled(s, payload) && (op.Deliver? ==> op.delivery.payload == payload)
    ensures Settled(Next(s, op), payload)
  {
    match op {
      case Deliver(d) => DeliverySettles(s, d, payload);
      case Make(_) =>
    }
  }

  lemma DeliverySettles(s: State, d: Delivery, payload: Payload)
    requires Inv(s) && Settled(s, payload) && d.payload == payload
    ensures Settled(Next(s, Deliver(d)), payload)
  {
    VerdictLength(s, d);
    if d.connector == s.connector && s.status !in {Normalized, Rejected} {
      UnfinishedCases(s, d);
    }
  }

  lemma {:induction false} RunSettles(connector: Id, recordCount: nat, ops: seq<Op>, payload: Payload)
    requires recordCount >= 1 && SamePayload(ops, payload)
    ensures Settled(Run(NewEvent(connector, recordCount), ops), payload)
    decreases |ops|
  {
    if ops != [] {
      var front := ops[..|ops| - 1];
      RunSettles(connector, recordCount, front, payload);
      RunKeepsInv(NewEvent(connector, recordCount), front);
      StepSettles(Run(NewEvent(connector, recordCount), front), ops[|ops| - 1], payload);
    }
  }

  /** The outcome depends on the payload alone, not on how often, in what order or how
      unluckily it is delivered: NORMALIZED only if every candidate is acceptable, with their values
      as the rows; REJECTED, or due to be, only for a reason that the payload gives. */
  lemma OutcomeIsThePayloads(connector: Id, recordCount: nat, ops: seq<Op>, payload: Payload, code: Code)
    requires recordCount >= 1 && SamePayload(ops, payload)
    ensures var s := Run(NewEvent(connector, recordCount), ops);
            && (s.status.Normalized? ==>
                  exists values :: AcceptedAs(payload, recordCount, values)
                                   && s.rows == map k | k in Indices(recordCount) :: values[k])
            && ((s.status.Rejected? && s.rejectionCode == Some(code)) || RejectMark(code) in s.marks ==>
                  RejectedFor(payload, recordCount, code))
            && (s.status.Rejected? <==> s.rejectionCode.Some?)
  {
    var s := Run(NewEvent(connector, recordCount), ops);
    RunSettles(connector, recordCount, ops, payload);
    RunKeepsInv(NewEvent(connector, recordCount), ops);
    var v := Deserves(payload, recordCount);
    DeservesIff(payload, recordCount, code, if v.Normalizes? then v.values else []);
  }

  /** A delivery that meets no failure settles the event, whatever happened before it. */
  lemma GoodDeliverySettles(s: State, d: Delivery)
    requires Inv(s) && d.connector == s.connector && d.stored && d.acknowledged && !d.payload.Unreadable?
    ensures var v := Deserves(d.payload, s.recordCount);
            var n := Next(s, Deliver(d));
            n.status in {Normalized, Rejected}
            || (v.Rejects? && RejectMark(v.code) in n.marks && Next(n, Make(RejectMark(v.code))).status.Rejected?)
  {
    VerdictLength(s, d);
    if d.payload.Candidates? { JudgedLength(d.payload.items); }
  }

  /** The event is rejected with the code, or the mark for that is still to be made. */
  predicate RejectedOrDue(s: State, code: Code) {
    (s.status.Rejected? && s.rejectionCode == Some(code)) || RejectMark(code) in s.marks
  }

  /** Step k of a run delivers the event's own job, and no database call of it fails. */
  predicate Arrives(connector: Id, ops: seq<Op>, k: int) {
    0 <= k < |ops| && ops[k].Deliver? && ops[k].delivery.connector == connector && ops[k].delivery.stored
  }

  /** What the payload deserves has come about, or is due: its rows are there, or the event is rejected or
      the mark for that still to be made. */
  predicate Served(s: State, v: Verdict) {
    match v
    case Normalizes(_) => s.status.Normalized?
    case Rejects(code) => RejectedOrDue(s, code)
    case _ => false
  }

  /** A payload that can be read is served exactly when one delivery of its job meets no failing
      database call, whatever else is delivered, fails or is marked before and after. */
  lemma {:induction false} ServedIffItArrives(connector: Id, recordCount: nat, ops: seq<Op>, payload: Payload,
      v: Verdict)
    requires recordCount >= 1 && SamePayload(ops, payload)
    requires Deserves(payload, recordCount) == v && !v.Fails?
    ensures Served(Run(NewEvent(connector, recordCount), ops), v) <==> exists k :: Arrives(connector, ops, k)
    decreases |ops|
  {
    if ops != [] {
      var n := |ops| - 1;
      ServedIffItArrives(connector, recordCount, ops[..n], payload, v);
      ServedStep(connector, recordCount, ops, payload, v);
      ArrivesFront(connector, ops);
    }
  }

  lemma ArrivesFront(connector: Id, ops: seq<Op>)
    requires ops != []
    ensures var n := |ops| - 1;
            (exists k :: Arrives(connector, ops, k))
            <==> (exists k :: Arrives(connector, ops[..n], k)) || Arrives(connector, ops, n)
  {
    var n := |ops| - 1;
    if k :| Arrives(connector, ops[..n], k) { assert Arrives(connector, ops, k); }
    if k :| Arrives(connector, ops, k) {
      if k < n { assert Arrives(connector, ops[..n], k); }
    }
  }

  lemma ServedStep(connector: Id, recordCount: nat, ops: seq<Op>, payload: Payload, v: Verdict)
    requires recordCount >= 1 && ops != [] && SamePayload(ops, payload)
    requires Deserves(payload, recordCount) == v && !v.Fails?
    ensures Served(Run(NewEvent(connector, recordCount), ops), v)
       <==> Served(Run(NewEvent(connector, recordCount), ops[..|ops| - 1]), v) || Arrives(connector, ops, |ops| - 1)
  {
    var front, op := ops[..|ops| - 1], ops[|ops| - 1];
    var s := Run(NewEvent(connector, recordCount), front);
    RunSettles(connector, recordCount, front, payload);
    RunKeepsInv(NewEvent(connector, recordCount), front);
    match op {
      case Deliver(d) => ServedByDelivery(s, d, payload, v);
      case Make(mark) => ServedByMark(s, mark, payload, v);
    }
    assert Run(NewEvent(connector, recordCount), ops) == Next(s, op);
  }

  lemma ServedByMark(s: State, mark: Mark, payload: Payload, v: Verdict)
    requires Inv(s) && Settled(s, payload) && Deserves(payload, s.recordCount) == v && !v.Fails?
    ensures Served(Next(s, Make(mark)), v) <==> Served(s, v)
  {
  }

  lemma ServedByDelivery(s: State, d: Delivery, payload: Payload, v: Verdict)
    requires Inv(s) && Settled(s, payload) && Deserves(payload, s.recordCount) == v && !v.Fails?
    requires d.payload == payload
    ensures Served(Next(s, Deliver(d)), v) <==> Served(s, v) || (d.connector == s.connector && d.stored)
  {
    if d.connector == s.connector && s.status !in {Normalized, Rejected} {
      UnfinishedCases(s, d);
      PayloadNeverFinal(payload, s.recordCount);
    }
  }

  lemma PayloadNeverFinal(payload: Payload, recordCount: nat)
    ensures !Deserves(payload, recordCount).Final?
  {
  }

  /** A payload that deserves rejection, and a database call that fails, be it the rollback: the event
      is FAILED, and no rejection is due. */
  lemma FailedCallHidesRejection(connector: Id, recordCount: nat, code: Code, acknowledged: bool)
    ensures var d := Delivery(connector, Malformed(code), false, acknowledged);
            var s := Run(NewEvent(connector, recordCount), [Deliver(d), Make(FailMark)]);
            s.status.Failed? && s.marks == multiset{}
  {
    var d := Delivery(connector, Malformed(code), false, acknowledged);
    var ops := [Deliver(d), Make(FailMark)];
    assert ops[..1] == [Deliver(d)] && [Deliver(d)][..0] == [];
    assert Run(NewEvent(connector, recordCount), [Deliver(d)]) == Next(NewEvent(connector, recordCount), Deliver(d));
  }
}
