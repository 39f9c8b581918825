/** The normalisation of one raw event. Each delivery of its job is one transaction on the locked
    row; a failure rolls that transaction back and leaves a mark to be made in a later one, by
    which time other deliveries may have come and gone. */
module RawEvents {
  import opened Basics

  type Id = nat
  type Code = string
  type Value = string

  datatype Status = Received | Queued | Processing | Normalized | Rejected | Failed

  /** What the policy makes of one candidate of the payload. */
  datatype Candidate = Accepted(value: Value) | Refused(code: Code)

  /** What comes out of the stored payload: nothing, because of an error that is not a rejection; a
      rejection of the whole; or its candidates. */
  datatype Payload = Unreadable | Malformed(code: Code) | Candidates(items: seq<Candidate>)

  /** `stored` says that no database call of the transaction fails: not the read of the locked row, no
      write, and neither the commit nor the rollback after a refusal. `acknowledged` says that the
      worker learns of a commit. */
  datatype Delivery = Delivery(connector: Id, payload: Payload, stored: bool, acknowledged: bool)

  datatype Mark = RejectMark(code: Code) | FailMark

  /** `batches` holds the record counts of the batch messages, `marks` the marks still to be made. */
  datatype State = State(
    connector: Id,
    recordCount: nat,
    status: Status,
    retryCount: nat,
    rejectionCode: Option<Code>,
    rows: map<nat, Value>,
    batches: seq<nat>,
    marks: multiset<Mark>)

  datatype Op = Deliver(delivery: Delivery) | Make(mark: Mark)

  datatype Verdict = Final | Fails | Rejects(code: Code) | Normalizes(values: seq<Value>)

  const TOO_MANY: Code := "payload_limits_exceeded"

  function NewEvent(connector: Id, recordCount: nat): State {
    State(connector, recordCount, Received, 0, None, map[], [], multiset{})
  }

  /** The candidates in order, up to the first that is refused. */
  function Judge(items: seq<Candidate>): (v: Verdict)
    ensures v.Normalizes? || v.Rejects?
  {
    if items == [] then Normalizes([])
    else if items[0].Refused? then Rejects(items[0].code)
    else
      match Judge(items[1..])
      case Normalizes(values) => Normalizes([items[0].value] + values)
      case other => other
  }

  /** What the payload deserves on its own. */
  function Deserves(payload: Payload, recordCount: nat): Verdict {
    match payload
    case Unreadable => Fails
    case Malformed(code) => Rejects(code)
    case Candidates(items) => if |items| != recordCount then Rejects(TOO_MANY) else Judge(items)
  }

  function VerdictOn(s: State, d: Delivery): Verdict {
    if d.connector != s.connector then Fails
    else if !d.stored then Fails
    else if s.status in {Normalized, Rejected} then (if d.acknowledged then Final else Fails)
    else Deserves(d.payload, s.recordCount)
  }

  function Indices(n: nat): (s: set<nat>)
    ensures forall k :: k in s <==> 0 <= k < n
  {
    if n == 0 then {} else Indices(n - 1) + {n - 1}
  }

  /** `INSERT … ON CONFLICT DO NOTHING`, one row for each value. */
  function Inserted(rows: map<nat, Value>, values: seq<Value>): map<nat, Value> {
    map i | i in rows.Keys + Indices(|values|) :: if i in rows then rows[i] else values[i]
  }

  function NormalizedRow(s: State, values: seq<Value>): State {
    s.(status := Normalized, retryCount := s.retryCount + 1, rejectionCode := None,
       rows := Inserted(s.rows, values), batches := s.batches + [|values|])
  }

  function WithMark(s: State, mark: Mark): State {
    s.(marks := s.marks + multiset{mark})
  }

  function Marked(s: State, mark: Mark): State {
    match mark
    case RejectMark(code) => if s.status.Normalized? then s else s.(status := Rejected, rejectionCode := Some(code))
    case FailMark => if s.status in {Normalized, Rejected} then s else s.(status := Failed)
  }

  function Next(s: State, op: Op): State {
    match op
    case Deliver(d) =>
      (match VerdictOn(s, d)
       case Final => s
       case Fails => WithMark(s, FailMark)
       case Rejects(code) => WithMark(s, RejectMark(code))
       case Normalizes(values) =>
         if d.acknowledged then NormalizedRow(s, values) else WithMark(NormalizedRow(s, values), FailMark))
    case Make(mark) =>
      if mark in s.marks then Marked(s.(marks := s.marks - multiset{mark}), mark) else s
  }

  function Run(s: State, ops: seq<Op>): State
    decreases |ops|
  {
    if ops == [] then s else Next(Run(s, ops[..|ops| - 1]), ops[|ops| - 1])
  }

  lemma JudgeStep(items: seq<Candidate>, i: nat, done: seq<Value>)
    requires i < |items|
    ensures items[i].Refused? ==> Judge(items[i..]) == Rejects(items[i].code)
    ensures items[i].Accepted? && Judge(items[i + 1..]).Normalizes? ==>
              Judge(items[i..]).Normalizes?
              && done + Judge(items[i..]).values == (done + [items[i].value]) + Judge(items[i + 1..]).values
    ensures items[i].Accepted? && Judge(items[i + 1..]).Rejects? ==> Judge(items[i..]) == Judge(items[i + 1..])
  {
    assert items[i..][0] == items[i] && items[i..][1..] == items[i + 1..];
  }

  lemma InsertedStep(rows: map<nat, Value>, values: seq<Value>, i: nat)
    requires i < |values|
    ensures var part := Inserted(rows, values[..i]);
            Inserted(rows, values[..i + 1]) == if i in part then part else part[i := values[i]]
  {
    var part := Inserted(rows, values[..i]);
    var all := Inserted(rows, values[..i + 1]);
    assert all.Keys == part.Keys + {i};
    forall k | k in all.Keys ensures all[k] == if k == i && i !in rows then values[i] else part[k] {
    }
  }

  /** What a delivery does to an event that is not finished. */
  lemma UnfinishedCases(s: State, d: Delivery)
    requires d.connector == s.connector && s.status !in {Normalized, Rejected}
    ensures var v := Deserves(d.payload, s.recordCount);
            && VerdictOn(s, d) == (if d.stored then v else Fails)
            && !v.Final?
            && (v.Normalizes? && d.stored ==>
                  Next(s, Deliver(d)) == if d.acknowledged then NormalizedRow(s, v.values)
                                         else WithMark(NormalizedRow(s, v.values), FailMark))
            && (v.Rejects? && d.stored ==> Next(s, Deliver(d)) == WithMark(s, RejectMark(v.code)))
            && (v.Fails? || !d.stored ==> Next(s, Deliver(d)) == WithMark(s, FailMark))
  {
  }

  // ---------- the processor ----------

  class EventIngestionProcessor {
    const connector: Id
    const recordCount: nat
    var status: Status
    var retryCount: nat
    var rejectionCode: Option<Code>
    var rows: map<nat, Value>
    var batches: seq<nat>
    ghost var marks: multiset<Mark>

    ghost function Tables(): State
      reads this
    {
      State(connector, recordCount, status, retryCount, rejectionCode, rows, batches, marks)
    }

    constructor (connector: Id, recordCount: nat)
      ensures Tables() == NewEvent(connector, recordCount)
    {
      this.connector, this.recordCount := connector, recordCount;
      status, retryCount, rejectionCode, rows, batches, marks := Received, 0, None, map[], [], multiset{};
    }

    /** The whole of `policy.normalize` over the candidates; the first refusal throws. */
    method Normalize(items: seq<Candidate>) returns (verdict: Verdict)
      ensures verdict == Judge(items)
    {
      var values: seq<Value> := [];
      var i := 0;
      assert items[0..] == items;
      while i < |items|
        invariant 0 <= i <= |items|
        invariant Judge(items[i..]).Rejects? ==> Judge(items) == Judge(items[i..])
        invariant Judge(items[i..]).Normalizes? ==> Judge(items) == Normalizes(values + Judge(items[i..]).values)
      {
        JudgeStep(items, i, values);
        if items[i].Refused? {
          return Rejects(items[i].code);
        }
        values := values + [items[i].value];
        i := i + 1;
      }
      return Normalizes(values);
    }

    method Parse(payload: Payload) returns (verdict: Verdict)
      ensures verdict == Deserves(payload, recordCount)
    {
      match payload {
        case Unreadable => return Fails;
        case Malformed(code) => return Rejects(code);
        case Candidates(items) =>
          if |items| != recordCount {
            return Rejects(TOO_MANY);
          }
          verdict := Normalize(items);
      }
    }

    method InsertNormalizedEvents(values: seq<Value>)
      modifies `rows
      ensures rows == Inserted(old(rows), values)
      ensures forall k :: k in rows <==> k in old(rows) || 0 <= k < |values|
      ensures forall k :: k in rows ==> rows[k] == if k in old(rows) then old(rows)[k] else values[k]
    {
      ghost var before := rows;
      for index := 0 to |values|
        invariant rows == Inserted(before, values[..index])
      {
        InsertedStep(before, values, index);
        if index !in rows {
          rows := rows[index := values[index]];
        }
      }
      assert values[..|values|] == values;
    }

    /** The transaction once the row is locked and found unfinished. The assignments before the
        last one are the rollback, to which every failing call leads, wherever it is. */
    method Attempt(payload: Payload, stored: bool, acknowledged: bool) returns (verdict: Verdict)
      requires status !in {Normalized, Rejected}
      modifies this
      ensures verdict == VerdictOn(old(Tables()), Delivery(connector, payload, stored, acknowledged))
      ensures Tables() == Next(old(Tables()), Deliver(Delivery(connector, payload, stored, acknowledged)))
    {
      ghost var before := Tables();
      UnfinishedCases(before, Delivery(connector, payload, stored, acknowledged));
      var savedStatus, savedRetries, savedRows := status, retryCount, rows;
      status, retryCount := Processing, retryCount + 1;
      verdict := Parse(payload);
      if verdict.Normalizes? {
        InsertNormalizedEvents(verdict.values);
        if stored {
          status, rejectionCode, batches := Normalized, None, batches + [|verdict.values|];
          assert Tables() == NormalizedRow(before, verdict.values);
          if !acknowledged {
            marks := marks + multiset{FailMark};
          }
          return verdict;
        }
      }
      if !stored {
        verdict := Fails;
      }
      status, retryCount, rows := savedStatus, savedRetries, savedRows;
      marks := marks + multiset{if verdict.Rejects? then RejectMark(verdict.code) else FailMark};
    }

    /** `process`, with its error path up to, not including, the mark. */
    method Process(d: Delivery) returns (verdict: Verdict)
      modifies this
      ensures verdict == VerdictOn(old(Tables()), d)
      ensures Tables() == Next(old(Tables()), Deliver(d))
      ensures verdict.Fails? <==>
                || d.connector != connector || !d.stored
                || (if old(status) in {Normalized, Rejected} then !d.acknowledged else d.payload.Unreadable?)
      ensures verdict.Fails? ==> Tables() == old(Tables()).(marks := old(marks) + multiset{FailMark})
      ensures verdict.Rejects? ==> Tables() == old(Tables()).(marks := old(marks) + multiset{RejectMark(verdict.code)})
      ensures verdict.Final? ==> Tables() == old(Tables())
    {
      if d.connector != connector {
        marks := marks + multiset{FailMark};
        return Fails;
      }
      if status == Normalized || status == Rejected {
        if d.stored && d.acknowledged {
          return Final;
        }
        marks := marks + multiset{FailMark};
        return Fails;
      }
      verdict := Attempt(d.payload, d.stored, d.acknowledged);
    }

    method MarkRejected(code: Code)
      requires RejectMark(code) in marks
      modifies this
      ensures Tables() == Next(old(Tables()), Make(RejectMark(code)))
    {
      marks := marks - multiset{RejectMark(code)};
      if status != Normalized {
        status, rejectionCode := Rejected, Some(code);
      }
    }

    method MarkFailed()
      requires FailMark in marks
      modifies this
      ensures Tables() == Next(old(Tables()), Make(FailMark))
    {
      marks := marks - multiset{FailMark};
      if status != Normalized && status != Rejected {
        status := Failed;
      }
    }
  }
}
