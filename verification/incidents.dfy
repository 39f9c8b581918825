/** The incident lifecycle under optimistic versions. A transition is checked against a snapshot
    that was read before the write, and the write is guarded by the version and status it names. */
module Incidents {
  import opened Basics
  import opened JsText

  type Id = nat
  type Time = int

  datatype Status = Open | Triaged | Investigating | Contained | Resolved | Closed

  datatype Incident = Incident(
    status: Status,
    version: int,
    assignee: Option<Id>,
    rootCause: Option<string>,
    lessonsLearned: Option<string>,
    responseDue: Time,
    resolutionDue: Time,
    firstRespondedAt: Option<Time>,
    containedAt: Option<Time>,
    resolvedAt: Option<Time>,
    closedAt: Option<Time>,
    responseBreachedAt: Option<Time>,
    resolutionBreachedAt: Option<Time>)

  // ---------- the policy ----------

  function AllowedTargets(s: Status): set<Status> {
    match s
    case Open => {Triaged, Closed}
    case Triaged => {Investigating, Closed}
    case Investigating => {Contained, Resolved}
    case Contained => {Investigating, Resolved}
    case Resolved => {Closed, Investigating}
    case Closed => {Investigating}
  }

  predicate Meaningful(text: Option<string>) {
    text.Some? && |Trim(text.value)| >= 10
  }

  datatype Verdict = Allowed | InvalidTransition | AnalysisRequired

  function AssertTransition(current: Status, target: Status, rootCause: Option<string>,
      lessons: Option<string>): Verdict {
    if target !in AllowedTargets(current) then InvalidTransition
    else if target in {Resolved, Closed} && !Meaningful(rootCause) then AnalysisRequired
    else if target == Closed && !Meaningful(lessons) then AnalysisRequired
    else Allowed
  }

  /** `given ?? stored` */
  function Or<T>(given: Option<T>, stored: Option<T>): Option<T> {
    if given.Some? then given else stored
  }

  /** The body of a transition request; the schema refuses texts shorter than ten characters. */
  datatype Request = Request(target: Status, version: int, rootCause: Option<string>, lessonsLearned: Option<string>)

  predicate WellFormed(r: Request) {
    (r.rootCause.Some? ==> Meaningful(r.rootCause)) && (r.lessonsLearned.Some? ==> Meaningful(r.lessonsLearned))
  }

  function Check(current: Incident, r: Request): Verdict {
    AssertTransition(current.status, r.target, Or(r.rootCause, current.rootCause),
        Or(r.lessonsLearned, current.lessonsLearned))
  }

  /** One field of an analysis update: not mentioned, set to null, or set to a text. */
  datatype Change = Keep | Clear | Set(text: string)

  function Changed(stored: Option<string>, c: Change): Option<string> {
    match c
    case Keep => stored
    case Clear => None
    case Set(text) => Some(text)
  }

  predicate WellFormedChange(c: Change) {
    c.Set? ==> Meaningful(Some(c.text))
  }

  // ---------- the guarded writes ----------

  /** What a transition writes over `row`, deciding by the `existing` row that it read. */
  function Transitioned(existing: Incident, row: Incident, r: Request, now: Time): Incident {
    var reopened := r.target == Investigating && existing.status in {Resolved, Closed};
    row.(
      status := r.target,
      version := row.version + 1,
      rootCause := Or(r.rootCause, row.rootCause),
      lessonsLearned := Or(r.lessonsLearned, row.lessonsLearned),
      firstRespondedAt :=
        if existing.firstRespondedAt.None? && r.target != Open then Some(now) else row.firstRespondedAt,
      containedAt := if r.target == Contained then Some(now) else row.containedAt,
      resolvedAt :=
        if r.target == Resolved then Some(now)
        else if r.target == Closed then Or(existing.resolvedAt, Some(now))
        else if reopened then None
        else row.resolvedAt,
      closedAt := if r.target == Closed then Some(now) else if reopened then None else row.closedAt)
  }

  predicate AnalysisAllowed(existing: Incident, version: int, root: Change, lessons: Change) {
    && existing.version == version
    && !(existing.status in {Resolved, Closed} && root.Clear?)
    && !(existing.status == Closed && lessons.Clear?)
  }

  function Analysed(row: Incident, root: Change, lessons: Change): Incident {
    row.(version := row.version + 1, rootCause := Changed(row.rootCause, root),
        lessonsLearned := Changed(row.lessonsLearned, lessons))
  }

  function Assigned(row: Incident, assignee: Option<Id>): Incident {
    row.(version := row.version + 1, assignee := assignee)
  }

  datatype Kind = Response | Resolution

  predicate Breached(row: Incident, kind: Kind, now: Time) {
    match kind
    case Response => row.responseBreachedAt.None? && row.firstRespondedAt.None? && now >= row.responseDue
    case Resolution => row.resolutionBreachedAt.None? && row.resolvedAt.None? && now >= row.resolutionDue
  }

  predicate Marked(row: Incident, kind: Kind) {
    match kind
    case Response => row.responseBreachedAt.Some?
    case Resolution => row.resolutionBreachedAt.Some?
  }

  /** The breach mark is guarded by its own column, not by the version, which it bumps. */
  function WithMark(row: Incident, kind: Kind, now: Time): Incident {
    if Marked(row, kind) then row
    else
      match kind
      case Response => row.(responseBreachedAt := Some(now), version := row.version + 1)
      case Resolution => row.(resolutionBreachedAt := Some(now), version := row.version + 1)
  }

  // ---------- requests and jobs in flight ----------

  /** A row and when it was read. */
  datatype Reading = Reading(row: Incident, at: Time)

  /** A checked request with the row it was checked against. */
  datatype Pending = Pending(request: Request, snapshot: Incident)

  /** A transaction of the SLA worker that has read the row and not yet judged it. */
  datatype Probe = Probe(kind: Kind, startedAt: Time, reading: Reading)

  /** One incident with everything that was read of it: `seen` by the transactions of the API,
      `pending` by requests that passed the check, `probes` by the SLA worker. A written row counts
      from its commit; the times in it were sampled before. */
  datatype State = State(row: Incident, clock: Time, seen: set<Reading>, pending: set<Pending>, probes: set<Probe>)

  datatype Op =
    | Tick(time: Time)
    | Look
    | Begin(request: Request)
    | Commit(begun: Pending, read: Reading, sampled: Time)
    | Analyse(known: Reading, version: int, root: Change, lessons: Change)
    | Assign(seen: Reading, expected: int, assignee: Option<Id>)
    | Inspect(kind: Kind, startedAt: Time)
    | MarkBreach(probe: Probe, judgedAt: Time)

  function Now(s: State): Reading {
    Reading(s.row, s.clock)
  }

  /** The transition named the version and the status of the row that it read, and of the row as it stands. */
  predicate Commits(row: Incident, p: Pending, read: Incident) {
    && read.version == p.request.version && read.status == p.snapshot.status
    && row.version == p.request.version && row.status == p.snapshot.status
  }

  /** The worker judges, after it has read, that the target was missed. */
  predicate Judges(s: State, op: Op) {
    op.MarkBreach? && op.probe in s.probes && op.probe.reading.at <= op.judgedAt <= s.clock
    && Breached(op.probe.reading.row, op.probe.kind, op.judgedAt)
  }

  function Next(s: State, op: Op): State {
    match op
    case Tick(time) => if time > s.clock then s.(clock := time) else s
    case Look => s.(seen := s.seen + {Now(s)})
    case Begin(r) =>
      if WellFormed(r) && Check(s.row, r).Allowed? then
        s.(seen := s.seen + {Now(s)}, pending := s.pending + {Pending(r, s.row)})
      else s
    case Commit(p, read, sampled) =>
      if p in s.pending && read in s.seen && read.at <= sampled <= s.clock && Commits(s.row, p, read.row) then
        s.(row := Transitioned(read.row, s.row, p.request, sampled))
      else s
    case Analyse(read, version, root, lessons) =>
      if read in s.seen && AnalysisAllowed(read.row, version, root, lessons) && s.row.version == version
         && WellFormedChange(root) && WellFormedChange(lessons) then
        s.(row := Analysed(s.row, root, lessons))
      else s
    case Assign(read, version, assignee) =>
      if read in s.seen && read.row.version == version && s.row.version == version then
        s.(row := Assigned(s.row, assignee))
      else s
    case Inspect(kind, startedAt) =>
      if startedAt <= s.clock then s.(probes := s.probes + {Probe(kind, startedAt, Now(s))}) else s
    case MarkBreach(probe, _) =>
      if Judges(s, op) then s.(row := WithMark(s.row, probe.kind, probe.startedAt), probes := s.probes - {probe})
      else s
  }

  function Run(s: State, ops: seq<Op>): State
    decreases |ops|
  {
    if ops == [] then s else Next(Run(s, ops[..|ops| - 1]), ops[|ops| - 1])
  }

  function Untouched(row: Incident, clock: Time): State {
    State(row, clock, {}, {}, {})
  }

  /** A new incident: open, version 1, nothing known yet. */
  function Created(responseDue: Time, resolutionDue: Time, clock: Time): State {
    Untouched(Incident(Open, 1, None, None, None, responseDue, resolutionDue, None, None, None, None, None, None),
        clock)
  }

  // ---------- the repository ----------

  datatype Result = Conflict | Success

  class IncidentRepository {
    var rows: map<Id, Incident>
    ghost var states: map<Id, State>

    ghost predicate Valid()
      reads this
    {
      states.Keys == rows.Keys && forall id :: id in rows ==> states[id].row == rows[id]
    }

    constructor (rows: map<Id, Incident>, clock: Time)
      ensures Valid() && this.rows == rows
      ensures states == map id | id in rows :: Untouched(rows[id], clock)
    {
      this.rows := rows;
      states := map id | id in rows :: Untouched(rows[id], clock);
    }

    ghost method Advance(id: Id, time: Time)
      requires Valid() && id in rows
      modifies `states
      ensures Valid() && states == old(states)[id := Next(old(states)[id], Tick(time))]
    {
      states := states[id := Next(states[id], Tick(time))];
    }

    /** `findFirst` in a transaction; without a row the request is answered "not found". */
    method FindIncident(id: Id) returns (found: Option<Incident>)
      requires Valid()
      modifies `states
      ensures Valid() && (found.Some? <==> id in rows)
      ensures found.Some? ==> found.value == rows[id]
      ensures states == if id in rows then old(states)[id := Next(old(states)[id], Look)] else old(states)
    {
      if id !in rows {
        return None;
      }
      states := states[id := Next(states[id], Look)];
      return Some(rows[id]);
    }

    /** The use case's own read and check, before the repository's transaction. */
    method CheckTransition(id: Id, r: Request) returns (verdict: Option<Verdict>)
      requires Valid() && WellFormed(r)
      modifies `states
      ensures Valid() && (verdict.Some? <==> id in rows)
      ensures verdict.Some? ==> verdict.value == Check(rows[id], r)
      ensures verdict == Some(Allowed) ==> Pending(r, rows[id]) in states[id].pending
      ensures states == if id in rows then old(states)[id := Next(old(states)[id], Begin(r))] else old(states)
    {
      if id !in rows {
        return None;
      }
      var current := rows[id];
      states := states[id := Next(states[id], Begin(r))];
      verdict := Some(AssertTransition(current.status, r.target, Or(r.rootCause, current.rootCause),
                                       Or(r.lessonsLearned, current.lessonsLearned)));
    }

    /** The rest of `transition` after its read of `existing`, with the time it samples. */
    method Transition(id: Id, p: Pending, read: Reading, now: Time) returns (result: Result)
      requires Valid() && id in rows && p in states[id].pending && read in states[id].seen
      requires read.at <= now <= states[id].clock
      modifies this
      ensures Valid() && rows.Keys == old(rows).Keys
      ensures result.Success? <==>
                && read.row.version == p.request.version && read.row.status == p.snapshot.status
                && old(rows)[id].version == p.request.version && old(rows)[id].status == p.snapshot.status
      ensures result.Conflict? ==> rows == old(rows)
      ensures states == old(states)[id := Next(old(states)[id], Commit(p, read, now))]
    {
      var existing, currentStatus, r := read.row, p.snapshot.status, p.request;
      if existing.version != r.version || existing.status != currentStatus {
        states := states[id := Next(states[id], Commit(p, read, now))];
        return Conflict;
      }
      var row := rows[id].(status := r.target, version := rows[id].version + 1);
      if r.lessonsLearned != None {
        row := row.(lessonsLearned := r.lessonsLearned);
      }
      if r.rootCause != None {
        row := row.(rootCause := r.rootCause);
      }
      if existing.firstRespondedAt == None && r.target != Open {
        row := row.(firstRespondedAt := Some(now));
      }
      if r.target == Contained {
        row := row.(containedAt := Some(now));
      }
      if r.target == Resolved {
        row := row.(resolvedAt := Some(now));
      }
      if r.target == Closed {
        row := row.(closedAt := Some(now),
                    resolvedAt := if existing.resolvedAt == None then Some(now) else existing.resolvedAt);
      }
      if r.target == Investigating && (currentStatus == Resolved || currentStatus == Closed) {
        row := row.(closedAt := None, resolvedAt := None);
      }
      assert row == Transitioned(existing, rows[id], r, now);
      result := UpdateWhere(id, r.version, Some(currentStatus), row);
      states := states[id := Next(states[id], Commit(p, read, now))];
    }

    /** `updateMany` on one row, guarded by its version and perhaps its status. */
    method UpdateWhere(id: Id, version: int, status: Option<Status>, row: Incident) returns (result: Result)
      requires id in rows
      modifies `rows
      ensures result.Success? <==>
                old(rows)[id].version == version && (status.Some? ==> old(rows)[id].status == status.value)
      ensures rows == if result.Success? then old(rows)[id := row] else old(rows)
    {
      if rows[id].version != version || (status.Some? && rows[id].status != status.value) {
        return Conflict;
      }
      rows := rows[id := row];
      return Success;
    }

    method UpdateAnalysis(id: Id, read: Reading, version: int, root: Change, lessons: Change) returns (result: Result)
      requires Valid() && id in rows && read in states[id].seen && WellFormedChange(root) && WellFormedChange(lessons)
      modifies this
      ensures Valid() && rows.Keys == old(rows).Keys
      ensures result.Success? <==>
                && read.row.version == version && old(rows)[id].version == version
                && !(root.Clear? && read.row.status in {Resolved, Closed})
                && !(lessons.Clear? && read.row.status == Closed)
      ensures result.Conflict? ==> rows == old(rows)
      ensures result.Success? ==>
                var row := old(rows)[id];
                var newRoot := if root.Set? then Some(root.text) else if root.Clear? then None else row.rootCause;
                var newLessons :=
                  if lessons.Set? then Some(lessons.text) else if lessons.Clear? then None else row.lessonsLearned;
                rows == old(rows)[id := row.(version := version + 1, rootCause := newRoot,
                                             lessonsLearned := newLessons)]
      ensures states == old(states)[id := Next(old(states)[id], Analyse(read, version, root, lessons))]
    {
      var existing := read.row;
      ghost var after := states[id := Next(states[id], Analyse(read, version, root, lessons))];
      if existing.version != version {
        states := after;
        return Conflict;
      }
      if (existing.status == Resolved || existing.status == Closed) && root.Clear? {
        states := after;
        return Conflict;
      }
      if existing.status == Closed && lessons.Clear? {
        states := after;
        return Conflict;
      }
      var row := rows[id].(version := rows[id].version + 1);
      if !lessons.Keep? {
        row := row.(lessonsLearned := if lessons.Clear? then None else Some(lessons.text));
      }
      if !root.Keep? {
        row := row.(rootCause := if root.Clear? then None else Some(root.text));
      }
      result := UpdateWhere(id, version, None, row);
      states := after;
    }

    method Assign(id: Id, read: Reading, version: int, assignee: Option<Id>) returns (result: Result)
      requires Valid() && id in rows && read in states[id].seen
      modifies this
      ensures Valid() && rows.Keys == old(rows).Keys
      ensures result.Success? <==> read.row.version == version && old(rows)[id].version == version
      ensures result.Conflict? ==> rows == old(rows)
      ensures result.Success? ==>
                rows == old(rows)[id := old(rows)[id].(version := version + 1, assignee := assignee)]
      ensures states == old(states)[id := Next(old(states)[id], Op.Assign(read, version, assignee))]
    {
      if read.row.version != version {
        states := states[id := Next(states[id], Op.Assign(read, version, assignee))];
        return Conflict;
      }
      result := UpdateWhere(id, version, None, rows[id].(assignee := assignee, version := rows[id].version + 1));
      states := states[id := Next(states[id], Op.Assign(read, version, assignee))];
    }

    /** The worker's transaction up to its read. */
    method InspectSla(id: Id, kind: Kind, startedAt: Time, readAt: Time) returns (found: Option<Probe>)
      requires Valid() && (id in rows ==> startedAt <= readAt == states[id].clock)
      modifies `states
      ensures Valid() && (found.Some? <==> id in rows)
      ensures found.Some? ==>
                found.value == Probe(kind, startedAt, Now(old(states)[id])) && found.value in states[id].probes
      ensures states == if id in rows then old(states)[id := Next(old(states)[id], Inspect(kind, startedAt))]
                else old(states)
    {
      if id !in rows {
        return None;
      }
      found := Some(Probe(kind, startedAt, Reading(rows[id], readAt)));
      states := states[id := Next(states[id], Inspect(kind, startedAt))];
    }

    /** The rest of `evaluateSla`: it judges what it read, and marks the row unless it is marked. */
    method EvaluateSla(id: Id, probe: Probe, now: Time) returns (breached: bool)
      requires Valid() && id in rows && probe in states[id].probes && probe.reading.at <= now <= states[id].clock
      modifies this
      ensures Valid() && rows.Keys == old(rows).Keys
      ensures breached <==> Breached(probe.reading.row, probe.kind, now) && !Marked(old(rows)[id], probe.kind)
      ensures !breached ==> rows == old(rows)
      ensures breached ==>
                var row := old(rows)[id].(version := old(rows)[id].version + 1);
                rows == old(rows)[id := if probe.kind.Response? then row.(responseBreachedAt := Some(probe.startedAt))
                                        else row.(resolutionBreachedAt := Some(probe.startedAt))]
      ensures states == old(states)[id := Next(old(states)[id], MarkBreach(probe, now))]
    {
      var read, kind := probe.reading.row, probe.kind;
      ghost var after := states[id := Next(states[id], MarkBreach(probe, now))];
      var responseBreach :=
        kind == Response && read.responseBreachedAt == None && read.firstRespondedAt == None && now >= read.responseDue;
      var resolutionBreach :=
        kind == Resolution && read.resolutionBreachedAt == None && read.resolvedAt == None && now >= read.resolutionDue;
      if !responseBreach && !resolutionBreach {
        states := after;
        return false;
      }
      var row := rows[id];
      if responseBreach {
        breached := row.responseBreachedAt == None;
        if breached {
          row := row.(responseBreachedAt := Some(probe.startedAt), version := row.version + 1);
        }
      } else {
        breached := row.resolutionBreachedAt == None;
        if breached {
          row := row.(resolutionBreachedAt := Some(probe.startedAt), version := row.version + 1);
        }
      }
      rows := rows[id := row];
      states := after;
    }
  }

  // ---------- the check constraint of the table ----------

  datatype Ternary = True | False | Unknown

  function SqlOr(a: Ternary, b: Ternary): Ternary {
    if a.True? || b.True? then True else if a.Unknown? || b.Unknown? then Unknown else False
  }

  function TrimSpaces(s: string): string {
    if s != "" && s[0] == ' ' then TrimSpaces(s[1..])
    else if s != "" && s[|s| - 1] == ' ' then TrimSpaces(s[..|s| - 1])
    else s
  }

  /** `length(trim(text)) >= 10`, which is unknown for NULL. */
  function LongEnough(text: Option<string>): Ternary {
    if text.None? then Unknown else if |TrimSpaces(text.value)| >= 10 then True else False
  }

  /** A row is refused only when a check is false; unknown passes. */
  predicate PassesChecks(row: Incident) {
    && !SqlOr(if row.status !in {Resolved, Closed} then True else False, LongEnough(row.rootCause)).False?
    && !SqlOr(if row.status != Closed then True else False, LongEnough(row.lessonsLearned)).False?
  }
}
