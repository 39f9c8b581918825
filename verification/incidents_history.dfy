/** What an incident says of the run that led to it: how its status moved, and whose words and times
    it holds. */
module IncidentsHistory {
  import opened Basics
  import opened JsText
  import opened Incidents
  import opened IncidentsLaws

  // ---------- the moves ----------

  const MOVES: set<(Status, Status)> :=
    {(Open, Triaged), (Open, Closed), (Triaged, Investigating), (Triaged, Closed), (Investigating, Contained),
     (Investigating, Resolved), (Contained, Investigating), (Contained, Resolved), (Resolved, Closed),
     (Resolved, Investigating), (Closed, Investigating)}

  predicate LongEnoughText(text: Option<string>) {
    text.Some? && |Trim(text.value)| >= 10
  }

  /** A request is refused as a transition exactly when its move is none of these, and for want of
      analysis exactly when, of an existing move, neither the request nor the row has the texts that
      the target asks for. */
  lemma VerdictIff(row: Incident, r: Request)
    ensures var root := if r.rootCause.Some? then r.rootCause else row.rootCause;
            var lessons := if r.lessonsLearned.Some? then r.lessonsLearned else row.lessonsLearned;
            && (Check(row, r) == InvalidTransition <==> (row.status, r.target) !in MOVES)
            && (Check(row, r) == AnalysisRequired <==>
                  (row.status, r.target) in MOVES
                  && ((r.target in {Resolved, Closed} && !LongEnoughText(root))
                      || (r.target == Closed && !LongEnoughText(lessons))))
  {
  }

  /** What a committed transition writes. The row that was read in its transaction is the row it writes
      over, so every field depends on that alone. */
  lemma TransitionWrites(s: State, op: Op)
    requires Inv(s) && op.Commit? && Next(s, op).row != s.row
    ensures var row, n, r, t := s.row, Next(s, op).row, op.begun.request, Some(op.sampled);
            && (row.status, r.target) in MOVES
            && n == row.(
                      status := r.target,
                      version := r.version + 1,
                      rootCause := if r.rootCause.Some? then r.rootCause else row.rootCause,
                      lessonsLearned := if r.lessonsLearned.Some? then r.lessonsLearned else row.lessonsLearned,
                      firstRespondedAt := if row.firstRespondedAt.Some? then row.firstRespondedAt else t,
                      containedAt := if r.target == Contained then t else row.containedAt,
                      resolvedAt := if r.target == Resolved then t
                                    else if r.target != Closed then None
                                    else if row.resolvedAt.Some? then row.resolvedAt
                                    else t,
                      closedAt := if r.target == Closed then t else None)
  {
    ReadIsCurrent(s, op.read.row);
    SnapshotIsCurrent(s, op);
  }

  lemma SnapshotIsCurrent(s: State, op: Op)
    requires Inv(s) && op.Commit? && Next(s, op).row != s.row
    ensures op.begun.snapshot.status == s.row.status
    ensures (op.begun.snapshot.status, op.begun.request.target) in MOVES
  {
    VerdictIff(op.begun.snapshot, op.begun.request);
  }

  /** In every run the status moves only by committed transitions, and only along these moves. */
  lemma MovesOnly(responseDue: Time, resolutionDue: Time, clock: Time, ops: seq<Op>, k: nat)
    requires k < |ops|
    ensures var c := Created(responseDue, resolutionDue, clock);
            var a, b := Run(c, ops[..k]).row.status, Run(c, ops[..k + 1]).row.status;
            a != b ==> ops[k].Commit? && (a, b) in MOVES
  {
    var c := Created(responseDue, resolutionDue, clock);
    assert ops[..k + 1][..k] == ops[..k];
    RunKeepsInv(c, ops[..k]);
    var s := Run(c, ops[..k]);
    if ops[k].Commit? && Next(s, ops[k]).row != s.row { TransitionWrites(s, ops[k]); }
  }

  /** Every one of the moves can be made from every state. */
  lemma MovePossible(s: State, target: Status) returns (ops: seq<Op>)
    requires (s.row.status, target) in MOVES
    ensures Run(s, ops).row.status == target && Run(s, ops).row.version == s.row.version + 1
  {
    var text := "0123456789";
    TrimFixedIffTrimmed(text);
    var r := Request(target, s.row.version, Some(text), Some(text));
    var p := Pending(r, s.row);
    VerdictIff(s.row, r);
    var last := Commit(p, Now(s), s.clock);
    ops := [Begin(r), last];
    RunTwo(s, Begin(r), last);
    assert Next(s, Begin(r)).row == s.row && p in Next(s, Begin(r)).pending;
  }

  // ---------- the last word ----------

  /** Step k changed the row. */
  ghost predicate Effective(c: State, ops: seq<Op>, k: int) {
    0 <= k < |ops| && Next(Run(c, ops[..k]), ops[k]).row != Run(c, ops[..k]).row
  }

  /** Only steps that touch it change this part of the row. */
  ghost predicate Governs<T(!new)>(touches: Op -> bool, part: Incident -> T) {
    forall s: State, op: Op :: Next(s, op).row == s.row || touches(op) || part(Next(s, op).row) == part(s.row)
  }

  lemma {:induction false} UntouchedStays<T(!new)>(
      c: State, ops: seq<Op>, k: nat, touches: Op -> bool, part: Incident -> T)
    requires Governs(touches, part) && k <= |ops|
    requires forall j :: k <= j < |ops| && Effective(c, ops, j) ==> !touches(ops[j])
    ensures part(Run(c, ops).row) == part(Run(c, ops[..k]).row)
    decreases |ops|
  {
    if k < |ops| {
      var n := |ops| - 1;
      forall j | k <= j < n && Effective(c, ops[..n], j) ensures !touches(ops[..n][j]) {
        assert ops[..n][..j] == ops[..j] && Effective(c, ops, j);
      }
      UntouchedStays(c, ops[..n], k, touches, part);
      assert ops[..n][..k] == ops[..k];
      assert Effective(c, ops, n) || Next(Run(c, ops[..n]), ops[n]).row == Run(c, ops[..n]).row;
    } else {
      assert ops[..k] == ops;
    }
  }

  /** Step k is the last effective one that touches it. */
  ghost predicate IsLast(c: State, ops: seq<Op>, k: int, touches: Op -> bool) {
    && Effective(c, ops, k) && touches(ops[k])
    && forall j :: k < j < |ops| && Effective(c, ops, j) ==> !touches(ops[j])
  }

  lemma LastDecides<T(!new)>(c: State, ops: seq<Op>, k: nat, touches: Op -> bool, part: Incident -> T)
    requires Governs(touches, part) && IsLast(c, ops, k, touches)
    ensures part(Run(c, ops).row) == part(Next(Run(c, ops[..k]), ops[k]).row)
  {
    UntouchedStays(c, ops, k + 1, touches, part);
    assert ops[..k + 1][..k] == ops[..k];
  }

  datatype Field = RootCause | LessonsLearned

  function TextOf(row: Incident, f: Field): Option<string> {
    if f.RootCause? then row.rootCause else row.lessonsLearned
  }

  /** What a step says of a text. */
  function Said(op: Op, f: Field): Change {
    match op
    case Commit(p, _, _) =>
      var given := if f.RootCause? then p.request.rootCause else p.request.lessonsLearned;
      if given.Some? then Set(given.value) else Keep
    case Analyse(_, _, root, lessons) => if f.RootCause? then root else lessons
    case _ => Keep
  }

  function Speaks(f: Field): Op -> bool {
    op => !Said(op, f).Keep?
  }

  function TextPart(f: Field): Incident -> Option<string> {
    row => TextOf(row, f)
  }

  lemma SpeakersGovern(f: Field)
    ensures Governs(Speaks(f), TextPart(f))
  {
  }

  lemma SaidIsStored(s: State, op: Op, f: Field)
    requires Next(s, op).row != s.row && !Said(op, f).Keep?
    ensures TextOf(Next(s, op).row, f) == if Said(op, f).Clear? then None else Some(Said(op, f).text)
  {
  }

  /** In every run the stored root cause, or lessons, are what the last successful transition or update
      said that mentioned them, or what they were at first if none did. */
  lemma TextIsTheLastSaid(c: State, ops: seq<Op>, f: Field, k: nat)
    ensures IsLast(c, ops, k, Speaks(f)) ==>
              TextOf(Run(c, ops).row, f) == if Said(ops[k], f).Clear? then None else Some(Said(ops[k], f).text)
    ensures (forall j :: Effective(c, ops, j) ==> Said(ops[j], f).Keep?) ==>
              TextOf(Run(c, ops).row, f) == TextOf(c.row, f)
  {
    SpeakersGovern(f);
    if IsLast(c, ops, k, Speaks(f)) {
      LastDecides(c, ops, k, Speaks(f), TextPart(f));
      SaidIsStored(Run(c, ops[..k]), ops[k], f);
    }
    if forall j :: Effective(c, ops, j) ==> Said(ops[j], f).Keep? {
      UntouchedStays(c, ops, 0, Speaks(f), TextPart(f));
      assert ops[..0] == [];
    }
  }

  function Assigns(): Op -> bool {
    (op: Op) => op.Assign?
  }

  function AssigneePart(): Incident -> Option<Id> {
    (row: Incident) => row.assignee
  }

  lemma AssignmentsGovern()
    ensures Governs(Assigns(), AssigneePart())
  {
  }

  /** The assignee is the one that the last successful assignment named, or what it was at first if none did. */
  lemma AssigneeIsTheLastNamed(c: State, ops: seq<Op>, k: nat)
    ensures IsLast(c, ops, k, Assigns()) ==> Run(c, ops).row.assignee == ops[k].assignee
    ensures (forall j :: Effective(c, ops, j) ==> !ops[j].Assign?) ==> Run(c, ops).row.assignee == c.row.assignee
  {
    if IsLast(c, ops, k, Assigns()) { NamedLast(c, ops, k); }
    if forall j :: Effective(c, ops, j) ==> !ops[j].Assign? { NeverNamed(c, ops); }
  }

  lemma NamedLast(c: State, ops: seq<Op>, k: nat)
    requires IsLast(c, ops, k, Assigns())
    ensures Run(c, ops).row.assignee == ops[k].assignee
  {
    AssignmentsGovern();
    LastDecides(c, ops, k, Assigns(), AssigneePart());
    var s := Run(c, ops[..k]);
    assert ops[k].Assign? && Next(s, ops[k]).row != s.row;
  }

  lemma NeverNamed(c: State, ops: seq<Op>)
    requires forall j :: Effective(c, ops, j) ==> !ops[j].Assign?
    ensures Run(c, ops).row.assignee == c.row.assignee
  {
    AssignmentsGovern();
    UntouchedStays(c, ops, 0, Assigns(), AssigneePart());
    assert ops[..0] == [];
  }
}
