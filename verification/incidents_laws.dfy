/** What holds of an incident over every run of interleaved reads, checks and writes. */
module IncidentsLaws {
  import opened Basics
  import opened JsText
  import opened Incidents

  /** The promise of the lifecycle: no resolution without a root cause, no closure without lessons. */
  predicate AnalysisComplete(row: Incident) {
    && (row.status in {Resolved, Closed} ==> Meaningful(row.rootCause))
    && (row.status == Closed ==> Meaningful(row.lessonsLearned))
  }

  /** The times that go with the status. A breach mark needs its deadline to have passed. */
  predicate Timed(row: Incident, clock: Time) {
    && (row.resolvedAt.Some? <==> row.status in {Resolved, Closed})
    && (row.closedAt.Some? <==> row.status == Closed)
    && (row.firstRespondedAt.Some? <==> row.status != Open)
    && (row.responseBreachedAt.Some? ==> row.responseDue <= clock)
    && (row.resolutionBreachedAt.Some? ==> row.resolutionDue <= clock)
  }

  predicate KeptOnce<T(==)>(before: Option<T>, after: Option<T>) {
    before.Some? ==> after == before
  }

  /** What is written at most once is there from then on, and the deadlines never change. */
  predicate Keeps(before: Incident, after: Incident) {
    && KeptOnce(before.firstRespondedAt, after.firstRespondedAt)
    && KeptOnce(before.responseBreachedAt, after.responseBreachedAt)
    && KeptOnce(before.resolutionBreachedAt, after.resolutionBreachedAt)
    && before.responseDue == after.responseDue && before.resolutionDue == after.resolutionDue
  }

  /** A row that was read is of an earlier version, or is the row as it stands. */
  predicate Earlier(read: Incident, row: Incident) {
    (read.version < row.version || read == row) && Keeps(read, row)
  }

  ghost predicate Versioned(s: State) {
    && (forall r :: r in s.seen ==> Earlier(r.row, s.row))
    && (forall p :: p in s.probes ==> Earlier(p.reading.row, s.row))
    && (forall p :: p in s.pending ==>
          Earlier(p.snapshot, s.row) && WellFormed(p.request) && Check(p.snapshot, p.request).Allowed?)
  }

  ghost predicate Inv(s: State) {
    Versioned(s) && Timed(s.row, s.clock)
  }

  // ---------- the version stands for the row ----------

  lemma ReadIsCurrent(s: State, r: Incident)
    requires Earlier(r, s.row) && r.version == s.row.version
    ensures r == s.row
  {
  }

  /** No step changes the row without raising its version. */
  lemma WritersBump(s: State, op: Op)
    ensures Next(s, op).row == s.row || Next(s, op).row.version == s.row.version + 1
  {
  }

  /** Nor does any step take back what is written once. */
  lemma StepKeeps(s: State, op: Op)
    requires Inv(s)
    ensures Keeps(s.row, Next(s, op).row) && Earlier(s.row, Next(s, op).row)
  {
    WritersBump(s, op);
    if op.Commit? && Next(s, op) != s { ReadIsCurrent(s, op.read.row); }
  }

  lemma StepKeepsReadings(s: State, op: Op)
    requires Inv(s)
    ensures Versioned(Next(s, op))
  {
    StepKeeps(s, op);
    assert forall r :: Earlier(r, s.row) ==> Earlier(r, Next(s, op).row);
  }

  lemma StepKeepsTimes(s: State, op: Op)
    requires Inv(s)
    ensures Timed(Next(s, op).row, Next(s, op).clock)
  {
    if op.Commit? && Next(s, op) != s {
      ReadIsCurrent(s, op.read.row);
      assert op.begun.request.target in AllowedTargets(s.row.status);
    }
  }

  lemma StepKeepsInv(s: State, op: Op)
    requires Inv(s)
    ensures Inv(Next(s, op))
  {
    StepKeepsReadings(s, op);
    StepKeepsTimes(s, op);
  }

  lemma {:induction false} RunKeepsInv(s: State, ops: seq<Op>)
    requires Inv(s)
    ensures Inv(Run(s, ops))
    decreases |ops|
  {
    if ops != [] {
      RunKeepsInv(s, ops[..|ops| - 1]);
      StepKeepsInv(Run(s, ops[..|ops| - 1]), ops[|ops| - 1]);
    }
  }

  /** In every reachable state the times agree with the status, and no breach is marked before its
      deadline. */
  lemma TimesMatchStatus(responseDue: Time, resolutionDue: Time, clock: Time, ops: seq<Op>)
    ensures var s := Run(Created(responseDue, resolutionDue, clock), ops); Timed(s.row, s.clock)
  {
    RunKeepsInv(Created(responseDue, resolutionDue, clock), ops);
  }

  /** The first response and the breach marks are written at most once and never cleared. */
  lemma {:induction false} MarksAreFinal(s: State, ops: seq<Op>)
    requires Inv(s)
    ensures Keeps(s.row, Run(s, ops).row)
    decreases |ops|
  {
    if ops != [] {
      var front := ops[..|ops| - 1];
      MarksAreFinal(s, front);
      RunKeepsInv(s, front);
      StepKeeps(Run(s, front), ops[|ops| - 1]);
    }
  }

  // ---------- which breaches are marked ----------

  /** In every run a breach is marked exactly when some worker, having read the row unmet and
      unmarked, judged it at or after the deadline; the mark is the start of such a worker. */
  lemma {:induction false} MarkedIff(responseDue: Time, resolutionDue: Time, clock: Time, ops: seq<Op>, kind: Kind)
    ensures var c := Created(responseDue, resolutionDue, clock);
            Marked(Run(c, ops).row, kind) <==> exists j :: JudgedAt(c, ops, j, kind)
    ensures var c := Created(responseDue, resolutionDue, clock);
            Marked(Run(c, ops).row, kind) ==>
              exists j :: JudgedAt(c, ops, j, kind) && MarkOf(Run(c, ops).row, kind) == Some(ops[j].probe.startedAt)
    decreases |ops|
  {
    var c := Created(responseDue, resolutionDue, clock);
    if ops != [] {
      var n := |ops| - 1;
      var front := ops[..n];
      MarkedIff(responseDue, resolutionDue, clock, front, kind);
      RunKeepsInv(c, front);
      StepKeeps(Run(c, front), ops[n]);
      forall j ensures 0 <= j < n ==> (JudgedAt(c, ops, j, kind) <==> JudgedAt(c, front, j, kind)) {
        if 0 <= j < n { assert front[..j] == ops[..j] && front[j] == ops[j]; }
      }
      MarkStep(c, ops, kind);
    }
  }

  function MarkOf(row: Incident, kind: Kind): Option<Time> {
    if kind.Response? then row.responseBreachedAt else row.resolutionBreachedAt
  }

  /** Step j of a run is a worker's judgement that the target was missed. */
  ghost predicate JudgedAt(c: State, ops: seq<Op>, j: int, kind: Kind) {
    && 0 <= j < |ops| && ops[j].MarkBreach? && ops[j].probe.kind == kind
    && ops[j].probe in Run(c, ops[..j]).probes
    && ops[j].probe.reading.at <= ops[j].judgedAt <= Run(c, ops[..j]).clock
    && Overdue(ops[j].probe.reading.row, kind, ops[j].judgedAt)
  }

  /** The row shows neither the target met nor the breach marked, and the deadline has come. */
  predicate Overdue(row: Incident, kind: Kind, t: Time) {
    match kind
    case Response => row.firstRespondedAt.None? && row.responseBreachedAt.None? && t >= row.responseDue
    case Resolution => row.resolvedAt.None? && row.resolutionBreachedAt.None? && t >= row.resolutionDue
  }

  lemma MarkStep(c: State, ops: seq<Op>, kind: Kind)
    requires ops != [] && Inv(Run(c, ops[..|ops| - 1]))
    ensures var n := |ops| - 1;
            var before, after := Run(c, ops[..n]).row, Run(c, ops).row;
            && (Marked(after, kind) <==> Marked(before, kind) || JudgedAt(c, ops, n, kind))
            && (Marked(before, kind) ==> MarkOf(after, kind) == MarkOf(before, kind))
            && (Marked(after, kind) && !Marked(before, kind) ==> MarkOf(after, kind) == Some(ops[n].probe.startedAt))
  {
    StepKeeps(Run(c, ops[..|ops| - 1]), ops[|ops| - 1]);
  }

  /** Workers that start at or after the deadline, as scheduled, leave marks at or after it. */
  lemma ScheduledMarks(responseDue: Time, resolutionDue: Time, clock: Time, ops: seq<Op>, kind: Kind, due: Time)
    requires forall i :: 0 <= i < |ops| && ops[i].Inspect? && ops[i].kind == kind ==> ops[i].startedAt >= due
    ensures var row := Run(Created(responseDue, resolutionDue, clock), ops).row;
            Marked(row, kind) ==> MarkOf(row, kind).value >= due
  {
    var c := Created(responseDue, resolutionDue, clock);
    MarkedIff(responseDue, resolutionDue, clock, ops, kind);
    if Marked(Run(c, ops).row, kind) {
      var j :| JudgedAt(c, ops, j, kind) && MarkOf(Run(c, ops).row, kind) == Some(ops[j].probe.startedAt);
      var i := ProbeHasOrigin(c, ops[..j], ops[j].probe);
      assert ops[..j][i] == ops[i];
    }
  }

  /** The step by which a worker got a probe. */
  ghost predicate InspectedAt(c: State, ops: seq<Op>, i: int, probe: Probe) {
    0 <= i < |ops| && ops[i].Inspect? && probe == Probe(ops[i].kind, ops[i].startedAt, Now(Run(c, ops[..i])))
  }

  lemma {:induction false} ProbeHasOrigin(c: State, ops: seq<Op>, probe: Probe) returns (i: nat)
    requires c.probes == {} && probe in Run(c, ops).probes
    ensures InspectedAt(c, ops, i, probe)
    decreases |ops|
  {
    var n := |ops| - 1;
    var front := ops[..n];
    if probe in Run(c, front).probes {
      i := ProbeHasOrigin(c, front, probe);
      assert front[..i] == ops[..i] && front[i] == ops[i];
    } else {
      i := n;
    }
  }

  // ---------- a response in time ----------

  /** Step k of the run writes the first response, with a time before the deadline. */
  ghost predicate RespondsInTime(c: State, ops: seq<Op>, k: int) {
    && 0 <= k < |ops|
    && Run(c, ops[..k]).row.firstRespondedAt.None?
    && Run(c, ops[..k + 1]).row.firstRespondedAt.Some?
    && Run(c, ops[..k + 1]).row.firstRespondedAt.value < c.row.responseDue
  }

  /** A worker read the row before step k and judged it at or after the deadline. */
  ghost predicate FoundAround(c: State, ops: seq<Op>, k: int, i: int, j: int) {
    0 <= i < k && i < j && JudgedAt(c, ops, j, Response) && InspectedAt(c, ops, i, ops[j].probe)
  }

  lemma Later(c: State, ops: seq<Op>, i: nat, j: nat)
    requires i <= j <= |ops| && Inv(c)
    ensures Keeps(Run(c, ops[..i]).row, Run(c, ops[..j]).row) && Inv(Run(c, ops[..j]))
  {
    RunKeepsInv(c, ops[..i]);
    RunKeepsInv(c, ops[..j]);
    assert ops[..j] == ops[..i] + ops[i..j];
    RunConcat(c, ops[..i], ops[i..j]);
    MarksAreFinal(Run(c, ops[..i]), ops[i..j]);
  }

  /** A response stamped in time is marked as a breach exactly when some worker read the row before
      the response was committed and judged it at or after the deadline. */
  lemma InTimeMarkedIff(responseDue: Time, resolutionDue: Time, clock: Time, ops: seq<Op>, k: nat)
    requires RespondsInTime(Created(responseDue, resolutionDue, clock), ops, k)
    ensures var c := Created(responseDue, resolutionDue, clock);
            && Run(c, ops).row.firstRespondedAt == Run(c, ops[..k + 1]).row.firstRespondedAt
            && (Run(c, ops).row.responseBreachedAt.Some? <==> exists i, j :: FoundAround(c, ops, k, i, j))
  {
    var c := Created(responseDue, resolutionDue, clock);
    assert ops[..|ops|] == ops;
    Later(c, ops, k + 1, |ops|);
    MarkedIff(responseDue, resolutionDue, clock, ops, Response);
    if Run(c, ops).row.responseBreachedAt.Some? {
      assert Marked(Run(c, ops).row, Response);
      var j :| JudgedAt(c, ops, j, Response);
      var i := JudgedAround(c, ops, k, j);
      assert FoundAround(c, ops, k, i, j);
    }
    if exists i, j :: FoundAround(c, ops, k, i, j) {
      var i, j :| FoundAround(c, ops, k, i, j);
      assert JudgedAt(c, ops, j, Response);
      assert Marked(Run(c, ops).row, Response);
    }
  }

  lemma JudgedAround(c: State, ops: seq<Op>, k: nat, j: nat) returns (i: nat)
    requires Inv(c) && c.probes == {} && RespondsInTime(c, ops, k) && JudgedAt(c, ops, j, Response)
    ensures FoundAround(c, ops, k, i, j)
  {
    var probe := ops[j].probe;
    i := ProbeHasOrigin(c, ops[..j], probe);
    assert ops[..j][..i] == ops[..i] && ops[..j][i] == ops[i];
    if i > k { Later(c, ops, k + 1, i); }
    assert ops[..k + 1][..k] == ops[..k];
    Later(c, ops, 0, i);
    assert ops[..0] == [];
  }

  /** Such a run: the API samples its time just before the deadline and commits just after it; in
      between the worker, started on schedule, reads the row without the response. */
  lemma InTimeResponseMarked(responseDue: Time, resolutionDue: Time) returns (ops: seq<Op>)
    ensures var row := Run(Created(responseDue, resolutionDue, responseDue - 1), ops).row;
            row.firstRespondedAt == Some(responseDue - 1) && row.responseBreachedAt == Some(responseDue)
  {
    var c := Created(responseDue, resolutionDue, responseDue - 1);
    var r := Request(Triaged, 1, None, None);
    var read, p := Now(c), Pending(r, c.row);
    var begun := Next(c, Begin(r));
    var due := Next(begun, Tick(responseDue));
    var probed := Next(due, Inspect(Response, responseDue));
    var probe := Probe(Response, responseDue, Now(due));
    var responded := Next(probed, Commit(p, read, responseDue - 1));
    assert responded.row.firstRespondedAt == Some(responseDue - 1);
    ops := [Begin(r), Tick(responseDue), Inspect(Response, responseDue), Commit(p, read, responseDue - 1),
            MarkBreach(probe, responseDue)];
    RunOfFive(c, ops, begun, due, probed, responded);
  }

  lemma RunOfFive(c: State, ops: seq<Op>, s1: State, s2: State, s3: State, s4: State)
    requires |ops| == 5 && s1 == Next(c, ops[0]) && s2 == Next(s1, ops[1]) && s3 == Next(s2, ops[2]) &&
               s4 == Next(s3, ops[3])
    ensures Run(c, ops) == Next(s4, ops[4])
  {
    assert ops[..0] == [];
    assert forall k :: 0 <= k < 5 ==> ops[..k + 1][..k] == ops[..k] && ops[..k + 1][k] == ops[k];
    assert Run(c, ops[..1]) == s1;
    assert Run(c, ops[..2]) == s2;
    assert Run(c, ops[..3]) == s3;
    assert Run(c, ops[..4]) == s4;
    assert ops[..5] == ops;
  }

  /** From a state in which the response is written and not marked, a mark can still come exactly
      when a worker holds a reading without the response. */
  lemma MayStillBeMarkedIff(s: State)
    requires Inv(s) && s.row.firstRespondedAt.Some? && s.row.responseBreachedAt.None?
    ensures (exists ops :: Run(s, ops).row.responseBreachedAt.Some?) <==>
            exists p :: p in s.probes && p.kind.Response? && p.reading.row.firstRespondedAt.None?
  {
    if p :| p in s.probes && p.kind.Response? && p.reading.row.firstRespondedAt.None? {
      var t := Max(s.clock, Max(p.reading.at, s.row.responseDue));
      RunTwo(s, Tick(t), MarkBreach(p, t));
      assert Earlier(p.reading.row, s.row);
      assert Judges(Next(s, Tick(t)), MarkBreach(p, t));
      assert Run(s, [Tick(t), MarkBreach(p, t)]).row.responseBreachedAt.Some?;
    } else {
      forall ops ensures Run(s, ops).row.responseBreachedAt.None? {
        NeverMarked(s, ops);
      }
    }
  }

  ghost predicate AllProbesResponded(s: State) {
    forall p :: p in s.probes && p.kind.Response? ==> p.reading.row.firstRespondedAt.Some?
  }

  lemma {:induction false} NeverMarked(s: State, ops: seq<Op>)
    requires Inv(s) && s.row.firstRespondedAt.Some? && s.row.responseBreachedAt.None? && AllProbesResponded(s)
    ensures Run(s, ops).row.responseBreachedAt.None? && AllProbesResponded(Run(s, ops))
    decreases |ops|
  {
    if ops != [] {
      var front := ops[..|ops| - 1];
      NeverMarked(s, front);
      MarksAreFinal(s, front);
    }
  }

  // ---------- analysis before resolution ----------

  /** The client names a version that it has observed. */
  predicate Observed(r: Request, row: Incident) {
    r.version <= row.version
  }

  /** The check of the request depends on a stored text that a later writer may clear. A resolved
      incident's root cause is not such a text: it cannot be cleared. */
  predicate ReliesOnStored(r: Request, row: Incident) {
    || (r.target in {Resolved, Closed} && row.status != Resolved && r.rootCause.None?)
    || (r.target == Closed && r.lessonsLearned.None?)
  }

  predicate Careful(r: Request, row: Incident) {
    Observed(r, row) || !ReliesOnStored(r, row)
  }

  /** Every pending request was begun carefully. */
  ghost predicate AllCareful(s: State) {
    forall p :: p in s.pending ==> Careful(p.request, p.snapshot)
  }

  ghost predicate Sound(s: State) {
    Inv(s) && AllCareful(s) && AnalysisComplete(s.row)
  }

  lemma CommitKeepsAnalysis(s: State, op: Op)
    requires Sound(s) && op.Commit? && Next(s, op) != s
    ensures AnalysisComplete(Next(s, op).row)
  {
    ReadIsCurrent(s, op.read.row);
    var p := op.begun;
    if Observed(p.request, p.snapshot) {
      ReadIsCurrent(s, p.snapshot);
    }
  }

  lemma StepKeepsSound(s: State, op: Op)
    requires Sound(s) && (op.Begin? ==> Careful(op.request, s.row))
    ensures Sound(Next(s, op))
  {
    StepKeepsInv(s, op);
    if op.Commit? && Next(s, op) != s { CommitKeepsAnalysis(s, op); }
    if op.Analyse? && Next(s, op) != s { ReadIsCurrent(s, op.known.row); }
  }

  /** Every request in the run is begun carefully. */
  ghost predicate CarefulRun(s: State, ops: seq<Op>) {
    forall k :: 0 <= k < |ops| && ops[k].Begin? ==> Careful(ops[k].request, Run(s, ops[..k]).row)
  }

  lemma {:induction false} CarefulRunsStaySound(s: State, ops: seq<Op>)
    requires Sound(s) && CarefulRun(s, ops)
    ensures Sound(Run(s, ops))
    decreases |ops|
  {
    if ops != [] {
      var n := |ops| - 1;
      var front := ops[..n];
      forall k | 0 <= k < n && front[k].Begin? ensures Careful(front[k].request, Run(s, front[..k]).row) {
        assert front[..k] == ops[..k] && front[k] == ops[k];
      }
      CarefulRunsStaySound(s, front);
      assert ops[n].Begin? ==> Careful(ops[n].request, Run(s, front).row);
      StepKeepsSound(Run(s, front), ops[n]);
    }
  }

  /** As long as clients submit versions they have observed, no reachable incident is resolved
      without a root cause or closed without lessons, although each check reads an earlier snapshot. */
  lemma AnalysisBeforeResolution(responseDue: Time, resolutionDue: Time, clock: Time, ops: seq<Op>)
    requires CarefulRun(Created(responseDue, resolutionDue, clock), ops)
    ensures AnalysisComplete(Run(Created(responseDue, resolutionDue, clock), ops).row)
  {
    CarefulRunsStaySound(Created(responseDue, resolutionDue, clock), ops);
  }

  // ---------- a guessed version defeats the check ----------

  lemma RunTwo(s: State, a: Op, b: Op)
    ensures Run(s, [a, b]) == Next(Next(s, a), b)
  {
    assert [a, b][..1] == [a] && [a][..0] == [];
    assert Run(s, [a]) == Next(s, a);
  }

  /** Assignments can raise the version step by step and change nothing else that matters. */
  lemma {:induction false} Raise(s: State, count: nat) returns (ops: seq<Op>)
    ensures forall k :: 0 <= k < |ops| ==> !ops[k].Begin?
    ensures var n := Run(s, ops);
            && n.row == s.row.(version := s.row.version + count, assignee := n.row.assignee)
            && n.clock == s.clock && n.pending == s.pending && n.probes == s.probes
  {
    if count == 0 {
      ops := [];
    } else {
      var first := Raise(s, count - 1);
      var t := Run(s, first);
      var assign := Op.Assign(Now(t), t.row.version, None);
      RunTwo(t, Look, assign);
      RunConcat(s, first, [Look, assign]);
      ops := first + [Look, assign];
    }
  }

  lemma {:induction false} RunConcat(s: State, a: seq<Op>, b: seq<Op>)
    ensures Run(s, a + b) == Run(Run(s, a), b)
    decreases |b|
  {
    if b == [] {
      assert a + b == a;
    } else {
      assert (a + b)[..|a + b| - 1] == a + b[..|b| - 1];
      RunConcat(s, a, b[..|b| - 1]);
    }
  }

  /** Clears the stored texts that the request relies on, then commits the request. */
  lemma ClearThenCommit(s: State, p: Pending) returns (ops: seq<Op>)
    requires p in s.pending && WellFormed(p.request) && ReliesOnStored(p.request, p.snapshot)
    requires Check(p.snapshot, p.request).Allowed?
    requires s.row.status == p.snapshot.status && s.row.version == p.request.version - 1
    requires s.row.rootCause == p.snapshot.rootCause && s.row.lessonsLearned == p.snapshot.lessonsLearned
    requires AnalysisComplete(s.row)
    ensures !AnalysisComplete(Run(s, ops).row)
    ensures Run(s, ops).row.rootCause.Some? ==> Meaningful(Run(s, ops).row.rootCause)
    ensures Run(s, ops).row.lessonsLearned.Some? ==> Meaningful(Run(s, ops).row.lessonsLearned)
    ensures forall k :: 0 <= k < |ops| ==> !ops[k].Begin?
  {
    var r := p.request;
    var root := if s.row.status == Resolved then Keep else Clear;
    var analyse := Analyse(Now(s), s.row.version, root, Clear);
    RunTwo(s, Look, analyse);
    var cleared := Run(s, [Look, analyse]);
    assert cleared.row == Incidents.Analysed(s.row, root, Clear);
    var commit := Commit(p, Now(cleared), cleared.clock);
    RunTwo(cleared, Look, commit);
    assert Run(cleared, [Look, commit]).row == Transitioned(cleared.row, cleared.row, r, s.clock);
    ops := [Look, analyse] + [Look, commit];
    RunConcat(s, [Look, analyse], [Look, commit]);
  }

  /** A request with a version nobody has seen yet, which relies on stored analysis, has a
      continuation that resolves or closes the incident without it, using only writes that the
      repository and the table's check constraints accept. */
  lemma GuessedVersionBreaks(s: State, r: Request) returns (ops: seq<Op>)
    requires Sound(s) && WellFormed(r) && Check(s.row, r).Allowed? && !Careful(r, s.row)
    ensures !AnalysisComplete(Run(Next(s, Begin(r)), ops).row)
    ensures PassesChecks(Run(Next(s, Begin(r)), ops).row)
    ensures forall k :: 0 <= k < |ops| ==> !ops[k].Begin?
  {
    var begun := Next(s, Begin(r));
    var bumps := Raise(begun, r.version - 1 - s.row.version);
    var late := Run(begun, bumps);
    var rest := ClearThenCommit(late, Pending(r, s.row));
    ops := bumps + rest;
    RunConcat(begun, bumps, rest);
    MeaningfulPassesChecks(Run(begun, ops).row);
  }

  lemma {:induction false} SpacesAreSpace(s: string, a: nat, b: nat)
    requires a < b <= |s| && !IsSpace(s[a]) && !IsSpace(s[b - 1])
    ensures |TrimSpaces(s)| >= b - a
    decreases |s|
  {
    if s[0] == ' ' {
      SpacesAreSpace(s[1..], a - 1, b - 1);
    } else if s[|s| - 1] == ' ' {
      SpacesAreSpace(s[..|s| - 1], a, b);
    }
  }

  /** The check constraints refuse no text that the policy calls meaningful, and no NULL either. */
  lemma MeaningfulPassesChecks(row: Incident)
    requires row.rootCause.Some? ==> Meaningful(row.rootCause)
    requires row.lessonsLearned.Some? ==> Meaningful(row.lessonsLearned)
    ensures PassesChecks(row)
  {
    if row.rootCause.Some? { MeaningfulIsLong(row.rootCause.value); }
    if row.lessonsLearned.Some? { MeaningfulIsLong(row.lessonsLearned.value); }
  }

  lemma MeaningfulIsLong(text: string)
    requires |Trim(text)| >= 10
    ensures |TrimSpaces(text)| >= 10
  {
    var a, b := TrimCut(text);
    assert text[a..b][0] == text[a] && text[a..b][b - a - 1] == text[b - 1];
    SpacesAreSpace(text, a, b);
  }

  /** Exactly the careful requests are safe in every continuation by careful requests. */
  lemma SafeIffCareful(s: State, r: Request)
    requires Sound(s) && WellFormed(r) && Check(s.row, r).Allowed?
    ensures Careful(r, s.row)
       <==> forall ops :: CarefulRun(Next(s, Begin(r)), ops) ==> AnalysisComplete(Run(Next(s, Begin(r)), ops).row)
  {
    var begun := Next(s, Begin(r));
    if Careful(r, s.row) {
      StepKeepsSound(s, Begin(r));
      forall ops | CarefulRun(begun, ops) ensures AnalysisComplete(Run(begun, ops).row) {
        CarefulRunsStaySound(begun, ops);
      }
    } else {
      var ops := GuessedVersionBreaks(s, r);
      assert CarefulRun(begun, ops);
    }
  }
}
