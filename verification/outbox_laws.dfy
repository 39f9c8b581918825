/** What holds of an outbox row over every run of any number of dispatchers. */
module OutboxLaws {
  import opened Basics
  import opened Outbox

  ghost predicate Inv(e: Event) {
    && e.row.retryCount <= MAX_CLAIMS
    && (forall n :: n in e.claims ==> 1 <= n <= e.row.retryCount)
    && (forall n :: n in e.claims && e.claims[n].Enqueued? ==> e.enqueued)
    && (e.row.status.Published? ==> e.enqueued)
    && (e.row.status.Failed? ==> e.row.retryCount == MAX_CLAIMS)
    && (e.row.status.Processing? ==> e.row.retryCount >= 1)
    && (e.row.retryCount == 0 ==> e.row.status.Pending?)
  }

  lemma StepKeepsInv(e: Event, step: Step)
    requires Inv(e)
    ensures Inv(Next(e, step))
    ensures e.row.retryCount <= Next(e, step).row.retryCount <= e.row.retryCount + 1
    ensures e.row.status in {Published, Failed} ==> Next(e, step).row == e.row
    ensures e.enqueued ==> Next(e, step).enqueued
  {
  }

  lemma {:induction false} RunKeepsInv(e: Event, steps: seq<Step>)
    requires Inv(e)
    ensures Inv(Run(e, steps))
    ensures e.row.status in {Published, Failed} ==> Run(e, steps).row == e.row
    ensures e.enqueued ==> Run(e, steps).enqueued
    decreases |steps|
  {
    if steps != [] {
      RunKeepsInv(e, steps[..|steps| - 1]);
      StepKeepsInv(Run(e, steps[..|steps| - 1]), steps[|steps| - 1]);
    }
  }

  /** The number of successful claims in a run. */
  function ClaimCount(e: Event, steps: seq<Step>): nat
    decreases |steps|
  {
    if steps == [] then 0
    else
      var before, last := Run(e, steps[..|steps| - 1]), steps[|steps| - 1];
      ClaimCount(e, steps[..|steps| - 1]) + if last.Claim? && Claimable(before.row, last.now) then 1 else 0
  }

  lemma {:induction false} RetryCountCountsClaims(e: Event, steps: seq<Step>)
    ensures Run(e, steps).row.retryCount == e.row.retryCount + ClaimCount(e, steps)
    decreases |steps|
  {
    if steps != [] { RetryCountCountsClaims(e, steps[..|steps| - 1]); }
  }

  /** Over every run: at most ten claims; PUBLISHED only after the job was enqueued; FAILED only
      after the tenth claim; and both are final. */
  lemma EveryRun(availableAt: Time, steps: seq<Step>, more: seq<Step>)
    ensures var e := Run(NewEvent(availableAt), steps);
            && ClaimCount(NewEvent(availableAt), steps) == e.row.retryCount <= MAX_CLAIMS
            && (e.row.status.Published? ==> e.enqueued)
            && (e.row.status.Failed? ==> e.row.retryCount == MAX_CLAIMS)
            && (e.row.status in {Published, Failed} ==> Run(e, more).row == e.row)
  {
    RunKeepsInv(NewEvent(availableAt), steps);
    RunKeepsInv(Run(NewEvent(availableAt), steps), more);
    RetryCountCountsClaims(NewEvent(availableAt), steps);
  }

  /** No retries are left, nobody is at work on the row, and it is neither published nor failed. */
  predicate Stuck(e: Event) {
    e.row.retryCount == MAX_CLAIMS && e.claims == map[] && e.row.status in {Pending, Processing}
  }

  lemma {:induction false} StuckStaysStuck(e: Event, steps: seq<Step>)
    requires Stuck(e)
    ensures Run(e, steps) == e
    decreases |steps|
  {
    if steps != [] { StuckStaysStuck(e, steps[..|steps| - 1]); }
  }

  // ---------- what becomes of a row after its tenth claim ----------

  /** A mark that a holder makes for its own claim. */
  predicate Marks(e: Event, step: Step) {
    match step
    case MarkPublished(n) => n in e.claims && e.claims[n].Enqueued?
    case MarkFailed(n, _) => n in e.claims
    case _ => false
  }

  datatype Fate = Undecided | Decided(mark: Step)

  /** The first mark that is made after the tenth claim. */
  function FateOf(availableAt: Time, steps: seq<Step>): Fate
    decreases |steps|
  {
    if steps == [] then Undecided
    else
      var front, last := steps[..|steps| - 1], steps[|steps| - 1];
      var before, fate := Run(NewEvent(availableAt), front), FateOf(availableAt, front);
      if fate.Decided? then fate
      else if before.row.retryCount == MAX_CLAIMS && Marks(before, last) then Decided(last)
      else Undecided
  }

  /** The status that a mark gives to a row which is PROCESSING. */
  function StatusBy(mark: Step): Status {
    match mark
    case MarkPublished(_) => Published
    case MarkFailed(n, _) => if n >= MAX_CLAIMS then Failed else Pending
    case _ => Processing
  }

  /** From the tenth claim on, the first mark decides: PUBLISHED when it marks a publication, FAILED
      when the tenth holder marks a failure, PENDING when an earlier holder does, and PROCESSING as
      long as there is none. */
  lemma {:induction false} FirstMarkDecides(availableAt: Time, steps: seq<Step>)
    ensures var e, fate := Run(NewEvent(availableAt), steps), FateOf(availableAt, steps);
            && (fate.Decided? ==> e.row.retryCount == MAX_CLAIMS && (fate.mark.MarkPublished? || fate.mark.MarkFailed?))
            && (e.row.retryCount == MAX_CLAIMS ==>
                 e.row.status == if fate.Decided? then StatusBy(fate.mark) else Processing)
    decreases |steps|
  {
    if steps != [] {
      var front := steps[..|steps| - 1];
      FirstMarkDecides(availableAt, front);
      RunKeepsInv(NewEvent(availableAt), front);
      MarkStep(Run(NewEvent(availableAt), front), steps[|steps| - 1]);
    }
  }

  lemma MarkStep(e: Event, step: Step)
    requires Inv(e)
    ensures var n := Next(e, step);
            && (e.row.retryCount == MAX_CLAIMS ==>
                  n.row.retryCount == MAX_CLAIMS
                  && n.row.status == if e.row.status.Processing? && Marks(e, step) then StatusBy(step)
                       else e.row.status)
            && (e.row.retryCount < MAX_CLAIMS && n.row.retryCount == MAX_CLAIMS ==>
                 n.row.status.Processing? && !Marks(e, step))
  {
  }

  /** A row is stuck exactly when its tenth claim is made and all holders are gone, and the first mark
      after that claim, if there was one, was the failure of an earlier holder; it is PROCESSING when
      there was none, and PENDING otherwise. */
  lemma StuckIff(availableAt: Time, steps: seq<Step>)
    ensures var e, fate := Run(NewEvent(availableAt), steps), FateOf(availableAt, steps);
            Stuck(e) <==> e.row.retryCount == MAX_CLAIMS && e.claims == map[]
                          && (fate.Undecided? || (fate.mark.MarkFailed? && fate.mark.n < MAX_CLAIMS))
    ensures var e := Run(NewEvent(availableAt), steps);
            Stuck(e) ==> (e.row.status.Processing? <==> FateOf(availableAt, steps).Undecided?)
  {
    FirstMarkDecides(availableAt, steps);
  }

  /** One dispatcher that never stops halfway: each claim is published before the next. */
  datatype Cycle = Cycle(claimAt: Time, markAt: Time, added: bool, marked: bool)

  function RunCycle(e: Event, c: Cycle): Event {
    var claimed := Next(e, Claim(c.claimAt));
    if Claimable(e.row, c.claimAt) then
      Run(claimed, PublishSteps(claimed.row.retryCount, c.markAt, c.added, c.marked))
    else e
  }

  function RunCycles(e: Event, cycles: seq<Cycle>): Event
    decreases |cycles|
  {
    if cycles == [] then e else RunCycles(RunCycle(e, cycles[0]), cycles[1..])
  }

  lemma {:induction false} SoleDispatcherNeverSticks(e: Event, cycles: seq<Cycle>)
    requires e.claims == map[] && e.row.retryCount <= MAX_CLAIMS
    requires !e.row.status.Processing? && (e.row.status.Pending? ==> e.row.retryCount < MAX_CLAIMS)
    ensures var r := RunCycles(e, cycles);
            && r.claims == map[] && !r.row.status.Processing?
            && (r.row.retryCount == MAX_CLAIMS ==> r.row.status in {Published, Failed})
    decreases |cycles|
  {
    if cycles != [] {
      var c := cycles[0];
      if Claimable(e.row, c.claimAt) {
        var claimed := Next(e, Claim(c.claimAt));
        var n := claimed.row.retryCount;
        PublishIsRun(claimed, n, c.markAt, c.added, c.marked);
        OnlyClaimFinished(claimed, n, c);
      }
      SoleDispatcherNeverSticks(RunCycle(e, c), cycles[1..]);
    }
  }

  lemma OnlyClaimFinished(e: Event, n: nat, c: Cycle)
    requires e.claims == map[n := Claimed]
    ensures Run(e, PublishSteps(n, c.markAt, c.added, c.marked)).claims == map[]
  {
    var steps := PublishSteps(n, c.markAt, c.added, c.marked);
    assert steps[..|steps| - 1] == if c.added then [Enqueue(n)] else [];
    assert [Enqueue(n)][..0] == [] && Run(e, []) == e;
    assert Run(e, [Enqueue(n)]) == Next(e, Enqueue(n));
  }

  /** While a lease runs and nobody marks the row, no step of any dispatcher changes it: no other claim
      succeeds, whatever is enqueued or abandoned meanwhile. */
  lemma {:induction false} LeaseHolds(e: Event, t: Time, steps: seq<Step>)
    requires Claimable(e.row, t)
    requires forall i :: 0 <= i < |steps| ==> !steps[i].MarkPublished? && !steps[i].MarkFailed?
    requires forall i :: 0 <= i < |steps| && steps[i].Claim? ==> steps[i].now < t + LEASE
    ensures Run(Next(e, Claim(t)), steps).row == Next(e, Claim(t)).row
    decreases |steps|
  {
    if steps != [] { LeaseHolds(e, t, steps[..|steps| - 1]); }
  }

  // ---------- which rows are claimed, and when ----------

  /** The row is still open, its time has come, and it has a retry left. */
  predicate Due(row: Row, now: Time) {
    (row.status.Pending? || row.status.Processing?) && row.availableAt <= now && row.retryCount < 10
  }

  /** A claim changes a row exactly when it is due, and then takes it for a minute. */
  lemma ClaimIff(e: Event, now: Time)
    ensures Next(e, Claim(now)).row
         == if Due(e.row, now) then Row(Processing, e.row.retryCount + 1, now + 60_000) else e.row
    ensures Next(e, Claim(now)).claims
         == if Due(e.row, now) then e.claims[e.row.retryCount + 1 := Claimed] else e.claims
  {
  }

  /** How many rows of the query are due and not locked by another dispatcher. */
  function DueCount(rows: map<Id, Row>, order: seq<Id>, locked: set<Id>, now: Time): nat
    requires forall i :: 0 <= i < |order| ==> order[i] in rows
  {
    if order == [] then 0
    else (if order[0] !in locked && Due(rows[order[0]], now) then 1 else 0) + DueCount(rows, order[1..], locked, now)
  }

  /** The claiming statement takes a row exactly when it is due, not locked, and fewer than as many such
      rows as the limit come before it in the query. */
  lemma {:induction false} ChosenIff(
      rows: map<Id, Row>, order: seq<Id>, locked: set<Id>, now: Time, limit: nat, p: nat)
    requires forall i :: 0 <= i < |order| ==> order[i] in rows
    requires forall i, j :: 0 <= i < j < |order| ==> order[i] != order[j]
    requires p < |order|
    ensures order[p] in Chosen(rows, order, locked, now, limit)
       <==> order[p] !in locked && Due(rows[order[p]], now) && DueCount(rows, order[..p], locked, now) < limit
    decreases |order|
  {
    if limit > 0 {
      var taken := order[0] !in locked && Due(rows[order[0]], now);
      if p > 0 {
        ChosenIff(rows, order[1..], locked, now, if taken then limit - 1 else limit, p - 1);
        assert order[..p][0] == order[0] && order[..p][1..] == order[1..][..p - 1];
      } else {
        ChosenRows(rows, order[1..], locked, now, if taken then limit - 1 else limit);
      }
    }
  }

  // ---------- the waits between the attempts of one dispatcher ----------

  /** Seconds to wait after the first failure, the second, and so on. */
  const WAITS: seq<int> := [2, 4, 8, 16, 32, 64, 128, 256, 300, 300]

  predicate Fails(c: Cycle) {
    !c.added || !c.marked
  }

  /** Every cycle comes when the row is due, and fails to publish it. */
  predicate DueAndFailing(availableAt: Time, cycles: seq<Cycle>) {
    |cycles| <= 10 && forall i :: 0 <= i < |cycles| ==>
      Fails(cycles[i])
      && cycles[i].claimAt >= if i == 0 then availableAt else cycles[i - 1].markAt + 1_000 * WAITS[i - 1]
  }

  lemma {:induction false} LastCycle(e: Event, cycles: seq<Cycle>)
    requires cycles != []
    ensures RunCycles(e, cycles) == RunCycle(RunCycles(e, cycles[..|cycles| - 1]), cycles[|cycles| - 1])
    decreases |cycles|
  {
    if |cycles| > 1 {
      LastCycle(RunCycle(e, cycles[0]), cycles[1..]);
      assert cycles[1..][..|cycles| - 2] == cycles[..|cycles| - 1][1..];
    }
  }

  lemma CycleOnDue(e: Event, c: Cycle)
    requires e.claims == map[] && Due(e.row, c.claimAt)
    ensures var n, r := e.row.retryCount + 1, RunCycle(e, c);
            && r.claims == map[] && r.row.retryCount == n
            && (Fails(c) ==> r.row.status == (if n == 10 then Failed else Pending))
            && (Fails(c) ==> r.row.availableAt == c.markAt + 1_000 * WAITS[n - 1])
            && (!Fails(c) ==> r.row == Row(Published, n, c.claimAt + 60_000) && r.enqueued)
  {
    var claimed := Next(e, Claim(c.claimAt));
    ClaimIff(e, c.claimAt);
    PublishIsRun(claimed, claimed.row.retryCount, c.markAt, c.added, c.marked);
    OnlyClaimFinished(claimed, claimed.row.retryCount, c);
    WaitsAreCapped(claimed.row.retryCount);
  }

  lemma WaitsAreCapped(n: nat)
    requires 1 <= n <= 10
    ensures Min(300, Power2(n)) == WAITS[n - 1]
  {
    assert Power2(4) == 16;
    assert Power2(8) == 256;
  }

  /** After n failures the row waits for the n-th of the waits from the last of them; the tenth makes it
      FAILED. A cycle that succeeds before that publishes it. */
  lemma {:induction false} RetriesInOrder(availableAt: Time, cycles: seq<Cycle>, last: Cycle)
    requires DueAndFailing(availableAt, cycles)
    ensures var n, r := |cycles|, RunCycles(NewEvent(availableAt), cycles);
            && r.claims == map[]
            && (n == 0 ==> r.row == Row(Pending, 0, availableAt))
            && (n > 0 ==> r.row == Row(if n == 10 then Failed else Pending, n,
                                       cycles[n - 1].markAt + 1_000 * WAITS[n - 1]))
            && (n < 10 && !Fails(last) && last.claimAt >= r.row.availableAt ==>
                  RunCycles(NewEvent(availableAt), cycles + [last]).row == Row(Published, n + 1, last.claimAt + 60_000))
            && (last.claimAt < r.row.availableAt || n == 10 ==>
                  RunCycles(NewEvent(availableAt), cycles + [last]) == r)
    decreases |cycles|
  {
    var n, e := |cycles|, NewEvent(availableAt);
    if n > 0 {
      RetriesInOrder(availableAt, cycles[..n - 1], last);
      LastCycle(e, cycles);
      CycleOnDue(RunCycles(e, cycles[..n - 1]), cycles[n - 1]);
    }
    LastCycle(e, cycles + [last]);
    assert (cycles + [last])[..n] == cycles;
    var r := RunCycles(e, cycles);
    if Due(r.row, last.claimAt) { CycleOnDue(r, last); }
  }

  // ---------- the two ways to get stuck are real ----------

  /** From any row before its tenth claim: the holder of that claim stops, and the row stays
      PROCESSING for ever. */
  lemma CrashOnTenthClaimSticks(e: Event, now: Time)
    requires e.claims == map[] && e.row.retryCount == MAX_CLAIMS - 1 && Claimable(e.row, now)
    ensures Stuck(Run(e, [Claim(now), Abandon(MAX_CLAIMS)]))
  {
    var steps := [Claim(now), Abandon(MAX_CLAIMS)];
    assert steps[..1] == [Claim(now)] && [Claim(now)][..0] == [];
    assert Run(e, []) == e;
    assert Run(e, [Claim(now)]) == Next(e, Claim(now));
  }

  /** From any row before its ninth claim: the ninth holder outlives its lease and marks a failure
      after the tenth claim; the row is then PENDING with no retries left, although the tenth holder
      enqueues the job and marks it published. */
  lemma LateFailureSticks(e: Event, t: Time, u: Time, v: Time)
    requires e.claims == map[] && e.row.retryCount == MAX_CLAIMS - 2 && Claimable(e.row, t) && t + LEASE <= u
    ensures var r :=
              Next(Next(Next(Next(Next(e, Claim(t)), Claim(u)), MarkFailed(9, v)), Enqueue(10)), MarkPublished(10));
            Stuck(r) && r.enqueued && r.row.status.Pending?
  {
    var a := Next(Next(e, Claim(t)), Claim(u));
    assert a.claims == map[9 := Claimed, 10 := Claimed] && a.row.status.Processing?;
    var b := Next(a, MarkFailed(9, v));
    assert b.claims == map[10 := Claimed] && b.row.status.Pending?;
  }
}
