/** What deduplication keys mean, and what the alerts say of the executions behind them. */
module DetectionLaws {
  import opened Basics
  import opened Detection

  // ---------- decimal numbers ----------

  lemma {:induction false} DecimalShape(n: int)
    ensures Decimal(n) != "" && Lacks(Decimal(n), ':')
    ensures n >= 0 ==> Decimal(n)[0] != '-'
    ensures n < 0 ==> Decimal(n)[0] == '-'
    decreases if n < 0 then 1 - n else n
  {
    if n < 0 { DecimalShape(-n); } else if n >= 10 { DecimalShape(n / 10); }
  }

  lemma {:induction false} NaturalInjective(m: nat, n: nat)
    requires Decimal(m) == Decimal(n)
    ensures m == n
    decreases m
  {
    if m >= 10 { DecimalShape(m / 10); }
    if n >= 10 { DecimalShape(n / 10); }
    var s, t := Decimal(m), Decimal(n);
    assert s[|s| - 1] == Digit(m % 10) && t[|t| - 1] == Digit(n % 10);
    assert m % 10 == n % 10;
    assert m < 10 <==> |s| == 1;
    if m >= 10 {
      assert s[..|s| - 1] == Decimal(m / 10) && t[..|t| - 1] == Decimal(n / 10);
      NaturalInjective(m / 10, n / 10);
    }
  }

  lemma DecimalInjective(m: int, n: int)
    requires Decimal(m) == Decimal(n)
    ensures m == n
  {
    DecimalShape(m);
    DecimalShape(n);
    if m < 0 {
      assert Decimal(m)[1..] == Decimal(-m) && Decimal(n)[1..] == Decimal(-n);
      NaturalInjective(-m, -n);
    } else {
      NaturalInjective(m, n);
    }
  }

  // ---------- keys ----------

  /** The parts of a deduplication text can be read off it, since the id of a rule has no colon. */
  lemma DedupTextInjective(i: string, v: nat, c: string, b: int, j: string, w: nat, d: string, e: int)
    requires Lacks(i, ':') && Lacks(j, ':') && DedupText(i, v, c, b) == DedupText(j, w, d, e)
    ensures i == j && v == w && c == d && b == e
  {
    var r, s := Decimal(v) + ":" + (c + ":" + Decimal(b)), Decimal(w) + ":" + (d + ":" + Decimal(e));
    assert DedupText(i, v, c, b) == i + ":" + r && DedupText(j, w, d, e) == j + ":" + s;
    FirstSeparator(i, j, ':', r, s);
    DecimalShape(v);
    DecimalShape(w);
    FirstSeparator(Decimal(v), Decimal(w), ':', c + ":" + Decimal(b), d + ":" + Decimal(e));
    DecimalShape(b);
    DecimalShape(e);
    LastSeparator(c, d, ':', Decimal(b), Decimal(e));
    DecimalInjective(v, w);
    DecimalInjective(b, e);
  }

  // ---------- correlation ----------

  /** No value of the dimensions contains the separator. */
  predicate PlainValues(dimensions: seq<Dimension>, e: Event) {
    forall i :: 0 <= i < |dimensions| ==> Lacks(ValueOf(dimensions[i], e), '|')
  }

  /** A missing value and the text "unknown" are one. */
  predicate SameOrUnknown(x: Option<string>, y: Option<string>) {
    x == y || {x, y} == {None, Some("unknown")}
  }

  /** Two events have the same value in a dimension. */
  predicate Agree(d: Dimension, a: Event, b: Event) {
    match d
    case ActorUser => SameOrUnknown(a.actorUserHash, b.actorUserHash)
    case Asset => SameOrUnknown(a.assetId, b.assetId)
    case EventType => a.eventType == b.eventType
    case Fingerprint => a.fingerprint == b.fingerprint
    case SourceIp => SameOrUnknown(a.sourceIpHash, b.sourceIpHash)
  }

  predicate AgreeOn(dimensions: seq<Dimension>, a: Event, b: Event) {
    forall i :: 0 <= i < |dimensions| ==> Agree(dimensions[i], a, b)
  }

  lemma AgreeIff(d: Dimension, a: Event, b: Event)
    ensures Agree(d, a, b) <==> ValueOf(d, a) == ValueOf(d, b)
  {
  }

  lemma AgreeFirst(dimensions: seq<Dimension>, a: Event, b: Event)
    requires dimensions != []
    ensures AgreeOn(dimensions, a, b) <==> Agree(dimensions[0], a, b) && AgreeOn(dimensions[1..], a, b)
  {
    var rest := dimensions[1..];
    assert forall i :: 0 < i < |dimensions| ==> dimensions[i] == rest[i - 1];
    assert forall i :: 0 <= i < |rest| ==> rest[i] == dimensions[i + 1];
  }

  /** Two events correlate under some dimensions exactly when they agree in each of them. */
  lemma {:induction false} CorrelateIff(dimensions: seq<Dimension>, a: Event, b: Event)
    requires PlainValues(dimensions, a) && PlainValues(dimensions, b)
    ensures CorrelationKey(dimensions, a) == CorrelationKey(dimensions, b)
       <==> AgreeOn(dimensions, a, b)
    decreases |dimensions|
  {
    if dimensions != [] {
      var rest := dimensions[1..];
      assert forall i :: 0 <= i < |rest| ==> rest[i] == dimensions[i + 1];
      CorrelateIff(rest, a, b);
      AgreeFirst(dimensions, a, b);
      AgreeIff(dimensions[0], a, b);
      FirstPart(dimensions, a, b);
    }
  }

  lemma FirstPart(dimensions: seq<Dimension>, a: Event, b: Event)
    requires dimensions != [] && PlainValues(dimensions, a) && PlainValues(dimensions, b)
    ensures CorrelationKey(dimensions, a) == CorrelationKey(dimensions, b)
       <==> ValueOf(dimensions[0], a) == ValueOf(dimensions[0], b)
            && CorrelationKey(dimensions[1..], a) == CorrelationKey(dimensions[1..], b)
  {
    var d := dimensions[0];
    var p, q := Prefix(d) + ValueOf(d, a), Prefix(d) + ValueOf(d, b);
    assert p[|Prefix(d)|..] == ValueOf(d, a) && q[|Prefix(d)|..] == ValueOf(d, b);
    PrefixPlain(d);
    if |dimensions| > 1 && CorrelationKey(dimensions, a) == CorrelationKey(dimensions, b) {
      FirstSeparator(p, q, '|', CorrelationKey(dimensions[1..], a), CorrelationKey(dimensions[1..], b));
    }
  }

  lemma PrefixPlain(d: Dimension)
    ensures Lacks(Prefix(d), '|')
  {
  }

  // ---------- windows ----------

  /** A time lies in the k-th of the windows that divide all time, each as long as the rule says. */
  predicate InWindow(dedupSeconds: nat, k: int, t: Time) {
    k * (dedupSeconds * 1_000) <= t < (k + 1) * (dedupSeconds * 1_000)
  }

  lemma BucketIff(r: Rule, e: Event, k: int)
    requires r.dedupSeconds > 0
    ensures Bucket(r, e) == k <==> InWindow(r.dedupSeconds, k, e.occurredAt)
  {
    Quotients(e.occurredAt, r.dedupSeconds * 1_000, k);
  }

  lemma Quotients(t: int, w: nat, k: int)
    requires w > 0
    ensures t / w == k <==> k * w <= t < (k + 1) * w
  {
    var q := t / w;
    assert t == q * w + t % w;
    if k < q { Scaled(k + 1, q, w); } else if k > q { Scaled(q + 1, k, w); }
  }

  lemma Scaled(a: int, b: int, w: nat)
    requires a <= b
    ensures a * w <= b * w
  {
  }

  lemma SameWindowIff(r: Rule, a: Event, q: Rule, b: Event)
    requires r.dedupSeconds > 0 && q.dedupSeconds > 0
    ensures Bucket(r, a) == Bucket(q, b)
       <==> exists k :: InWindow(r.dedupSeconds, k, a.occurredAt) && InWindow(q.dedupSeconds, k, b.occurredAt)
  {
    BucketIff(r, a, Bucket(r, a));
    BucketIff(q, b, Bucket(q, b));
    if k :| InWindow(r.dedupSeconds, k, a.occurredAt) && InWindow(q.dedupSeconds, k, b.occurredAt) {
      BucketIff(r, a, k);
      BucketIff(q, b, k);
    }
  }

  /** Two rules share an alert for two events exactly when they are one rule in one version, the
      correlation texts are equal, and both events lie in windows of the same number. */
  lemma SameAlertIff(r: Rule, a: Event, q: Rule, b: Event)
    requires r.dedupSeconds > 0 && q.dedupSeconds > 0 && Lacks(r.id, ':') && Lacks(q.id, ':')
    ensures DedupKey(r, a) == DedupKey(q, b)
       <==> r.id == q.id && r.version == q.version
            && CorrelationKey(r.dimensions, a) == CorrelationKey(q.dimensions, b)
            && exists k :: InWindow(r.dedupSeconds, k, a.occurredAt) && InWindow(q.dedupSeconds, k, b.occurredAt)
  {
    SameWindowIff(r, a, q, b);
    if DedupKey(r, a) == DedupKey(q, b) {
      DedupTextInjective(r.id, r.version, CorrelationKey(r.dimensions, a), Bucket(r, a),
                         q.id, q.version, CorrelationKey(q.dimensions, b), Bucket(q, b));
    }
  }

  /** One version of a rule puts two events under one alert exactly when they agree in each of its
      dimensions and lie in one of its windows. */
  lemma OneAlertIff(r: Rule, a: Event, b: Event)
    requires r.dedupSeconds > 0 && Lacks(r.id, ':') && PlainValues(r.dimensions, a) && PlainValues(r.dimensions, b)
    ensures DedupKey(r, a) == DedupKey(r, b)
       <==> AgreeOn(r.dimensions, a, b)
            && exists k :: InWindow(r.dedupSeconds, k, a.occurredAt) && InWindow(r.dedupSeconds, k, b.occurredAt)
  {
    CorrelateIff(r.dimensions, a, b);
    SameAlertIff(r, a, r, b);
  }

  // ---------- alerts and executions ----------

  /** The executions that matched with a key. */
  function MatchesOf(s: State, key: Key): set<Pair> {
    set p | p in s.executions && s.executions[p].matched && s.executions[p].key == key
  }

  function LinksOf(s: State, key: Key): set<(Key, Id)> {
    set l | l in s.links && l.0 == key
  }

  /** What an alert says of the matches with its key. */
  ghost predicate Accounted(s: State, key: Key) {
    var matches := MatchesOf(s, key);
    && (key in s.alerts <==> matches != {})
    && s.messages[key] == (if key in s.alerts then 1 else 0)
    && LinksOf(s, key) == (set p | p in matches :: (key, p.1))
    && |LinksOf(s, key)| == |matches|
    && (key in s.alerts ==>
          && s.alerts[key].occurrences == |matches|
          && (forall p :: p in matches ==>
               s.executions[p].risk <= s.alerts[key].risk && s.executions[p].occurredAt <= s.alerts[key].lastSeen)
          && (exists p :: p in matches && s.executions[p].risk == s.alerts[key].risk)
          && (exists p :: p in matches && s.executions[p].occurredAt == s.alerts[key].lastSeen)
          && (exists p :: p in matches && s.executions[p].occurredAt == s.alerts[key].firstSeen))
  }

  /** A key and an event determine the rule version. */
  ghost predicate Separate(s: State) {
    forall p, q :: p in s.executions && q in s.executions && p.1 == q.1 &&
                   s.executions[p].key == s.executions[q].key ==>
      p == q
  }

  ghost predicate Inv(s: State) {
    Separate(s) && forall key :: Accounted(s, key)
  }

  /** A new execution that no other execution of its event shares a key with. */
  ghost predicate Newcomer(s: State, pair: Pair, x: Execution) {
    pair !in s.executions
    && forall q :: q in s.executions && q.1 == pair.1 ==> s.executions[q].key != x.key
  }

  lemma OtherKeys(s: State, pair: Pair, x: Execution, key: Key)
    requires Accounted(s, key) && pair !in s.executions && !(x.matched && x.key == key)
    ensures Accounted(Recorded(s, pair, x), key)
  {
    var n := Recorded(s, pair, x);
    assert MatchesOf(n, key) == MatchesOf(s, key);
    assert LinksOf(n, key) == LinksOf(s, key);
  }

  lemma OwnKey(s: State, pair: Pair, x: Execution)
    requires Accounted(s, x.key) && Newcomer(s, pair, x) && x.matched
    ensures Accounted(Recorded(s, pair, x), x.key)
  {
    OwnLinks(s, pair, x);
    OwnMaxima(s, Recorded(s, pair, x), pair, x);
  }

  lemma OwnLinks(s: State, pair: Pair, x: Execution)
    requires Accounted(s, x.key) && Newcomer(s, pair, x) && x.matched
    ensures var n, key := Recorded(s, pair, x), x.key;
            && MatchesOf(n, key) == MatchesOf(s, key) + {pair} && |MatchesOf(n, key)| == |MatchesOf(s, key)| + 1
            && LinksOf(n, key) == (set p | p in MatchesOf(n, key) :: (key, p.1))
            && |LinksOf(n, key)| == |LinksOf(s, key)| + 1
  {
    var n, key := Recorded(s, pair, x), x.key;
    var matches, links := MatchesOf(s, key), LinksOf(s, key);
    MatchAdded(s, n, pair, x);
    LinkAdded(s, n, key, pair.1);
    LinksOfMatches(matches, pair, key);
    assert (key, pair.1) !in links;
  }

  lemma MatchAdded(s: State, n: State, pair: Pair, x: Execution)
    requires pair !in s.executions && n.executions == s.executions[pair := x] && x.matched
    ensures MatchesOf(n, x.key) == MatchesOf(s, x.key) + {pair} && pair !in MatchesOf(s, x.key)
  {
  }

  lemma LinkAdded(s: State, n: State, key: Key, event: Id)
    requires n.links == s.links + {(key, event)}
    ensures LinksOf(n, key) == LinksOf(s, key) + {(key, event)}
  {
  }

  lemma LinksOfMatches(matches: set<Pair>, pair: Pair, key: Key)
    ensures (set p | p in matches + {pair} :: (key, p.1)) == (set p | p in matches :: (key, p.1)) + {(key, pair.1)}
  {
  }

  lemma OwnMaxima(s: State, n: State, pair: Pair, x: Execution)
    requires Accounted(s, x.key) && pair !in s.executions && x.matched && n == Recorded(s, pair, x)
    ensures var matches, a := MatchesOf(n, x.key), n.alerts[x.key];
            && (forall p :: p in matches ==> n.executions[p].risk <= a.risk && n.executions[p].occurredAt <= a.lastSeen)
            && (exists p :: p in matches && n.executions[p].risk == a.risk)
            && (exists p :: p in matches && n.executions[p].occurredAt == a.lastSeen)
            && (exists p :: p in matches && n.executions[p].occurredAt == a.firstSeen)
  {
    var key := x.key;
    assert pair in MatchesOf(n, key) && MatchesOf(n, key) == MatchesOf(s, key) + {pair};
    if key in s.alerts {
      var p :| p in MatchesOf(s, key) && s.executions[p].risk == s.alerts[key].risk;
      var q :| q in MatchesOf(s, key) && s.executions[q].occurredAt == s.alerts[key].lastSeen;
      var r :| r in MatchesOf(s, key) && s.executions[r].occurredAt == s.alerts[key].firstSeen;
      assert p in MatchesOf(n, key) && q in MatchesOf(n, key) && r in MatchesOf(n, key);
    }
  }

  lemma RecordedKeepsInv(s: State, pair: Pair, x: Execution)
    requires Inv(s) && (pair !in s.executions ==> Newcomer(s, pair, x))
    ensures Inv(Recorded(s, pair, x))
  {
    if pair !in s.executions {
      forall key ensures Accounted(Recorded(s, pair, x), key) {
        assert Accounted(s, key);
        if x.matched && x.key == key {
          OwnKey(s, pair, x);
        } else {
          OtherKeys(s, pair, x, key);
        }
      }
    }
  }

  // ---------- runs ----------

  /** The ids of rules have no colon, and a version of a rule has one row. */
  predicate Versioned(es: seq<Evaluation>) {
    && AllSound(es)
    && (forall i :: 0 <= i < |es| ==> Lacks(es[i].rule.id, ':'))
    && (forall i, j :: 0 <= i < |es| && 0 <= j < |es| && es[i].rule.id == es[j].rule.id &&
                       es[i].rule.version == es[j].rule.version ==>
          es[i].rule.versionId == es[j].rule.versionId)
  }

  /** Every execution comes from one of the evaluations. */
  ghost predicate ComesFrom(s: State, es: seq<Evaluation>) {
    AllSound(es)
    && forall p :: p in s.executions ==>
         exists i :: 0 <= i < |es| && PairOf(es[i]) == p && ExecutionOf(es[i]) == s.executions[p]
  }

  lemma NewcomerArrives(s: State, es: seq<Evaluation>)
    requires es != [] && Versioned(es) && ComesFrom(s, es[..|es| - 1])
    requires PairOf(es[|es| - 1]) !in s.executions
    ensures Newcomer(s, PairOf(es[|es| - 1]), ExecutionOf(es[|es| - 1]))
  {
    var e := es[|es| - 1];
    forall q | q in s.executions && q.1 == e.event.id ensures s.executions[q].key != DedupKey(e.rule, e.event) {
      var i :| 0 <= i < |es| - 1 && PairOf(es[..|es| - 1][i]) == q && ExecutionOf(es[..|es| - 1][i]) == s.executions[q];
      assert es[..|es| - 1][i] == es[i];
      SameAlertIff(es[i].rule, es[i].event, e.rule, e.event);
    }
  }

  lemma {:induction false} RunKeepsInv(es: seq<Evaluation>)
    requires Versioned(es)
    ensures Inv(ApplyAll(Empty(), es)) && ComesFrom(ApplyAll(Empty(), es), es)
    decreases |es|
  {
    if es == [] {
      EmptyInv();
    } else {
      var front, e := es[..|es| - 1], es[|es| - 1];
      assert forall i :: 0 <= i < |front| ==> front[i] == es[i];
      RunKeepsInv(front);
      var s := ApplyAll(Empty(), front);
      if PairOf(e) !in s.executions { NewcomerArrives(s, es); }
      RecordedKeepsInv(s, PairOf(e), ExecutionOf(e));
      StillComesFrom(s, es);
    }
  }

  lemma StillComesFrom(s: State, es: seq<Evaluation>)
    requires es != [] && AllSound(es) && ComesFrom(s, es[..|es| - 1])
    ensures ComesFrom(Apply(s, es[|es| - 1]), es)
  {
    var n, front := Apply(s, es[|es| - 1]), es[..|es| - 1];
    forall p | p in n.executions
      ensures exists i :: 0 <= i < |es| && PairOf(es[i]) == p && ExecutionOf(es[i]) == n.executions[p]
    {
      if p in s.executions {
        var i :| 0 <= i < |front| && PairOf(front[i]) == p && ExecutionOf(front[i]) == s.executions[p];
        assert front[i] == es[i];
      } else {
        assert PairOf(es[|es| - 1]) == p;
      }
    }
  }

  lemma EmptyInv()
    ensures Inv(Empty())
  {
    forall key ensures Accounted(Empty(), key) {
      assert MatchesOf(Empty(), key) == {} && LinksOf(Empty(), key) == {};
    }
  }

  /** For every alert, after any batches and redeliveries: as many occurrences as matched executions
      with its key, and as many linked events; risk and last-seen their maxima; one created message;
      and an alert for every key that some execution matched with. */
  lemma AlertsAccountForMatches(es: seq<Evaluation>, key: Key)
    requires Versioned(es)
    ensures var s := ApplyAll(Empty(), es);
            && Accounted(s, key)
            && (key in s.alerts ==>
                 s.alerts[key].occurrences == |MatchesOf(s, key)| == |LinksOf(s, key)| >= 1 && s.messages[key] == 1)
  {
    RunKeepsInv(es);
    var s := ApplyAll(Empty(), es);
    assert Accounted(s, key);
    assert MatchesOf(s, key) != {} ==> |MatchesOf(s, key)| >= 1;
  }

  // ---------- redelivery ----------

  predicate AllExecuted(s: State, es: seq<Evaluation>) {
    forall i :: 0 <= i < |es| ==> PairOf(es[i]) in s.executions
  }

  lemma {:induction false} ExecutedIsNoop(s: State, es: seq<Evaluation>)
    requires AllSound(es) && AllExecuted(s, es)
    ensures ApplyAll(s, es) == s
    decreases |es|
  {
    if es != [] { ExecutedIsNoop(s, es[..|es| - 1]); }
  }

  lemma {:induction false} ApplyExecutes(s: State, es: seq<Evaluation>)
    requires AllSound(es)
    ensures AllExecuted(ApplyAll(s, es), es)
    ensures forall p :: p in s.executions ==>
              p in ApplyAll(s, es).executions && ApplyAll(s, es).executions[p] == s.executions[p]
    decreases |es|
  {
    if es != [] {
      var front := es[..|es| - 1];
      ApplyExecutes(s, front);
      forall i | 0 <= i < |es| ensures PairOf(es[i]) in ApplyAll(s, es).executions {
        if i < |front| { assert front[i] == es[i]; }
      }
    }
  }

  /** Processing the same events under the same rule versions again changes nothing, after any
      other work in between and whatever the history of events says by then. */
  lemma RedeliveryChangesNothing(s: State, es: seq<Evaluation>, between: seq<Evaluation>, again: seq<Evaluation>)
    requires AllSound(es) && AllSound(between) && AllSound(again)
    requires forall j :: 0 <= j < |again| ==> exists i :: 0 <= i < |es| && PairOf(es[i]) == PairOf(again[j])
    ensures var t := ApplyAll(ApplyAll(s, es), between); ApplyAll(t, again) == t
  {
    ApplyExecutes(s, es);
    ApplyExecutes(ApplyAll(s, es), between);
    var t := ApplyAll(ApplyAll(s, es), between);
    forall j | 0 <= j < |again| ensures PairOf(again[j]) in t.executions {
      var i :| 0 <= i < |es| && PairOf(es[i]) == PairOf(again[j]);
      assert PairOf(es[i]) in ApplyAll(s, es).executions;
    }
    ExecutedIsNoop(t, again);
  }

  // ---------- order ----------

  /** The executions determine every alert, but for the time it was first seen: in whatever order
      and batches they came about. */
  lemma ExecutionsDetermineAlerts(s: State, t: State)
    requires Inv(s) && Inv(t) && s.executions == t.executions
    ensures s.alerts.Keys == t.alerts.Keys && s.links == t.links && s.messages == t.messages
    ensures forall key :: key in s.alerts ==> s.alerts[key].(firstSeen := 0) == t.alerts[key].(firstSeen := 0)
  {
    forall key ensures SameAlert(s, t, key) {
      DetermineAlert(s, t, key);
    }
    forall key ensures s.messages[key] == t.messages[key] { assert SameAlert(s, t, key); }
    assert s.messages == t.messages;
    forall l ensures l in s.links <==> l in t.links {
      assert SameAlert(s, t, l.0);
      assert l in s.links <==> l in LinksOf(s, l.0);
      assert l in t.links <==> l in LinksOf(t, l.0);
    }
    assert s.links == t.links;
    forall key ensures key in s.alerts <==> key in t.alerts { assert SameAlert(s, t, key); }
    assert s.alerts.Keys == t.alerts.Keys;
    forall key | key in s.alerts ensures s.alerts[key].(firstSeen := 0) == t.alerts[key].(firstSeen := 0) {
      assert SameAlert(s, t, key);
    }
  }

  ghost predicate SameAlert(s: State, t: State, key: Key) {
    && (key in s.alerts <==> key in t.alerts) && s.messages[key] == t.messages[key] &&
         LinksOf(s, key) == LinksOf(t, key)
    && (key in s.alerts && key in t.alerts ==> s.alerts[key].(firstSeen := 0) == t.alerts[key].(firstSeen := 0))
  }

  lemma DetermineAlert(s: State, t: State, key: Key)
    requires Inv(s) && Inv(t) && s.executions == t.executions
    ensures SameAlert(s, t, key)
  {
    assert Accounted(s, key) && Accounted(t, key);
    assert MatchesOf(s, key) == MatchesOf(t, key);
  }

  // ---------- when an alert was first seen ----------

  /** Step i of a run records a new execution that matches with the key. */
  predicate RecordsMatch(es: seq<Evaluation>, i: int, key: Key)
    requires AllSound(es)
  {
    0 <= i < |es| && (es[i].rule.versionId, es[i].event.id) !in ApplyAll(Empty(), es[..i]).executions
    && es[i].observed >= es[i].rule.threshold && DedupKey(es[i].rule, es[i].event) == key
  }

  lemma RecordsInFront(es: seq<Evaluation>, i: int, key: Key)
    requires AllSound(es) && 0 <= i < |es| - 1
    ensures RecordsMatch(es[..|es| - 1], i, key) <==> RecordsMatch(es, i, key)
  {
    var front := es[..|es| - 1];
    assert front[i] == es[i] && front[..i] == es[..i];
  }

  /** The first step of a run that does. */
  ghost predicate IsFirst(es: seq<Evaluation>, i: int, key: Key)
    requires AllSound(es)
  {
    RecordsMatch(es, i, key) && forall j :: RecordsMatch(es, j, key) ==> i <= j
  }

  lemma LastApplied(es: seq<Evaluation>)
    requires AllSound(es) && es != []
    ensures var last := es[|es| - 1];
            ApplyAll(Empty(), es) == Recorded(ApplyAll(Empty(), es[..|es| - 1]), PairOf(last), ExecutionOf(last))
  {
  }

  ghost predicate WasRecorded(es: seq<Evaluation>, key: Key)
    requires AllSound(es)
  {
    exists i :: RecordsMatch(es, i, key)
  }

  lemma RecordedLast(es: seq<Evaluation>, key: Key)
    requires AllSound(es) && es != []
    ensures WasRecorded(es, key) <==> WasRecorded(es[..|es| - 1], key) || RecordsMatch(es, |es| - 1, key)
  {
    var n := |es| - 1;
    if i :| RecordsMatch(es[..n], i, key) { RecordsInFront(es, i, key); }
    if i :| RecordsMatch(es, i, key) {
      if i < n { RecordsInFront(es, i, key); }
    }
  }

  lemma AlertLast(es: seq<Evaluation>, key: Key)
    requires AllSound(es) && es != []
    ensures key in ApplyAll(Empty(), es).alerts
       <==> key in ApplyAll(Empty(), es[..|es| - 1]).alerts || RecordsMatch(es, |es| - 1, key)
  {
    var n := |es| - 1;
    LastApplied(es);
    AlertStep(ApplyAll(Empty(), es[..n]), PairOf(es[n]), ExecutionOf(es[n]), key);
  }

  /** In every run an alert is there exactly when a match with its key was recorded, */
  lemma {:induction false} AlertIffRecorded(es: seq<Evaluation>, key: Key)
    requires AllSound(es)
    ensures key in ApplyAll(Empty(), es).alerts <==> WasRecorded(es, key)
    decreases |es|
  {
    if es != [] {
      AlertIffRecorded(es[..|es| - 1], key);
      AlertLast(es, key);
      RecordedLast(es, key);
    }
  }

  /** and was first seen when the match that was recorded first happened. */
  lemma {:induction false} FirstSeenIsTheFirstRecorded(es: seq<Evaluation>, key: Key, i: nat)
    requires AllSound(es) && IsFirst(es, i, key)
    ensures key in ApplyAll(Empty(), es).alerts && ApplyAll(Empty(), es).alerts[key].firstSeen == es[i].event.occurredAt
    decreases |es|
  {
    var n := |es| - 1;
    var front := es[..n];
    LastApplied(es);
    AlertStep(ApplyAll(Empty(), front), PairOf(es[n]), ExecutionOf(es[n]), key);
    forall j | RecordsMatch(front, j, key) ensures i <= j {
      RecordsInFront(es, j, key);
    }
    if i < n {
      RecordsInFront(es, i, key);
      FirstSeenIsTheFirstRecorded(front, key, i);
      assert front[i] == es[i];
    } else {
      AlertIffRecorded(front, key);
      SeenAt(es[n]);
    }
  }

  lemma SeenAt(e: Evaluation)
    requires e.rule.dedupSeconds > 0
    ensures ExecutionOf(e).occurredAt == e.event.occurredAt
  {
  }

  /** One step opens an alert or leaves the time it was first seen. */
  lemma AlertStep(s: State, pair: Pair, x: Execution, key: Key)
    ensures var n := Recorded(s, pair, x);
            && (key in n.alerts <==> key in s.alerts || (pair !in s.executions && x.matched && x.key == key))
            && (key in n.alerts ==>
                  n.alerts[key].firstSeen == if key in s.alerts then s.alerts[key].firstSeen else x.occurredAt)
  {
  }

  /** No match that the alert accounts for happened before the time given. */
  ghost predicate Earliest(s: State, key: Key, t: Time) {
    forall p :: p in MatchesOf(s, key) ==> t <= s.executions[p].occurredAt
  }

  /** First-seen is the earliest time of the alert's matches exactly when no match recorded later
      happened before the one recorded first. */
  lemma FirstSeenIsEarliestIff(es: seq<Evaluation>, key: Key, i: nat)
    requires AllSound(es) && IsFirst(es, i, key)
    ensures var s := ApplyAll(Empty(), es);
            && key in s.alerts
            && (Earliest(s, key, s.alerts[key].firstSeen)
                <==> forall j :: RecordsMatch(es, j, key) ==> es[i].event.occurredAt <= es[j].event.occurredAt)
  {
    var s := ApplyAll(Empty(), es);
    FirstSeenIsTheFirstRecorded(es, key, i);
    if Earliest(s, key, s.alerts[key].firstSeen) {
      forall j | RecordsMatch(es, j, key) ensures es[i].event.occurredAt <= es[j].event.occurredAt {
        RecordedStays(es, j, key);
      }
    }
    if forall j :: RecordsMatch(es, j, key) ==> es[i].event.occurredAt <= es[j].event.occurredAt {
      forall p | p in MatchesOf(s, key) ensures s.alerts[key].firstSeen <= s.executions[p].occurredAt {
        var j := MatchWasRecorded(es, key, p);
        assert RecordsMatch(es, j, key);
      }
    }
  }

  lemma RecordedStays(es: seq<Evaluation>, j: nat, key: Key)
    requires AllSound(es) && RecordsMatch(es, j, key)
    ensures PairOf(es[j]) in MatchesOf(ApplyAll(Empty(), es), key)
    ensures ApplyAll(Empty(), es).executions[PairOf(es[j])] == ExecutionOf(es[j])
  {
    var first, rest := es[..j + 1], es[j + 1..];
    assert es == first + rest;
    JustRecorded(es, j, key);
    ApplyAllAppend(Empty(), first, rest);
    ApplyExecutes(ApplyAll(Empty(), first), rest);
    var s := ApplyAll(Empty(), es);
    assert PairOf(es[j]) in s.executions && s.executions[PairOf(es[j])] == ExecutionOf(es[j]);
  }

  lemma JustRecorded(es: seq<Evaluation>, j: nat, key: Key)
    requires AllSound(es) && RecordsMatch(es, j, key)
    ensures ExecutionOf(es[j]).matched && ExecutionOf(es[j]).key == key
    ensures PairOf(es[j]) in ApplyAll(Empty(), es[..j + 1]).executions
    ensures ApplyAll(Empty(), es[..j + 1]).executions[PairOf(es[j])] == ExecutionOf(es[j])
  {
    var before, first := es[..j], es[..j + 1];
    assert first[..j] == before && first[j] == es[j];
    LastApplied(first);
    NewlyExecuted(ApplyAll(Empty(), before), PairOf(es[j]), ExecutionOf(es[j]));
  }

  lemma NewlyExecuted(s: State, pair: Pair, x: Execution)
    requires pair !in s.executions
    ensures Recorded(s, pair, x).executions == s.executions[pair := x]
  {
  }

  lemma {:induction false} MatchWasRecorded(es: seq<Evaluation>, key: Key, p: Pair) returns (j: nat)
    requires AllSound(es) && p in MatchesOf(ApplyAll(Empty(), es), key)
    ensures RecordsMatch(es, j, key) && ApplyAll(Empty(), es).executions[p] == ExecutionOf(es[j])
    decreases |es|
  {
    var front := es[..|es| - 1];
    if p in ApplyAll(Empty(), front).executions {
      j := MatchWasRecorded(front, key, p);
      RecordsInFront(es, j, key);
    } else {
      j := |es| - 1;
    }
  }

  /** A run in which it is not: two events of one window, the later of which is processed first. */
  lemma FirstSeenIsNotTheEarliest(rule: Rule, a: Event, b: Event) returns (es: seq<Evaluation>)
    requires Sound(rule) && a.id != b.id && DedupKey(rule, a) == DedupKey(rule, b) && b.occurredAt < a.occurredAt
    ensures AllSound(es)
    ensures var s := ApplyAll(Empty(), es);
            var key := DedupKey(rule, a);
            && key in s.alerts && s.alerts[key].firstSeen == a.occurredAt
            && !Earliest(s, key, s.alerts[key].firstSeen)
  {
    var n := rule.threshold;
    var x, y := Evaluation(rule, a, n, 0.0), Evaluation(rule, b, n, 0.0);
    es := [x, y];
    var key := DedupKey(rule, a);
    assert es[..1] == [x] && es[..0] == [] && [x][..0] == [];
    assert ApplyAll(Empty(), [x]) == Apply(Empty(), x);
    assert RecordsMatch(es, 0, key) && RecordsMatch(es, 1, key);
    assert IsFirst(es, 0, key);
    FirstSeenIsEarliestIff(es, key, 0);
    FirstSeenIsTheFirstRecorded(es, key, 0);
  }

  lemma StartOfWindow(rule: Rule, e: Event)
    requires rule.dedupSeconds > 0 && 0 <= e.occurredAt < 1_000
    ensures Bucket(rule, e) == 0
  {
    Quotient(e.occurredAt, rule.dedupSeconds * 1_000);
  }

  lemma Quotient(t: nat, d: nat)
    requires t < d
    ensures t / d == 0
  {
  }

  /** Such events there are: a millisecond apart, without dimensions, in the first window. */
  lemma OneWindow(rule: Rule, a: Event, b: Event)
    requires Sound(rule) && rule.dimensions == [] && a.occurredAt == 1 && b.occurredAt == 0
    ensures DedupKey(rule, a) == DedupKey(rule, b)
  {
    StartOfWindow(rule, a);
    StartOfWindow(rule, b);
    assert CorrelationKey(rule.dimensions, a) == "" == CorrelationKey(rule.dimensions, b);
  }

  // ---------- batches ----------

  /** A batch can be processed when each of its rules can be made from its row: its condition and
      dimensions are readable, and its threshold and window are not too small. */
  lemma UsableIff(rules: seq<Rule>)
    ensures UsableUpTo(rules, |rules|) <==>
              forall i :: 0 <= i < |rules| ==>
                rules[i].readable && rules[i].threshold >= 1 && rules[i].windowSeconds >= 60
  {
  }

  lemma {:induction false} BatchLength(h: History, events: seq<Event>, rules: seq<Rule>)
    ensures |BatchEvaluations(h, events, rules)| == |events| * |rules|
    decreases |events|
  {
    if events != [] {
      var n := |events| - 1;
      BatchLength(h, events[..n], rules);
      assert |events| * |rules| == n * |rules| + |rules|;
    }
  }

  /** A batch is every rule for every event, event by event and rule by rule, each with the count and
      the anomaly that its history gives. */
  lemma {:induction false} BatchAt(h: History, events: seq<Event>, rules: seq<Rule>, i: nat, j: nat)
    requires i < |events| && j < |rules|
    ensures |BatchEvaluations(h, events, rules)| == |events| * |rules|
    ensures 0 <= i * |rules| + j < |events| * |rules|
    ensures BatchEvaluations(h, events, rules)[i * |rules| + j]
         == Evaluation(rules[j], events[i], h.observed(events[i], rules[j]), h.anomaly(events[i]))
    decreases |events|
  {
    var n := |events| - 1;
    var front := events[..n];
    BatchLength(h, events, rules);
    BatchLength(h, front, rules);
    if i < n {
      BatchAt(h, front, rules, i, j);
      assert i * |rules| + j < n * |rules|;
    } else {
      assert |front| * |rules| == i * |rules|;
    }
    assert |events| * |rules| == n * |rules| + |rules|;
  }

  // ---------- scores ----------

  /** What a severity is worth, and how much each match over the threshold, up to five, and each unit
      of anomaly, up to five, add to it. */
  lemma RiskScoreIs(severity: Severity, observed: nat, threshold: int, anomaly: real)
    ensures var over := if observed <= threshold then 0 else observed - threshold;
            var base := match severity
                        case Info => 10.0
                        case Low => 25.0
                        case Medium => 50.0
                        case High => 75.0
                        case Critical => 95.0;
            var sum := base + 3.0 * Min(5, over) as real + 2.0 * (if anomaly <= 5.0 then anomaly else 5.0);
            RiskScore(severity, observed, threshold, anomaly) == if sum <= 100.0 then sum else 100.0
  {
    var over := if observed <= threshold then 0 else observed - threshold;
    assert over >= 5 ==> over as real >= 5.0;
    assert over < 5 ==> over as real < 5.0;
  }

  /** What an evaluation records: whether the count reaches the threshold, and the score to the nearest
      thousandth. */
  lemma ExecutionSays(e: Evaluation)
    requires e.rule.dedupSeconds > 0
    ensures var x := ExecutionOf(e);
            var score := RiskScore(e.rule.severity, e.observed, e.rule.threshold, e.anomaly);
            && (x.matched <==> e.observed >= e.rule.threshold)
            && x.observed == e.observed && x.occurredAt == e.event.occurredAt && x.key == DedupKey(e.rule, e.event)
            && x.risk as real - 0.5 <= 1_000.0 * score < x.risk as real + 0.5
  {
  }

  /** More matches or a stranger hour never lower a score, and a higher threshold never raises it. */
  lemma RiskMonotone(severity: Severity, m: nat, n: nat, t: int, u: int, a: real, b: real)
    requires m <= n && t >= u && a <= b
    ensures Thousandths(RiskScore(severity, m, t, a)) <= Thousandths(RiskScore(severity, n, u, b))
  {
    var x, y := Excess(m, t), Excess(n, u);
    assert x <= y;
    assert x as real * 3.0 <= y as real * 3.0;
    assert RiskScore(severity, m, t, a) <= RiskScore(severity, n, u, b);
  }
}
