/** Detection over batches of normalised events. Every pair of a rule version and an event is
    executed once; a match opens the alert of its deduplication key or adds to it. The counts and
    anomaly scores that a batch reads from the history of events are parameters. Risk scores are
    stored in thousandths. */
module Detection {
  import opened Basics

  type Id = nat
  type Time = int

  datatype Severity = Info | Low | Medium | High | Critical

  datatype Dimension = ActorUser | Asset | EventType | Fingerprint | SourceIp

  datatype Event = Event(
    id: Id, actorUserHash: Option<string>, assetId: Option<string>, eventType: string,
    fingerprint: string, sourceIpHash: Option<string>, occurredAt: Time)

  /** A rule joined with the row of its current version; `readable` says that its stored condition and
      dimensions can be parsed. */
  datatype Rule = Rule(
    id: string, version: nat, versionId: Id, severity: Severity, threshold: int, windowSeconds: int,
    dedupSeconds: nat, dimensions: seq<Dimension>, readable: bool)

  // ---------- scores ----------

  function SeverityScore(s: Severity): real {
    match s
    case Critical => 95.0
    case High => 75.0
    case Info => 10.0
    case Low => 25.0
    case Medium => 50.0
  }

  function Least(a: real, b: real): real { if a <= b then a else b }

  function Excess(observed: nat, threshold: int): nat {
    if observed > threshold then observed - threshold else 0
  }

  /** A score lies in the band of its severity, at most 25 wide and cut off at 100. */
  function RiskScore(severity: Severity, observed: nat, threshold: int, anomaly: real): (r: real)
    ensures anomaly >= 0.0 ==> SeverityScore(severity) <= r <= Least(100.0, SeverityScore(severity) + 25.0)
  {
    Least(100.0, SeverityScore(severity) + Least(15.0, Excess(observed, threshold) as real * 3.0) +
        Least(10.0, anomaly * 2.0))
  }

  /** `toFixed(3)` of a score, in thousandths. */
  function Thousandths(r: real): int {
    (r * 1_000.0 + 0.5).Floor
  }

  // ---------- keys ----------

  function OrUnknown(s: Option<string>): string {
    if s.None? then "unknown" else s.value
  }

  function ValueOf(d: Dimension, e: Event): string {
    match d
    case ActorUser => OrUnknown(e.actorUserHash)
    case Asset => OrUnknown(e.assetId)
    case EventType => e.eventType
    case Fingerprint => e.fingerprint
    case SourceIp => OrUnknown(e.sourceIpHash)
  }

  function Prefix(d: Dimension): string {
    match d
    case ActorUser => "user:"
    case Asset => "asset:"
    case EventType => "type:"
    case Fingerprint => "fingerprint:"
    case SourceIp => "ip:"
  }

  /** `dimensions.map(…).join('|')` */
  function CorrelationKey(dimensions: seq<Dimension>, e: Event): string {
    if dimensions == [] then ""
    else
      var part := Prefix(dimensions[0]) + ValueOf(dimensions[0], e);
      if |dimensions| == 1 then part else part + "|" + CorrelationKey(dimensions[1..], e)
  }

  function Digit(n: nat): char
    requires n < 10
  {
    (0x30 + n) as char
  }

  function Decimal(n: int): string
    decreases if n < 0 then 1 - n else n
  {
    if n < 0 then "-" + Decimal(-n) else if n < 10 then [Digit(n)] else Decimal(n / 10) + [Digit(n % 10)]
  }

  /** The text under the digest of a deduplication key, which stands for the key itself. */
  function DedupText(id: string, version: nat, correlation: string, bucket: int): string {
    id + ":" + (Decimal(version) + ":" + (correlation + ":" + Decimal(bucket)))
  }

  function Bucket(rule: Rule, e: Event): int
    requires rule.dedupSeconds > 0
  {
    e.occurredAt / (rule.dedupSeconds * 1_000)
  }

  function DedupKey(rule: Rule, e: Event): string
    requires rule.dedupSeconds > 0
  {
    DedupText(rule.id, rule.version, CorrelationKey(rule.dimensions, e), Bucket(rule, e))
  }

  // ---------- the tables ----------

  type Key = string

  /** The rule version and event of an execution. */
  type Pair = (Id, Id)

  /** An execution row, with the deduplication key it led to and the time of its event. */
  datatype Execution = Execution(matched: bool, observed: nat, risk: int, key: Key, occurredAt: Time)

  /** An alert is known by its deduplication key. */
  datatype Alert = Alert(occurrences: nat, risk: int, firstSeen: Time, lastSeen: Time)

  datatype State = State(
    executions: map<Pair, Execution>,
    alerts: map<Key, Alert>,
    links: set<(Key, Id)>,
    messages: multiset<Key>)

  function Empty(): State {
    State(map[], map[], {}, multiset{})
  }

  /** One rule applied to one event, with what was read from the history for it. */
  datatype Evaluation = Evaluation(rule: Rule, event: Event, observed: nat, anomaly: real)

  predicate Usable(rule: Rule) {
    rule.readable && rule.threshold >= 1 && rule.windowSeconds >= 60
  }

  /** A usable rule with a deduplication window. */
  predicate Sound(rule: Rule) {
    Usable(rule) && rule.dedupSeconds > 0
  }

  function PairOf(e: Evaluation): Pair {
    (e.rule.versionId, e.event.id)
  }

  function ExecutionOf(e: Evaluation): Execution
    requires e.rule.dedupSeconds > 0
  {
    Execution(e.observed >= e.rule.threshold, e.observed,
              Thousandths(RiskScore(e.rule.severity, e.observed, e.rule.threshold, e.anomaly)),
              DedupKey(e.rule, e.event), e.event.occurredAt)
  }

  function Upserted(s: State, x: Execution, event: Id): State {
    if x.key in s.alerts then
      var a := s.alerts[x.key];
      s.(alerts := s.alerts[x.key :=
          Alert(a.occurrences + 1, Max(a.risk, x.risk), a.firstSeen, Max(a.lastSeen, x.occurredAt))],
         links := s.links + {(x.key, event)})
    else
      s.(alerts := s.alerts[x.key := Alert(1, x.risk, x.occurredAt, x.occurredAt)],
         links := s.links + {(x.key, event)},
         messages := s.messages + multiset{x.key})
  }

  /** Recording an execution, unless the pair has one. */
  function Recorded(s: State, pair: Pair, x: Execution): State {
    if pair in s.executions then s
    else
      var t := s.(executions := s.executions[pair := x]);
      if x.matched then Upserted(t, x, pair.1) else t
  }

  function Apply(s: State, e: Evaluation): State
    requires e.rule.dedupSeconds > 0
  {
    Recorded(s, PairOf(e), ExecutionOf(e))
  }

  predicate AllSound(es: seq<Evaluation>) {
    forall i :: 0 <= i < |es| ==> es[i].rule.dedupSeconds > 0
  }

  function ApplyAll(s: State, es: seq<Evaluation>): State
    requires AllSound(es)
    decreases |es|
  {
    if es == [] then s else Apply(ApplyAll(s, es[..|es| - 1]), es[|es| - 1])
  }

  // ---------- a batch ----------

  /** What a batch reads from the history of events. */
  datatype History = History(observed: (Event, Rule) -> nat, anomaly: Event -> real)

  function EventEvaluations(h: History, e: Event, rules: seq<Rule>): (es: seq<Evaluation>)
    ensures |es| == |rules|
  {
    seq(|rules|, i requires 0 <= i < |rules| => Evaluation(rules[i], e, h.observed(e, rules[i]), h.anomaly(e)))
  }

  /** Every rule for the first event, every rule for the second, and so on. */
  function BatchEvaluations(h: History, events: seq<Event>, rules: seq<Rule>): seq<Evaluation> {
    if events == [] then []
    else BatchEvaluations(h, events[..|events| - 1], rules) + EventEvaluations(h, events[|events| - 1], rules)
  }

  predicate UsableUpTo(rules: seq<Rule>, n: nat)
    requires n <= |rules|
  {
    forall i :: 0 <= i < n ==> Usable(rules[i])
  }

  predicate Windowed(rules: seq<Rule>) {
    forall i :: 0 <= i < |rules| ==> rules[i].dedupSeconds > 0
  }

  lemma {:induction false} BatchSound(h: History, events: seq<Event>, rules: seq<Rule>)
    requires Windowed(rules)
    ensures AllSound(BatchEvaluations(h, events, rules))
    decreases |events|
  {
    if events != [] { BatchSound(h, events[..|events| - 1], rules); }
  }

  lemma ApplyNext(s: State, es: seq<Evaluation>, i: nat)
    requires i < |es| && AllSound(es)
    ensures ApplyAll(s, es[..i + 1]) == Apply(ApplyAll(s, es[..i]), es[i])
  {
    assert es[..i + 1][..i] == es[..i] && es[..i + 1][i] == es[i];
  }

  lemma {:induction false} ApplyAllAppend(s: State, a: seq<Evaluation>, b: seq<Evaluation>)
    requires AllSound(a) && AllSound(b)
    ensures AllSound(a + b) && ApplyAll(s, a + b) == ApplyAll(ApplyAll(s, a), b)
    decreases |b|
  {
    if b == [] {
      assert a + b == a;
    } else {
      var front := b[..|b| - 1];
      ApplyAllAppend(s, a, front);
      assert (a + b)[..|a + b| - 1] == a + front;
    }
  }

  class DetectionProcessor {
    var executions: map<Pair, Execution>
    var alerts: map<Key, Alert>
    var links: set<(Key, Id)>
    var messages: multiset<Key>

    ghost function Tables(): State
      reads this
    {
      State(executions, alerts, links, messages)
    }

    constructor ()
      ensures Tables() == Empty()
    {
      executions, alerts, links, messages := map[], map[], {}, multiset{};
    }

    method UpsertAlert(x: Execution, event: Id) returns (created: bool)
      modifies `alerts, `links, `messages
      ensures Tables() == Upserted(old(Tables()), x, event)
      ensures created <==> x.key !in old(alerts)
    {
      if x.key in alerts {
        var a := alerts[x.key];
        var lastSeen := if a.lastSeen >= x.occurredAt then a.lastSeen else x.occurredAt;
        var risk := if a.risk >= x.risk then a.risk else x.risk;
        alerts := alerts[x.key := a.(occurrences := a.occurrences + 1, lastSeen := lastSeen, risk := risk)];
        created := false;
      } else {
        alerts := alerts[x.key := Alert(1, x.risk, x.occurredAt, x.occurredAt)];
        created := true;
      }
      links := links + {(x.key, event)};
      if created {
        messages := messages + multiset{x.key};
      }
    }

    /** The body of the inner loop. */
    method Evaluate(e: Evaluation) returns (inserted: bool, created: bool)
      requires e.rule.dedupSeconds > 0
      modifies this
      ensures Tables() == Apply(old(Tables()), e)
      ensures |executions| == |old(executions)| + if inserted then 1 else 0
      ensures |alerts| == |old(alerts)| + if created then 1 else 0
    {
      var pair := PairOf(e);
      if pair in executions {
        return false, false;
      }
      var x := ExecutionOf(e);
      executions := executions[pair := x];
      created := false;
      if x.matched {
        created := UpsertAlert(x, e.event.id);
      }
      inserted := true;
    }

    /** All rules for one event. A rule that cannot be made from its row throws. */
    method ProcessEvent(h: History, event: Event, rules: seq<Rule>) returns (ok: bool, executed: nat, created: nat)
      requires Windowed(rules)
      modifies this
      ensures ok <==> UsableUpTo(rules, |rules|)
      ensures ok ==> Tables() == ApplyAll(old(Tables()), EventEvaluations(h, event, rules))
      ensures ok ==> |executions| == |old(executions)| + executed && |alerts| == |old(alerts)| + created
    {
      executed, created := 0, 0;
      ghost var before, es := Tables(), EventEvaluations(h, event, rules);
      for i := 0 to |rules|
        invariant Tables() == ApplyAll(before, es[..i])
        invariant |executions| == |before.executions| + executed && |alerts| == |before.alerts| + created
        invariant UsableUpTo(rules, i)
      {
        if !Usable(rules[i]) {
          return false, 0, 0;
        }
        assert UsableUpTo(rules, i + 1);
        var e := Evaluation(rules[i], event, h.observed(event, rules[i]), h.anomaly(event));
        assert e == es[i];
        var inserted, isNew := Evaluate(e);
        executed := executed + if inserted then 1 else 0;
        created := created + if isNew then 1 else 0;
        ApplyNext(before, es, i);
      }
      assert es[..|rules|] == es;
      ok := true;
    }

    /** `process`: the whole batch in one transaction. */
    method Process(h: History, events: seq<Event>, rules: seq<Rule>) returns (ok: bool, executed: nat, created: nat)
      requires Windowed(rules)
      modifies this
      ensures AllSound(BatchEvaluations(h, events, rules))
      ensures ok <==> events == [] || UsableUpTo(rules, |rules|)
      ensures Tables() == if ok then ApplyAll(old(Tables()), BatchEvaluations(h, events, rules)) else old(Tables())
      ensures |executions| == |old(executions)| + executed && |alerts| == |old(alerts)| + created
    {
      executed, created := 0, 0;
      ghost var before := Tables();
      BatchSound(h, events, rules);
      var savedExecutions, savedAlerts, savedLinks, savedMessages := executions, alerts, links, messages;
      for i := 0 to |events|
        invariant AllSound(BatchEvaluations(h, events[..i], rules))
        invariant Tables() == ApplyAll(before, BatchEvaluations(h, events[..i], rules))
        invariant |executions| == |before.executions| + executed && |alerts| == |before.alerts| + created
        invariant i > 0 ==> UsableUpTo(rules, |rules|)
      {
        var fine, more, newAlerts := ProcessEvent(h, events[i], rules);
        if !fine {
          executions, alerts, links, messages := savedExecutions, savedAlerts, savedLinks, savedMessages;
          return false, 0, 0;
        }
        executed, created := executed + more, created + newAlerts;
        assert events[..i + 1][..i] == events[..i];
        ApplyAllAppend(before, BatchEvaluations(h, events[..i], rules), EventEvaluations(h, events[i], rules));
      }
      assert events[..|events|] == events;
      ok := true;
    }
  }
}
