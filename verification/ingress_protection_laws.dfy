/** What the windows promise about any minute of any trace. */
module IngressProtectionLaws {
  import opened Basics
  import opened IngressProtection

  lemma TimelyFront(trace: seq<Request>)
    requires trace != [] && Timely(trace)
    ensures Timely(trace[..|trace| - 1])
  {
  }

  /** No counted request lies at or before a time that no request has reached. */
  lemma {:induction false} NoneYet(trace: seq<Request>, k: Key, from: Time, to: Time)
    requires Timely(trace) && (trace != [] ==> trace[|trace| - 1].at < from)
    ensures AllowedIn(trace, k, from, to) == 0
    decreases |trace|
  {
    if trace != [] {
      TimelyFront(trace);
      NoneYet(trace[..|trace| - 1], k, from, to);
    }
  }

  /** How many requests of the minute from x on can have been allowed, judging by the counter: its
      window opened before the minute, within it, or after it. */
  function Ceiling(c: Counter, limit: nat, x: Time): int {
    var start := c.expiresAt - WINDOW;
    if start < x then Min(c.value, limit) - 1
    else if start <= x + WINDOW then limit - 1 + Min(c.value, limit)
    else 2 * limit - 1
  }

  lemma {:induction false} CeilingHolds(trace: seq<Request>, k: Key, x: Time)
    requires Timely(trace)
    ensures var s := Run(map[], trace);
            && (k !in s ==> AllowedIn(trace, k, x, x + WINDOW) == 0)
            && (k in s ==>
                  s[k].value >= 1 && trace != [] && s[k].expiresAt - WINDOW <= trace[|trace| - 1].at
                  && AllowedIn(trace, k, x, x + WINDOW) <= Ceiling(s[k], Limit(k), x))
    decreases |trace|
  {
    if trace != [] {
      var front, r := trace[..|trace| - 1], trace[|trace| - 1];
      TimelyFront(trace);
      CeilingHolds(front, k, x);
      if r.at < x {
        NoneYet(front, k, x, x + WINDOW);
        NoneYet(trace, k, x, x + WINDOW);
      }
      var s := Run(map[], front);
      if Hits(r, k) {
        CountedAt(s, r, k);
        assert Allowed(s, r) ==> Incremented(s, k, r.at).value <= Limit(k);
        CeilingMoves(s, r, k, x, AllowedIn(front, k, x, x + WINDOW));
      } else {
        assert k in After(s, r) <==> k in s;
      }
    }
  }

  /** One more request: the counter moves on, or a new window opens. */
  lemma CeilingMoves(s: Store, r: Request, k: Key, x: Time, before: nat)
    requires k !in s ==> before == 0
    requires k in s ==> s[k].value >= 1 && s[k].expiresAt - WINDOW <= r.at && before <= Ceiling(s[k], Limit(k), x)
    requires r.at < x ==> before == 0
    ensures var c := Incremented(s, k, r.at);
            && c.value >= 1 && c.expiresAt - WINDOW <= r.at
            && before + (if x <= r.at <= x + WINDOW && c.value <= Limit(k) then 1 else 0) <= Ceiling(c, Limit(k), x)
  {
  }

  /** Any 60 seconds, both ends included, see fewer than twice the limit of a key allowed: 239
      requests of a connector, 119 of a credential. */
  lemma FewerThanTwiceTheLimit(trace: seq<Request>, k: Key, x: Time)
    requires Timely(trace)
    ensures AllowedIn(trace, k, x, x + 60_000) <= if k.Connector? then 239 else 119
  {
    CeilingHolds(trace, k, x);
  }

  // ---------- refusals ----------

  /** The request of a trace that opened the present window of a key, or -1: the first hit of all, and
      then each that comes more than 60 seconds after the one before it in this list. */
  function Opening(trace: seq<Request>, k: Key): (o: int)
    ensures -1 <= o < |trace|
    decreases |trace|
  {
    if trace == [] then -1
    else
      var n := |trace| - 1;
      var o := Opening(trace[..n], k);
      if !Hits(trace[n], k) then o
      else if o >= 0 && trace[n].at <= trace[o].at + 60_000 then o
      else n
  }

  /** How many requests from the i-th on hit a key, allowed or not. */
  function HitsFrom(trace: seq<Request>, k: Key, i: int): nat
    decreases |trace|
  {
    if |trace| <= i || trace == [] then 0
    else HitsFrom(trace[..|trace| - 1], k, i) + if Hits(trace[|trace| - 1], k) then 1 else 0
  }

  lemma HitsFromEnd(trace: seq<Request>, k: Key)
    ensures HitsFrom(trace, k, |trace|) == 0
  {
  }

  lemma {:induction false} CounterIs(trace: seq<Request>, k: Key)
    ensures k in Run(map[], trace) <==> Opening(trace, k) >= 0
    ensures k in Run(map[], trace) ==>
              var o := Opening(trace, k);
              HitsFrom(trace, k, o) >= 1
              && Run(map[], trace)[k] == Counter(HitsFrom(trace, k, o), trace[o].at + 60_000)
    decreases |trace|
  {
    if trace != [] {
      var front, r := trace[..|trace| - 1], trace[|trace| - 1];
      CounterIs(front, k);
      HitsFromEnd(front, k);
      if Hits(r, k) {
        CountedAt(Run(map[], front), r, k);
      } else {
        assert k in Run(map[], trace) <==> k in Run(map[], front);
      }
    }
  }

  /** A request is refused exactly when more than 120 requests have hit its connector, or more than 60 its
      credential at its address, since the one that opened the window, these two and refused ones
      included. */
  lemma RefusedIff(trace: seq<Request>)
    requires trace != []
    ensures var r := trace[|trace| - 1];
            var connector, credential := Connector(r.connector), Credential(r.connector, r.client);
            !Allowed(Run(map[], trace[..|trace| - 1]), r) <==>
              || HitsFrom(trace, connector, Opening(trace, connector)) > 120
              || HitsFrom(trace, credential, Opening(trace, credential)) > 60
  {
    var r := trace[|trace| - 1];
    var connector, credential := Connector(r.connector), Credential(r.connector, r.client);
    LastRequest(trace);
    CounterIs(trace, connector);
    CounterIs(trace, credential);
    CountedAt(Run(map[], trace[..|trace| - 1]), r, connector);
    CountedAt(Run(map[], trace[..|trace| - 1]), r, credential);
  }

  lemma {:induction false} HitsShrink(trace: seq<Request>, k: Key, from: Time, later: Time, to: Time)
    requires from <= later
    ensures HitsIn(trace, k, later, to) <= HitsIn(trace, k, from, to)
    decreases |trace|
  {
    if trace != [] { HitsShrink(trace[..|trace| - 1], k, from, later, to); }
  }

  lemma {:induction false} HitsGrow(trace: seq<Request>, k: Key, from: Time, to: Time, later: Time)
    requires to <= later
    ensures HitsIn(trace, k, from, to) <= HitsIn(trace, k, from, later)
    decreases |trace|
  {
    if trace != [] { HitsGrow(trace[..|trace| - 1], k, from, to, later); }
  }

  /** A counter never exceeds the number of hits since its window opened. */
  lemma {:induction false} CounterCountsHits(trace: seq<Request>, k: Key)
    requires Timely(trace) && k in Run(map[], trace)
    ensures trace != []
    ensures var c := Run(map[], trace)[k]; c.value <= HitsIn(trace, k, c.expiresAt - WINDOW, trace[|trace| - 1].at)
    decreases |trace|
  {
    var front, r := trace[..|trace| - 1], trace[|trace| - 1];
    TimelyFront(trace);
    var s := Run(map[], front);
    if k in s {
      CounterCountsHits(front, k);
      CeilingHolds(front, k, 0);
      HitsGrow(front, k, s[k].expiresAt - WINDOW, front[|front| - 1].at, r.at);
    }
    if Hits(r, k) {
      assert Run(map[], trace)[k] == Incremented(s, k, r.at);
    } else {
      assert Run(map[], trace)[k] == s[k];
    }
  }

  /** The 60 seconds up to the last request of a trace, itself included, hit the key more often than
      its limit. */
  predicate Busy(trace: seq<Request>, k: Key)
    requires trace != []
  {
    HitsIn(trace, k, trace[|trace| - 1].at - WINDOW, trace[|trace| - 1].at) > Limit(k)
  }

  /** A request is refused only when its connector or its credential is busy. */
  lemma RefusedOnlyWhenBusy(trace: seq<Request>)
    requires trace != [] && Timely(trace) && !Allowed(Run(map[], trace[..|trace| - 1]), trace[|trace| - 1])
    ensures Busy(trace, ConnectorKey(trace[|trace| - 1])) || Busy(trace, CredentialKey(trace[|trace| - 1]))
  {
    var s, r := Run(map[], trace[..|trace| - 1]), trace[|trace| - 1];
    if Incremented(s, ConnectorKey(r), r.at).value > CONNECTOR_LIMIT {
      BusyKey(trace, ConnectorKey(r));
    } else {
      BusyKey(trace, CredentialKey(r));
    }
  }

  lemma BusyKey(trace: seq<Request>, k: Key)
    requires trace != [] && Timely(trace) && Hits(trace[|trace| - 1], k)
    requires Incremented(Run(map[], trace[..|trace| - 1]), k, trace[|trace| - 1].at).value > Limit(k)
    ensures Busy(trace, k)
  {
    var s, r := Run(map[], trace[..|trace| - 1]), trace[|trace| - 1];
    CountedAt(s, r, k);
    LastRequest(trace);
    BusyCounter(trace, k, After(s, r)[k], r.at);
  }

  lemma BusyCounter(trace: seq<Request>, k: Key, c: Counter, now: Time)
    requires trace != [] && Timely(trace) && trace[|trace| - 1].at == now <= c.expiresAt && c.value > Limit(k)
    requires k in Run(map[], trace) && Run(map[], trace)[k] == c
    ensures HitsIn(trace, k, now - WINDOW, now) > Limit(k)
  {
    CounterCountsHits(trace, k);
    HitsShrink(trace, k, now - WINDOW, c.expiresAt - WINDOW, now);
  }

  lemma LastRequest(trace: seq<Request>)
    requires trace != []
    ensures Run(map[], trace) == After(Run(map[], trace[..|trace| - 1]), trace[|trace| - 1])
  {
  }

  lemma CountedAt(s: Store, r: Request, k: Key)
    requires Hits(r, k)
    ensures k in After(s, r) && After(s, r)[k] == Incremented(s, k, r.at) && r.at <= Incremented(s, k, r.at).expiresAt
  {
  }

  // ---------- whose requests a credential's counter counts ----------

  /** One text begins with the other and a colon, which its address takes up again. */
  predicate Shifted(credential: string, ipAddress: string, other: string, otherAddress: string) {
    && |other| > |credential| && other[..|credential| + 1] == credential + ":"
    && ipAddress == other[|credential| + 1..] + ":" + otherAddress
  }

  lemma ShiftedShare(credential: string, ipAddress: string, other: string, otherAddress: string)
    requires Shifted(credential, ipAddress, other, otherAddress)
    ensures Client(credential, ipAddress) == Client(other, otherAddress)
  {
    var x := other[|credential| + 1..];
    assert other == credential + ":" + x;
    assert credential + ":" + (x + ":" + otherAddress) == credential + ":" + x + ":" + otherAddress;
  }

  lemma SharedIsShifted(credential: string, ipAddress: string, other: string, otherAddress: string)
    requires Client(credential, ipAddress) == Client(other, otherAddress) && |credential| < |other|
    ensures Shifted(credential, ipAddress, other, otherAddress)
  {
    var t, n := Client(credential, ipAddress), |credential| + 1;
    assert t[..n] == credential + ":" && t[..n] == other[..n];
    assert t[n..] == ipAddress && t[n..] == other[n..] + ":" + otherAddress;
  }

  /** Two credentials share a counter exactly when they and their addresses are the same, or one
      credential begins with the other and a colon, and the other's address with what follows. */
  lemma SharedCounterIff(credential: string, ipAddress: string, other: string, otherAddress: string)
    ensures Client(credential, ipAddress) == Client(other, otherAddress)
       <==> || (credential == other && ipAddress == otherAddress)
            || Shifted(credential, ipAddress, other, otherAddress)
            || Shifted(other, otherAddress, credential, ipAddress)
  {
    if Shifted(credential, ipAddress, other, otherAddress) {
      ShiftedShare(credential, ipAddress, other, otherAddress);
    }
    if Shifted(other, otherAddress, credential, ipAddress) {
      ShiftedShare(other, otherAddress, credential, ipAddress);
    }
    if Client(credential, ipAddress) == Client(other, otherAddress) {
      if |credential| < |other| {
        SharedIsShifted(credential, ipAddress, other, otherAddress);
      } else if |other| < |credential| {
        SharedIsShifted(other, otherAddress, credential, ipAddress);
      } else {
        SameLength(credential, ipAddress, other, otherAddress);
      }
    }
  }

  lemma SameLength(credential: string, ipAddress: string, other: string, otherAddress: string)
    requires Client(credential, ipAddress) == Client(other, otherAddress) && |credential| == |other|
    ensures credential == other && ipAddress == otherAddress
  {
    var t, n := Client(credential, ipAddress), |credential|;
    assert t[..n] == credential && t[..n] == other;
    assert t[n + 1..] == ipAddress && t[n + 1..] == otherAddress;
  }

  /** So a counter that only addresses without colons use is one credential's at one address. */
  lemma OwnCounterIff(credential: string, ipAddress: string, other: string, otherAddress: string)
    requires Lacks(ipAddress, ':') && Lacks(otherAddress, ':')
    ensures Client(credential, ipAddress) == Client(other, otherAddress) <==>
              credential == other && ipAddress == otherAddress
  {
    SharedCounterIff(credential, ipAddress, other, otherAddress);
    if Shifted(credential, ipAddress, other, otherAddress) {
      ShiftedHasColon(credential, ipAddress, other, otherAddress);
    }
    if Shifted(other, otherAddress, credential, ipAddress) {
      ShiftedHasColon(other, otherAddress, credential, ipAddress);
    }
  }

  lemma ShiftedHasColon(credential: string, ipAddress: string, other: string, otherAddress: string)
    requires Shifted(credential, ipAddress, other, otherAddress)
    ensures !Lacks(ipAddress, ':')
  {
    assert ipAddress[|other[|credential| + 1..]|] == ':';
  }

  /** An IPv6 address can make two credentials share a counter. */
  lemma SharedCounter()
    ensures Client("k:::ffff", "10.0.0.1") == Client("k", "::ffff:10.0.0.1")
  {
  }

  // ---------- the bound is exact ----------

  /** One request that opens a window, 119 in its last millisecond, 120 in the next, each with a
      credential of its own. */
  function BurstRequest(i: nat): Request {
    Request(0, Client(seq(i, _ => 'k'), ""), if i == 0 then 0 else if i < CONNECTOR_LIMIT then WINDOW else WINDOW + 1)
  }

  function Burst(n: nat): (trace: seq<Request>)
    ensures |trace| == n && forall i :: 0 <= i < n ==> trace[i] == BurstRequest(i)
  {
    seq(n, i requires 0 <= i < n => BurstRequest(i))
  }

  /** What the store holds after n requests of the burst. */
  ghost predicate AfterBurst(s: Store, n: nat) {
    && (forall k :: k in s && k.Credential? ==> |k.client| <= n)
    && (n == 0 ==> s == map[])
    && (n > 0 ==> Connector(0) in s
                  && s[Connector(0)] == if n <= CONNECTOR_LIMIT then Counter(n, WINDOW)
                                        else Counter(n - CONNECTOR_LIMIT, 2 * WINDOW + 1))
  }

  lemma BurstStep(s: Store, n: nat)
    requires n < 2 * CONNECTOR_LIMIT && AfterBurst(s, n)
    ensures AfterBurst(After(s, BurstRequest(n)), n + 1) && Allowed(s, BurstRequest(n))
  {
    var r := BurstRequest(n);
    assert CredentialKey(r) !in s;
    assert Incremented(s, CredentialKey(r), r.at).value == 1;
  }

  lemma {:induction false} BurstCounts(n: nat)
    requires n <= 2 * CONNECTOR_LIMIT
    ensures AfterBurst(Run(map[], Burst(n)), n)
    ensures AllowedIn(Burst(n), Connector(0), WINDOW, WINDOW + 1) == if n == 0 then 0 else n - 1
    decreases n
  {
    if n > 0 {
      BurstCounts(n - 1);
      BurstNext(n);
    }
  }

  lemma BurstNext(n: nat)
    requires 0 < n <= 2 * CONNECTOR_LIMIT && AfterBurst(Run(map[], Burst(n - 1)), n - 1)
    ensures AfterBurst(Run(map[], Burst(n)), n)
    ensures AllowedIn(Burst(n), Connector(0), WINDOW, WINDOW + 1)
         == AllowedIn(Burst(n - 1), Connector(0), WINDOW, WINDOW + 1) + if n == 1 then 0 else 1
  {
    BurstFront(n);
    BurstStep(Run(map[], Burst(n - 1)), n - 1);
    AllowedLast(Burst(n), Connector(0), WINDOW, WINDOW + 1);
  }

  lemma BurstFront(n: nat)
    requires n > 0
    ensures Burst(n)[..n - 1] == Burst(n - 1) && Burst(n)[n - 1] == BurstRequest(n - 1)
    ensures Run(map[], Burst(n)) == After(Run(map[], Burst(n - 1)), BurstRequest(n - 1))
  {
    assert Burst(n)[..n - 1] == Burst(n - 1);
  }

  lemma AllowedLast(trace: seq<Request>, k: Key, from: Time, to: Time)
    requires trace != [] && Hits(trace[|trace| - 1], k) && Allowed(Run(map[], trace[..|trace| - 1]), trace[|trace| - 1])
    ensures AllowedIn(trace, k, from, to)
         == AllowedIn(trace[..|trace| - 1], k, from, to) + if from <= trace[|trace| - 1].at <= to then 1 else 0
  {
  }

  lemma {:induction false} HitsAreAtMost(trace: seq<Request>, k: Key, from: Time, to: Time, wider: Time)
    requires to <= wider
    ensures AllowedIn(trace, k, from, to) <= AllowedIn(trace, k, from, wider)
    decreases |trace|
  {
    if trace != [] { HitsAreAtMost(trace[..|trace| - 1], k, from, to, wider); }
  }

  /** A burst across two windows has 239 requests of one connector allowed within two milliseconds. */
  lemma BoundIsReached() returns (trace: seq<Request>)
    ensures Timely(trace)
    ensures AllowedIn(trace, Connector(0), 60_000, 60_001) == 239
    ensures AllowedIn(trace, Connector(0), 60_000, 120_000) == 239
  {
    trace := Burst(2 * CONNECTOR_LIMIT);
    BurstCounts(2 * CONNECTOR_LIMIT);
    HitsAreAtMost(trace, Connector(0), WINDOW, WINDOW + 1, WINDOW + WINDOW);
    FewerThanTwiceTheLimit(trace, Connector(0), WINDOW);
  }
}
