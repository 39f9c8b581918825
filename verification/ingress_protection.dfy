/** The fixed-window limits on connector requests. A key lives until its expiry has passed, so a
    window also takes requests at the very millisecond at which it expires. Times are
    milliseconds and do not run backwards. */
module IngressProtection {

  type Id = nat
  type Time = int

  const WINDOW: Time := 60_000
  const CONNECTOR_LIMIT: nat := 120
  const CREDENTIAL_LIMIT: nat := 60

  /** `client` is the credential and the address of the request in one text. */
  datatype Request = Request(connector: Id, client: string, at: Time)

  function Client(credential: string, ipAddress: string): string {
    credential + ":" + ipAddress
  }

  datatype Key = Connector(connector: Id) | Credential(owner: Id, client: string)

  datatype Counter = Counter(value: nat, expiresAt: Time)

  type Store = map<Key, Counter>

  function ConnectorKey(r: Request): Key { Connector(r.connector) }

  function CredentialKey(r: Request): Key { Credential(r.connector, r.client) }

  function Limit(k: Key): nat {
    if k.Connector? then CONNECTOR_LIMIT else CREDENTIAL_LIMIT
  }

  /** INCR, then EXPIRE when the result is 1. */
  function Incremented(s: Store, k: Key, now: Time): Counter {
    if k in s && now <= s[k].expiresAt && s[k].value > 0 then Counter(s[k].value + 1, s[k].expiresAt)
    else Counter(1, now + WINDOW)
  }

  function After(s: Store, r: Request): Store {
    s[ConnectorKey(r) := Incremented(s, ConnectorKey(r), r.at)]
     [CredentialKey(r) := Incremented(s, CredentialKey(r), r.at)]
  }

  predicate Allowed(s: Store, r: Request) {
    Incremented(s, ConnectorKey(r), r.at).value <= CONNECTOR_LIMIT
    && Incremented(s, CredentialKey(r), r.at).value <= CREDENTIAL_LIMIT
  }

  class Protection {
    var store: Store

    constructor ()
      ensures store == map[]
    {
      store := map[];
    }

    method Increment(k: Key, now: Time) returns (value: nat)
      modifies this
      ensures store == old(store)[k := Incremented(old(store), k, now)]
      ensures value == store[k].value
    {
      if k in store && store[k].expiresAt < now {
        store := store - {k};
      }
      value := if k in store then store[k].value + 1 else 1;
      if value == 1 {
        store := store[k := Counter(1, now + WINDOW)];
      } else {
        store := store[k := Counter(value, store[k].expiresAt)];
      }
    }

    method AssertAllowed(r: Request) returns (allowed: bool)
      modifies this
      ensures store == After(old(store), r)
      ensures allowed == Allowed(old(store), r)
    {
      var connector := Increment(ConnectorKey(r), r.at);
      var credential := Increment(CredentialKey(r), r.at);
      allowed := !(connector > CONNECTOR_LIMIT || credential > CREDENTIAL_LIMIT);
    }
  }

  // ---------- traces ----------

  predicate Timely(trace: seq<Request>) {
    forall i, j :: 0 <= i < j < |trace| ==> trace[i].at <= trace[j].at
  }

  function Run(s: Store, trace: seq<Request>): Store
    decreases |trace|
  {
    if trace == [] then s else After(Run(s, trace[..|trace| - 1]), trace[|trace| - 1])
  }

  predicate Hits(r: Request, k: Key) {
    ConnectorKey(r) == k || CredentialKey(r) == k
  }

  /** How many requests of a trace hit a key between two times. */
  function HitsIn(trace: seq<Request>, k: Key, from: Time, to: Time): nat
    decreases |trace|
  {
    if trace == [] then 0
    else
      var r := trace[|trace| - 1];
      HitsIn(trace[..|trace| - 1], k, from, to) + if Hits(r, k) && from <= r.at <= to then 1 else 0
  }

  /** How many of them were allowed. */
  function AllowedIn(trace: seq<Request>, k: Key, from: Time, to: Time): nat
    decreases |trace|
  {
    if trace == [] then 0
    else
      var front, r := trace[..|trace| - 1], trace[|trace| - 1];
      AllowedIn(front, k, from, to) + if Hits(r, k) && from <= r.at <= to && Allowed(Run(map[], front), r) then 1 else 0
  }
}
