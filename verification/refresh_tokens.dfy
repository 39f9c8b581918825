/** Sessions and their rotating refresh tokens. A rotation reads the presented token, then its session,
    and writes later, so what it read may be out of date when it writes; its two reads and its writes
    are three steps. */
module RefreshTokens {
  import opened Basics

  type Id = nat
  type Time = int
  type Hash = nat

  datatype Session = Session(user: Id, fingerprint: Hash, expiresAt: Time, revokedAt: Option<Time>)

  datatype Token = Token(
    session: Id, parent: Option<Id>, hash: Hash, expiresAt: Time, usedAt: Option<Time>, revokedAt: Option<Time>)

  /** A token row as a rotation read it. */
  datatype Presented = Presented(tokenId: Id, token: Token)

  /** A token row joined with its session row, which the rotation read after it. */
  datatype Snapshot = Snapshot(tokenId: Id, token: Token, session: Session)

  /** The tables; `presented` and `seen` are what rotations ever read, `lists` every list of live sessions
      that a revocation of all read, `chains` the order in which the tokens of each session were issued. */
  datatype State = State(
    sessions: map<Id, Session>, tokens: map<Id, Token>, presented: set<Presented>, seen: set<Snapshot>,
    lists: set<set<Id>>, chains: map<Id, seq<Id>>)

  datatype Outcome = Invalid | DeviceMismatch | Reused | Rotated | Done

  datatype Op =
    | Create(session: Id, root: Id, user: Id, fingerprint: Hash, hash: Hash, sessionExpiry: Time, tokenExpiry: Time)
    | Read(token: Id)
    | Join(found: Presented)
    | Finish(snapshot: Snapshot, expected: Hash, now: Time, newToken: Id, newHash: Hash, newExpiry: Time)
    | Revoke(target: Id, actor: Id, at: Time)
    | ListLive(owner: Id)
    | RevokeListed(listed: set<Id>, when: Time)

  function Empty(): State {
    State(map[], map[], {}, {}, {}, map[])
  }

  // ---------- what each step does to the tables ----------

  predicate Live(t: Token) {
    t.usedAt.None? && t.revokedAt.None?
  }

  predicate HashTaken(tokens: map<Id, Token>, hash: Hash) {
    exists t :: t in tokens && tokens[t].hash == hash
  }

  /** The two conditional updates of revokeSessionGraph. */
  function RevokedSession(s: Session, now: Time): Session {
    if s.revokedAt.None? then s.(revokedAt := Some(now)) else s
  }

  function RevokedToken(t: Token, now: Time): Token {
    if t.revokedAt.None? then t.(revokedAt := Some(now)) else t
  }

  function RevokeGraph(s: State, session: Id, now: Time): State {
    s.(sessions := map i | i in s.sessions ::
         if i == session then RevokedSession(s.sessions[i], now) else s.sessions[i],
       tokens := map t | t in s.tokens ::
         if s.tokens[t].session == session then RevokedToken(s.tokens[t], now) else s.tokens[t])
  }

  function LiveSessions(s: State, user: Id): set<Id> {
    set i | i in s.sessions && s.sessions[i].user == user && s.sessions[i].revokedAt.None?
  }

  /** Sessions are marked by their ids alone, tokens only while unmarked. */
  function RevokeAllOf(s: State, listed: set<Id>, now: Time): State {
    s.(sessions := map i | i in s.sessions ::
         if i in listed then s.sessions[i].(revokedAt := Some(now)) else s.sessions[i],
       tokens := map t | t in s.tokens ::
         if s.tokens[t].session in listed then RevokedToken(s.tokens[t], now) else s.tokens[t])
  }

  /** Consuming a token and issuing its child. */
  function Rotate(s: State, parent: Id, child: Id, now: Time, hash: Hash, expiry: Time): State
    requires parent in s.tokens && s.tokens[parent].session in s.chains
  {
    var p := s.tokens[parent];
    s.(tokens := s.tokens[parent := p.(usedAt := Some(now))]
                         [child := Token(p.session, Some(parent), hash, expiry, None, None)],
       chains := s.chains[p.session := s.chains[p.session] + [child]])
  }

  /** The read finds the token, whose session and chain exist. */
  predicate Known(s: State, t: Id) {
    t in s.tokens && s.tokens[t].session in s.sessions && s.tokens[t].session in s.chains
  }

  predicate FinishEnabled(s: State, op: Op)
    requires op.Finish?
  {
    op.snapshot in s.seen && Known(s, op.snapshot.tokenId)
    && op.newToken !in s.tokens && !HashTaken(s.tokens, op.newHash)
  }

  /** What rotateRefreshToken answers, given what it read and what it finds when it writes. */
  function FinishOutcome(s: State, op: Op): Outcome
    requires op.Finish? && FinishEnabled(s, op)
  {
    var read := op.snapshot;
    if read.session.fingerprint != op.expected then DeviceMismatch
    else if !Live(read.token) then Reused
    else if read.token.expiresAt <= op.now || read.session.expiresAt <= op.now then Invalid
    else if read.session.revokedAt.Some? then Invalid
    else if !Live(s.tokens[read.tokenId]) then Reused
    else Rotated
  }

  function OutcomeOf(s: State, op: Op): Outcome {
    if op.Finish? && FinishEnabled(s, op) then FinishOutcome(s, op) else Done
  }

  /** One committed step; a step that is not possible leaves everything as it is. */
  function Next(s: State, op: Op): State {
    match op
    case Create(session, root, user, fingerprint, hash, sessionExpiry, tokenExpiry) =>
      if session in s.sessions || session in s.chains || root in s.tokens || HashTaken(s.tokens, hash) then s
      else
        s.(sessions := s.sessions[session := Session(user, fingerprint, sessionExpiry, None)],
           tokens := s.tokens[root := Token(session, None, hash, tokenExpiry, None, None)],
           chains := s.chains[session := [root]])
    case Read(token) =>
      if !Known(s, token) then s else s.(presented := s.presented + {Presented(token, s.tokens[token])})
    case Join(found) =>
      if found !in s.presented || found.token.session !in s.sessions then s
      else s.(seen := s.seen + {Snapshot(found.tokenId, found.token, s.sessions[found.token.session])})
    case Finish(read, _, now, newToken, newHash, newExpiry) =>
      if !FinishEnabled(s, op) then s
      else
        (match FinishOutcome(s, op)
         case Rotated => Rotate(s, read.tokenId, newToken, now, newHash, newExpiry)
         case Invalid => s
         case _ => RevokeGraph(s, read.token.session, now))
    case Revoke(target, actor, at) =>
      if target in s.sessions && s.sessions[target].user == actor then RevokeGraph(s, target, at) else s
    case ListLive(owner) => s.(lists := s.lists + {LiveSessions(s, owner)})
    case RevokeListed(listed, when) => if listed in s.lists then RevokeAllOf(s, listed, when) else s
  }

  /** The tables after a run, in whatever order the steps of all requests were committed. */
  function Run(s: State, ops: seq<Op>): State
    decreases |ops|
  {
    if ops == [] then s else Next(Run(s, ops[..|ops| - 1]), ops[|ops| - 1])
  }

  // ---------- what every step keeps ----------

  /** The tokens of a session, in order of issue: each one is the child of the one before it, and
      all but the last are used. */
  ghost predicate IsChain(s: State, session: Id, chain: seq<Id>) {
    && chain != []
    && (forall i :: 0 <= i < |chain| ==> chain[i] in s.tokens && s.tokens[chain[i]].session == session)
    && (forall i, j :: 0 <= i < j < |chain| ==> chain[i] != chain[j])
    && s.tokens[chain[0]].parent == None
    && (forall i :: 0 < i < |chain| ==> s.tokens[chain[i]].parent == Some(chain[i - 1]))
    && (forall i :: 0 <= i < |chain| - 1 ==> s.tokens[chain[i]].usedAt.Some?)
  }

  /** Every token belongs to the chain of its session. */
  ghost predicate Linked(s: State) {
    && s.sessions.Keys == s.chains.Keys
    && forall t :: t in s.tokens ==> s.tokens[t].session in s.chains && t in s.chains[s.tokens[t].session]
  }

  ghost predicate UniqueHashes(s: State) {
    forall t, u :: t in s.tokens && u in s.tokens && s.tokens[t].hash == s.tokens[u].hash ==> t == u
  }

  ghost predicate AllChains(s: State) {
    forall i :: i in s.chains ==> IsChain(s, i, s.chains[i])
  }

  /** A session and its tokens are revoked together. */
  ghost predicate RevokedThroughout(s: State) {
    forall t :: t in s.tokens && s.tokens[t].session in s.sessions ==>
      (s.sessions[s.tokens[t].session].revokedAt.Some? <==> s.tokens[t].revokedAt.Some?)
  }

  ghost predicate SeenAreCurrent(s: State) {
    (forall p :: p in s.presented ==> CurrentToken(s, p.tokenId, p.token)) && forall r :: r in s.seen ==> Current(s, r)
  }

  ghost predicate Inv(s: State) {
    Linked(s) && UniqueHashes(s) && AllChains(s) && RevokedThroughout(s) && SeenAreCurrent(s)
  }

  /** A mark that was there is still there. */
  predicate Stays(before: Option<Time>, after: Option<Time>) {
    before.Some? ==> after.Some?
  }

  /** What was read of a token still names a row: only its two time marks change, and no mark goes away. */
  ghost predicate CurrentToken(s: State, t: Id, row: Token) {
    && t in s.tokens
    && row.session in s.sessions
    && s.tokens[t].(usedAt := row.usedAt, revokedAt := row.revokedAt) == row
    && Stays(row.usedAt, s.tokens[t].usedAt)
    && Stays(row.revokedAt, s.tokens[t].revokedAt)
  }

  /** The same for a snapshot. It may show a session revoked and its token not, but not the reverse. */
  ghost predicate Current(s: State, r: Snapshot) {
    && CurrentToken(s, r.tokenId, r.token)
    && s.sessions[r.token.session].(revokedAt := r.session.revokedAt) == r.session
    && Stays(r.token.revokedAt, r.session.revokedAt)
    && Stays(r.session.revokedAt, s.sessions[r.token.session].revokedAt)
  }

  lemma FinishCases(s: State, op: Op)
    requires op.Finish? && FinishEnabled(s, op)
    ensures OutcomeOf(s, op) == FinishOutcome(s, op)
    ensures FinishOutcome(s, op) in {DeviceMismatch, Reused} ==>
              Next(s, op) == RevokeGraph(s, op.snapshot.token.session, op.now)
    ensures FinishOutcome(s, op) == Invalid ==> Next(s, op) == s
    ensures FinishOutcome(s, op) == Rotated ==>
              Next(s, op) == Rotate(s, op.snapshot.tokenId, op.newToken, op.now, op.newHash, op.newExpiry)
  {
  }

  /** Whatever a rotation has read, and however long ago, it can finish on it. */
  lemma ReadEnablesFinish(s: State, op: Op)
    requires Inv(s) && op.Finish? && op.snapshot in s.seen
    requires op.newToken !in s.tokens && !HashTaken(s.tokens, op.newHash)
    ensures FinishEnabled(s, op) && s.tokens[op.snapshot.tokenId].session == op.snapshot.token.session
  {
    assert Current(s, op.snapshot);
  }

  // ---------- the repository ----------

  class SessionRepository {
    var sessions: map<Id, Session>
    var tokens: map<Id, Token>
    ghost var presented: set<Presented>
    ghost var seen: set<Snapshot>
    ghost var lists: set<set<Id>>
    ghost var chains: map<Id, seq<Id>>

    ghost function Tables(): State
      reads this
    {
      State(sessions, tokens, presented, seen, lists, chains)
    }

    constructor ()
      ensures Tables() == Empty()
    {
      sessions, tokens, presented, seen, lists, chains := map[], map[], {}, {}, {}, map[];
    }

    method CreateSession(
        session: Id, token: Id, user: Id, fingerprint: Hash, hash: Hash, sessionExpiry: Time, tokenExpiry: Time)
      requires session !in sessions && session !in chains && token !in tokens && !HashTaken(tokens, hash)
      modifies this
      ensures Tables() ==
                Next(old(Tables()), Create(session, token, user, fingerprint, hash, sessionExpiry, tokenExpiry))
      ensures sessions == old(sessions)[session := Session(user, fingerprint, sessionExpiry, None)]
      ensures tokens == old(tokens)[token := Token(session, None, hash, tokenExpiry, None, None)]
    {
      sessions := sessions[session := Session(user, fingerprint, sessionExpiry, None)];
      tokens := tokens[token := Token(session, None, hash, tokenExpiry, None, None)];
      chains := chains[session := [token]];
    }

    /** `findUnique({ where: { tokenHash } })`. */
    method FindToken(hash: Hash) returns (found: Option<Presented>)
      requires Inv(Tables())
      modifies `presented
      ensures found.Some? <==> HashTaken(tokens, hash)
      ensures found.None? ==> Tables() == old(Tables())
      ensures found.Some? ==>
                && found.value.token.hash == hash && found.value in presented
                && found.value.tokenId in tokens && found.value.token == tokens[found.value.tokenId]
                && Tables() == Next(old(Tables()), Read(found.value.tokenId))
    {
      if t :| t in tokens && tokens[t].hash == hash {
        found := Some(Presented(t, tokens[t]));
        presented := presented + {found.value};
      } else {
        found := None;
      }
    }

    /** Its `include: { session: true }`, which is a query of its own. */
    method FindSession(found: Presented) returns (read: Snapshot)
      requires Inv(Tables()) && found in presented
      modifies `seen
      ensures found.token.session in sessions && read in seen
      ensures read == Snapshot(found.tokenId, found.token, sessions[found.token.session])
      ensures Tables() == Next(old(Tables()), Join(found))
    {
      assert CurrentToken(Tables(), found.tokenId, found.token);
      read := Snapshot(found.tokenId, found.token, sessions[found.token.session]);
      seen := seen + {read};
    }

    method RevokeSessionGraph(session: Id, now: Time)
      modifies this
      ensures Tables() == RevokeGraph(old(Tables()), session, now)
      ensures sessions == map i | i in old(sessions) ::
                if i == session && old(sessions)[i].revokedAt.None? then old(sessions)[i].(revokedAt := Some(now))
                else old(sessions)[i]
      ensures tokens == map t | t in old(tokens) ::
                if old(tokens)[t].session == session && old(tokens)[t].revokedAt.None?
                then old(tokens)[t].(revokedAt := Some(now)) else old(tokens)[t]
    {
      if session in sessions && sessions[session].revokedAt == None {
        sessions := sessions[session := sessions[session].(revokedAt := Some(now))];
      }
      tokens := map t | t in tokens ::
        if tokens[t].session == session && tokens[t].revokedAt == None then tokens[t].(revokedAt := Some(now))
        else tokens[t];
    }

    /** `updateMany` on the token while it is unused and unrevoked. */
    method Consume(token: Id, now: Time) returns (count: nat)
      requires token in tokens
      modifies `tokens
      ensures count == if Live(old(tokens)[token]) then 1 else 0
      ensures tokens == if count == 1 then old(tokens)[token := old(tokens)[token].(usedAt := Some(now))]
                else old(tokens)
    {
      count := 0;
      if tokens[token].revokedAt == None && tokens[token].usedAt == None {
        tokens := tokens[token := tokens[token].(usedAt := Some(now))];
        count := 1;
      }
    }

    /** The rest of rotateRefreshToken, after its read. */
    method FinishRotation(read: Snapshot, expected: Hash, now: Time, newToken: Id, newHash: Hash, newExpiry: Time)
      returns (outcome: Outcome)
      requires Inv(Tables()) && read in seen && newToken !in tokens && !HashTaken(tokens, newHash)
      modifies this
      ensures Tables() == Next(old(Tables()), Finish(read, expected, now, newToken, newHash, newExpiry))
      ensures outcome == OutcomeOf(old(Tables()), Finish(read, expected, now, newToken, newHash, newExpiry))
    {
      ghost var before := Tables();
      ReadEnablesFinish(before, Finish(read, expected, now, newToken, newHash, newExpiry));
      var session := read.token.session;
      FinishCases(before, Finish(read, expected, now, newToken, newHash, newExpiry));
      if read.session.fingerprint != expected {
        RevokeSessionGraph(session, now);
        return DeviceMismatch;
      }
      if read.token.usedAt != None || read.token.revokedAt != None {
        RevokeSessionGraph(session, now);
        return Reused;
      }
      if read.token.expiresAt <= now || read.session.expiresAt <= now || read.session.revokedAt != None {
        return Invalid;
      }
      var consumed := Consume(read.tokenId, now);
      if consumed != 1 {
        RevokeSessionGraph(session, now);
        return Reused;
      }
      tokens := tokens[newToken := Token(session, Some(read.tokenId), newHash, newExpiry, None, None)];
      chains := chains[session := chains[session] + [newToken]];
      return Rotated;
    }

    method RevokeSession(target: Id, actor: Id, at: Time) returns (found: bool)
      modifies this
      ensures Tables() == Next(old(Tables()), Revoke(target, actor, at))
      ensures found <==> target in old(sessions) && old(sessions)[target].user == actor
    {
      if target !in sessions || sessions[target].user != actor {
        return false;
      }
      RevokeSessionGraph(target, at);
      return true;
    }

    /** The first statement of revokeAllSessions, which later writes by what it read here. */
    method ListLiveSessions(owner: Id) returns (ids: set<Id>)
      modifies `lists
      ensures forall i :: i in ids <==> i in sessions && sessions[i].user == owner && sessions[i].revokedAt.None?
      ensures ids in lists
      ensures Tables() == Next(old(Tables()), ListLive(owner))
    {
      ids := set i | i in sessions && sessions[i].user == owner && sessions[i].revokedAt == None;
      assert ids == LiveSessions(Tables(), owner);
      lists := lists + {ids};
    }

    /** The rest of revokeAllSessions. */
    method RevokeAllSessions(listed: set<Id>, now: Time) returns (count: nat)
      requires listed in lists
      modifies this
      ensures Tables() == Next(old(Tables()), RevokeListed(listed, now)) && count == |listed|
      ensures sessions == map i | i in old(sessions) ::
                if i in listed then old(sessions)[i].(revokedAt := Some(now)) else old(sessions)[i]
      ensures tokens == map t | t in old(tokens) ::
                if old(tokens)[t].session in listed && old(tokens)[t].revokedAt.None?
                then old(tokens)[t].(revokedAt := Some(now)) else old(tokens)[t]
    {
      sessions := map i | i in sessions :: if i in listed then sessions[i].(revokedAt := Some(now)) else sessions[i];
      tokens := map t | t in tokens ::
        if tokens[t].session in listed && tokens[t].revokedAt == None then tokens[t].(revokedAt := Some(now))
        else tokens[t];
      count := |listed|;
    }
  }
}
