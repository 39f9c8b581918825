/** What the tables of sessions and tokens say of the run that led to them: every row and every mark
    has exactly one cause. */
module RefreshTokensHistory {
  import opened Basics
  import opened RefreshTokens
  import opened RefreshTokensLaws

  // ---------- where a token comes from ----------

  function Unmarked(row: Token): Token {
    row.(usedAt := None, revokedAt := None)
  }

  /** The row of a token is what the step that issued it said, but for its two marks. */
  predicate IssuedBy(s: State, op: Op, t: Id)
    requires t in s.tokens
  {
    var row := Unmarked(s.tokens[t]);
    match op
    case Create(session, root, user, fingerprint, hash, sessionExpiry, tokenExpiry) =>
      && root == t && row == Token(session, None, hash, tokenExpiry, None, None)
      && session in s.sessions
      && s.sessions[session].(revokedAt := None) == Session(user, fingerprint, sessionExpiry, None)
    case Finish(read, _, _, newToken, newHash, newExpiry) =>
      newToken == t && row == Token(read.token.session, Some(read.tokenId), newHash, newExpiry, None, None)
    case _ => false
  }

  /** The end that the step gave to the token it issued. */
  function ExpiryGiven(op: Op): Time {
    match op
    case Create(_, _, _, _, _, _, tokenExpiry) => tokenExpiry
    case Finish(_, _, _, _, _, newExpiry) => newExpiry
    case _ => 0
  }

  lemma RowStep(s: State, op: Op, t: Id)
    requires Inv(s) && t in Next(s, op).tokens
    ensures t !in s.tokens ==> IssuedBy(Next(s, op), op, t)
    ensures t in s.tokens ==>
              Unmarked(Next(s, op).tokens[t]) == Unmarked(s.tokens[t])
  {
    if op.Finish? { FinishRowStep(s, op, t); } else { OtherRowStep(s, op, t); }
  }

  lemma OtherRowStep(s: State, op: Op, t: Id)
    requires !op.Finish? && t in Next(s, op).tokens
    ensures t !in s.tokens ==> IssuedBy(Next(s, op), op, t)
    ensures t in s.tokens ==> Unmarked(Next(s, op).tokens[t]) == Unmarked(s.tokens[t])
  {
  }

  lemma RotatedRowStep(s: State, n: State, op: Op, t: Id)
    requires op.Finish? && Known(s, op.snapshot.tokenId) && op.newToken !in s.tokens
    requires s.tokens[op.snapshot.tokenId].session == op.snapshot.token.session
    requires n == Rotate(s, op.snapshot.tokenId, op.newToken, op.now, op.newHash, op.newExpiry) && t in n.tokens
    ensures t !in s.tokens ==> IssuedBy(n, op, t)
    ensures t in s.tokens ==> Unmarked(n.tokens[t]) == Unmarked(s.tokens[t])
  {
  }

  lemma FinishRowStep(s: State, op: Op, t: Id)
    requires Inv(s) && op.Finish? && t in Next(s, op).tokens
    ensures t !in s.tokens ==> IssuedBy(Next(s, op), op, t)
    ensures t in s.tokens ==>
              Unmarked(Next(s, op).tokens[t]) == Unmarked(s.tokens[t])
  {
    if FinishEnabled(s, op) {
      FinishCases(s, op);
      assert Current(s, op.snapshot);
      if FinishOutcome(s, op) == Rotated { RotatedRowStep(s, Next(s, op), op, t); }
    }
  }

  lemma SessionStep(s: State, op: Op, i: Id)
    requires i in s.sessions
    ensures i in Next(s, op).sessions
    ensures Next(s, op).sessions[i].(revokedAt := None) == s.sessions[i].(revokedAt := None)
  {
    if op.Finish? && FinishEnabled(s, op) { FinishCases(s, op); }
  }

  /** Every token of a reachable state was issued by one step of the run, which gave it its session, its
      parent, its hash and its end; the step that made a session gave that its user, device and end. */
  lemma {:induction false} TokenHasOrigin(ops: seq<Op>, t: Id) returns (k: nat)
    requires t in Run(Empty(), ops).tokens
    ensures k < |ops| && IssuedBy(Run(Empty(), ops), ops[k], t)
    decreases |ops|
  {
    var n := |ops| - 1;
    var s := Run(Empty(), ops[..n]);
    RunKeepsInv(Empty(), ops[..n]);
    RowStep(s, ops[n], t);
    if t in s.tokens {
      k := TokenHasOrigin(ops[..n], t);
      assert ops[..n][k] == ops[k];
      if ops[k].Create? { SessionStep(s, ops[n], ops[k].session); }
    } else {
      k := n;
    }
  }

  /** No step rotates a token at or after the end that the step which issued it gave to it. */
  lemma RotatedInTime(ops: seq<Op>, t: Id, k: nat) returns (i: nat)
    requires k < |ops| && RotatesToken(Run(Empty(), ops[..k]), ops[k], t)
    ensures i < k && t in Run(Empty(), ops[..k]).tokens && IssuedBy(Run(Empty(), ops[..k]), ops[i], t)
    ensures ops[k].now < ExpiryGiven(ops[i])
  {
    RotatedIff(ops[..k], ops[k]);
    i := TokenHasOrigin(ops[..k], t);
  }

  // ---------- where a mark comes from ----------

  ghost predicate RotatedAt(ops: seq<Op>, k: int, t: Id, x: Time) {
    0 <= k < |ops| && RotatesToken(Run(Empty(), ops[..k]), ops[k], t) && ops[k].now == x
  }

  lemma RotatedAtFront(ops: seq<Op>, t: Id, x: Time)
    requires ops != []
    ensures var n := |ops| - 1;
            (exists k :: RotatedAt(ops, k, t, x))
            <==> (exists k :: RotatedAt(ops[..n], k, t, x)) || RotatedAt(ops, n, t, x)
  {
    var n := |ops| - 1;
    forall k | 0 <= k < n ensures RotatedAt(ops, k, t, x) <==> RotatedAt(ops[..n], k, t, x) {
      assert ops[..n][..k] == ops[..k];
    }
    if k :| RotatedAt(ops[..n], k, t, x) { assert RotatedAt(ops, k, t, x); }
    if k :| RotatedAt(ops, k, t, x) {
      if k < n { assert RotatedAt(ops[..n], k, t, x); }
    }
  }

  ghost predicate UsedAt(s: State, t: Id, x: Time) {
    t in s.tokens && s.tokens[t].usedAt == Some(x)
  }

  lemma UsedStep(s: State, op: Op, t: Id, x: Time)
    requires Inv(s)
    ensures UsedAt(Next(s, op), t, x) <==> UsedAt(s, t, x) || (RotatesToken(s, op, t) && op.now == x)
  {
    if op.Finish? { FinishUsedStep(s, op, t, x); } else { OthersUseNothing(s, op, t, x); }
  }

  lemma OthersUseNothing(s: State, op: Op, t: Id, x: Time)
    requires !op.Finish?
    ensures UsedAt(Next(s, op), t, x) <==> UsedAt(s, t, x)
  {
  }

  lemma FinishUsedStep(s: State, op: Op, t: Id, x: Time)
    requires Inv(s) && op.Finish?
    ensures UsedAt(Next(s, op), t, x) <==> UsedAt(s, t, x) || (RotatesToken(s, op, t) && op.now == x)
  {
    if FinishEnabled(s, op) {
      FinishCases(s, op);
      if FinishOutcome(s, op) == Rotated { RotatedUsedStep(s, Next(s, op), op, t, x); }
    }
  }

  lemma RotatedUsedStep(s: State, n: State, op: Op, t: Id, x: Time)
    requires op.Finish? && op.snapshot.tokenId in s.tokens && s.tokens[op.snapshot.tokenId].session in s.chains
    requires Live(s.tokens[op.snapshot.tokenId]) && op.newToken !in s.tokens
    requires n == Rotate(s, op.snapshot.tokenId, op.newToken, op.now, op.newHash, op.newExpiry)
    ensures UsedAt(n, t, x) <==> UsedAt(s, t, x) || (t == op.snapshot.tokenId && op.now == x)
  {
  }

  /** In every run, a token is used at a time exactly when some step of the run rotated it then. */
  lemma {:induction false} UsedIff(ops: seq<Op>, t: Id, x: Time)
    ensures UsedAt(Run(Empty(), ops), t, x) <==> exists k :: RotatedAt(ops, k, t, x)
    decreases |ops|
  {
    if ops != [] {
      var n := |ops| - 1;
      UsedIff(ops[..n], t, x);
      RotatedAtFront(ops, t, x);
      RunKeepsInv(Empty(), ops[..n]);
      UsedStep(Run(Empty(), ops[..n]), ops[n], t, x);
    }
  }

  /** The step is a reason to revoke the session: it presents one of its tokens from another device, or
      one that is used or revoked, or its user revokes it, alone or on a list of all. */
  ghost predicate Condemns(s: State, op: Op, session: Id) {
    && session in s.sessions
    && match op
       case Finish(read, expected, now, _, _, _) =>
         && FinishEnabled(s, op) && read.token.session == session
         && (|| read.session.fingerprint != expected
             || read.token.usedAt.Some? || read.token.revokedAt.Some?
             || (now < read.token.expiresAt && now < read.session.expiresAt && read.session.revokedAt.None?
                 && (s.tokens[read.tokenId].usedAt.Some? || s.tokens[read.tokenId].revokedAt.Some?)))
       case Revoke(target, actor, _) => target == session && s.sessions[session].user == actor
       case RevokeListed(listed, _) => listed in s.lists && session in listed
       case _ => false
  }

  ghost predicate CondemnedAt(ops: seq<Op>, k: int, session: Id) {
    0 <= k < |ops| && Condemns(Run(Empty(), ops[..k]), ops[k], session)
  }

  lemma CondemnedFront(ops: seq<Op>, session: Id)
    requires ops != []
    ensures var n := |ops| - 1;
            (exists k :: CondemnedAt(ops, k, session))
            <==> (exists k :: CondemnedAt(ops[..n], k, session)) || CondemnedAt(ops, n, session)
  {
    var n := |ops| - 1;
    forall k | 0 <= k < n ensures CondemnedAt(ops, k, session) <==> CondemnedAt(ops[..n], k, session) {
      assert ops[..n][..k] == ops[..k];
    }
    if k :| CondemnedAt(ops[..n], k, session) { assert CondemnedAt(ops, k, session); }
    if k :| CondemnedAt(ops, k, session) {
      if k < n { assert CondemnedAt(ops[..n], k, session); }
    }
  }

  predicate Revoked(s: State, session: Id) {
    session in s.sessions && s.sessions[session].revokedAt.Some?
  }

  lemma RevokedStep(s: State, op: Op, session: Id)
    requires Inv(s)
    ensures Revoked(Next(s, op), session) <==> Revoked(s, session) || Condemns(s, op, session)
  {
    match op {
      case Finish(_, _, _, _, _, _) => FinishRevokedStep(s, op, session);
      case RevokeListed(listed, when) => ListedRevokedStep(s, listed, when, session);
      case Revoke(target, actor, at) => GraphRevokedStep(s, target, at, session);
      case _ =>
    }
  }

  lemma GraphRevokedStep(s: State, target: Id, at: Time, session: Id)
    ensures Revoked(RevokeGraph(s, target, at), session) <==>
              Revoked(s, session) || (session in s.sessions && session == target)
  {
  }

  lemma ListedRevokedStep(s: State, listed: set<Id>, when: Time, session: Id)
    ensures Revoked(RevokeAllOf(s, listed, when), session) <==>
              Revoked(s, session) || (session in s.sessions && session in listed)
  {
  }

  lemma FinishRevokedStep(s: State, op: Op, session: Id)
    requires Inv(s) && op.Finish?
    ensures Revoked(Next(s, op), session) <==> Revoked(s, session) || Condemns(s, op, session)
  {
    if FinishEnabled(s, op) {
      FinishCases(s, op);
      assert Current(s, op.snapshot);
    }
  }

  /** In every run, a session is revoked exactly when some step gave a reason for it, and a token
      exactly when its session is. */
  lemma {:induction false} RevokedIff(ops: seq<Op>, session: Id)
    ensures Revoked(Run(Empty(), ops), session) <==> exists k :: CondemnedAt(ops, k, session)
    ensures var s := Run(Empty(), ops);
            forall t :: t in s.tokens && s.tokens[t].session == session ==>
              (s.tokens[t].revokedAt.Some? <==> Revoked(s, session))
    decreases |ops|
  {
    RunKeepsInv(Empty(), ops);
    if ops != [] {
      var n := |ops| - 1;
      RevokedIff(ops[..n], session);
      CondemnedFront(ops, session);
      RunKeepsInv(Empty(), ops[..n]);
      RevokedStep(Run(Empty(), ops[..n]), ops[n], session);
    }
  }
}
