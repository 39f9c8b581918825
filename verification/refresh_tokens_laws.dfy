/** Over every run: one chain and at most one live token for each session, each token rotated at
    most once, and a revoked session that stays dead. */
module RefreshTokensLaws {
  import opened Basics
  import opened RefreshTokens

  // ---------- every step keeps the invariant ----------

  lemma NewTokenKeepsHashes(s: State, n: State, token: Id, row: Token)
    requires UniqueHashes(s) && token !in s.tokens && !HashTaken(s.tokens, row.hash)
    requires n.tokens.Keys == s.tokens.Keys + {token} && n.tokens[token] == row
    requires forall t :: t in s.tokens ==> n.tokens[t].hash == s.tokens[t].hash
    ensures UniqueHashes(n)
  {
    forall t | t in s.tokens ensures s.tokens[t].hash != row.hash {}
  }

  /** The rows of a chain may gain marks, but keep what a chain is made of. */
  lemma ChainCarriesOver(s: State, n: State, i: Id)
    requires i in s.chains && IsChain(s, i, s.chains[i])
    requires forall t :: t in s.tokens && s.tokens[t].session == i ==>
                           && t in n.tokens
                           && n.tokens[t].session == i
                           && n.tokens[t].parent == s.tokens[t].parent
                           && (s.tokens[t].usedAt.Some? ==> n.tokens[t].usedAt.Some?)
    ensures IsChain(n, i, s.chains[i])
  {
  }

  lemma CreateKeepsInv(s: State, n: State, session: Id, root: Id, row: Session, token: Token)
    requires Inv(s) && session !in s.sessions && session !in s.chains && root !in s.tokens
    requires !HashTaken(s.tokens, token.hash) && row.revokedAt.None?
    requires token.session == session && token.parent.None? && token.usedAt.None? && token.revokedAt.None?
    requires n.sessions == s.sessions[session := row] && n.tokens == s.tokens[root := token]
    requires n.presented == s.presented && n.seen == s.seen && n.chains == s.chains[session := [root]]
    ensures Inv(n)
  {
    CreateKeepsChains(s, n, session, root);
    CreateKeepsRows(s, n, session, root, row, token);
  }

  lemma CreateKeepsRows(s: State, n: State, session: Id, root: Id, row: Session, token: Token)
    requires Linked(s) && UniqueHashes(s) && RevokedThroughout(s) && SeenAreCurrent(s)
    requires session !in s.sessions && root !in s.tokens && !HashTaken(s.tokens, token.hash)
    requires row.revokedAt.None? && token.revokedAt.None? && token.session == session
    requires n.presented == s.presented && n.seen == s.seen
    requires n.sessions == s.sessions[session := row] && n.tokens == s.tokens[root := token]
    ensures UniqueHashes(n) && RevokedThroughout(n) && SeenAreCurrent(n)
  {
    NewTokenKeepsHashes(s, n, root, token);
    NewTokenKeepsSeen(s, n);
    NewTokenKeepsRevoked(s, n, root);
  }

  lemma CreateKeepsChains(s: State, n: State, session: Id, root: Id)
    requires Linked(s) && AllChains(s) && session !in s.chains && root !in s.tokens && root in n.tokens
    requires n.tokens[root].session == session && n.tokens[root].parent.None? && n.sessions.Keys == n.chains.Keys
    requires n.tokens == s.tokens[root := n.tokens[root]] && n.chains == s.chains[session := [root]]
    ensures AllChains(n) && Linked(n)
  {
    CreateKeepsLinks(s, n, session, root);
    forall i | i in n.chains ensures IsChain(n, i, n.chains[i]) {
      if i in s.chains { ChainCarriesOver(s, n, i); }
    }
  }

  lemma CreateKeepsLinks(s: State, n: State, session: Id, root: Id)
    requires Linked(s) && session !in s.chains && root !in s.tokens && root in n.tokens
    requires n.tokens[root].session == session && n.sessions.Keys == n.chains.Keys
    requires n.tokens == s.tokens[root := n.tokens[root]] && n.chains == s.chains[session := [root]]
    ensures Linked(n)
  {
  }

  /** Rows that were there keep their identity: snapshots stay current. */
  lemma NewTokenKeepsSeen(s: State, n: State)
    requires SeenAreCurrent(s) && n.presented == s.presented && n.seen == s.seen
    requires forall t :: t in s.tokens ==>
                           t in n.tokens && n.tokens[t].(usedAt := None) == s.tokens[t].(usedAt := None)
                           && Stays(s.tokens[t].usedAt, n.tokens[t].usedAt)
    requires forall i :: i in s.sessions ==> i in n.sessions && n.sessions[i] == s.sessions[i]
    ensures SeenAreCurrent(n)
  {
    forall p | p in n.presented ensures CurrentToken(n, p.tokenId, p.token) {
      assert CurrentToken(s, p.tokenId, p.token);
    }
    forall r | r in n.seen ensures Current(n, r) {
      assert Current(s, r);
    }
  }

  lemma NewTokenKeepsRevoked(s: State, n: State, token: Id)
    requires RevokedThroughout(s) && Linked(s) && n.tokens.Keys == s.tokens.Keys + {token}
    requires n.tokens[token].session in n.sessions && n.sessions[n.tokens[token].session].revokedAt.None?
    requires n.tokens[token].revokedAt.None?
    requires forall t :: t in s.tokens && t != token ==> n.tokens[t].(usedAt := None) == s.tokens[t].(usedAt := None)
    requires forall i :: i in s.sessions ==> i in n.sessions && n.sessions[i] == s.sessions[i]
    ensures RevokedThroughout(n)
  {
  }

  /** Steps that only set revocation marks, and set them on every token of each session they mark. */
  ghost predicate OnlyRevokes(s: State, n: State) {
    && n.sessions.Keys == s.sessions.Keys && n.tokens.Keys == s.tokens.Keys && n.chains == s.chains
    && n.presented == s.presented && n.seen == s.seen
    && (forall i :: i in s.sessions ==>
          n.sessions[i].(revokedAt := s.sessions[i].revokedAt) == s.sessions[i]
          && (s.sessions[i].revokedAt.Some? ==> n.sessions[i].revokedAt.Some?))
    && (forall t :: t in s.tokens ==>
          n.tokens[t].(revokedAt := s.tokens[t].revokedAt) == s.tokens[t]
          && (s.tokens[t].revokedAt.Some? ==> n.tokens[t].revokedAt.Some?))
    && (forall t :: t in s.tokens && s.tokens[t].session in s.sessions &&
                    n.sessions[s.tokens[t].session] != s.sessions[s.tokens[t].session] ==>
          n.tokens[t].revokedAt.Some?)
    && (forall t :: t in s.tokens && s.tokens[t].session in s.sessions && n.tokens[t] != s.tokens[t] ==>
          n.sessions[s.tokens[t].session].revokedAt.Some?)
  }

  lemma RevokingKeepsInv(s: State, n: State)
    requires Inv(s) && OnlyRevokes(s, n)
    ensures Inv(n)
  {
    forall i | i in n.chains ensures IsChain(n, i, n.chains[i]) {
      assert IsChain(s, i, s.chains[i]);
    }
    forall p | p in n.presented ensures CurrentToken(n, p.tokenId, p.token) {
      assert CurrentToken(s, p.tokenId, p.token);
    }
    forall r | r in n.seen ensures Current(n, r) {
      assert Current(s, r);
    }
  }

  lemma GraphOnlyRevokes(s: State, session: Id, now: Time)
    ensures OnlyRevokes(s, RevokeGraph(s, session, now))
  {
  }

  lemma AllOnlyRevokes(s: State, listed: set<Id>, now: Time)
    ensures OnlyRevokes(s, RevokeAllOf(s, listed, now))
  {
  }

  lemma RotateKeepsChains(s: State, n: State, parent: Id, child: Id, p: Token, row: Token)
    requires Linked(s) && AllChains(s) && parent in s.tokens && Live(s.tokens[parent]) && child !in s.tokens
    requires p.usedAt.Some? && p.parent == s.tokens[parent].parent && p.session == s.tokens[parent].session
    requires row.session == p.session && row.parent == Some(parent)
    requires n.tokens == s.tokens[parent := p][child := row]
    requires n.chains == s.chains[p.session := s.chains[p.session] + [child]] && n.sessions == s.sessions
    ensures AllChains(n) && Linked(n)
  {
    RotateKeepsLinks(s, n, parent, child, p, row);
    forall i | i in n.chains ensures IsChain(n, i, n.chains[i]) {
      RotatedCarriesOver(s, n, parent, child, p, row, i);
      if i == p.session { RotatedGrows(s, n, parent, child, s.chains[i]); }
    }
  }

  lemma RotatedCarriesOver(s: State, n: State, parent: Id, child: Id, p: Token, row: Token, i: Id)
    requires AllChains(s) && i in s.chains && parent in s.tokens && Live(s.tokens[parent]) && child !in s.tokens
    requires p.usedAt.Some? && p.parent == s.tokens[parent].parent && p.session == s.tokens[parent].session
    requires n.tokens == s.tokens[parent := p][child := row]
    ensures IsChain(n, i, s.chains[i])
  {
    assert IsChain(s, i, s.chains[i]);
    ChainCarriesOver(s, n, i);
  }

  lemma RotatedGrows(s: State, n: State, parent: Id, child: Id, chain: seq<Id>)
    requires Linked(s) && AllChains(s) && parent in s.tokens && Live(s.tokens[parent]) && child !in s.tokens
    requires chain == s.chains[s.tokens[parent].session] && IsChain(n, s.tokens[parent].session, chain)
    requires parent in n.tokens && n.tokens[parent].usedAt.Some?
    requires child in n.tokens && n.tokens[child].session == s.tokens[parent].session &&
               n.tokens[child].parent == Some(parent)
    ensures IsChain(n, s.tokens[parent].session, chain + [child])
  {
    LastIsLive(s, parent);
    assert IsChain(s, s.tokens[parent].session, chain);
    ChainGrows(n, s.tokens[parent].session, chain, parent, child);
  }

  lemma LastIsLive(s: State, token: Id)
    requires Linked(s) && AllChains(s) && token in s.tokens && Live(s.tokens[token])
    ensures s.chains[s.tokens[token].session] != []
    ensures var chain := s.chains[s.tokens[token].session]; chain[|chain| - 1] == token
  {
    var chain := s.chains[s.tokens[token].session];
    assert IsChain(s, s.tokens[token].session, chain) && token in chain;
  }

  lemma RotateKeepsLinks(s: State, n: State, parent: Id, child: Id, p: Token, row: Token)
    requires Linked(s) && parent in s.tokens && child !in s.tokens
    requires p.session == s.tokens[parent].session && row.session == p.session
    requires n.tokens == s.tokens[parent := p][child := row]
    requires n.chains == s.chains[p.session := s.chains[p.session] + [child]] && n.sessions == s.sessions
    ensures Linked(n)
  {
    var session, chain := p.session, s.chains[p.session];
    forall t | t in n.tokens ensures n.tokens[t].session in n.chains && t in n.chains[n.tokens[t].session] {
      if t == child {
        assert n.chains[session][|chain|] == child;
      } else {
        assert t in s.chains[s.tokens[t].session];
        assert session == n.tokens[t].session ==> t in chain + [child];
      }
    }
  }

  lemma ChainGrows(n: State, session: Id, chain: seq<Id>, parent: Id, child: Id)
    requires IsChain(n, session, chain) && chain[|chain| - 1] == parent && n.tokens[parent].usedAt.Some?
    requires child in n.tokens && child !in chain && n.tokens[child].session == session &&
               n.tokens[child].parent == Some(parent)
    ensures IsChain(n, session, chain + [child])
  {
  }

  lemma RotateKeepsRows(s: State, n: State, parent: Id, child: Id, p: Token, row: Token)
    requires Linked(s) && UniqueHashes(s) && RevokedThroughout(s)
    requires parent in s.tokens && Live(s.tokens[parent]) && child !in s.tokens && !HashTaken(s.tokens, row.hash)
    requires p.(usedAt := None) == s.tokens[parent] && row.session == p.session
    requires n.tokens == s.tokens[parent := p][child := row]
    ensures n.tokens.Keys == s.tokens.Keys + {child} && n.tokens[child] == row
    ensures forall t :: t in s.tokens ==>
                          n.tokens[t].(usedAt := None) == s.tokens[t].(usedAt := None)
                          && Stays(s.tokens[t].usedAt, n.tokens[t].usedAt)
    ensures UniqueHashes(n) && s.sessions[row.session].revokedAt.None?
  {
    assert s.tokens[parent].usedAt == None;
    NewTokenKeepsHashes(s, n, child, row);
  }

  lemma RotateKeepsInv(s: State, n: State, parent: Id, child: Id, p: Token, row: Token)
    requires Inv(s) && parent in s.tokens && Live(s.tokens[parent]) && child !in s.tokens &&
               !HashTaken(s.tokens, row.hash)
    requires p.usedAt.Some? && p.(usedAt := None) == s.tokens[parent]
    requires row.session == p.session && row.parent == Some(parent) && row.revokedAt.None?
    requires n == s.(tokens := s.tokens[parent := p][child := row],
               chains := s.chains[p.session := s.chains[p.session] + [child]])
    ensures Inv(n)
  {
    RotateKeepsChains(s, n, parent, child, p, row);
    RotateKeepsRows(s, n, parent, child, p, row);
    NewTokenKeepsSeen(s, n);
    NewTokenKeepsRevoked(s, n, child);
  }

  lemma FinishKeepsInv(s: State, op: Op)
    requires Inv(s) && op.Finish? && FinishEnabled(s, op)
    ensures Inv(Next(s, op))
  {
    FinishCases(s, op);
    match FinishOutcome(s, op) {
      case Rotated =>
        var p := s.tokens[op.snapshot.tokenId];
        var row := Token(p.session, Some(op.snapshot.tokenId), op.newHash, op.newExpiry, None, None);
        RotateKeepsInv(s, Next(s, op), op.snapshot.tokenId, op.newToken, p.(usedAt := Some(op.now)), row);
      case Invalid =>
      case _ =>
        GraphOnlyRevokes(s, op.snapshot.token.session, op.now);
        RevokingKeepsInv(s, Next(s, op));
    }
  }

  lemma ReadKeepsInv(s: State, token: Id)
    requires Inv(s) && Known(s, token)
    ensures Inv(Next(s, Read(token)))
  {
    var n := Next(s, Read(token));
    forall i | i in n.chains ensures IsChain(n, i, n.chains[i]) {
      ChainCarriesOver(s, n, i);
    }
    assert CurrentToken(n, token, s.tokens[token]);
    forall p | p in n.presented ensures CurrentToken(n, p.tokenId, p.token) {
      assert p in s.presented ==> CurrentToken(s, p.tokenId, p.token);
    }
    forall r | r in n.seen ensures Current(n, r) {
      assert Current(s, r);
    }
  }

  lemma JoinKeepsInv(s: State, found: Presented)
    requires Inv(s) && found in s.presented
    ensures Inv(Next(s, Join(found)))
  {
    var n := Next(s, Join(found));
    assert CurrentToken(s, found.tokenId, found.token);
    forall i | i in n.chains ensures IsChain(n, i, n.chains[i]) {
      ChainCarriesOver(s, n, i);
    }
    forall p | p in n.presented ensures CurrentToken(n, p.tokenId, p.token) {
      assert CurrentToken(s, p.tokenId, p.token);
    }
    forall r | r in n.seen ensures Current(n, r) {
      assert r in s.seen ==> Current(s, r);
    }
  }

  lemma StepKeepsInv(s: State, op: Op)
    requires Inv(s)
    ensures Inv(Next(s, op))
  {
    if Next(s, op) != s {
      match op {
        case Create(session, root, user, fingerprint, hash, sessionExpiry, tokenExpiry) =>
          CreateKeepsInv(s, Next(s, op), session, root, Session(user, fingerprint, sessionExpiry, None),
                         Token(session, None, hash, tokenExpiry, None, None));
        case Read(token) => ReadKeepsInv(s, token);
        case Join(found) => JoinKeepsInv(s, found);
        case Finish(_, _, _, _, _, _) => FinishKeepsInv(s, op);
        case Revoke(target, actor, at) =>
          GraphOnlyRevokes(s, target, at);
          RevokingKeepsInv(s, Next(s, op));
        case ListLive(_) => RevokingKeepsInv(s, Next(s, op));
        case RevokeListed(listed, when) =>
          AllOnlyRevokes(s, listed, when);
          RevokingKeepsInv(s, Next(s, op));
      }
    }
  }

  lemma {:induction false} RunKeepsInv(s: State, ops: seq<Op>)
    requires Inv(s)
    ensures Inv(Run(s, ops))
    decreases |ops|
  {
    if ops != [] {
      RunKeepsInv(s, ops[..|ops| - 1]);
      StepKeepsInv(Run(s, ops[..|ops| - 1]), ops[|ops| - 1]);
    }
  }

  // ---------- what the invariant says of every reachable state ----------

  /** The tokens of each session are exactly one parent chain, of which only the last can be live,
      and no token has two children. */
  lemma OneChainOneLiveToken(ops: seq<Op>)
    ensures var s := Run(Empty(), ops);
            && (forall i :: i in s.sessions ==> i in s.chains && IsChain(s, i, s.chains[i]))
            && (forall t :: t in s.tokens ==> s.tokens[t].session in s.sessions && t in s.chains[s.tokens[t].session])
            && (forall t :: t in s.tokens && Live(s.tokens[t]) ==>
                  t == s.chains[s.tokens[t].session][|s.chains[s.tokens[t].session]| - 1])
            && (forall t, u :: t in s.tokens && u in s.tokens && s.tokens[t].parent.Some? &&
                               s.tokens[t].parent == s.tokens[u].parent ==>
                  t == u)
            && (forall t :: t in s.tokens && s.sessions[s.tokens[t].session].revokedAt.Some? ==>
                 s.tokens[t].revokedAt.Some?)
  {
    RunKeepsInv(Empty(), ops);
    var s := Run(Empty(), ops);
    forall t | t in s.tokens && Live(s.tokens[t])
      ensures t == s.chains[s.tokens[t].session][|s.chains[s.tokens[t].session]| - 1]
    {
      LastIsLive(s, t);
    }
    forall t, u | t in s.tokens && u in s.tokens && s.tokens[t].parent.Some? && s.tokens[t].parent == s.tokens[u].parent
      ensures t == u
    {
      OneChild(s, t, u);
    }
  }

  lemma OneChild(s: State, t: Id, u: Id)
    requires Inv(s) && t in s.tokens && u in s.tokens && s.tokens[t].parent.Some? &&
               s.tokens[t].parent == s.tokens[u].parent
    ensures t == u
  {
    var ct, cu := s.chains[s.tokens[t].session], s.chains[s.tokens[u].session];
    assert IsChain(s, s.tokens[t].session, ct) && IsChain(s, s.tokens[u].session, cu);
    var i :| 0 <= i < |ct| && ct[i] == t;
    var j :| 0 <= j < |cu| && cu[j] == u;
    assert i > 0 && j > 0;
    assert s.tokens[ct[i - 1]].session == s.tokens[t].session && s.tokens[cu[j - 1]].session == s.tokens[u].session;
    assert ct[i - 1] == cu[j - 1];
    assert ct == cu;
    assert i == j;
  }

  /** The time of a session's revocation is moved by one kind of step only: a revocation of all that
      listed the session while it was live and writes after somebody else has revoked it. */
  lemma RevokedAtMovesIff(s: State, op: Op, session: Id)
    requires session in s.sessions && s.sessions[session].revokedAt.Some?
    ensures session in Next(s, op).sessions
    ensures Next(s, op).sessions[session].revokedAt != s.sessions[session].revokedAt <==>
              op.RevokeListed? && op.listed in s.lists && session in op.listed
              && s.sessions[session].revokedAt != Some(op.when)
  {
    if op.Finish? && FinishEnabled(s, op) { FinishCases(s, op); }
  }

  // ---------- reuse detection ----------

  predicate Dead(s: State, session: Id) {
    && session in s.sessions && s.sessions[session].revokedAt.Some?
    && forall t :: t in s.tokens && s.tokens[t].session == session ==> s.tokens[t].revokedAt.Some?
  }

  lemma GraphKills(s: State, session: Id, now: Time)
    requires session in s.sessions
    ensures Dead(RevokeGraph(s, session, now), session)
  {
  }

  /** Presenting a used or revoked token, or one from another device, kills the session. */
  lemma MisuseKillsSession(s: State, op: Op)
    requires Inv(s) && op.Finish? && FinishEnabled(s, op)
    requires op.snapshot.session.fingerprint != op.expected || !Live(op.snapshot.token) || FinishOutcome(s, op).Reused?
    ensures Dead(Next(s, op), op.snapshot.token.session)
    ensures OutcomeOf(s, op) in {DeviceMismatch, Reused}
  {
    assert Current(s, op.snapshot);
    FinishCases(s, op);
    GraphKills(s, op.snapshot.token.session, op.now);
  }

  /** The step rotates a token of the session. */
  predicate RotatesSession(s: State, op: Op, session: Id) {
    op.Finish? && op.snapshot.token.session == session && OutcomeOf(s, op) == Rotated
  }

  lemma RevokedDeadStaysDead(s: State, n: State, session: Id)
    requires Dead(s, session) && OnlyRevokes(s, n)
    ensures Dead(n, session)
  {
  }

  lemma FinishDeadStaysDead(s: State, op: Op, session: Id)
    requires Inv(s) && Dead(s, session) && op.Finish? && FinishEnabled(s, op)
    ensures Dead(Next(s, op), session) && !RotatesSession(s, op, session)
  {
    FinishCases(s, op);
    assert Current(s, op.snapshot);
    if FinishOutcome(s, op) in {DeviceMismatch, Reused} {
      GraphOnlyRevokes(s, op.snapshot.token.session, op.now);
      RevokedDeadStaysDead(s, Next(s, op), session);
    }
  }

  lemma DeadStaysDead(s: State, op: Op, session: Id)
    requires Inv(s) && Dead(s, session)
    ensures Dead(Next(s, op), session) && !RotatesSession(s, op, session)
  {
    if op.Finish? {
      if FinishEnabled(s, op) { FinishDeadStaysDead(s, op, session); }
    } else {
      OtherDeadStaysDead(s, op, session);
    }
  }

  lemma OtherDeadStaysDead(s: State, op: Op, session: Id)
    requires Dead(s, session) && !op.Finish?
    ensures Dead(Next(s, op), session)
  {
    match op {
      case Revoke(target, actor, at) =>
        GraphOnlyRevokes(s, target, at);
        RevokedDeadStaysDead(s, RevokeGraph(s, target, at), session);
      case RevokeListed(listed, when) =>
        AllOnlyRevokes(s, listed, when);
        RevokedDeadStaysDead(s, RevokeAllOf(s, listed, when), session);
      case _ =>
    }
  }

  /** Once misused, a session never rotates a token again: not in any continuation, with any
      mixture of other requests, nor for requests that read their token before the misuse. */
  lemma DeadNeverRotates(s: State, session: Id, ops: seq<Op>)
    requires Inv(s) && Dead(s, session)
    ensures Dead(Run(s, ops), session)
    ensures forall k :: 0 <= k < |ops| ==> !RotatesSession(Run(s, ops[..k]), ops[k], session)
  {
    DeadAfterRun(s, session, ops);
    forall k | 0 <= k < |ops| ensures !RotatesSession(Run(s, ops[..k]), ops[k], session) {
      DeadAfterRun(s, session, ops[..k]);
      RunKeepsInv(s, ops[..k]);
      DeadStaysDead(Run(s, ops[..k]), ops[k], session);
    }
  }

  lemma {:induction false} DeadAfterRun(s: State, session: Id, ops: seq<Op>)
    requires Inv(s) && Dead(s, session)
    ensures Dead(Run(s, ops), session)
    decreases |ops|
  {
    if ops != [] {
      var front := ops[..|ops| - 1];
      DeadAfterRun(s, session, front);
      RunKeepsInv(s, front);
      DeadStaysDead(Run(s, front), ops[|ops| - 1], session);
    }
  }

  /** The two together, over whole runs from an empty database. */
  lemma MisuseIsFinal(before: seq<Op>, misuse: Op, after: seq<Op>)
    requires misuse.Finish? && FinishEnabled(Run(Empty(), before), misuse)
    requires OutcomeOf(Run(Empty(), before), misuse) in {DeviceMismatch, Reused}
    ensures var s := Next(Run(Empty(), before), misuse);
            && Dead(Run(s, after), misuse.snapshot.token.session)
            && forall k :: 0 <= k < |after| ==>
                 !RotatesSession(Run(s, after[..k]), after[k], misuse.snapshot.token.session)
  {
    var s := Run(Empty(), before);
    RunKeepsInv(Empty(), before);
    FinishCases(s, misuse);
    MisuseKillsSession(s, misuse);
    StepKeepsInv(s, misuse);
    DeadNeverRotates(Next(s, misuse), misuse.snapshot.token.session, after);
  }

  /** The step rotates the token. */
  predicate RotatesToken(s: State, op: Op, token: Id) {
    op.Finish? && op.snapshot.tokenId == token && OutcomeOf(s, op) == Rotated
  }

  predicate Used(s: State, token: Id) {
    token in s.tokens && s.tokens[token].usedAt.Some?
  }

  lemma RotationUses(s: State, op: Op, token: Id)
    requires RotatesToken(s, op, token)
    ensures Used(Next(s, op), token)
  {
    FinishCases(s, op);
  }

  lemma UsedStaysUsed(s: State, op: Op, token: Id)
    requires Used(s, token)
    ensures Used(Next(s, op), token) && !RotatesToken(s, op, token)
  {
    if op.Finish? && FinishEnabled(s, op) { FinishCases(s, op); }
  }

  lemma {:induction false} UsedForEver(s: State, token: Id, ops: seq<Op>)
    requires Used(s, token)
    ensures Used(Run(s, ops), token)
    decreases |ops|
  {
    if ops != [] {
      UsedForEver(s, token, ops[..|ops| - 1]);
      UsedStaysUsed(Run(s, ops[..|ops| - 1]), ops[|ops| - 1], token);
    }
  }

  /** Each token is rotated at most once: after one rotation of it, nothing in any continuation
      rotates it again, whatever was read of it and when. */
  lemma RotatedOnce(s: State, first: Op, token: Id, ops: seq<Op>, k: nat)
    requires RotatesToken(s, first, token) && k < |ops|
    ensures !RotatesToken(Run(Next(s, first), ops[..k]), ops[k], token)
  {
    RotationUses(s, first, token);
    UsedForEver(Next(s, first), token, ops[..k]);
    UsedStaysUsed(Run(Next(s, first), ops[..k]), ops[k], token);
  }

  /** A rotation can succeed at all: a live token of a live session, read and finished in time by
      its own device, is used up and leaves a live child. */
  lemma RotationSucceeds(s: State, op: Op)
    requires Inv(s) && op.Finish? && FinishEnabled(s, op)
    requires op.snapshot ==
               Snapshot(op.snapshot.tokenId, s.tokens[op.snapshot.tokenId],
                   s.sessions[s.tokens[op.snapshot.tokenId].session])
    requires Live(op.snapshot.token) && op.snapshot.session.fingerprint == op.expected
    requires op.snapshot.token.expiresAt > op.now && op.snapshot.session.expiresAt > op.now
    requires op.snapshot.session.revokedAt.None?
    ensures OutcomeOf(s, op) == Rotated
    ensures var n := Next(s, op);
            && n.tokens[op.snapshot.tokenId].usedAt == Some(op.now)
            && op.newToken in n.tokens && Live(n.tokens[op.newToken])
            && n.tokens[op.newToken].parent == Some(op.snapshot.tokenId)
            && n.tokens[op.newToken].session == op.snapshot.token.session
  {
    FinishCases(s, op);
  }

  /** A rotation succeeds exactly when, as it writes, the token is live, the device is the one that the
      session was made for, and neither the token nor the session has expired. What it read, and how
      long ago, makes no difference. */
  lemma RotatedIff(ops: seq<Op>, op: Op)
    requires op.Finish? && FinishEnabled(Run(Empty(), ops), op)
    ensures var s := Run(Empty(), ops);
            var t := s.tokens[op.snapshot.tokenId];
            var session := s.sessions[t.session];
            OutcomeOf(s, op) == Rotated <==>
              && t.usedAt.None? && t.revokedAt.None?
              && session.fingerprint == op.expected
              && op.now < t.expiresAt && op.now < session.expiresAt
  {
    RunKeepsInv(Empty(), ops);
    assert Current(Run(Empty(), ops), op.snapshot);
  }

  /** The other answers: another device; a token that was used or revoked when it was read, or that
      somebody else has used or revoked since; and, for a token that was live, its end or its
      session's, or a revocation of the session between the two reads. */
  lemma RefusedIff(ops: seq<Op>, op: Op)
    requires op.Finish? && FinishEnabled(Run(Empty(), ops), op)
    ensures var s, read := Run(Empty(), ops), op.snapshot;
            var dead := read.token.usedAt.Some? || read.token.revokedAt.Some?;
            var late := op.now >= read.token.expiresAt || op.now >= read.session.expiresAt;
            var over := late || read.session.revokedAt.Some?;
            var t := s.tokens[read.tokenId];
            && (OutcomeOf(s, op) == DeviceMismatch <==> read.session.fingerprint != op.expected)
            && (OutcomeOf(s, op) == Reused <==>
                  read.session.fingerprint == op.expected
                  && (dead || (!over && (t.usedAt.Some? || t.revokedAt.Some?))))
            && (OutcomeOf(s, op) == Invalid <==> read.session.fingerprint == op.expected && !dead && over)
            && (OutcomeOf(s, op) == Invalid && !late ==> t.revokedAt.Some?)
            && (OutcomeOf(s, op) == Invalid ==> Next(s, op) == s)
  {
    RunKeepsInv(Empty(), ops);
    assert Current(Run(Empty(), ops), op.snapshot);
  }

  /** A rotation uses the token up and adds one live child with the new hash and expiry; every other
      row stays. */
  lemma RotationLeaves(s: State, op: Op)
    requires op.Finish? && OutcomeOf(s, op) == Rotated
    ensures var n, t := Next(s, op), op.snapshot.tokenId;
            && t in s.tokens && n.sessions == s.sessions
            && n.tokens == s.tokens[t := s.tokens[t].(usedAt := Some(op.now))]
                           [op.newToken := Token(s.tokens[t].session, Some(t), op.newHash, op.newExpiry, None, None)]
  {
    FinishCases(s, op);
  }
}
