/** What retrieval can see, and what deleting leaves behind, over every run. */
module KnowledgeIndexLaws {
  import opened Basics
  import opened Chunking
  import opened KnowledgeIndex

  /** Rows as indexing wrote them. */
  predicate Fresh(s: State, v: nat) {
    v in s.chunks && v in s.versions && s.chunks[v] == RowsOf(s, v) && s.chunks[v] != []
  }

  predicate Neutral(rows: seq<Chunk>) {
    forall i :: 0 <= i < |rows| ==> rows[i].content == NEUTRAL
  }

  /** Whoever replaces rows does so for the current version of a live document, and no delete has
      rewritten those rows; a delete waits only for them. */
  ghost predicate Locked(s: State) {
    && (s.writer.Some? ==>
          s.writer.value == s.current && s.status != Deleted && s.current in s.versions
          && RowsOf(s, s.current) != [])
    && (forall d :: d in s.deletes ==>
          && s.deletes[d].hit <= s.chunks.Keys
          && (s.writer.Some? ==> s.writer.value !in s.deletes[d].hit)
          && (s.deletes[d].waitsFor.Some? ==> s.deletes[d].waitsFor == s.writer && s.writer.value in s.chunks))
  }

  ghost predicate Numbered(s: State) {
    && s.current in s.versions && s.status != Rejected
    && (forall v :: v in s.versions ==> 1 <= v <= s.current)
    && (forall j :: j in s.working || j in s.failing ==> j in s.versions)
  }

  ghost predicate Genuine(s: State) {
    && (forall v :: v in s.chunks ==> Fresh(s, v) || (s.status == Deleted && Neutral(s.chunks[v])))
    && (s.status == Indexed ==> Fresh(s, s.current))
  }

  ghost predicate Inv(s: State) {
    Numbered(s) && Locked(s) && Genuine(s)
  }

  // ---------- what each step keeps ----------

  lemma GrownKeepsInv(s: State, version: Version)
    requires Inv(s) && Creatable(s, version)
    ensures Inv(Grown(s, version))
  {
    assert forall v :: v in s.chunks ==> Fresh(s, v) && Fresh(Grown(s, version), v);
  }

  lemma StartedKeepsInv(s: State, job: nat, provider: Provider)
    requires Inv(s) && Startable(s, job, provider)
    ensures Inv(Started(s, job))
  {
    assert forall v :: v in s.chunks ==> Fresh(s, v) && Fresh(Started(s, job), v);
  }

  lemma BrokenKeepsInv(s: State, job: nat)
    requires Inv(s) && job in s.working
    ensures Inv(Broken(s, job))
  {
    assert forall v :: Fresh(s, v) <==> Fresh(Broken(s, job), v);
  }

  lemma LockingKeepsInv(s: State, job: nat)
    requires Inv(s) && Finishable(s, job)
    ensures Inv(Locking(s, job))
  {
    assert forall v :: Fresh(s, v) <==> Fresh(Locking(s, job), v);
  }

  lemma ReplacedKeepsInv(s: State, acknowledged: bool)
    requires Inv(s) && s.writer.Some? && s.writer.value in s.versions
    ensures Inv(Replaced(s, s.writer.value, RowsOf(s, s.writer.value), acknowledged))
  {
    var n := Replaced(s, s.writer.value, RowsOf(s, s.writer.value), acknowledged);
    assert Fresh(n, s.writer.value);
    assert forall v :: v in s.chunks && v != s.writer.value ==> Fresh(s, v) && Fresh(n, v);
  }

  lemma AbortedKeepsInv(s: State)
    requires Inv(s) && s.writer.Some?
    ensures Inv(Aborted(s, s.writer.value))
  {
    assert forall v :: Fresh(s, v) <==> Fresh(Aborted(s, s.writer.value), v);
  }

  lemma FailedKeepsInv(s: State, job: nat)
    requires Inv(s) && Failable(s, job)
    ensures Inv(Failed(s, job))
  {
    assert forall v :: Fresh(s, v) <==> Fresh(Failed(s, job), v);
  }

  lemma BegunKeepsInv(s: State, id: Id)
    requires Inv(s) && s.status != Deleted && id !in s.deletes
    ensures Inv(s.(deletes := s.deletes[id := NewDeletion(s)]))
  {
    assert forall v :: Fresh(s, v) <==> Fresh(s.(deletes := s.deletes[id := NewDeletion(s)]), v);
  }

  lemma DeletingKeepsInv(s: State, id: Id)
    requires Inv(s) && Deletable(s, id)
    ensures Inv(Deleting(s, id))
  {
    var n := Deleting(s, id);
    forall v | v in n.chunks ensures Fresh(n, v) || Neutral(n.chunks[v]) {
      assert Fresh(s, v) || Neutral(s.chunks[v]);
    }
  }

  lemma StepKeepsInv(s: State, op: Op)
    requires Inv(s)
    ensures Inv(Next(s, op))
    ensures s.status == Deleted ==> Next(s, op).status == Deleted
  {
    match op {
      case CreateVersion(version) => if Creatable(s, version) { GrownKeepsInv(s, version); }
      case Start(job, provider) => if Startable(s, job, provider) { StartedKeepsInv(s, job, provider); }
      case Break(job) => if job in s.working { BrokenKeepsInv(s, job); }
      case BeginFinish(job) => if Finishable(s, job) { LockingKeepsInv(s, job); }
      case CommitFinish(acknowledged) => if s.writer.Some? { ReplacedKeepsInv(s, acknowledged); }
      case AbortFinish => if s.writer.Some? { AbortedKeepsInv(s); }
      case Fail(job) => if Failable(s, job) { FailedKeepsInv(s, job); }
      case BeginDelete(id) => if s.status != Deleted && id !in s.deletes { BegunKeepsInv(s, id); }
      case CommitDelete(id) => if Deletable(s, id) { DeletingKeepsInv(s, id); }
    }
  }

  lemma {:induction false} RunKeepsInv(s: State, ops: seq<Op>)
    requires Inv(s)
    ensures Inv(Run(s, ops))
    ensures s.status == Deleted ==> Run(s, ops).status == Deleted
    decreases |ops|
  {
    if ops != [] {
      RunKeepsInv(s, ops[..|ops| - 1]);
      StepKeepsInv(Run(s, ops[..|ops| - 1]), ops[|ops| - 1]);
    }
  }

  /** Whatever the interleaving: an INDEXED document's current version has exactly the chunks of
      its content, retrieval sees those or nothing, no document is ever REJECTED, and DELETED is final. */
  lemma RetrievalIsExact(chunk: Chunker, version: Version, ops: seq<Op>, more: seq<Op>, provider: Provider)
    ensures var s := Run(Created(chunk, version), ops);
            && s.current in s.versions && s.status != Rejected
            && (s.status == Indexed ==> s.current in s.chunks && s.chunks[s.current] == RowsOf(s, s.current))
            && (Retrievable(s, provider) != [] ==>
                  s.status == Indexed && s.versions[s.current].provider == provider
                  && Retrievable(s, provider) == RowsOf(s, s.current))
            && (s.status == Indexed && s.versions[s.current].provider == provider ==> Retrievable(s, provider) != [])
            && (s.status == Deleted ==> Run(s, more).status == Deleted && Retrievable(Run(s, more), provider) == [])
  {
    RunKeepsInv(Created(chunk, version), ops);
    RunKeepsInv(Run(Created(chunk, version), ops), more);
  }

  // ---------- the way into retrieval ----------

  /** An attempt at the current version is under way: between its transactions, in its second, or on its
      error path. */
  predicate UnderWay(s: State) {
    s.current in s.working || s.current in s.failing || s.writer == Some(s.current)
  }

  /** In every run, a document that is INDEXING has an attempt at its current version under way. */
  lemma {:induction false} IndexingIsUnderWay(chunk: Chunker, version: Version, ops: seq<Op>)
    ensures var s := Run(Created(chunk, version), ops); s.status == Indexing ==> UnderWay(s)
    decreases |ops|
  {
    if ops != [] {
      var front := ops[..|ops| - 1];
      IndexingIsUnderWay(chunk, version, front);
      RunKeepsInv(Created(chunk, version), front);
      UnderWayStep(Run(Created(chunk, version), front), ops[|ops| - 1]);
    }
  }

  lemma UnderWayStep(s: State, op: Op)
    requires Inv(s) && (s.status == Indexing ==> UnderWay(s))
    ensures var n := Next(s, op); n.status == Indexing ==> UnderWay(n)
  {
    match op {
      case BeginFinish(job) => LockingUnderWay(s, job);
      case AbortFinish => assert s.writer.Some? ==> s.writer.value in Next(s, op).failing;
      case _ =>
    }
  }

  lemma LockingUnderWay(s: State, job: nat)
    requires Inv(s) && (s.status == Indexing ==> UnderWay(s))
    ensures var n := Next(s, BeginFinish(job)); n.status == Indexing ==> UnderWay(n)
  {
    if Finishable(s, job) && s.current != job {
      assert s.current in s.working ==> s.current in s.working - multiset{job};
    }
  }

  /** Whatever became of that attempt, its error path makes the document PENDING again. */
  lemma IndexingCanEnd(s: State) returns (ops: seq<Op>)
    requires Inv(s) && s.status == Indexing && UnderWay(s)
    ensures Run(s, ops).status == Pending
  {
    var first := if s.writer.Some? then AbortFinish else Break(s.current);
    if s.writer.None? && s.current in s.failing {
      ops := [Fail(s.current)];
      assert ops[..0] == [] && Run(s, []) == s;
    } else {
      ops := [first, Fail(s.current)];
      RunOfTwo(s, first, Fail(s.current));
      BrokenOff(s, first);
    }
  }

  lemma RunOfTwo(s: State, a: Op, b: Op)
    ensures Run(s, [a, b]) == Next(Next(s, a), b)
  {
    assert [a, b][..1] == [a] && [a][..0] == [];
    assert Run(s, [a]) == Next(Run(s, []), a);
  }

  lemma BrokenOff(s: State, first: Op)
    requires Inv(s) && s.status == Indexing
    requires if s.writer.Some? then first == AbortFinish else s.current in s.working && first == Break(s.current)
    ensures Next(Next(s, first), Fail(s.current)).status == Pending
  {
    var t := Next(s, first);
    assert t.writer.None? && s.current in t.failing && t.status == Indexing;
  }

  /** From every state of a live document whose row is free, the index job of the current version, left
      alone, makes exactly that version's chunks retrievable, whatever attempts are about. */
  lemma IndexingSucceeds(s: State)
    requires Inv(s) && s.writer.None? && s.status != Deleted && RowsOf(s, s.current) != []
    ensures var provider := s.versions[s.current].provider;
            var n := Next(Next(Next(s, Start(s.current, provider)), BeginFinish(s.current)), CommitFinish(true));
            n.status == Indexed && Retrievable(n, provider) == s.chunk(s.versions[s.current].content)
  {
    var provider := s.versions[s.current].provider;
    var a := Next(s, Start(s.current, provider));
    var b := Next(a, BeginFinish(s.current));
    assert b.writer == Some(s.current) && b.versions == s.versions && b.chunk == s.chunk;
    CommitReplaces(b, true);
  }

  // ---------- what takes an indexed version out of retrieval ----------

  /** The document row is free, and the step creates a version, starts a job for the current one
      again, records a failure, whatever version it is of, or commits a delete. */
  predicate TakesOut(s: State, op: Op) {
    s.writer.None? && (
      match op
      case CreateVersion(version) => !Known(s, version.content)
      case Start(job, provider) => job == s.current && job in s.versions && provider == s.versions[job].provider
      case Fail(job) => job in s.failing
      case CommitDelete(id) => id in s.deletes
      case _ => false)
  }

  /** Exactly these steps take an indexed document out of retrieval; every other leaves retrieval as
      it was. */
  lemma LeavesRetrievalIff(s: State, op: Op)
    requires Inv(s) && s.status == Indexed
    ensures Retrievable(Next(s, op), s.versions[s.current].provider) == [] <==> TakesOut(s, op)
    ensures forall provider ::
              Retrievable(Next(s, op), provider) == if TakesOut(s, op) then [] else Retrievable(s, provider)
  {
    StepKeepsInv(s, op);
    StatusLeavesIff(s, op);
    assert Fresh(s, s.current);
    assert TakesOut(s, op) ==> Next(s, op).status != Indexed;
  }

  lemma StatusLeavesIff(s: State, op: Op)
    requires Inv(s) && s.status == Indexed
    ensures Next(s, op).status == Indexed <==> !TakesOut(s, op)
    ensures !TakesOut(s, op) ==>
              var n, v := Next(s, op), s.current;
              && n.current == v && v in n.versions && n.versions[v] == s.versions[v]
              && v in s.chunks && v in n.chunks && n.chunks[v] == s.chunks[v]
  {
    assert Fresh(s, s.current);
    match op {
      case CommitFinish(_) => if s.writer.Some? { SameRowsAgain(s); }
      case _ =>
    }
  }

  lemma SameRowsAgain(s: State)
    requires Inv(s) && s.status == Indexed && s.writer.Some?
    ensures s.writer.value == s.current && s.current in s.chunks && RowsOf(s, s.current) == s.chunks[s.current]
  {
    assert Fresh(s, s.current);
  }

  /** Some run leads from one state to the other. */
  ghost predicate Leads(s: State, t: State) {
    exists ops :: Run(s, ops) == t
  }

  lemma LeadsHere(s: State)
    ensures Leads(s, s)
  {
    assert Run(s, []) == s;
  }

  lemma LeadsOn(s: State, t: State, op: Op, n: State)
    requires Leads(s, t) && Next(t, op) == n
    ensures Leads(s, n)
  {
    var ops :| Run(s, ops) == t;
    assert (ops + [op])[..|ops|] == ops;
    assert Run(s, ops + [op]) == n;
  }

  /** A job that finishes while no delete has rewritten, or waits for, its rows. */
  lemma FinishUndisturbed(s: State, t: State, job: nat, n: State)
    requires Leads(s, t) && Finishable(t, job) && t.current == job && t.status != Deleted
    requires forall d :: d in t.deletes ==> job !in t.deletes[d].hit && t.deletes[d].waitsFor.None?
    requires n == t.(status := Indexed, working := t.working - multiset{job}, chunks := t.chunks[job := RowsOf(t, job)])
    ensures Leads(s, n)
  {
    var u := t.(working := t.working - multiset{job}, writer := Some(job));
    assert Surviving(t.deletes, job) == t.deletes && Released(t.deletes) == t.deletes;
    LeadsOn(s, t, BeginFinish(job), u);
    LeadsOn(s, u, CommitFinish(true), n);
  }

  /** A new document whose first version is being indexed, and one in which it is. */
  function FirstStarted(chunk: Chunker, version: Version): State {
    Created(chunk, version).(status := Indexing, working := multiset{1})
  }

  function FirstIndexed(chunk: Chunker, version: Version): State {
    Created(chunk, version).(status := Indexed, chunks := map[1 := chunk(version.content)])
  }

  lemma FirstStarts(chunk: Chunker, version: Version)
    ensures Leads(Created(chunk, version), FirstStarted(chunk, version))
  {
    var c := Created(chunk, version);
    LeadsHere(c);
    LeadsOn(c, c, Start(1, version.provider), FirstStarted(chunk, version));
  }

  lemma FirstFinishes(chunk: Chunker, version: Version)
    requires chunk(version.content) != []
    ensures Leads(Created(chunk, version), FirstIndexed(chunk, version))
  {
    FirstStarts(chunk, version);
    FinishUndisturbed(Created(chunk, version), FirstStarted(chunk, version), 1, FirstIndexed(chunk, version));
  }

  /** So only safety holds of INDEXED: a run in which the failure of a job for the first version takes
      the second, which is indexed, out of retrieval for good, unless somebody starts it again. */
  lemma LateFailureUnindexes(chunk: Chunker, first: Version, second: Version) returns (s: State)
    requires first.content != second.content && chunk(second.content) != []
    ensures Leads(Created(chunk, first), s)
    ensures Retrievable(s, second.provider) == chunk(second.content) && s.failing == multiset{1} && s.current == 2
    ensures var n := Next(s, Fail(1));
            n.status == Pending && Retrievable(n, second.provider) == [] && n.working == multiset{} == n.failing
  {
    var t := SecondCreated(chunk, first, second);
    s := SecondIndexed(chunk, first, second, t);
  }

  lemma SecondCreated(chunk: Chunker, first: Version, second: Version) returns (t: State)
    requires first.content != second.content
    ensures t == Created(chunk, first).(current := 2, versions := map[1 := first, 2 := second], working := multiset{1})
    ensures Leads(Created(chunk, first), t)
  {
    var u := FirstStarted(chunk, first);
    FirstStarts(chunk, first);
    t := Created(chunk, first).(current := 2, versions := map[1 := first, 2 := second], working := multiset{1});
    assert !Known(u, second.content);
    assert u.versions[2 := second] == t.versions;
    LeadsOn(Created(chunk, first), u, CreateVersion(second), t);
  }

  lemma SecondIndexed(chunk: Chunker, first: Version, second: Version, t: State) returns (s: State)
    requires t == Created(chunk, first).(current := 2, versions := map[1 := first, 2 := second], working := multiset{1})
    requires Leads(Created(chunk, first), t) && chunk(second.content) != []
    ensures s == t.(status := Indexed, working := multiset{}, failing := multiset{1},
              chunks := map[2 := chunk(second.content)])
    ensures Leads(Created(chunk, first), s)
  {
    var c := Created(chunk, first);
    var u := t.(status := Indexing, working := multiset{1} + multiset{2});
    LeadsOn(c, t, Start(2, second.provider), u);
    var v := u.(working := multiset{2}, failing := multiset{1});
    LeadsOn(c, u, Break(1), v);
    s := t.(status := Indexed, working := multiset{}, failing := multiset{1},
        chunks := map[2 := chunk(second.content)]);
    assert v.chunks[2 := RowsOf(v, 2)] == s.chunks;
    FinishUndisturbed(c, v, 2, s);
  }

  // ---------- what a delete leaves behind ----------

  /** Every row of the document is neutralised. */
  ghost predicate AllNeutral(s: State) {
    forall v :: v in s.chunks ==> Neutral(s.chunks[v])
  }

  /** Step k of a run commits the replacement of a version's rows. */
  ghost predicate ReplacesAt(b: State, ops: seq<Op>, k: int) {
    0 <= k < |ops| && ops[k].CommitFinish? && Run(b, ops[..k]).writer.Some?
  }

  ghost predicate Disturbed(b: State, ops: seq<Op>) {
    exists k :: ReplacesAt(b, ops, k)
  }

  /** What a delete has still to see: nothing, while no replacement has been committed since it
      began; from then on, some version's rows. */
  ghost predicate Covers(s: State, d: Deletion, quiet: bool) {
    if quiet then s.chunks.Keys == if d.waitsFor.Some? then d.hit + {d.waitsFor.value} else d.hit
    else exists v :: v in s.chunks && v !in d.hit && d.waitsFor != Some(v)
  }

  lemma CoverReplaced(s: State, op: Op, id: Id)
    requires Inv(s) && id in s.deletes && op.CommitFinish? && s.writer.Some?
    ensures id in Next(s, op).deletes && Covers(Next(s, op), Next(s, op).deletes[id], false)
  {
    var n := Next(s, op);
    assert s.writer.value in n.chunks && s.writer.value !in n.deletes[id].hit && n.deletes[id].waitsFor.None?;
  }

  /** Every other step leaves the versions with rows as they are, */
  lemma KeysKept(s: State, op: Op)
    requires !(op.CommitFinish? && s.writer.Some?)
    ensures forall v :: v in Next(s, op).chunks <==> v in s.chunks
  {
    match op {
      case CommitDelete(id) => if Deletable(s, id) { CommitDeletes(s, id); }
      case _ =>
    }
  }

  /** and what the delete has still to rewrite. */
  lemma DeletionKept(s: State, op: Op, id: Id)
    requires id in s.deletes && id in Next(s, op).deletes && !(op.CommitFinish? && s.writer.Some?)
    ensures Next(s, op).deletes[id] == if op.AbortFinish? && s.writer.Some? then Resumed(s.deletes)[id]
              else s.deletes[id]
  {
  }

  lemma CoverStep(s: State, op: Op, id: Id, quiet: bool)
    requires Inv(s) && id in s.deletes && id in Next(s, op).deletes && Covers(s, s.deletes[id], quiet)
    ensures Covers(Next(s, op), Next(s, op).deletes[id], quiet && !(op.CommitFinish? && s.writer.Some?))
  {
    if op.CommitFinish? && s.writer.Some? {
      CoverReplaced(s, op, id);
    } else {
      KeysKept(s, op);
      DeletionKept(s, op, id);
      if !quiet {
        var v :| v in s.chunks && v !in s.deletes[id].hit && s.deletes[id].waitsFor != Some(v);
        assert v in Next(s, op).chunks;
      }
    }
  }

  lemma WasThere(s: State, op: Op, id: Id)
    requires op != BeginDelete(id) && id in Next(s, op).deletes
    ensures id in s.deletes
  {
  }

  lemma {:induction false} CoverRun(b: State, ops: seq<Op>, id: Id)
    requires Inv(b) && id in b.deletes && Covers(b, b.deletes[id], true)
    requires id in Run(b, ops).deletes && forall k :: 0 <= k < |ops| ==> ops[k] != BeginDelete(id)
    ensures Covers(Run(b, ops), Run(b, ops).deletes[id], !Disturbed(b, ops))
    decreases |ops|
  {
    if ops != [] {
      var n := |ops| - 1;
      var front := ops[..n];
      RunKeepsInv(b, front);
      WasThere(Run(b, front), ops[n], id);
      CoverRun(b, front, id);
      CoverStep(Run(b, front), ops[n], id, !Disturbed(b, front));
      ReplacesFront(b, ops);
    }
  }

  lemma SameInFront(b: State, ops: seq<Op>, k: int)
    requires 0 <= k < |ops| - 1
    ensures ReplacesAt(b, ops[..|ops| - 1], k) <==> ReplacesAt(b, ops, k)
  {
    var front := ops[..|ops| - 1];
    assert front[..k] == ops[..k] && front[k] == ops[k];
  }

  lemma ReplacesFront(b: State, ops: seq<Op>)
    requires ops != []
    ensures var n := |ops| - 1;
            Disturbed(b, ops) <==> Disturbed(b, ops[..n]) || (ops[n].CommitFinish? && Run(b, ops[..n]).writer.Some?)
  {
    var n := |ops| - 1;
    assert ReplacesAt(b, ops, n) <==> ops[n].CommitFinish? && Run(b, ops[..n]).writer.Some?;
    if k :| ReplacesAt(b, ops[..n], k) { SameInFront(b, ops, k); }
    if k :| ReplacesAt(b, ops, k) {
      if k < n { SameInFront(b, ops, k); }
    }
  }

  /** The delete that ends a document's life neutralises all of its rows exactly when no replacement of
      rows was committed while it ran: not of a version indexed for the first time, whose rows it
      never saw, nor of one indexed again, whose old rows it saw and skipped. */
  lemma {:induction false} DeleteNeutralisesIff(s: State, id: Id, ops: seq<Op>)
    requires Inv(s) && s.status != Deleted && id !in s.deletes
    requires forall k :: 0 <= k < |ops| ==> ops[k] != BeginDelete(id)
    requires var e := Run(Next(s, BeginDelete(id)), ops);
             && e.status != Deleted && Deletable(e, id)
             && (forall v :: v in e.versions && RowsOf(e, v) != [] ==> !Neutral(RowsOf(e, v)))
    ensures var b := Next(s, BeginDelete(id));
            var n := Next(Run(b, ops), CommitDelete(id));
            n.status == Deleted && (AllNeutral(n) <==> !Disturbed(b, ops))
  {
    var b := Next(s, BeginDelete(id));
    var e := Run(b, ops);
    StepKeepsInv(s, BeginDelete(id));
    RunKeepsInv(b, ops);
    CoverRun(b, ops, id);
    DeletingNeutral(e, id, !Disturbed(b, ops));
    CommitDeletes(e, id);
  }

  lemma CommitDeletes(e: State, id: Id)
    requires Deletable(e, id)
    ensures Next(e, CommitDelete(id)) == Deleting(e, id)
  {
  }

  lemma DeletingNeutral(e: State, id: Id, quiet: bool)
    requires Inv(e) && e.status != Deleted && Deletable(e, id) && Covers(e, e.deletes[id], quiet)
    requires forall v :: v in e.versions && RowsOf(e, v) != [] ==> !Neutral(RowsOf(e, v))
    ensures Deleting(e, id).status == Deleted && (AllNeutral(Deleting(e, id)) <==> quiet)
  {
    var d, n := e.deletes[id], Deleting(e, id);
    assert d.waitsFor.None?;
    assert forall v :: v in e.chunks ==> Fresh(e, v);
    if quiet {
      assert forall v :: v in n.chunks ==> n.chunks[v] == Neutralised(e.chunks[v]);
    } else {
      var v :| v in e.chunks && v !in d.hit;
      assert n.chunks[v] == e.chunks[v] && v in n.chunks;
    }
  }

  /** A delete that meets no concurrent indexing leaves neutral rows for ever. */
  lemma UndisturbedDelete(s: State, id: Id, more: seq<Op>)
    requires Inv(s) && s.status != Deleted && s.writer.None? && id !in s.deletes
    ensures var d := Next(Next(s, BeginDelete(id)), CommitDelete(id)); AllNeutral(d) && AllNeutral(Run(d, more))
  {
    var b := Next(s, BeginDelete(id));
    var d := Next(b, CommitDelete(id));
    assert AllNeutral(d);
    StepKeepsInv(s, BeginDelete(id));
    StepKeepsInv(b, CommitDelete(id));
    NeutralStays(d, more);
  }

  lemma {:induction false} NeutralStays(s: State, ops: seq<Op>)
    requires Inv(s) && s.status == Deleted && AllNeutral(s)
    ensures AllNeutral(Run(s, ops))
    decreases |ops|
  {
    if ops != [] {
      var front := ops[..|ops| - 1];
      NeutralStays(s, front);
      RunKeepsInv(s, front);
      NeutralStep(Run(s, front), ops[|ops| - 1]);
    }
  }

  lemma NeutralStep(s: State, op: Op)
    requires Inv(s) && s.status == Deleted && AllNeutral(s)
    ensures AllNeutral(Next(s, op))
  {
  }

  /** An indexed document, and a delete that has rewritten and waits for nothing. */
  function Overlooked(chunk: Chunker, version: Version): State {
    FirstIndexed(chunk, version).(deletes := map[0 := Deletion({}, None)])
  }

  /** When that delete commits, the deleted document keeps its whole content in its chunk rows, in every
      continuation. */
  lemma OverlookedStays(chunk: Chunker, version: Version, more: seq<Op>)
    ensures var s := Next(Overlooked(chunk, version), CommitDelete(0));
            && s == FirstIndexed(chunk, version).(status := Deleted)
            && Run(s, more).status == Deleted && Run(s, more).chunks == map[1 := chunk(version.content)]
  {
    var s := FirstIndexed(chunk, version).(status := Deleted);
    assert Deletable(Overlooked(chunk, version), 0);
    assert Overlooked(chunk, version).deletes - {0} == map[];
    DeletedIsFrozen(s, more);
  }

  /** It comes about when a first index job commits between the two halves of a delete, */
  lemma DeleteRacesFirstIndex(chunk: Chunker, version: Version)
    requires chunk(version.content) != []
    ensures Leads(Created(chunk, version), FirstStarted(chunk, version))
    ensures Leads(Next(FirstStarted(chunk, version), BeginDelete(0)), Overlooked(chunk, version))
  {
    FirstStarts(chunk, version);
    var t := FirstStarted(chunk, version);
    assert t.chunks.Keys == {};
    var u := t.(deletes := map[0 := Deletion({}, None)]);
    assert Next(t, BeginDelete(0)) == u;
    LeadsHere(u);
    FinishUndisturbed(u, u, 1, Overlooked(chunk, version));
  }

  /** and when a redelivered job replaces the rows of an indexed version as a delete begins: the delete
      waits for the old rows, skips them and does not see the new ones. */
  lemma DeleteRacesReindex(chunk: Chunker, version: Version) returns (s: State)
    requires chunk(version.content) != []
    ensures Leads(Created(chunk, version), s) && s.chunks == map[1 := chunk(version.content)] && s.deletes == map[]
    ensures Leads(Next(s, BeginDelete(0)), Overlooked(chunk, version))
  {
    s := Relocked(chunk, version);
    var met := s.(deletes := map[0 := Deletion({}, Some(1))]);
    assert s.chunks.Keys - {1} == {};
    assert Next(s, BeginDelete(0)) == met;
    LeadsHere(met);
    assert Released(met.deletes) == map[0 := Deletion({}, None)];
    assert met.chunks[1 := chunk(version.content)] == met.chunks;
    LeadsOn(met, met, CommitFinish(true), Overlooked(chunk, version));
  }

  lemma Relocked(chunk: Chunker, version: Version) returns (s: State)
    requires chunk(version.content) != []
    ensures s == FirstIndexed(chunk, version).(status := Indexing, writer := Some(1))
    ensures Leads(Created(chunk, version), s)
  {
    var c, t := Created(chunk, version), FirstIndexed(chunk, version);
    FirstFinishes(chunk, version);
    var u := t.(status := Indexing, working := multiset{1});
    LeadsOn(c, t, Start(1, version.provider), u);
    s := t.(status := Indexing, writer := Some(1));
    assert Surviving(u.deletes, 1) == u.deletes;
    LeadsOn(c, u, BeginFinish(1), s);
  }

  lemma {:induction false} DeletedIsFrozen(s: State, ops: seq<Op>)
    requires s.status == Deleted && s.deletes == map[] && s.writer.None?
    ensures var n := Run(s, ops); n.status == Deleted && n.deletes == map[] && n.writer.None? && n.chunks == s.chunks
    decreases |ops|
  {
    if ops != [] { DeletedIsFrozen(s, ops[..|ops| - 1]); }
  }
}
