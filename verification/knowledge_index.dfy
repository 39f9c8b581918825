/** One knowledge document with its versions and chunk rows. Indexing takes two transactions with
    the embedding calls between them, so jobs for different versions, new versions and deletes
    interleave. The second transaction locks the document row for as long as it replaces chunk rows;
    a delete rewrites the chunk rows it sees and only then touches the document row. */
module KnowledgeIndex {
  import opened Basics
  import opened Chunking

  type Id = nat
  type Content = string
  type Provider = string

  datatype Status = Pending | Indexing | Indexed | Rejected | Deleted

  datatype Version = Version(content: Content, provider: Provider)

  /** A delete that has rewritten, but not committed, the chunk rows of the versions in `hit`. It waits
      for the rows of a version whose replacement was not committed when it began. */
  datatype Deletion = Deletion(hit: set<nat>, waitsFor: Option<nat>)

  /** `working` are the attempts at index jobs between their transactions, each known by its version,
      and `failing` those on their error path; `writer` is the version whose rows are being
      replaced by a transaction that holds the document row. */
  datatype State = State(
    chunk: Chunker,
    status: Status,
    current: nat,
    versions: map<nat, Version>,
    chunks: map<nat, seq<Chunk>>,
    working: multiset<nat>,
    failing: multiset<nat>,
    writer: Option<nat>,
    deletes: map<Id, Deletion>)

  datatype Op =
    | CreateVersion(version: Version)
    | Start(job: nat, provider: Provider)
    | Break(broken: nat)
    | BeginFinish(done: nat)
    | CommitFinish(acknowledged: bool)
    | AbortFinish
    | Fail(failed: nat)
    | BeginDelete(id: Id)
    | CommitDelete(committed: Id)

  const NEUTRAL := "[DELETED]"

  function Neutralised(rows: seq<Chunk>): (r: seq<Chunk>)
    ensures |r| == |rows|
    ensures forall i :: 0 <= i < |r| ==> r[i] == rows[i].(content := NEUTRAL)
  {
    seq(|rows|, i requires 0 <= i < |rows| => rows[i].(content := NEUTRAL))
  }

  /** The chunk rows of a version's content. What is said here holds whatever they are. */
  type Chunker = Content -> seq<Chunk>

  /** Those of the worker: the chunks at the default parameters. */
  function DefaultChunker(): Chunker {
    content => ChunksOf(content, TARGET, OVERLAP)
  }

  function Created(chunk: Chunker, version: Version): State {
    State(chunk, Pending, 1, map[1 := version], map[], multiset{}, multiset{}, None, map[])
  }

  function RowsOf(s: State, v: nat): seq<Chunk>
    requires v in s.versions
  {
    s.chunk(s.versions[v].content)
  }

  // ---------- the guards of the steps ----------

  predicate Known(s: State, content: Content) {
    exists v :: v in s.versions && s.versions[v].content == content
  }

  predicate Creatable(s: State, version: Version) {
    s.writer.None? && s.status != Deleted && !Known(s, version.content)
  }

  predicate Startable(s: State, job: nat, provider: Provider) {
    s.writer.None? && job in s.versions && s.current == job && s.status != Deleted &&
        s.versions[job].provider == provider
  }

  /** The attempt has chunks to write, and nobody else holds the document row. */
  predicate Finishable(s: State, job: nat) {
    s.writer.None? && job in s.working && job in s.versions && RowsOf(s, job) != []
  }

  predicate Failable(s: State, job: nat) {
    s.writer.None? && job in s.failing
  }

  /** The delete has rewritten its rows, and nobody else holds the document row. */
  predicate Deletable(s: State, id: Id) {
    s.writer.None? && id in s.deletes
  }

  // ---------- what each step does ----------

  /** Replacing rows that a delete has rewritten, while it waits for the document row, is a deadlock:
      here the delete loses. When the job loses instead, it breaks. */
  function Surviving(deletes: map<Id, Deletion>, v: nat): map<Id, Deletion> {
    map d | d in deletes && v !in deletes[d].hit :: deletes[d]
  }

  /** The rows that a delete waited for are gone: it skips them, and does not see the new ones. */
  function Released(deletes: map<Id, Deletion>): map<Id, Deletion> {
    map d | d in deletes :: deletes[d].(waitsFor := None)
  }

  /** The rows that a delete waited for are back: it rewrites them. */
  function Resumed(deletes: map<Id, Deletion>): map<Id, Deletion> {
    map d | d in deletes ::
      if deletes[d].waitsFor.Some? then Deletion(deletes[d].hit + {deletes[d].waitsFor.value}, None) else deletes[d]
  }

  function NewDeletion(s: State): Deletion {
    if s.writer.Some? && s.writer.value in s.chunks then Deletion(s.chunks.Keys - {s.writer.value}, s.writer)
    else Deletion(s.chunks.Keys, None)
  }

  function Grown(s: State, version: Version): State {
    s.(current := s.current + 1, versions := s.versions[s.current + 1 := version], status := Pending)
  }

  function Started(s: State, job: nat): State {
    s.(status := Indexing, working := s.working + multiset{job})
  }

  function Broken(s: State, job: nat): State {
    s.(working := s.working - multiset{job}, failing := s.failing + multiset{job})
  }

  /** The start of the second transaction; an overtaken or deleted version is left alone. */
  function Locking(s: State, job: nat): State {
    var t := s.(working := s.working - multiset{job});
    if s.status == Deleted || s.current != job then t
    else t.(writer := Some(job), deletes := Surviving(s.deletes, job))
  }

  function Replaced(s: State, job: nat, rows: seq<Chunk>, acknowledged: bool): State {
    s.(chunks := s.chunks[job := rows], status := Indexed, writer := None,
       failing := if acknowledged then s.failing else s.failing + multiset{job}, deletes := Released(s.deletes))
  }

  function Aborted(s: State, job: nat): State {
    s.(writer := None, failing := s.failing + multiset{job}, deletes := Resumed(s.deletes))
  }

  function Failed(s: State, job: nat): State {
    s.(failing := s.failing - multiset{job}, status := if s.status == Deleted then Deleted else Pending)
  }

  function Deleting(s: State, id: Id): State
    requires id in s.deletes
  {
    s.(deletes := s.deletes - {id}, status := Deleted,
       chunks := map v | v in s.chunks :: if v in s.deletes[id].hit then Neutralised(s.chunks[v]) else s.chunks[v])
  }

  function Next(s: State, op: Op): State {
    match op
    case CreateVersion(version) => if Creatable(s, version) then Grown(s, version) else s
    case Start(job, provider) => if Startable(s, job, provider) then Started(s, job) else s
    case Break(job) => if job in s.working then Broken(s, job) else s
    case BeginFinish(job) => if Finishable(s, job) then Locking(s, job) else s
    case CommitFinish(acknowledged) =>
      if s.writer.Some? && s.writer.value in s.versions then
        Replaced(s, s.writer.value, RowsOf(s, s.writer.value), acknowledged)
      else s
    case AbortFinish => if s.writer.Some? then Aborted(s, s.writer.value) else s
    case Fail(job) => if Failable(s, job) then Failed(s, job) else s
    case BeginDelete(id) =>
      if s.status == Deleted || id in s.deletes then s else s.(deletes := s.deletes[id := NewDeletion(s)])
    case CommitDelete(id) => if Deletable(s, id) then Deleting(s, id) else s
  }

  function Run(s: State, ops: seq<Op>): State
    decreases |ops|
  {
    if ops == [] then s else Next(Run(s, ops[..|ops| - 1]), ops[|ops| - 1])
  }

  /** The rows that `retrieve` may rank. */
  function Retrievable(s: State, provider: Provider): seq<Chunk> {
    if s.status == Indexed && s.current in s.versions && s.current in s.chunks &&
        s.versions[s.current].provider == provider
    then s.chunks[s.current]
    else []
  }

  lemma CommitReplaces(s: State, acknowledged: bool)
    requires s.writer.Some? && s.writer.value in s.versions
    ensures Next(s, CommitFinish(acknowledged))
         == Replaced(s, s.writer.value, RowsOf(s, s.writer.value), acknowledged)
  {
  }

  // ---------- the store ----------

  datatype Claim = NotFound | Stale | Mismatch | Claimed(content: Content)

  class Store {
    const chunk: Chunker
    var status: Status
    var current: nat
    var versions: map<nat, Version>
    var chunks: map<nat, seq<Chunk>>
    ghost var working: multiset<nat>
    ghost var failing: multiset<nat>
    ghost var writer: Option<nat>
    ghost var deletes: map<Id, Deletion>

    ghost function Tables(): State
      reads this
    {
      State(chunk, status, current, versions, chunks, working, failing, writer, deletes)
    }

    constructor (chunk: Chunker, version: Version)
      ensures Tables() == Created(chunk, version)
    {
      this.chunk := chunk;
      status, current, versions, chunks := Pending, 1, map[1 := version], map[];
      working, failing, writer, deletes := multiset{}, multiset{}, None, map[];
    }

    method AddVersion(version: Version) returns (ok: bool)
      requires writer.None?
      modifies this
      ensures Tables() == Next(old(Tables()), CreateVersion(version))
      ensures ok <==>
                old(status) != Deleted
                && forall v :: v in old(versions) ==> old(versions)[v].content != version.content
      ensures ok ==> status == Pending && current == old(current) + 1 && versions == old(versions)[current := version]
      ensures !ok ==> Tables() == old(Tables())
    {
      if status == Deleted {
        return false;
      }
      if v :| v in versions && versions[v].content == version.content {
        return false;
      }
      current := current + 1;
      versions := versions[current := version];
      status := Pending;
      return true;
    }

    /** The first transaction of an index job. A mismatch marks the document REJECTED and then
        throws, which rolls the mark back. */
    method StartIndexing(job: nat, provider: Provider) returns (claim: Claim)
      requires writer.None?
      modifies this
      ensures Tables() == Next(old(Tables()), Start(job, provider))
      ensures claim.NotFound? <==> job !in versions
      ensures claim.Stale? <==> job in versions && (old(status) == Deleted || current != job)
      ensures claim.Mismatch? <==>
                job in versions && old(status) != Deleted && current == job && versions[job].provider != provider
      ensures claim.Claimed? ==> claim.content == versions[job].content && status == Indexing
      ensures !claim.Claimed? ==> Tables() == old(Tables())
    {
      if job !in versions {
        return NotFound;
      }
      if current != job {
        return Stale;
      }
      if status == Deleted {
        return Stale;
      }
      if versions[job].provider != provider {
        var before := status;
        status := Rejected;
        status := before;
        return Mismatch;
      }
      status := Indexing;
      working := working + multiset{job};
      return Claimed(versions[job].content);
    }

    /** The rows of a version are deleted, then inserted one by one. */
    method InsertChunks(job: nat, made: seq<Chunk>)
      modifies `chunks
      ensures chunks == old(chunks)[job := made]
    {
      ghost var others := chunks;
      chunks := chunks[job := []];
      for index := 0 to |made|
        invariant chunks == others[job := made[..index]]
      {
        assert made[..index + 1] == made[..index] + [made[index]];
        chunks := chunks[job := chunks[job] + [made[index]]];
      }
      assert made[..|made|] == made;
    }

    /** The second transaction takes the document row, unless the version was overtaken or deleted. The
        job is reported as indexed whatever comes back from here. */
    method LockDocument(job: nat) returns (locked: bool)
      requires Finishable(Tables(), job)
      modifies this
      ensures Tables() == Next(old(Tables()), BeginFinish(job))
      ensures locked <==> old(status) != Deleted && current == job
      ensures writer == if locked then Some(job) else None
    {
      working := working - multiset{job};
      if status == Deleted || current != job {
        return false;
      }
      writer := Some(job);
      deletes := Surviving(deletes, job);
      return true;
    }

    /** It replaces the chunk rows by those that were cut and embedded in between, and commits. */
    method FinishIndexing(job: nat, made: seq<Chunk>, acknowledged: bool)
      requires writer == Some(job) && job in versions && made == RowsOf(Tables(), job)
      modifies this
      ensures Tables() == Next(old(Tables()), CommitFinish(acknowledged))
      ensures status == Indexed && writer == None && chunks == old(chunks)[job := made]
    {
      CommitReplaces(Tables(), acknowledged);
      InsertChunks(job, made);
      status := Indexed;
      writer := None;
      failing := if acknowledged then failing else failing + multiset{job};
      deletes := Released(deletes);
    }

    method FailIndexing(job: nat)
      requires Failable(Tables(), job)
      modifies this
      ensures Tables() == Next(old(Tables()), Fail(job))
      ensures status == (if old(status) == Deleted then Deleted else Pending) && failing == old(failing) - multiset{job}
    {
      failing := failing - multiset{job};
      status := if status == Deleted then status else Pending;
    }

    /** The statements of deleteDocument before it reaches the document row. */
    method BeginDeletion(id: Id) returns (found: bool)
      requires id !in deletes
      modifies `deletes
      ensures Tables() == Next(old(Tables()), BeginDelete(id))
      ensures found <==> status != Deleted
    {
      if status == Deleted {
        return false;
      }
      deletes := deletes[id := NewDeletion(Tables())];
      return true;
    }

    method CommitDeletion(id: Id, hit: set<nat>)
      requires Deletable(Tables(), id) && hit == deletes[id].hit
      modifies this
      ensures Tables() == Next(old(Tables()), CommitDelete(id))
      ensures status == Deleted && chunks.Keys == old(chunks).Keys
      ensures forall v :: v in chunks && v !in hit ==> chunks[v] == old(chunks)[v]
      ensures forall v :: v in chunks && v in hit ==>
                            |chunks[v]| == |old(chunks)[v]| && forall i :: 0 <= i < |chunks[v]| ==>
                              chunks[v][i] == old(chunks)[v][i].(content := "[DELETED]")
    {
      deletes := deletes - {id};
      chunks := map v | v in chunks :: if v in hit then Neutralised(chunks[v]) else chunks[v];
      status := Deleted;
    }

    method Retrieve(provider: Provider) returns (rows: seq<Chunk>)
      ensures rows == Retrievable(Tables(), provider)
      ensures rows == if status == Indexed && current in versions && current in chunks &&
                           versions[current].provider == provider
                      then chunks[current] else []
    {
      if status == Indexed && current in versions && current in chunks && versions[current].provider == provider {
        return chunks[current];
      }
      return [];
    }
  }
}
