/**
 Interleaved content operations (crates/fslite-sqlite/src/content.rs).

 `write`, `write_at` and `read` are not single transactions: each stages or fetches
 chunks by one database call at a time, and any other request may run between two
 calls.  A `System` is the tables plus the unfinished writers and readers, an event
 is one call.  Two invariants are kept apart: `Separated` holds in every sequence of
 events, `SystemOk` as long as no event breaks the tables (`Breaks`).
 */
module Writers {
  import opened Common
  import opened Chunks
  import opened Plans
  import opened Paths
  import opened Tree
  import opened Resolve
  import opened Store
  import opened Operations
  import opened Safety
  import opened Runs
  import opened Aging
  import Failures

  /** What a positional writer, or a reader, found when it resolved its path. */
  datatype Prior = Prior(node: Id, revision: nat, generation: Id, size: nat, rows: Rows)

  /**
   A writer between two calls: the next chunk index and the buffer, from which the
   length of the new content follows.  Two fields only record its history: `content`,
   the bytes it has taken in, and `intended`, those it would have taken in had its
   prior generation stayed.
   */
  datatype Writer = Writer(
    path: Segments,
    create: bool,
    expected: Option<nat>,
    prior: Option<Prior>,
    generation: Option<Id>,
    next: nat,
    buffer: Bytes,
    sealed: bool,
    content: Bytes,
    intended: Bytes)

  /** A read stream: what it was opened on, its first and last byte, the next chunk and what it has delivered. */
  datatype Reader = Reader(generation: Id, size: nat, rows: Rows, start: nat, last: nat, current: nat, delivered: Bytes)

  datatype System = System(db: Db, writers: map<nat, Writer>, readers: map<nat, Reader>)

  datatype Event =
    | Requested(op: Operation, now: int)
    | StartWrite(w: nat, path: Segments, mayCreate: bool, expected: Option<nat>)
    | StartWriteAt(w: nat, path: Segments, mayCreate: bool, expected: Option<nat>)
    | OpenGeneration(w: nat)
    | TakeIn(w: nat, bytes: Bytes)
    | BulkCopy(w: nat, n: nat)
    | CopyPiece(w: nat, index: nat, lo: nat, hi: nat)
    | Seal(w: nat)
    | FinalizeNow(w: nat, now: int)
    | Abort(w: nat)
    | Vanish(w: nat)
    | OpenRead(r: nat, path: Segments, lo: nat, hi: nat)
    | Pull(r: nat)

  // --- one event -------------------------------------------------------------

  /** The requests that are one transaction; the calls of the others are events of their own. */
  predicate OneTransaction(op: Operation) { !op.OpWrite? && !op.OpWriteAt? && !op.OpAppend? && !op.OpTruncate? }

  /** `total_len`. */
  function Length(writer: Writer): nat { writer.next * CHUNK_SIZE + |writer.buffer| }

  function PutRows(db: Db, g: Id, rows: Rows): Db
    requires g in db.generations
  {
    db.(generations := db.generations[g := db.generations[g].(rows := rows)])
  }

  predicate Opened(s: System, w: nat) {
    w in s.writers && s.writers[w].generation.Some? && s.writers[w].generation.value in s.db.generations
  }

  predicate Staging(s: System, w: nat) { Opened(s, w) && !s.writers[w].sealed }

  predicate Sealed(s: System, w: nat) { Opened(s, w) && s.writers[w].sealed }

  function OwnRows(s: System, w: nat): Rows
    requires Opened(s, w)
  {
    s.db.generations[s.writers[w].generation.value].rows
  }

  function WithOwnRows(s: System, w: nat, rows: Rows, writer: Writer): System
    requires Opened(s, w)
  {
    s.(db := PutRows(s.db, s.writers[w].generation.value, rows), writers := s.writers[w := writer])
  }

  function RowsNow(db: Db, g: Id): Rows { if g in db.generations then db.generations[g].rows else map[] }

  /** `write_bytes`: what fills a chunk is stored, the rest stays in the buffer. */
  function TakenBy(writer: Writer, bytes: Bytes, intended: Bytes): Writer {
    var pending := writer.buffer + bytes;
    writer.(next := writer.next + ChunkIndexOf(|pending|), buffer := Rest(pending),
            content := writer.content + bytes, intended := writer.intended + intended)
  }

  function Taken(s: System, w: nat, bytes: Bytes, intended: Bytes): Option<System>
    requires Staging(s, w)
  {
    var writer := s.writers[w];
    if bytes != [] && Length(writer) + |bytes| > s.db.maxFileBytes then None
    else Some(WithOwnRows(s, w, Flushed(OwnRows(s, w), writer.next, writer.buffer + bytes),
                          TakenBy(writer, bytes, intended)))
  }

  /** A piece of one chunk row of the prior generation, as far as it is still there. */
  function CopiedPiece(s: System, w: nat, index: nat, lo: nat, hi: nat): Option<System>
    requires Staging(s, w) && s.writers[w].prior.Some?
  {
    var prior := s.writers[w].prior.value;
    Taken(s, w, Piece(RowsNow(s.db, prior.generation), index, lo, hi), Piece(prior.rows, index, lo, hi))
  }

  /**
   `copy_chunk_range`, then `skip_committed_chunks`: rows are copied as far as they
   are there, and the length passes over `n` chunks in any case.
   */
  function BulkCopied(s: System, w: nat, n: nat): System
    requires Staging(s, w) && s.writers[w].prior.Some?
  {
    var writer := s.writers[w];
    var found := RowsNow(s.db, writer.prior.value.generation);
    WithOwnRows(s, w, CopyChunkRange(found, OwnRows(s, w), 0, n),
                writer.(next := writer.next + n, content := writer.content + Flatten(found, n),
                        intended := writer.intended + Flatten(writer.prior.value.rows, n)))
  }

  /** The bulk copy is the first thing a writer takes in, and lies within the length it read. */
  predicate MayBulkCopy(s: System, w: nat, n: nat) {
    Staging(s, w) && s.writers[w].prior.Some? && Length(s.writers[w]) == 0 &&
    0 < n && n * CHUNK_SIZE <= s.writers[w].prior.value.size
  }

  ghost function ResolvedPrior(db: Db, path: Segments): Option<Prior> {
    match Resolved(db.nodes, path)
    case Some(x) =>
      if db.nodes[x].generation.Some?
      then Some(Prior(x, db.nodes[x].revision, db.nodes[x].generation.value, db.nodes[x].size,
                      RowsNow(db, db.nodes[x].generation.value)))
      else None
    case None => None
  }

  /** The finalizing transaction of a sealed writer. */
  ghost function FinalizeStep(s: System, w: nat, now: int): Step
    requires Opened(s, w)
  {
    var writer := s.writers[w];
    Finalize(s.db, writer.path, writer.generation.value, Length(writer), writer.create, writer.expected, now)
  }

  ghost function Finalized(s: System, w: nat, now: int): System
    requires Opened(s, w)
  {
    var r := FinalizeStep(s, w, now);
    if r.outcome.Failed? then s.(db := r.db) else s.(db := r.db, writers := s.writers - {w})
  }

  /** `finish`: the last chunk is stored. */
  function SealedNow(s: System, w: nat): System
    requires Staging(s, w)
  {
    var writer := s.writers[w];
    WithOwnRows(s, w, Closed(OwnRows(s, w), writer.next, writer.buffer), writer.(sealed := true))
  }

  /** `abort`: the staged generation goes. */
  function Aborted(s: System, w: nat): System
    requires w in s.writers
  {
    var g := s.writers[w].generation;
    s.(db := if g.Some? then s.db.(generations := s.db.generations - {g.value}) else s.db, writers := s.writers - {w})
  }

  function NewWriter(path: Segments, create: bool, expected: Option<nat>, prior: Option<Prior>): Writer {
    Writer(path, create, expected, prior, None, 0, [], false, [], [])
  }

  function GenerationOpened(s: System, w: nat): System
    requires w in s.writers
  {
    s.(db := StageGeneration(s.db, map[]), writers := s.writers[w := s.writers[w].(generation := Some(s.db.nextId))])
  }

  /** What one pull takes from a chunk row. */
  function PullPiece(rows: Rows, start: nat, last: nat, k: nat): Bytes {
    Cut(Fetch(rows, k), if k == ChunkIndexOf(start) then Some(ChunkLocalOffset(start)) else None,
        if k == ChunkIndexOf(last) then Some(ChunkLocalOffset(last)) else None)
  }

  /** One pull of `chunk_range_stream`. */
  function Pulled(db: Db, r: Reader): Reader {
    r.(current := r.current + 1, delivered := r.delivered +
        PullPiece(RowsNow(db, r.generation), r.start, r.last, r.current))
  }

  /** The system after an event; `None` where the event cannot happen. */
  ghost function After(s: System, e: Event): Option<System> {
    match e
    case Requested(op, now) =>
      var r := Apply(s.db, op, now);
      if r.None? || !OneTransaction(op) then None else Some(s.(db := r.value.db))
    case StartWrite(w, path, create, expected) =>
      if w in s.writers then None
      else Some(s.(writers := s.writers[w := NewWriter(path, create, expected, None)]))
    case StartWriteAt(w, path, create, expected) =>
      var x := Resolved(s.db.nodes, path);
      if w in s.writers || (x.Some? && !s.db.nodes[x.value].kind.File?) || (x.None? && !create) then None
      else Some(s.(writers := s.writers[w := NewWriter(path, create, expected, ResolvedPrior(s.db, path))]))
    case OpenGeneration(w) =>
      if w !in s.writers || s.writers[w].generation.Some? then None else Some(GenerationOpened(s, w))
    case TakeIn(w, bytes) =>
      if !Staging(s, w) then None else Taken(s, w, bytes, bytes)
    case BulkCopy(w, n) =>
      if !MayBulkCopy(s, w, n) then None else Some(BulkCopied(s, w, n))
    case CopyPiece(w, index, lo, hi) =>
      if !Staging(s, w) || s.writers[w].prior.None? then None else CopiedPiece(s, w, index, lo, hi)
    case Seal(w) =>
      if !Staging(s, w) then None else Some(SealedNow(s, w))
    case FinalizeNow(w, now) =>
      if !Sealed(s, w) then None else Some(Finalized(s, w, now))
    case Abort(w) =>
      if w !in s.writers then None else Some(Aborted(s, w))
    case Vanish(w) =>
      if w !in s.writers then None else Some(s.(writers := s.writers - {w}))
    case OpenRead(r, path, lo, hi) =>
      var p := ResolvedPrior(s.db, path);
      if r in s.readers || p.None? then None
      else
        var end := Min(hi, p.value.size);
        if lo >= end then None
        else Some(s.(readers := s.readers[r := Reader(p.value.generation, p.value.size, p.value.rows, lo, end - 1,
                                                      ChunkIndexOf(lo), [])]))
    case Pull(r) =>
      if r !in s.readers || s.readers[r].current > ChunkIndexOf(s.readers[r].last) then None
      else Some(s.(readers := s.readers[r := Pulled(s.db, s.readers[r])]))
  }

  // --- what every event keeps ------------------------------------------------

  /** The rows and the buffer together hold the bytes taken in, whatever gaps there are between the rows. */
  predicate RowsHold(rows: Rows, writer: Writer) {
    if writer.sealed then Flatten(rows, NumChunks(Length(writer))) == writer.content
    else
      |writer.buffer| < CHUNK_SIZE && (writer.next == 0 ==> rows == map[]) &&
      Flatten(rows, writer.next) + writer.buffer == writer.content
  }

  /** An unfinished writer has a generation of its own, which nobody else sees. */
  ghost predicate OwnOk(db: Db, writer: Writer) {
    if writer.generation.None? then writer.next == 0 && writer.buffer == [] && writer.content == [] && !writer.sealed
    else
      var g := writer.generation.value;
      g in db.generations && !db.generations[g].complete && Unreferenced(db.nodes, g) &&
      RowsHold(db.generations[g].rows, writer)
  }

  /** A generation that was found with these rows: unchanged as long as it is there. */
  ghost predicate Kept(db: Db, g: Id, rows: Rows) {
    g < db.nextId && (g in db.generations ==> db.generations[g].rows == rows)
  }

  /** A node that was found with this revision and generation. */
  ghost predicate NodeKept(db: Db, p: Prior) {
    p.node < db.nextId &&
    (p.node in db.nodes ==>
      p.revision <= db.nodes[p.node].revision &&
      (db.nodes[p.node].revision == p.revision ==> db.nodes[p.node].generation == Some(p.generation)))
  }

  /** While its prior generation is there a writer has taken in what it meant to; what it missed never comes back. */
  ghost predicate Faithful(db: Db, writer: Writer) {
    match writer.prior
    case None => writer.content == writer.intended
    case Some(p) =>
      Kept(db, p.generation, p.rows) && NodeKept(db, p) &&
      (p.generation in db.generations ==> writer.content == writer.intended) &&
      (writer.content == writer.intended || |writer.content| < |writer.intended|)
  }

  /** What a stream that loses nothing has delivered before chunk `upto`. */
  function Stream(rows: Rows, start: nat, last: nat, upto: nat): Bytes {
    if upto <= ChunkIndexOf(start) then []
    else Stream(rows, start, last, upto - 1) + PullPiece(rows, start, last, upto - 1)
  }

  ghost predicate ReaderOk(db: Db, r: Reader) {
    Kept(db, r.generation, r.rows) && r.start <= r.last < r.size &&
    ChunkIndexOf(r.start) <= r.current <= ChunkIndexOf(r.last) + 1 &&
    r.delivered <= Stream(r.rows, r.start, r.last, r.current) &&
    (r.generation in db.generations ==> r.delivered == Stream(r.rows, r.start, r.last, r.current))
  }

  ghost predicate NotOwned(s: System, g: Id) { forall w :: w in s.writers ==> s.writers[w].generation != Some(g) }

  ghost predicate WritersApart(s: System) {
    forall v, w :: v in s.writers && w in s.writers && v != w && s.writers[v].generation.Some? ==>
      s.writers[v].generation != s.writers[w].generation
  }

  ghost predicate WriterOk(s: System, writer: Writer) {
    OwnOk(s.db, writer) && Faithful(s.db, writer) && (writer.prior.Some? ==> NotOwned(s, writer.prior.value.generation))
  }

  ghost predicate Separated(s: System) {
    Fresh(s.db) && WritersApart(s) &&
    (forall w :: w in s.writers ==> WriterOk(s, s.writers[w])) &&
    forall r :: r in s.readers ==> ReaderOk(s.db, s.readers[r]) && NotOwned(s, s.readers[r].generation)
  }

  /** The generation `own` is new, or it is that of an unfinished writer. */
  ghost predicate OwnedOrNew(s: System, own: Id) {
    own >= s.db.nextId || exists w :: w in s.writers && s.writers[w].generation == Some(own)
  }

  lemma OwnAges(a: Db, b: Db, own: Id, writer: Writer)
    requires Ages(a, b, own) && OwnOk(a, writer) && Fresh(a) && writer.generation != Some(own)
    ensures OwnOk(b, writer)
  {
    hide Unreferenced, RowsHold;
  }

  lemma KeptAges(a: Db, b: Db, own: Id, g: Id, rows: Rows)
    requires Ages(a, b, own) && Kept(a, g, rows) && g != own
    ensures Kept(b, g, rows) && (g in b.generations ==> g in a.generations)
  {
  }

  lemma FaithfulAges(a: Db, b: Db, own: Id, writer: Writer)
    requires Ages(a, b, own) && Faithful(a, writer) && (writer.prior.Some? ==> writer.prior.value.generation != own)
    ensures Faithful(b, writer)
  {
    hide Unreferenced;
    if writer.prior.Some? { KeptAges(a, b, own, writer.prior.value.generation, writer.prior.value.rows); }
  }

  lemma ReaderAges(a: Db, b: Db, own: Id, r: Reader)
    requires Ages(a, b, own) && ReaderOk(a, r) && r.generation != own
    ensures ReaderOk(b, r)
  {
    KeptAges(a, b, own, r.generation, r.rows);
    hide Ages, Stream;
  }

  lemma KnownIsNotOwn(s: System, own: Id, g: Id)
    requires OwnedOrNew(s, own) && NotOwned(s, g) && g < s.db.nextId
    ensures g != own
  {
  }

  /** A change of the tables by which only the generation `own` was touched keeps all other writers and all readers. */
  lemma OthersUnaffected(s: System, db': Db, own: Id)
    requires Separated(s) && Ages(s.db, db', own) && OwnedOrNew(s, own)
    ensures Fresh(db')
    ensures forall w :: w in s.writers ==> Faithful(db', s.writers[w])
    ensures forall w :: w in s.writers && s.writers[w].generation != Some(own) ==> OwnOk(db', s.writers[w])
    ensures forall r :: r in s.readers ==> ReaderOk(db', s.readers[r])
  {
    AgesKeepsFresh(s.db, db', own);
    hide Faithful, OwnOk, ReaderOk, Ages, Fresh, NotOwned, OwnedOrNew;
    forall w | w in s.writers ensures Faithful(db', s.writers[w]) {
      assert WriterOk(s, s.writers[w]);
      if s.writers[w].prior.Some? {
        PriorIsKnown(s.db, s.writers[w]); KnownIsNotOwn(s, own, s.writers[w].prior.value.generation);
      }
      FaithfulAges(s.db, db', own, s.writers[w]);
    }
    forall w | w in s.writers && s.writers[w].generation != Some(own) ensures OwnOk(db', s.writers[w]) {
      OwnAges(s.db, db', own, s.writers[w]);
    }
    forall r | r in s.readers ensures ReaderOk(db', s.readers[r]) {
      ReaderIsKnown(s.db, s.readers[r]);
      KnownIsNotOwn(s, own, s.readers[r].generation);
      ReaderAges(s.db, db', own, s.readers[r]);
    }
  }

  lemma AgesKeepsFresh(a: Db, b: Db, own: Id)
    requires Ages(a, b, own) && Fresh(a)
    ensures Fresh(b)
  {
  }

  lemma PriorIsKnown(db: Db, writer: Writer)
    requires Faithful(db, writer) && writer.prior.Some?
    ensures writer.prior.value.generation < db.nextId
  {
  }

  lemma ReaderIsKnown(db: Db, r: Reader)
    requires ReaderOk(db, r)
    ensures r.generation < db.nextId
  {
  }

  lemma OwnIsKnown(s: System, w: nat)
    requires Separated(s) && w in s.writers && s.writers[w].generation.Some?
    ensures var g := s.writers[w].generation.value;
            g in s.db.generations && !s.db.generations[g].complete && g < s.db.nextId && Unreferenced(s.db.nodes, g) &&
            OwnedOrNew(s, g) &&
            RowsHold(OwnRows(s, w), s.writers[w])
  {
    hide Faithful, ReaderOk, NotOwned, Unreferenced, RowsHold;
    assert WriterOk(s, s.writers[w]);
    assert OwnOk(s.db, s.writers[w]);
  }

  /** Only the tables changed, and only in generations nobody owns. */
  lemma TablesChange(s: System, db': Db)
    requires Separated(s) && Ages(s.db, db', s.db.nextId)
    ensures Separated(s.(db := db'))
  {
    hide Faithful, OwnOk, ReaderOk, Ages, Fresh;
    OthersUnaffected(s, db', s.db.nextId);
    forall w | w in s.writers ensures WriterOk(s.(db := db'), s.writers[w]) {
      assert WriterOk(s, s.writers[w]);
      if s.writers[w].generation.Some? { OwnIsKnown(s, w); }
    }
  }

  /** A writer goes on, with the same prior and the same generation or a new one. */
  lemma WriterGoesOn(s: System, w: nat, db': Db, writer: Writer, own: Id)
    requires Separated(s) && w in s.writers && Ages(s.db, db', own) && writer.generation == Some(own) &&
             writer.prior == s.writers[w].prior
    requires own >= s.db.nextId || s.writers[w].generation == Some(own)
    requires OwnOk(db', writer) && Faithful(db', writer)
    ensures Separated(s.(db := db', writers := s.writers[w := writer]))
  {
    hide Faithful, OwnOk, ReaderOk, Ages, Fresh;
    OthersUnaffected(s, db', own);
    var s' := s.(db := db', writers := s.writers[w := writer]);
    forall v | v in s.writers && v != w ensures s.writers[v].generation != Some(own) {
      if s.writers[v].generation.Some? { OwnIsKnown(s, v); }
    }
    forall v | v in s'.writers ensures WriterOk(s', s'.writers[v]) {
      assert WriterOk(s, s.writers[v]);
      if s.writers[v].prior.Some? { PriorNotOwned(s, w, v, writer, db'); }
    }
    forall r | r in s.readers ensures NotOwned(s', s.readers[r].generation) {
      ReaderIsKnown(s.db, s.readers[r]);
    }
  }

  lemma PriorNotOwned(s: System, w: nat, v: nat, writer: Writer, db': Db)
    requires w in s.writers && v in s.writers && WriterOk(s, s.writers[v]) && s.writers[v].prior.Some? &&
             writer.generation.Some?
    requires writer.generation.value >= s.db.nextId || s.writers[w].generation == writer.generation
    ensures NotOwned(s.(db := db', writers := s.writers[w := writer]), s.writers[v].prior.value.generation)
  {
    PriorIsKnown(s.db, s.writers[v]);
  }

  /** A writer that is gone. */
  lemma WriterLeaves(s: System, w: nat, db': Db, own: Id)
    requires Separated(s) && w in s.writers && Ages(s.db, db', own)
    requires own >= s.db.nextId || s.writers[w].generation == Some(own)
    ensures Separated(s.(db := db', writers := s.writers - {w}))
  {
    hide Faithful, OwnOk, ReaderOk, Ages, Fresh;
    OthersUnaffected(s, db', own);
    var s' := s.(db := db', writers := s.writers - {w});
    forall v | v in s'.writers ensures WriterOk(s', s'.writers[v]) {
      assert WriterOk(s, s.writers[v]);
      if s.writers[v].generation.Some? { OwnIsKnown(s, v); }
    }
  }

  // --- every event keeps the separation --------------------------------------

  /** Stored content does not change, ids do not come back and revisions only grow. */
  ghost predicate Succeeds(a: Db, b: Db) {
    a.nextId <= b.nextId && NodesAge(a, b) &&
    forall g :: g in b.generations && g < a.nextId && (g in a.generations ==> a.generations[g].complete) ==>
      g in a.generations && b.generations[g] == a.generations[g]
  }

  lemma AgesSucceeds(a: Db, b: Db, own: Id)
    requires Ages(a, b, own) && (own >= a.nextId || (own in a.generations && !a.generations[own].complete))
    ensures Succeeds(a, b)
  {
  }

  lemma SucceedsSelf(a: Db)
    ensures Succeeds(a, a)
  {
  }

  lemma SucceedsTwice(a: Db, b: Db, c: Db)
    requires Succeeds(a, b) && Succeeds(b, c)
    ensures Succeeds(a, c)
  {
  }

  lemma RequestedSeparates(s: System, op: Operation, now: int)
    requires Separated(s) && Apply(s.db, op, now).Some?
    ensures Separated(s.(db := Apply(s.db, op, now).value.db)) && Ages(s.db, Apply(s.db, op, now).value.db, s.db.nextId)
  {
    hide Apply, WriterOk, ReaderOk, Ages, Fresh;
    EveryRequestAges(s.db, op, now, s.db.nextId);
    TablesChange(s, Apply(s.db, op, now).value.db);
  }

  /** What a path resolves to has a generation that no writer owns. */
  lemma ResolvedIsKept(s: System, path: Segments)
    requires Separated(s) && ResolvedPrior(s.db, path).Some?
    ensures var p := ResolvedPrior(s.db, path).value;
            Kept(s.db, p.generation, p.rows) && NodeKept(s.db, p) && NotOwned(s, p.generation) &&
            p.node in s.db.nodes && s.db.nodes[p.node].revision == p.revision &&
            s.db.nodes[p.node].generation == Some(p.generation) &&
            s.db.nodes[p.node].size == p.size
  {
    hide Resolved, Faithful, ReaderOk;
    var p := ResolvedPrior(s.db, path).value;
    assert Fresh(s.db);
    forall w | w in s.writers ensures s.writers[w].generation != Some(p.generation) {
      assert WriterOk(s, s.writers[w]);
    }
  }

  lemma StartSeparates(s: System, w: nat, path: Segments, create: bool, expected: Option<nat>)
    requires Separated(s) && w !in s.writers
    ensures Separated(s.(writers := s.writers[w := NewWriter(path, create, expected, None)]))
    ensures Separated(s.(writers := s.writers[w := NewWriter(path, create, expected, ResolvedPrior(s.db, path))]))
  {
    hide Fresh, ResolvedPrior, ReaderOk, Kept, NodeKept;
    WriterJoins(s, w, NewWriter(path, create, expected, None));
    var p := ResolvedPrior(s.db, path);
    if p.Some? {
      ResolvedIsKept(s, path);
      WriterJoins(s, w, NewWriter(path, create, expected, p));
    }
  }

  /** A writer that has not opened a generation yet. */
  lemma WriterJoins(s: System, w: nat, writer: Writer)
    requires Separated(s) && w !in s.writers && WriterOk(s, writer) && writer.generation.None?
    ensures Separated(s.(writers := s.writers[w := writer]))
  {
    hide Fresh, ReaderOk, OwnOk, Faithful;
    var s' := s.(writers := s.writers[w := writer]);
    forall g | NotOwned(s, g) ensures NotOwned(s', g) { }
    forall v | v in s'.writers ensures WriterOk(s', s'.writers[v]) {
      if v != w { assert WriterOk(s, s.writers[v]); }
    }
  }

  lemma OpenGenerationSeparates(s: System, w: nat)
    requires Separated(s) && w in s.writers && s.writers[w].generation.None?
    ensures Separated(GenerationOpened(s, w)) && Ages(s.db, GenerationOpened(s, w).db, s.db.nextId)
  {
    hide ReaderOk, Ages;
    StageAges(s.db, map[]);
    FreshIsUnreferenced(s.db);
    hide Fresh;
    var s' := GenerationOpened(s, w);
    assert WriterOk(s, s.writers[w]);
    OpenedHolds(s.writers[w], s'.writers[w]);
    PriorNotNew(s, w);
    FaithfulAges(s.db, s'.db, s.db.nextId, s.writers[w]);
    WriterGoesOn(s, w, s'.db, s'.writers[w], s.db.nextId);
  }

  lemma OpenedHolds(before: Writer, after: Writer)
    requires before.next == 0 && before.buffer == [] && before.content == [] && !before.sealed
    requires after == before.(generation := after.generation)
    ensures RowsHold(map[], after)
  {
  }

  lemma PriorNotNew(s: System, w: nat)
    requires w in s.writers && WriterOk(s, s.writers[w])
    ensures s.writers[w].prior.Some? ==> s.writers[w].prior.value.generation != s.db.nextId
  {
  }

  lemma PutRowsAges(db: Db, g: Id, rows: Rows)
    requires g in db.generations
    ensures Ages(db, PutRows(db, g, rows), g)
  {
  }

  /** A writer after a call in which it took in `bytes` and meant to take in `intended`. */
  lemma OwnRowsSeparate(s: System, w: nat, rows: Rows, writer: Writer, bytes: Bytes, intended: Bytes)
    requires Separated(s) && Opened(s, w) && writer.prior == s.writers[w].prior &&
             writer.generation == s.writers[w].generation
    requires writer.content == s.writers[w].content + bytes && writer.intended == s.writers[w].intended + intended
    requires RowsHold(rows, writer)
    requires var p := writer.prior;
             bytes == intended || (p.Some? && p.value.generation !in s.db.generations && bytes == [])
    ensures Separated(WithOwnRows(s, w, rows, writer))
    ensures Ages(s.db, WithOwnRows(s, w, rows, writer).db, s.writers[w].generation.value)
  {
    hide RowsHold;
    var g := s.writers[w].generation.value;
    var db' := PutRows(s.db, g, rows);
    OwnIsKnown(s, w);
    PutRowsAges(s.db, g, rows);
    assert WriterOk(s, s.writers[w]);
    assert OwnOk(db', writer);
    hide Ages, Fresh, ReaderOk, OwnOk, Kept, NodeKept, Unreferenced;
    if writer.prior.Some? { PriorNotOwn(s, w); }
    FaithfulAges(s.db, db', g, s.writers[w]);
    assert |writer.content| == |s.writers[w].content| + |bytes| &&
           |writer.intended| == |s.writers[w].intended| + |intended|;
    FaithfulGoesOn(db', s.writers[w], writer, bytes, intended);
    WriterGoesOn(s, w, db', writer, g);
  }

  lemma PriorNotOwn(s: System, w: nat)
    requires w in s.writers && WriterOk(s, s.writers[w]) && s.writers[w].prior.Some? && s.writers[w].generation.Some?
    ensures s.writers[w].prior.value.generation != s.writers[w].generation.value
  {
  }

  lemma FaithfulGoesOn(db: Db, before: Writer, after: Writer, bytes: Bytes, intended: Bytes)
    requires Faithful(db, before) && after.prior == before.prior
    requires after.content == before.content + bytes && after.intended == before.intended + intended
    requires bytes == intended || (after.prior.Some? && after.prior.value.generation !in db.generations && bytes == [])
    ensures Faithful(db, after)
    ensures after.content == after.intended <==> before.content == before.intended && bytes == intended
  {
    hide Kept, NodeKept;
    if before.content != before.intended || bytes != intended {
      assert |before.content| <= |before.intended| && |bytes| <= |intended|;
      assert |before.content| < |before.intended| || |bytes| < |intended|;
      assert |after.content| < |after.intended|;
    }
  }

  /** What a copy finds: all it meant to copy, or nothing once the prior generation is gone. */
  lemma CopyFinds(s: System, w: nat, t: Take)
    requires Separated(s) && w in s.writers && s.writers[w].prior.Some?
    ensures var p := s.writers[w].prior.value;
            t.New? || Meant(RowsNow(s.db, p.generation), t) == if p.generation in s.db.generations then Meant(p.rows, t)
                else []
  {
    hide Fresh, ReaderOk, OwnOk, NodeKept, NotOwned;
    var p := s.writers[w].prior.value;
    assert WriterOk(s, s.writers[w]);
    assert Kept(s.db, p.generation, p.rows);
    if t.Bulk? { NothingFound(t.n); }
  }

  lemma {:induction false} NothingFound(n: nat)
    ensures Flatten(map[], n) == []
  {
    if n > 0 { NothingFound(n - 1); }
  }

  lemma CopyPieceSeparates(s: System, w: nat, index: nat, lo: nat, hi: nat)
    requires Separated(s) && Staging(s, w) && s.writers[w].prior.Some? && CopiedPiece(s, w, index, lo, hi).Some?
    ensures Separated(CopiedPiece(s, w, index, lo, hi).value)
    ensures Ages(s.db, CopiedPiece(s, w, index, lo, hi).value.db, s.writers[w].generation.value)
  {
    hide Separated, Piece, Flushed, Rest, Ages;
    CopyFinds(s, w, Old(index, lo, hi));
    var p := s.writers[w].prior.value;
    TakenSeparates(s, w, Piece(RowsNow(s.db, p.generation), index, lo, hi), Piece(p.rows, index, lo, hi));
  }

  lemma TakenHold(rows: Rows, writer: Writer, bytes: Bytes, intended: Bytes)
    requires RowsHold(rows, writer) && !writer.sealed
    ensures RowsHold(Flushed(rows, writer.next, writer.buffer + bytes), TakenBy(writer, bytes, intended))
  {
    hide Flatten, Rest;
    var pending := writer.buffer + bytes;
    FlushedFlattens(rows, writer.next, pending);
    assert Flatten(rows, writer.next) + pending == writer.content + bytes;
  }

  lemma BulkFlattens(found: Rows, n: nat)
    ensures Flatten(CopyChunkRange(found, map[], 0, n), n) == Flatten(found, n)
  {
    FlattenSame(found, CopyChunkRange(found, map[], 0, n), n);
  }

  lemma BulkHold(found: Rows, writer: Writer, n: nat, intended: Bytes)
    requires RowsHold(map[], writer) && !writer.sealed && writer.next == 0 && writer.buffer == [] && n > 0
    ensures RowsHold(CopyChunkRange(found, map[], 0, n),
                     writer.(next := writer.next + n, content := writer.content + Flatten(found, n),
                             intended := intended))
  {
    hide RowsHold, Flatten, CopyChunkRange;
    NothingTakenYet(writer);
    BulkFlattens(found, n);
    var writer' := writer.(next := writer.next + n, content := writer.content + Flatten(found, n),
                           intended := intended);
    assert writer.content + Flatten(found, n) == Flatten(found, n);
    RowsAreAll(CopyChunkRange(found, map[], 0, n), writer');
  }

  lemma NothingTakenYet(writer: Writer)
    requires RowsHold(map[], writer) && !writer.sealed && writer.next == 0 && writer.buffer == []
    ensures writer.content == []
  {
  }

  lemma RowsAreAll(rows: Rows, writer: Writer)
    requires !writer.sealed && writer.buffer == [] && writer.next > 0 && writer.content == Flatten(rows, writer.next)
    ensures RowsHold(rows, writer)
  {
    hide Flatten;
    assert Flatten(rows, writer.next) + [] == Flatten(rows, writer.next);
  }

  lemma SealHold(rows: Rows, writer: Writer)
    requires RowsHold(rows, writer) && !writer.sealed
    ensures RowsHold(Closed(rows, writer.next, writer.buffer), writer.(sealed := true))
  {
    hide Flatten, Closed, NumChunks;
    ClosedFlattens(rows, writer.next, writer.buffer);
  }

  lemma TakenSeparates(s: System, w: nat, bytes: Bytes, intended: Bytes)
    requires Separated(s) && Staging(s, w) && Taken(s, w, bytes, intended).Some?
    requires var p := s.writers[w].prior;
             bytes == intended || (p.Some? && p.value.generation !in s.db.generations && bytes == [])
    ensures Separated(Taken(s, w, bytes, intended).value)
    ensures Ages(s.db, Taken(s, w, bytes, intended).value.db, s.writers[w].generation.value)
  {
    hide Separated, Flushed, Rest, Ages, RowsHold;
    var writer := s.writers[w];
    OwnIsKnown(s, w);
    TakenHold(OwnRows(s, w), writer, bytes, intended);
    OwnRowsSeparate(s, w, Flushed(OwnRows(s, w), writer.next, writer.buffer + bytes), TakenBy(writer, bytes, intended),
                    bytes, intended);
  }

  lemma NothingStoredYet(rows: Rows, writer: Writer)
    requires RowsHold(rows, writer) && !writer.sealed && Length(writer) == 0
    ensures rows == map[] && writer.next == 0 && writer.buffer == []
  {
  }

  lemma BulkCopySeparates(s: System, w: nat, n: nat)
    requires Separated(s) && MayBulkCopy(s, w, n)
    ensures Separated(BulkCopied(s, w, n)) && Ages(s.db, BulkCopied(s, w, n).db, s.writers[w].generation.value)
  {
    hide Separated, Flatten, CopyChunkRange, Ages, RowsHold;
    CopyFinds(s, w, Bulk(n));
    var p := s.writers[w].prior.value;
    var found := RowsNow(s.db, p.generation);
    OwnIsKnown(s, w);
    NothingStoredYet(OwnRows(s, w), s.writers[w]);
    BulkHold(found, s.writers[w], n, s.writers[w].intended + Flatten(p.rows, n));
    OwnRowsSeparate(s, w, CopyChunkRange(found, OwnRows(s, w), 0, n), BulkCopied(s, w, n).writers[w], Flatten(found, n),
                    Flatten(p.rows, n));
  }

  lemma SealSeparates(s: System, w: nat)
    requires Separated(s) && Staging(s, w)
    ensures Separated(SealedNow(s, w)) && Ages(s.db, SealedNow(s, w).db, s.writers[w].generation.value)
  {
    hide Separated, Ages, RowsHold;
    var writer := s.writers[w];
    OwnIsKnown(s, w);
    SealHold(OwnRows(s, w), writer);
    assert writer.content + [] == writer.content && writer.intended + [] == writer.intended;
    OwnRowsSeparate(s, w, Closed(OwnRows(s, w), writer.next, writer.buffer), writer.(sealed := true), [], []);
  }

  lemma FinalizeSeparates(s: System, w: nat, now: int)
    requires Separated(s) && Sealed(s, w)
    ensures Separated(Finalized(s, w, now)) && Ages(s.db, Finalized(s, w, now).db, s.writers[w].generation.value)
  {
    hide Separated, Ages, Finalize;
    OwnIsKnown(s, w);
    var writer := s.writers[w];
    FinalizeAges(s.db, writer.path, writer.generation.value, Length(writer), writer.create, writer.expected, now);
    if FinalizeStep(s, w, now).outcome.Failed? {
      Failures.FailedFinalize(s.db, writer.path, writer.generation.value, Length(writer), writer.create,
                              writer.expected, now);
      assert Finalized(s, w, now) == s;
    } else {
      WriterLeaves(s, w, FinalizeStep(s, w, now).db, writer.generation.value);
    }
  }

  lemma DropAges(db: Db, g: Id)
    requires Unreferenced(db.nodes, g)
    ensures Ages(db, db.(generations := db.generations - {g}), g)
  {
  }

  lemma AbortSeparates(s: System, w: nat)
    requires Separated(s) && w in s.writers
    ensures Separated(Aborted(s, w)) && Separated(s.(writers := s.writers - {w}))
    ensures Ages(s.db, Aborted(s, w).db, if s.writers[w].generation.Some? then s.writers[w].generation.value
            else s.db.nextId)
  {
    hide Separated, Ages, SameTrashings;
    AgesSelf(s.db, s.db.nextId);
    WriterLeaves(s, w, s.db, s.db.nextId);
    if s.writers[w].generation.Some? {
      var g := s.writers[w].generation.value;
      OwnIsKnown(s, w);
      DropAges(s.db, g);
      WriterLeaves(s, w, s.db.(generations := s.db.generations - {g}), g);
    }
  }

  lemma OpenReadSeparates(s: System, r: nat, path: Segments, lo: nat, hi: nat)
    requires Separated(s) && After(s, OpenRead(r, path, lo, hi)).Some?
    ensures Separated(After(s, OpenRead(r, path, lo, hi)).value)
  {
    hide Fresh, WriterOk, ResolvedPrior, Kept, NodeKept, NotOwned;
    ResolvedIsKept(s, path);
    var s' := After(s, OpenRead(r, path, lo, hi)).value;
    forall w | w in s.writers ensures WriterOk(s', s.writers[w]) { SameWriters(s, s', s.writers[w]); }
    forall g | NotOwned(s, g) ensures NotOwned(s', g) { SameOwners(s, s', g); }
  }

  lemma SameOwners(s: System, s': System, g: Id)
    requires NotOwned(s, g) && s'.writers == s.writers
    ensures NotOwned(s', g)
  {
  }

  lemma SameWriters(s: System, s': System, writer: Writer)
    requires WriterOk(s, writer) && s'.writers == s.writers && s'.db == s.db
    ensures WriterOk(s', writer)
  {
    hide OwnOk, Faithful;
  }

  lemma PulledIsOk(db: Db, r: Reader)
    requires ReaderOk(db, r) && r.current <= ChunkIndexOf(r.last)
    ensures ReaderOk(db, Pulled(db, r))
    ensures var r' := Pulled(db, r);
            r'.delivered == Stream(r.rows, r.start, r.last, r'.current) <==>
            r.delivered == Stream(r.rows, r.start, r.last, r.current) &&
            (r.generation in db.generations || PullPiece(r.rows, r.start, r.last, r.current) == [])
  {
    hide Cut;
    var due := Stream(r.rows, r.start, r.last, r.current);
    var piece := PullPiece(r.rows, r.start, r.last, r.current);
    assert Stream(r.rows, r.start, r.last, r.current + 1) == due + piece;
    if r.generation !in db.generations {
      GonePieceIsEmpty(r);
      assert r.delivered + [] == r.delivered;
      assert |r.delivered| <= |due| && (r.delivered != due ==> |r.delivered| < |due|);
    }
  }

  lemma GonePieceIsEmpty(r: Reader)
    ensures PullPiece(map[], r.start, r.last, r.current) == []
  {
  }

  lemma PullSeparates(s: System, r: nat)
    requires Separated(s) && After(s, Pull(r)).Some?
    ensures Separated(After(s, Pull(r)).value)
  {
    hide Fresh, WriterOk, ReaderOk, Pulled, NotOwned;
    var s' := After(s, Pull(r)).value;
    PulledIsOk(s.db, s.readers[r]);
    assert s'.readers[r].generation == s.readers[r].generation by { PulledSame(s.db, s.readers[r]); }
    forall w | w in s.writers ensures WriterOk(s', s.writers[w]) { SameWriters(s, s', s.writers[w]); }
    forall g | NotOwned(s, g) ensures NotOwned(s', g) { SameOwners(s, s', g); }
  }

  lemma PulledSame(db: Db, r: Reader)
    ensures Pulled(db, r) == r.(current := r.current + 1, delivered := Pulled(db, r).delivered)
  {
  }

  /** One event. */
  lemma EventSeparates(s: System, e: Event)
    requires Separated(s) && After(s, e).Some?
    ensures Separated(After(s, e).value) && Succeeds(s.db, After(s, e).value.db)
  {
    hide Separated, Ages, Succeeds, Apply, Taken, Finalized, Aborted, SealedNow, Pulled, ResolvedPrior;
    hide CopiedPiece, BulkCopied, GenerationOpened;
    SucceedsSelf(s.db);
    match e
    case Requested(op, now) =>
      RequestedSeparates(s, op, now);
      AgesSucceeds(s.db, After(s, e).value.db, s.db.nextId);
    case StartWrite(w, path, create, expected) => StartSeparates(s, w, path, create, expected);
    case StartWriteAt(w, path, create, expected) => StartSeparates(s, w, path, create, expected);
    case OpenGeneration(w) =>
      OpenGenerationSeparates(s, w);
      AgesSucceeds(s.db, After(s, e).value.db, s.db.nextId);
    case TakeIn(w, bytes) =>
      OwnIsKnown(s, w);
      TakenSeparates(s, w, bytes, bytes);
      AgesSucceeds(s.db, After(s, e).value.db, s.writers[w].generation.value);
    case BulkCopy(w, n) =>
      OwnIsKnown(s, w);
      BulkCopySeparates(s, w, n);
      AgesSucceeds(s.db, After(s, e).value.db, s.writers[w].generation.value);
    case CopyPiece(w, index, lo, hi) =>
      OwnIsKnown(s, w);
      CopyPieceSeparates(s, w, index, lo, hi);
      AgesSucceeds(s.db, After(s, e).value.db, s.writers[w].generation.value);
    case Seal(w) =>
      OwnIsKnown(s, w);
      SealSeparates(s, w);
      AgesSucceeds(s.db, After(s, e).value.db, s.writers[w].generation.value);
    case FinalizeNow(w, now) =>
      OwnIsKnown(s, w);
      FinalizeSeparates(s, w, now);
      AgesSucceeds(s.db, After(s, e).value.db, s.writers[w].generation.value);
    case Abort(w) =>
      if s.writers[w].generation.Some? { OwnIsKnown(s, w); }
      AbortSeparates(s, w);
      AgesSucceeds(s.db, After(s, e).value.db, if s.writers[w].generation.Some? then s.writers[w].generation.value
          else s.db.nextId);
    case Vanish(w) => AbortSeparates(s, w);
    case OpenRead(r, path, lo, hi) => OpenReadSeparates(s, r, path, lo, hi);
    case Pull(r) => PullSeparates(s, r);
  }
}
