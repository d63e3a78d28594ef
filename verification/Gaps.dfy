/**
 When interleaved writers leave valid tables (crates/fslite-sqlite/src/content.rs).

 The bulk copy of `copy_prefix_from` passes over whole chunks without asking whether
 any row was copied.  If the prior generation is gone by then, the new generation has
 a gap, and the finalizing transaction stores a file whose size its chunks do not
 fill.  `Breaks` says when one event does this, or hangs a node below itself; no other
 event makes valid tables invalid.
 */
module Gaps {
  import opened Common
  import opened Chunks
  import opened Plans
  import opened Paths
  import opened Tree
  import opened Resolve
  import opened Store
  import opened Operations
  import opened Safety
  import opened Runs
  import opened Aging
  import opened Writers
  import Failures

  /** A writer whose length counts bytes it has not taken in. */
  predicate Gapped(writer: Writer) { Length(writer) != |writer.content| }

  /** The bytes of a generation found with these rows. */
  function FoundContent(size: nat, rows: Rows): Bytes { Flatten(rows, NumChunks(size)) }

  ghost predicate WellFound(size: nat, rows: Rows, maxFileBytes: nat) {
    |FoundContent(size, rows)| == size <= maxFileBytes && rows == RowsOf(FoundContent(size, rows))
  }

  /** The rows of a writer that has a gap, or the layout of what it has taken in. */
  ghost predicate RowsMatch(rows: Rows, writer: Writer) {
    if Gapped(writer) then 0 !in rows && 1 <= writer.next
    else if writer.sealed then rows == RowsOf(writer.content)
    else writer.next * CHUNK_SIZE <= |writer.content| && writer.buffer == writer.content[writer.next * CHUNK_SIZE..] &&
         rows == RowsOf(writer.content[..writer.next * CHUNK_SIZE])
  }

  ghost predicate Laid(db: Db, writer: Writer) {
    (!Gapped(writer) ==> |writer.content| <= db.maxFileBytes) && (!writer.sealed ==> |writer.buffer| < CHUNK_SIZE) &&
    if writer.generation.None? then writer.next == 0 && writer.buffer == [] && writer.content == [] && !writer.sealed
    else writer.generation.value in db.generations && RowsMatch(db.generations[writer.generation.value].rows, writer)
  }

  ghost predicate WriterSound(db: Db, writer: Writer) {
    Laid(db, writer) &&
    (writer.prior.Some? ==> WellFound(writer.prior.value.size, writer.prior.value.rows, db.maxFileBytes))
  }

  ghost predicate SystemOk(s: System, root: Id) {
    Separated(s) && Inv(s.db, root) && (forall w :: w in s.writers ==> WriterSound(s.db, s.writers[w])) &&
    forall r :: r in s.readers ==> WellFound(s.readers[r].size, s.readers[r].rows, s.db.maxFileBytes)
  }

  /** A commit of a generation with a gap. */
  ghost predicate Tears(s: System, e: Event) {
    e.FinalizeNow? && Sealed(s, e.w) && Gapped(s.writers[e.w]) && FinalizeStep(s, e.w, e.now).outcome.Done?
  }

  ghost predicate Breaks(s: System, e: Event) { Tears(s, e) || (e.Requested? && HangsBelowItself(s.db, e.op)) }

  // --- what stays sound ------------------------------------------------------

  lemma SoundAges(a: Db, b: Db, own: Id, writer: Writer)
    requires Ages(a, b, own) && WriterSound(a, writer) && OwnOk(a, writer) && Fresh(a) && writer.generation != Some(own)
    ensures WriterSound(b, writer)
  {
    hide RowsMatch, Unreferenced, WellFound;
  }

  lemma OwnIsOk(s: System, w: nat)
    requires Separated(s) && w in s.writers
    ensures OwnOk(s.db, s.writers[w]) && Fresh(s.db)
  {
    hide OwnOk, Faithful, ReaderOk, Fresh, NotOwned;
    assert WriterOk(s, s.writers[w]);
  }

  /** Some tables changed, and at most one writer with them. */
  lemma OthersStaySound(s: System, root: Id, db': Db, own: Id)
    requires SystemOk(s, root) && Ages(s.db, db', own)
    ensures db'.maxFileBytes == s.db.maxFileBytes
    ensures forall w :: w in s.writers && s.writers[w].generation != Some(own) ==> WriterSound(db', s.writers[w])
  {
    hide Inv, Separated, WriterSound, WellFound, OwnOk, Fresh;
    forall w | w in s.writers && s.writers[w].generation != Some(own) ensures WriterSound(db', s.writers[w]) {
      OwnIsOk(s, w);
      SoundAges(s.db, db', own, s.writers[w]);
    }
  }

  lemma OneGoesOn(s: System, root: Id, w: nat, db': Db, writer: Writer, own: Id)
    requires SystemOk(s, root) && w in s.writers && Ages(s.db, db', own) && Inv(db', root)
    requires own >= s.db.nextId || s.writers[w].generation == Some(own)
    requires WriterSound(db', writer) && Separated(s.(db := db', writers := s.writers[w := writer]))
    ensures SystemOk(s.(db := db', writers := s.writers[w := writer]), root)
  {
    hide Inv, Separated, WriterSound, WellFound, Ages;
    OthersStaySound(s, root, db', own);
    forall v | v in s.writers && v != w ensures s.writers[v].generation != Some(own) { OthersOwnOthers(s, w, v, own); }
  }

  lemma OthersOwnOthers(s: System, w: nat, v: nat, own: Id)
    requires Separated(s) && w in s.writers && v in s.writers && v != w
    requires own >= s.db.nextId || s.writers[w].generation == Some(own)
    ensures s.writers[v].generation != Some(own)
  {
    hide Faithful, ReaderOk, OwnOk, Fresh, NotOwned;
    if s.writers[v].generation.Some? { OwnIsKnown(s, v); }
  }

  lemma OneLeaves(s: System, root: Id, w: nat, db': Db, own: Id)
    requires SystemOk(s, root) && w in s.writers && Ages(s.db, db', own) && Inv(db', root)
    requires own >= s.db.nextId || s.writers[w].generation == Some(own)
    requires Separated(s.(db := db', writers := s.writers - {w}))
    ensures SystemOk(s.(db := db', writers := s.writers - {w}), root)
  {
    hide Inv, Separated, WriterSound, WellFound, Ages;
    OthersStaySound(s, root, db', own);
    forall v | v in s.writers && v != w ensures s.writers[v].generation != Some(own) { OthersOwnOthers(s, w, v, own); }
  }

  lemma PutRowsKeepsInv(db: Db, root: Id, g: Id, rows: Rows)
    requires Inv(db, root) && g in db.generations && Unreferenced(db.nodes, g)
    ensures Inv(PutRows(db, g, rows), root)
  {
    hide Sound, KindOk, TrashOk, AttributesOk, FeedOk;
    OtherGenerationsKeepFiles(db.nodes, db.generations, PutRows(db, g, rows).generations, db.maxFileBytes);
  }

  lemma DropKeepsInv(db: Db, root: Id, g: Id)
    requires Inv(db, root) && Unreferenced(db.nodes, g)
    ensures Inv(db.(generations := db.generations - {g}), root)
  {
    OtherGenerationsKeepFiles(db.nodes, db.generations, db.generations - {g}, db.maxFileBytes);
    hide Sound, FilesOk, TrashOk, AttributesOk, FeedOk;
  }

  // --- one event -------------------------------------------------------------

  lemma RequestedKeeps(s: System, root: Id, op: Operation, now: int)
    requires SystemOk(s, root) && After(s, Requested(op, now)).Some?
    ensures Inv(After(s, Requested(op, now)).value.db, root) <==> !HangsBelowItself(s.db, op)
    ensures !HangsBelowItself(s.db, op) ==> SystemOk(After(s, Requested(op, now)).value, root)
  {
    hide Inv, Apply, HangsBelowItself, Separated, WriterSound, WellFound, Ages;
    ApplyKeepsInvIff(s.db, root, op, now);
    RequestedSeparates(s, op, now);
    OthersStaySound(s, root, After(s, Requested(op, now)).value.db, s.db.nextId);
    forall w | w in s.writers ensures s.writers[w].generation != Some(s.db.nextId) { NextIdIsNew(s, w); }
  }

  lemma NextIdIsNew(s: System, w: nat)
    requires Separated(s) && w in s.writers
    ensures s.writers[w].generation != Some(s.db.nextId)
  {
    hide Faithful, ReaderOk, OwnOk, Fresh, NotOwned;
    if s.writers[w].generation.Some? { OwnIsKnown(s, w); }
  }

  lemma ResolvedIsWell(db: Db, root: Id, path: Segments)
    requires Inv(db, root) && ResolvedPrior(db, path).Some?
    ensures var p := ResolvedPrior(db, path).value;
            WellFound(p.size, p.rows, db.maxFileBytes) && FoundContent(p.size, p.rows) == FileContent(db, p.node)
  {
    hide Resolved, RowsOf, Flatten, Sound, TrashOk, AttributesOk, FeedOk;
    var x := ResolvedPrior(db, path).value.node;
    assert KindOk(db.nodes[x], db.generations, db.maxFileBytes);
  }

  lemma StartKeeps(s: System, root: Id, w: nat, path: Segments, create: bool, expected: Option<nat>)
    requires SystemOk(s, root) && w !in s.writers
    ensures SystemOk(s.(writers := s.writers[w := NewWriter(path, create, expected, None)]), root)
    ensures SystemOk(s.(writers := s.writers[w := NewWriter(path, create, expected, ResolvedPrior(s.db, path))]), root)
  {
    hide Inv, Separated, ResolvedPrior, WellFound;
    StartSeparates(s, w, path, create, expected);
    if ResolvedPrior(s.db, path).Some? { ResolvedIsWell(s.db, root, path); }
  }

  lemma OpenGenerationKeeps(s: System, root: Id, w: nat)
    requires SystemOk(s, root) && w in s.writers && s.writers[w].generation.None?
    ensures SystemOk(GenerationOpened(s, w), root)
  {
    hide Inv, Separated, WellFound, Ages;
    OpenGenerationSeparates(s, w);
    NoRows();
    StageKeepsInv(s.db, root, []);
    var s' := GenerationOpened(s, w);
    assert WriterSound(s.db, s.writers[w]);
    assert s'.db.generations[s.db.nextId].rows == RowsOf([]);
    OneGoesOn(s, root, w, s'.db, s'.writers[w], s.db.nextId);
  }

  lemma OwnRowsKeep(s: System, root: Id, w: nat, rows: Rows, writer: Writer)
    requires SystemOk(s, root) && Opened(s, w) && writer.prior == s.writers[w].prior &&
             writer.generation == s.writers[w].generation
    requires Separated(WithOwnRows(s, w, rows, writer))
    requires (!Gapped(writer) ==> |writer.content| <= s.db.maxFileBytes) &&
             (!writer.sealed ==> |writer.buffer| < CHUNK_SIZE)
    requires RowsMatch(rows, writer)
    ensures SystemOk(WithOwnRows(s, w, rows, writer), root)
  {
    hide Inv, Separated, WellFound, Ages, RowsMatch, Gapped;
    var g := s.writers[w].generation.value;
    OwnIsKnown(s, w);
    PutRowsAges(s.db, g, rows);
    PutRowsKeepsInv(s.db, root, g, rows);
    assert WriterSound(s.db, s.writers[w]);
    OneGoesOn(s, root, w, PutRows(s.db, g, rows), writer, g);
  }

  lemma OwnMatch(s: System, root: Id, w: nat)
    requires SystemOk(s, root) && Opened(s, w)
    ensures RowsMatch(OwnRows(s, w), s.writers[w])
    ensures !Gapped(s.writers[w]) ==> |s.writers[w].content| <= s.db.maxFileBytes
    ensures !s.writers[w].sealed ==> |s.writers[w].buffer| < CHUNK_SIZE
  {
    hide Inv, Separated, WellFound, RowsMatch, Gapped;
    assert WriterSound(s.db, s.writers[w]);
  }

  /** Taking in bytes neither makes a gap nor closes one. */
  lemma TakenMatch(rows: Rows, writer: Writer, bytes: Bytes, intended: Bytes)
    requires RowsMatch(rows, writer) && !writer.sealed && |writer.buffer| < CHUNK_SIZE
    ensures var writer' := TakenBy(writer, bytes, intended);
            RowsMatch(Flushed(rows, writer.next, writer.buffer + bytes), writer') &&
            (Gapped(writer') <==> Gapped(writer)) &&
            Length(writer') == Length(writer) + |bytes| && |writer'.buffer| < CHUNK_SIZE
  {
    hide RowsOf, Flushed, Rest;
    if Gapped(writer) {
      FlushedKeepsBelow(rows, writer.next, writer.buffer + bytes, 0);
    } else {
      SolidTakenMatch(rows, writer, bytes, intended);
    }
  }

  lemma SolidTakenMatch(rows: Rows, writer: Writer, bytes: Bytes, intended: Bytes)
    requires RowsMatch(rows, writer) && !writer.sealed && !Gapped(writer)
    ensures RowsMatch(Flushed(rows, writer.next, writer.buffer + bytes), TakenBy(writer, bytes, intended))
    ensures !Gapped(TakenBy(writer, bytes, intended))
  {
    hide RowsOf, Flushed, Rest;
    var pending := writer.buffer + bytes;
    var committed := writer.content[..writer.next * CHUNK_SIZE];
    FlushedLaysOut(committed, writer.next, pending);
    assert writer.content + bytes == committed + pending;
    CutBehind(committed, pending, ChunkIndexOf(|pending|) * CHUNK_SIZE);
  }

  lemma CutBehind(committed: Bytes, pending: Bytes, full: nat)
    requires full <= |pending|
    ensures (committed + pending)[..|committed| + full] == committed + pending[..full]
    ensures (committed + pending)[|committed| + full..] == pending[full..]
  {
  }

  lemma TakenKeeps(s: System, root: Id, w: nat, bytes: Bytes, intended: Bytes)
    requires SystemOk(s, root) && Staging(s, w) && Taken(s, w, bytes, intended).Some?
    requires Separated(Taken(s, w, bytes, intended).value)
    ensures SystemOk(Taken(s, w, bytes, intended).value, root)
  {
    hide SystemOk, Separated, RowsMatch, Flushed, Rest;
    var writer := s.writers[w];
    OwnMatch(s, root, w);
    TakenMatch(OwnRows(s, w), writer, bytes, intended);
    OwnRowsKeep(s, root, w, Flushed(OwnRows(s, w), writer.next, writer.buffer + bytes),
                TakenBy(writer, bytes, intended));
  }

  /** The bulk copy makes a gap exactly if the prior generation is gone. */
  lemma BulkMatch(s: System, root: Id, w: nat, n: nat)
    requires SystemOk(s, root) && MayBulkCopy(s, w, n)
    ensures var s' := BulkCopied(s, w, n);
            RowsMatch(OwnRows(s', w), s'.writers[w]) && !s'.writers[w].sealed && s'.writers[w].buffer == [] &&
            (Gapped(s'.writers[w]) <==> s.writers[w].prior.value.generation !in s.db.generations) &&
            (!Gapped(s'.writers[w]) ==> |s'.writers[w].content| <= s.db.maxFileBytes)
    ensures !Gapped(s.writers[w])
  {
    hide Inv, RowsOf, CopyChunkRange, Flatten, Separated, KindOk;
    OwnMatch(s, root, w);
    var writer, p := s.writers[w], s.writers[w].prior.value;
    assert writer.content == [] && OwnRows(s, w) == RowsOf([]) by {
      assert writer.next == 0 && writer.buffer == [];
      assert writer.content[..0] == [];
    }
    assert WellFound(p.size, p.rows, s.db.maxFileBytes) by { assert WriterSound(s.db, writer); }
    var content := FoundContent(p.size, p.rows);
    NoRows();
    assert OwnRows(BulkCopied(s, w, n), w) == CopyChunkRange(RowsNow(s.db, p.generation), map[], 0, n);
    if p.generation in s.db.generations {
      PriorRowsNow(s, w);
      BulkRows(content, n);
      FlattenPrefix(content, n);
      assert [] + Flatten(p.rows, n) == Flatten(p.rows, n) == content[..n * CHUNK_SIZE];
      var taken := BulkCopied(s, w, n).writers[w].content;
      assert taken[..n * CHUNK_SIZE] == taken && taken[n * CHUNK_SIZE..] == [];
    } else {
      NothingFound(n);
      NothingInRange(n);
    }
  }

  lemma NothingInRange(n: nat)
    ensures CopyChunkRange(map[], map[], 0, n) == map[]
  {
  }

  lemma PriorRowsNow(s: System, w: nat)
    requires Separated(s) && w in s.writers && s.writers[w].prior.Some? &&
             s.writers[w].prior.value.generation in s.db.generations
    ensures RowsNow(s.db, s.writers[w].prior.value.generation) == s.writers[w].prior.value.rows
  {
    hide Fresh, ReaderOk, OwnOk, NodeKept, NotOwned;
    assert WriterOk(s, s.writers[w]);
  }

  lemma BulkCopyKeeps(s: System, root: Id, w: nat, n: nat)
    requires SystemOk(s, root) && MayBulkCopy(s, w, n)
    ensures SystemOk(BulkCopied(s, w, n), root)
  {
    BulkMatch(s, root, w, n);
    hide SystemOk, Separated, RowsMatch, Gapped, Flatten, CopyChunkRange;
    SystemSeparated(s, root);
    BulkCopySeparates(s, w, n);
    var s' := BulkCopied(s, w, n);
    OwnRowsKeep(s, root, w, OwnRows(s', w), s'.writers[w]);
  }

  lemma SystemSeparated(s: System, root: Id)
    requires SystemOk(s, root)
    ensures Separated(s) && Inv(s.db, root)
  {
  }

  lemma SealedMatch(rows: Rows, writer: Writer)
    requires RowsMatch(rows, writer) && !writer.sealed && |writer.buffer| < CHUNK_SIZE
    ensures RowsMatch(Closed(rows, writer.next, writer.buffer), writer.(sealed := true))
  {
    hide RowsOf;
    if !Gapped(writer) {
      var committed := writer.content[..writer.next * CHUNK_SIZE];
      ClosedLaysOut(committed, writer.next, writer.buffer);
      assert committed + writer.buffer == writer.content;
    }
  }

  lemma SealKeeps(s: System, root: Id, w: nat)
    requires SystemOk(s, root) && Staging(s, w)
    ensures SystemOk(SealedNow(s, w), root)
  {
    hide SystemOk, Separated, RowsMatch;
    SystemSeparated(s, root);
    SealSeparates(s, w);
    OwnMatch(s, root, w);
    var writer := s.writers[w];
    SealedMatch(OwnRows(s, w), writer);
    OwnRowsKeep(s, root, w, Closed(OwnRows(s, w), writer.next, writer.buffer), writer.(sealed := true));
  }

  /** What a sealed writer without a gap holds. */
  lemma SealedHolds(s: System, root: Id, w: nat)
    requires SystemOk(s, root) && Sealed(s, w) && !Gapped(s.writers[w])
    ensures Holds(s.db, s.writers[w].generation.value, s.writers[w].content) &&
            |s.writers[w].content| <= s.db.maxFileBytes
    ensures Length(s.writers[w]) == |s.writers[w].content|
  {
    hide SystemOk, RowsOf, Separated, Unreferenced;
    SystemSeparated(s, root);
    OwnMatch(s, root, w);
    OwnIsKnown(s, w);
  }

  lemma FinalizeKeeps(s: System, root: Id, w: nat, now: int)
    requires SystemOk(s, root) && Sealed(s, w)
    requires !Gapped(s.writers[w]) || FinalizeStep(s, w, now).outcome.Failed?
    ensures SystemOk(Finalized(s, w, now), root)
  {
    hide SystemOk, Separated, Holds, Ages, Finalize, Gapped, Inv;
    SystemSeparated(s, root);
    FinalizeSeparates(s, w, now);
    var writer := s.writers[w];
    var g := writer.generation.value;
    if FinalizeStep(s, w, now).outcome.Failed? {
      Failures.FailedFinalize(s.db, writer.path, g, Length(writer), writer.create, writer.expected, now);
      assert Finalized(s, w, now) == s;
    } else {
      SealedHolds(s, root, w);
      FinalizeKeepsInv(s.db, root, writer.path, g, writer.content, writer.create, writer.expected, now);
      OneLeaves(s, root, w, FinalizeStep(s, w, now).db, g);
    }
  }

  /** A file without its first chunk, of at least the size of a chunk. */
  lemma GapIsNotOk(node: Node, g: Generation, maxFileBytes: nat)
    requires 0 !in g.rows && g.length >= CHUNK_SIZE
    ensures !FileOk(node, g, maxFileBytes)
  {
    if |ContentOf(g)| > 0 { FirstChunkIsThere(ContentOf(g)); }
  }

  lemma FirstChunkIsThere(content: Bytes)
    requires |content| > 0
    ensures 0 in RowsOf(content)
  {
    RowsKeys(content, NumChunks(|content|));
  }

  lemma NodesAreOk(db: Db, root: Id, x: Id)
    requires x in db.nodes
    ensures Inv(db, root) ==> KindOk(db.nodes[x], db.generations, db.maxFileBytes)
  {
    hide KindOk, Sound, TrashOk, AttributesOk, FeedOk;
  }

  lemma FinalizeAnswers(s: System, w: nat, now: int)
    requires Opened(s, w)
    ensures FinalizeStep(s, w, now).outcome.Done? || FinalizeStep(s, w, now).outcome.Failed?
  {
    hide Resolved, FinalizeNew, FinalizeExisting;
  }

  /** Who has the finalized generation afterwards. */
  lemma FinalizedFile(db: Db, path: Segments, g: Id, length: nat, create: bool, expected: Option<nat>, now: int)
    requires g in db.generations && Unreferenced(db.nodes, g) &&
             Finalize(db, path, g, length, create, expected, now).outcome.Done?
    ensures var r := Finalize(db, path, g, length, create, expected, now);
            var x := r.outcome.node;
            x in r.db.nodes && r.db.nodes[x].kind.File? && r.db.nodes[x].generation == Some(g) &&
            g in r.db.generations &&
            r.db.generations[g] == Generation(true, length, db.generations[g].rows)
  {
    hide Resolved;
  }

  lemma TearBreaks(s: System, root: Id, e: Event)
    requires SystemOk(s, root) && Tears(s, e)
    ensures !Inv(Finalized(s, e.w, e.now).db, root)
  {
    hide SystemOk, Separated, RowsOf, Finalize, Sound, TrashOk, AttributesOk, FeedOk, FileOk, Unreferenced;
    SystemSeparated(s, root);
    OwnMatch(s, root, e.w);
    OwnIsKnown(s, e.w);
    var writer := s.writers[e.w];
    FinalizedFile(s.db, writer.path, writer.generation.value, Length(writer), writer.create, writer.expected, e.now);
    var r := FinalizeStep(s, e.w, e.now);
    GapIsNotOk(r.db.nodes[r.outcome.node], r.db.generations[writer.generation.value], r.db.maxFileBytes);
    NodesAreOk(r.db, root, r.outcome.node);
  }

  lemma AbortKeeps(s: System, root: Id, w: nat)
    requires SystemOk(s, root) && w in s.writers
    ensures SystemOk(Aborted(s, w), root) && SystemOk(s.(writers := s.writers - {w}), root)
  {
    hide SystemOk, Separated, Inv, Ages, SameTrashings, Unreferenced;
    SystemSeparated(s, root);
    AbortSeparates(s, w);
    AgesSelf(s.db, s.db.nextId);
    OneLeaves(s, root, w, s.db, s.db.nextId);
    if s.writers[w].generation.Some? {
      var g := s.writers[w].generation.value;
      OwnIsKnown(s, w);
      DropKeepsInv(s.db, root, g);
      OneLeaves(s, root, w, s.db.(generations := s.db.generations - {g}), g);
    }
  }

  lemma OpenReadKeeps(s: System, root: Id, r: nat, path: Segments, lo: nat, hi: nat)
    requires SystemOk(s, root) && After(s, OpenRead(r, path, lo, hi)).Some?
    ensures SystemOk(After(s, OpenRead(r, path, lo, hi)).value, root)
  {
    hide Inv, Separated, ResolvedPrior, WellFound, WriterSound;
    OpenReadSeparates(s, r, path, lo, hi);
    ResolvedIsWell(s.db, root, path);
  }

  lemma PullKeeps(s: System, root: Id, r: nat)
    requires SystemOk(s, root) && After(s, Pull(r)).Some?
    ensures SystemOk(After(s, Pull(r)).value, root)
  {
    hide Inv, Separated, WellFound, WriterSound, PullPiece;
    PullSeparates(s, r);
  }

  /** One event leaves valid tables exactly if it does not break them. */
  lemma EventKeeps(s: System, root: Id, e: Event)
    requires SystemOk(s, root) && After(s, e).Some?
    ensures Inv(After(s, e).value.db, root) <==> !Breaks(s, e)
    ensures !Breaks(s, e) ==> SystemOk(After(s, e).value, root)
  {
    hide SystemOk, Separated, Inv, Apply, HangsBelowItself, Taken, Finalized, Aborted, SealedNow, Pulled;
    hide ResolvedPrior, CopiedPiece, BulkCopied;
    hide GenerationOpened, Gapped, FinalizeStep;
    SystemSeparated(s, root);
    EventSeparates(s, e);
    match e {
      case Requested(op, now) => RequestedKeeps(s, root, op, now);
      case StartWrite(w, path, create, expected) => StartKeeps(s, root, w, path, create, expected);
      case StartWriteAt(w, path, create, expected) => StartKeeps(s, root, w, path, create, expected);
      case OpenGeneration(w) => OpenGenerationKeeps(s, root, w);
      case TakeIn(w, bytes) => TakenKeeps(s, root, w, bytes, bytes);
      case BulkCopy(w, n) => BulkCopyKeeps(s, root, w, n);
      case CopyPiece(w, index, lo, hi) => CopyPieceKeeps(s, root, w, index, lo, hi);
      case Seal(w) => SealKeeps(s, root, w);
      case FinalizeNow(w, now) =>
        FinalizeAnswers(s, w, now);
        if Tears(s, e) { TearBreaks(s, root, e); } else { FinalizeKeeps(s, root, w, now); }
      case Abort(w) => AbortKeeps(s, root, w);
      case Vanish(w) => AbortKeeps(s, root, w);
      case OpenRead(r, path, lo, hi) => OpenReadKeeps(s, root, r, path, lo, hi);
      case Pull(r) => PullKeeps(s, root, r);
    }
    if !Breaks(s, e) { SystemSeparated(After(s, e).value, root); }
  }

  lemma CopyPieceKeeps(s: System, root: Id, w: nat, index: nat, lo: nat, hi: nat)
    requires SystemOk(s, root) && Staging(s, w) && s.writers[w].prior.Some? && CopiedPiece(s, w, index, lo, hi).Some?
    ensures SystemOk(CopiedPiece(s, w, index, lo, hi).value, root)
  {
    hide SystemOk, Separated, Taken, Piece;
    SystemSeparated(s, root);
    CopyPieceSeparates(s, w, index, lo, hi);
    var p := s.writers[w].prior.value;
    TakenKeeps(s, root, w, Piece(RowsNow(s.db, p.generation), index, lo, hi), Piece(p.rows, index, lo, hi));
  }
}
