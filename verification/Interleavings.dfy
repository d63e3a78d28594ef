/**
 What holds in every interleaving of writers, readers and other requests
 (crates/fslite-sqlite/src/content.rs): histories of the events of Writers.dfy.
 */
module Interleavings {
  import opened Common
  import opened Chunks
  import opened Plans
  import opened Paths
  import opened Tree
  import opened Resolve
  import opened Store
  import opened Operations
  import opened Safety
  import opened Runs
  import opened Aging
  import opened Writers
  import opened Gaps

  ghost predicate History(states: seq<System>, events: seq<Event>) {
    |states| == |events| + 1 && forall i :: 0 <= i < |events| ==> After(states[i], events[i]) == Some(states[i + 1])
  }

  lemma HistoryStep(states: seq<System>, events: seq<Event>, i: nat)
    requires History(states, events) && i < |events|
    ensures After(states[i], events[i]) == Some(states[i + 1])
  {
    hide After;
  }

  /** A system in which nothing is under way. */
  function Quiet(db: Db): System { System(db, map[], map[]) }

  /** A history that begins where nothing is under way. */
  ghost predicate Starts(states: seq<System>, events: seq<Event>) {
    History(states, events) && states[0] == Quiet(states[0].db) && Fresh(states[0].db)
  }

  /** The same, on valid tables. */
  ghost predicate StartsValid(states: seq<System>, events: seq<Event>, root: Id) {
    History(states, events) && states[0] == Quiet(states[0].db) && Inv(states[0].db, root)
  }

  lemma ValidStartsFresh(states: seq<System>, events: seq<Event>, root: Id)
    requires StartsValid(states, events, root)
    ensures Starts(states, events)
  {
    hide After, Inv, Fresh;
    InvIsFresh(states[0].db, root);
  }

  lemma {:induction false} HistorySeparates(states: seq<System>, events: seq<Event>, i: nat)
    requires Starts(states, events) && i < |states|
    ensures Separated(states[i])
  {
    hide After, Separated, Fresh;
    if i == 0 {
      QuietIsSeparated(states[0].db);
    } else {
      HistorySeparates(states, events, i - 1);
      HistoryStep(states, events, i - 1);
      EventSeparates(states[i - 1], events[i - 1]);
    }
  }

  lemma QuietIsSeparated(db: Db)
    requires Fresh(db)
    ensures Separated(Quiet(db))
  {
  }

  lemma {:induction false} HistorySucceeds(states: seq<System>, events: seq<Event>, i: nat, j: nat)
    requires Starts(states, events) && i <= j < |states|
    ensures Succeeds(states[i].db, states[j].db)
    decreases j
  {
    hide After, Separated, Fresh, Succeeds;
    if i == j {
      SucceedsSelf(states[i].db);
    } else {
      HistorySucceeds(states, events, i, j - 1);
      HistorySeparates(states, events, j - 1);
      HistoryStep(states, events, j - 1);
      EventSeparates(states[j - 1], events[j - 1]);
      SucceedsTwice(states[i].db, states[j - 1].db, states[j].db);
    }
  }

  /** Committed chunks never change: a complete generation is the same at every later moment, or gone. */
  lemma CommittedChunksNeverChange(states: seq<System>, events: seq<Event>, i: nat, j: nat, g: Id)
    requires Starts(states, events) && i <= j < |states|
    requires g in states[i].db.generations && states[i].db.generations[g].complete
    ensures g in states[j].db.generations ==> states[j].db.generations[g] == states[i].db.generations[g]
  {
    hide After, WriterOk, ReaderOk;
    HistorySucceeds(states, events, i, j);
    HistorySeparates(states, events, i);
  }

  // --- at most one commit per revision ---------------------------------------

  /** The event is the success of a writer on the existing node `x`, conditioned on revision `revision`. */
  ghost predicate CommitsOn(s: System, e: Event, x: Id, revision: nat) {
    e.FinalizeNow? && Sealed(s, e.w) && s.writers[e.w].expected == Some(revision) &&
    Resolved(s.db.nodes, s.writers[e.w].path) == Some(x) && FinalizeStep(s, e.w, e.now).outcome == Done(x)
  }

  lemma CommitBumps(s: System, e: Event, x: Id, revision: nat)
    requires Fresh(s.db) && CommitsOn(s, e, x, revision)
    ensures x in s.db.nodes && x < s.db.nextId && s.db.nodes[x].revision == revision
    ensures x in FinalizeStep(s, e.w, e.now).db.nodes &&
            FinalizeStep(s, e.w, e.now).db.nodes[x].revision == revision + 1
    ensures Finalized(s, e.w, e.now).db == FinalizeStep(s, e.w, e.now).db
  {
    hide Resolved;
  }

  /** Of all writers conditioned on one revision of a node at most one commits. */
  lemma AtMostOneCommits(states: seq<System>, events: seq<Event>, i: nat, j: nat, x: Id, revision: nat)
    requires Starts(states, events)
    requires i < |events| && j < |events| && CommitsOn(states[i], events[i], x, revision) &&
             CommitsOn(states[j], events[j], x, revision)
    ensures i == j
  {
    hide Fresh, CommitsOn, FinalizeStep, After;
    if i < j { CommitsOnce(states, events, i, j, x, revision); }
    if j < i { CommitsOnce(states, events, j, i, x, revision); }
  }

  lemma CommitsOnce(states: seq<System>, events: seq<Event>, i: nat, j: nat, x: Id, revision: nat)
    requires Starts(states, events) && i < j < |events| && CommitsOn(states[i], events[i], x, revision)
    ensures !CommitsOn(states[j], events[j], x, revision)
  {
    hide WriterOk, ReaderOk, Fresh, Apply, FinalizeStep;
    HistorySeparates(states, events, i);
    CommitBumps(states[i], events[i], x, revision);
    HistoryStep(states, events, i);
    HistorySucceeds(states, events, i, i + 1);
    HistorySucceeds(states, events, i + 1, j);
    HistorySeparates(states, events, j);
    if CommitsOn(states[j], events[j], x, revision) { CommitBumps(states[j], events[j], x, revision); }
  }

  // --- valid tables ----------------------------------------------------------

  ghost predicate NothingBreaks(states: seq<System>, events: seq<Event>, i: nat) {
    i <= |events| && i <= |states| && forall j :: 0 <= j < i ==> !Breaks(states[j], events[j])
  }

  lemma {:induction false} HistoryIsOk(states: seq<System>, events: seq<Event>, root: Id, i: nat)
    requires StartsValid(states, events, root) && i < |states| && NothingBreaks(states, events, i)
    ensures SystemOk(states[i], root)
  {
    hide Inv, After, Breaks;
    if i == 0 {
      ValidStartsFresh(states, events, root);
      QuietIsSeparated(states[0].db);
    } else {
      hide SystemOk;
      HistoryIsOk(states, events, root, i - 1);
      HistoryStep(states, events, i - 1);
      EventKeeps(states[i - 1], root, events[i - 1]);
    }
  }

  /** The tables are valid at every moment so far exactly if no event so far broke them. */
  lemma {:induction false} ValidUntilBroken(states: seq<System>, events: seq<Event>, root: Id, i: nat)
    requires StartsValid(states, events, root) && i < |states|
    ensures (forall j :: 0 <= j <= i ==> Inv(states[j].db, root)) <==> NothingBreaks(states, events, i)
  {
    hide Inv, After, Breaks, SystemOk;
    if i > 0 {
      ValidUntilBroken(states, events, root, i - 1);
      if NothingBreaks(states, events, i - 1) {
        HistoryIsOk(states, events, root, i - 1);
        HistoryStep(states, events, i - 1);
        EventKeeps(states[i - 1], root, events[i - 1]);
      }
    }
  }

  /** Writer `w` is there from event `k` on, up to state `i`. */
  ghost predicate Stays(states: seq<System>, w: nat, k: nat, i: nat) {
    k < i < |states| && forall j :: k < j <= i ==> w in states[j].writers
  }

  /** Event `k` was a bulk copy of writer `w`, and its prior generation had been deleted before. */
  ghost predicate LostBulk(states: seq<System>, events: seq<Event>, w: nat, k: nat, i: nat) {
    k < |events| && k < |states| && Stays(states, w, k, i) && events[k].BulkCopy? && events[k].w == w &&
    w in states[k].writers &&
    states[k].writers[w].prior.Some? && states[k].writers[w].prior.value.generation !in states[k].db.generations
  }

  lemma GapStep(s: System, root: Id, e: Event, w: nat)
    requires SystemOk(s, root) && After(s, e).Some? && w in After(s, e).value.writers
    ensures if w in s.writers then
              Gapped(After(s, e).value.writers[w]) <==>
              Gapped(s.writers[w]) ||
              (e.BulkCopy? && e.w == w && s.writers[w].prior.Some? &&
                  s.writers[w].prior.value.generation !in s.db.generations)
            else !Gapped(After(s, e).value.writers[w])
  {
    hide SystemOk, RowsMatch, Flushed, Rest, Apply, FinalizeStep, Resolved, ResolvedPrior, Pulled, Flatten;
    hide CopyChunkRange;
    match e
    case TakeIn(v, bytes) =>
      OwnMatch(s, root, v);
      TakenMatch(OwnRows(s, v), s.writers[v], bytes, bytes);
    case CopyPiece(v, index, lo, hi) => PieceMakesNoGap(s, root, v, index, lo, hi);
    case BulkCopy(v, n) => BulkMatch(s, root, v, n);
    case _ =>
  }

  lemma PieceMakesNoGap(s: System, root: Id, v: nat, index: nat, lo: nat, hi: nat)
    requires SystemOk(s, root) && Staging(s, v) && s.writers[v].prior.Some? && CopiedPiece(s, v, index, lo, hi).Some?
    ensures Gapped(CopiedPiece(s, v, index, lo, hi).value.writers[v]) <==> Gapped(s.writers[v])
  {
    hide SystemOk, RowsMatch, Flushed, Rest, Piece, Gapped;
    var p := s.writers[v].prior.value;
    OwnMatch(s, root, v);
    TakenMatch(OwnRows(s, v), s.writers[v], Piece(RowsNow(s.db, p.generation), index, lo, hi),
               Piece(p.rows, index, lo, hi));
  }

  /** A writer has a gap exactly if its bulk copy ran after its prior generation was deleted. */
  lemma {:induction false} GapIff(states: seq<System>, events: seq<Event>, root: Id, w: nat, i: nat)
    requires StartsValid(states, events, root) && i < |states| && NothingBreaks(states, events, i) &&
             w in states[i].writers
    ensures Gapped(states[i].writers[w]) <==> exists k: nat :: LostBulk(states, events, w, k, i)
  {
    hide Inv, After, Breaks, SystemOk, Gapped;
    if i > 0 {
      HistoryIsOk(states, events, root, i - 1);
      HistoryStep(states, events, i - 1);
      GapStep(states[i - 1], root, events[i - 1], w);
      if w in states[i - 1].writers {
        var earlier := i - 1;
        GapIff(states, events, root, w, earlier);
        if k: nat :| LostBulk(states, events, w, k, earlier) { assert LostBulk(states, events, w, k, i); }
        if k: nat :| LostBulk(states, events, w, k, i) {
          if k != earlier { assert LostBulk(states, events, w, k, earlier); }
        }
        if Gapped(states[i].writers[w]) && !Gapped(states[i - 1].writers[w]) {
          assert LostBulk(states, events, w, earlier, i);
        }
      }
    }
  }

  /** Event `j` commits a writer whose bulk copy found its prior generation deleted. */
  ghost predicate TornCommit(states: seq<System>, events: seq<Event>, j: nat) {
    j < |events| && j < |states| && events[j].FinalizeNow? && Sealed(states[j], events[j].w) &&
    FinalizeStep(states[j], events[j].w, events[j].now).outcome.Done? &&
    exists k: nat :: LostBulk(states, events, events[j].w, k, j)
  }

  ghost predicate HangingMove(states: seq<System>, events: seq<Event>, j: nat) {
    j < |events| && j < |states| && events[j].Requested? && HangsBelowItself(states[j].db, events[j].op)
  }

  /**
   In every interleaving the tables stay valid exactly if no writer commits after a bulk
   copy for which its prior generation was already deleted, and no move hangs a node
   below itself.
   */
  lemma {:induction false} TablesStayValidIff(states: seq<System>, events: seq<Event>, root: Id, i: nat)
    requires StartsValid(states, events, root) && i < |states|
    ensures (forall j :: 0 <= j <= i ==> Inv(states[j].db, root)) <==>
            (forall j: nat :: j < i ==> !TornCommit(states, events, j) && !HangingMove(states, events, j))
  {
    hide Inv, After, SystemOk, Gapped, HangsBelowItself, FinalizeStep, LostBulk;
    ValidUntilBroken(states, events, root, i);
    if i > 0 {
      TablesStayValidIff(states, events, root, i - 1);
      ValidUntilBroken(states, events, root, i - 1);
      if NothingBreaks(states, events, i - 1) {
        var e := events[i - 1];
        if e.FinalizeNow? && Sealed(states[i - 1], e.w) { GapIff(states, events, root, e.w, i - 1); }
        assert Breaks(states[i - 1], e) <==> TornCommit(states, events, i - 1) || HangingMove(states, events, i - 1);
      }
    }
  }

  // --- read streams ----------------------------------------------------------

  /** A pull that finds its generation deleted and so misses a piece of its range. */
  ghost predicate PullMisses(s: System, e: Event, r: nat) {
    e.Pull? && e.r == r && r in s.readers && s.readers[r].generation !in s.db.generations &&
    PullPiece(s.readers[r].rows, s.readers[r].start, s.readers[r].last, s.readers[r].current) != []
  }

  /** What a stream is to deliver before its next chunk. */
  function Due(r: Reader): Bytes { Stream(r.rows, r.start, r.last, r.current) }

  lemma ReaderStep(s: System, e: Event, r: nat)
    requires Separated(s) && After(s, e).Some? && r in After(s, e).value.readers
    ensures var after := After(s, e).value.readers[r];
            if r in s.readers then after.delivered == Due(after) <==>
                s.readers[r].delivered == Due(s.readers[r]) && !PullMisses(s, e, r)
            else after.delivered == Due(after)
  {
    hide Apply, FinalizeStep, Resolved, ResolvedPrior, Pulled, Flatten, Flushed, Rest, PullPiece, WriterOk;
    hide CopyChunkRange, Piece, Fresh;
    if e.Pull? {
      PulledIsOk(s.db, s.readers[e.r]);
      PulledSame(s.db, s.readers[e.r]);
    }
  }

  /**
   In every interleaving a stream has delivered all that was due exactly if none of its pulls found its generation
   deleted.
   */
  lemma {:induction false} ReadIsWholeIff(states: seq<System>, events: seq<Event>, r: nat, i: nat)
    requires Starts(states, events) && i < |states| && r in states[i].readers
    ensures states[i].readers[r].delivered <= Due(states[i].readers[r])
    ensures states[i].readers[r].delivered == Due(states[i].readers[r]) <==>
            !exists k :: 0 <= k < i && PullMisses(states[k], events[k], r)
  {
    hide After, Separated, Fresh, PullMisses;
    HistorySeparates(states, events, i);
    ReaderHasPrefix(states[i], r);
    if i > 0 {
      HistorySeparates(states, events, i - 1);
      HistoryStep(states, events, i - 1);
      ReaderStep(states[i - 1], events[i - 1], r);
      if r in states[i - 1].readers {
        ReadIsWholeIff(states, events, r, i - 1);
      } else {
        NotOpenedBefore(states, events, r, i - 1);
      }
    }
  }

  lemma ReaderHasPrefix(s: System, r: nat)
    requires Separated(s) && r in s.readers
    ensures s.readers[r].delivered <= Due(s.readers[r])
  {
    hide WriterOk, Fresh, NotOwned, Writers.Kept;
  }

  /** Readers do not leave, so one that is not there was never there. */
  lemma {:induction false} NotOpenedBefore(states: seq<System>, events: seq<Event>, r: nat, i: nat)
    requires History(states, events) && i < |states| && r !in states[i].readers
    ensures forall k :: 0 <= k <= i && k < |events| ==> !PullMisses(states[k], events[k], r)
  {
    hide After;
    if i > 0 {
      HistoryStep(states, events, i - 1);
      ReadersStay(states[i - 1], events[i - 1]);
      NotOpenedBefore(states, events, r, i - 1);
    }
  }

  lemma ReadersStay(s: System, e: Event)
    requires After(s, e).Some?
    ensures s.readers.Keys <= After(s, e).value.readers.Keys
  {
    hide Apply, FinalizeStep, Resolved, ResolvedPrior, Pulled, Flatten, Flushed, Rest, CopyChunkRange, Piece;
  }

  /** On a layout, what a stream is to deliver is the requested range of the content, chunk by chunk. */
  lemma {:induction false} StreamIsSlice(content: Bytes, start: nat, last: nat, upto: nat)
    requires start <= last < |content| && ChunkIndexOf(start) <= upto <= ChunkIndexOf(last) + 1
    ensures start <= PieceStart(start, last + 1, upto) <= last + 1
    ensures Stream(RowsOf(content), start, last, upto) == content[start..PieceStart(start, last + 1, upto)]
    ensures upto == ChunkIndexOf(last) + 1 ==> PieceStart(start, last + 1, upto) == last + 1
    decreases upto
  {
    hide RowsOf, Cut, Chunk, ChunkIndexOf, ChunkLocalOffset, Fetch;
    if upto > ChunkIndexOf(start) {
      StreamIsSlice(content, start, last, upto - 1);
      FetchIsChunk(content, upto - 1);
      PieceOfChunk(content, start, last + 1, upto - 1);
      SliceJoin(content, start, PieceStart(start, last + 1, upto - 1), PieceStart(start, last + 1, upto));
    } else {
      StartsAtStart(start, last);
    }
  }

  lemma StartsAtStart(start: nat, last: nat)
    requires start <= last
    ensures PieceStart(start, last + 1, ChunkIndexOf(start)) == start && ChunkIndexOf(start) <= ChunkIndexOf(last)
  {
  }

  /**
   While nothing has broken the tables, a stream delivers the range it asked for, of the
   revision it opened: always a prefix of it, and all of it at the end exactly if no pull
   found the generation deleted.
   */
  lemma ReadersSeeOneRevision(states: seq<System>, events: seq<Event>, root: Id, i: nat, r: nat)
    requires StartsValid(states, events, root) && i < |states| && NothingBreaks(states, events, i) &&
             r in states[i].readers
    ensures var reader := states[i].readers[r];
            var content := FoundContent(reader.size, reader.rows);
            reader.start <= reader.last < |content| && reader.delivered <= content[reader.start..reader.last + 1] &&
            (reader.current == ChunkIndexOf(reader.last) + 1 ==>
              (reader.delivered == content[reader.start..reader.last + 1] <==>
               !exists k :: 0 <= k < i && PullMisses(states[k], events[k], r)))
  {
    hide After, Inv, Breaks, Separated, WriterSound, PullMisses, Stream, RowsOf, Flatten, ChunkIndexOf;
    HistoryIsOk(states, events, root, i);
    ValidStartsFresh(states, events, root);
    ReadIsWholeIff(states, events, r, i);
    var reader := states[i].readers[r];
    ReaderInRange(states[i], r);
    var content := FoundContent(reader.size, reader.rows);
    StreamIsSlice(content, reader.start, reader.last, reader.current);
    SliceOfRange(content, reader.start, PieceStart(reader.start, reader.last + 1, reader.current), reader.last + 1);
  }

  lemma SliceOfRange(content: Bytes, lo: nat, mid: nat, hi: nat)
    requires lo <= mid <= hi <= |content|
    ensures content[lo..mid] <= content[lo..hi]
  {
    assert content[lo..mid] == content[lo..hi][..mid - lo];
  }

  lemma ReaderInRange(s: System, r: nat)
    requires Separated(s) && r in s.readers
    ensures var reader := s.readers[r];
            reader.start <= reader.last < reader.size &&
                ChunkIndexOf(reader.start) <= reader.current <= ChunkIndexOf(reader.last) + 1
  {
    hide WriterOk, Fresh, NotOwned, Writers.Kept;
  }

  // --- the calls of one writer in a history ----------------------------------

  /** What writer `w` asks for at event `e`, if anything. */
  function TakeAt(e: Event, w: nat): seq<Take> {
    match e
    case TakeIn(v, bytes) => if v == w then [New(bytes)] else []
    case BulkCopy(v, n) => if v == w then [Bulk(n)] else []
    case CopyPiece(v, index, lo, hi) => if v == w then [Old(index, lo, hi)] else []
    case _ => []
  }

  function TakesOf(events: seq<Event>, w: nat): seq<Take> {
    if events == [] then [] else TakesOf(events[..|events| - 1], w) + TakeAt(events[|events| - 1], w)
  }

  function PriorRows(writer: Writer): Rows { if writer.prior.Some? then writer.prior.value.rows else map[] }

  /** What a call finds at the moment it runs. */
  function FoundNow(s: System, w: nat, t: Take): Bytes
    requires w in s.writers
  {
    if t.New? || s.writers[w].prior.None? then Meant(map[], t)
        else Meant(RowsNow(s.db, s.writers[w].prior.value.generation), t)
  }

  /** A copy that finds its prior generation deleted and so misses bytes. */
  ghost predicate CopyMisses(s: System, e: Event, w: nat) {
    |TakeAt(e, w)| == 1 && !TakeAt(e, w)[0].New? && w in s.writers && s.writers[w].prior.Some? &&
    s.writers[w].prior.value.generation !in s.db.generations &&
    Meant(s.writers[w].prior.value.rows, TakeAt(e, w)[0]) != []
  }

  /** An event in which `w` takes in nothing. */
  lemma WriterUntouched(s: System, e: Event, w: nat)
    requires After(s, e).Some? && w in s.writers && w in After(s, e).value.writers && TakeAt(e, w) == []
    ensures var a, b := s.writers[w], After(s, e).value.writers[w];
            b.prior == a.prior && b.content == a.content && b.intended == a.intended
  {
    hide Apply, FinalizeStep, Resolved, ResolvedPrior, Pulled, Flatten, Flushed, Rest, CopyChunkRange, Piece;
  }

  /** An event in which it takes in what it finds. */
  lemma WriterTouched(s: System, e: Event, w: nat)
    requires After(s, e).Some? && TakeAt(e, w) != []
    ensures w in s.writers && w in After(s, e).value.writers && |TakeAt(e, w)| == 1
    ensures var a, b, t := s.writers[w], After(s, e).value.writers[w], TakeAt(e, w)[0];
            b.prior == a.prior && b.content == a.content + FoundNow(s, w, t) &&
            b.intended == a.intended + Meant(PriorRows(a), t) &&
            (!t.New? ==> a.prior.Some?)
  {
    hide Flatten, Flushed, Rest, CopyChunkRange, Piece;
  }

  lemma TakesJoin(events: seq<Event>, e: Event, w: nat)
    ensures TakesOf(events + [e], w) == TakesOf(events, w) + TakeAt(e, w)
  {
    hide TakeAt;
    assert (events + [e])[..|events|] == events;
  }

  lemma IntendedStep(s: System, e: Event, w: nat)
    requires After(s, e).Some? && w in s.writers && w in After(s, e).value.writers
    ensures var a, b := s.writers[w], After(s, e).value.writers[w];
            b.prior == a.prior && b.intended == a.intended + AllMeant(PriorRows(a), TakeAt(e, w))
  {
    hide After, AllMeant, Meant, TakeAt;
    var a := s.writers[w];
    if TakeAt(e, w) == [] {
      WriterUntouched(s, e, w);
      NothingMeant(PriorRows(a));
      assert a.intended + [] == a.intended;
    } else {
      WriterTouched(s, e, w);
      OneMeant(PriorRows(a), TakeAt(e, w)[0]);
      assert TakeAt(e, w) == [TakeAt(e, w)[0]];
    }
  }

  lemma StartedWriter(s: System, e: Event, w: nat)
    requires After(s, e).Some? && e.StartWriteAt? && e.w == w
    ensures w in After(s, e).value.writers
    ensures var writer := After(s, e).value.writers[w];
            writer.prior == ResolvedPrior(s.db, e.path) && writer.intended == []
  {
    hide ResolvedPrior, Resolved;
  }

  lemma {:induction false} IntendedIsMeant(states: seq<System>, events: seq<Event>, w: nat, k: nat, i: nat)
    requires History(states, events) && Stays(states, w, k, i) && events[k].StartWriteAt? && events[k].w == w
    ensures var writer := states[i].writers[w];
            writer.prior == ResolvedPrior(states[k].db, events[k].path) &&
            writer.intended == AllMeant(PriorRows(writer), TakesOf(events[k + 1..i], w))
    decreases i
  {
    hide After, AllMeant, ResolvedPrior, TakeAt;
    HistoryStep(states, events, i - 1);
    if i == k + 1 {
      StartedWriter(states[k], events[k], w);
      assert events[k + 1..i] == [];
      NothingMeant(PriorRows(states[i].writers[w]));
    } else {
      IntendedIsMeant(states, events, w, k, i - 1);
      IntendedStep(states[i - 1], events[i - 1], w);
      NextTake(events, w, k + 1, i);
      MeantJoin(PriorRows(states[i].writers[w]), TakesOf(events[k + 1..i - 1], w), TakeAt(events[i - 1], w));
    }
  }

  // --- torn content ----------------------------------------------------------

  lemma MissStep(s: System, e: Event, w: nat)
    requires Separated(s) && After(s, e).Some? && w in s.writers && w in After(s, e).value.writers
    ensures var a, b := s.writers[w], After(s, e).value.writers[w];
            b.content == b.intended <==> a.content == a.intended && !CopyMisses(s, e, w)
  {
    hide After, Separated, Meant;
    var a := s.writers[w];
    if TakeAt(e, w) == [] {
      WriterUntouched(s, e, w);
    } else {
      WriterTouched(s, e, w);
      hide TakeAt;
      var t := TakeAt(e, w)[0];
      WriterIsFaithful(s, w);
      if !t.New? { CopyFinds(s, w, t); } else { NewIsNew(PriorRows(a), t); }
      FaithfulGoesOn(s.db, a, After(s, e).value.writers[w], FoundNow(s, w, t), Meant(PriorRows(a), t));
    }
  }

  lemma NewIsNew(rows: Rows, t: Take)
    requires t.New?
    ensures Meant(rows, t) == Meant(map[], t) == t.bytes
  {
  }

  lemma WriterIsFaithful(s: System, w: nat)
    requires Separated(s) && w in s.writers
    ensures Faithful(s.db, s.writers[w])
  {
    hide Faithful, OwnOk, ReaderOk, Fresh, NotOwned;
    assert WriterOk(s, s.writers[w]);
  }

  /** Event `k` was a copy of writer `w` that missed bytes. */
  ghost predicate MissedCopy(states: seq<System>, events: seq<Event>, w: nat, k: nat, i: nat) {
    k < |events| && k < |states| && Stays(states, w, k, i) && CopyMisses(states[k], events[k], w)
  }

  lemma NewWriterIsWhole(s: System, e: Event, w: nat)
    requires After(s, e).Some? && w !in s.writers && w in After(s, e).value.writers
    ensures var b := After(s, e).value.writers[w]; b.content == b.intended == []
  {
    hide Apply, FinalizeStep, Resolved, ResolvedPrior, Pulled, Flatten, Flushed, Rest, CopyChunkRange, Piece;
  }

  /**
   In every interleaving a writer holds all the bytes it meant to take in exactly if each
   of its copies so far found its prior generation, or meant to copy nothing.
   */
  lemma {:induction false} NothingIsMissedIff(states: seq<System>, events: seq<Event>, w: nat, i: nat)
    requires Starts(states, events) && i < |states| && w in states[i].writers
    ensures states[i].writers[w].content == states[i].writers[w].intended <==>
            !exists k: nat :: MissedCopy(states, events, w, k, i)
  {
    hide After, Separated, Fresh, CopyMisses;
    if i > 0 {
      HistorySeparates(states, events, i - 1);
      HistoryStep(states, events, i - 1);
      if w in states[i - 1].writers {
        var earlier := i - 1;
        NothingIsMissedIff(states, events, w, earlier);
        MissStep(states[i - 1], events[i - 1], w);
        if k: nat :| MissedCopy(states, events, w, k, earlier) { assert MissedCopy(states, events, w, k, i); }
        if k: nat :| MissedCopy(states, events, w, k, i) {
          if k != earlier { assert MissedCopy(states, events, w, k, earlier); }
        }
        if CopyMisses(states[i - 1], events[i - 1], w) { assert MissedCopy(states, events, w, earlier, i); }
      } else {
        NewWriterIsWhole(states[i - 1], events[i - 1], w);
        NotThereMissesNothing(states[i - 1], events[i - 1], w);
      }
    }
  }

  lemma NotThereMissesNothing(s: System, e: Event, w: nat)
    requires w !in s.writers
    ensures !CopyMisses(s, e, w)
  {
  }

  // --- what a commit contains ------------------------------------------------

  /** A successful finalizing transaction gives the node exactly the bytes its writer took in. */
  lemma FinalizedContent(s: System, w: nat, now: int)
    requires Separated(s) && Sealed(s, w) && FinalizeStep(s, w, now).outcome.Done?
    ensures var r := FinalizeStep(s, w, now);
            r.outcome.node in r.db.nodes && FileContent(r.db, r.outcome.node) == s.writers[w].content
  {
    hide Separated, Resolved, Unreferenced, Finalize, Flatten;
    OwnIsKnown(s, w);
    var writer := s.writers[w];
    FinalizedFile(s.db, writer.path, writer.generation.value, Length(writer), writer.create, writer.expected, now);
  }

  /** A positional write holds what it meant to, and has no gap, if the node still has the revision it read. */
  lemma CommitIsIntact(s: System, root: Id, w: nat)
    requires Separated(s) && Inv(s.db, root) && w in s.writers && s.writers[w].prior.Some?
    requires var p := s.writers[w].prior.value; p.node in s.db.nodes && s.db.nodes[p.node].revision == p.revision
    ensures s.writers[w].content == s.writers[w].intended && s.writers[w].prior.value.generation in s.db.generations
  {
    hide RowsOf, Sound, TrashOk, AttributesOk, FeedOk, Separated;
    WriterIsFaithful(s, w);
    GenerationOfFile(s.db.nodes, s.db.generations, s.db.maxFileBytes, s.writers[w].prior.value.node);
  }

  /** So a write conditioned on the revision it read never commits torn content on the node that it read. */
  lemma PinnedWriteIsIntact(s: System, root: Id, e: Event, x: Id, revision: nat)
    requires Separated(s) && Inv(s.db, root) && CommitsOn(s, e, x, revision)
    requires var p := s.writers[e.w].prior; p.Some? && p.value.node == x && p.value.revision == revision
    ensures s.writers[e.w].content == s.writers[e.w].intended
  {
    hide WriterOk, ReaderOk, FinalizeStep, Inv;
    CommitBumps(s, e, x, revision);
    CommitIsIntact(s, root, e.w);
  }

  lemma BulkWasFirst(s: System, e: Event)
    requires After(s, e).Some? && e.BulkCopy?
    ensures MayBulkCopy(s, e.w, e.n)
  {
  }

  // --- a positional write, whatever runs between its calls -------------------

  /** The bytes of the file that a positional writer read; none if there was no file. */
  function PriorContent(writer: Writer): Bytes {
    if writer.prior.Some? then FoundContent(writer.prior.value.size, writer.prior.value.rows) else []
  }

  /** They were laid out in full chunks. */
  ghost predicate PriorLaidOut(writer: Writer) {
    PriorRows(writer) == RowsOf(PriorContent(writer)) &&
    (writer.prior.Some? ==> writer.prior.value.size == |PriorContent(writer)|)
  }

  lemma ReadOnValidTables(s: System, root: Id, e: Event, w: nat)
    requires Inv(s.db, root) && After(s, e).Some? && e.StartWriteAt? && e.w == w
    ensures w in After(s, e).value.writers && PriorLaidOut(After(s, e).value.writers[w])
  {
    hide Inv, ResolvedPrior, Resolved, Flatten;
    NoRows();
    if ResolvedPrior(s.db, e.path).Some? { ResolvedIsWell(s.db, root, e.path); }
  }

  /** What a bulk copy means on a layout: so many bytes. */
  lemma BulkIsFull(s: System, w: nat, n: nat)
    requires MayBulkCopy(s, w, n) && PriorLaidOut(s.writers[w])
    ensures |Meant(PriorRows(s.writers[w]), Bulk(n))| == n * CHUNK_SIZE
  {
    hide RowsOf, Flatten;
    FlattenPrefix(PriorContent(s.writers[w]), n);
  }

  /** How the length and the content of a writer grow together. */
  lemma LengthStep(s: System, e: Event, w: nat)
    requires After(s, e).Some? && w in s.writers && w in After(s, e).value.writers
    ensures var a, b := s.writers[w], After(s, e).value.writers[w];
            Length(b) - Length(a) == if e.BulkCopy? && e.w == w then e.n * CHUNK_SIZE else |b.content| - |a.content|
  {
    hide Apply, FinalizeStep, Resolved, ResolvedPrior, Pulled, Flatten, Flushed, Rest, CopyChunkRange, Piece;
  }

  /** A positional writer begun by event `k`, on tables that were valid then. */
  ghost predicate Writing(states: seq<System>, events: seq<Event>, root: Id, w: nat, k: nat, i: nat) {
    Starts(states, events) && Stays(states, w, k, i) && events[k].StartWriteAt? && events[k].w == w &&
    Inv(states[k].db, root)
  }

  lemma WritingEarlier(states: seq<System>, events: seq<Event>, root: Id, w: nat, k: nat, m: nat, i: nat)
    requires Writing(states, events, root, w, k, i) && k < m <= i
    ensures Writing(states, events, root, w, k, m)
  {
    hide After, Fresh, Inv;
  }

  lemma {:induction false} PriorStaysLaidOut(states: seq<System>, events: seq<Event>, root: Id, w: nat, k: nat, i: nat)
    requires Writing(states, events, root, w, k, i)
    ensures PriorLaidOut(states[i].writers[w]) && states[i].writers[w].prior == states[k + 1].writers[w].prior
    decreases i
  {
    hide After, Fresh, Inv, PriorLaidOut;
    HistoryStep(states, events, i - 1);
    if i == k + 1 {
      ReadOnValidTables(states[k], root, events[k], w);
    } else {
      WritingEarlier(states, events, root, w, k, i - 1, i);
      PriorStaysLaidOut(states, events, root, w, k, i - 1);
      IntendedStep(states[i - 1], events[i - 1], w);
      SamePriorLaidOut(states[i - 1].writers[w], states[i].writers[w]);
    }
  }

  lemma SamePriorLaidOut(a: Writer, b: Writer)
    requires PriorLaidOut(a) && a.prior == b.prior
    ensures PriorLaidOut(b)
  {
  }

  /** As long as it has missed nothing, its length is that of the bytes it has taken in. */
  lemma {:induction false} WholeLength(states: seq<System>, events: seq<Event>, root: Id, w: nat, k: nat, i: nat)
    requires Writing(states, events, root, w, k, i) && states[i].writers[w].content == states[i].writers[w].intended
    ensures Length(states[i].writers[w]) == |states[i].writers[w].content|
    decreases i
  {
    hide After, Fresh, Inv, PriorLaidOut, Separated, Length;
    HistoryStep(states, events, i - 1);
    var s, e := states[i - 1], events[i - 1];
    if i == k + 1 {
      StartsEmpty(s, e, w);
    } else {
      WritingEarlier(states, events, root, w, k, i - 1, i);
      HistorySeparates(states, events, i - 1);
      MissStep(s, e, w);
      WholeLength(states, events, root, w, k, i - 1);
      LengthStep(s, e, w);
      if e.BulkCopy? && e.w == w {
        PriorStaysLaidOut(states, events, root, w, k, i - 1);
        BulkFindsAll(s, e, w);
      }
    }
  }

  lemma StartsEmpty(s: System, e: Event, w: nat)
    requires After(s, e).Some? && e.StartWriteAt? && e.w == w
    ensures w in After(s, e).value.writers && Length(After(s, e).value.writers[w]) ==
            |After(s, e).value.writers[w].content| == 0
  {
    hide ResolvedPrior, Resolved;
  }

  /** A bulk copy that misses nothing takes in as many bytes as the length counts. */
  lemma BulkFindsAll(s: System, e: Event, w: nat)
    requires Separated(s) && After(s, e).Some? && w in s.writers && w in After(s, e).value.writers && e.BulkCopy? &&
             e.w == w
    requires PriorLaidOut(s.writers[w]) && !CopyMisses(s, e, w)
    ensures |After(s, e).value.writers[w].content| - |s.writers[w].content| == e.n * CHUNK_SIZE
  {
    hide Separated, Meant, PriorLaidOut;
    BulkWasFirst(s, e);
    WriterTouched(s, e, w);
    hide After;
    BulkIsFull(s, w, e.n);
    CopyFinds(s, w, Bulk(e.n));
  }

  /** Once its prior generation is gone, copies find nothing and the content stands still. */
  lemma {:induction false} NothingIsFoundLater(states: seq<System>, events: seq<Event>, w: nat, m: nat, i: nat)
    requires Starts(states, events) && m <= i < |states| && forall j :: m <= j <= i ==> w in states[j].writers
    requires states[m].writers[w].content != states[m].writers[w].intended
    requires forall t :: t in TakesOf(events[m..i], w) ==> t.Old?
    ensures states[i].writers[w].content == states[m].writers[w].content &&
            states[i].writers[w].content != states[i].writers[w].intended
    decreases i
  {
    hide After, Fresh, Separated, TakeAt;
    if m < i {
      HistorySeparates(states, events, i - 1);
      HistoryStep(states, events, i - 1);
      NextTake(events, w, m, i);
      NothingIsFoundLater(states, events, w, m, i - 1);
      MissStep(states[i - 1], events[i - 1], w);
      LateCopyIsEmpty(states[i - 1], events[i - 1], w);
    }
  }

  lemma LateCopyIsEmpty(s: System, e: Event, w: nat)
    requires Separated(s) && After(s, e).Some? && w in s.writers && w in After(s, e).value.writers
    requires s.writers[w].content != s.writers[w].intended && forall t :: t in TakeAt(e, w) ==> t.Old?
    ensures After(s, e).value.writers[w].content == s.writers[w].content
  {
    hide After, Separated, Meant, TakeAt;
    if TakeAt(e, w) == [] {
      WriterUntouched(s, e, w);
    } else {
      WriterTouched(s, e, w);
      var t := TakeAt(e, w)[0];
      assert t.Old?;
      WriterIsFaithful(s, w);
      CopyFinds(s, w, t);
      assert s.writers[w].content + [] == s.writers[w].content;
    }
  }

  /**
   The calls of `write_at_impl`, in a history: up to moment `m` the prefix, the gap and
   the data; from then on the suffix, which begins at the length reached at `m`.
   */
  ghost predicate WritesAt(states: seq<System>, events: seq<Event>, w: nat, k: nat, m: nat, i: nat, offset: nat,
                           data: Bytes, preserve: bool)
    requires k < m <= i < |states| && |states| == |events| + 1 && w in states[m].writers
  {
    var length := |PriorContent(states[m].writers[w])|;
    BeginsPlan(length, TakesOf(events[k + 1..m], w), offset, data) &&
    TakesOf(events[m..i], w) == SuffixPlan(length, Length(states[m].writers[w]), preserve)
  }

  lemma {:induction false} TakesSplit(events: seq<Event>, w: nat, k: nat, m: nat, i: nat)
    requires k <= m <= i <= |events|
    ensures TakesOf(events[k..i], w) == TakesOf(events[k..m], w) + TakesOf(events[m..i], w)
    decreases i
  {
    hide TakesOf;
    if m == i {
      assert events[m..i] == [];
      TakesNothing(w);
    } else {
      var last := events[i - 1];
      TakesSplit(events, w, k, m, i - 1);
      NextTake(events, w, k, i);
      NextTake(events, w, m, i);
      assert TakesOf(events[k..m], w) + (TakesOf(events[m..i - 1], w) + TakeAt(last, w)) ==
             (TakesOf(events[k..m], w) + TakesOf(events[m..i - 1], w)) + TakeAt(last, w);
    }
  }

  lemma TakesNothing(w: nat)
    ensures TakesOf([], w) == []
  {
  }

  lemma NextTake(events: seq<Event>, w: nat, k: nat, i: nat)
    requires k < i <= |events|
    ensures TakesOf(events[k..i], w) == TakesOf(events[k..i - 1], w) + TakeAt(events[i - 1], w)
  {
    hide TakeAt;
    assert events[k..i] == events[k..i - 1] + [events[i - 1]];
    TakesJoin(events[k..i - 1], events[i - 1], w);
  }

  /** What it meant to take in before its suffix has the length of prefix, gap and data. */
  lemma HeadLength(states: seq<System>, events: seq<Event>, root: Id, w: nat, k: nat, m: nat, offset: nat, data: Bytes)
    requires Writing(states, events, root, w, k, m)
    requires BeginsPlan(|PriorContent(states[m].writers[w])|, TakesOf(events[k + 1..m], w), offset, data)
    ensures |states[m].writers[w].intended| == offset + |data|
  {
    hide After, Fresh, Inv, BeginsPlan, AllMeant, TakesOf, RowsOf, Flatten;
    PriorStaysLaidOut(states, events, root, w, k, m);
    IntendedIsMeant(states, events, w, k, m);
    HeadMeant(PriorContent(states[m].writers[w]), TakesOf(events[k + 1..m], w), offset, data);
  }

  /** If nothing was missed before the suffix, the writer means to take in the prior bytes, edited. */
  lemma WholeHeadMeansStaged(states: seq<System>, events: seq<Event>, root: Id, w: nat, k: nat, m: nat, i: nat,
                             offset: nat, data: Bytes, preserve: bool)
    requires Writing(states, events, root, w, k, i) && k < m <= i &&
             WritesAt(states, events, w, k, m, i, offset, data, preserve)
    requires states[m].writers[w].content == states[m].writers[w].intended
    ensures states[i].writers[w].intended == Staged(PriorContent(states[m].writers[w]), offset, data, preserve)
  {
    hide After, Fresh, Inv, BeginsPlan, AllMeant, TakesOf, RowsOf, Flatten, Staged, SuffixTakes, Length;
    WritingEarlier(states, events, root, w, k, m, i);
    PriorStaysLaidOut(states, events, root, w, k, m);
    PriorStaysLaidOut(states, events, root, w, k, i);
    HeadLength(states, events, root, w, k, m, offset, data);
    WholeLength(states, events, root, w, k, m);
    TakesSplit(events, w, k + 1, m, i);
    IntendedIsMeant(states, events, w, k, i);
    PlanMeansStaged(PriorContent(states[m].writers[w]), TakesOf(events[k + 1..m], w), offset, data, preserve);
  }

  /** If something was, the writer ends with fewer bytes than that. */
  lemma TornHeadIsShorter(states: seq<System>, events: seq<Event>, root: Id, w: nat, k: nat, m: nat, i: nat,
                          offset: nat, data: Bytes, preserve: bool)
    requires Writing(states, events, root, w, k, i) && k < m <= i &&
             WritesAt(states, events, w, k, m, i, offset, data, preserve)
    requires states[m].writers[w].content != states[m].writers[w].intended
    ensures |states[i].writers[w].content| < |Staged(PriorContent(states[m].writers[w]), offset, data, preserve)|
    ensures states[i].writers[w].content != states[i].writers[w].intended
  {
    hide After, Fresh, Inv, BeginsPlan, TakesOf, Staged, SuffixPlan, Separated, Length;
    WritingEarlier(states, events, root, w, k, m, i);
    HeadLength(states, events, root, w, k, m, offset, data);
    SuffixIsOld(|PriorContent(states[m].writers[w])|, Length(states[m].writers[w]), preserve);
    NothingIsFoundLater(states, events, w, m, i);
    HistorySeparates(states, events, m);
    WriterIsFaithful(states[m], w);
    StagedLength(PriorContent(states[m].writers[w]), offset, data, preserve);
  }

  /**
   In every interleaving a positional write that commits leaves the prior bytes, edited,
   exactly if none of its copies missed bytes: the answer of the same write running alone.
   */
  lemma InterleavedWriteCommitsStagedIff(states: seq<System>, events: seq<Event>, root: Id, w: nat, k: nat, m: nat,
                                         i: nat, now: int,
                                         offset: nat, data: Bytes, preserve: bool)
    requires Writing(states, events, root, w, k, i) && k < m <= i &&
             WritesAt(states, events, w, k, m, i, offset, data, preserve)
    requires Sealed(states[i], w) && FinalizeStep(states[i], w, now).outcome.Done?
    ensures var r := FinalizeStep(states[i], w, now);
            FileContent(r.db, r.outcome.node) == Staged(PriorContent(states[i].writers[w]), offset, data, preserve) <==>
            !exists j: nat :: MissedCopy(states, events, w, j, i)
  {
    hide After, Fresh, Inv, WritesAt, FinalizeStep, Staged, FileContent, Separated, MissedCopy;
    WritingEarlier(states, events, root, w, k, m, i);
    PriorStaysLaidOut(states, events, root, w, k, m);
    PriorStaysLaidOut(states, events, root, w, k, i);
    HistorySeparates(states, events, i);
    FinalizedContent(states[i], w, now);
    NothingIsMissedIff(states, events, w, i);
    if states[m].writers[w].content == states[m].writers[w].intended {
      WholeHeadMeansStaged(states, events, root, w, k, m, i, offset, data, preserve);
    } else {
      TornHeadIsShorter(states, events, root, w, k, m, i, offset, data, preserve);
    }
  }

  /**
   A positional write whose node still has the revision it read commits exactly the
   prior bytes, edited, whatever ran between its calls.
   */
  lemma InterleavedWriteCommitsStaged(states: seq<System>, events: seq<Event>, root: Id, w: nat, k: nat, m: nat, i: nat,
                                      now: int,
                                      offset: nat, data: Bytes, preserve: bool)
    requires Writing(states, events, root, w, k, i) && k < m <= i &&
             WritesAt(states, events, w, k, m, i, offset, data, preserve)
    requires Sealed(states[i], w) && FinalizeStep(states[i], w, now).outcome.Done? && Inv(states[i].db, root)
    requires var p := states[i].writers[w].prior;
             p.Some? ==>
               p.value.node in states[i].db.nodes && states[i].db.nodes[p.value.node].revision == p.value.revision
    ensures var r := FinalizeStep(states[i], w, now);
            FileContent(r.db, r.outcome.node) == Staged(PriorContent(states[i].writers[w]), offset, data, preserve)
  {
    hide Inv, After, Fresh, WritesAt, FinalizeStep, Staged, FileContent, Separated, MissedCopy;
    HistorySeparates(states, events, i);
    if states[i].writers[w].prior.Some? { CommitIsIntact(states[i], root, w); } else { WriterIsFaithful(states[i], w); }
    NothingIsMissedIff(states, events, w, i);
    InterleavedWriteCommitsStagedIff(states, events, root, w, k, m, i, now, offset, data, preserve);
  }
}
