/**
 What one reader or one writer of a history asked for and what it gets, in terms of the
 file that its path named when it began.
 */
module Sessions {
  import opened Common
  import opened Chunks
  import opened Plans
  import opened Paths
  import opened Tree
  import opened Resolve
  import opened Store
  import opened Operations
  import opened Safety
  import opened Runs
  import opened Aging
  import opened Writers
  import opened Gaps
  import opened Interleavings
  import opened ContentEffects

  // --- writers ---------------------------------------------------------------

  /** What a writer was begun with. */
  predicate BegunBy(writer: Writer, e: Event, prior: Option<Prior>) {
    (e.StartWrite? || e.StartWriteAt?) && writer.path == e.path && writer.create == e.mayCreate &&
    writer.expected == e.expected && writer.prior == prior
  }

  ghost function FoundBy(s: System, e: Event): Option<Prior>
    requires e.StartWrite? || e.StartWriteAt?
  {
    if e.StartWriteAt? then ResolvedPrior(s.db, e.path) else None
  }

  lemma StepKeepsRequest(s: System, e: Event, w: nat)
    requires After(s, e).Some? && w in s.writers && w in After(s, e).value.writers
    ensures var a, b := s.writers[w], After(s, e).value.writers[w];
            b.path == a.path && b.create == a.create && b.expected == a.expected && b.prior == a.prior
  {
    hide Apply, FinalizeStep, Resolved, ResolvedPrior, Pulled, Flatten, Flushed, Rest, CopyChunkRange, Piece;
  }

  lemma BeginsSo(s: System, e: Event)
    requires After(s, e).Some? && (e.StartWrite? || e.StartWriteAt?)
    ensures e.w in After(s, e).value.writers && BegunBy(After(s, e).value.writers[e.w], e, FoundBy(s, e))
  {
    hide Resolved, ResolvedPrior;
  }

  lemma {:induction false} WriterKeepsRequest(states: seq<System>, events: seq<Event>, w: nat, k: nat, i: nat)
    requires History(states, events) && Stays(states, w, k, i) && k < |events|
    requires (events[k].StartWrite? || events[k].StartWriteAt?) && events[k].w == w
    ensures BegunBy(states[i].writers[w], events[k], FoundBy(states[k], events[k]))
    decreases i
  {
    hide After, ResolvedPrior;
    HistoryStep(states, events, i - 1);
    if i == k + 1 {
      BeginsSo(states[k], events[k]);
    } else {
      WriterKeepsRequest(states, events, w, k, i - 1);
      StepKeepsRequest(states[i - 1], events[i - 1], w);
    }
  }

  /** What a positional writer found is the file at its path. */
  lemma FoundIsTheFile(db: Db, root: Id, path: Segments, writer: Writer)
    requires Inv(db, root) && writer.prior == ResolvedPrior(db, path)
    ensures PriorContent(writer) == Before(db, path)
  {
    hide Inv, Resolved, Flatten;
    if ResolvedPrior(db, path).Some? { ResolvedIsWell(db, root, path); }
  }

  /** Where a finalizing transaction puts its content: the file at the path, or a new one there. */
  ghost predicate CommitsAt(db: Db, e: Event, s: Step)
    requires e.StartWrite? || e.StartWriteAt?
  {
    s.outcome.Done? &&
    match Resolved(db.nodes, e.path)
    case Some(x) =>
      s.outcome.node == x && db.nodes[x].kind.File? && (e.expected == None || e.expected == Some(db.nodes[x].revision))
    case None =>
      e.mayCreate && e.path != [] && Resolved(db.nodes, Pop(e.path)).Some? &&
      IsChild(s.db.nodes, Resolved(db.nodes, Pop(e.path)).value, e.path[|e.path| - 1], s.outcome.node)
  }

  lemma FinalizesAt(s: System, w: nat, e: Event, prior: Option<Prior>, now: int)
    requires Opened(s, w) && BegunBy(s.writers[w], e, prior) && FinalizeStep(s, w, now).outcome.Done?
    ensures CommitsAt(s.db, e, FinalizeStep(s, w, now))
  {
    hide Resolved;
  }

  /**
   In every interleaving a positional write that commits does so at the path it was asked
   for, on a file of the revision it was conditioned on, and leaves the edit that was
   asked for of the bytes its path named when it began, exactly if none of its copies
   missed bytes.
   */
  lemma InterleavedWriteIsTheEdit(states: seq<System>, events: seq<Event>, root: Id, w: nat, k: nat, m: nat, i: nat,
                                  now: int, offset: nat, data: Bytes, preserve: bool)
    requires Writing(states, events, root, w, k, i) && k < m <= i &&
             WritesAt(states, events, w, k, m, i, offset, data, preserve)
    requires Sealed(states[i], w) && FinalizeStep(states[i], w, now).outcome.Done?
    ensures var r := FinalizeStep(states[i], w, now);
            CommitsAt(states[i].db, events[k], r) &&
            (FileContent(r.db, r.outcome.node) ==
             Staged(Before(states[k].db, events[k].path), offset, data, preserve) <==>
             !exists j: nat :: MissedCopy(states, events, w, j, i))
  {
    InterleavedWriteCommitsStagedIff(states, events, root, w, k, m, i, now, offset, data, preserve);
    hide After, Inv, Fresh, WritesAt, MissedCopy, FinalizeStep, Staged, FileContent, Before, ResolvedPrior, CommitsAt;
    WriterKeepsRequest(states, events, w, k, i);
    FinalizesAt(states[i], w, events[k], FoundBy(states[k], events[k]), now);
    FoundIsTheFile(states[k].db, root, events[k].path, states[i].writers[w]);
  }

  // --- readers ---------------------------------------------------------------

  /** A stream over the part of a found file that was asked for. */
  predicate Streams(reader: Reader, p: Prior, lo: nat, hi: nat) {
    reader.generation == p.generation && reader.size == p.size && reader.rows == p.rows && reader.start == lo &&
    reader.last + 1 == Min(hi, p.size)
  }

  lemma OpensSo(s: System, e: Event)
    requires After(s, e).Some? && e.OpenRead?
    ensures e.r in After(s, e).value.readers && ResolvedPrior(s.db, e.path).Some?
    ensures Streams(After(s, e).value.readers[e.r], ResolvedPrior(s.db, e.path).value, e.lo, e.hi)
  {
    hide Resolved, ResolvedPrior;
  }

  lemma StepKeepsStream(s: System, e: Event, r: nat, p: Prior, lo: nat, hi: nat)
    requires After(s, e).Some? && r in s.readers && Streams(s.readers[r], p, lo, hi)
    ensures r in After(s, e).value.readers && Streams(After(s, e).value.readers[r], p, lo, hi)
  {
    hide Apply, FinalizeStep, Resolved, ResolvedPrior, Flatten, Flushed, Rest, CopyChunkRange, Piece, PullPiece;
  }

  lemma {:induction false} ReaderKeepsRange(states: seq<System>, events: seq<Event>, k: nat, i: nat)
    requires History(states, events) && k < i < |states| && events[k].OpenRead?
    ensures ResolvedPrior(states[k].db, events[k].path).Some? && events[k].r in states[i].readers
    ensures Streams(states[i].readers[events[k].r], ResolvedPrior(states[k].db, events[k].path).value, events[k].lo,
                    events[k].hi)
    decreases i
  {
    hide After, ResolvedPrior, Streams;
    HistoryStep(states, events, i - 1);
    if i == k + 1 {
      OpensSo(states[k], events[k]);
    } else {
      ReaderKeepsRange(states, events, k, i - 1);
      StepKeepsStream(states[i - 1], events[i - 1], events[k].r, ResolvedPrior(states[k].db, events[k].path).value,
                      events[k].lo, events[k].hi);
    }
  }

  /** The range asked for, cut to the file. */
  ghost function Asked(db: Db, e: Event): Bytes
    requires e.OpenRead?
  {
    var content := Before(db, e.path);
    if e.lo < Min(e.hi, |content|) then content[e.lo..Min(e.hi, |content|)] else []
  }

  lemma StreamIsAsked(db: Db, root: Id, e: Event, reader: Reader)
    requires Inv(db, root) && e.OpenRead? && ResolvedPrior(db, e.path).Some?
    requires Streams(reader, ResolvedPrior(db, e.path).value, e.lo, e.hi) && reader.start <= reader.last
    ensures var content := FoundContent(reader.size, reader.rows);
            reader.last < |content| && content[reader.start..reader.last + 1] == Asked(db, e)
  {
    ResolvedIsWell(db, root, e.path);
    hide Inv, Resolved, Flatten, FoundContent, RowsOf;
  }

  /**
   While nothing has broken the tables, a stream delivers of the file that its path named
   when it was opened the range asked for, cut to the file: always a beginning of that, and
   at the end all of it exactly if no pull found the generation deleted.
   */
  lemma ReaderGetsWhatItAskedFor(states: seq<System>, events: seq<Event>, root: Id, k: nat, i: nat)
    requires StartsValid(states, events, root) && k < i < |states| && NothingBreaks(states, events, i)
    requires events[k].OpenRead?
    ensures events[k].r in states[i].readers
    ensures var reader, asked := states[i].readers[events[k].r], Asked(states[k].db, events[k]);
            reader.delivered <= asked &&
            (reader.current == ChunkIndexOf(reader.last) + 1 ==>
              (reader.delivered == asked <==> !exists j :: 0 <= j < i && PullMisses(states[j], events[j], events[k].r)))
  {
    hide After, Inv, Breaks, ResolvedPrior, Streams, PullMisses, Asked, FoundContent, ChunkIndexOf, SystemOk;
    ReaderKeepsRange(states, events, k, i);
    ReadersSeeOneRevision(states, events, root, i, events[k].r);
    HistoryIsOk(states, events, root, k);
    SystemIsValid(states[k], root);
    StreamIsAsked(states[k].db, root, events[k], states[i].readers[events[k].r]);
  }

  lemma SystemIsValid(s: System, root: Id)
    requires SystemOk(s, root)
    ensures Inv(s.db, root)
  {
  }
}
