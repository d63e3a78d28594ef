/**
 Four short histories: what interleaved calls of content.rs can do to a workspace that
 holds the one file `/a`.  They are the inputs behind the exact conditions proved in
 Interleavings.dfy.
 */
module Races {
  import opened Common
  import opened Chunks
  import opened Plans
  import opened Paths
  import opened Tree
  import opened Resolve
  import opened Store
  import opened Copy
  import opened Operations
  import opened Safety
  import opened Runs
  import opened Writers
  import opened Gaps
  import opened Interleavings

  // --- runs of events --------------------------------------------------------

  /** The events lead from `s` to `t`. */
  ghost predicate Leads(s: System, events: seq<Event>, t: System)
    decreases |events|
  {
    if events == [] then s == t else After(s, events[0]).Some? && Leads(After(s, events[0]).value, events[1..], t)
  }

  lemma LeadsOne(s: System, e: Event)
    requires After(s, e).Some?
    ensures Leads(s, [e], After(s, e).value)
  {
    hide After;
    assert [e][1..] == [];
  }

  lemma {:induction false} LeadsOn(s: System, a: seq<Event>, t: System, b: seq<Event>, u: System)
    requires Leads(s, a, t) && Leads(t, b, u)
    ensures Leads(s, a + b, u)
    decreases |a|
  {
    hide After;
    if a == [] {
      assert a + b == b;
    } else {
      assert (a + b)[1..] == a[1..] + b;
      LeadsOn(After(s, a[0]).value, a[1..], t, b, u);
    }
  }

  lemma {:induction false} LeadsIsHistory(s: System, events: seq<Event>, t: System) returns (states: seq<System>)
    requires Leads(s, events, t)
    ensures History(states, events) && states[0] == s && states[|events|] == t
    decreases |events|
  {
    hide After;
    if events == [] {
      states := [s];
    } else {
      var rest := LeadsIsHistory(After(s, events[0]).value, events[1..], t);
      states := [s] + rest;
      forall i | 0 <= i < |events| ensures After(states[i], events[i]) == Some(states[i + 1]) {
        if i > 0 { HistoryStep(rest, events[1..], i - 1); }
      }
    }
  }

  // --- the workspace with the file `/a` --------------------------------------

  predicate NamedA(n: Node) { n.parent == Some(0) && n.name == "a" && n.kind.File? && n.trashedAt.None? }

  /** The node table in which `x`, the file `/a`, is all there is. */
  function Only(x: Id, n: Node): Nodes { map[0 := RootNode(0), x := n] }

  lemma OnlyIsSound(x: Id, n: Node)
    requires x != 0 && NamedA(n)
    ensures Sound(Only(x, n), 0) && Resolved(Only(x, n), ["a"]) == Some(x)
  {
    var nodes := Only(x, n);
    assert Ranked(nodes, map[0 := 0, x := 1]);
    RootIsFetched(nodes, 0);
    hide Sound, Rooted;
    assert Resolved(nodes, []) == Some(0);
    ResolvedChild(nodes, 0, [], 0, "a");
    ChildIsFetched(nodes, 0, "a", x);
    assert [] + ["a"] == ["a"];
  }

  function OneFile(c: Bytes, maxFileBytes: nat): Db {
    Db(Only(2, FileNode(0, "a", |c|, 1, 0)), map[1 := Generation(true, |c|, RowsOf(c))], map[], map[],
       [Change(1, Created, Some(2), None, Some(["a"]), Some(1), 0)], 1, maxFileBytes, 3)
  }

  lemma OneFileIsValid(c: Bytes, maxFileBytes: nat)
    requires |c| <= maxFileBytes
    ensures Inv(OneFile(c, maxFileBytes), 0)
  {
    hide Sound, RowsOf, FileOk, KindOk;
    var db := OneFile(c, maxFileBytes);
    OnlyIsSound(2, FileNode(0, "a", |c|, 1, 0));
    FileAndRootAreOk(c, maxFileBytes);
    assert db.nodes.Keys == {0, 2};
  }

  lemma FileAndRootAreOk(c: Bytes, maxFileBytes: nat)
    requires |c| <= maxFileBytes
    ensures KindOk(RootNode(0), OneFile(c, maxFileBytes).generations, maxFileBytes)
    ensures KindOk(FileNode(0, "a", |c|, 1, 0), OneFile(c, maxFileBytes).generations, maxFileBytes)
  {
    hide RowsOf, FileOk;
    CompletedIsOk(FileNode(0, "a", |c|, 1, 0), c, maxFileBytes);
  }

  // --- single events, where nothing else matters -----------------------------

  /** The file `/a` is node `x`, with generation `g`. */
  ghost predicate Holding(s: System, x: Id, n: Node, g: Id) {
    s.db.nodes == Only(x, n) && x != 0 && NamedA(n) && n.generation == Some(g) && g in s.db.generations &&
    x < s.db.nextId && g < s.db.nextId && forall h :: h in s.db.generations ==> h < s.db.nextId
  }

  lemma Starting(s: System, w: nat, x: Id, n: Node, g: Id, expected: Option<nat>)
    requires Holding(s, x, n, g) && w !in s.writers
    ensures ResolvedPrior(s.db, ["a"]) == Some(Prior(x, n.revision, g, n.size, s.db.generations[g].rows))
    ensures After(s, StartWrite(w, ["a"], false, expected)) ==
            Some(s.(writers := s.writers[w := NewWriter(["a"], false, expected, None)]))
    ensures After(s, StartWriteAt(w, ["a"], false, expected)) ==
            Some(s.(writers := s.writers[w := NewWriter(["a"], false, expected, ResolvedPrior(s.db, ["a"]))]))
  {
    OnlyIsSound(x, n);
    hide Resolved, Sound;
  }

  lemma Finalizing(s: System, w: nat, x: Id, n: Node, g: Id, now: int)
    requires Holding(s, x, n, g) && Sealed(s, w) && s.writers[w].path == ["a"] && s.writers[w].generation != Some(g)
    requires s.writers[w].expected.None? || s.writers[w].expected == Some(n.revision)
    ensures var own, length := s.writers[w].generation.value, Length(s.writers[w]);
            var r := FinalizeStep(s, w, now);
            r.outcome == Done(x) && r.db.nodes == Only(x, RewrittenNode(n, length, own, now)) &&
            r.db.generations == s.db.generations[own := Generation(true, length, OwnRows(s, w))] - {g} &&
            r.db.maxFileBytes == s.db.maxFileBytes && r.db.nextId == s.db.nextId &&
            After(s, FinalizeNow(w, now)) == Some(s.(db := r.db, writers := s.writers - {w}))
  {
    OnlyIsSound(x, n);
    hide Resolved, Sound;
    assert Only(x, n)[x := RewrittenNode(n, Length(s.writers[w]), s.writers[w].generation.value, now)] ==
           Only(x, RewrittenNode(n, Length(s.writers[w]), s.writers[w].generation.value, now));
  }

  /** A writer `v` that replaces the file by an empty one, and whose calls nothing interrupts. */
  function Overtaking(v: nat, now: int): seq<Event> {
    [StartWrite(v, ["a"], false, None)] + [OpenGeneration(v)] + [Seal(v)] + [FinalizeNow(v, now)]
  }

  /** One more event. */
  lemma Then(s: System, events: seq<Event>, t: System, e: Event, u: System)
    requires Leads(s, events, t) && After(t, e) == Some(u)
    ensures Leads(s, events + [e], u)
  {
    hide After;
    LeadsOne(t, e);
    LeadsOn(s, events, t, [e], u);
  }

  lemma Opening(s: System, w: nat)
    requires w in s.writers && s.writers[w].generation.None?
    ensures After(s, OpenGeneration(w)) == Some(GenerationOpened(s, w))
  {
  }

  lemma Sealing(s: System, w: nat)
    requires Staging(s, w)
    ensures After(s, Seal(w)) == Some(SealedNow(s, w))
  {
  }

  lemma Overtake(s: System, v: nat, x: Id, n: Node, g: Id, now: int) returns (t: System)
    requires Holding(s, x, n, g) && v !in s.writers
    ensures Leads(s, Overtaking(v, now), t)
    ensures t.writers == s.writers && t.readers == s.readers && t.db.maxFileBytes == s.db.maxFileBytes &&
            t.db.nextId == s.db.nextId + 1
    ensures Holding(t, x, RewrittenNode(n, 0, s.db.nextId, now), s.db.nextId)
    ensures t.db.generations == s.db.generations[s.db.nextId := Generation(true, 0, map[])] - {g}
  {
    hide ResolvedPrior, Leads, After, Finalize;
    var first := StartWrite(v, ["a"], false, None);
    var s1 := s.(writers := s.writers[v := NewWriter(["a"], false, None, None)]);
    var s2 := GenerationOpened(s1, v);
    var s3 := SealedNow(s2, v);
    Starting(s, v, x, n, g, None);
    LeadsOne(s, first);
    Opening(s1, v);
    Then(s, [first], s1, OpenGeneration(v), s2);
    Sealing(s2, v);
    Then(s, [first] + [OpenGeneration(v)], s2, Seal(v), s3);
    Finalizing(s3, v, x, n, g, now);
    t := s3.(db := FinalizeStep(s3, v, now).db, writers := s3.writers - {v});
    Then(s, [first] + [OpenGeneration(v)] + [Seal(v)], s3, FinalizeNow(v, now), t);
    assert t.writers == s.writers;
  }

  // --- a positional writer on the file ---------------------------------------

  /** Writer 0 at work: the file is `x` with generation `g`, its own generation 3 has these rows. */
  ghost predicate Working(s: System, x: Id, n: Node, g: Id, writer: Writer, rows: Rows) {
    Holding(s, x, n, g) && g != 3 && 0 in s.writers && s.writers[0] == writer && writer.path == ["a"] &&
    writer.generation == Some(3) &&
    3 in s.db.generations && s.db.generations[3] == Generation(false, 0, rows)
  }

  function Began(expected: Option<nat>): seq<Event> {
    [StartWriteAt(0, ["a"], false, expected)] + [OpenGeneration(0)]
  }

  function BeganWriter(c: Bytes, expected: Option<nat>): Writer {
    NewWriter(["a"], false, expected, Some(Prior(2, 1, 1, |c|, RowsOf(c)))).(generation := Some(3))
  }

  lemma Begin(c: Bytes, maxFileBytes: nat, expected: Option<nat>) returns (t: System)
    ensures Leads(Quiet(OneFile(c, maxFileBytes)), Began(expected), t)
    ensures Working(t, 2, FileNode(0, "a", |c|, 1, 0), 1, BeganWriter(c, expected), map[])
    ensures t.writers == map[0 := BeganWriter(c, expected)] && t.db.maxFileBytes == maxFileBytes && t.db.nextId == 4
    ensures t.db.generations == map[1 := Generation(true, |c|, RowsOf(c)), 3 := Generation(false, 0, map[])]
    ensures t.db.trash == map[] && t.db.changes == OneFile(c, maxFileBytes).changes && t.readers == map[]
  {
    hide ResolvedPrior, Leads, After, RowsOf;
    var s := Quiet(OneFile(c, maxFileBytes));
    Starting(s, 0, 2, FileNode(0, "a", |c|, 1, 0), 1, expected);
    var s1 := s.(writers := s.writers[0 := NewWriter(["a"], false, expected, ResolvedPrior(s.db, ["a"]))]);
    LeadsOne(s, StartWriteAt(0, ["a"], false, expected));
    Opening(s1, 0);
    t := GenerationOpened(s1, 0);
    Then(s, [StartWriteAt(0, ["a"], false, expected)], s1, OpenGeneration(0), t);
  }

  /** The writer after bytes that leave its buffer short of a chunk. */
  function Buffered(writer: Writer, bytes: Bytes, intended: Bytes): Writer {
    writer.(buffer := writer.buffer + bytes, content := writer.content + bytes, intended := writer.intended + intended)
  }

  lemma Buffering(s: System, x: Id, n: Node, g: Id, writer: Writer, rows: Rows, bytes: Bytes, intended: Bytes)
    requires Working(s, x, n, g, writer, rows) && !writer.sealed
    requires |writer.buffer| + |bytes| < CHUNK_SIZE && Length(writer) + |bytes| <= s.db.maxFileBytes
    ensures Taken(s, 0, bytes, intended).Some?
    ensures var t := Taken(s, 0, bytes, intended).value;
            t == s.(writers := s.writers[0 := Buffered(writer, bytes, intended)]) &&
            Working(t, x, n, g, Buffered(writer, bytes, intended), rows)
  {
    FlushNothing(rows, writer.next, writer.buffer + bytes);
    assert s.db.generations[3 := Generation(false, 0, rows)] == s.db.generations;
  }

  lemma TakingIn(s: System, x: Id, n: Node, g: Id, writer: Writer, rows: Rows, bytes: Bytes)
    requires Working(s, x, n, g, writer, rows) && !writer.sealed
    requires |writer.buffer| + |bytes| < CHUNK_SIZE && Length(writer) + |bytes| <= s.db.maxFileBytes
    ensures var t := s.(writers := s.writers[0 := Buffered(writer, bytes, bytes)]);
            After(s, TakeIn(0, bytes)) == Some(t) && Working(t, x, n, g, Buffered(writer, bytes, bytes), rows)
  {
    Buffering(s, x, n, g, writer, rows, bytes, bytes);
  }

  lemma CopyingPiece(s: System, x: Id, n: Node, g: Id, writer: Writer, rows: Rows, index: nat, lo: nat, hi: nat)
    requires Working(s, x, n, g, writer, rows) && !writer.sealed && writer.prior.Some?
    requires var bytes := Piece(RowsNow(s.db, writer.prior.value.generation), index, lo, hi);
             |writer.buffer| + |bytes| < CHUNK_SIZE && Length(writer) + |bytes| <= s.db.maxFileBytes
    ensures var p := writer.prior.value;
            var after := Buffered(writer, Piece(RowsNow(s.db, p.generation), index, lo, hi),
                                  Piece(p.rows, index, lo, hi));
            var t := s.(writers := s.writers[0 := after]);
            After(s, CopyPiece(0, index, lo, hi)) == Some(t) && Working(t, x, n, g, after, rows)
  {
    hide Piece, Taken;
    var p := writer.prior.value;
    Buffering(s, x, n, g, writer, rows, Piece(RowsNow(s.db, p.generation), index, lo, hi),
              Piece(p.rows, index, lo, hi));
  }

  /** The bulk copy of one chunk that is no longer there. */
  lemma CopyingNothing(s: System, x: Id, n: Node, g: Id, writer: Writer)
    requires Working(s, x, n, g, writer, map[]) && !writer.sealed && writer.prior.Some? &&
             writer.prior.value.size >= CHUNK_SIZE
    requires writer.next == 0 && writer.buffer == [] && writer.content == [] &&
             writer.prior.value.generation !in s.db.generations
    ensures var after := writer.(next := 1, intended := writer.intended + Flatten(writer.prior.value.rows, 1));
            var t := s.(writers := s.writers[0 := after]);
            After(s, BulkCopy(0, 1)) == Some(t) && Working(t, x, n, g, after, map[])
  {
    hide Flatten, CopyChunkRange;
    NothingFound(1);
    NothingInRange(1);
    assert writer.content + Flatten(map[], 1) == writer.content;
    assert s.db.generations[3 := Generation(false, 0, map[])] == s.db.generations;
  }

  /** `finish` and the finalizing transaction. */
  function Committing(now: int): seq<Event> { [Seal(0)] + [FinalizeNow(0, now)] }

  lemma Commits(s: System, x: Id, n: Node, g: Id, writer: Writer, rows: Rows, now: int) returns (t: System)
    requires Working(s, x, n, g, writer, rows) && !writer.sealed &&
             (writer.expected.None? || writer.expected == Some(n.revision))
    ensures Leads(s, Committing(now), t)
    ensures var length := Length(writer);
            t.db.nodes == Only(x, RewrittenNode(n, length, 3, now)) && 3 in t.db.generations &&
            t.db.generations[3] == Generation(true, length, Closed(rows, writer.next, writer.buffer))
  {
    hide Leads, After, Finalize;
    var s1 := SealedNow(s, 0);
    Sealing(s, 0);
    LeadsOne(s, Seal(0));
    assert Holding(s1, x, n, g);
    Finalizing(s1, 0, x, n, g, now);
    t := s1.(db := FinalizeStep(s1, 0, now).db, writers := s1.writers - {0});
    Then(s, [Seal(0)], s1, FinalizeNow(0, now), t);
  }

  // --- a gap -----------------------------------------------------------------

  /** An append that another writer overtakes before its bulk copy. */
  function GapEvents(data: Bytes, now: int): seq<Event> {
    Began(None) + Overtaking(1, now) + [BulkCopy(0, 1)] + [CopyPiece(0, 1, 0, 10)] + [TakeIn(0, data)] + Committing(now)
  }

  /** Nothing is found of the old chunks, and the length counts them. */
  lemma CopiesNothing(s: System, n: Node, c: Bytes, data: Bytes) returns (t: System)
    requires Working(s, 2, n, 4, BeganWriter(c, None), map[]) && 1 !in s.db.generations
    requires |c| == CHUNK_SIZE + 10 && |data| == 5 && CHUNK_SIZE + 5 <= s.db.maxFileBytes
    ensures Leads(s, [BulkCopy(0, 1)] + [CopyPiece(0, 1, 0, 10)] + [TakeIn(0, data)], t)
    ensures 0 in t.writers && Working(t, 2, n, 4, t.writers[0], map[])
    ensures t.writers[0].next == 1 && t.writers[0].buffer == data && !t.writers[0].sealed
    ensures t.writers[0].expected == None
  {
    hide Leads, After, RowsOf, Flatten;
    var w0 := BeganWriter(c, None);
    CopyingNothing(s, 2, n, 4, w0);
    var w1 := w0.(next := 1, intended := w0.intended + Flatten(w0.prior.value.rows, 1));
    var s1 := s.(writers := s.writers[0 := w1]);
    LeadsOne(s, BulkCopy(0, 1));
    assert Piece(RowsNow(s1.db, 1), 1, 0, 10) == [];
    CopyingPiece(s1, 2, n, 4, w1, map[], 1, 0, 10);
    var w2 := Buffered(w1, [], Piece(RowsOf(c), 1, 0, 10));
    var s2 := s1.(writers := s1.writers[0 := w2]);
    Then(s, [BulkCopy(0, 1)], s1, CopyPiece(0, 1, 0, 10), s2);
    assert w2.buffer == [];
    TakingIn(s2, 2, n, 4, w2, map[], data);
    t := s2.(writers := s2.writers[0 := Buffered(w2, data, data)]);
    Then(s, [BulkCopy(0, 1)] + [CopyPiece(0, 1, 0, 10)], s2, TakeIn(0, data), t);
    assert [] + data == data;
  }

  /**
   Five bytes appended to a file of one chunk and ten bytes, while another writer replaces
   the file: the append reports success, the file has a chunk and five bytes, and its
   first chunk is missing.
   */
  lemma OvertakenAppendLeavesAGap(c: Bytes, data: Bytes, maxFileBytes: nat, now: int) returns (states: seq<System>)
    requires |c| == CHUNK_SIZE + 10 && |data| == 5 && CHUNK_SIZE + 15 <= maxFileBytes
    ensures History(states, GapEvents(data, now)) && StartsValid(states, GapEvents(data, now), 0)
    ensures states[0] == Quiet(OneFile(c, maxFileBytes))
    ensures var db := states[|states| - 1].db;
            2 in db.nodes && db.nodes[2].size == CHUNK_SIZE + 5 && db.nodes[2].generation == Some(3) &&
            3 in db.generations &&
            db.generations[3] == Generation(true, CHUNK_SIZE + 5, map[1 := data]) && !Inv(db, 0)
  {
    hide Leads, After, RowsOf, Inv;
    OneFileIsValid(c, maxFileBytes);
    var s := Quiet(OneFile(c, maxFileBytes));
    var s1 := Begin(c, maxFileBytes, None);
    var n := FileNode(0, "a", |c|, 1, 0);
    var s2 := Overtake(s1, 1, 2, n, 1, now);
    LeadsOn(s, Began(None), s1, Overtaking(1, now), s2);
    var copies := [BulkCopy(0, 1)] + [CopyPiece(0, 1, 0, 10)] + [TakeIn(0, data)];
    var s3 := CopiesNothing(s2, RewrittenNode(n, 0, 4, now), c, data);
    LeadsOn(s, Began(None) + Overtaking(1, now), s2, copies, s3);
    var s4 := Commits(s3, 2, RewrittenNode(n, 0, 4, now), 4, s3.writers[0], map[], now);
    LeadsOn(s, Began(None) + Overtaking(1, now) + copies, s3, Committing(now), s4);
    assert Began(None) + Overtaking(1, now) + copies + Committing(now) == GapEvents(data, now);
    states := LeadsIsHistory(s, GapEvents(data, now), s4);
    GapIsNotOk(s4.db.nodes[2], s4.db.generations[3], s4.db.maxFileBytes);
    NodesAreOk(s4.db, 0, 2);
  }

  // --- torn content ----------------------------------------------------------

  /** A write of one byte in the middle of ten, overtaken between prefix and suffix. */
  function TornEvents(data: Bytes, now: int): seq<Event> {
    Began(None) + [CopyPiece(0, 0, 0, 5)] + [TakeIn(0, data)] + Overtaking(1, now) + [CopyPiece(0, 0, 6, 10)] +
        Committing(now)
  }

  lemma SmallRow(c: Bytes)
    requires |c| == 10
    ensures RowsOf(c) == map[0 := c]
    ensures Piece(RowsOf(c), 0, 0, 5) == c[..5] && Piece(RowsOf(c), 0, 6, 10) == c[6..] &&
            Piece(RowsOf(c), 0, 0, 10) == c
  {
    RowsKeys(c, 1);
    assert Chunk(c, 0) == c;
  }

  lemma CopiesPrefix(s: System, n: Node, c: Bytes, data: Bytes) returns (t: System)
    requires Working(s, 2, n, 1, BeganWriter(c, None), map[]) && 1 in s.db.generations &&
             s.db.generations[1].rows == RowsOf(c)
    requires |c| == 10 && |data| == 1 && 10 <= s.db.maxFileBytes
    ensures Leads(s, [CopyPiece(0, 0, 0, 5)] + [TakeIn(0, data)], t)
    ensures 0 in t.writers && Working(t, 2, n, 1, t.writers[0], map[]) && t == s.(writers := t.writers) &&
            t.writers.Keys == s.writers.Keys
    ensures t.writers[0] == BeganWriter(c, None).(buffer := c[..5] + data, content := c[..5] + data,
                                                  intended := c[..5] + data)
  {
    hide Leads, After, RowsOf, Piece;
    SmallRow(c);
    var w0 := BeganWriter(c, None);
    CopyingPiece(s, 2, n, 1, w0, map[], 0, 0, 5);
    var w1 := Buffered(w0, c[..5], c[..5]);
    var s1 := s.(writers := s.writers[0 := w1]);
    LeadsOne(s, CopyPiece(0, 0, 0, 5));
    TakingIn(s1, 2, n, 1, w1, map[], data);
    t := s1.(writers := s1.writers[0 := Buffered(w1, data, data)]);
    Then(s, [CopyPiece(0, 0, 0, 5)], s1, TakeIn(0, data), t);
    assert [] + c[..5] == c[..5];
  }

  /** The suffix finds nothing, and the write commits the prefix and the new byte alone. */
  lemma OvertakenWriteIsTorn(c: Bytes, data: Bytes, maxFileBytes: nat, now: int) returns (states: seq<System>)
    requires |c| == 10 && c[0] != 0 && |data| == 1 && 10 <= maxFileBytes
    ensures History(states, TornEvents(data, now)) && StartsValid(states, TornEvents(data, now), 0)
    ensures states[0] == Quiet(OneFile(c, maxFileBytes))
    ensures var db := states[|states| - 1].db;
            2 in db.nodes && FileContent(db, 2) == c[..5] + data && FileContent(db, 2) != Staged(c, 5, data, true) &&
            FileContent(db, 2) != Staged([], 5, data, true)
  {
    hide Leads, After, RowsOf, Inv, Piece, Staged, FileContent;
    OneFileIsValid(c, maxFileBytes);
    SmallRow(c);
    var s := Quiet(OneFile(c, maxFileBytes));
    var s1 := Begin(c, maxFileBytes, None);
    var n := FileNode(0, "a", |c|, 1, 0);
    var s2 := CopiesPrefix(s1, n, c, data);
    LeadsOn(s, Began(None), s1, [CopyPiece(0, 0, 0, 5)] + [TakeIn(0, data)], s2);
    var before := Began(None) + ([CopyPiece(0, 0, 0, 5)] + [TakeIn(0, data)]);
    WorkingHolds(s2, 2, n, 1, s2.writers[0], map[]);
    var s3 := Overtake(s2, 1, 2, n, 1, now);
    LeadsOn(s, before, s2, Overtaking(1, now), s3);
    assert Working(s3, 2, RewrittenNode(n, 0, 4, now), 4, s3.writers[0], map[]);
    var s4 := s3.(writers := s3.writers[0 := Buffered(s3.writers[0], [], c[6..])]);
    NothingToFind(0, 6, 10);
    CopyingPiece(s3, 2, RewrittenNode(n, 0, 4, now), 4, s3.writers[0], map[], 0, 6, 10);
    Then(s, before + Overtaking(1, now), s3, CopyPiece(0, 0, 6, 10), s4);
    var s5 := Commits(s4, 2, RewrittenNode(n, 0, 4, now), 4, s4.writers[0], map[], now);
    LeadsOn(s, before + Overtaking(1, now) + [CopyPiece(0, 0, 6, 10)], s4, Committing(now), s5);
    assert before + Overtaking(1, now) + [CopyPiece(0, 0, 6, 10)] + Committing(now) == TornEvents(data, now);
    states := LeadsIsHistory(s, TornEvents(data, now), s5);
    assert s4.writers[0].buffer == c[..5] + data && |c[..5] + data| == 6 && s4.writers[0].next == 0;
    TornBytes(c, data, s5.db);
  }

  lemma NothingToFind(index: nat, lo: nat, hi: nat)
    ensures Piece(map[], index, lo, hi) == []
  {
  }

  lemma WorkingHolds(s: System, x: Id, n: Node, g: Id, writer: Writer, rows: Rows)
    requires Working(s, x, n, g, writer, rows)
    ensures Holding(s, x, n, g)
  {
  }

  lemma TornBytes(c: Bytes, data: Bytes, db: Db)
    requires |c| == 10 && c[0] != 0 && |data| == 1 && 2 in db.nodes && db.nodes[2].generation == Some(3) &&
             3 in db.generations
    requires db.generations[3] == Generation(true, 6, map[0 := c[..5] + data])
    ensures FileContent(db, 2) == c[..5] + data && FileContent(db, 2) != Staged(c, 5, data, true) &&
            FileContent(db, 2) != Staged([], 5, data, true)
  {
    var rows: Rows := map[0 := c[..5] + data];
    assert NumChunks(6) == 1;
    assert Flatten(rows, 1) == Flatten(rows, 0) + Fetch(rows, 0);
    assert Flatten(rows, 0) == [];
    StagedAt(c, 5, data);
    StagedAt([], 5, data);
    assert Staged([], 5, data, true)[0] == 0;
    assert (c[..5] + data)[0] == c[0];
  }

  // --- a read that ends early ------------------------------------------------

  /** A read of the whole file, overtaken after its first chunk. */
  function ReadEvents(size: nat, now: int): seq<Event> {
    [OpenRead(0, ["a"], 0, size)] + [Pull(0)] + Overtaking(1, now) + [Pull(0)]
  }

  lemma OpeningRead(c: Bytes, maxFileBytes: nat)
    requires |c| > 0
    ensures var s := Quiet(OneFile(c, maxFileBytes));
            After(s, OpenRead(0, ["a"], 0, |c|)) ==
                Some(s.(readers := map[0 := Reader(1, |c|, RowsOf(c), 0, |c| - 1, 0, [])]))
  {
    hide ResolvedPrior, RowsOf;
    Starting(Quiet(OneFile(c, maxFileBytes)), 0, 2, FileNode(0, "a", |c|, 1, 0), 1, None);
  }

  lemma Pulling(s: System, r: nat)
    requires r in s.readers && s.readers[r].current <= ChunkIndexOf(s.readers[r].last)
    ensures After(s, Pull(r)) == Some(s.(readers := s.readers[r := Pulled(s.db, s.readers[r])]))
  {
    hide Pulled;
  }

  /** A chunk and ten bytes: the stream delivers the chunk and ends, without an error. */
  lemma OvertakenReadEndsEarly(c: Bytes, maxFileBytes: nat, now: int) returns (states: seq<System>)
    requires |c| == CHUNK_SIZE + 10 <= maxFileBytes
    ensures History(states, ReadEvents(|c|, now)) && StartsValid(states, ReadEvents(|c|, now), 0)
    ensures states[0] == Quiet(OneFile(c, maxFileBytes))
    ensures var s := states[|states| - 1];
            0 in s.readers && s.readers[0].start == 0 && s.readers[0].last == |c| - 1 &&
            s.readers[0].current == ChunkIndexOf(s.readers[0].last) + 1 && s.readers[0].delivered == c[..CHUNK_SIZE]
  {
    hide Leads, After, RowsOf, Inv, Pulled;
    OneFileIsValid(c, maxFileBytes);
    var s, n := Quiet(OneFile(c, maxFileBytes)), FileNode(0, "a", |c|, 1, 0);
    var r := Reader(1, |c|, RowsOf(c), 0, |c| - 1, 0, []);
    OpeningRead(c, maxFileBytes);
    var s1 := s.(readers := map[0 := r]);
    LeadsOne(s, OpenRead(0, ["a"], 0, |c|));
    FirstPull(c, s1.db);
    Pulling(s1, 0);
    var s2 := s1.(readers := map[0 := Pulled(s1.db, r)]);
    assert s1.readers[0 := Pulled(s1.db, r)] == s2.readers;
    Then(s, [OpenRead(0, ["a"], 0, |c|)], s1, Pull(0), s2);
    assert Holding(s2, 2, n, 1);
    var s3 := Overtake(s2, 1, 2, n, 1, now);
    LeadsOn(s, [OpenRead(0, ["a"], 0, |c|)] + [Pull(0)], s2, Overtaking(1, now), s3);
    LatePull(c, s3.db);
    Pulling(s3, 0);
    var s4 := s3.(readers := s3.readers[0 := Pulled(s3.db, s3.readers[0])]);
    Then(s, [OpenRead(0, ["a"], 0, |c|)] + [Pull(0)] + Overtaking(1, now), s3, Pull(0), s4);
    states := LeadsIsHistory(s, ReadEvents(|c|, now), s4);
  }

  lemma FirstPull(c: Bytes, db: Db)
    requires |c| == CHUNK_SIZE + 10 && 1 in db.generations && db.generations[1].rows == RowsOf(c)
    ensures Pulled(db, Reader(1, |c|, RowsOf(c), 0, |c| - 1, 0, [])) ==
            Reader(1, |c|, RowsOf(c), 0, |c| - 1, 1, c[..CHUNK_SIZE])
  {
    hide RowsOf;
    FetchIsChunk(c, 0);
    assert Chunk(c, 0) == c[..CHUNK_SIZE];
    assert c[..CHUNK_SIZE][0..] == c[..CHUNK_SIZE] && [] + c[..CHUNK_SIZE] == c[..CHUNK_SIZE];
  }

  lemma LatePull(c: Bytes, db: Db)
    requires |c| == CHUNK_SIZE + 10 && 1 !in db.generations
    ensures var r := Reader(1, |c|, RowsOf(c), 0, |c| - 1, 1, c[..CHUNK_SIZE]);
            Pulled(db, r) == r.(current := 2) && ChunkIndexOf(r.last) == 1
  {
    hide RowsOf;
    assert c[..CHUNK_SIZE] + [] == c[..CHUNK_SIZE];
  }

  // --- a condition met by another node ---------------------------------------

  /** A conditioned append; meanwhile the file is removed and made again. */
  function RecreatedEvents(data: Bytes, now: int): seq<Event> {
    Began(Some(1)) + [Requested(OpRemove(["a"], false, None), now)] + [StartWrite(1, ["a"], true, None)] +
        [OpenGeneration(1)] +
    [Seal(1)] + [FinalizeNow(1, now)] + [CopyPiece(0, 0, 0, 10)] + [TakeIn(0, data)] + Committing(now)
  }

  function Empty(): Nodes { map[0 := RootNode(0)] }

  lemma EmptyResolves()
    ensures Sound(Empty(), 0) && Resolved(Empty(), []) == Some(0) && Resolved(Empty(), ["a"]) == None
  {
    assert Ranked(Empty(), map[0 := 0]);
    RootIsFetched(Empty(), 0);
    hide Sound, Rooted;
    ResolvedChild(Empty(), 0, [], 0, "a");
    assert [] + ["a"] == ["a"];
  }

  lemma FileSubtree(x: Id, n: Node)
    requires x != 0 && NamedA(n)
    ensures Subtree(Only(x, n), x) == {x}
  {
    BelowSelf(Only(x, n), x);
    OnlyIsSound(x, n);
    if Below(Only(x, n), x, 0) { RootBelowOnlyItself(Only(x, n), 0, x); }
  }

  lemma Removing(s: System, x: Id, n: Node, g: Id, now: int)
    requires Holding(s, x, n, g)
    ensures var r := Remove(s.db, ["a"], false, None, now);
            r.db.nodes == Empty() && r.db.generations == s.db.generations - {g} &&
            r.db.maxFileBytes == s.db.maxFileBytes &&
            r.db.nextId == s.db.nextId && After(s, Requested(OpRemove(["a"], false, None), now)) == Some(s.(db := r.db))
  {
    hide Named, Sound, Resolved;
    OnlyIsSound(x, n);
    PlainName(s.db.nodes, 0, ["a"], x);
    FileSubtree(x, n);
    assert GenerationsOf(Only(x, n), {x}) == {g};
    assert Only(x, n) - {x} == Empty();
  }

  lemma Recreating(s: System, w: nat, now: int)
    requires s.db.nodes == Empty() && Sealed(s, w) && s.writers[w].path == ["a"] && s.writers[w].create &&
             s.writers[w].expected.None?
    requires s.db.nextId != 0
    ensures var own, length := s.writers[w].generation.value, Length(s.writers[w]);
            var r := FinalizeStep(s, w, now);
            r.outcome == Done(s.db.nextId) && r.db.nodes == Only(s.db.nextId, FileNode(0, "a", length, own, now)) &&
            r.db.generations == s.db.generations[own := Generation(true, length, OwnRows(s, w))] &&
            r.db.maxFileBytes == s.db.maxFileBytes && r.db.nextId == s.db.nextId + 1 &&
            After(s, FinalizeNow(w, now)) == Some(s.(db := r.db, writers := s.writers - {w}))
  {
    hide Resolved, Sound;
    EmptyResolves();
    assert Pop(["a"]) == [];
  }

  /** The file is removed and another one made, whose revision is 1 too. */
  lemma Replace(s: System, n: Node, writer: Writer, now: int) returns (t: System)
    requires Working(s, 2, n, 1, writer, map[]) && s.writers == map[0 := writer] && s.db.nextId == 4
    requires s.db.generations.Keys == {1, 3}
    ensures Leads(s, [Requested(OpRemove(["a"], false, None), now)] + [StartWrite(1, ["a"], true, None)] +
            [OpenGeneration(1)] + [Seal(1)] +
                     [FinalizeNow(1, now)], t)
    ensures Working(t, 5, FileNode(0, "a", 0, 4, now), 4, writer, map[]) && 1 !in t.db.generations &&
            t.db.maxFileBytes == s.db.maxFileBytes
  {
    hide Leads, After, Remove, Finalize;
    Removing(s, 2, n, 1, now);
    var s1 := s.(db := Remove(s.db, ["a"], false, None, now).db);
    var remove := [Requested(OpRemove(["a"], false, None), now)];
    LeadsOne(s, remove[0]);
    var s2 := s1.(writers := s1.writers[1 := NewWriter(["a"], true, None, None)]);
    StartingNew(s1);
    Then(s, remove, s1, StartWrite(1, ["a"], true, None), s2);
    var s3 := GenerationOpened(s2, 1);
    Opening(s2, 1);
    Then(s, remove + [StartWrite(1, ["a"], true, None)], s2, OpenGeneration(1), s3);
    var s4 := SealedNow(s3, 1);
    Sealing(s3, 1);
    Then(s, remove + [StartWrite(1, ["a"], true, None)] + [OpenGeneration(1)], s3, Seal(1), s4);
    Recreating(s4, 1, now);
    t := s4.(db := FinalizeStep(s4, 1, now).db, writers := s4.writers - {1});
    Then(s, remove + [StartWrite(1, ["a"], true, None)] + [OpenGeneration(1)] + [Seal(1)], s4, FinalizeNow(1, now), t);
  }

  lemma StartingNew(s: System)
    requires 1 !in s.writers
    ensures After(s, StartWrite(1, ["a"], true, None)) ==
            Some(s.(writers := s.writers[1 := NewWriter(["a"], true, None, None)]))
  {
  }

  /**
   An append conditioned on revision 1 of the file commits on another node, made since
   at the same path with that revision, and without the bytes it meant to keep.
   */
  lemma ConditionMetByAnotherNode(c: Bytes, data: Bytes, maxFileBytes: nat, now: int) returns (states: seq<System>)
    requires |c| == 10 && |data| == 1 && 11 <= maxFileBytes
    ensures History(states, RecreatedEvents(data, now)) && StartsValid(states, RecreatedEvents(data, now), 0)
    ensures states[0] == Quiet(OneFile(c, maxFileBytes)) && 2 in states[0].db.nodes
    ensures var db := states[|states| - 1].db;
            2 !in db.nodes && 5 in db.nodes && db.nodes[5].revision == 2 && FileContent(db, 5) == data &&
            data != c + data
  {
    hide Leads, After, RowsOf, Inv, Piece, FileContent;
    OneFileIsValid(c, maxFileBytes);
    var s, n := Quiet(OneFile(c, maxFileBytes)), FileNode(0, "a", |c|, 1, 0);
    var s1 := Begin(c, maxFileBytes, Some(1));
    var w := BeganWriter(c, Some(1));
    var s2 := Replace(s1, n, w, now);
    var replacing := [Requested(OpRemove(["a"], false, None), now)] + [StartWrite(1, ["a"], true, None)] +
        [OpenGeneration(1)] + [Seal(1)] +
                     [FinalizeNow(1, now)];
    LeadsOn(s, Began(Some(1)), s1, replacing, s2);
    var made := FileNode(0, "a", 0, 4, now);
    NothingToFind(0, 0, 10);
    CopyingPiece(s2, 5, made, 4, w, map[], 0, 0, 10);
    var w1 := Buffered(w, [], Piece(RowsOf(c), 0, 0, 10));
    var s3 := s2.(writers := s2.writers[0 := w1]);
    Then(s, Began(Some(1)) + replacing, s2, CopyPiece(0, 0, 0, 10), s3);
    TakingIn(s3, 5, made, 4, w1, map[], data);
    var s4 := s3.(writers := s3.writers[0 := Buffered(w1, data, data)]);
    Then(s, Began(Some(1)) + replacing + [CopyPiece(0, 0, 0, 10)], s3, TakeIn(0, data), s4);
    var s5 := Commits(s4, 5, made, 4, s4.writers[0], map[], now);
    LeadsOn(s, Began(Some(1)) + replacing + [CopyPiece(0, 0, 0, 10)] + [TakeIn(0, data)], s4, Committing(now), s5);
    assert Began(Some(1)) + replacing + [CopyPiece(0, 0, 0, 10)] + [TakeIn(0, data)] + Committing(now) ==
        RecreatedEvents(data, now);
    states := LeadsIsHistory(s, RecreatedEvents(data, now), s5);
    assert s4.writers[0].buffer == data && s4.writers[0].next == 0;
    OneByte(data, s5.db);
  }

  lemma OneByte(data: Bytes, db: Db)
    requires |data| == 1 && 5 in db.nodes && db.nodes[5].generation == Some(3) && 3 in db.generations
    requires db.generations[3] == Generation(true, 1, map[0 := data])
    ensures FileContent(db, 5) == data
  {
    var rows: Rows := map[0 := data];
    assert NumChunks(1) == 1;
    assert Flatten(rows, 1) == Flatten(rows, 0) + Fetch(rows, 0);
    assert Flatten(rows, 0) == [];
  }
}
