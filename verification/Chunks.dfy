/**
 Chunked content generations (crates/fslite-sqlite/src/content.rs).

 A generation is a table of chunk rows.  `RowsOf` is the one layout the code
 writes for a byte sequence and `Flatten` reads rows back.  The writer, the
 `write_at` staging and the ranged reader are proved against flat byte sequences.
 */
module Chunks {
  import opened Common

  newtype Byte = x: int | 0 <= x < 256

  type Bytes = seq<Byte>

  /** Chunk rows of one generation, by chunk index. */
  type Rows = map<nat, Bytes>

  const CHUNK_SIZE: nat := 1024 * 1024

  function ChunkIndexOf(offset: nat): nat { offset / CHUNK_SIZE }

  function ChunkLocalOffset(offset: nat): nat { offset % CHUNK_SIZE }

  function NumChunks(length: nat): nat { (length + CHUNK_SIZE - 1) / CHUNK_SIZE }

  function Chunk(content: Bytes, i: nat): Bytes {
    content[Min(i * CHUNK_SIZE, |content|)..Min((i + 1) * CHUNK_SIZE, |content|)]
  }

  function RowsOf(content: Bytes): Rows {
    map i: nat | 0 <= i < NumChunks(|content|) :: Chunk(content, i)
  }

  /** `fetch_chunk_bytes`: a missing row reads as no bytes. */
  function Fetch(rows: Rows, i: nat): Bytes { if i in rows then rows[i] else [] }

  function Flatten(rows: Rows, n: nat): Bytes { if n == 0 then [] else Flatten(rows, n - 1) + Fetch(rows, n - 1) }

  lemma FetchIsChunk(content: Bytes, i: nat)
    ensures Fetch(RowsOf(content), i) == Chunk(content, i)
    ensures i in RowsOf(content) ==> 0 < |Chunk(content, i)| <= CHUNK_SIZE
    ensures i + 1 < NumChunks(|content|) ==> |Chunk(content, i)| == CHUNK_SIZE
  {
    assert i < NumChunks(|content|) <==> i * CHUNK_SIZE < |content|;
    assert i + 1 < NumChunks(|content|) ==> (i + 1) * CHUNK_SIZE <= |content|;
    hide NumChunks;
  }

  lemma SliceJoin(content: Bytes, lo: nat, mid: nat, hi: nat)
    requires lo <= mid <= hi <= |content|
    ensures content[lo..mid] + content[mid..hi] == content[lo..hi]
  {
  }

  lemma ChunkJoin(content: Bytes, i: nat)
    ensures content[..Min(i * CHUNK_SIZE, |content|)] + Chunk(content, i) ==
            content[..Min((i + 1) * CHUNK_SIZE, |content|)]
  {
  }

  /** The first `n` chunks hold the first `n * CHUNK_SIZE` bytes. */
  lemma {:induction false} FlattenPrefix(content: Bytes, n: nat)
    ensures Flatten(RowsOf(content), n) == content[..Min(n * CHUNK_SIZE, |content|)]
  {
    if n > 0 {
      FlattenPrefix(content, n - 1);
      FetchIsChunk(content, n - 1);
      ChunkJoin(content, n - 1);
    }
  }

  lemma FlattenRowsOf(content: Bytes)
    ensures Flatten(RowsOf(content), NumChunks(|content|)) == content
  {
    FlattenPrefix(content, NumChunks(|content|));
  }

  /** A layout without gaps in which every chunk but the last is full. */
  ghost predicate WellChunked(rows: Rows, n: nat) {
    (forall i :: i in rows <==> 0 <= i < n) &&
    (forall i :: 0 <= i < n ==> 0 < |rows[i]| <= CHUNK_SIZE) &&
    (forall i :: 0 <= i < n - 1 ==> |rows[i]| == CHUNK_SIZE)
  }

  lemma {:induction false} FlattenLength(rows: Rows, n: nat, k: nat)
    requires WellChunked(rows, n) && k < n
    ensures |Flatten(rows, k)| == k * CHUNK_SIZE
  {
    if k > 0 { FlattenLength(rows, n, k - 1); }
  }

  lemma {:induction false} FlattenExtends(rows: Rows, k: nat, n: nat)
    requires k <= n
    ensures |Flatten(rows, k)| <= |Flatten(rows, n)| && Flatten(rows, n)[..|Flatten(rows, k)|] == Flatten(rows, k)
  {
    if k < n { FlattenExtends(rows, k, n - 1); }
  }

  lemma WellChunkedRow(rows: Rows, n: nat, i: nat)
    requires WellChunked(rows, n) && i < n
    ensures rows[i] == Chunk(Flatten(rows, n), i)
  {
    var content := Flatten(rows, n);
    FlattenLength(rows, n, i);
    FlattenExtends(rows, i, n);
    FlattenExtends(rows, i + 1, n);
    assert content[i * CHUNK_SIZE..i * CHUNK_SIZE + |rows[i]|] == rows[i] by {
      var upto := Flatten(rows, i + 1);
      assert upto[i * CHUNK_SIZE..] == rows[i];
      assert content[..|upto|][i * CHUNK_SIZE..] == rows[i];
    }
    if i + 1 < n { FlattenLength(rows, n, i + 1); }
  }

  lemma WellChunkedCount(rows: Rows, n: nat)
    requires WellChunked(rows, n)
    ensures n == NumChunks(|Flatten(rows, n)|)
  {
    if n > 0 { FlattenLength(rows, n, n - 1); }
  }

  lemma RowsOfWellChunked(content: Bytes)
    ensures WellChunked(RowsOf(content), NumChunks(|content|))
  {
    forall i: nat | i < NumChunks(|content|)
      ensures 0 < |RowsOf(content)[i]| <= CHUNK_SIZE &&
              (i + 1 < NumChunks(|content|) ==> |RowsOf(content)[i]| == CHUNK_SIZE)
    {
      FetchIsChunk(content, i);
    }
  }

  /** `RowsOf` is exactly the well-chunked layout: any such table is the layout of its own bytes. */
  lemma WellChunkedIffRowsOf(rows: Rows, n: nat)
    ensures WellChunked(rows, n) <==> rows == RowsOf(Flatten(rows, n)) && n == NumChunks(|Flatten(rows, n)|)
  {
    var content := Flatten(rows, n);
    if WellChunked(rows, n) {
      WellChunkedCount(rows, n);
      forall i: nat | i in rows ensures i in RowsOf(content) && rows[i] == RowsOf(content)[i] {
        WellChunkedRow(rows, n, i);
      }
      assert rows == RowsOf(content);
    }
    if rows == RowsOf(content) && n == NumChunks(|content|) { RowsOfWellChunked(content); }
  }

  // --- the flat meaning of the four writes -----------------------------------

  function Zeros(n: nat): (z: Bytes)
    ensures |z| == n && forall i :: 0 <= i < n ==> z[i] == 0
  {
    seq(n, _ => 0)
  }

  /** What `write_at_impl` stages: old prefix, zero gap, new bytes and, if asked, the old suffix. */
  function Staged(prior: Bytes, offset: nat, data: Bytes, preserve: bool): Bytes {
    var head := prior[..Min(offset, |prior|)] + Zeros(Max(0, offset - |prior|)) + data;
    if preserve && |head| < |prior| then head + prior[|head|..] else head
  }

  /** A positional write, read byte by byte. */
  lemma StagedAt(prior: Bytes, offset: nat, data: Bytes)
    ensures var r := Staged(prior, offset, data, true);
            |r| == Max(offset + |data|, |prior|) &&
            forall k :: 0 <= k < |r| ==>
              r[k] == if offset <= k < offset + |data| then data[k - offset] else if k < |prior| then prior[k] else 0
  {
  }

  /** A truncation keeps the bytes below the new length and fills the rest with zeros. */
  lemma TruncatedAt(prior: Bytes, length: nat)
    ensures var r := Staged(prior, length, [], false);
            |r| == length && forall k :: 0 <= k < length ==> r[k] == if k < |prior| then prior[k] else 0
  {
  }

  lemma AppendedIsConcatenation(prior: Bytes, data: Bytes)
    ensures Staged(prior, |prior|, data, true) == prior + data
  {
    assert prior[..|prior|] == prior && Zeros(0) == [];
  }

  // --- the writer ------------------------------------------------------------

  /** The rows after `pending`, buffered bytes and new ones, was stored as far as it fills chunks. */
  function Flushed(rows: Rows, next: nat, pending: Bytes): Rows
    decreases |pending|
  {
    if |pending| < CHUNK_SIZE then rows
        else Flushed(rows[next := pending[..CHUNK_SIZE]], next + 1, pending[CHUNK_SIZE..])
  }

  /** The bytes that stay in the buffer. */
  function Rest(pending: Bytes): (r: Bytes)
    ensures |r| == ChunkLocalOffset(|pending|)
    decreases |pending|
  {
    if |pending| < CHUNK_SIZE then pending else Rest(pending[CHUNK_SIZE..])
  }

  /** `finish`: what is left in the buffer becomes the last row. */
  function Closed(rows: Rows, next: nat, buffer: Bytes): Rows { if buffer == [] then rows else rows[next := buffer] }

  /** Behind a layout, flushing lays out the full chunks of what follows, and the rest follows them. */
  lemma {:induction false} FlushedLaysOut(committed: Bytes, next: nat, pending: Bytes)
    requires |committed| == next * CHUNK_SIZE
    ensures var full := ChunkIndexOf(|pending|) * CHUNK_SIZE;
            full <= |pending| && Rest(pending) == pending[full..] &&
            Flushed(RowsOf(committed), next, pending) == RowsOf(committed + pending[..full])
    decreases |pending|
  {
    hide RowsOf;
    if |pending| < CHUNK_SIZE {
      assert committed + pending[..0] == committed;
    } else {
      var chunk, others := pending[..CHUNK_SIZE], pending[CHUNK_SIZE..];
      RowsGrow(committed, chunk, next);
      FlushedLaysOut(committed + chunk, next + 1, others);
      FullChunks(committed, pending, ChunkIndexOf(|others|) * CHUNK_SIZE);
    }
  }

  lemma FullChunks(committed: Bytes, pending: Bytes, full: nat)
    requires CHUNK_SIZE + full <= |pending|
    ensures var chunk, others := pending[..CHUNK_SIZE], pending[CHUNK_SIZE..];
            (committed + chunk) + others[..full] == committed + pending[..CHUNK_SIZE + full] &&
            others[full..] == pending[CHUNK_SIZE + full..]
  {
    assert pending[..CHUNK_SIZE + full] == pending[..CHUNK_SIZE] + pending[CHUNK_SIZE..][..full];
  }

  /** Flushing never stores a row below the next index. */
  lemma {:induction false} FlushedKeepsBelow(rows: Rows, next: nat, pending: Bytes, k: nat)
    requires k < next
    ensures k in Flushed(rows, next, pending) <==> k in rows
    decreases |pending|
  {
    if |pending| >= CHUNK_SIZE {
      FlushedKeepsBelow(rows[next := pending[..CHUNK_SIZE]], next + 1, pending[CHUNK_SIZE..], k);
    }
  }

  lemma FlushOne(rows: Rows, next: nat, chunk: Bytes, bytes: Bytes)
    requires |chunk| == CHUNK_SIZE
    ensures Flushed(rows, next, chunk + bytes) == Flushed(rows[next := chunk], next + 1, bytes) &&
            Rest(chunk + bytes) == Rest(bytes)
  {
    assert (chunk + bytes)[..CHUNK_SIZE] == chunk && (chunk + bytes)[CHUNK_SIZE..] == bytes;
  }

  lemma FlushNothing(rows: Rows, next: nat, pending: Bytes)
    requires |pending| < CHUNK_SIZE
    ensures Flushed(rows, next, pending) == rows && Rest(pending) == pending
  {
  }

  /** Bytes taken in behind a layout are laid out, and the rest of them buffered. */
  lemma TakenInBehind(committed: Bytes, next: nat, buffer: Bytes, data: Bytes) returns (grown: Bytes)
    requires |committed| == next * CHUNK_SIZE
    ensures Flushed(RowsOf(committed), next, buffer + data) == RowsOf(grown)
    ensures grown + Rest(buffer + data) == (committed + buffer) + data
  {
    var pending := buffer + data;
    FlushedLaysOut(committed, next, pending);
    hide RowsOf, Flushed, Rest;
    var full := ChunkIndexOf(|pending|) * CHUNK_SIZE;
    grown := committed + pending[..full];
    assert pending[..full] + pending[full..] == pending;
    assert grown + pending[full..] == committed + pending;
    assert (committed + buffer) + data == committed + pending;
  }

  lemma {:induction false} FlattenSame(a: Rows, b: Rows, n: nat)
    requires forall k :: 0 <= k < n ==> Fetch(a, k) == Fetch(b, k)
    ensures Flatten(a, n) == Flatten(b, n)
  {
    if n > 0 { FlattenSame(a, b, n - 1); }
  }

  lemma FlattenOneMore(rows: Rows, next: nat, chunk: Bytes)
    ensures Flatten(rows[next := chunk], next + 1) == Flatten(rows, next) + chunk
  {
    FlattenSame(rows, rows[next := chunk], next);
  }

  lemma Regroup(a: Bytes, chunk: Bytes, others: Bytes, pending: Bytes)
    requires pending == chunk + others
    ensures (a + chunk) + others == a + pending
  {
  }

  /** Behind any rows, gaps or not, flushing and buffering keep all the bytes. */
  lemma {:induction false} FlushedFlattens(rows: Rows, next: nat, pending: Bytes)
    ensures Flatten(Flushed(rows, next, pending), next + ChunkIndexOf(|pending|)) + Rest(pending) ==
            Flatten(rows, next) + pending
    decreases |pending|
  {
    if |pending| < CHUNK_SIZE {
      FlushNothing(rows, next, pending);
    } else {
      hide Flatten, Flushed, Rest;
      var chunk, others := pending[..CHUNK_SIZE], pending[CHUNK_SIZE..];
      FlushedFlattens(rows[next := chunk], next + 1, others);
      FlattenOneMore(rows, next, chunk);
      FlushOne(rows, next, chunk, others);
      assert pending == chunk + others;
      Regroup(Flatten(rows, next), chunk, others, pending);
      assert next + ChunkIndexOf(|pending|) == next + 1 + ChunkIndexOf(|others|);
    }
  }

  lemma ClosedFlattens(rows: Rows, next: nat, buffer: Bytes)
    requires |buffer| < CHUNK_SIZE
    ensures Flatten(Closed(rows, next, buffer), NumChunks(next * CHUNK_SIZE + |buffer|)) == Flatten(rows, next) + buffer
  {
    if buffer == [] {
      assert NumChunks(next * CHUNK_SIZE) == next && Flatten(rows, next) + [] == Flatten(rows, next);
    } else {
      assert NumChunks(next * CHUNK_SIZE + |buffer|) == next + 1;
      FlattenOneMore(rows, next, buffer);
    }
  }

  class ChunkWriter {
    const maxFileBytes: nat
    var nextChunkIndex: nat
    var committedLen: nat
    var buffer: Bytes
    /** The chunk rows stored so far under the writer's own generation. */
    var rows: Rows
    /** The bytes those rows hold, if no chunk was passed over. */
    ghost var committed: Bytes

    ghost predicate Valid()
      reads this
    {
      |buffer| < CHUNK_SIZE && committedLen == nextChunkIndex * CHUNK_SIZE
    }

    /** The rows are a layout without gaps. */
    ghost predicate Solid()
      reads this
    {
      Valid() && |committed| == committedLen && rows == RowsOf(committed)
    }

    /** Every byte accepted so far. */
    ghost function Content(): Bytes
      reads this
    {
      committed + buffer
    }

    constructor (maxFileBytes: nat)
      ensures Solid() && Content() == [] && rows == map[] && TotalLen() == 0 && this.maxFileBytes == maxFileBytes
    {
      this.maxFileBytes := maxFileBytes;
      nextChunkIndex, committedLen, buffer, committed := 0, 0, [], [];
      rows := map[];
    }

    function TotalLen(): nat
      reads this
    {
      committedLen + |buffer|
    }

    method FlushFullBuffer()
      requires |buffer| == CHUNK_SIZE && committedLen == nextChunkIndex * CHUNK_SIZE
      modifies this
      ensures Valid() && rows == old(rows)[old(nextChunkIndex) := old(buffer)] &&
              nextChunkIndex == old(nextChunkIndex) + 1
      ensures buffer == [] && committed == old(committed) + old(buffer)
    {
      rows := rows[nextChunkIndex := buffer];
      committed := committed + buffer;
      buffer := [];
      committedLen := committedLen + CHUNK_SIZE;
      nextChunkIndex := nextChunkIndex + 1;
    }

    /** Takes in bytes exactly if they fit; what was there is not looked at. */
    method WriteBytes(data: Bytes) returns (ok: bool)
      requires Valid()
      modifies this
      ensures ok <==> data == [] || old(TotalLen()) + |data| <= maxFileBytes
      ensures ok ==> Valid() && TotalLen() == old(TotalLen()) + |data|
      ensures ok ==>
                rows == Flushed(old(rows), old(nextChunkIndex), old(buffer) + data) &&
                buffer == Rest(old(buffer) + data)
      ensures ok && old(Solid()) ==> Solid() && Content() == old(Content()) + data
    {
      hide RowsOf, Flushed, Rest;
      var bytes := data;
      ghost var pending := buffer + data;
      ghost var solid := Solid();
      ghost var grown: Bytes := [];
      if solid { grown := TakenInBehind(committed, nextChunkIndex, buffer, data); }
      while bytes != []
        invariant Valid() && TotalLen() + |bytes| == old(TotalLen()) + |data|
        invariant Flushed(rows, nextChunkIndex, buffer + bytes) == Flushed(old(rows), old(nextChunkIndex), pending)
        invariant Rest(buffer + bytes) == Rest(pending)
        invariant |bytes| <= |data| && (|bytes| < |data| ==> TotalLen() <= maxFileBytes)
        decreases |bytes|
      {
        var take := Min(CHUNK_SIZE - |buffer|, |bytes|);
        assert (buffer + bytes[..take]) + bytes[take..] == buffer + bytes;
        buffer := buffer + bytes[..take];
        bytes := bytes[take..];
        if TotalLen() > maxFileBytes { return false; }
        if |buffer| == CHUNK_SIZE {
          FlushOne(rows, nextChunkIndex, buffer, bytes);
          FlushFullBuffer();
          assert [] + bytes == bytes;
        }
      }
      assert buffer + [] == buffer;
      FlushNothing(rows, nextChunkIndex, buffer);
      committed := grown;
      return true;
    }

    /**
     Copies the first `upto` bytes of another generation: whole rows in bulk, then the
     rest.  These are two database calls, which may find different rows: `bulk` and
     `last`.  Whatever the first one finds, the length passes over all whole chunks.
     */
    method CopyPrefixFrom(bulk: Rows, last: Rows, upto: nat, ghost content: Bytes) returns (ok: bool)
      requires Solid() && Content() == [] && rows == map[] && upto <= |content| <= maxFileBytes
      modifies this
      ensures ok && Valid() && nextChunkIndex == ChunkIndexOf(upto)
      ensures rows == CopyChunkRange(bulk, map[], 0, ChunkIndexOf(upto))
      ensures buffer == Fetch(last, ChunkIndexOf(upto))[..Min(ChunkLocalOffset(upto),
                                                              |Fetch(last, ChunkIndexOf(upto))|)]
      ensures bulk == last == RowsOf(content) ==> Solid() && Content() == content[..upto]
    {
      hide RowsOf, Flushed, Rest, CopyChunkRange;
      NothingCopied(bulk);
      if upto == 0 { return true; }
      var wholeChunks := ChunkIndexOf(upto);
      var remainder := ChunkLocalOffset(upto);
      OffsetInChunk(upto, wholeChunks);
      if wholeChunks > 0 {
        CopyWholeChunks(bulk, wholeChunks, content);
      }
      assert bulk == RowsOf(content) ==> Solid() && Content() == content[..wholeChunks * CHUNK_SIZE];
      ok := true;
      if remainder > 0 {
        var bytes := Fetch(last, wholeChunks);
        var keep := Min(remainder, |bytes|);
        assert buffer + bytes[..keep] == bytes[..keep];
        FlushNothing(rows, nextChunkIndex, bytes[..keep]);
        ok := WriteBytes(bytes[..keep]);
        if bulk == last == RowsOf(content) {
          HeadOfChunk(content, wholeChunks, remainder);
          SliceJoin(content, 0, wholeChunks * CHUNK_SIZE, upto);
        }
      }
    }

    /** The bulk row copy, and `skip_committed_chunks`, which does not ask what was copied. */
    method CopyWholeChunks(bulk: Rows, whole: nat, ghost content: Bytes)
      requires Solid() && Content() == [] && rows == map[] && whole * CHUNK_SIZE <= |content|
      modifies this
      ensures Valid() && rows == CopyChunkRange(bulk, map[], 0, whole) && nextChunkIndex == whole && buffer == []
      ensures bulk == RowsOf(content) ==> Solid() && Content() == content[..whole * CHUNK_SIZE]
    {
      assert committed == [] && buffer == [];
      NoRows();
      BulkRows(content, whole);
      rows := CopyChunkRange(bulk, rows, 0, whole);
      committed := content[..whole * CHUNK_SIZE];
      nextChunkIndex := nextChunkIndex + whole;
      committedLen := committedLen + whole * CHUNK_SIZE;
    }

    /** Re-chunks the bytes `[from, to)` of another generation behind what is already written. */
    method CopySuffixFrom(prior: Rows, from: nat, to: nat, ghost content: Bytes) returns (ok: bool)
      requires Solid() && prior == RowsOf(content) && to <= |content|
      requires from < to ==> |Content()| + (to - from) <= maxFileBytes
      modifies this
      ensures ok && Solid() && Content() == old(Content()) + (if from < to then content[from..to] else [])
    {
      if from >= to { return true; }
      var startChunk, endChunk := ChunkIndexOf(from), ChunkIndexOf(to - 1);
      ghost var start := Content();
      ghost var upto := from;
      for index := startChunk to endChunk + 1
        invariant Solid() && upto == PieceStart(from, to, index) && from <= upto <= to
        invariant Content() == start + content[from..upto]
      {
        var chunk := CutRow(prior, from, to, index, content);
        ghost var next := PieceStart(from, to, index + 1);
        SliceJoin(content, from, upto, next);
        var fits := WriteBytes(chunk);
        upto := next;
      }
      return true;
    }

    method ZeroFill(len: nat) returns (ok: bool)
      requires Solid()
      modifies this
      ensures ok <==> len == 0 || |old(Content())| + len <= maxFileBytes
      ensures ok ==> Solid() && Content() == old(Content()) + Zeros(len)
    {
      var remaining: nat := len;
      ghost var start := Content();
      while remaining > 0
        invariant Solid() && remaining <= len && Content() == start + Zeros(len - remaining)
        invariant remaining < len ==> |Content()| <= maxFileBytes
      {
        var piece := Min(remaining, CHUNK_SIZE);
        ok := WriteBytes(Zeros(piece));
        if !ok { return false; }
        ZerosJoin(len - remaining, piece);
        remaining := remaining - piece;
      }
      assert Content() == start + Zeros(len);
      return true;
    }

    /** Stores the last partial chunk and returns the logical length. */
    method Finish() returns (length: nat)
      requires Valid()
      modifies this
      ensures rows == Closed(old(rows), old(nextChunkIndex), old(buffer)) && length == old(TotalLen())
      ensures old(Solid()) ==> rows == RowsOf(old(Content())) && length == |old(Content())|
    {
      if old(Solid()) { ClosedLaysOut(committed, nextChunkIndex, buffer); }
      if buffer != [] {
        rows := rows[nextChunkIndex := buffer];
        committedLen := committedLen + |buffer|;
        buffer := [];
      }
      length := committedLen;
    }
  }

  lemma ClosedLaysOut(committed: Bytes, next: nat, buffer: Bytes)
    requires |committed| == next * CHUNK_SIZE && |buffer| < CHUNK_SIZE
    ensures Closed(RowsOf(committed), next, buffer) == RowsOf(committed + buffer)
  {
    if buffer == [] { assert committed + buffer == committed; } else { RowsGrow(committed, buffer, next); }
  }

  lemma NothingCopied(from: Rows)
    ensures CopyChunkRange(from, map[], 0, 0) == map[]
  {
  }

  lemma ZerosJoin(a: nat, b: nat)
    ensures Zeros(a) + Zeros(b) == Zeros(a + b)
  {
  }

  /** `copy_chunk_range`: the rows `[lo, hi)` of one generation added to another. */
  function CopyChunkRange(from: Rows, to: Rows, lo: nat, hi: nat): Rows {
    to + map i | i in from && lo <= i < hi :: from[i]
  }

  lemma NoRows()
    ensures RowsOf([]) == map[]
  {
  }

  lemma ChunkOfPrefix(content: Bytes, k: nat, whole: nat)
    requires k < whole && whole * CHUNK_SIZE <= |content|
    ensures Chunk(content[..whole * CHUNK_SIZE], k) == Chunk(content, k) ==
            content[k * CHUNK_SIZE..(k + 1) * CHUNK_SIZE]
  {
  }

  lemma SameRows(a: Rows, b: Rows, n: nat)
    requires forall k: nat :: k in a <==> k < n
    requires forall k: nat :: k in b <==> k < n
    requires forall k: nat :: k < n ==> a[k] == b[k]
    ensures a == b
  {
  }

  lemma RowsKeys(content: Bytes, n: nat)
    requires n == NumChunks(|content|)
    ensures forall k: nat :: k in RowsOf(content) <==> k < n
    ensures forall k: nat :: k < n ==> RowsOf(content)[k] == Chunk(content, k)
  {
  }

  lemma CopiedKeys(from: Rows, n: nat, whole: nat)
    requires (forall k: nat :: k in from <==> k < n) && whole <= n
    ensures var copied := CopyChunkRange(from, map[], 0, whole);
            (forall k: nat :: k in copied <==> k < whole) && forall k: nat :: k < whole ==> copied[k] == from[k]
  {
  }

  lemma BulkRows(content: Bytes, whole: nat)
    requires whole * CHUNK_SIZE <= |content|
    ensures CopyChunkRange(RowsOf(content), RowsOf([]), 0, whole) == RowsOf(content[..whole * CHUNK_SIZE])
  {
    NoRows();
    RowsKeys(content, NumChunks(|content|));
    CopiedKeys(RowsOf(content), NumChunks(|content|), whole);
    RowsKeys(content[..whole * CHUNK_SIZE], whole);
    forall k: nat | k < whole ensures Chunk(content[..whole * CHUNK_SIZE], k) == Chunk(content, k) {
      ChunkOfPrefix(content, k, whole);
    }
    SameRows(CopyChunkRange(RowsOf(content), map[], 0, whole), RowsOf(content[..whole * CHUNK_SIZE]), whole);
  }

  lemma LastChunk(committed: Bytes, chunk: Bytes, i: nat)
    requires |committed| == i * CHUNK_SIZE && 0 < |chunk| <= CHUNK_SIZE
    ensures Chunk(committed + chunk, i) == chunk
  {
    var all := committed + chunk;
    assert Min((i + 1) * CHUNK_SIZE, |all|) == |all|;
    assert all[|committed|..|all|] == chunk;
  }

  lemma GrowKeys(a: Rows, b: Rows, chunk: Bytes, i: nat)
    requires forall k: nat :: k in a <==> k < i
    requires forall k: nat :: k in b <==> k < i + 1
    requires b[i] == chunk && forall k: nat :: k < i ==> a[k] == b[k]
    ensures a[i := chunk] == b
  {
  }

  /** Storing one more chunk extends the stored layout by its bytes. */
  lemma RowsGrow(committed: Bytes, chunk: Bytes, i: nat)
    requires |committed| == i * CHUNK_SIZE && 0 < |chunk| <= CHUNK_SIZE
    ensures RowsOf(committed)[i := chunk] == RowsOf(committed + chunk)
  {
    RowsKeys(committed, i);
    RowsKeys(committed + chunk, i + 1);
    assert (committed + chunk)[..i * CHUNK_SIZE] == committed;
    forall k: nat | k < i ensures RowsOf(committed)[k] == RowsOf(committed + chunk)[k] {
      ChunkOfPrefix(committed + chunk, k, i);
    }
    LastChunk(committed, chunk, i);
    GrowKeys(RowsOf(committed), RowsOf(committed + chunk), chunk, i);
  }

  /** Where the piece of `[from, to)` that lies in chunk `index` begins. */
  function PieceStart(from: nat, to: nat, index: nat): nat {
    if index <= ChunkIndexOf(from) then from else Min(index * CHUNK_SIZE, to)
  }

  lemma OffsetInChunk(offset: nat, index: nat)
    ensures offset == ChunkIndexOf(offset) * CHUNK_SIZE + ChunkLocalOffset(offset)
    ensures 0 <= ChunkLocalOffset(offset) < CHUNK_SIZE
    ensures index < ChunkIndexOf(offset) ==> (index + 1) * CHUNK_SIZE <= offset
    ensures index > ChunkIndexOf(offset) ==> offset < index * CHUNK_SIZE
  {
  }

  function Cut(row: Bytes, first: Option<nat>, last: Option<nat>): Bytes {
    var upto := if last.Some? then row[..Min(last.value + 1, |row|)] else row;
    if first.Some? then upto[Min(first.value, |upto|)..] else upto
  }

  lemma CutSlice(content: Bytes, lo: nat, hi: nat, from: nat, to: nat)
    requires lo < hi && from < to <= |content| && from < hi && lo < to
    ensures var row := content[Min(lo, |content|)..Min(hi, |content|)];
            Cut(row, if lo <= from then Some(from - lo) else None, if to <= hi then Some(to - 1 - lo) else None) ==
            content[Max(lo, from)..Min(hi, to)]
  {
    var end := Min(hi, |content|);
    var row := content[lo..end];
    var upto := content[lo..Min(hi, to)];
    if to <= hi { assert row[..to - lo] == upto; } else { assert end == hi; }
    if lo <= from { assert upto[from - lo..] == content[from..Min(hi, to)]; }
  }

  /** Cutting a chunk row at both ends leaves that piece. */
  lemma PieceOfChunk(content: Bytes, from: nat, to: nat, index: nat)
    requires from < to <= |content| && ChunkIndexOf(from) <= index <= ChunkIndexOf(to - 1)
    ensures var lo, hi := PieceStart(from, to, index), PieceStart(from, to, index + 1);
            from <= lo <= hi <= to && (index == ChunkIndexOf(to - 1) ==> hi == to) &&
            content[lo..hi] == Cut(Chunk(content, index),
                                   if index == ChunkIndexOf(from) then Some(ChunkLocalOffset(from)) else None,
                                   if index == ChunkIndexOf(to - 1) then Some(ChunkLocalOffset(to - 1)) else None)
  {
    var lo, hi := index * CHUNK_SIZE, (index + 1) * CHUNK_SIZE;
    OffsetInChunk(from, index);
    OffsetInChunk(to - 1, index);
    OffsetInChunk(from, index + 1);
    OffsetInChunk(to - 1, index + 1);
    CutSlice(content, lo, hi, from, to);
  }

  /** Fetches one row and keeps its part of `[from, to)`. */
  method CutRow(rows: Rows, from: nat, to: nat, index: nat, ghost content: Bytes) returns (chunk: Bytes)
    requires rows == RowsOf(content) && from < to <= |content|
    requires ChunkIndexOf(from) <= index <= ChunkIndexOf(to - 1)
    ensures var lo, hi := PieceStart(from, to, index), PieceStart(from, to, index + 1);
            from <= lo <= hi <= to && (index == ChunkIndexOf(to - 1) ==> hi == to) && chunk == content[lo..hi]
  {
    FetchIsChunk(content, index);
    PieceOfChunk(content, from, to, index);
    chunk := Fetch(rows, index);
    if index == ChunkIndexOf(to - 1) { chunk := chunk[..Min(ChunkLocalOffset(to - 1) + 1, |chunk|)]; }
    if index == ChunkIndexOf(from) { chunk := chunk[Min(ChunkLocalOffset(from), |chunk|)..]; }
  }

  lemma HeadOfChunk(content: Bytes, i: nat, n: nat)
    requires n < CHUNK_SIZE && i * CHUNK_SIZE + n <= |content|
    ensures var row := Fetch(RowsOf(content), i);
            row[..Min(n, |row|)] == content[i * CHUNK_SIZE..i * CHUNK_SIZE + n]
  {
    FetchIsChunk(content, i);
  }

  // --- staging a source ------------------------------------------------------

  /** One item of an incoming byte stream. */
  datatype Item = Data(bytes: Bytes) | Broken

  datatype StageError = QuotaExceeded | SourceFailed

  predicate Whole(source: seq<Item>) { forall i :: 0 <= i < |source| ==> source[i].Data? }

  /** The bytes of a stream, however it is cut into pieces. */
  function Gather(source: seq<Item>): Bytes {
    if source == [] then [] else (if source[0].Data? then source[0].bytes else []) + Gather(source[1..])
  }

  lemma {:induction false} GatherLast(source: seq<Item>, item: Item)
    ensures Gather(source + [item]) == Gather(source) + (if item.Data? then item.bytes else [])
  {
    if source == [] {
      assert source + [item] == [item];
    } else {
      assert (source + [item])[1..] == source[1..] + [item];
      GatherLast(source[1..], item);
    }
  }

  lemma {:induction false} GatherPrefixLength(source: seq<Item>, i: nat)
    requires i <= |source|
    ensures |Gather(source[..i])| <= |Gather(source)|
    decreases |source|
  {
    if i > 0 {
      assert source[..i][1..] == source[1..][..i - 1];
      GatherPrefixLength(source[1..], i - 1);
    }
  }

  lemma GatherUpTo(source: seq<Item>, i: nat)
    requires i < |source| && source[i].Data? && Whole(source[..i])
    ensures Gather(source[..i + 1]) == Gather(source[..i]) + source[i].bytes && Whole(source[..i + 1])
    ensures |Gather(source[..i + 1])| <= |Gather(source)|
  {
    assert source[..i + 1] == source[..i] + [source[i]];
    GatherLast(source[..i], source[i]);
    GatherPrefixLength(source, i + 1);
  }

  /** The first thing that stops a writer which holds `total` bytes, if anything does. */
  function Feed(total: nat, source: seq<Item>, maxFileBytes: nat): Option<StageError>
    decreases |source|
  {
    if source == [] then None
    else match source[0]
      case Broken => Some(SourceFailed)
      case Data(bytes) =>
        if bytes != [] && total + |bytes| > maxFileBytes then Some(QuotaExceeded)
        else Feed(total + |bytes|, source[1..], maxFileBytes)
  }

  /** What one item does to a writer that holds `total` bytes. */
  lemma FeedStep(total: nat, source: seq<Item>, i: nat, maxFileBytes: nat)
    requires i < |source|
    ensures Feed(total, source[i..], maxFileBytes) ==
            match source[i]
            case Broken => Some(SourceFailed)
            case Data(bytes) =>
              if bytes != [] && total + |bytes| > maxFileBytes then Some(QuotaExceeded)
              else Feed(total + |bytes|, source[i + 1..], maxFileBytes)
  {
    assert source[i..][0] == source[i] && source[i..][1..] == source[i + 1..];
  }

  /** Feeding succeeds exactly on whole streams that fit, however they are cut. */
  lemma {:induction false} FeedSucceedsIff(total: nat, source: seq<Item>, maxFileBytes: nat)
    ensures Feed(total, source, maxFileBytes).None? <==>
            Whole(source) && (Gather(source) == [] || total + |Gather(source)| <= maxFileBytes)
    decreases |source|
  {
    if source != [] {
      assert Whole(source) <==> source[0].Data? && Whole(source[1..]) by {
        assert forall i :: 0 < i < |source| ==> source[i] == source[1..][i - 1];
        assert forall i :: 0 <= i < |source[1..]| ==> source[1..][i] == source[i + 1];
      }
      if source[0].Data? { FeedSucceedsIff(total + |source[0].bytes|, source[1..], maxFileBytes); }
    }
  }

  /** The first `i` items were taken in. */
  ghost predicate Drained(start: Bytes, content: Bytes, source: seq<Item>, i: nat)
    requires i <= |source|
  {
    Whole(source[..i]) && content == start + Gather(source[..i])
  }

  lemma NothingDrained(start: Bytes, source: seq<Item>)
    ensures Drained(start, start, source, 0)
  {
    assert start + [] == start;
  }

  lemma OneMoreDrained(start: Bytes, content: Bytes, source: seq<Item>, i: nat)
    requires i < |source| && source[i].Data? && Drained(start, content, source, i)
    ensures Drained(start, content + source[i].bytes, source, i + 1)
  {
    GatherUpTo(source, i);
    assert start + Gather(source[..i]) + source[i].bytes == start + (Gather(source[..i]) + source[i].bytes);
  }

  lemma AllDrained(start: Bytes, content: Bytes, source: seq<Item>)
    requires Drained(start, content, source, |source|)
    ensures content == start + Gather(source)
  {
    assert source[..|source|] == source;
  }

  /** Feeds a whole stream into a writer. */
  method Drain(writer: ChunkWriter, source: seq<Item>) returns (failure: Option<StageError>)
    requires writer.Solid()
    modifies writer
    ensures failure == Feed(|old(writer.Content())|, source, writer.maxFileBytes)
    ensures failure.None? ==> writer.Solid() && writer.Content() == old(writer.Content()) + Gather(source)
  {
    hide RowsOf, NumChunks, Gather, Drained, Feed;
    ghost var start := writer.Content();
    NothingDrained(start, source);
    assert source[0..] == source;
    for i := 0 to |source|
      invariant writer.Solid() && Drained(start, writer.Content(), source, i)
      invariant Feed(|writer.Content()|, source[i..], writer.maxFileBytes) == Feed(|start|, source, writer.maxFileBytes)
    {
      FeedStep(|writer.Content()|, source, i, writer.maxFileBytes);
      if source[i].Broken? { return Some(SourceFailed); }
      OneMoreDrained(start, writer.Content(), source, i);
      var ok := writer.WriteBytes(source[i].bytes);
      if !ok { return Some(QuotaExceeded); }
    }
    FeedNothing(|writer.Content()|, source, writer.maxFileBytes);
    AllDrained(start, writer.Content(), source);
    return None;
  }

  lemma FeedNothing(total: nat, source: seq<Item>, maxFileBytes: nat)
    ensures Feed(total, source[|source|..], maxFileBytes).None?
  {
  }

  /** `stage_source`: a whole new content. */
  method StageSource(source: seq<Item>, maxFileBytes: nat) returns (r: Result<(Rows, nat), StageError>)
    ensures r == var failure := Feed(0, source, maxFileBytes);
                 if failure.Some? then Err(failure.value) else Ok((RowsOf(Gather(source)), |Gather(source)|))
  {
    var writer := new ChunkWriter(maxFileBytes);
    var failure := Drain(writer, source);
    if failure.Some? { return Err(failure.value); }
    assert writer.Content() == Gather(source);
    var length := writer.Finish();
    return Ok((writer.rows, length));
  }

  /** What stops the staging of `write_at_impl`: the gap is zero-filled before the source is read. */
  function StageFailure(priorLength: nat, offset: nat, source: seq<Item>, maxFileBytes: nat): Option<StageError> {
    if offset > priorLength && offset > maxFileBytes then Some(QuotaExceeded) else Feed(offset, source, maxFileBytes)
  }

  /** The staging part of `write_at_impl`, over the rows of the generation being replaced. */
  method StageWriteAt(prior: Option<Rows>, priorLength: nat, offset: nat, source: seq<Item>,
                      maxFileBytes: nat, preserve: bool, ghost content: Bytes)
    returns (r: Result<(Rows, nat), StageError>)
    requires |content| == priorLength <= maxFileBytes
    requires if prior.Some? then prior.value == RowsOf(content) else content == []
    ensures r == var failure := StageFailure(priorLength, offset, source, maxFileBytes);
                 if failure.Some? then Err(failure.value)
                 else var bytes := Staged(content, offset, Gather(source), preserve); Ok((RowsOf(bytes), |bytes|))
  {
    hide RowsOf, NumChunks, Gather, Feed;
    var writer := new ChunkWriter(maxFileBytes);
    if prior.Some? {
      var copied := writer.CopyPrefixFrom(prior.value, prior.value, Min(offset, priorLength), content);
    }
    ghost var prefix := content[..Min(offset, priorLength)];
    assert writer.Content() == prefix;
    if offset > priorLength {
      var filled := writer.ZeroFill(offset - priorLength);
      if !filled { return Err(QuotaExceeded); }
    }
    ghost var gap := Zeros(Max(0, offset - priorLength));
    assert writer.Content() == prefix + gap;
    var failure := Drain(writer, source);
    if failure.Some? { return Err(failure.value); }
    FeedSucceedsIff(offset, source, maxFileBytes);
    ghost var head := prefix + gap + Gather(source);
    assert writer.Content() == head;
    var newDataEnd := writer.TotalLen();
    assert newDataEnd == |head|;
    if preserve && newDataEnd < priorLength {
      var copied := writer.CopySuffixFrom(prior.value, newDataEnd, priorLength, content);
      assert content[newDataEnd..priorLength] == content[newDataEnd..];
    }
    assert writer.Content() == Staged(content, offset, Gather(source), preserve);
    var length := writer.Finish();
    return Ok((writer.rows, length));
  }

  /** Staging succeeds exactly when the source is whole and the new bytes end within the quota. */
  lemma StagingSucceedsIff(prior: Bytes, offset: nat, source: seq<Item>, maxFileBytes: nat, preserve: bool)
    requires |prior| <= maxFileBytes
    ensures StageFailure(|prior|, offset, source, maxFileBytes).None? <==>
            Whole(source) && offset + |Gather(source)| <= maxFileBytes
    ensures StageFailure(|prior|, offset, source, maxFileBytes).None? ==>
            |Staged(prior, offset, Gather(source), preserve)| <= maxFileBytes
  {
    FeedSucceedsIff(offset, source, maxFileBytes);
  }

  // --- ranged reads ----------------------------------------------------------

  /** The stream returned by `read`: one chunk row per pull. */
  class ChunkRangeStream {
    const rows: Rows
    var currentChunk: nat
    const endChunk: nat
    const start: nat
    const end: nat

    constructor (rows: Rows, start: nat, end: nat)
      requires start < end
      ensures this.rows == rows && this.start == start && this.end == end
      ensures currentChunk == ChunkIndexOf(start) && endChunk == ChunkIndexOf(end - 1)
    {
      this.rows, this.start, this.end := rows, start, end;
      currentChunk, endChunk := ChunkIndexOf(start), ChunkIndexOf(end - 1);
    }

    /** How far into the file the stream has delivered. */
    ghost function Position(): nat
      reads this
    {
      PieceStart(start, end, currentChunk)
    }

    method Next(ghost content: Bytes) returns (bytes: Option<Bytes>)
      requires rows == RowsOf(content) && start < end <= |content|
      requires endChunk == ChunkIndexOf(end - 1) && ChunkIndexOf(start) <= currentChunk
      modifies this
      ensures bytes.None? <==> old(currentChunk) > endChunk
      ensures bytes.None? ==> Position() == old(Position()) == end
      ensures bytes.Some? ==> currentChunk == old(currentChunk) + 1 && start <= old(Position()) <= Position() <= end
      ensures bytes.Some? ==> bytes.value == content[old(Position())..Position()]
    {
      if currentChunk > endChunk { return None; }
      var index := currentChunk;
      var chunk := CutRow(rows, start, end, index, content);
      currentChunk := currentChunk + 1;
      return Some(chunk);
    }
  }

  datatype ReadError = InvalidRange

  /** `read` drained to its end: the requested range, clamped to the file. */
  method ReadRange(rows: Rows, size: nat, range: Option<(nat, nat)>, ghost content: Bytes)
    returns (r: Result<Bytes, ReadError>)
    requires rows == RowsOf(content) && size == |content|
    ensures r.Err? <==> range.Some? && range.value.0 > size
    ensures r.Ok? ==> var (lo, hi) := if range.Some? then range.value else (0, size);
                      r.value == if lo < Min(hi, size) then content[lo..Min(hi, size)] else []
  {
    var (lo, hi) := if range.Some? then range.value else (0, size);
    if lo > size { return Err(InvalidRange); }
    var end := Min(hi, size);
    if lo >= end { return Ok([]); }
    var stream := new ChunkRangeStream(rows, lo, end);
    var out: Bytes := [];
    ghost var at := lo;
    var piece := stream.Next(content);
    while piece.Some?
      invariant ChunkIndexOf(lo) <= stream.currentChunk
      invariant lo <= at <= stream.Position() <= end && out == content[lo..at]
      invariant if piece.Some? then piece.value == content[at..stream.Position()] else at == end
      decreases piece.Some?, stream.endChunk + 1 - stream.currentChunk
    {
      SliceJoin(content, lo, at, stream.Position());
      out := out + piece.value;
      at := stream.Position();
      piece := stream.Next(content);
    }
    return Ok(out);
  }
}
