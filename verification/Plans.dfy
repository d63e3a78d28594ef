/**
 The calls by which `write_at_impl` (crates/fslite-sqlite/src/content.rs) takes in the
 bytes of a new generation, and what they amount to if the old generation stays.
 */
module Plans {
  import opened Common
  import opened Chunks

  /** A stretch of one chunk row. */
  function Piece(rows: Rows, index: nat, lo: nat, hi: nat): Bytes {
    var row := Fetch(rows, index);
    row[Min(lo, |row|)..Max(Min(lo, |row|), Min(hi, |row|))]
  }

  /** What a writer takes in at one call: new bytes, the first `n` old chunks in bulk, or a piece of one. */
  datatype Take = New(bytes: Bytes) | Bulk(n: nat) | Old(index: nat, lo: nat, hi: nat)

  /** The bytes that a call takes in, the rows of the old generation being `prior`. */
  function Meant(prior: Rows, t: Take): Bytes {
    match t
    case New(bytes) => bytes
    case Bulk(n) => Flatten(prior, n)
    case Old(index, lo, hi) => Piece(prior, index, lo, hi)
  }

  function AllMeant(prior: Rows, takes: seq<Take>): Bytes {
    if takes == [] then [] else AllMeant(prior, takes[..|takes| - 1]) + Meant(prior, takes[|takes| - 1])
  }

  lemma NothingMeant(prior: Rows)
    ensures AllMeant(prior, []) == []
  {
  }

  lemma OneMore(prior: Rows, takes: seq<Take>, t: Take)
    ensures AllMeant(prior, takes + [t]) == AllMeant(prior, takes) + Meant(prior, t)
  {
    hide Meant;
    assert (takes + [t])[..|takes|] == takes;
  }

  lemma OneMeant(prior: Rows, t: Take)
    ensures AllMeant(prior, [t]) == Meant(prior, t)
  {
    hide Meant;
    assert [t][..0] == [];
  }

  lemma {:induction false} MeantJoin(prior: Rows, a: seq<Take>, b: seq<Take>)
    ensures AllMeant(prior, a + b) == AllMeant(prior, a) + AllMeant(prior, b)
  {
    hide Meant;
    if b == [] {
      assert a + b == a;
    } else {
      var front, last := b[..|b| - 1], b[|b| - 1];
      assert a + b == (a + front) + [last] && b == front + [last];
      MeantJoin(prior, a, front);
      OneMore(prior, a + front, last);
      OneMore(prior, front, last);
      hide AllMeant;
      assert AllMeant(prior, a) + (AllMeant(prior, front) + Meant(prior, last)) ==
             (AllMeant(prior, a) + AllMeant(prior, front)) + Meant(prior, last);
    }
  }

  // --- the plan --------------------------------------------------------------

  /** The reads of `copy_prefix_from`: whole chunks in bulk, then the beginning of one. */
  function PrefixTakes(upto: nat): seq<Take> {
    (if ChunkIndexOf(upto) > 0 then [Bulk(ChunkIndexOf(upto))] else []) +
    if ChunkLocalOffset(upto) > 0 then [Old(ChunkIndexOf(upto), 0, ChunkLocalOffset(upto))] else []
  }

  function SuffixTake(from: nat, to: nat, index: nat): Take
    requires from < to
  {
    Old(index, if index == ChunkIndexOf(from) then ChunkLocalOffset(from) else 0,
        if index == ChunkIndexOf(to - 1) then ChunkLocalOffset(to - 1) + 1 else CHUNK_SIZE)
  }

  function FirstSuffixTakes(from: nat, to: nat, n: nat): seq<Take>
    requires from < to
  {
    if n == 0 then [] else FirstSuffixTakes(from, to, n - 1) + [SuffixTake(from, to, ChunkIndexOf(from) + n - 1)]
  }

  /** The reads of `copy_suffix_from`: one for each chunk that the range touches. */
  function SuffixTakes(from: nat, to: nat): seq<Take> {
    if from >= to then [] else FirstSuffixTakes(from, to, Max(0, ChunkIndexOf(to - 1) - ChunkIndexOf(from) + 1))
  }

  /** Up to its suffix: the old prefix, then gap and data in any pieces; the old content has `length` bytes. */
  ghost predicate BeginsPlan(length: nat, takes: seq<Take>, offset: nat, data: Bytes) {
    exists added: seq<Take> ::
      (forall i :: 0 <= i < |added| ==> added[i].New?) &&
      AllMeant(map[], added) == Zeros(Max(0, offset - length)) + data &&
      takes == PrefixTakes(Min(offset, length)) + added
  }

  /** The suffix, if it is kept, begins at the length the writer has reached. */
  function SuffixPlan(length: nat, reached: nat, preserve: bool): seq<Take> {
    if preserve then SuffixTakes(reached, length) else []
  }

  // --- what it amounts to ----------------------------------------------------

  lemma SliceOfSlice(content: Bytes, from: nat, end: nat, lo: nat, hi: nat)
    requires lo <= hi && from + hi <= end <= |content|
    ensures content[from..end][lo..hi] == content[from + lo..from + hi]
  {
    var row := content[from..end];
    assert |row[lo..hi]| == |content[from + lo..from + hi]|;
    forall k | 0 <= k < hi - lo
      ensures row[lo..hi][k] == content[from + lo..from + hi][k]
    {
      assert row[lo + k] == content[from + (lo + k)];
    }
  }

  /** A piece of a stored chunk row is that stretch of the content. */
  lemma PieceIsSlice(content: Bytes, index: nat, lo: nat, hi: nat)
    requires lo <= hi <= CHUNK_SIZE && index * CHUNK_SIZE + hi <= |content|
    ensures Piece(RowsOf(content), index, lo, hi) == content[index * CHUNK_SIZE + lo..index * CHUNK_SIZE + hi]
  {
    FetchIsChunk(content, index);
    var from := index * CHUNK_SIZE;
    var end := Min(from + CHUNK_SIZE, |content|);
    assert Chunk(content, index) == content[from..end];
    hide Chunk, RowsOf;
    SliceOfSlice(content, from, end, lo, hi);
  }

  lemma PrefixMeant(content: Bytes, upto: nat)
    requires upto <= |content|
    ensures AllMeant(RowsOf(content), PrefixTakes(upto)) == content[..upto]
  {
    hide Piece, AllMeant, RowsOf, Flatten;
    var rows, whole, local := RowsOf(content), ChunkIndexOf(upto), ChunkLocalOffset(upto);
    OffsetInChunk(upto, whole);
    NothingMeant(rows);
    var bulk := if whole > 0 then [Bulk(whole)] else [];
    BulkMeant(content, whole);
    if local > 0 {
      PieceIsSlice(content, whole, 0, local);
      OneMore(rows, bulk, Old(whole, 0, local));
      SliceJoin(content, 0, whole * CHUNK_SIZE, upto);
    } else {
      assert bulk + [] == bulk;
    }
  }

  lemma BulkMeant(content: Bytes, whole: nat)
    requires whole * CHUNK_SIZE <= |content|
    ensures AllMeant(RowsOf(content), if whole > 0 then [Bulk(whole)] else []) == content[..whole * CHUNK_SIZE]
  {
    hide AllMeant, RowsOf;
    NothingMeant(RowsOf(content));
    if whole > 0 {
      OneMeant(RowsOf(content), Bulk(whole));
      FlattenPrefix(content, whole);
    }
  }

  /** Where the read of one chunk of the suffix begins and ends. */
  lemma SuffixBounds(from: nat, to: nat, index: nat)
    requires from < to && ChunkIndexOf(from) <= index <= ChunkIndexOf(to - 1)
    ensures var t := SuffixTake(from, to, index);
            t.Old? && t.index == index && t.lo <= t.hi <= CHUNK_SIZE &&
            index * CHUNK_SIZE + t.lo == PieceStart(from, to, index) &&
            index * CHUNK_SIZE + t.hi == PieceStart(from, to, index + 1) <= to && from <= PieceStart(from, to, index) &&
            (index == ChunkIndexOf(to - 1) ==> PieceStart(from, to, index + 1) == to)
  {
    OffsetInChunk(from, index);
    OffsetInChunk(to - 1, index);
    OffsetInChunk(from, index + 1);
    OffsetInChunk(to - 1, index + 1);
  }

  lemma SuffixStart(from: nat, to: nat)
    ensures PieceStart(from, to, ChunkIndexOf(from)) == from
  {
  }

  lemma {:induction false} SuffixMeantUpTo(content: Bytes, from: nat, to: nat, n: nat)
    requires from < to <= |content| && n <= Max(0, ChunkIndexOf(to - 1) - ChunkIndexOf(from) + 1)
    ensures from <= PieceStart(from, to, ChunkIndexOf(from) + n) <= to
    ensures AllMeant(RowsOf(content), FirstSuffixTakes(from, to, n)) ==
            content[from..PieceStart(from, to, ChunkIndexOf(from) + n)]
  {
    hide Piece, AllMeant, RowsOf, SuffixTake, PieceStart, ChunkIndexOf;
    if n == 0 {
      SuffixStart(from, to);
      NothingMeant(RowsOf(content));
      assert content[from..from] == [];
    } else {
      var index := ChunkIndexOf(from) + n - 1;
      var t := SuffixTake(from, to, index);
      SuffixMeantUpTo(content, from, to, n - 1);
      SuffixBounds(from, to, index);
      OneMore(RowsOf(content), FirstSuffixTakes(from, to, n - 1), t);
      PieceIsSlice(content, index, t.lo, t.hi);
      SliceJoin(content, from, PieceStart(from, to, index), PieceStart(from, to, index + 1));
    }
  }

  lemma IndexIsMonotone(from: nat, to: nat)
    requires from < to
    ensures ChunkIndexOf(from) <= ChunkIndexOf(to - 1)
  {
    OffsetInChunk(from, ChunkIndexOf(to - 1));
    OffsetInChunk(to - 1, ChunkIndexOf(from));
  }

  lemma SuffixEnds(from: nat, to: nat)
    requires from < to
    ensures PieceStart(from, to, ChunkIndexOf(to - 1) + 1) == to
  {
    SuffixBounds(from, to, ChunkIndexOf(to - 1));
  }

  lemma SuffixMeant(content: Bytes, from: nat, to: nat)
    requires to <= |content|
    ensures AllMeant(RowsOf(content), SuffixTakes(from, to)) == if from < to then content[from..to] else []
  {
    hide AllMeant, FirstSuffixTakes, PieceStart, ChunkIndexOf;
    if from < to {
      IndexIsMonotone(from, to);
      var n := ChunkIndexOf(to - 1) - ChunkIndexOf(from) + 1;
      assert SuffixTakes(from, to) == FirstSuffixTakes(from, to, n);
      SuffixMeantUpTo(content, from, to, n);
      SuffixEnds(from, to);
    } else {
      NothingMeant(RowsOf(content));
    }
  }

  lemma {:induction false} NewMeant(prior: Rows, added: seq<Take>)
    requires forall i :: 0 <= i < |added| ==> added[i].New?
    ensures AllMeant(prior, added) == AllMeant(map[], added)
  {
    hide Piece, Flatten;
    if added != [] { NewMeant(prior, added[..|added| - 1]); }
  }

  /** What the calls before the suffix amount to. */
  lemma HeadMeant(prior: Bytes, takes: seq<Take>, offset: nat, data: Bytes)
    requires BeginsPlan(|prior|, takes, offset, data)
    ensures AllMeant(RowsOf(prior), takes) == prior[..Min(offset, |prior|)] + (Zeros(Max(0, offset - |prior|)) + data)
    ensures |AllMeant(RowsOf(prior), takes)| == offset + |data|
  {
    hide AllMeant, PrefixTakes, RowsOf;
    var added: seq<Take> :|
      (forall i :: 0 <= i < |added| ==> added[i].New?) &&
      AllMeant(map[], added) == Zeros(Max(0, offset - |prior|)) + data &&
      takes == PrefixTakes(Min(offset, |prior|)) + added;
    NewMeant(RowsOf(prior), added);
    PrefixMeant(prior, Min(offset, |prior|));
    MeantJoin(RowsOf(prior), PrefixTakes(Min(offset, |prior|)), added);
  }

  lemma TailMeant(prior: Bytes, from: nat, preserve: bool)
    ensures AllMeant(RowsOf(prior), SuffixPlan(|prior|, from, preserve)) ==
            if preserve && from < |prior| then prior[from..|prior|] else []
  {
    hide AllMeant, SuffixTakes, RowsOf;
    SuffixMeant(prior, from, |prior|);
    NothingMeant(RowsOf(prior));
  }

  /** Such calls take in exactly what `Staged` says, if the suffix begins behind all of the new bytes. */
  lemma PlanMeansStaged(prior: Bytes, takes: seq<Take>, offset: nat, data: Bytes, preserve: bool)
    requires BeginsPlan(|prior|, takes, offset, data)
    ensures AllMeant(RowsOf(prior), takes + SuffixPlan(|prior|, offset + |data|, preserve)) ==
            Staged(prior, offset, data, preserve)
  {
    hide AllMeant, BeginsPlan, SuffixTakes, RowsOf, Staged;
    HeadMeant(prior, takes, offset, data);
    TailMeant(prior, offset + |data|, preserve);
    MeantJoin(RowsOf(prior), takes, SuffixPlan(|prior|, offset + |data|, preserve));
    StagedIsThreeParts(prior, offset, data, preserve);
  }

  lemma StagedLength(prior: Bytes, offset: nat, data: Bytes, preserve: bool)
    ensures |Staged(prior, offset, data, preserve)| >= offset + |data|
  {
  }

  /** A suffix is copied in pieces of old chunks only. */
  lemma {:induction false} FirstSuffixIsOld(from: nat, to: nat, n: nat)
    requires from < to
    ensures forall t :: t in FirstSuffixTakes(from, to, n) ==> t.Old?
  {
    if n > 0 { FirstSuffixIsOld(from, to, n - 1); }
  }

  lemma SuffixIsOld(length: nat, reached: nat, preserve: bool)
    ensures forall t :: t in SuffixPlan(length, reached, preserve) ==> t.Old?
  {
    hide FirstSuffixTakes;
    if reached < length {
      FirstSuffixIsOld(reached, length, Max(0, ChunkIndexOf(length - 1) - ChunkIndexOf(reached) + 1));
    }
  }

  lemma StagedIsThreeParts(prior: Bytes, offset: nat, data: Bytes, preserve: bool)
    ensures Staged(prior, offset, data, preserve) ==
            (prior[..Min(offset, |prior|)] + (Zeros(Max(0, offset - |prior|)) + data)) +
            (if preserve && offset + |data| < |prior| then prior[offset + |data|..|prior|] else [])
  {
    var gap := Zeros(Max(0, offset - |prior|));
    assert prior[..Min(offset, |prior|)] + (gap + data) == prior[..Min(offset, |prior|)] + gap + data;
  }
}
