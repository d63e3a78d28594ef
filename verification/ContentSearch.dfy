/**
 Literal search inside one file (crates/fslite-sqlite/src/search.rs).

 `SearchFile` streams chunk rows and carries `|needle| - 1` bytes over from one
 row to the next.  It is proved to report the occurrences in the flat bytes of
 the rows it reads, and to read every row unless the byte budget stops it.
 */
module ContentSearch {
  import opened Common
  import opened Chunks

  const SEARCH_BYTE_BUDGET: nat := 16 * 1024 * 1024
  const PREVIEW_CONTEXT_BYTES: nat := 32

  predicate OccursAt(haystack: Bytes, needle: Bytes, i: nat) {
    i + |needle| <= |haystack| && haystack[i..i + |needle|] == needle
  }

  function OccurrencesFrom(haystack: Bytes, needle: Bytes, from: nat): seq<nat>
    decreases |haystack| - from
  {
    if from + |needle| > |haystack| || from >= |haystack| then []
    else (if OccursAt(haystack, needle, from) then [from] else []) + OccurrencesFrom(haystack, needle, from + 1)
  }

  /** Every start of `needle` in `haystack`. */
  function FindAllOccurrences(haystack: Bytes, needle: Bytes): seq<nat> {
    if needle == [] || |haystack| < |needle| then [] else OccurrencesFrom(haystack, needle, 0)
  }

  lemma {:induction false} OccurrencesAre(haystack: Bytes, needle: Bytes, from: nat, i: nat)
    requires needle != []
    ensures i in OccurrencesFrom(haystack, needle, from) <==> from <= i && OccursAt(haystack, needle, i)
    decreases |haystack| - from
  {
    if from + |needle| <= |haystack| { OccurrencesAre(haystack, needle, from + 1, i); }
  }

  predicate Ascending(s: seq<nat>, above: nat) {
    (forall a :: 0 <= a < |s| ==> above <= s[a]) && forall a, b :: 0 <= a < b < |s| ==> s[a] < s[b]
  }

  lemma {:induction false} OccurrencesAscend(haystack: Bytes, needle: Bytes, from: nat)
    ensures Ascending(OccurrencesFrom(haystack, needle, from), from)
    decreases |haystack| - from
  {
    if from + |needle| <= |haystack| && from < |haystack| { OccurrencesAscend(haystack, needle, from + 1); }
  }

  /** The list holds exactly the starts, once each and in ascending order. */
  lemma FindsExactlyTheOccurrences(haystack: Bytes, needle: Bytes)
    requires needle != []
    ensures forall i: nat :: i in FindAllOccurrences(haystack, needle) <==> OccursAt(haystack, needle, i)
    ensures Ascending(FindAllOccurrences(haystack, needle), 0)
  {
    OccurrencesAscend(haystack, needle, 0);
    forall i: nat ensures i in FindAllOccurrences(haystack, needle) <==> OccursAt(haystack, needle, i) {
      OccurrencesAre(haystack, needle, 0, i);
    }
  }

  function Shift(starts: seq<nat>, base: nat): (r: seq<nat>)
    ensures |r| == |starts| && forall i :: 0 <= i < |r| ==> r[i] == starts[i] + base
  {
    seq(|starts|, i requires 0 <= i < |starts| => starts[i] + base)
  }

  lemma {:induction false} OccurrencesInSuffix(all: Bytes, needle: Bytes, base: nat, from: nat)
    requires needle != [] && base + from <= |all|
    ensures OccurrencesFrom(all, needle, base + from) == Shift(OccurrencesFrom(all[base..], needle, from), base)
    decreases |all| - from
  {
    var tail := all[base..];
    if from + |needle| <= |tail| {
      assert all[base + from..base + from + |needle|] == tail[from..from + |needle|];
      OccurrencesInSuffix(all, needle, base, from + 1);
    }
  }

  lemma {:induction false} OccurrencesInPrefix(flat: Bytes, chunk: Bytes, needle: Bytes, base: nat, from: nat)
    requires needle != [] && from <= base <= |flat|
    requires base == if |flat| < |needle| then 0 else |flat| - |needle| + 1
    ensures OccurrencesFrom(flat + chunk, needle, from) ==
            OccurrencesFrom(flat, needle, from) + OccurrencesFrom(flat + chunk, needle, base)
    decreases base - from
  {
    if from < base {
      assert (flat + chunk)[from..from + |needle|] == flat[from..from + |needle|];
      OccurrencesInPrefix(flat, chunk, needle, base, from + 1);
    }
  }

  /** How many bytes are carried into the next chunk. */
  function Overlap(flat: Bytes, needle: Bytes): nat { Min(Max(0, |needle| - 1), |flat|) }

  /** Reading one more chunk: the carried bytes are enough, and nothing is found twice. */
  lemma OneMoreChunk(flat: Bytes, chunk: Bytes, needle: Bytes)
    requires needle != []
    ensures var base := |flat| - Overlap(flat, needle);
            FindAllOccurrences(flat + chunk, needle) ==
            FindAllOccurrences(flat, needle) + Shift(FindAllOccurrences(flat[base..] + chunk, needle), base)
  {
    var base := |flat| - Overlap(flat, needle);
    var all := flat + chunk;
    OccurrencesInPrefix(flat, chunk, needle, base, 0);
    OccurrencesInSuffix(all, needle, base, 0);
    assert all[base..] == flat[base..] + chunk;
    assert FindAllOccurrences(all, needle) == OccurrencesFrom(all, needle, 0);
    assert FindAllOccurrences(flat, needle) == OccurrencesFrom(flat, needle, 0);
    assert FindAllOccurrences(all[base..], needle) == OccurrencesFrom(all[base..], needle, 0);
  }

  // --- the streaming search --------------------------------------------------

  datatype FileMatch = FileMatch(start: nat, end: nat, preview: Bytes)

  /** A reported match of `flat` at `start`, with at most 32 bytes of context on either side. */
  ghost predicate Reports(m: FileMatch, flat: Bytes, needle: Bytes, start: nat) {
    m.start == start && m.end == start + |needle| &&
    exists lo, hi :: 0 <= lo <= start && m.end <= hi <= |flat| && m.preview == flat[lo..hi] &&
                     start - lo <= PREVIEW_CONTEXT_BYTES && hi - m.end <= PREVIEW_CONTEXT_BYTES
  }

  ghost predicate ReportsAll(found: seq<FileMatch>, flat: Bytes, needle: Bytes, starts: seq<nat>) {
    |found| == |starts| && forall i :: 0 <= i < |found| ==> Reports(found[i], flat, needle, starts[i])
  }

  lemma ReportGrows(m: FileMatch, flat: Bytes, chunk: Bytes, needle: Bytes, start: nat)
    requires Reports(m, flat, needle, start)
    ensures Reports(m, flat + chunk, needle, start)
  {
    var lo, hi :| 0 <= lo <= start && m.end <= hi <= |flat| && m.preview == flat[lo..hi] &&
                  start - lo <= PREVIEW_CONTEXT_BYTES && hi - m.end <= PREVIEW_CONTEXT_BYTES;
    assert (flat + chunk)[lo..hi] == flat[lo..hi];
  }

  lemma ReportsGrow(found: seq<FileMatch>, flat: Bytes, chunk: Bytes, needle: Bytes, starts: seq<nat>)
    requires ReportsAll(found, flat, needle, starts)
    ensures ReportsAll(found, flat + chunk, needle, starts)
  {
    hide Reports;
    forall i | 0 <= i < |found| ensures Reports(found[i], flat + chunk, needle, starts[i]) {
      ReportGrows(found[i], flat, chunk, needle, starts[i]);
    }
  }

  method MatchesInBuffer(buffer: Bytes, needle: Bytes, base: nat, ghost flat: Bytes) returns (found: seq<FileMatch>)
    requires needle != [] && base <= |flat| && buffer == flat[base..]
    ensures ReportsAll(found, flat, needle, Shift(FindAllOccurrences(buffer, needle), base))
  {
    var starts := FindAllOccurrences(buffer, needle);
    FindsExactlyTheOccurrences(buffer, needle);
    found := [];
    for i := 0 to |starts|
      invariant |found| == i
      invariant forall k :: 0 <= k < i ==> Reports(found[k], flat, needle, starts[k] + base)
    {
      var start := starts[i];
      assert start in starts && OccursAt(buffer, needle, start);
      var lo := Max(0, start - PREVIEW_CONTEXT_BYTES);
      var hi := Min(start + |needle| + PREVIEW_CONTEXT_BYTES, |buffer|);
      var m := FileMatch(base + start, base + start + |needle|, buffer[lo..hi]);
      assert buffer[lo..hi] == flat[base + lo..base + hi];
      assert Reports(m, flat, needle, start + base);
      found := found + [m];
    }
  }

  function KeysFrom(rows: Rows, i: nat): set<nat> { set k | k in rows && k >= i }

  lemma FewerFrom(rows: Rows, i: nat)
    requires i in rows
    ensures |KeysFrom(rows, i + 1)| < |KeysFrom(rows, i)|
  {
    assert KeysFrom(rows, i) == KeysFrom(rows, i + 1) + {i};
  }

  /**
   How many rows a search reads that starts with `scanned` bytes already spent: up to the budget, or a row that is
   missing.
   */
  function RowsRead(rows: Rows, i: nat, scanned: nat): nat
    decreases |KeysFrom(rows, i)|
  {
    if scanned >= SEARCH_BYTE_BUDGET || Fetch(rows, i) == [] then i
    else
      FewerFrom(rows, i);
      RowsRead(rows, i + 1, scanned + |Fetch(rows, i)|)
  }

  /** A table of `n` chunks of any positive sizes. */
  ghost predicate Chunked(rows: Rows, n: nat) {
    (forall k :: k in rows <==> 0 <= k < n) && forall k :: k in rows ==> rows[k] != []
  }

  lemma {:induction false} RowsReadAll(rows: Rows, n: nat, i: nat, scanned: nat)
    requires Chunked(rows, n) && i < n
    ensures i <= RowsRead(rows, i, scanned + |Flatten(rows, i)|) <= n
    ensures RowsRead(rows, i, scanned + |Flatten(rows, i)|) == n <==>
            scanned + |Flatten(rows, n - 1)| < SEARCH_BYTE_BUDGET
    decreases n - i
  {
    FlattenExtends(rows, i, n - 1);
    if scanned + |Flatten(rows, i)| < SEARCH_BYTE_BUDGET {
      assert |Flatten(rows, i + 1)| == |Flatten(rows, i)| + |Fetch(rows, i)|;
      if i + 1 < n { RowsReadAll(rows, n, i + 1, scanned); } else { assert Fetch(rows, n) == []; }
    }
  }

  /** Reading fewer rows leaves bytes out. */
  lemma {:induction false} ShorterPrefix(rows: Rows, n: nat, k: nat)
    requires Chunked(rows, n) && k < n
    ensures |Flatten(rows, k)| < |Flatten(rows, n)|
  {
    FlattenExtends(rows, k + 1, n);
    assert |Flatten(rows, k + 1)| == |Flatten(rows, k)| + |rows[k]|;
  }

  /** The whole file is searched exactly when the budget lasts to its final chunk, whatever the sizes of its chunks. */
  lemma SearchIsCompleteIff(rows: Rows, n: nat, scanned: nat)
    requires Chunked(rows, n)
    ensures Flatten(rows, RowsRead(rows, 0, scanned)) == Flatten(rows, n) <==>
            n == 0 || scanned + |Flatten(rows, n - 1)| < 16_777_216
  {
    if n > 0 {
      RowsReadAll(rows, n, 0, scanned);
      if RowsRead(rows, 0, scanned) < n { ShorterPrefix(rows, n, RowsRead(rows, 0, scanned)); }
    }
  }

  /** For a file as the writer lays it out. */
  lemma FileIsSearchedIff(content: Bytes, scanned: nat)
    ensures Flatten(RowsOf(content), RowsRead(RowsOf(content), 0, scanned)) == content <==>
            content == [] || scanned + (NumChunks(|content|) - 1) * CHUNK_SIZE < 16_777_216
  {
    var rows, n := RowsOf(content), NumChunks(|content|);
    RowsOfWellChunked(content);
    FlattenRowsOf(content);
    SearchIsCompleteIff(rows, n, scanned);
    if content != [] { FlattenLength(rows, n, n - 1); }
  }

  /** What the search carries from chunk to chunk. */
  ghost predicate Carries(flat: Bytes, needle: Bytes, overlap: Bytes, bufferBase: nat) {
    bufferBase == |flat| - Overlap(flat, needle) && overlap == flat[bufferBase..]
  }

  lemma Accumulate(results: seq<FileMatch>, found: seq<FileMatch>, flat: Bytes, chunk: Bytes, needle: Bytes,
                   overlap: Bytes, base: nat)
    requires needle != [] && ReportsAll(results, flat, needle, FindAllOccurrences(flat, needle)) &&
             Carries(flat, needle, overlap, base)
    requires ReportsAll(found, flat + chunk, needle, Shift(FindAllOccurrences(flat[base..] + chunk, needle), base))
    ensures ReportsAll(results + found, flat + chunk, needle, FindAllOccurrences(flat + chunk, needle))
  {
    hide Reports, FindAllOccurrences;
    OneMoreChunk(flat, chunk, needle);
    ReportsGrow(results, flat, chunk, needle, FindAllOccurrences(flat, needle));
  }

  /** One chunk, searched together with the bytes carried over. */
  method SearchChunk(chunk: Bytes, needle: Bytes, overlap: Bytes, bufferBase: nat, ghost flat: Bytes)
    returns (found: seq<FileMatch>, nextOverlap: Bytes, nextBase: nat)
    requires needle != [] && Carries(flat, needle, overlap, bufferBase)
    ensures bufferBase <= |flat|
    ensures ReportsAll(found, flat + chunk, needle,
                       Shift(FindAllOccurrences(flat[bufferBase..] + chunk, needle), bufferBase))
    ensures Carries(flat + chunk, needle, nextOverlap, nextBase)
  {
    hide ReportsAll, FindAllOccurrences;
    var buffer := overlap + chunk;
    assert buffer == (flat + chunk)[bufferBase..];
    found := MatchesInBuffer(buffer, needle, bufferBase, flat + chunk);
    var keep := Max(0, |needle| - 1);
    var nextOverlapStart := Max(0, |buffer| - keep);
    nextBase := bufferBase + nextOverlapStart;
    nextOverlap := buffer[nextOverlapStart..];
  }

  /** `search_file`, over chunks of any sizes. */
  method SearchFile(generation: Option<Rows>, needle: Bytes, bytesScanned: nat)
    returns (results: seq<FileMatch>, scanned: nat)
    requires needle != []
    ensures generation.None? ==> results == [] && scanned == bytesScanned
    ensures generation.Some? ==>
              var flat := Flatten(generation.value, RowsRead(generation.value, 0, bytesScanned));
              ReportsAll(results, flat, needle, FindAllOccurrences(flat, needle)) && scanned == bytesScanned + |flat|
  {
    results, scanned := [], bytesScanned;
    if generation.None? { return; }
    var rows := generation.value;
    var overlap: Bytes, bufferBase, chunkIndex := [], 0, 0;
    ghost var flat: Bytes := [];
    assert ReportsAll(results, flat, needle, FindAllOccurrences(flat, needle));
    hide ReportsAll, FindAllOccurrences, Carries, KeysFrom;
    while true
      invariant flat == Flatten(rows, chunkIndex)
      invariant RowsRead(rows, chunkIndex, scanned) == RowsRead(rows, 0, bytesScanned)
      invariant scanned == bytesScanned + |flat| && Carries(flat, needle, overlap, bufferBase)
      invariant ReportsAll(results, flat, needle, FindAllOccurrences(flat, needle))
      decreases |KeysFrom(rows, chunkIndex)|
    {
      if scanned >= SEARCH_BYTE_BUDGET { break; }
      var chunk := Fetch(rows, chunkIndex);
      if chunk == [] { break; }
      FewerFrom(rows, chunkIndex);
      scanned := scanned + |chunk|;
      var found, nextOverlap, nextBase := SearchChunk(chunk, needle, overlap, bufferBase, flat);
      Accumulate(results, found, flat, chunk, needle, overlap, bufferBase);
      results := results + found;
      overlap, bufferBase := nextOverlap, nextBase;
      flat := flat + chunk;
      chunkIndex := chunkIndex + 1;
    }
  }
}
