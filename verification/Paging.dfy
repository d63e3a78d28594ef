/**
 Keyset pagination of subtree queries (crates/fslite-sqlite/src/search.rs and
 directory.rs).  For a fixed tree, following cursors from the start with any page
 limits ends, and the pages together are exactly the matching rows in order.
 */
module Paging {
  import opened Common
  import opened Chunks
  import opened Paths
  import opened Tree
  import opened Resolve
  import opened Store
  import opened Ordering
  import opened Copy
  import opened Glob

  const WORK_BUDGET: nat := 5000
  const MAX_SUBTREE_DEPTH: nat := 4096

  // --- pages of a list -------------------------------------------------------

  ghost function Select<T(!new)>(rows: seq<T>, chosen: iset<T>): seq<T> {
    if rows == [] then [] else (if rows[0] in chosen then [rows[0]] else []) + Select(rows[1..], chosen)
  }

  lemma {:induction false} SelectJoin<T(!new)>(a: seq<T>, b: seq<T>, chosen: iset<T>)
    ensures Select(a + b, chosen) == Select(a, chosen) + Select(b, chosen)
  {
    if a == [] {
      assert a + b == b;
    } else {
      SelectJoin(a[1..], b, chosen);
      var first := if a[0] in chosen then [a[0]] else [];
      assert (a + b)[1..] == a[1..] + b;
      assert first + (Select(a[1..], chosen) + Select(b, chosen)) ==
          (first + Select(a[1..], chosen)) + Select(b, chosen);
    }
  }

  lemma {:induction false} SelectIs<T(!new)>(rows: seq<T>, chosen: iset<T>, x: T)
    ensures x in Select(rows, chosen) <==> x in rows && x in chosen
  {
    if rows != [] {
      SelectIs(rows[1..], chosen, x);
      assert rows == [rows[0]] + rows[1..];
    }
  }

  /** One page: the chosen rows of `rows[from..to]`, and whether a cursor was handed out. */
  ghost predicate IsPage<T(!new)>(rows: seq<T>, chosen: iset<T>, from: nat, page: seq<T>, to: nat, more: bool) {
    from <= to <= |rows| && page == Select(rows[from..to], chosen) && (if more then from < to else to == |rows|)
  }

  function Concat<T>(pages: seq<seq<T>>): seq<T> {
    if pages == [] then [] else Concat(pages[..|pages| - 1]) + pages[|pages| - 1]
  }

  /** Pages read one after the other: the first from the start, each other one from where the last one ended. */
  ghost predicate Follows<T(!new)>(rows: seq<T>, chosen: iset<T>, ends: seq<nat>, pages: seq<seq<T>>, more: seq<bool>) {
    |ends| == |pages| + 1 && |more| == |pages| && ends[0] == 0 &&
    (forall k :: 0 <= k < |pages| ==> IsPage(rows, chosen, ends[k], pages[k], ends[k + 1], more[k])) &&
    forall k :: 0 <= k < |pages| - 1 ==> more[k]
  }

  lemma {:induction false} PagesSoFar<T(!new)>(rows: seq<T>, chosen: iset<T>, ends: seq<nat>, pages: seq<seq<T>>,
                                               more: seq<bool>)
    requires Follows(rows, chosen, ends, pages, more)
    ensures ends[|pages|] <= |rows| && Concat(pages) == Select(rows[..ends[|pages|]], chosen)
    ensures |pages| > 0 && more[|pages| - 1] ==> |pages| <= ends[|pages|]
    ensures |pages| <= |rows| + 1
    decreases |pages|
  {
    if pages == [] {
      assert rows[..0] == [];
    } else {
      hide Select;
      var n := |pages| - 1;
      assert IsPage(rows, chosen, ends[n], pages[n], ends[n + 1], more[n]);
      PagesSoFar(rows, chosen, ends[..n + 1], pages[..n], more[..n]);
      SelectJoin(rows[..ends[n]], rows[ends[n]..ends[n + 1]], chosen);
      assert rows[..ends[n]] + rows[ends[n]..ends[n + 1]] == rows[..ends[n + 1]];
    }
  }

  /** No gap, no repeat, in order, and an end after at most one page more than there are rows. */
  lemma PagesCoverTheListing<T(!new)>(rows: seq<T>, chosen: iset<T>, ends: seq<nat>, pages: seq<seq<T>>,
                                      more: seq<bool>)
    requires Follows(rows, chosen, ends, pages, more)
    ensures |pages| <= |rows| + 1
    ensures |pages| > 0 && !more[|pages| - 1] ==> Concat(pages) == Select(rows, chosen)
  {
    PagesSoFar(rows, chosen, ends, pages, more);
    if |pages| > 0 && !more[|pages| - 1] {
      assert IsPage(rows, chosen, ends[|pages| - 1], pages[|pages| - 1], ends[|pages| - 1 + 1], more[|pages| - 1]);
      assert rows[..|rows|] == rows;
    }
  }

  /** All pages that a client gets who follows the cursors to the end, asking for `limits(k)` rows the k-th time. */
  ghost predicate AllPages<T(!new)>(rows: seq<T>, chosen: iset<T>, limits: nat -> nat, pages: seq<seq<T>>) {
    0 < |pages| <= |rows| + 1 && Concat(pages) == Select(rows, chosen) && WithinLimits(limits, pages)
  }

  predicate WithinLimits<T>(limits: nat -> nat, pages: seq<seq<T>>) {
    forall k :: 0 <= k < |pages| ==> |pages[k]| <= Max(1, limits(k))
  }

  /** That client at work: where its pages ended, and whether the last one came without a cursor. */
  ghost predicate Reading<T(!new)>(rows: seq<T>, chosen: iset<T>, limits: nat -> nat,
                                   ends: seq<nat>, pages: seq<seq<T>>, more: seq<bool>, done: bool) {
    Follows(rows, chosen, ends, pages, more) && WithinLimits(limits, pages) && |pages| <= |rows| + 1 &&
    if pages == [] then !done else more[|pages| - 1] == !done
  }

  lemma ReadingStarts<T(!new)>(rows: seq<T>, chosen: iset<T>, limits: nat -> nat)
    ensures Reading(rows, chosen, limits, [0], [], [], false)
  {
  }

  /** One more page, read from where the last one ended. */
  lemma ReadOn<T(!new)>(rows: seq<T>, chosen: iset<T>, limits: nat -> nat, ends: seq<nat>, pages: seq<seq<T>>,
                        more: seq<bool>,
                        page: seq<T>, end: nat, next: bool)
    requires Reading(rows, chosen, limits, ends, pages, more, false)
    requires IsPage(rows, chosen, ends[|pages|], page, end, next) && |page| <= Max(1, limits(|pages|))
    ensures Reading(rows, chosen, limits, ends + [end], pages + [page], more + [next], !next)
    ensures end <= |rows|
  {
    assert end <= |rows|;
    hide IsPage, Select;
    var ends', pages', more' := ends + [end], pages + [page], more + [next];
    forall k | 0 <= k < |pages'| ensures IsPage(rows, chosen, ends'[k], pages'[k], ends'[k + 1], more'[k]) {
      if k < |pages| { assert ends'[k + 1] == ends[k + 1]; }
    }
    PagesCoverTheListing(rows, chosen, ends', pages', more');
  }

  lemma ReadingIsBounded<T(!new)>(rows: seq<T>, chosen: iset<T>, limits: nat -> nat,
                                  ends: seq<nat>, pages: seq<seq<T>>, more: seq<bool>, done: bool)
    requires Reading(rows, chosen, limits, ends, pages, more, done)
    ensures |ends| == |pages| + 1 && |pages| <= |rows| + 1
  {
  }

  lemma ReadingEnds<T(!new)>(rows: seq<T>, chosen: iset<T>, limits: nat -> nat, ends: seq<nat>, pages: seq<seq<T>>,
                             more: seq<bool>)
    requires Reading(rows, chosen, limits, ends, pages, more, true)
    ensures AllPages(rows, chosen, limits, pages)
  {
    hide Select, IsPage;
    PagesCoverTheListing(rows, chosen, ends, pages, more);
  }

  // --- cursors ---------------------------------------------------------------

  /** The cursor points just before `rows[start]`. */
  ghost predicate StartsAt(rows: seq<Key>, after: Option<Key>, start: nat) {
    if after.None? then start == 0 else 0 < start <= |rows| && rows[start - 1] == after.value
  }

  function Past(keys: set<Key>, after: Option<Key>): set<Key> {
    set k | k in keys && (after.None? || KeyLess(after.value, k))
  }

  /** The rows beyond a cursor are exactly those that come after it in the listing. */
  lemma PastIsTheRest(keys: set<Key>, rows: seq<Key>, after: Option<Key>, start: nat)
    requires Lists(rows, keys) && StartsAt(rows, after, start)
    ensures SortSet(Past(keys, after)) == rows[start..]
  {
    var rest := rows[start..];
    forall k ensures k in rest <==> k in Past(keys, after) {
      if k in rest {
        var j :| 0 <= j < |rest| && rest[j] == k;
        assert rows[start + j] == k && rows[start + j] in rows;
      }
      if k in Past(keys, after) {
        var j :| 0 <= j < |rows| && rows[j] == k;
        if j < start {
          if j < start - 1 { KeyLessTotal(k, after.value); } else { KeyLessTotal(k, k); }
        }
        assert rest[j - start] == k;
      }
    }
    ListingUnique(rest, SortSet(Past(keys, after)), Past(keys, after));
  }

  // --- the rows of a subtree query -------------------------------------------

  predicate DepthOk(depth: nat, cap: Option<nat>) { cap.None? || depth <= Max(1, cap.value) }

  /** `q` leads from `a` down to `x`, within the depth cap. */
  ghost predicate Reaches(nodes: Nodes, a: Id, cap: Option<nat>, q: Segments, x: Id) {
    a in nodes && q != [] && DepthOk(|q|, cap) && Walk(nodes, a, q) == Some(x)
  }

  ghost predicate IsDescendant(nodes: Nodes, a: Id, cap: Option<nat>, x: Id) {
    exists q :: Reaches(nodes, a, cap, q, x)
  }

  /** The relative path of a row; that of the start itself is empty. */
  ghost function PathBelow(nodes: Nodes, a: Id, cap: Option<nat>, x: Id): Segments {
    if x != a && IsDescendant(nodes, a, cap, x) then (var q :| Reaches(nodes, a, cap, q, x); q) else []
  }

  ghost function RowKeys(nodes: Nodes, a: Id, cap: Option<nat>): set<Key> {
    set x | x in nodes && IsDescendant(nodes, a, cap, x) :: Key(|PathBelow(nodes, a, cap, x)|, nodes[x].name, x)
  }

  lemma {:induction false} OnePathBelow(nodes: Nodes, root: Id, anchor: Segments, a: Id, p: Segments, q: Segments,
                                        x: Id)
    requires Sound(nodes, root) && Resolved(nodes, anchor) == Some(a)
    requires a in nodes && Walk(nodes, a, p) == Some(x) && Walk(nodes, a, q) == Some(x)
    ensures p == q
  {
    RootIsFetched(nodes, root);
    WalkAppend(nodes, root, anchor, p);
    WalkAppend(nodes, root, anchor, q);
    PathUnique(nodes, root, anchor + p, anchor + q, x);
    assert (anchor + p)[|anchor|..] == p && (anchor + q)[|anchor|..] == q;
  }

  lemma PathBelowIs(nodes: Nodes, root: Id, anchor: Segments, a: Id, cap: Option<nat>, q: Segments, x: Id)
    requires Sound(nodes, root) && Resolved(nodes, anchor) == Some(a) && Reaches(nodes, a, cap, q, x)
    ensures PathBelow(nodes, a, cap, x) == q && x != a && x in nodes
  {
    if x == a { OnePathBelow(nodes, root, anchor, a, q, [], x); }
    var p := PathBelow(nodes, a, cap, x);
    OnePathBelow(nodes, root, anchor, a, p, q, x);
  }

  lemma {:induction false} WalkLast(nodes: Nodes, root: Id, anchor: Segments, a: Id, q: Segments, name: string, x: Id)
    requires Sound(nodes, root) && Resolved(nodes, anchor) == Some(a) && a in nodes
    ensures Walk(nodes, a, q + [name]) == Some(x) <==>
            exists p :: p in nodes && Walk(nodes, a, q) == Some(p) && IsChild(nodes, p, name, x)
  {
    WalkAppend(nodes, a, q, [name]);
    assert [name][0] == name && [name][1..] == [];
    var p := Walk(nodes, a, q);
    if p.Some? { ChildIsFetched(nodes, p.value, name, x); }
  }

  /** The active children of one level. */
  function Level(nodes: Nodes, latest: map<Id, Segments>): map<Id, Segments> {
    map x | x in nodes && nodes[x].trashedAt.None? && nodes[x].parent.Some? && nodes[x].parent.value in latest ::
      latest[nodes[x].parent.value] + [nodes[x].name]
  }

  /** `latest` are the nodes exactly `depth` steps below `a`, with their paths. */
  ghost predicate IsLevel(nodes: Nodes, a: Id, latest: map<Id, Segments>, depth: nat)
    requires a in nodes
  {
    (forall x :: x in latest ==> x in nodes && Walk(nodes, a, latest[x]) == Some(x) && |latest[x]| == depth) &&
    forall q, x :: |q| == depth && Walk(nodes, a, q) == Some(x) ==> x in latest
  }

  lemma FirstLevel(nodes: Nodes, a: Id)
    requires a in nodes
    ensures IsLevel(nodes, a, map[a := []], 0)
  {
  }

  lemma ChildIsOneDeeper(nodes: Nodes, root: Id, anchor: Segments, a: Id, latest: map<Id, Segments>, depth: nat, x: Id)
    requires Sound(nodes, root) && Resolved(nodes, anchor) == Some(a) && a in nodes && IsLevel(nodes, a, latest, depth)
    requires x in Level(nodes, latest)
    ensures x in nodes && Walk(nodes, a, Level(nodes, latest)[x]) == Some(x) && |Level(nodes, latest)[x]| == depth + 1
  {
    hide Sound, Walk, Resolved;
    var p := nodes[x].parent.value;
    assert IsChild(nodes, p, nodes[x].name, x);
    WalkLast(nodes, root, anchor, a, latest[p], nodes[x].name, x);
  }

  lemma OneDeeperIsChild(nodes: Nodes, root: Id, anchor: Segments, a: Id, latest: map<Id, Segments>, depth: nat,
                         q: Segments, x: Id)
    requires Sound(nodes, root) && Resolved(nodes, anchor) == Some(a) && a in nodes && IsLevel(nodes, a, latest, depth)
    requires |q| == depth + 1 && Walk(nodes, a, q) == Some(x)
    ensures x in Level(nodes, latest)
  {
    hide Sound, Walk, Resolved;
    assert Pop(q) + [q[depth]] == q;
    WalkLast(nodes, root, anchor, a, Pop(q), q[depth], x);
    var p :| p in nodes && Walk(nodes, a, Pop(q)) == Some(p) && IsChild(nodes, p, q[depth], x);
  }

  lemma NextLevel(nodes: Nodes, root: Id, anchor: Segments, a: Id, latest: map<Id, Segments>, depth: nat)
    requires Sound(nodes, root) && Resolved(nodes, anchor) == Some(a) && a in nodes && IsLevel(nodes, a, latest, depth)
    ensures IsLevel(nodes, a, Level(nodes, latest), depth + 1)
  {
    hide Sound, Walk, Resolved;
    hide Level;
    var next := Level(nodes, latest);
    forall x | x in next ensures x in nodes && Walk(nodes, a, next[x]) == Some(x) && |next[x]| == depth + 1 {
      ChildIsOneDeeper(nodes, root, anchor, a, latest, depth, x);
    }
    forall q, x | |q| == depth + 1 && Walk(nodes, a, q) == Some(x) ensures x in next {
      OneDeeperIsChild(nodes, root, anchor, a, latest, depth, q, x);
    }
  }

  lemma EmptyLevelEnds(nodes: Nodes, a: Id, depth: nat, q: Segments, x: Id)
    requires a in nodes && IsLevel(nodes, a, map[], depth) && depth <= |q|
    ensures Walk(nodes, a, q) != Some(x)
  {
    WalkAppend(nodes, a, q[..depth], q[depth..]);
    assert q[..depth] + q[depth..] == q;
  }

  /** `paths` are the nodes at most `depth` steps below `a`, with their paths. */
  ghost predicate UpTo(nodes: Nodes, a: Id, cap: Option<nat>, paths: map<Id, Segments>, depth: nat) {
    (forall x :: x in paths ==> x in nodes && Reaches(nodes, a, cap, paths[x], x) && |paths[x]| <= depth) &&
    forall q, x :: Reaches(nodes, a, cap, q, x) && |q| <= depth ==> x in paths
  }

  lemma OneLevelMore(nodes: Nodes, root: Id, anchor: Segments, a: Id, cap: Option<nat>, paths: map<Id, Segments>,
                     next: map<Id, Segments>, depth: nat)
    requires Sound(nodes, root) && Resolved(nodes, anchor) == Some(a) && a in nodes
    requires UpTo(nodes, a, cap, paths, depth) && IsLevel(nodes, a, next, depth + 1) && DepthOk(depth + 1, cap)
    ensures UpTo(nodes, a, cap, paths + next, depth + 1) && paths.Keys !! next.Keys
  {
    forall x | x in next ensures Reaches(nodes, a, cap, next[x], x) && x !in paths {
      if x in paths { OnePathBelow(nodes, root, anchor, a, paths[x], next[x], x); }
    }
  }

  lemma NothingDeeper(nodes: Nodes, a: Id, cap: Option<nat>, paths: map<Id, Segments>, latest: map<Id, Segments>,
                      depth: nat)
    requires a in nodes && UpTo(nodes, a, cap, paths, depth) && IsLevel(nodes, a, latest, depth)
    requires latest == map[] || !DepthOk(depth + 1, cap)
    ensures forall x :: x in paths <==> IsDescendant(nodes, a, cap, x)
  {
    forall q, x | Reaches(nodes, a, cap, q, x) ensures |q| <= depth {
      if |q| > depth && latest == map[] { EmptyLevelEnds(nodes, a, depth, q, x); }
    }
  }

  /** The rows found one level at a time, as the recursive query builds them. */
  method QueryDescendants(nodes: Nodes, a: Id, cap: Option<nat>, ghost anchor: Segments, ghost root: Id)
    returns (paths: map<Id, Segments>)
    requires Sound(nodes, root) && Resolved(nodes, anchor) == Some(a) && a in nodes
    ensures forall x :: x in paths <==> IsDescendant(nodes, a, cap, x)
    ensures forall x :: x in paths ==> x in nodes && paths[x] == PathBelow(nodes, a, cap, x)
  {
    hide Sound, Walk, Resolved;
    paths := map[];
    var latest: map<Id, Segments> := map[a := []];
    var depth := 0;
    FirstLevel(nodes, a);
    while latest != map[] && DepthOk(depth + 1, cap)
      invariant UpTo(nodes, a, cap, paths, depth) && IsLevel(nodes, a, latest, depth)
      decreases nodes.Keys - paths.Keys, latest != map[]
    {
      NextLevel(nodes, root, anchor, a, latest, depth);
      latest := Level(nodes, latest);
      OneLevelMore(nodes, root, anchor, a, cap, paths, latest, depth);
      if latest != map[] {
        var y :| y in latest;
        assert y in nodes.Keys - paths.Keys && y !in nodes.Keys - (paths + latest).Keys;
      }
      paths := paths + latest;
      depth := depth + 1;
    }
    NothingDeeper(nodes, a, cap, paths, latest, depth);
    forall x | x in paths ensures paths[x] == PathBelow(nodes, a, cap, x) {
      PathBelowIs(nodes, root, anchor, a, cap, paths[x], x);
    }
  }

  // --- glob and find ---------------------------------------------------------

  datatype FindQuery = FindQuery(
    kind: Option<Kind>,
    minSize: Option<nat>,
    maxSize: Option<nat>,
    modifiedAfter: Option<int>,
    modifiedBefore: Option<int>,
    nameContains: Option<string>,
    attributes: Attributes)

  /** `glob_tx` selects by pattern and `find_tx` by predicate; the scan is the same. */
  datatype Query = ByPattern(rest: Pattern) | ByPredicate(query: FindQuery)

  predicate Contains(s: string, needle: string) {
    needle <= s || (s != "" && Contains(s[1..], needle))
  }

  predicate PredicateMatches(n: Node, q: FindQuery) {
    (q.kind.Some? ==> n.kind == q.kind.value) &&
    (q.minSize.Some? ==> n.size >= q.minSize.value) &&
    (q.maxSize.Some? ==> n.size <= q.maxSize.value) &&
    (q.modifiedAfter.Some? ==> n.modifiedAt > q.modifiedAfter.value) &&
    (q.modifiedBefore.Some? ==> n.modifiedAt < q.modifiedBefore.value) &&
    (q.nameContains.Some? ==> Contains(n.name, q.nameContains.value))
  }

  predicate AttributesMatch(held: Attributes, required: Attributes) {
    forall key :: key in required ==> key in held && held[key] == required[key]
  }

  predicate Selects(query: Query, nodes: Nodes, attributes: map<Id, Attributes>, x: Id, path: Segments)
    requires x in nodes
  {
    match query
    case ByPattern(rest) => GlobMatches(rest, path)
    case ByPredicate(q) => PredicateMatches(nodes[x], q) && AttributesMatch(AttributesOf(attributes, x), q.attributes)
  }

  method SelectsRow(query: Query, nodes: Nodes, attributes: map<Id, Attributes>, x: Id, path: Segments)
      returns (matched: bool)
    requires x in nodes
    ensures matched == Selects(query, nodes, attributes, x, path)
  {
    match query
    case ByPattern(rest) => matched := GlobMatch(rest, path);
    case ByPredicate(q) => matched := PredicateMatches(nodes[x], q) &&
      AttributesMatch(AttributesOf(attributes, x), q.attributes);
  }

  function Top(a: Id): Key { Key(0, "", a) }

  /** The start and then every row below it, in order. */
  ghost function Listing(nodes: Nodes, a: Id, cap: Option<nat>): seq<Key> { [Top(a)] + SortSet(RowKeys(nodes, a, cap)) }

  ghost function Chosen(query: Query, nodes: Nodes, attributes: map<Id, Attributes>, a: Id,
                        cap: Option<nat>): iset<Key> {
    iset k: Key | k.id in nodes && Selects(query, nodes, attributes, k.id, PathBelow(nodes, a, cap, k.id))
  }

  lemma RowIsBelowTop(nodes: Nodes, root: Id, anchor: Segments, a: Id, cap: Option<nat>, k: Key)
    requires Sound(nodes, root) && Resolved(nodes, anchor) == Some(a) && a in nodes && k in RowKeys(nodes, a, cap)
    ensures KeyLess(Top(a), k)
  {
    hide Sound, Walk, Resolved;
    var q :| Reaches(nodes, a, cap, q, k.id);
    PathBelowIs(nodes, root, anchor, a, cap, q, k.id);
  }

  lemma ListingIsSorted(nodes: Nodes, root: Id, anchor: Segments, a: Id, cap: Option<nat>)
    requires Sound(nodes, root) && Resolved(nodes, anchor) == Some(a) && a in nodes
    ensures Lists(Listing(nodes, a, cap), RowKeys(nodes, a, cap) + {Top(a)})
    ensures forall k :: k in RowKeys(nodes, a, cap) ==> KeyLess(Top(a), k)
  {
    var keys := RowKeys(nodes, a, cap);
    forall k | k in keys ensures KeyLess(Top(a), k) { RowIsBelowTop(nodes, root, anchor, a, cap, k); }
    hide Sound, Walk, Resolved, RowKeys;
    var rows, all := SortSet(keys), Listing(nodes, a, cap);
    forall j | 0 <= j < |rows| ensures KeyLess(Top(a), rows[j]) { assert rows[j] in rows; }
    assert all == [Top(a)] + rows;
  }

  /** What the scan sees beyond a cursor: the rest of the listing, without the start. */
  lemma RowsBeyond(nodes: Nodes, root: Id, anchor: Segments, a: Id, cap: Option<nat>, after: Option<Key>, start: nat)
    requires Sound(nodes, root) && Resolved(nodes, anchor) == Some(a) && a in nodes
    requires StartsAt(Listing(nodes, a, cap), after, start)
    ensures SortSet(Past(RowKeys(nodes, a, cap), after)) == Listing(nodes, a, cap)[Max(start, 1)..]
  {
    ListingIsSorted(nodes, root, anchor, a, cap);
    var keys, all := RowKeys(nodes, a, cap), Listing(nodes, a, cap);
    if after.None? {
      assert Past(keys, after) == keys;
    } else {
      PastIsTheRest(keys + {Top(a)}, all, after, start);
      assert !KeyLess(after.value, Top(a)) by {
        if start > 1 {
          KeyLessTotal(Top(a), after.value); assert KeyLess(all[0], all[start - 1]);
        } else {
          KeyLessTotal(Top(a), Top(a));
        }
      }
      assert Past(keys + {Top(a)}, after) == Past(keys, after);
    }
  }

  /** The loop over the fetched rows: up to `limit` matches, and how many rows it looked at. */
  method ScanRows(query: Query, nodes: Nodes, attributes: map<Id, Attributes>, rows: seq<Key>, paths: map<Id, Segments>,
                  found: seq<Key>, limit: nat, ghost chosen: iset<Key>)
    returns (matches: seq<Key>, scanned: nat)
    requires |found| < limit
    requires forall k :: k in rows ==> k.id in nodes && k.id in paths
    requires forall k :: k in rows ==> (k in chosen <==> Selects(query, nodes, attributes, k.id, paths[k.id]))
    ensures scanned <= |rows| && matches == found + Select(rows[..scanned], chosen) && |matches| <= limit
    ensures |matches| < limit ==> scanned == |rows|
    ensures |matches| == limit ==> scanned > 0
  {
    matches := found;
    scanned := 0;
    while scanned < |rows|
      invariant scanned <= |rows| && matches == found + Select(rows[..scanned], chosen) && |matches| < limit
    {
      var k := rows[scanned];
      assert k in rows;
      var matched := SelectsRow(query, nodes, attributes, k.id, paths[k.id]);
      SelectJoin(rows[..scanned], [k], chosen);
      assert rows[..scanned + 1] == rows[..scanned] + [k] && Select([k][1..], chosen) == [];
      scanned := scanned + 1;
      if matched {
        matches := matches + [k];
        if |matches| >= limit { return; }
      }
    }
  }

  /** The rows a page fetches: those beyond the cursor. */
  method FetchRows(nodes: Nodes, a: Id, cap: Option<nat>, after: Option<Key>, ghost anchor: Segments, ghost root: Id)
    returns (rows: seq<Key>, paths: map<Id, Segments>)
    requires Sound(nodes, root) && Resolved(nodes, anchor) == Some(a) && a in nodes
    ensures rows == SortSet(Past(RowKeys(nodes, a, cap), after))
    ensures forall k :: k in rows ==> k.id in nodes && k.id in paths && paths[k.id] == PathBelow(nodes, a, cap, k.id)
  {
    paths := QueryDescendants(nodes, a, cap, anchor, root);
    var keys := set x | x in paths :: Key(|paths[x]|, nodes[x].name, x);
    assert keys == RowKeys(nodes, a, cap);
    rows := SortRows(Past(keys, after));
  }

  /** The start itself and the scanned rows make one page. */
  lemma StartAndRows(all: seq<Key>, chosen: iset<Key>, start: nat, first: seq<Key>, rows: seq<Key>, scanned: nat)
    requires |all| > 0 && start <= |all| && rows == all[Max(start, 1)..] && scanned <= |rows|
    requires first == if start == 0 then Select(all[..1], chosen) else []
    ensures first + Select(rows[..scanned], chosen) == Select(all[start..Max(start, 1) + scanned], chosen)
  {
    var end := Max(start, 1) + scanned;
    assert rows[..scanned] == all[Max(start, 1)..end];
    if start == 0 {
      SelectJoin(all[..1], all[1..end], chosen);
      assert all[0..end] == all[..1] + all[1..end];
    }
  }

  /** What a scan that saw `scanned` of the rows beyond the cursor hands out. */
  lemma ScanIsPage(all: seq<Key>, chosen: iset<Key>, after: Option<Key>, start: nat, first: seq<Key>, rows: seq<Key>,
                   scanned: nat, more: bool)
    requires |all| > 0 && StartsAt(all, after, start) && rows == all[Max(start, 1)..] && scanned <= |rows|
    requires first == if after.None? then Select(all[..1], chosen) else []
    requires if more then scanned > 0 else scanned == |rows|
    ensures var end := Max(start, 1) + scanned;
            IsPage(all, chosen, start, first + Select(rows[..scanned], chosen), end, more) &&
            (more ==> StartsAt(all, Some(rows[scanned - 1]), end))
  {
    StartAndRows(all, chosen, start, first, rows, scanned);
  }

  /** The start, looked at on the first page only. */
  method ScanStart(query: Query, nodes: Nodes, attributes: map<Id, Attributes>, a: Id, after: Option<Key>,
                   ghost cap: Option<nat>)
    returns (found: seq<Key>)
    requires a in nodes
    ensures found == if after.None? then Select(Listing(nodes, a, cap)[..1], Chosen(query, nodes, attributes, a, cap))
            else []
    ensures |found| <= 1
  {
    found := [];
    if after.None? {
      var matched := SelectsRow(query, nodes, attributes, a, []);
      if matched { found := [Top(a)]; }
      ghost var chosen := Chosen(query, nodes, attributes, a, cap);
      assert Listing(nodes, a, cap)[..1] == [Top(a)] && Select([Top(a)][1..], chosen) == [];
    }
  }

  /** `glob_tx` and `find_tx` below a start that was resolved. */
  method ScanPage(query: Query, nodes: Nodes, attributes: map<Id, Attributes>, a: Id, after: Option<Key>,
                  pageLimit: nat,
                  ghost start: nat, ghost anchor: Segments, ghost root: Id)
    returns (matches: seq<Key>, next: Option<Key>, ghost end: nat)
    requires Sound(nodes, root) && Resolved(nodes, anchor) == Some(a) && a in nodes
    ensures |matches| <= Max(1, pageLimit)
    ensures var cap := Some(MAX_SUBTREE_DEPTH);
            var all := Listing(nodes, a, cap);
            StartsAt(all, after, start) ==>
              IsPage(all, Chosen(query, nodes, attributes, a, cap), start, matches, end, next.Some?) &&
              (next.Some? ==> StartsAt(all, next, end))
  {
    hide Sound, Walk, Resolved, PathBelow, RowKeys, Past, SortSet, Sorted, Select;
    var limit := Max(1, pageLimit);
    var cap := Some(MAX_SUBTREE_DEPTH);
    ghost var all := Listing(nodes, a, cap);
    ghost var chosen := Chosen(query, nodes, attributes, a, cap);
    var found := ScanStart(query, nodes, attributes, a, after, cap);
    if |found| >= limit {
      assert all[0..1] == all[..1] && all[0] == Top(a);
      return found, Some(Top(a)), 1;
    }
    var rows, paths := FetchRows(nodes, a, cap, after, anchor, root);
    var exhausted := |rows| > WORK_BUDGET;
    var window := if exhausted then rows[..WORK_BUDGET] else rows;
    var scanned;
    matches, scanned := ScanRows(query, nodes, attributes, window, paths, found, limit, chosen);
    assert window[..scanned] == rows[..scanned];
    next := if |matches| >= limit || exhausted then Some(window[scanned - 1]) else None;
    end := Max(start, 1) + scanned;
    if StartsAt(all, after, start) {
      RowsBeyond(nodes, root, anchor, a, cap, after, start);
      ScanIsPage(all, chosen, after, start, found, rows, scanned, next.Some?);
    }
  }

  lemma NoCursor(rows: seq<Key>)
    ensures StartsAt(rows, None, 0)
  {
  }

  /** `glob` or `find`, called again with each cursor it hands out. */
  method ScanAllPages(query: Query, nodes: Nodes, attributes: map<Id, Attributes>, a: Id, limits: nat -> nat,
                      ghost anchor: Segments, ghost root: Id)
    returns (pages: seq<seq<Key>>)
    requires Sound(nodes, root) && Resolved(nodes, anchor) == Some(a) && a in nodes
    ensures AllPages(Listing(nodes, a, Some(MAX_SUBTREE_DEPTH)),
                     Chosen(query, nodes, attributes, a, Some(MAX_SUBTREE_DEPTH)), limits, pages)
  {
    hide Sound, Walk, Resolved, Listing, Chosen, TreeListing, Children, Everything, StartsAt, Reading, AllPages;
    ghost var all, chosen := Listing(nodes, a, Some(MAX_SUBTREE_DEPTH)),
        Chosen(query, nodes, attributes, a, Some(MAX_SUBTREE_DEPTH));
    ghost var ends: seq<nat>, more: seq<bool> := [0], [];
    pages := [];
    var after: Option<Key> := None;
    var done := false;
    NoCursor(all);
    ReadingStarts(all, chosen, limits);
    while !done
      invariant Reading(all, chosen, limits, ends, pages, more, done) && |ends| == |pages| + 1 && |pages| <= |all| + 1
      invariant !done ==> StartsAt(all, after, ends[|pages|])
      decreases |all| + 1 - |pages|
    {
      var page, next, end := ScanPage(query, nodes, attributes, a, after, limits(|pages|), ends[|pages|], anchor, root);
      ReadOn(all, chosen, limits, ends, pages, more, page, end, next.Some?);
      ends, pages, more := ends + [end], pages + [page], more + [next.Some?];
      ReadingIsBounded(all, chosen, limits, ends, pages, more, next.None?);
      after, done := next, next.None?;
    }
    ReadingEnds(all, chosen, limits, ends, pages, more);
  }

  // --- what glob selects -----------------------------------------------------

  /** Rows of the listing and absolute paths correspond. */
  lemma RowsAreAbsolutePaths(nodes: Nodes, root: Id, anchor: Segments, a: Id, cap: Option<nat>, k: Key)
    requires Sound(nodes, root) && Resolved(nodes, anchor) == Some(a) && a in nodes
    ensures k in Listing(nodes, a, cap) ==>
              k.id in nodes && Resolved(nodes, anchor + PathBelow(nodes, a, cap, k.id)) == Some(k.id) &&
              DepthOk(|PathBelow(nodes, a, cap, k.id)|, cap)
  {
    ListingIsSorted(nodes, root, anchor, a, cap);
    RootIsFetched(nodes, root);
    if k in Listing(nodes, a, cap) {
      if k == Top(a) {
        assert anchor + [] == anchor;
      } else {
        var q :| Reaches(nodes, a, cap, q, k.id);
        PathBelowIs(nodes, root, anchor, a, cap, q, k.id);
        WalkAppend(nodes, root, anchor, q);
      }
    }
  }

  /** A node that some absolute path reaches which the pattern matches, within the depth cap of the scan. */
  ghost predicate PathMatches(p: Pattern, nodes: Nodes, x: Id) {
    exists path :: Resolved(nodes, path) == Some(x) && GlobMatches(CanonicalPattern(p), path) &&
        |path| <= |Anchor(p)| + MAX_SUBTREE_DEPTH
  }

  /**
   The nodes that `glob` selects below the node of its literal prefix are exactly
   those, down to the depth cap, whose absolute path matches the whole pattern.
   */
  lemma GlobSelectsByAbsolutePath(p: Pattern, nodes: Nodes, root: Id, attributes: map<Id, Attributes>, a: Id, x: Id)
    requires Sound(nodes, root) && Resolved(nodes, Anchor(p)) == Some(a) && a in nodes
    ensures var cap := Some(MAX_SUBTREE_DEPTH);
            (exists k: Key :: k.id == x &&
                k in Select(Listing(nodes, a, cap), Chosen(ByPattern(p[LiteralCount(p)..]), nodes, attributes, a, cap)))
            <==> PathMatches(p, nodes, x)
  {
    hide Resolved, Sound, GlobMatches, Listing, Chosen, CanonicalPattern, Anchor, Select;
    var cap := Some(MAX_SUBTREE_DEPTH);
    var query := ByPattern(p[LiteralCount(p)..]);
    var all, chosen := Listing(nodes, a, cap), Chosen(query, nodes, attributes, a, cap);
    if k: Key :| k.id == x && k in Select(all, chosen) { PathOfSelected(p, nodes, root, attributes, a, k); }
    if path :|
      Resolved(nodes, path) == Some(x) && GlobMatches(CanonicalPattern(p), path) &&
      |path| <= |Anchor(p)| + MAX_SUBTREE_DEPTH
    {
      SelectedFromPath(p, nodes, root, attributes, a, x, path);
    }
  }

  /** And every path within the cap is that of a row. */
  lemma PathIsListed(nodes: Nodes, root: Id, anchor: Segments, a: Id, cap: Option<nat>, below: Segments, x: Id)
    returns (k: Key)
    requires Sound(nodes, root) && Resolved(nodes, anchor) == Some(a) && a in nodes
    requires Resolved(nodes, anchor + below) == Some(x) && DepthOk(|below|, cap)
    ensures k.id == x && x in nodes && k in Listing(nodes, a, cap) && PathBelow(nodes, a, cap, x) == below
  {
    RootIsFetched(nodes, root);
    WalkAppend(nodes, root, anchor, below);
    if below == [] {
      k := Top(a);
    } else {
      k := Key(|below|, nodes[x].name, x);
      PathBelowIs(nodes, root, anchor, a, cap, below, x);
      assert k in RowKeys(nodes, a, cap);
    }
  }

  lemma PathOfSelected(p: Pattern, nodes: Nodes, root: Id, attributes: map<Id, Attributes>, a: Id, k: Key)
    requires Sound(nodes, root) && Resolved(nodes, Anchor(p)) == Some(a) && a in nodes
    requires var cap := Some(MAX_SUBTREE_DEPTH);
             k in Select(Listing(nodes, a, cap), Chosen(ByPattern(p[LiteralCount(p)..]), nodes, attributes, a, cap))
    ensures exists path :: Resolved(nodes, path) == Some(k.id) && GlobMatches(CanonicalPattern(p), path) &&
                           |path| <= |Anchor(p)| + MAX_SUBTREE_DEPTH
  {
    hide Sound, Resolved, GlobMatches, CanonicalPattern, Anchor, Select, LiteralCount;
    var cap := Some(MAX_SUBTREE_DEPTH);
    SelectIs(Listing(nodes, a, cap), Chosen(ByPattern(p[LiteralCount(p)..]), nodes, attributes, a, cap), k);
    RowsAreAbsolutePaths(nodes, root, Anchor(p), a, cap, k);
    var below := PathBelow(nodes, a, cap, k.id);
    AnchoredMatch(p, below);
    assert Resolved(nodes, Anchor(p) + below) == Some(k.id);
  }

  lemma SelectedFromPath(p: Pattern, nodes: Nodes, root: Id, attributes: map<Id, Attributes>, a: Id, x: Id,
                         path: Segments)
    requires Sound(nodes, root) && Resolved(nodes, Anchor(p)) == Some(a) && a in nodes
    requires Resolved(nodes, path) == Some(x) && GlobMatches(CanonicalPattern(p), path) &&
             |path| <= |Anchor(p)| + MAX_SUBTREE_DEPTH
    ensures var cap := Some(MAX_SUBTREE_DEPTH);
            exists k: Key :: k.id == x &&
                k in Select(Listing(nodes, a, cap), Chosen(ByPattern(p[LiteralCount(p)..]), nodes, attributes, a, cap))
  {
    var cap := Some(MAX_SUBTREE_DEPTH);
    var all, chosen := Listing(nodes, a, cap), Chosen(ByPattern(p[LiteralCount(p)..]), nodes, attributes, a, cap);
    MatchesLieBelowAnchor(p, path);
    var below := path[|Anchor(p)|..];
    assert Anchor(p) + below == path;
    hide Sound, Resolved, GlobMatches, Listing, PathBelow, Anchor, LiteralCount;
    var k := PathIsListed(nodes, root, Anchor(p), a, cap, below, x);
    SelectIs(all, chosen, k);
  }

  // --- tree, read_dir and the change feed -------------------------------------

  ghost function Everything<T(!new)>(rows: seq<T>): iset<T> { iset x | x in rows }

  lemma {:induction false} SelectWhole<T(!new)>(rows: seq<T>, chosen: iset<T>)
    requires forall x :: x in rows ==> x in chosen
    ensures Select(rows, chosen) == rows
  {
    if rows != [] {
      assert rows == [rows[0]] + rows[1..];
      SelectWhole(rows[1..], chosen);
    }
  }

  lemma SliceOfEverything<T(!new)>(rows: seq<T>, from: nat, to: nat)
    requires from <= to <= |rows|
    ensures Select(rows[from..to], Everything(rows)) == rows[from..to]
  {
    SelectWhole(rows[from..to], Everything(rows));
  }

  /** One row more than the limit is fetched, to know whether to hand out a cursor. */
  method CutPage(beyond: seq<Key>, pageLimit: nat, ghost all: seq<Key>, ghost after: Option<Key>, ghost start: nat)
    returns (page: seq<Key>, next: Option<Key>, ghost end: nat)
    ensures |page| <= Max(1, pageLimit)
    ensures StartsAt(all, after, start) && beyond == all[start..] ==>
              IsPage(all, Everything(all), start, page, end, next.Some?) && (next.Some? ==> StartsAt(all, next, end))
  {
    var limit := Max(1, pageLimit);
    page := beyond[..Min(limit + 1, |beyond|)];
    var more := |page| > limit;
    if more {
      assert page[..limit] == beyond[..limit];
      page := page[..limit];
    }
    next := if more then Some(page[|page| - 1]) else None;
    end := start + |page|;
    assert page == beyond[..|page|];
    if StartsAt(all, after, start) && beyond == all[start..] {
      assert all[start..][..|page|] == all[start..end];
      SliceOfEverything(all, start, end);
    }
  }

  ghost function TreeListing(nodes: Nodes, a: Id, maxDepth: Option<nat>): seq<Key> {
    SortSet(RowKeys(nodes, a, maxDepth))
  }

  ghost predicate ShownAt(nodes: Nodes, anchor: Segments, maxDepth: Option<nat>, q: Segments, k: Key) {
    Resolved(nodes, anchor + q) == Some(k.id) && q != [] && (|q| == 1 || maxDepth.None? || |q| <= maxDepth.value) &&
    k.id in nodes && k == Key(|q|, nodes[k.id].name, k.id)
  }

  /** `tree` lists the nodes that paths of at most `maxDepth` names lead to from its directory, or of one name. */
  lemma TreeShows(nodes: Nodes, root: Id, anchor: Segments, a: Id, maxDepth: Option<nat>, k: Key)
    requires Sound(nodes, root) && Resolved(nodes, anchor) == Some(a) && a in nodes
    ensures k in TreeListing(nodes, a, maxDepth) <==>
            exists q :: ShownAt(nodes, anchor, maxDepth, q, k)
  {
    RootIsFetched(nodes, root);
    var keys := RowKeys(nodes, a, maxDepth);
    assert k in TreeListing(nodes, a, maxDepth) <==> k in keys;
    forall q ensures Resolved(nodes, anchor + q) == Walk(nodes, a, q) { WalkAppend(nodes, root, anchor, q); }
    hide Resolved, Sound, Walk;
    if k in keys {
      var q :| Reaches(nodes, a, maxDepth, q, k.id);
      PathBelowIs(nodes, root, anchor, a, maxDepth, q, k.id);
      assert ShownAt(nodes, anchor, maxDepth, q, k);
    }
    if q :| ShownAt(nodes, anchor, maxDepth, q, k) {
      assert Reaches(nodes, a, maxDepth, q, k.id);
      PathBelowIs(nodes, root, anchor, a, maxDepth, q, k.id);
    }
  }

  /** `tree` below a directory that was resolved. */
  method TreePage(nodes: Nodes, a: Id, maxDepth: Option<nat>, after: Option<Key>, pageLimit: nat,
                  ghost start: nat, ghost anchor: Segments, ghost root: Id)
    returns (page: seq<Key>, next: Option<Key>, ghost end: nat)
    requires Sound(nodes, root) && Resolved(nodes, anchor) == Some(a) && a in nodes
    ensures |page| <= Max(1, pageLimit)
    ensures var all := TreeListing(nodes, a, maxDepth);
            StartsAt(all, after, start) ==>
              IsPage(all, Everything(all), start, page, end, next.Some?) && (next.Some? ==> StartsAt(all, next, end))
  {
    hide Sound, Walk, Resolved, PathBelow, RowKeys, Past, Select;
    ghost var all := TreeListing(nodes, a, maxDepth);
    var rows, paths := FetchRows(nodes, a, maxDepth, after, anchor, root);
    if StartsAt(all, after, start) { PastIsTheRest(RowKeys(nodes, a, maxDepth), all, after, start); }
    page, next, end := CutPage(rows, pageLimit, all, after, start);
  }

  /** `read_dir` of a directory that was resolved. */
  method ReadDirPage(nodes: Nodes, p: Id, after: Option<Key>, pageLimit: nat, ghost start: nat)
    returns (page: seq<Key>, next: Option<Key>, ghost end: nat)
    ensures |page| <= Max(1, pageLimit)
    ensures var all := Children(nodes, p);
            StartsAt(all, after, start) ==>
              IsPage(all, Everything(all), start, page, end, next.Some?) && (next.Some? ==> StartsAt(all, next, end))
  {
    var rows := SortRows(Past(ChildKeys(nodes, p), after));
    ghost var all := Children(nodes, p);
    if StartsAt(all, after, start) { PastIsTheRest(ChildKeys(nodes, p), all, after, start); }
    page, next, end := CutPage(rows, pageLimit, all, after, start);
  }

  /** The first `limit` changes after a sequence number. */
  method FetchChanges(feed: seq<Change>, ghost changeSeq: nat, after: nat, limit: nat) returns (rows: seq<Change>)
    requires FeedOk(feed, changeSeq)
    ensures if after <= |feed| then |rows| == Min(limit, |feed| - after) && rows == feed[after..after + |rows|]
            else rows == []
  {
    rows := [];
    var i := 0;
    while i < |feed| && |rows| < limit
      invariant i <= |feed| && rows == feed[Min(after, i)..i] && |rows| <= limit
    {
      if feed[i].sequence > after { rows := rows + [feed[i]]; }
      i := i + 1;
    }
  }

  /** `changes`: the cursor is a sequence number. */
  method ChangesPage(feed: seq<Change>, ghost changeSeq: nat, after: nat, pageLimit: nat)
      returns (page: seq<Change>, next: Option<nat>)
    requires FeedOk(feed, changeSeq)
    ensures |page| <= Max(1, pageLimit)
    ensures after <= |feed| ==> IsPage(feed, Everything(feed), after, page, after + |page|, next.Some?)
    ensures next.Some? ==> next.value == after + |page|
  {
    var limit := Max(1, pageLimit);
    page := FetchChanges(feed, changeSeq, after, limit + 1);
    var more := |page| > limit;
    if more {
      assert page[..limit] == feed[after..after + limit];
      page := page[..limit];
    }
    next := if more then Some(page[|page| - 1].sequence) else None;
    if after <= |feed| {
      SliceOfEverything(feed, after, after + |page|);
    }
  }

  /** `tree`, called again with each cursor it hands out. */
  method TreeAllPages(nodes: Nodes, a: Id, maxDepth: Option<nat>, limits: nat -> nat, ghost anchor: Segments,
                      ghost root: Id)
    returns (pages: seq<seq<Key>>)
    requires Sound(nodes, root) && Resolved(nodes, anchor) == Some(a) && a in nodes
    ensures AllPages(TreeListing(nodes, a, maxDepth), Everything(TreeListing(nodes, a, maxDepth)), limits, pages)
  {
    hide Sound, Walk, Resolved, Listing, Chosen, TreeListing, Children, Everything, StartsAt, Reading, AllPages;
    ghost var all, chosen := TreeListing(nodes, a, maxDepth), Everything(TreeListing(nodes, a, maxDepth));
    ghost var ends: seq<nat>, more: seq<bool> := [0], [];
    pages := [];
    var after: Option<Key> := None;
    var done := false;
    NoCursor(all);
    ReadingStarts(all, chosen, limits);
    while !done
      invariant Reading(all, chosen, limits, ends, pages, more, done) && |ends| == |pages| + 1 && |pages| <= |all| + 1
      invariant !done ==> StartsAt(all, after, ends[|pages|])
      decreases |all| + 1 - |pages|
    {
      var page, next, end := TreePage(nodes, a, maxDepth, after, limits(|pages|), ends[|pages|], anchor, root);
      ReadOn(all, chosen, limits, ends, pages, more, page, end, next.Some?);
      ends, pages, more := ends + [end], pages + [page], more + [next.Some?];
      ReadingIsBounded(all, chosen, limits, ends, pages, more, next.None?);
      after, done := next, next.None?;
    }
    ReadingEnds(all, chosen, limits, ends, pages, more);
  }

  /** `read_dir`, called again with each cursor it hands out. */
  method ReadDirAllPages(nodes: Nodes, p: Id, limits: nat -> nat) returns (pages: seq<seq<Key>>)
    ensures AllPages(Children(nodes, p), Everything(Children(nodes, p)), limits, pages)
  {
    hide Sound, Walk, Resolved, Listing, Chosen, TreeListing, Children, Everything, StartsAt, Reading, AllPages;
    ghost var all, chosen := Children(nodes, p), Everything(Children(nodes, p));
    ghost var ends: seq<nat>, more: seq<bool> := [0], [];
    pages := [];
    var after: Option<Key> := None;
    var done := false;
    NoCursor(all);
    ReadingStarts(all, chosen, limits);
    while !done
      invariant Reading(all, chosen, limits, ends, pages, more, done) && |ends| == |pages| + 1 && |pages| <= |all| + 1
      invariant !done ==> StartsAt(all, after, ends[|pages|])
      decreases |all| + 1 - |pages|
    {
      var page, next, end := ReadDirPage(nodes, p, after, limits(|pages|), ends[|pages|]);
      ReadOn(all, chosen, limits, ends, pages, more, page, end, next.Some?);
      ends, pages, more := ends + [end], pages + [page], more + [next.Some?];
      ReadingIsBounded(all, chosen, limits, ends, pages, more, next.None?);
      after, done := next, next.None?;
    }
    ReadingEnds(all, chosen, limits, ends, pages, more);
  }

  /** `changes`, called again with each cursor it hands out. */
  method ChangesAllPages(feed: seq<Change>, ghost changeSeq: nat, limits: nat -> nat) returns (pages: seq<seq<Change>>)
    requires FeedOk(feed, changeSeq)
    ensures AllPages(feed, Everything(feed), limits, pages)
  {
    hide Everything, Reading, AllPages;
    ghost var chosen := Everything(feed);
    ghost var ends: seq<nat>, more: seq<bool> := [0], [];
    pages := [];
    var after: nat := 0;
    var done := false;
    ReadingStarts(feed, chosen, limits);
    while !done
      invariant Reading(feed, chosen, limits, ends, pages, more, done) && |ends| == |pages| + 1 && |pages| <= |feed| + 1
      invariant !done ==> after == ends[|pages|] <= |feed|
      decreases |feed| + 1 - |pages|
    {
      var page, next := ChangesPage(feed, changeSeq, after, limits(|pages|));
      ReadOn(feed, chosen, limits, ends, pages, more, page, after + |page|, next.Some?);
      ends, pages, more := ends + [after + |page|], pages + [page], more + [next.Some?];
      ReadingIsBounded(feed, chosen, limits, ends, pages, more, next.None?);
      done := next.None?;
      if next.Some? { after := next.value; }
    }
    ReadingEnds(feed, chosen, limits, ends, pages, more);
  }

  // --- glob, from its pattern string -----------------------------------------

  /** A node within the depth cap that some absolute path reaches which the pattern string takes. */
  ghost predicate StringFinds(pattern: string, nodes: Nodes, x: Id, greedy: bool)
    requires pattern != ""
  {
    exists path :: Resolved(nodes, path) == Some(x) && StringTakes(pattern, path, greedy) &&
        |path| <= |Lead(pattern)| + 4096
  }

  lemma CompiledFinds(pattern: string, nodes: Nodes, x: Id)
    requires CompilePattern(pattern).Ok?
    ensures PathMatches(CompilePattern(pattern).value, nodes, x) <==> StringFinds(pattern, nodes, x, true)
  {
    hide GlobMatches, StringTakes, CanonicalPattern, Anchor, Resolved, Lead;
    var p := CompilePattern(pattern).value;
    CompiledStringTakes(pattern, []);
    forall path ensures GlobMatches(CanonicalPattern(p), path) <==> StringTakes(pattern, path, true) {
      CompiledStringTakes(pattern, path);
    }
  }

  /** The segments of a path that resolves are names of nodes. */
  lemma {:induction false} ResolvedNames(nodes: Nodes, root: Id, path: Segments, x: Id)
    requires Sound(nodes, root) && Resolved(nodes, path) == Some(x) && forall y :: y in nodes ==> '*' !in nodes[y].name
    ensures forall i :: 0 <= i < |path| ==> '*' !in path[i]
    decreases |path|
  {
    if path != [] {
      LastStep(nodes, root, path, x);
      ResolvedNames(nodes, root, Pop(path), Resolved(nodes, Pop(path)).value);
    }
  }

  /** If no name holds a `*`, what the matcher finds is what the pattern means. */
  lemma PlainNamesMean(pattern: string, nodes: Nodes, root: Id, x: Id)
    requires pattern != "" && Sound(nodes, root) && forall y :: y in nodes ==> '*' !in nodes[y].name
    ensures StringFinds(pattern, nodes, x, true) <==> StringFinds(pattern, nodes, x, false)
  {
    hide PiecesTake, Lead, Resolved, Sound, Split, PlainLead;
    forall path | Resolved(nodes, path) == Some(x)
      ensures StringTakes(pattern, path, true) <==> StringTakes(pattern, path, false)
    {
      ResolvedNames(nodes, root, path, x);
      var pieces := Split(pattern[1..]);
      if Lead(pattern) <= path { VerdictIsMeaning(pieces[PlainLead(pieces)..], path[|Lead(pattern)|..]); }
    }
  }

  lemma UnresolvedAnchor(p: Pattern, nodes: Nodes, root: Id, x: Id)
    requires Sound(nodes, root) && Resolved(nodes, Anchor(p)).None?
    ensures !PathMatches(p, nodes, x)
  {
    hide GlobMatches, CanonicalPattern, Anchor;
    forall path | Resolved(nodes, path) == Some(x) ensures !GlobMatches(CanonicalPattern(p), path) {
      if GlobMatches(CanonicalPattern(p), path) {
        MatchesLieBelowAnchor(p, path);
        RootIsFetched(nodes, root);
        assert Anchor(p) + path[|Anchor(p)|..] == path;
        WalkAppend(nodes, root, Anchor(p), path[|Anchor(p)|..]);
      }
    }
  }

  /**
   `glob` from a pattern string, followed through all its cursors: it refuses exactly the
   strings that do not begin with `/`, and finds exactly the nodes that some absolute
   path reaches which the pattern takes: by the matcher's verdict, and, if no name holds
   a `*`, by the meaning of its pieces.
   */
  method GlobAll(pattern: string, nodes: Nodes, attributes: map<Id, Attributes>, limits: nat -> nat, ghost root: Id)
    returns (r: Result<seq<seq<Key>>, PathError>)
    requires Sound(nodes, root) && Nulless(pattern)
    ensures r.Err? <==> pattern == "" || pattern[0] != '/'
    ensures r.Ok? ==> forall x :: (exists k: Key :: k.id == x && k in Concat(r.value)) <==>
                        StringFinds(pattern, nodes, x, true)
    ensures r.Ok? && (forall y :: y in nodes ==> '*' !in nodes[y].name) ==>
              forall x :: (exists k: Key :: k.id == x && k in Concat(r.value)) <==>
                StringFinds(pattern, nodes, x, false)
  {
    hide Sound, Resolved, GlobMatches, Listing, Chosen, Select, Anchor, CanonicalPattern, LiteralCount;
    hide PathMatches, StringFinds;
    var compiled := CompilePattern(pattern);
    if compiled.Err? { return Err(compiled.error); }
    var p := compiled.value;
    CompiledLiterals(pattern);
    if forall y :: y in nodes ==> '*' !in nodes[y].name {
      forall x ensures StringFinds(pattern, nodes, x, true) <==> StringFinds(pattern, nodes, x, false) {
        PlainNamesMean(pattern, nodes, root, x);
      }
    }
    forall x ensures PathMatches(p, nodes, x) <==> StringFinds(pattern, nodes, x, true) {
      CompiledFinds(pattern, nodes, x);
    }
    var prefix, count := LiteralPrefix(p);
    var a := ResolvePlain(nodes, Segs(prefix), root);
    if a.None? {
      forall x ensures !PathMatches(p, nodes, x) { UnresolvedAnchor(p, nodes, root, x); }
      return Ok([]);
    }
    ResolvedExists(nodes, root, Segs(prefix), a.value);
    var pages := ScanAllPages(ByPattern(p[count..]), nodes, attributes, a.value, limits, Anchor(p), root);
    forall x ensures (exists k: Key :: k.id == x && k in Concat(pages)) <==> PathMatches(p, nodes, x) {
      GlobSelectsByAbsolutePath(p, nodes, root, attributes, a.value, x);
    }
    return Ok(pages);
  }

  lemma ResolvedExists(nodes: Nodes, root: Id, path: Segments, x: Id)
    requires Sound(nodes, root) && Resolved(nodes, path) == Some(x)
    ensures x in nodes
  {
    ResolvedIsActive(nodes, root, path, x);
  }

  // --- find, from its query --------------------------------------------------

  /** What a query asks of a node: every condition that it states. */
  ghost predicate Meets(q: FindQuery, n: Node, held: Attributes) {
    (q.kind == None || q.kind == Some(n.kind)) &&
    (forall low :: q.minSize == Some(low) ==> low <= n.size) &&
    (forall high :: q.maxSize == Some(high) ==> n.size <= high) &&
    (forall t :: q.modifiedAfter == Some(t) ==> t < n.modifiedAt) &&
    (forall t :: q.modifiedBefore == Some(t) ==> n.modifiedAt < t) &&
    (forall part :: q.nameContains == Some(part) ==> exists i, j :: 0 <= i <= j <= |n.name| && n.name[i..j] == part) &&
    q.attributes.Items <= held.Items
  }

  lemma {:induction false} ContainsIs(s: string, part: string)
    ensures Contains(s, part) <==> exists i, j :: 0 <= i <= j <= |s| && s[i..j] == part
  {
    if part <= s {
      assert s[0..|part|] == part;
    } else if s != "" {
      ContainsIs(s[1..], part);
      assert forall j :: 0 <= j <= |s| && s[0..j] == part ==> part <= s;
      if i, j :| 0 <= i <= j <= |s| && s[i..j] == part {
        assert s[1..][i - 1..j - 1] == part;
      }
      if i, j :| 0 <= i <= j <= |s[1..]| && s[1..][i..j] == part {
        assert s[i + 1..j + 1] == part;
      }
    }
  }

  lemma RowTestIsMeets(q: FindQuery, n: Node, held: Attributes)
    ensures PredicateMatches(n, q) && AttributesMatch(held, q.attributes) <==> Meets(q, n, held)
  {
    hide Contains;
    if q.nameContains.Some? { ContainsIs(n.name, q.nameContains.value); }
    if AttributesMatch(held, q.attributes) {
      forall item | item in q.attributes.Items ensures item in held.Items { }
    }
    if q.attributes.Items <= held.Items {
      forall key | key in q.attributes ensures key in held && held[key] == q.attributes[key] {
        assert (key, q.attributes[key]) in q.attributes.Items;
      }
    }
  }

  /** A node at or below the start, within the depth cap, that meets the query. */
  ghost predicate QueryFinds(q: FindQuery, start: Segments, nodes: Nodes, attributes: map<Id, Attributes>, x: Id) {
    x in nodes && Meets(q, nodes[x], AttributesOf(attributes, x)) &&
    exists below :: Resolved(nodes, start + below) == Some(x) && |below| <= 4096
  }

  lemma FindSelects(q: FindQuery, start: Segments, nodes: Nodes, root: Id, attributes: map<Id, Attributes>, a: Id,
                    x: Id)
    requires Sound(nodes, root) && Resolved(nodes, start) == Some(a) && a in nodes
    ensures var cap := Some(MAX_SUBTREE_DEPTH);
            (exists k: Key :: k.id == x &&
                k in Select(Listing(nodes, a, cap), Chosen(ByPredicate(q), nodes, attributes, a, cap))) <==>
            QueryFinds(q, start, nodes, attributes, x)
  {
    hide Sound, Resolved, Listing, Select, PathBelow, Meets, PredicateMatches, AttributesMatch;
    var cap := Some(MAX_SUBTREE_DEPTH);
    var all, chosen := Listing(nodes, a, cap), Chosen(ByPredicate(q), nodes, attributes, a, cap);
    if x in nodes { RowTestIsMeets(q, nodes[x], AttributesOf(attributes, x)); }
    if k: Key :| k.id == x && k in Select(all, chosen) {
      SelectIs(all, chosen, k);
      RowsAreAbsolutePaths(nodes, root, start, a, cap, k);
    }
    if QueryFinds(q, start, nodes, attributes, x) {
      var below :| Resolved(nodes, start + below) == Some(x) && |below| <= 4096;
      var k := PathIsListed(nodes, root, start, a, cap, below, x);
      SelectIs(all, chosen, k);
    }
  }

  /**
   `find`, followed through all its cursors: it refuses exactly a start that does not
   resolve, and finds exactly the nodes below it that meet every condition of the query.
   */
  method FindAll(q: FindQuery, start: Segments, nodes: Nodes, attributes: map<Id, Attributes>, limits: nat -> nat,
                 ghost root: Id)
    returns (r: Option<seq<seq<Key>>>)
    requires Sound(nodes, root)
    ensures r.None? <==> Resolved(nodes, start).None?
    ensures r.Some? ==> forall x :: (exists k: Key :: k.id == x && k in Concat(r.value)) <==>
                          QueryFinds(q, start, nodes, attributes, x)
  {
    hide Sound, Resolved, Listing, Chosen, Select, QueryFinds;
    var a := ResolvePlain(nodes, start, root);
    if a.None? { return None; }
    ResolvedExists(nodes, root, start, a.value);
    var pages := ScanAllPages(ByPredicate(q), nodes, attributes, a.value, limits, start, root);
    forall x ensures (exists k: Key :: k.id == x && k in Concat(pages)) <==> QueryFinds(q, start, nodes, attributes, x)
    {
      FindSelects(q, start, nodes, root, attributes, a.value, x);
    }
    return Some(pages);
  }
}
