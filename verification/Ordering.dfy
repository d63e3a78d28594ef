/**
 The order in which queries return rows: by depth, name and id
 (`ORDER BY depth, name, id` in crates/fslite-sqlite/src/search.rs and directory.rs,
 `ORDER BY name, id` in resolve.rs).
 */
module Ordering {
  import opened Common

  /** SQLite's BINARY collation, on code points. */
  predicate StrLess(a: string, b: string) {
    b != "" && (a == "" || a[0] < b[0] || (a[0] == b[0] && StrLess(a[1..], b[1..])))
  }

  lemma {:induction false} StrLessTotal(a: string, b: string)
    ensures !(StrLess(a, b) && StrLess(b, a))
    ensures StrLess(a, b) || StrLess(b, a) || a == b
    ensures !StrLess(a, a)
  {
    if a != "" {
      StrLessTotal(a[1..], a[1..]);
      if b != "" && a[0] == b[0] {
        StrLessTotal(a[1..], b[1..]);
        assert a == [a[0]] + a[1..] && b == [b[0]] + b[1..];
      }
    }
  }

  lemma {:induction false} StrLessTransitive(a: string, b: string, c: string)
    requires StrLess(a, b) && StrLess(b, c)
    ensures StrLess(a, c)
  {
    if a != "" && a[0] == b[0] && b[0] == c[0] { StrLessTransitive(a[1..], b[1..], c[1..]); }
  }

  /** The position of a row. */
  datatype Key = Key(depth: nat, name: string, id: nat)

  predicate KeyLess(a: Key, b: Key) {
    a.depth < b.depth ||
    (a.depth == b.depth && (StrLess(a.name, b.name) || (a.name == b.name && a.id < b.id)))
  }

  lemma KeyLessTotal(a: Key, b: Key)
    ensures !(KeyLess(a, b) && KeyLess(b, a))
    ensures KeyLess(a, b) || KeyLess(b, a) || a == b
    ensures !KeyLess(a, a)
  {
    StrLessTotal(a.name, b.name);
  }

  lemma KeyLessTransitive(a: Key, b: Key, c: Key)
    requires KeyLess(a, b) && KeyLess(b, c)
    ensures KeyLess(a, c)
  {
    if StrLess(a.name, b.name) && StrLess(b.name, c.name) { StrLessTransitive(a.name, b.name, c.name); }
  }

  /** The first difference decides, and a beginning comes first. */
  lemma {:induction false} StrLessIs(a: string, b: string)
    ensures StrLess(a, b) <==>
            exists n :: 0 <= n <= |a| && n < |b| && a[..n] == b[..n] && (n == |a| || a[n] < b[n])
  {
    if a != "" && b != "" && a[0] == b[0] {
      StrLessIs(a[1..], b[1..]);
      if n :| 0 <= n <= |a| && n < |b| && a[..n] == b[..n] && (n == |a| || a[n] < b[n]) {
        assert n > 0 && a[1..][..n - 1] == a[..n][1..] == b[1..][..n - 1];
      }
      if n :| 0 <= n <= |a[1..]| && n < |b[1..]| && a[1..][..n] == b[1..][..n] &&
              (n == |a[1..]| || a[1..][n] < b[1..][n])
      {
        assert a[..n + 1] == [a[0]] + a[1..][..n] && b[..n + 1] == [b[0]] + b[1..][..n];
      }
    } else {
      assert b != "" && (a == "" || a[0] < b[0]) ==> a[..0] == b[..0];
      assert forall n :: 0 < n <= |a| && n <= |b| && a[..n] == b[..n] ==> a[0] == a[..n][0] == b[0];
    }
  }

  // --- sorted rows -----------------------------------------------------------

  predicate Sorted(rows: seq<Key>) { forall i, j :: 0 <= i < j < |rows| ==> KeyLess(rows[i], rows[j]) }

  /** The rows of `s` in order, each once. */
  ghost predicate Lists(rows: seq<Key>, s: set<Key>) { Sorted(rows) && forall k :: k in rows <==> k in s }

  /** In a listing deeper rows come later, and rows of one depth by name, then by id. */
  lemma ListedInOrder(rows: seq<Key>, s: set<Key>, i: nat, j: nat)
    requires Lists(rows, s) && i < j < |rows|
    ensures rows[i].depth <= rows[j].depth
    ensures rows[i].depth == rows[j].depth ==> rows[i].name == rows[j].name || StrLess(rows[i].name, rows[j].name)
    ensures rows[i].depth == rows[j].depth && rows[i].name == rows[j].name ==> rows[i].id < rows[j].id
  {
    StrLessTotal(rows[i].name, rows[j].name);
    assert KeyLess(rows[i], rows[j]);
  }

  function Insert(k: Key, rows: seq<Key>): (r: seq<Key>) {
    if rows == [] || KeyLess(k, rows[0]) then [k] + rows else [rows[0]] + Insert(k, rows[1..])
  }

  lemma {:induction false} InsertSorts(k: Key, rows: seq<Key>)
    requires Sorted(rows) && k !in rows
    ensures Sorted(Insert(k, rows)) && forall x :: x in Insert(k, rows) <==> x == k || x in rows
  {
    if rows == [] {
    } else if KeyLess(k, rows[0]) {
      forall j | 0 < j < |rows| ensures KeyLess(k, rows[j]) { KeyLessTransitive(k, rows[0], rows[j]); }
    } else {
      KeyLessTotal(k, rows[0]);
      assert forall j :: 0 <= j < |rows[1..]| ==> rows[1..][j] == rows[j + 1];
      InsertSorts(k, rows[1..]);
      var inner := Insert(k, rows[1..]);
      assert rows == [rows[0]] + rows[1..];
      forall j | 0 <= j < |inner| ensures KeyLess(rows[0], inner[j]) {
        assert inner[j] in inner;
        if inner[j] == k { assert KeyLess(rows[0], k); }
      }
    }
  }

  /** A set of rows as the query returns it. */
  ghost function SortSet(s: set<Key>): (rows: seq<Key>)
    ensures Lists(rows, s)
    decreases |s|
  {
    if s == {} then []
    else
      var k :| k in s;
      var rest := SortSet(s - {k});
      InsertSorts(k, rest);
      Insert(k, rest)
  }

  method SortRows(s: set<Key>) returns (rows: seq<Key>)
    ensures rows == SortSet(s)
  {
    var todo := s;
    rows := [];
    while todo != {}
      invariant todo <= s && Lists(rows, s - todo)
    {
      var k :| k in todo;
      InsertSorts(k, rows);
      rows := Insert(k, rows);
      todo := todo - {k};
    }
    assert s - todo == s;
    ListingUnique(rows, SortSet(s), s);
  }

  /** There is one sorted listing. */
  lemma {:induction false} ListingUnique(a: seq<Key>, b: seq<Key>, s: set<Key>)
    requires Lists(a, s) && Lists(b, s)
    ensures a == b
    decreases |a|
  {
    EmptyListing(a, s);
    EmptyListing(b, s);
    if a != [] {
      FirstIsLeast(a, b, s);
      ListsTail(a, s);
      ListsTail(b, s);
      ListingUnique(a[1..], b[1..], s - {a[0]});
      assert a == [a[0]] + a[1..] && b == [b[0]] + b[1..];
    }
  }

  lemma EmptyListing(a: seq<Key>, s: set<Key>)
    requires Lists(a, s)
    ensures a == [] <==> s == {}
  {
    if a != [] { assert a[0] in s; }
    if k :| k in s { assert k in a; }
  }

  lemma FirstIsLeast(a: seq<Key>, b: seq<Key>, s: set<Key>)
    requires Lists(a, s) && Lists(b, s) && a != [] && b != []
    ensures a[0] == b[0]
  {
    if a[0] != b[0] {
      assert a[0] in s && b[0] in s;
      var i :| 0 <= i < |b| && b[i] == a[0];
      var j :| 0 <= j < |a| && a[j] == b[0];
      KeyLessTotal(a[0], b[0]);
    }
  }

  lemma ListsTail(a: seq<Key>, s: set<Key>)
    requires Lists(a, s) && a != []
    ensures Lists(a[1..], s - {a[0]})
  {
    assert forall j :: 0 <= j < |a[1..]| ==> a[1..][j] == a[j + 1];
    forall k ensures k in a[1..] <==> k in s - {a[0]} {
      if k in a[1..] {
        var j :| 0 <= j < |a[1..]| && a[1..][j] == k;
        KeyLessTotal(a[0], k);
        assert a[j + 1] in a;
      }
      if k in s && k != a[0] {
        var j :| 0 <= j < |a| && a[j] == k;
        assert a[1..][j - 1] == k;
      }
    }
  }
}
