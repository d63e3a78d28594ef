/**
 Node rows and the parent-pointer tree they form (the `nodes` table of
 crates/fslite-sqlite/migrations/0001_initial.sql and its queries in resolve.rs).

 Ancestry is a chain of parent links, acyclicity a ranking that grows along every
 link.  The lemmas give what each kind of row update does to both.
 */
module Tree {
  import opened Common

  type Id = nat

  datatype Kind = Directory | File | Symlink

  datatype Node = Node(
    parent: Option<Id>,
    name: string,
    kind: Kind,
    size: nat,
    revision: nat,
    createdAt: int,
    modifiedAt: int,
    accessedAt: int,
    generation: Option<Id>,
    target: Option<string>,
    trashedAt: Option<int>)

  type Nodes = map<Id, Node>

  // --- ancestry --------------------------------------------------------------

  /** Ids from an ancestor down to a descendant, each the parent of the next. */
  ghost predicate Chain(nodes: Nodes, c: seq<Id>) {
    c != [] && (forall i :: 0 <= i < |c| ==> c[i] in nodes) &&
    forall i :: 0 < i < |c| ==> nodes[c[i]].parent == Some(c[i - 1])
  }

  ghost predicate Joins(nodes: Nodes, c: seq<Id>, a: Id, x: Id) {
    Chain(nodes, c) && c[0] == a && c[|c| - 1] == x
  }

  /** `x` is `a` or a descendant of `a`, trashed nodes included. */
  ghost predicate Below(nodes: Nodes, a: Id, x: Id) { exists c :: Joins(nodes, c, a, x) }

  /** What the recursive query of `purge_subtree` selects. */
  ghost function Subtree(nodes: Nodes, a: Id): set<Id> { set x | x in nodes && Below(nodes, a, x) }

  lemma BelowSelf(nodes: Nodes, a: Id)
    requires a in nodes
    ensures Below(nodes, a, a)
  {
    assert Joins(nodes, [a], a, a);
  }

  lemma BelowChild(nodes: Nodes, a: Id, p: Id, x: Id)
    requires Below(nodes, a, p) && x in nodes && nodes[x].parent == Some(p)
    ensures Below(nodes, a, x)
  {
    var c :| Joins(nodes, c, a, p);
    assert Joins(nodes, c + [x], a, x);
  }

  lemma BelowParent(nodes: Nodes, a: Id, x: Id)
    requires Below(nodes, a, x) && x != a
    ensures x in nodes && nodes[x].parent.Some? && Below(nodes, a, nodes[x].parent.value)
  {
    var c :| Joins(nodes, c, a, x);
    assert Joins(nodes, c[..|c| - 1], a, c[|c| - 2]);
  }

  lemma BelowTrans(nodes: Nodes, a: Id, b: Id, x: Id)
    requires Below(nodes, a, b) && Below(nodes, b, x)
    ensures Below(nodes, a, x)
  {
    var c :| Joins(nodes, c, a, b);
    var d :| Joins(nodes, d, b, x);
    var e := c + d[1..];
    forall i | 0 < i < |e| ensures nodes[e[i]].parent == Some(e[i - 1]) {
      if i >= |c| { assert e[i] == d[i - |c| + 1]; }
    }
    assert Joins(nodes, e, a, x);
  }

  // --- acyclicity ------------------------------------------------------------

  ghost predicate Ranked(nodes: Nodes, rank: map<Id, nat>) {
    (forall x :: x in nodes ==> x in rank) &&
    forall x :: x in nodes && nodes[x].parent.Some? && nodes[x].parent.value in nodes ==>
      rank[nodes[x].parent.value] < rank[x]
  }

  /** No parent chain runs in a circle. */
  ghost predicate Acyclic(nodes: Nodes) { exists rank :: Ranked(nodes, rank) }

  lemma {:induction false} ChainRanks(nodes: Nodes, rank: map<Id, nat>, c: seq<Id>)
    requires Ranked(nodes, rank) && Chain(nodes, c)
    ensures rank[c[0]] + |c| - 1 <= rank[c[|c| - 1]]
  {
    if |c| > 1 {
      assert Chain(nodes, c[..|c| - 1]);
      ChainRanks(nodes, rank, c[..|c| - 1]);
    }
  }

  lemma BelowRanks(nodes: Nodes, rank: map<Id, nat>, a: Id, x: Id)
    requires Ranked(nodes, rank) && Below(nodes, a, x)
    ensures a in nodes && x in nodes && (x != a ==> rank[a] < rank[x])
  {
    var c :| Joins(nodes, c, a, x);
    ChainRanks(nodes, rank, c);
  }

  lemma NotBelowOwnChild(nodes: Nodes, a: Id, x: Id)
    requires Acyclic(nodes) && x in nodes && nodes[x].parent == Some(a) && a in nodes
    ensures !Below(nodes, x, a)
  {
    BelowSelf(nodes, a);
    BelowChild(nodes, a, a, x);
    var rank :| Ranked(nodes, rank);
    if Below(nodes, x, a) { BelowRanks(nodes, rank, x, a); }
  }

  /** Of two ancestors of one node, one is below the other. */
  lemma {:induction false} AncestorsComparable(nodes: Nodes, rank: map<Id, nat>, a: Id, b: Id, x: Id)
    requires Ranked(nodes, rank) && Below(nodes, a, x) && Below(nodes, b, x)
    ensures Below(nodes, a, b) || Below(nodes, b, a)
    decreases if x in rank then rank[x] else 0
  {
    BelowRanks(nodes, rank, a, x);
    if x != a && x != b {
      BelowParent(nodes, a, x);
      BelowParent(nodes, b, x);
      BelowRanks(nodes, rank, a, nodes[x].parent.value);
      AncestorsComparable(nodes, rank, a, b, nodes[x].parent.value);
    }
  }

  // --- the shape of a workspace ----------------------------------------------

  /** One root, and every other node hangs under an existing directory. */
  ghost predicate Rooted(nodes: Nodes, root: Id) {
    root in nodes && nodes[root].parent.None? && nodes[root].kind.Directory? && nodes[root].trashedAt.None? &&
    forall x :: x in nodes && x != root ==>
      nodes[x].parent.Some? && nodes[x].parent.value in nodes && nodes[nodes[x].parent.value].kind.Directory?
  }

  ghost predicate TreeOk(nodes: Nodes, root: Id) { Rooted(nodes, root) && Acyclic(nodes) }

  predicate Active(nodes: Nodes, x: Id) { x in nodes && nodes[x].trashedAt.None? }

  /** An active node in the place `(p, name)`. */
  predicate IsChild(nodes: Nodes, p: Id, name: string, x: Id) {
    Active(nodes, x) && nodes[x].parent == Some(p) && nodes[x].name == name
  }

  /** Active siblings have different names. */
  ghost predicate NamesDistinct(nodes: Nodes) {
    forall p, name, x, y :: IsChild(nodes, p, name, x) && IsChild(nodes, p, name, y) ==> x == y
  }

  lemma RootBelowOnlyItself(nodes: Nodes, root: Id, a: Id)
    requires Rooted(nodes, root) && Below(nodes, a, root)
    ensures a == root
  {
    if a != root { BelowParent(nodes, a, root); }
  }

  // --- inserting a row -------------------------------------------------------

  lemma InsertKeepsTree(nodes: Nodes, root: Id, id: Id, node: Node)
    requires TreeOk(nodes, root) && id !in nodes
    requires node.parent.Some? && node.parent.value in nodes && nodes[node.parent.value].kind.Directory?
    ensures TreeOk(nodes[id := node], root)
  {
    var rank :| Ranked(nodes, rank);
    assert Ranked(nodes[id := node], rank[id := rank[node.parent.value] + 1]);
  }

  lemma InsertKeepsNames(nodes: Nodes, id: Id, node: Node)
    requires NamesDistinct(nodes) && id !in nodes
    requires node.trashedAt.None? && node.parent.Some? ==> forall x :: !IsChild(nodes, node.parent.value, node.name, x)
    ensures NamesDistinct(nodes[id := node])
  {
    var nodes' := nodes[id := node];
    forall p, name, x, y | IsChild(nodes', p, name, x) && IsChild(nodes', p, name, y) ensures x == y {
      if x != id { assert IsChild(nodes, p, name, x); }
      if y != id { assert IsChild(nodes, p, name, y); }
    }
  }

  // --- updating a row in place -----------------------------------------------

  /** Same place in the tree; anything else may change. */
  predicate SamePlace(a: Node, b: Node) {
    a.parent == b.parent && a.name == b.name && a.kind == b.kind && a.trashedAt == b.trashedAt
  }

  lemma UpdateKeepsTree(nodes: Nodes, root: Id, id: Id, node: Node)
    requires TreeOk(nodes, root) && id in nodes && SamePlace(nodes[id], node)
    ensures TreeOk(nodes[id := node], root)
  {
    var rank :| Ranked(nodes, rank);
    assert Ranked(nodes[id := node], rank);
  }

  lemma UpdateKeepsNames(nodes: Nodes, id: Id, node: Node)
    requires NamesDistinct(nodes) && id in nodes && SamePlace(nodes[id], node)
    ensures NamesDistinct(nodes[id := node])
  {
    var nodes' := nodes[id := node];
    forall p, name, x, y | IsChild(nodes', p, name, x) && IsChild(nodes', p, name, y) ensures x == y {
      assert IsChild(nodes, p, name, x) && IsChild(nodes, p, name, y);
    }
  }

  lemma MarkKeepsTree(nodes: Nodes, root: Id, id: Id, mark: Option<int>)
    requires TreeOk(nodes, root) && id in nodes && id != root
    ensures TreeOk(nodes[id := nodes[id].(trashedAt := mark)], root)
  {
    var rank :| Ranked(nodes, rank);
    assert Ranked(nodes[id := nodes[id].(trashedAt := mark)], rank);
  }

  lemma TrashKeepsNames(nodes: Nodes, id: Id, at: int)
    requires NamesDistinct(nodes) && id in nodes
    ensures NamesDistinct(nodes[id := nodes[id].(trashedAt := Some(at))])
  {
    var nodes' := nodes[id := nodes[id].(trashedAt := Some(at))];
    forall p, name, x, y | IsChild(nodes', p, name, x) && IsChild(nodes', p, name, y) ensures x == y {
      assert IsChild(nodes, p, name, x) && IsChild(nodes, p, name, y);
    }
  }

  // --- deleting a subtree ----------------------------------------------------

  ghost function Purged(nodes: Nodes, a: Id): Nodes { nodes - Subtree(nodes, a) }

  lemma PurgeKeepsTree(nodes: Nodes, root: Id, a: Id)
    requires TreeOk(nodes, root) && a != root
    ensures TreeOk(Purged(nodes, a), root)
  {
    var nodes' := Purged(nodes, a);
    if Below(nodes, a, root) { RootBelowOnlyItself(nodes, root, a); }
    forall x | x in nodes' && x != root ensures nodes[x].parent.value in nodes' {
      if Below(nodes, a, nodes[x].parent.value) { BelowChild(nodes, a, nodes[x].parent.value, x); }
    }
    var rank :| Ranked(nodes, rank);
    assert Ranked(nodes', rank);
  }

  lemma PurgeKeepsNames(nodes: Nodes, a: Id)
    requires NamesDistinct(nodes)
    ensures NamesDistinct(Purged(nodes, a))
  {
    var nodes' := Purged(nodes, a);
    forall p, name, x, y | IsChild(nodes', p, name, x) && IsChild(nodes', p, name, y) ensures x == y {
      assert IsChild(nodes, p, name, x) && IsChild(nodes, p, name, y);
    }
  }

  // --- hanging a node elsewhere ----------------------------------------------

  /** The row update of `move_tx` and `restore_tx`. */
  predicate Rehung(a: Node, b: Node, p: Id) { b.parent == Some(p) && b.kind == a.kind }

  ghost function ShiftedRank(nodes: Nodes, rank: map<Id, nat>, s: Id, d: nat): map<Id, nat> {
    map x | x in rank :: if x in nodes && Below(nodes, s, x) then rank[x] + d else rank[x]
  }

  lemma RehangKeepsTree(nodes: Nodes, root: Id, s: Id, node: Node, p: Id)
    requires TreeOk(nodes, root) && s in nodes && s != root && Rehung(nodes[s], node, p)
    requires p in nodes && nodes[p].kind.Directory? && !Below(nodes, s, p)
    ensures TreeOk(nodes[s := node], root)
  {
    var nodes' := nodes[s := node];
    var rank :| Ranked(nodes, rank);
    var rank' := ShiftedRank(nodes, rank, s, rank[p] + 1);
    BelowSelf(nodes, s);
    forall x | x in nodes' && nodes'[x].parent.Some? && nodes'[x].parent.value in nodes'
      ensures rank'[nodes'[x].parent.value] < rank'[x]
    {
      if x != s {
        var q := nodes[x].parent.value;
        if Below(nodes, s, q) { BelowChild(nodes, s, q, x); }
        if Below(nodes, s, x) { BelowParent(nodes, s, x); }
      }
    }
    assert Ranked(nodes', rank');
  }

  /** Hanging a node under itself or a descendant makes a cycle. */
  lemma RehangBelowMakesCycle(nodes: Nodes, s: Id, node: Node, p: Id)
    requires Acyclic(nodes) && Below(nodes, s, p) && node.parent == Some(p)
    ensures !Acyclic(nodes[s := node])
  {
    var nodes' := nodes[s := node];
    var c :| Joins(nodes, c, s, p);
    var rank :| Ranked(nodes, rank);
    forall i | 0 < i < |c| ensures c[i] != s {
      assert Chain(nodes, c[..i + 1]);
      ChainRanks(nodes, rank, c[..i + 1]);
    }
    assert Joins(nodes', c, s, p);
    if rank' :| Ranked(nodes', rank') { ChainRanks(nodes', rank', c); }
  }

  lemma RehangKeepsNames(nodes: Nodes, s: Id, node: Node, p: Id)
    requires NamesDistinct(nodes) && s in nodes && node.parent == Some(p)
    requires forall x :: x != s ==> !IsChild(nodes, p, node.name, x)
    ensures NamesDistinct(nodes[s := node])
  {
    var nodes' := nodes[s := node];
    forall q, name, x, y | IsChild(nodes', q, name, x) && IsChild(nodes', q, name, y) ensures x == y {
      if x != s { assert IsChild(nodes, q, name, x); }
      if y != s { assert IsChild(nodes, q, name, y); }
    }
  }
}
