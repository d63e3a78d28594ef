/**
 `copy_subtree` (crates/fslite-sqlite/src/mutate.rs): an explicit stack, fresh ids,
 and children read back from the live table after each insertion.

 Because the children are read live, the loop ends exactly when the destination
 parent lies outside the source subtree; then the copy is isomorphic to it.
 */
module Copy {
  import opened Common
  import opened Chunks
  import opened Tree
  import opened Resolve
  import opened Store
  import opened Ordering

  // --- the active part of a subtree ------------------------------------------

  ghost predicate ActiveJoins(nodes: Nodes, c: seq<Id>, a: Id, x: Id) {
    Joins(nodes, c, a, x) && forall i :: 0 <= i < |c| ==> Active(nodes, c[i])
  }

  ghost predicate ActiveBelow(nodes: Nodes, a: Id, x: Id) { exists c :: ActiveJoins(nodes, c, a, x) }

  ghost function ActiveSubtree(nodes: Nodes, a: Id): set<Id> { set x | x in nodes && ActiveBelow(nodes, a, x) }

  predicate ActiveChild(nodes: Nodes, p: Id, x: Id) { Active(nodes, x) && nodes[x].parent == Some(p) }

  lemma ActiveBelowSelf(nodes: Nodes, a: Id)
    requires Active(nodes, a)
    ensures ActiveBelow(nodes, a, a)
  {
    assert ActiveJoins(nodes, [a], a, a);
  }

  lemma ActiveBelowChild(nodes: Nodes, a: Id, p: Id, x: Id)
    requires ActiveBelow(nodes, a, p) && ActiveChild(nodes, p, x)
    ensures ActiveBelow(nodes, a, x)
  {
    var c :| ActiveJoins(nodes, c, a, p);
    assert ActiveJoins(nodes, c + [x], a, x);
  }

  lemma ActiveBelowIsBelow(nodes: Nodes, a: Id, x: Id)
    requires ActiveBelow(nodes, a, x)
    ensures Below(nodes, a, x) && Active(nodes, a) && Active(nodes, x)
  {
    var c :| ActiveJoins(nodes, c, a, x);
    assert Joins(nodes, c, a, x);
    assert Active(nodes, c[0]) && Active(nodes, c[|c| - 1]);
  }

  /** Nothing on a reachable node's way up is trashed. */
  lemma {:induction false} ReachableBelowIsActive(nodes: Nodes, root: Id, path: seq<string>, a: Id, x: Id)
    requires Sound(nodes, root) && Resolved(nodes, path) == Some(x) && Below(nodes, a, x)
    ensures ActiveBelow(nodes, a, x)
    decreases |path|
  {
    RootIsFetched(nodes, root);
    ResolvedIsActive(nodes, root, path, x);
    if x == a {
      ActiveBelowSelf(nodes, a);
    } else {
      if path == [] { RootBelowOnlyItself(nodes, root, a); }
      LastStep(nodes, root, path, x);
      BelowParent(nodes, a, x);
      ReachableBelowIsActive(nodes, root, Paths.Pop(path), a, nodes[x].parent.value);
      ActiveBelowChild(nodes, a, nodes[x].parent.value, x);
    }
  }

  // --- one turn of the loop --------------------------------------------------

  /** A stack entry: what to copy, where to, and under which name. */
  datatype Pending = Pending(source: Id, parent: Id, name: string)

  function ChildKeys(nodes: Nodes, p: Id): set<Key> {
    set x | x in nodes && ActiveChild(nodes, p, x) :: Key(0, nodes[x].name, x)
  }

  /** `fetch_children`. */
  ghost function Children(nodes: Nodes, p: Id): seq<Key> { SortSet(ChildKeys(nodes, p)) }

  lemma ChildrenAre(nodes: Nodes, p: Id, k: Key)
    ensures k in Children(nodes, p) <==> ActiveChild(nodes, p, k.id) && k == Key(0, nodes[k.id].name, k.id)
  {
    assert k in Children(nodes, p) <==> k in ChildKeys(nodes, p);
  }

  function Pushes(rows: seq<Key>, parent: Id): (r: seq<Pending>)
    ensures |r| == |rows| && forall i :: 0 <= i < |r| ==> r[i] == Pending(rows[i].id, parent, rows[i].name)
  {
    seq(|rows|, i requires 0 <= i < |rows| => Pending(rows[i].id, parent, rows[i].name))
  }

  function CopiedNode(n: Node, e: Pending, id: Id, now: int): Node {
    Node(Some(e.parent), e.name, n.kind, n.size, 1, now, now, now,
         if n.kind.File? && n.generation.Some? then Some(id + 1) else None, n.target, None)
  }

  function RowsIn(db: Db, g: Id): Rows { if g in db.generations then db.generations[g].rows else map[] }

  /** The inserts for one entry: generation and chunks, node, attributes. */
  function CopyOne(db: Db, e: Pending, now: int): Db
    requires e.source in db.nodes
  {
    var n := db.nodes[e.source];
    var id := db.nextId;
    db.(nodes := db.nodes[id := CopiedNode(n, e, id, now)],
        generations := if n.kind.File? && n.generation.Some?
                       then db.generations[id + 1 := Generation(true, n.size, RowsIn(db, n.generation.value))]
                       else db.generations,
        attributes := if e.source in db.attributes then db.attributes[id := db.attributes[e.source]] else db.attributes,
        nextId := id + 2)
  }

  ghost function NextStack(db: Db, stack: seq<Pending>, now: int): seq<Pending>
    requires stack != [] && stack[|stack| - 1].source in db.nodes
  {
    var e := stack[|stack| - 1];
    stack[..|stack| - 1] +
    if db.nodes[e.source].kind.Directory? then Pushes(Children(CopyOne(db, e, now).nodes, e.source), db.nextId) else []
  }

  ghost predicate SourcesExist(db: Db, stack: seq<Pending>) {
    forall i :: 0 <= i < |stack| ==> stack[i].source in db.nodes
  }

  /** Whoever is pushed is in the table. */
  lemma PushedExists(nodes: Nodes, p: Id, parent: Id, i: nat)
    requires i < |Pushes(Children(nodes, p), parent)|
    ensures Pushes(Children(nodes, p), parent)[i].source in nodes
  {
    hide Children;
    var rows := Children(nodes, p);
    assert rows[i] in rows;
    ChildrenAre(nodes, p, rows[i]);
  }

  lemma NextStackExists(db: Db, stack: seq<Pending>, now: int)
    requires stack != [] && SourcesExist(db, stack)
    ensures SourcesExist(CopyOne(db, stack[|stack| - 1], now), NextStack(db, stack, now))
  {
    hide Children, Pushes;
    var e := stack[|stack| - 1];
    var nodes' := CopyOne(db, e, now).nodes;
    var next := NextStack(db, stack, now);
    forall i | 0 <= i < |next| ensures next[i].source in nodes' {
      if i >= |stack| - 1 { PushedExists(nodes', e.source, db.nextId, i - (|stack| - 1)); }
    }
  }

  /** The loop, given at most `fuel` turns. */
  ghost function CopyLoop(db: Db, stack: seq<Pending>, now: int, fuel: nat): Option<Db>
    requires SourcesExist(db, stack)
    decreases fuel
  {
    if stack == [] then Some(db)
    else if fuel == 0 then None
    else
      NextStackExists(db, stack, now);
      CopyLoop(CopyOne(db, stack[|stack| - 1], now), NextStack(db, stack, now), now, fuel - 1)
  }

  /** The state in which `copy_subtree` ends; `None` if it never does. */
  ghost function CopySubtree(db: Db, source: Id, parent: Id, name: string, now: int): Option<Db>
    requires source in db.nodes
  {
    var stack := [Pending(source, parent, name)];
    if exists fuel :: CopyLoop(db, stack, now, fuel).Some?
    then (var fuel :| CopyLoop(db, stack, now, fuel).Some?; CopyLoop(db, stack, now, fuel))
    else None
  }

  lemma {:induction false} FuelDoesNotMatter(db: Db, stack: seq<Pending>, now: int, f: nat, g: nat)
    requires SourcesExist(db, stack) && CopyLoop(db, stack, now, f).Some? && CopyLoop(db, stack, now, g).Some?
    ensures CopyLoop(db, stack, now, f) == CopyLoop(db, stack, now, g)
    decreases f
  {
    if stack != [] {
      NextStackExists(db, stack, now);
      FuelDoesNotMatter(CopyOne(db, stack[|stack| - 1], now), NextStack(db, stack, now), now, f - 1, g - 1);
    }
  }

  // --- what the loop keeps ---------------------------------------------------

  /** The source rows and everything else that was there before are untouched. */
  ghost predicate Extends(db0: Db, db: Db) {
    db == db0.(nodes := db.nodes, generations := db.generations, attributes := db.attributes, nextId := db.nextId) &&
    db0.nextId <= db.nextId &&
    (forall x :: x in db0.nodes ==> x in db.nodes && db.nodes[x] == db0.nodes[x]) &&
    (forall g :: g in db0.generations ==> g in db.generations && db.generations[g] == db0.generations[g]) &&
    (forall g :: g in db.generations && g < db0.nextId ==> g in db0.generations) &&
    (forall x :: x in db0.nodes ==> AttributesOf(db.attributes, x) == AttributesOf(db0.attributes, x))
  }

  /** Fresh ids, one for each copied node and nothing else. */
  ghost predicate FreshCopies(db0: Db, db: Db, copies: map<Id, Id>) {
    (forall x :: x in copies ==> copies[x] in db.nodes && db0.nextId <= copies[x] && copies[x] + 1 < db.nextId) &&
    (forall x, y :: x in copies && y in copies && x != y ==> copies[x] != copies[y]) &&
    (forall y :: y in db.nodes ==> y in db0.nodes || exists x :: x in copies && copies[x] == y) &&
    (forall x :: x in db.attributes ==> x in db.nodes)
  }

  /** Entry `e` was carried out with the id `id`: same kind, bytes, target and attributes, fresh ids, one revision. */
  ghost predicate FaithfulCopy(db0: Db, db: Db, e: Pending, id: Id, now: int) {
    e.source in db0.nodes && id in db.nodes &&
    db.nodes[id] == CopiedNode(db0.nodes[e.source], e, id, now) &&
    (db.nodes[id].generation.Some? ==>
      id + 1 in db.generations &&
      db.generations[id + 1] == Generation(true, db0.nodes[e.source].size,
                                           RowsIn(db0, db0.nodes[e.source].generation.value))) &&
    AttributesOf(db.attributes, id) == AttributesOf(db0.attributes, e.source)
  }

  predicate HasPlace(db0: Db, copies: map<Id, Id>, top: Pending, x: Id) {
    x in db0.nodes && (x == top.source || (db0.nodes[x].parent.Some? && db0.nodes[x].parent.value in copies))
  }

  /** Where the copy of `x` belongs: the destination, or under the copy of its parent with its own name. */
  function Place(db0: Db, copies: map<Id, Id>, top: Pending, x: Id): Pending
    requires HasPlace(db0, copies, top, x)
  {
    if x == top.source then top else Pending(x, copies[db0.nodes[x].parent.value], db0.nodes[x].name)
  }

  ghost predicate CopiesFaithful(db0: Db, db: Db, copies: map<Id, Id>, top: Pending, now: int) {
    forall x :: x in copies ==>
      HasPlace(db0, copies, top, x) && FaithfulCopy(db0, db, Place(db0, copies, top, x), copies[x], now)
  }

  ghost predicate Sourced(stack: seq<Pending>, x: Id) { exists i :: 0 <= i < |stack| && stack[i].source == x }

  /** The entries still to do: distinct, inside the source subtree, and below what is already copied. */
  ghost predicate StackOk(db0: Db, copies: map<Id, Id>, stack: seq<Pending>, top: Pending) {
    (forall i :: 0 <= i < |stack| ==>
      ActiveBelow(db0.nodes, top.source, stack[i].source) && stack[i].source !in copies &&
      HasPlace(db0, copies, top, stack[i].source) && stack[i] == Place(db0, copies, top, stack[i].source)) &&
    (forall i, j :: 0 <= i < j < |stack| ==> stack[i].source != stack[j].source)
  }

  /** Every node of the source subtree is copied, on the stack, or below one on the stack. */
  ghost predicate Frontier(db0: Db, copies: map<Id, Id>, stack: seq<Pending>, top: Pending) {
    (top.source in copies || Sourced(stack, top.source)) &&
    forall x, y :: x in copies && ActiveChild(db0.nodes, x, y) ==> y in copies || Sourced(stack, y)
  }

  ghost predicate Copying(db0: Db, db: Db, copies: map<Id, Id>, stack: seq<Pending>, top: Pending, now: int) {
    Extends(db0, db) && FreshCopies(db0, db, copies) && CopiesFaithful(db0, db, copies, top, now) &&
    (forall x :: x in copies ==> ActiveBelow(db0.nodes, top.source, x)) && StackOk(db0, copies, stack, top) &&
    Frontier(db0, copies, stack, top)
  }

  /** A copy request whose destination parent is outside the source subtree. */
  ghost predicate CopyRequest(db0: Db, root: Id, top: Pending) {
    Inv(db0, root) && Active(db0.nodes, top.source) &&
    top.parent in db0.nodes && db0.nodes[top.parent].kind.Directory? &&
    FetchChild(db0.nodes, top.parent, top.name).None? &&
    !ActiveBelow(db0.nodes, top.source, top.parent)
  }

  lemma CopyingStarts(db0: Db, root: Id, top: Pending, now: int)
    requires CopyRequest(db0, root, top)
    ensures Copying(db0, db0, map[], [top], top, now)
  {
    RequestSourceExists(db0, root, top);
    NothingCopied(db0, root);
    StartingStack(db0, top);
    hide CopyRequest, Inv, ActiveBelow, Extends, FreshCopies, StackOk, Frontier, HasPlace, FaithfulCopy, Place;
  }

  lemma StartingStack(db0: Db, top: Pending)
    requires Active(db0.nodes, top.source)
    ensures StackOk(db0, map[], [top], top) && Frontier(db0, map[], [top], top)
  {
    ActiveBelowSelf(db0.nodes, top.source);
    hide ActiveBelow;
    assert [top][0].source == top.source;
  }

  lemma NothingCopied(db0: Db, root: Id)
    requires Inv(db0, root)
    ensures Extends(db0, db0) && FreshCopies(db0, db0, map[])
  {
    UnfoldInv(db0, root);
    assert AttributesOk(db0.nodes, db0.attributes);
    hide Inv;
  }

  /** No copy hangs inside the source subtree. */
  lemma CopiesHangOutside(db0: Db, copies: map<Id, Id>, top: Pending, x: Id, s: Id)
    requires HasPlace(db0, copies, top, x) && (forall z :: z in copies ==> copies[z] !in db0.nodes)
    requires !ActiveBelow(db0.nodes, top.source, top.parent) && ActiveBelow(db0.nodes, top.source, s)
    ensures Place(db0, copies, top, x).parent != s
  {
    ActiveBelowIsBelow(db0.nodes, top.source, s);
  }

  /** What is known of the entry on top of the stack. */
  lemma TopEntry(db0: Db, copies: map<Id, Id>, stack: seq<Pending>, top: Pending)
    requires StackOk(db0, copies, stack, top) && stack != []
    ensures var e := stack[|stack| - 1];
            ActiveBelow(db0.nodes, top.source, e.source) && e.source !in copies &&
            HasPlace(db0, copies, top, e.source) &&
            e == Place(db0, copies, top, e.source)
  {
    hide ActiveBelow, HasPlace, Place;
  }

  /** What was there before is in the table that the children are read from, as it was. */
  lemma OldRowsStay(db0: Db, db: Db, e: Pending, now: int, y: Id)
    requires IdsFresh(db0) && Extends(db0, db) && e.source in db.nodes && y in db0.nodes
    ensures y in db.nodes && CopyOne(db, e, now).nodes[y] == db0.nodes[y]
  {
  }

  /** What was not hangs outside the source subtree. */
  lemma NewRowsHangOutside(db0: Db, db: Db, copies: map<Id, Id>, top: Pending, now: int, s: Id, y: Id)
    requires FreshCopies(db0, db, copies) && CopiesFaithful(db0, db, copies, top, now) && IdsFresh(db0)
    requires !ActiveBelow(db0.nodes, top.source, top.parent) && ActiveBelow(db0.nodes, top.source, s)
    requires y in db.nodes && y !in db0.nodes
    ensures db.nodes[y].parent != Some(s)
  {
    hide ActiveBelow;
    var x :| x in copies && copies[x] == y;
    assert HasPlace(db0, copies, top, x) && FaithfulCopy(db0, db, Place(db0, copies, top, x), y, now);
    hide FreshCopies, CopiesFaithful;
    CopiesHangOutside(db0, copies, top, x, s);
  }

  lemma CopyOneAdds(db: Db, e: Pending, now: int)
    requires e.source in db.nodes
    ensures CopyOne(db, e, now).nodes == db.nodes[db.nextId := CopiedNode(db.nodes[e.source], e, db.nextId, now)]
    ensures CopiedNode(db.nodes[e.source], e, db.nextId, now).parent == Some(e.parent)
  {
  }

  /** The parts of a copy under way, by name. */
  lemma CopyUnderWay(db0: Db, root: Id, db: Db, copies: map<Id, Id>, stack: seq<Pending>, top: Pending, now: int)
    requires CopyRequest(db0, root, top) && Copying(db0, db, copies, stack, top, now)
    ensures Inv(db0, root) && IdsFresh(db0) && !ActiveBelow(db0.nodes, top.source, top.parent)
    ensures Extends(db0, db) && FreshCopies(db0, db, copies) && CopiesFaithful(db0, db, copies, top, now) &&
            StackOk(db0, copies, stack, top)
  {
    hide Sound, FilesOk, TrashOk, AttributesOk, FeedOk, ActiveBelow, Extends, FreshCopies, CopiesFaithful;
    hide StackOk, Frontier, IdsFresh;
  }

  lemma NextIdIsNew(db0: Db, db: Db)
    requires IdsFresh(db0) && Extends(db0, db)
    ensures db.nextId !in db0.nodes
  {
  }

  /** So the children read back for an entry are the ones its source has always had. */
  lemma SourceChildrenUnchanged(db0: Db, root: Id, db: Db, copies: map<Id, Id>, stack: seq<Pending>, top: Pending,
                                now: int, y: Id)
    requires CopyRequest(db0, root, top) && Copying(db0, db, copies, stack, top, now) && stack != []
    ensures var e := stack[|stack| - 1];
            e.source in db.nodes &&
            (ActiveChild(CopyOne(db, e, now).nodes, e.source, y) <==> ActiveChild(db0.nodes, e.source, y)) &&
            (ActiveChild(db0.nodes, e.source, y) ==> y in db.nodes && CopyOne(db, e, now).nodes[y] == db0.nodes[y])
  {
    hide CopyRequest, Copying, Inv, IdsFresh, ActiveBelow, Below, StackOk, FreshCopies, CopiesFaithful;
    hide Extends, HasPlace, Place, CopyOne, CopiedNode;
    var e := stack[|stack| - 1];
    CopyUnderWay(db0, root, db, copies, stack, top, now);
    TopEntry(db0, copies, stack, top);
    ActiveBelowIsBelow(db0.nodes, top.source, e.source);
    SourceStillThere(db0, db, e.source);
    CopiesAreNew(db0, db, copies);
    CopiesHangOutside(db0, copies, top, e.source, e.source);
    CopyOneAdds(db, e, now);
    NextIdIsNew(db0, db);
    if y in db0.nodes {
      OldRowsStay(db0, db, e, now, y);
    } else if y in db.nodes && y != db.nextId {
      NewRowsHangOutside(db0, db, copies, top, now, e.source, y);
    }
  }

  // --- one turn keeps it -----------------------------------------------------

  lemma IdsGrow(db0: Db, db: Db)
    requires Extends(db0, db)
    ensures db0.nextId <= db.nextId
  {
  }

  lemma StepExtends(db0: Db, db: Db, e: Pending, now: int)
    requires IdsFresh(db0) && Extends(db0, db) && e.source in db.nodes
    ensures Extends(db0, CopyOne(db, e, now))
  {
  }

  lemma StepCovers(db0: Db, db: Db, copies: map<Id, Id>, e: Pending, now: int, y: Id)
    requires FreshCopies(db0, db, copies) && e.source in db.nodes && e.source !in copies
    requires y in CopyOne(db, e, now).nodes && y !in db0.nodes
    ensures var copies' := copies[e.source := db.nextId]; exists x :: x in copies' && copies'[x] == y
  {
    var copies' := copies[e.source := db.nextId];
    if y == db.nextId {
      assert copies'[e.source] == y;
    } else {
      var x :| x in copies && copies[x] == y;
      assert copies'[x] == y;
    }
  }

  lemma StepFresh(db0: Db, db: Db, copies: map<Id, Id>, e: Pending, now: int)
    requires IdsFresh(db0) && db0.nextId <= db.nextId && FreshCopies(db0, db, copies) && e.source in db.nodes &&
             e.source !in copies
    ensures FreshCopies(db0, CopyOne(db, e, now), copies[e.source := db.nextId])
  {
    var db' := CopyOne(db, e, now);
    var copies' := copies[e.source := db.nextId];
    forall y | y in db'.nodes && y !in db0.nodes ensures exists x :: x in copies' && copies'[x] == y {
      StepCovers(db0, db, copies, e, now, y);
    }
  }

  lemma GenerationKnown(db0: Db, root: Id, x: Id)
    requires Inv(db0, root) && x in db0.nodes && db0.nodes[x].generation.Some?
    ensures db0.nodes[x].generation.value in db0.generations
  {
    assert KindOk(db0.nodes[x], db0.generations, db0.maxFileBytes);
  }

  lemma NewCopyIsFaithful(db0: Db, root: Id, db: Db, e: Pending, now: int)
    requires Inv(db0, root) && Extends(db0, db) && e.source in db0.nodes && db.nextId !in db.attributes
    ensures FaithfulCopy(db0, CopyOne(db, e, now), e, db.nextId, now)
  {
    hide Inv;
    if db0.nodes[e.source].generation.Some? { GenerationKnown(db0, root, e.source); }
  }

  lemma OldCopyStaysFaithful(db: Db, db0: Db, done: Pending, id: Id, e: Pending, now: int)
    requires FaithfulCopy(db0, db, done, id, now) && e.source in db.nodes && id + 1 < db.nextId
    ensures FaithfulCopy(db0, CopyOne(db, e, now), done, id, now)
  {
  }

  lemma NextIdUnused(db0: Db, db: Db, copies: map<Id, Id>)
    requires IdsFresh(db0) && Extends(db0, db) && FreshCopies(db0, db, copies)
    ensures db.nextId !in db.nodes && db.nextId !in db.attributes
  {
  }

  lemma StepFaithful(db0: Db, root: Id, db: Db, copies: map<Id, Id>, top: Pending, e: Pending, now: int)
    requires Inv(db0, root) && Extends(db0, db) && FreshCopies(db0, db, copies) &&
             CopiesFaithful(db0, db, copies, top, now)
    requires e.source !in copies && HasPlace(db0, copies, top, e.source) && e == Place(db0, copies, top, e.source)
    ensures CopiesFaithful(db0, CopyOne(db, e, now), copies[e.source := db.nextId], top, now)
  {
    hide Inv, FaithfulCopy, CopyOne, FreshCopies, Extends;
    UnfoldInv(db0, root);
    NextIdUnused(db0, db, copies);
    NewCopyIsFaithful(db0, root, db, e, now);
    SourceStillThere(db0, db, e.source);
    var copies' := copies[e.source := db.nextId];
    forall x | x in copies'
      ensures HasPlace(db0, copies', top, x) && FaithfulCopy(db0, CopyOne(db, e, now), Place(db0, copies', top, x),
                                                             copies'[x], now)
    {
      if x in copies { OneStaysFaithful(db0, db, copies, top, e, now, x); } else { assert x == e.source; }
    }
  }

  lemma SourceStillThere(db0: Db, db: Db, x: Id)
    requires Extends(db0, db) && x in db0.nodes
    ensures x in db.nodes
  {
  }

  lemma OneStaysFaithful(db0: Db, db: Db, copies: map<Id, Id>, top: Pending, e: Pending, now: int, x: Id)
    requires FreshCopies(db0, db, copies) && CopiesFaithful(db0, db, copies, top, now)
    requires e.source in db.nodes && e.source !in copies && x in copies
    ensures HasPlace(db0, copies[e.source := db.nextId], top, x)
    ensures FaithfulCopy(db0, CopyOne(db, e, now), Place(db0, copies[e.source := db.nextId], top, x), copies[x], now)
  {
    OldCopyStaysFaithful(db, db0, Place(db0, copies, top, x), copies[x], e, now);
  }

  /** A child of the entry being copied has not been met before. */
  lemma ChildIsNew(db0: Db, root: Id, copies: map<Id, Id>, top: Pending, s: Id, y: Id)
    requires Sound(db0.nodes, root) && ActiveBelow(db0.nodes, top.source, s) && s !in copies &&
             ActiveChild(db0.nodes, s, y)
    ensures !HasPlace(db0, copies, top, y) && y != top.source && y != s
  {
    ActiveBelowIsBelow(db0.nodes, top.source, s);
    NotBelowOwnChild(db0.nodes, s, y);
    BelowSelf(db0.nodes, s);
  }

  lemma ChildrenDistinct(rows: seq<Key>, i: nat, j: nat)
    requires Ordering.Sorted(rows) && (forall k :: 0 <= k < |rows| ==> rows[k].depth == 0) && i < j < |rows|
    requires rows[i].id == rows[j].id ==> rows[i].name == rows[j].name
    ensures rows[i].id != rows[j].id
  {
    KeyLessTotal(rows[i], rows[j]);
  }

  /** One pushed entry. */
  lemma PushedEntry(db0: Db, root: Id, db: Db, copies: map<Id, Id>, stack: seq<Pending>, top: Pending, now: int, i: nat)
    requires CopyRequest(db0, root, top) && Copying(db0, db, copies, stack, top, now) && stack != []
    requires var e := stack[|stack| - 1]; e.source in db.nodes && i < |Children(CopyOne(db, e, now).nodes, e.source)|
    ensures var e := stack[|stack| - 1];
            var row := Children(CopyOne(db, e, now).nodes, e.source)[i];
            ActiveChild(db0.nodes, e.source, row.id) && row == Key(0, db0.nodes[row.id].name, row.id)
  {
    hide Inv, ActiveBelow, Frontier, FreshCopies, CopiesFaithful, StackOk;
    var e := stack[|stack| - 1];
    var rows := Children(CopyOne(db, e, now).nodes, e.source);
    assert rows[i] in rows;
    ChildrenAre(CopyOne(db, e, now).nodes, e.source, rows[i]);
    SourceChildrenUnchanged(db0, root, db, copies, stack, top, now, rows[i].id);
  }

  /** What one pushed entry satisfies. */
  lemma PushedEntryOk(db0: Db, root: Id, db: Db, copies: map<Id, Id>, stack: seq<Pending>, top: Pending, now: int,
                      i: nat)
    requires CopyRequest(db0, root, top) && Copying(db0, db, copies, stack, top, now) && stack != [] &&
             SourcesExist(db, stack)
    requires |stack| - 1 <= i < |NextStack(db, stack, now)|
    ensures var e := stack[|stack| - 1];
            var next := NextStack(db, stack, now);
            var copies' := copies[e.source := db.nextId];
            ActiveChild(db0.nodes, e.source, next[i].source) && ActiveBelow(db0.nodes, top.source, next[i].source) &&
            next[i].source !in copies' && !HasPlace(db0, copies, top, next[i].source) &&
            HasPlace(db0, copies', top, next[i].source) && next[i] == Place(db0, copies', top, next[i].source) &&
            next[i].source == Children(CopyOne(db, e, now).nodes, e.source)[i - (|stack| - 1)].id
  {
    hide Inv, ActiveBelow, Frontier, FreshCopies, CopiesFaithful, Children;
    UnfoldInv(db0, root);
    var e := stack[|stack| - 1];
    PushedEntry(db0, root, db, copies, stack, top, now, i - (|stack| - 1));
    var y := NextStack(db, stack, now)[i].source;
    ChildIsNew(db0, root, copies, top, e.source, y);
    ActiveBelowChild(db0.nodes, top.source, e.source, y);
    assert y !in copies by { if y in copies { hide FaithfulCopy; CopiedHasPlace(db0, db, copies, top, now, y); } }
  }

  lemma CopiedHasPlace(db0: Db, db: Db, copies: map<Id, Id>, top: Pending, now: int, x: Id)
    requires CopiesFaithful(db0, db, copies, top, now) && x in copies
    ensures HasPlace(db0, copies, top, x)
  {
  }

  lemma PushedDistinct(db0: Db, root: Id, db: Db, copies: map<Id, Id>, stack: seq<Pending>, top: Pending, now: int,
                       i: nat, j: nat)
    requires CopyRequest(db0, root, top) && Copying(db0, db, copies, stack, top, now) && stack != [] &&
             SourcesExist(db, stack)
    requires |stack| - 1 <= i < j < |NextStack(db, stack, now)|
    ensures NextStack(db, stack, now)[i].source != NextStack(db, stack, now)[j].source
  {
    hide Inv, ActiveBelow, Frontier, FreshCopies, CopiesFaithful, Children, StackOk;
    var n, e := |stack| - 1, stack[|stack| - 1];
    RowsSorted(CopyOne(db, e, now).nodes, e.source);
    PushedEntry(db0, root, db, copies, stack, top, now, i - n);
    PushedEntry(db0, root, db, copies, stack, top, now, j - n);
    ChildrenDistinct(Children(CopyOne(db, e, now).nodes, e.source), i - n, j - n);
  }

  lemma StepStack(db0: Db, root: Id, db: Db, copies: map<Id, Id>, stack: seq<Pending>, top: Pending, now: int)
    requires CopyRequest(db0, root, top) && Copying(db0, db, copies, stack, top, now) && stack != [] &&
             SourcesExist(db, stack)
    ensures StackOk(db0, copies[stack[|stack| - 1].source := db.nextId], NextStack(db, stack, now), top)
  {
    hide CopyRequest, ActiveBelow, Frontier, FreshCopies, CopiesFaithful, Children, CopyOne, Extends;
    var e, n := stack[|stack| - 1], |stack| - 1;
    var next := NextStack(db, stack, now);
    assert forall i :: 0 <= i < n ==> next[i] == stack[i];
    forall i | n <= i < |next|
      ensures !HasPlace(db0, copies, top, next[i].source)
      ensures ActiveBelow(db0.nodes, top.source, next[i].source) && next[i].source !in copies[e.source := db.nextId] &&
              HasPlace(db0, copies[e.source := db.nextId], top, next[i].source) &&
              next[i] == Place(db0, copies[e.source := db.nextId], top, next[i].source)
    {
      PushedEntryOk(db0, root, db, copies, stack, top, now, i);
    }
    forall i, j | 0 <= i < j < |next| ensures next[i].source != next[j].source {
      if n <= i { PushedDistinct(db0, root, db, copies, stack, top, now, i, j); }
    }
  }

  lemma RowsSorted(nodes: Nodes, p: Id)
    ensures Ordering.Sorted(Children(nodes, p))
    ensures forall k :: 0 <= k < |Children(nodes, p)| ==> Children(nodes, p)[k].depth == 0
  {
    forall k | 0 <= k < |Children(nodes, p)| ensures Children(nodes, p)[k].depth == 0 {
      assert Children(nodes, p)[k] in Children(nodes, p);
      ChildrenAre(nodes, p, Children(nodes, p)[k]);
    }
  }

  lemma StepFrontier(db0: Db, root: Id, db: Db, copies: map<Id, Id>, stack: seq<Pending>, top: Pending, now: int)
    requires CopyRequest(db0, root, top) && Copying(db0, db, copies, stack, top, now) && stack != [] &&
             SourcesExist(db, stack)
    ensures Frontier(db0, copies[stack[|stack| - 1].source := db.nextId], NextStack(db, stack, now), top)
  {
    hide CopyRequest, ActiveBelow, FreshCopies, CopiesFaithful, Children, CopyOne, Extends, StackOk;
    var e := stack[|stack| - 1];
    var copies' := copies[e.source := db.nextId];
    var next := NextStack(db, stack, now);
    forall z | z in copies || Sourced(stack, z) ensures z in copies' || Sourced(next, z) {
      if z !in copies' {
        var i :| 0 <= i < |stack| && stack[i].source == z;
        assert next[i].source == z;
      }
    }
    forall y | ActiveChild(db0.nodes, e.source, y) ensures Sourced(next, y) {
      ChildIsPushed(db0, root, db, copies, stack, top, now, y);
    }
  }

  lemma ChildIsPushed(db0: Db, root: Id, db: Db, copies: map<Id, Id>, stack: seq<Pending>, top: Pending, now: int,
                      y: Id)
    requires CopyRequest(db0, root, top) && Copying(db0, db, copies, stack, top, now) && stack != [] &&
             SourcesExist(db, stack)
    requires ActiveChild(db0.nodes, stack[|stack| - 1].source, y)
    ensures Sourced(NextStack(db, stack, now), y)
  {
    hide Inv, ActiveBelow, FreshCopies, CopiesFaithful, Children, Frontier, HasPlace, Place;
    UnfoldInv(db0, root);
    var e := stack[|stack| - 1];
    SourceChildrenUnchanged(db0, root, db, copies, stack, top, now, y);
    hide StackOk, CopyRequest, Copying;
    PushedIfChild(db, stack, now, y);
  }

  /** Every active child of a directory on top of the stack is pushed. */
  lemma PushedIfChild(db: Db, stack: seq<Pending>, now: int, y: Id)
    requires stack != [] && SourcesExist(db, stack) && db.nodes[stack[|stack| - 1].source].kind.Directory?
    requires ActiveChild(CopyOne(db, stack[|stack| - 1], now).nodes, stack[|stack| - 1].source, y)
    ensures Sourced(NextStack(db, stack, now), y)
  {
    hide Children;
    var e := stack[|stack| - 1];
    var next := NextStack(db, stack, now);
    var nodes' := CopyOne(db, e, now).nodes;
    var row := Key(0, nodes'[y].name, y);
    ChildrenAre(nodes', e.source, row);
    var k :| 0 <= k < |Children(nodes', e.source)| && Children(nodes', e.source)[k] == row;
    assert next[|stack| - 1 + k].source == y;
  }

  lemma StepKeepsCopying(db0: Db, root: Id, db: Db, copies: map<Id, Id>, stack: seq<Pending>, top: Pending, now: int)
    requires CopyRequest(db0, root, top) && Copying(db0, db, copies, stack, top, now) && stack != [] &&
             SourcesExist(db, stack)
    ensures var e := stack[|stack| - 1];
            Copying(db0, CopyOne(db, e, now), copies[e.source := db.nextId], NextStack(db, stack, now), top, now)
  {
    hide Inv, ActiveBelow, Children, HasPlace, Place, CopyOne, NextStack, Extends, FreshCopies;
    hide CopiesFaithful, Frontier;
    UnfoldInv(db0, root);
    var e := stack[|stack| - 1];
    StepExtends(db0, db, e, now);
    IdsGrow(db0, db);
    StepFresh(db0, db, copies, e, now);
    StepFaithful(db0, root, db, copies, top, e, now);
    StepStack(db0, root, db, copies, stack, top, now);
    StepFrontier(db0, root, db, copies, stack, top, now);
  }

  // --- the tables stay valid -------------------------------------------------

  lemma CopyOneKeepsFiles(db: Db, root: Id, e: Pending, now: int)
    requires Inv(db, root) && e.source in db.nodes
    ensures FilesOk(CopyOne(db, e, now).nodes, CopyOne(db, e, now).generations, db.maxFileBytes)
  {
    hide TreeOk, NamesDistinct, TrashOk, AttributesOk, FeedOk;
    var db' := CopyOne(db, e, now);
    var id := db.nextId;
    forall x | x in db.nodes
        ensures KindOk(db.nodes[x], db'.generations, db.maxFileBytes) && db.nodes[x].generation != Some(id + 1) {
      assert KindOk(db.nodes[x], db.generations, db.maxFileBytes);
    }
    assert KindOk(db.nodes[e.source], db.generations, db.maxFileBytes);
    CopiedKindOk(db, db.nodes[e.source], e, now);
  }

  lemma CopiedKindOk(db: Db, n: Node, e: Pending, now: int)
    requires e.source in db.nodes && n == db.nodes[e.source] && KindOk(n, db.generations, db.maxFileBytes)
    ensures KindOk(CopiedNode(n, e, db.nextId, now), CopyOne(db, e, now).generations, db.maxFileBytes)
  {
  }

  lemma CopyOneKeepsInv(db: Db, root: Id, e: Pending, now: int)
    requires Inv(db, root) && e.source in db.nodes
    requires e.parent in db.nodes && db.nodes[e.parent].kind.Directory? && FetchChild(db.nodes, e.parent, e.name).None?
    ensures Inv(CopyOne(db, e, now), root)
  {
    hide TreeOk, NamesDistinct, FilesOk, TrashOk;
    var node := CopiedNode(db.nodes[e.source], e, db.nextId, now);
    InsertKeepsTreeAndNames(db, root, node);
    InsertKeepsTrash(db, root, node);
    CopyOneKeepsFiles(db, root, e, now);
  }

  /** The parent of a copy made in this run. */
  lemma CopiedUnder(db0: Db, db: Db, copies: map<Id, Id>, top: Pending, now: int, y: Id) returns (x: Id)
    requires FreshCopies(db0, db, copies) && CopiesFaithful(db0, db, copies, top, now)
    requires y in db.nodes && y !in db0.nodes
    ensures x in copies && copies[x] == y && HasPlace(db0, copies, top, x)
    ensures db.nodes[y].parent == Some(Place(db0, copies, top, x).parent) &&
            db.nodes[y].name == Place(db0, copies, top, x).name
    ensures db.nodes[y].kind == db0.nodes[x].kind
  {
    x :| x in copies && copies[x] == y;
    assert FaithfulCopy(db0, db, Place(db0, copies, top, x), copies[x], now);
  }

  /** Two nodes of the source subtree never get the same place. */
  lemma PlacesDiffer(db0: Db, copies: map<Id, Id>, top: Pending, x: Id, s: Id)
    requires NamesDistinct(db0.nodes) && top.parent in db0.nodes
    requires forall z :: z in copies ==> copies[z] !in db0.nodes
    requires forall y, z :: y in copies && z in copies && y != z ==> copies[y] != copies[z]
    requires HasPlace(db0, copies, top, x) && HasPlace(db0, copies, top, s) && Active(db0.nodes, x) &&
             Active(db0.nodes, s)
    requires x != s
    ensures var a, b := Place(db0, copies, top, x), Place(db0, copies, top, s); a.parent != b.parent || a.name != b.name
  {
    if x != top.source && s != top.source && db0.nodes[x].parent == db0.nodes[s].parent &&
        db0.nodes[x].name == db0.nodes[s].name
    {
      var p, name := db0.nodes[x].parent.value, db0.nodes[x].name;
      assert IsChild(db0.nodes, p, name, x) && IsChild(db0.nodes, p, name, s);
    }
  }

  lemma CopiesAreNew(db0: Db, db: Db, copies: map<Id, Id>)
    requires IdsFresh(db0) && FreshCopies(db0, db, copies)
    ensures forall z :: z in copies ==> copies[z] !in db0.nodes
    ensures forall y, z :: y in copies && z in copies && y != z ==> copies[y] != copies[z]
  {
  }

  lemma PlaceIsFree(db0: Db, root: Id, db: Db, copies: map<Id, Id>, stack: seq<Pending>, top: Pending, now: int, y: Id)
    requires CopyRequest(db0, root, top) && Copying(db0, db, copies, stack, top, now) && stack != []
    ensures !IsChild(db.nodes, stack[|stack| - 1].parent, stack[|stack| - 1].name, y)
  {
    hide Inv, ActiveBelow, Frontier, CopiesFaithful, FreshCopies;
    UnfoldInv(db0, root);
    CopiesAreNew(db0, db, copies);
    var e := stack[|stack| - 1];
    ActiveBelowIsBelow(db0.nodes, top.source, e.source);
    assert y in db0.nodes ==> (IsChild(db.nodes, e.parent, e.name, y) <==> IsChild(db0.nodes, e.parent, e.name, y));
    if IsChild(db.nodes, e.parent, e.name, y) {
      if y !in db0.nodes {
        var x := CopiedUnder(db0, db, copies, top, now, y);
        ActiveBelowIsBelow(db0.nodes, top.source, x);
        PlacesDiffer(db0, copies, top, x, e.source);
      }
    }
  }

  /** The place of the next entry exists and is free. */
  lemma NextPlaceIsFree(db0: Db, root: Id, db: Db, copies: map<Id, Id>, stack: seq<Pending>, top: Pending, now: int)
    requires CopyRequest(db0, root, top) && Copying(db0, db, copies, stack, top, now) && stack != []
    ensures var e := stack[|stack| - 1];
            e.source in db.nodes && e.parent in db.nodes && db.nodes[e.parent].kind.Directory? &&
            FetchChild(db.nodes, e.parent, e.name).None?
  {
    hide Inv, ActiveBelow, Frontier, CopiesFaithful, FreshCopies;
    UnfoldInv(db0, root);
    var e := stack[|stack| - 1];
    if e.source != top.source {
      ParentWasCopied(db0, db, copies, top, now, db0.nodes[e.source].parent.value);
    }
    forall y ensures !IsChild(db.nodes, e.parent, e.name, y) { PlaceIsFree(db0, root, db, copies, stack, top, now, y); }
  }

  lemma ParentWasCopied(db0: Db, db: Db, copies: map<Id, Id>, top: Pending, now: int, q: Id)
    requires FreshCopies(db0, db, copies) && CopiesFaithful(db0, db, copies, top, now) && q in copies
    ensures q in db0.nodes && copies[q] in db.nodes && db.nodes[copies[q]].kind == db0.nodes[q].kind
  {
    assert FaithfulCopy(db0, db, Place(db0, copies, top, q), copies[q], now);
  }

  // --- outside the source subtree: the loop ends in an isomorphic copy --------

  ghost function ToCopy(db0: Db, copies: map<Id, Id>, top: Pending): set<Id> {
    ActiveSubtree(db0.nodes, top.source) - copies.Keys
  }

  lemma OneLessToCopy(db0: Db, copies: map<Id, Id>, top: Pending, x: Id, id: Id)
    requires x in db0.nodes && ActiveBelow(db0.nodes, top.source, x) && x !in copies
    ensures |ToCopy(db0, copies[x := id], top)| + 1 == |ToCopy(db0, copies, top)|
  {
    assert ToCopy(db0, copies[x := id], top) == ToCopy(db0, copies, top) - {x};
  }

  lemma {:induction false} LoopEnds(db0: Db, root: Id, db: Db, copies: map<Id, Id>, stack: seq<Pending>, top: Pending,
                                    now: int)
    returns (final: Db, all: map<Id, Id>)
    requires CopyRequest(db0, root, top) && Copying(db0, db, copies, stack, top, now) && SourcesExist(db, stack) &&
             Inv(db, root)
    ensures CopyLoop(db, stack, now, |ToCopy(db0, copies, top)|) == Some(final)
    ensures Copying(db0, final, all, [], top, now) && Inv(final, root)
    ensures forall x :: x in copies ==> x in all && all[x] == copies[x]
    ensures stack == [top] ==> top.source in all && all[top.source] == db.nextId
    decreases |ToCopy(db0, copies, top)|
  {
    hide Inv, ActiveBelow, Extends, FreshCopies, CopiesFaithful, Frontier, CopyOne, NextStack;
    if stack == [] { return db, copies; }
    var e := stack[|stack| - 1];
    NextPlaceIsFree(db0, root, db, copies, stack, top, now);
    CopyOneKeepsInv(db, root, e, now);
    StepKeepsCopying(db0, root, db, copies, stack, top, now);
    NextStackExists(db, stack, now);
    OneLessToCopy(db0, copies, top, e.source, db.nextId);
    final, all := LoopEnds(db0, root, CopyOne(db, e, now), copies[e.source := db.nextId], NextStack(db, stack, now),
                           top, now);
  }

  /** With an empty stack the whole source subtree has been copied. */
  lemma {:induction false} AllCopied(db0: Db, copies: map<Id, Id>, top: Pending, c: seq<Id>, x: Id)
    requires Frontier(db0, copies, [], top) && ActiveJoins(db0.nodes, c, top.source, x)
    ensures x in copies
    decreases |c|
  {
    if |c| > 1 {
      var front := c[..|c| - 1];
      assert ActiveJoins(db0.nodes, front, top.source, c[|c| - 2]);
      AllCopied(db0, copies, top, front, c[|c| - 2]);
      assert ActiveChild(db0.nodes, c[|c| - 2], x);
    }
  }

  /**
   `db` is `db0` plus one faithful, freshly numbered copy of every active node of
   the source subtree, hanging under the copy of its parent; everything that was
   there before is unchanged.
   */
  ghost predicate Isomorphic(db0: Db, db: Db, copies: map<Id, Id>, top: Pending, now: int) {
    Extends(db0, db) && FreshCopies(db0, db, copies) && CopiesFaithful(db0, db, copies, top, now) &&
    copies.Keys == ActiveSubtree(db0.nodes, top.source)
  }

  lemma CopySucceeds(db0: Db, root: Id, top: Pending, now: int) returns (final: Db, copies: map<Id, Id>)
    requires top.source in db0.nodes && SourcesExist(db0, [top]) && CopyRequest(db0, root, top)
    ensures CopySubtree(db0, top.source, top.parent, top.name, now) == Some(final)
    ensures Isomorphic(db0, final, copies, top, now) && Inv(final, root)
    ensures top.source in copies && copies[top.source] == db0.nextId
    ensures CopyLoop(db0, [top], now, |ActiveSubtree(db0.nodes, top.source)|) == Some(final)
  {
    hide CopyRequest, Copying, Isomorphic, Inv, CopySubtree;
    CopyingStarts(db0, root, top, now);
    RequestSourceExists(db0, root, top);
    final, copies := LoopEnds(db0, root, db0, map[], [top], top, now);
    assert ToCopy(db0, map[], top) == ActiveSubtree(db0.nodes, top.source);
    LoopGivesCopy(db0, top, now, |ActiveSubtree(db0.nodes, top.source)|);
    SubtreeCopied(db0, final, copies, top, now);
  }

  lemma RequestSourceExists(db0: Db, root: Id, top: Pending)
    requires CopyRequest(db0, root, top)
    ensures Active(db0.nodes, top.source) && Inv(db0, root)
  {
  }

  lemma LoopGivesCopy(db: Db, top: Pending, now: int, fuel: nat)
    requires top.source in db.nodes && CopyLoop(db, [top], now, fuel).Some?
    ensures CopySubtree(db, top.source, top.parent, top.name, now) == CopyLoop(db, [top], now, fuel)
  {
    assert top == Pending(top.source, top.parent, top.name);
    var f :| CopyLoop(db, [top], now, f).Some? &&
        CopySubtree(db, top.source, top.parent, top.name, now) == CopyLoop(db, [top], now, f);
    FuelDoesNotMatter(db, [top], now, f, fuel);
  }

  lemma SubtreeCopied(db0: Db, db: Db, copies: map<Id, Id>, top: Pending, now: int)
    requires Copying(db0, db, copies, [], top, now)
    ensures Isomorphic(db0, db, copies, top, now)
  {
    forall x ensures x in copies <==> x in ActiveSubtree(db0.nodes, top.source) {
      if x in ActiveSubtree(db0.nodes, top.source) {
        var c :| ActiveJoins(db0.nodes, c, top.source, x);
        AllCopied(db0, copies, top, c, x);
      }
      if x in copies { assert HasPlace(db0, copies, top, x); }
    }
  }

  // --- inside it: the loop never ends -----------------------------------------

  /** An entry that copies a directory into itself or below, along a chain of active directories. */
  ghost predicate Swallows(nodes: Nodes, e: Pending, c: seq<Id>) {
    ActiveJoins(nodes, c, e.source, e.parent) && forall i :: 0 <= i < |c| ==> nodes[c[i]].kind.Directory?
  }

  ghost predicate HasSwallower(nodes: Nodes, stack: seq<Pending>) {
    exists i, c :: 0 <= i < |stack| && Swallows(nodes, stack[i], c)
  }

  lemma SwallowsLater(db: Db, e: Pending, c: seq<Id>, top: Pending, now: int)
    requires Swallows(db.nodes, e, c) && top.source in db.nodes && db.nextId !in db.nodes
    ensures Swallows(CopyOne(db, top, now).nodes, e, c)
  {
  }

  /** Copying such an entry pushes another one. */
  lemma SwallowerPushesAnother(db: Db, stack: seq<Pending>, now: int, c: seq<Id>)
    requires stack != [] && SourcesExist(db, stack) && Swallows(db.nodes, stack[|stack| - 1], c) &&
             db.nextId !in db.nodes
    ensures HasSwallower(CopyOne(db, stack[|stack| - 1], now).nodes, NextStack(db, stack, now))
  {
    hide Children;
    var e := stack[|stack| - 1];
    var id := db.nextId;
    var nodes' := CopyOne(db, e, now).nodes;
    SwallowsLater(db, e, c, e, now);
    assert db.nodes[c[0]].kind.Directory?;
    var c' := c[1..] + [id];
    forall i | 0 < i < |c'| ensures nodes'[c'[i]].parent == Some(c'[i - 1]) {
      if i == |c'| - 1 { assert c'[i - 1] == c[|c| - 1]; } else { assert c'[i] == c[i + 1]; }
    }
    var y := c'[0];
    assert ActiveChild(nodes', e.source, y);
    var row := Key(0, nodes'[y].name, y);
    ChildrenAre(nodes', e.source, row);
    var k :| 0 <= k < |Children(nodes', e.source)| && Children(nodes', e.source)[k] == row;
    var next := NextStack(db, stack, now);
    assert next[|stack| - 1 + k] == Pending(y, id, nodes'[y].name);
    assert Swallows(nodes', next[|stack| - 1 + k], c');
  }

  lemma SwallowerStays(db: Db, stack: seq<Pending>, now: int, i: nat, c: seq<Id>)
    requires SourcesExist(db, stack) && i < |stack| - 1 && Swallows(db.nodes, stack[i], c) && db.nextId !in db.nodes
    ensures HasSwallower(CopyOne(db, stack[|stack| - 1], now).nodes, NextStack(db, stack, now))
  {
    hide Children, Swallows;
    SwallowsLater(db, stack[i], c, stack[|stack| - 1], now);
    var next := NextStack(db, stack, now);
    assert next[i] == stack[i];
  }

  lemma {:induction false} LoopNeverEnds(db: Db, stack: seq<Pending>, now: int, fuel: nat)
    requires SourcesExist(db, stack) && HasSwallower(db.nodes, stack) && forall x :: x in db.nodes ==> x < db.nextId
    ensures CopyLoop(db, stack, now, fuel).None?
    decreases fuel
  {
    if fuel > 0 {
      var i, c :| 0 <= i < |stack| && Swallows(db.nodes, stack[i], c);
      var e := stack[|stack| - 1];
      var next := NextStack(db, stack, now);
      NextStackExists(db, stack, now);
      if i == |stack| - 1 { SwallowerPushesAnother(db, stack, now, c); } else { SwallowerStays(db, stack, now, i, c); }
      hide Swallows, HasSwallower, NextStack;
      LoopNeverEnds(CopyOne(db, e, now), next, now, fuel - 1);
    }
  }

  lemma AncestorsAreDirectories(nodes: Nodes, root: Id, e: Pending, c: seq<Id>)
    requires Rooted(nodes, root) && ActiveJoins(nodes, c, e.source, e.parent) && nodes[e.parent].kind.Directory?
    ensures Swallows(nodes, e, c)
  {
    forall i | 0 <= i < |c| ensures nodes[c[i]].kind.Directory? {
      if i + 1 < |c| { assert nodes[c[i + 1]].parent == Some(c[i]); }
    }
  }

  /** `copy_subtree` ends exactly when the destination parent is not in the active source subtree. */
  lemma CopyEndsIff(db0: Db, root: Id, top: Pending, now: int)
    requires Inv(db0, root) && Active(db0.nodes, top.source)
    requires top.parent in db0.nodes && db0.nodes[top.parent].kind.Directory?
    requires FetchChild(db0.nodes, top.parent, top.name).None?
    ensures CopySubtree(db0, top.source, top.parent, top.name, now).Some? <==>
            !ActiveBelow(db0.nodes, top.source, top.parent)
  {
    if ActiveBelow(db0.nodes, top.source, top.parent) {
      var c :| ActiveJoins(db0.nodes, c, top.source, top.parent);
      AncestorsAreDirectories(db0.nodes, root, top, c);
      assert top == Pending(top.source, top.parent, top.name) && [top][0] == top;
      forall fuel: nat ensures CopyLoop(db0, [top], now, fuel).None? { LoopNeverEnds(db0, [top], now, fuel); }
    } else {
      var final, copies := CopySucceeds(db0, root, top, now);
    }
  }
}
