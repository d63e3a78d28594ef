/**
 What trashing hides and what restoring brings back
 (crates/fslite-sqlite/src/trash.rs with the walks of resolve.rs).
 */
module TrashEffects {
  import opened Common
  import opened Paths
  import opened Tree
  import opened Resolve
  import opened Store
  import opened Copy
  import opened Operations
  import opened Safety

  /** The node table after `x` was marked. */
  function Marked(nodes: Nodes, x: Id, now: int): Nodes
    requires x in nodes
  {
    nodes[x := nodes[x].(trashedAt := Some(now))]
  }

  lemma MarkedChild(nodes: Nodes, x: Id, now: int, p: Id, name: string)
    requires NamesDistinct(nodes) && x in nodes
    ensures FetchChild(Marked(nodes, x, now), p, name) == if FetchChild(nodes, p, name) == Some(x) then None
            else FetchChild(nodes, p, name)
  {
    var nodes' := Marked(nodes, x, now);
    TrashKeepsNames(nodes, x, now);
    forall y ensures IsChild(nodes', p, name, y) <==> IsChild(nodes, p, name, y) && y != x { }
    var child := FetchChild(nodes, p, name);
    if child.Some? && child.value != x { ChildIsFetched(nodes', p, name, child.value); }
  }

  /** A step down from outside the subtree of `x` enters it only at `x` itself. */
  lemma EntersOnlyAtTop(nodes: Nodes, x: Id, p: Id, y: Id)
    requires y in nodes && nodes[y].parent == Some(p) && y != x && !Below(nodes, x, p)
    ensures !Below(nodes, x, y)
  {
    if Below(nodes, x, y) { BelowParent(nodes, x, y); }
  }

  // --- a table without one subtree -------------------------------------------

  /** Nothing differs but that no step leads down to `x` any more; what is at and below `x` does not matter. */
  ghost predicate Trims(a: Nodes, b: Nodes, root: Id, x: Id) {
    x in a && root in a && !Below(a, x, root) && FetchRoot(a) == Some(root) && FetchRoot(b) == Some(root) &&
    (forall y :: y in a && !Below(a, x, y) ==> y in b && b[y] == a[y]) &&
    forall p, name :: p in a && !Below(a, x, p) ==>
      FetchChild(b, p, name) == if FetchChild(a, p, name) == Some(x) then None else FetchChild(a, p, name)
  }

  lemma MarkTrims(nodes: Nodes, root: Id, x: Id, now: int)
    requires Sound(nodes, root) && x in nodes && x != root
    ensures Trims(nodes, Marked(nodes, x, now), root, x)
  {
    RootIsFetched(nodes, root);
    MarkKeepsTree(nodes, root, x, Some(now));
    RootIsFetched(Marked(nodes, x, now), root);
    BelowSelf(nodes, x);
    hide Below, Acyclic;
    if Below(nodes, x, root) { RootBelowOnlyItself(nodes, root, x); }
    forall p, name ensures FetchChild(Marked(nodes, x, now), p, name) ==
                           if FetchChild(nodes, p, name) == Some(x) then None else FetchChild(nodes, p, name) {
      MarkedChild(nodes, x, now, p, name);
    }
  }

  lemma PurgedChild(nodes: Nodes, x: Id, p: Id, name: string)
    requires NamesDistinct(nodes) && x in nodes && p in nodes && !Below(nodes, x, p)
    ensures FetchChild(Tree.Purged(nodes, x), p, name) ==
            if FetchChild(nodes, p, name) == Some(x) then None else FetchChild(nodes, p, name)
  {
    var nodes' := Tree.Purged(nodes, x);
    PurgeKeepsNames(nodes, x);
    BelowSelf(nodes, x);
    forall y ensures IsChild(nodes', p, name, y) <==> IsChild(nodes, p, name, y) && y != x {
      if IsChild(nodes, p, name, y) && y != x { EntersOnlyAtTop(nodes, x, p, y); }
    }
    var child := FetchChild(nodes, p, name);
    if child.Some? && child.value != x { ChildIsFetched(nodes', p, name, child.value); }
  }

  lemma PurgeTrims(nodes: Nodes, root: Id, x: Id)
    requires Sound(nodes, root) && x in nodes && x != root
    ensures Trims(nodes, Tree.Purged(nodes, x), root, x)
  {
    RootIsFetched(nodes, root);
    PurgeKeepsTree(nodes, root, x);
    RootIsFetched(Tree.Purged(nodes, x), root);
    hide Below, Acyclic;
    if Below(nodes, x, root) { RootBelowOnlyItself(nodes, root, x); }
    forall p, name | p in nodes && !Below(nodes, x, p)
      ensures FetchChild(Tree.Purged(nodes, x), p, name) ==
              if FetchChild(nodes, p, name) == Some(x) then None else FetchChild(nodes, p, name)
    {
      PurgedChild(nodes, x, p, name);
    }
  }

  // --- plain paths -----------------------------------------------------------

  /** What a walk may still reach when `x` is gone. */
  ghost function Hidden(nodes: Nodes, x: Id, r: Option<Id>): Option<Id> {
    if r.Some? && Below(nodes, x, r.value) then None else r
  }

  lemma {:induction false} TrimmedWalk(a: Nodes, b: Nodes, root: Id, x: Id, current: Id, path: Segments)
    requires Trims(a, b, root, x) && current in a && !Below(a, x, current)
    ensures current in b && Walk(b, current, path) == Hidden(a, x, Walk(a, current, path))
    decreases |path|
  {
    if path != [] && a[current].kind.Directory? {
      var child := FetchChild(a, current, path[0]);
      if child == Some(x) {
        WalkIsBelow(a, x, path[1..]);
      } else if child.Some? {
        EntersOnlyAtTop(a, x, current, child.value);
        TrimmedWalk(a, b, root, x, child.value, path[1..]);
      }
    }
  }

  // --- paths over links ------------------------------------------------------

  /** Nothing above an outside node is inside. */
  lemma NotBelowAbove(nodes: Nodes, x: Id, y: Id)
    requires y in nodes && nodes[y].parent.Some? && !Below(nodes, x, y)
    ensures !Below(nodes, x, nodes[y].parent.value)
  {
    if Below(nodes, x, nodes[y].parent.value) { BelowChild(nodes, x, nodes[y].parent.value, y); }
  }

  /** The parent of an outside node is as active in one table as in the other. */
  lemma ParentAlike(a: Nodes, b: Nodes, root: Id, x: Id, y: Id)
    requires Trims(a, b, root, x) && Rooted(a, root) && y in a && a[y].parent.Some? && !Below(a, x, y)
    ensures y in b && b[y] == a[y] && !Below(a, x, a[y].parent.value) && a[y].parent.value in a
    ensures Active(a, a[y].parent.value) <==> Active(b, a[y].parent.value)
  {
    NotBelowAbove(a, x, y);
  }

  lemma {:induction false} TrimmedClimb(a: Nodes, b: Nodes, root: Id, x: Id, base: Id, remaining: Segments)
    requires Trims(a, b, root, x) && Rooted(a, root) && base in a && !Below(a, x, base)
    ensures base in b && Climb(b, base, remaining) == Climb(a, base, remaining)
    ensures Climb(a, base, remaining).Next? ==> !Below(a, x, Climb(a, base, remaining).base)
    decreases |remaining|
  {
    assert base in b && b[base] == a[base];
    hide Trims, Rooted, Below;
    if remaining != [] && remaining[0] == ".." {
      if a[base].parent.None? {
        TrimmedClimb(a, b, root, x, base, remaining[1..]);
      } else {
        ParentAlike(a, b, root, x, base);
        if Active(a, a[base].parent.value) { TrimmedClimb(a, b, root, x, a[base].parent.value, remaining[1..]); }
      }
    }
  }

  lemma TrimmedLink(a: Nodes, b: Nodes, root: Id, x: Id, link: Id)
    requires Trims(a, b, root, x) && Rooted(a, root) && link in a && !Below(a, x, link)
    ensures link in b && FollowOne(b, link) == FollowOne(a, link)
    ensures FollowOne(a, link).Next? ==> !Below(a, x, FollowOne(a, link).base)
  {
    assert link in b && b[link] == a[link] && FetchRoot(a) == FetchRoot(b) == Some(root) && !Below(a, x, root);
    hide ParseTarget, SplitSegments, Below, Trims, Rooted;
    if a[link].parent.Some? {
      ParentAlike(a, b, root, x, link);
      if a[link].target.Some? && ParseTarget(a[link].target.value).Ok? {
        TrimmedClimb(a, b, root, x, a[link].parent.value,
                     SplitSegments(ParseTarget(a[link].target.value).value.canonical));
      }
    }
  }

  /** The walk that follows links steps down into `x` at some point. */
  ghost predicate Enters(nodes: Nodes, x: Id, current: Id, pending: Segments, hops: nat, followFinal: bool)
    requires current in nodes && hops <= MAX_LINK_HOPS
    decreases MAX_LINK_HOPS - hops, |pending|
  {
    if pending == [] && !(followFinal && nodes[current].kind.Symlink?) then false
    else if nodes[current].kind.File? then false
    else if nodes[current].kind.Symlink? then
      hops < MAX_LINK_HOPS && FollowOne(nodes, current).Next? &&
      Enters(nodes, x, FollowOne(nodes, current).base, FollowOne(nodes, current).remaining + pending, hops + 1,
             followFinal)
    else
      var child := FetchChild(nodes, current, pending[0]);
      child.Some? && (child.value == x || Enters(nodes, x, child.value, pending[1..], hops, followFinal))
  }

  lemma {:induction false} TrimmedFollow(a: Nodes, b: Nodes, root: Id, x: Id, current: Id, pending: Segments, hops: nat,
                                         fromLink: nat, followFinal: bool)
    requires Trims(a, b, root, x) && Rooted(a, root) && current in a && hops <= MAX_LINK_HOPS && !Below(a, x, current)
    ensures current in b
    ensures var before := Follow(a, current, pending, hops, fromLink, followFinal);
            var after := Follow(b, current, pending, hops, fromLink, followFinal);
            (if Enters(a, x, current, pending, hops, followFinal) then !after.Found? else after == before) &&
            (after.Found? ==> !Below(a, x, after.id))
    decreases MAX_LINK_HOPS - hops, |pending|
  {
    hide FollowOne, Below, Rooted, Trims;
    TrimmedRow(a, b, root, x, current);
    if pending == [] && !(followFinal && a[current].kind.Symlink?) {
    } else if a[current].kind.File? {
    } else if a[current].kind.Symlink? {
      TrimmedLink(a, b, root, x, current);
      var step := FollowOne(a, current);
      if hops < MAX_LINK_HOPS && step.Next? {
        TrimmedFollow(a, b, root, x, step.base, step.remaining + pending, hops + 1, |step.remaining|, followFinal);
      }
    } else {
      TrimmedStep(a, b, root, x, current, pending[0]);
      var child := FetchChild(a, current, pending[0]);
      if child.Some? && child.value != x {
        TrimmedFollow(a, b, root, x, child.value, pending[1..], hops, Max(0, fromLink - 1), followFinal);
      }
    }
  }

  lemma TrimmedRow(a: Nodes, b: Nodes, root: Id, x: Id, y: Id)
    requires Trims(a, b, root, x) && y in a && !Below(a, x, y)
    ensures y in b && b[y] == a[y]
  {
  }

  lemma TrimmedStep(a: Nodes, b: Nodes, root: Id, x: Id, p: Id, name: string)
    requires Trims(a, b, root, x) && p in a && !Below(a, x, p)
    ensures FetchChild(b, p, name) == if FetchChild(a, p, name) == Some(x) then None else FetchChild(a, p, name)
    ensures FetchChild(a, p, name).Some? && FetchChild(a, p, name) != Some(x) ==>
            !Below(a, x, FetchChild(a, p, name).value)
  {
    var child := FetchChild(a, p, name);
    if child.Some? && child.value != x { EntersOnlyAtTop(a, x, p, child.value); }
  }

  /**
   From one table to the other no path leads to `x` or below it any more, with or
   without links, and every path that did not lead there through `x` resolves as before.
   */
  ghost predicate HidesExactly(a: Nodes, b: Nodes, root: Id, x: Id, path: Segments, followFinal: bool)
    requires root in a
  {
    Resolved(b, path) == Hidden(a, x, Resolved(a, path)) &&
    (if Enters(a, x, root, path, 0, followFinal)
     then !Followed(b, path, followFinal).Found?
     else Followed(b, path, followFinal) == Followed(a, path, followFinal)) &&
    (Followed(b, path, followFinal).Found? ==> !Below(a, x, Followed(b, path, followFinal).id))
  }

  lemma TrimmingHides(a: Nodes, b: Nodes, root: Id, x: Id, path: Segments, followFinal: bool)
    requires Trims(a, b, root, x) && Rooted(a, root)
    ensures HidesExactly(a, b, root, x, path, followFinal)
  {
    TrimmedWalk(a, b, root, x, root, path);
    TrimmedFollow(a, b, root, x, root, path, 0, 0, followFinal);
    hide Below, Rooted, Enters, Follow, Walk;
  }

  /** Before and after differ in `x` and what is new below it only. */
  ghost predicate GrowsAt(a: Nodes, b: Nodes, x: Id) {
    x in b && !Active(a, x) &&
    (forall y :: y in a && y != x ==> y in b && b[y] == a[y]) &&
    forall y :: y in b && y !in a ==> Below(b, x, y)
  }

  lemma GrownChild(a: Nodes, b: Nodes, x: Id, p: Id, name: string)
    requires NamesDistinct(a) && NamesDistinct(b) && GrowsAt(a, b, x) && p in b && !Below(b, x, p)
    ensures FetchChild(a, p, name) == if FetchChild(b, p, name) == Some(x) then None else FetchChild(b, p, name)
  {
    BelowSelf(b, x);
    forall y ensures IsChild(a, p, name, y) <==> IsChild(b, p, name, y) && y != x {
      if IsChild(b, p, name, y) && y != x { EntersOnlyAtTop(b, x, p, y); }
    }
    var child := FetchChild(b, p, name);
    if child.Some? && child.value != x { ChildIsFetched(a, p, name, child.value); }
  }

  lemma GrowthTrims(a: Nodes, b: Nodes, root: Id, x: Id)
    requires Sound(a, root) && Sound(b, root) && GrowsAt(a, b, x) && x != root
    ensures Trims(b, a, root, x)
  {
    RootIsFetched(a, root);
    RootIsFetched(b, root);
    BelowSelf(b, x);
    hide Below, Acyclic;
    if Below(b, x, root) { RootBelowOnlyItself(b, root, x); }
    forall p, name | p in b && !Below(b, x, p)
      ensures FetchChild(a, p, name) == if FetchChild(b, p, name) == Some(x) then None else FetchChild(b, p, name)
    {
      GrownChild(a, b, x, p, name);
    }
  }

  /** Every path, over links or not, resolves as before unless it now goes to `x` or through it. */
  lemma GrowthAddsExactly(a: Nodes, b: Nodes, root: Id, x: Id, path: Segments, followFinal: bool)
    requires Sound(a, root) && Sound(b, root) && GrowsAt(a, b, x) && x != root
    ensures root in b && HidesExactly(b, a, root, x, path, followFinal)
    ensures Resolved(a, path).Some? ==> Resolved(b, path) == Resolved(a, path)
  {
    GrowthTrims(a, b, root, x);
    UnfoldSound(b, root);
    hide Sound, Trims, Enters, Below, GrowsAt, Follow, Walk;
    TrimmingHides(b, a, root, x, path, followFinal);
  }

  /** Nothing steps down into a node that bears a trash mark. */
  lemma {:induction false} TrashedIsNotEntered(nodes: Nodes, x: Id, current: Id, pending: Segments, hops: nat,
                                               followFinal: bool)
    requires !Active(nodes, x) && current in nodes && hops <= MAX_LINK_HOPS
    ensures !Enters(nodes, x, current, pending, hops, followFinal)
    decreases MAX_LINK_HOPS - hops, |pending|
  {
    hide FollowOne;
    if pending == [] && !(followFinal && nodes[current].kind.Symlink?) {
    } else if nodes[current].kind.Symlink? {
      if hops < MAX_LINK_HOPS && FollowOne(nodes, current).Next? {
        var step := FollowOne(nodes, current);
        TrashedIsNotEntered(nodes, x, step.base, step.remaining + pending, hops + 1, followFinal);
      }
    } else if nodes[current].kind.Directory? {
      var child := FetchChild(nodes, current, pending[0]);
      if child.Some? { TrashedIsNotEntered(nodes, x, child.value, pending[1..], hops, followFinal); }
    }
  }

  // --- the request -----------------------------------------------------------

  lemma TrashedNode(db: Db, root: Id, path: Segments, expected: Option<nat>, now: int)
    requires Inv(db, root) && TrashPath(db, path, expected, now).outcome.InTrash?
    ensures Named(db.nodes, path).Ok?
    ensures var x := Named(db.nodes, path).value;
            x != root && Active(db.nodes, x) && Live(db.nodes, x) && db.nodes[x].parent.Some? &&
            TrashPath(db, path, expected, now) ==
            Step(AppendChange(MarkTrashed(db, x, now), Trashed, Some(x), Some(path), None, Some(db.nodes[x].revision),
                              now),
                 InTrash(db.nextId))
  {
    UnfoldInv(db, root);
    hide Inv, Named;
    NamedIsProper(db.nodes, root, path);
  }

  /**
   After `trash` no path leads to the node or below it, with or without links, and
   every path that did not lead there through the node resolves as before.
   */
  lemma TrashHidesExactly(db: Db, root: Id, path: Segments, expected: Option<nat>, now: int, other: Segments,
                          followFinal: bool)
    requires Inv(db, root) && TrashPath(db, path, expected, now).outcome.InTrash?
    ensures var nodes' := TrashPath(db, path, expected, now).db.nodes;
            var x := Named(db.nodes, path).value;
            HidesExactly(db.nodes, nodes', root, x, other, followFinal)
  {
    UnfoldInv(db, root);
    hide Inv, TrashPath, Named, Below, HidesExactly, Trims;
    TrashedNode(db, root, path, expected, now);
    var x := Named(db.nodes, path).value;
    MarkTrims(db.nodes, root, x, now);
    TrimmingHides(db.nodes, Marked(db.nodes, x, now), root, x, other, followFinal);
  }

  /** Only the restored node's revision and time and the change feed differ. */
  predicate RestoredFrom(db: Db, db': Db, x: Id, now: int)
    requires x in db.nodes
  {
    db' == db.(nodes := db.nodes[x := db.nodes[x].(revision := db.nodes[x].revision + 1, modifiedAt := now)],
               changes := db'.changes, changeSeq := db'.changeSeq, nextId := db'.nextId)
  }

  /** The place a freshly trashed node came from is still there and free. */
  lemma OriginalPlaceIsFree(db: Db, root: Id, x: Id, now: int)
    requires Inv(db, root) && Live(db.nodes, x) && Active(db.nodes, x) && x != root && db.nodes[x].parent.Some?
    ensures var p := db.nodes[x].parent.value;
            Active(db.nodes, p) && db.nodes[p].kind.Directory? && p != x &&
            FetchChild(Marked(db.nodes, x, now), p, db.nodes[x].name).None?
  {
    UnfoldInv(db, root);
    hide Inv;
    var path :| Resolved(db.nodes, path) == Some(x);
    RootIsFetched(db.nodes, root);
    LastStep(db.nodes, root, path, x);
    var p := db.nodes[x].parent.value;
    ResolvedIsActive(db.nodes, root, Pop(path), p);
    NotBelowOwnChild(db.nodes, p, x);
    BelowSelf(db.nodes, x);
    ChildIsFetched(db.nodes, p, db.nodes[x].name, x);
    MarkedChild(db.nodes, x, now, p, db.nodes[x].name);
  }

  /** Restoring the record at once brings back the same nodes, ids and bytes. */
  lemma RestoreUndoesTrash(db: Db, root: Id, path: Segments, now: int, later: int)
    requires Inv(db, root) && TrashPath(db, path, None, now).outcome.InTrash?
    ensures var t := TrashPath(db, path, None, now);
            var x := Named(db.nodes, path).value;
            var r := Restore(t.db, t.outcome.record, None, None, later);
            r.outcome == Done(x) && RestoredFrom(db, r.db, x, later)
  {
    UnfoldInv(db, root);
    hide Inv, Named, TrashPath;
    TrashedNode(db, root, path, None, now);
    var x := Named(db.nodes, path).value;
    OriginalPlaceIsFree(db, root, x, now);
    RestoreMarked(db, x, now, later, path);
  }

  lemma RestoreMarked(db: Db, x: Id, now: int, later: int, path: Segments)
    requires db.nextId !in db.trash && Active(db.nodes, x) && db.nodes[x].parent.Some?
    requires var p := db.nodes[x].parent.value;
             Active(db.nodes, p) && db.nodes[p].kind.Directory? && p != x &&
             FetchChild(Marked(db.nodes, x, now), p, db.nodes[x].name).None?
    ensures var t := AppendChange(MarkTrashed(db, x, now), Trashed, Some(x), Some(path), None,
                                  Some(db.nodes[x].revision), now);
            var r := Restore(t, db.nextId, None, None, later);
            r.outcome == Done(x) && RestoredFrom(db, r.db, x, later)
  {
    hide FetchChild;
    var t := AppendChange(MarkTrashed(db, x, now), Trashed, Some(x), Some(path), None, Some(db.nodes[x].revision), now);
    assert t.trash - {db.nextId} == db.trash;
  }

  /** Two tables in which the same names lead to the same nodes. */
  ghost predicate SameChildren(a: Nodes, b: Nodes) {
    a.Keys == b.Keys && (forall x :: x in a ==> a[x].kind == b[x].kind) &&
    forall p, name :: FetchChild(a, p, name) == FetchChild(b, p, name)
  }

  lemma {:induction false} SameWalk(a: Nodes, b: Nodes, current: Id, path: Segments)
    requires SameChildren(a, b) && current in a
    ensures Walk(a, current, path) == Walk(b, current, path)
    decreases |path|
  {
    if path != [] && a[current].kind.Directory? && FetchChild(a, current, path[0]).Some? {
      SameWalk(a, b, FetchChild(a, current, path[0]).value, path[1..]);
    }
  }

  /** Links lead alike too, if targets, parents and trash marks are the same. */
  ghost predicate SameLinks(a: Nodes, b: Nodes) {
    SameChildren(a, b) && FetchRoot(a) == FetchRoot(b) &&
    forall x :: x in a ==> a[x].target == b[x].target && a[x].parent == b[x].parent && a[x].trashedAt == b[x].trashedAt
  }

  lemma {:induction false} SameClimb(a: Nodes, b: Nodes, base: Id, remaining: Segments)
    requires SameLinks(a, b) && base in a
    ensures Climb(a, base, remaining) == Climb(b, base, remaining)
    decreases |remaining|
  {
    if remaining != [] && remaining[0] == ".." {
      if a[base].parent.None? {
        SameClimb(a, b, base, remaining[1..]);
      } else if Active(a, a[base].parent.value) {
        SameClimb(a, b, a[base].parent.value, remaining[1..]);
      }
    }
  }

  lemma SameLink(a: Nodes, b: Nodes, link: Id)
    requires SameLinks(a, b) && link in a
    ensures FollowOne(a, link) == FollowOne(b, link)
  {
    hide ParseTarget, SplitSegments, Climb;
    if a[link].target.Some? && ParseTarget(a[link].target.value).Ok? && a[link].parent.Some? &&
        a[link].parent.value in a
    {
      SameClimb(a, b, a[link].parent.value, SplitSegments(ParseTarget(a[link].target.value).value.canonical));
    }
  }

  lemma {:induction false} SameFollow(a: Nodes, b: Nodes, current: Id, pending: Segments, hops: nat, fromLink: nat,
                                      followFinal: bool)
    requires SameLinks(a, b) && current in a && hops <= MAX_LINK_HOPS
    ensures Follow(a, current, pending, hops, fromLink, followFinal) ==
            Follow(b, current, pending, hops, fromLink, followFinal)
    decreases MAX_LINK_HOPS - hops, |pending|
  {
    hide FollowOne;
    if pending == [] && !(followFinal && a[current].kind.Symlink?) {
    } else if a[current].kind.Symlink? {
      SameLink(a, b, current);
      var step := FollowOne(a, current);
      if hops < MAX_LINK_HOPS && step.Next? {
        SameFollow(a, b, step.base, step.remaining + pending, hops + 1, |step.remaining|, followFinal);
      }
    } else if a[current].kind.Directory? {
      var child := FetchChild(a, current, pending[0]);
      if child.Some? { SameFollow(a, b, child.value, pending[1..], hops, Max(0, fromLink - 1), followFinal); }
    }
  }

  lemma RestoredChildren(db: Db, root: Id, x: Id, node: Node)
    requires Sound(db.nodes, root) && x in db.nodes && SamePlace(db.nodes[x], node)
    ensures SameChildren(db.nodes, db.nodes[x := node]) && Sound(db.nodes[x := node], root)
  {
    var nodes' := db.nodes[x := node];
    UpdateKeepsTree(db.nodes, root, x, node);
    UpdateKeepsNames(db.nodes, x, node);
    hide TreeOk;
    forall p, name ensures FetchChild(db.nodes, p, name) == FetchChild(nodes', p, name) {
      forall y ensures IsChild(db.nodes, p, name, y) <==> IsChild(nodes', p, name, y) { }
      if FetchChild(db.nodes, p, name).Some? { ChildIsFetched(nodes', p, name, FetchChild(db.nodes, p, name).value); }
    }
  }

  lemma RestoredContent(db: Db, db': Db, x: Id, now: int, y: Id)
    requires x in db.nodes && RestoredFrom(db, db', x, now) && y in db.nodes
    ensures FileContent(db', y) == FileContent(db, y)
  {
  }

  lemma RestoredRows(db: Db, db': Db, x: Id, now: int)
    requires x in db.nodes && RestoredFrom(db, db', x, now)
    ensures db'.nodes == db.nodes[x := db'.nodes[x]] && SamePlace(db.nodes[x], db'.nodes[x])
    ensures forall y :: y in db.nodes ==>
              y in db'.nodes && db.nodes[y].target == db'.nodes[y].target &&
              db.nodes[y].parent == db'.nodes[y].parent &&
              db.nodes[y].trashedAt == db'.nodes[y].trashedAt
  {
  }

  lemma RestoredLinks(db: Db, root: Id, db': Db, x: Id, now: int)
    requires Sound(db.nodes, root) && x in db.nodes && RestoredFrom(db, db', x, now)
    ensures SameLinks(db.nodes, db'.nodes) && FetchRoot(db.nodes) == Some(root) && root in db.nodes
  {
    hide RestoredFrom, SameChildren, Acyclic, NamesDistinct, Rooted, FetchRoot;
    RestoredRows(db, db', x, now);
    RestoredChildren(db, root, x, db'.nodes[x]);
    RootIsFetched(db.nodes, root);
    RootIsFetched(db'.nodes, root);
  }

  /**
   So after an immediate restore every path, over links or not, resolves as before the trashing, to the same bytes.
   */
  lemma RestoredResolvesAlike(db: Db, root: Id, db': Db, x: Id, now: int, path: Segments, followFinal: bool)
    requires Inv(db, root) && x in db.nodes && RestoredFrom(db, db', x, now)
    ensures Resolved(db'.nodes, path) == Resolved(db.nodes, path)
    ensures Followed(db'.nodes, path, followFinal) == Followed(db.nodes, path, followFinal)
    ensures forall y :: y in db.nodes ==> y in db'.nodes && FileContent(db', y) == FileContent(db, y)
  {
    UnfoldInv(db, root);
    hide Inv, SameChildren, Sound, FileContent, Acyclic, NamesDistinct, Follow, Walk;
    forall y | y in db.nodes ensures FileContent(db', y) == FileContent(db, y) { RestoredContent(db, db', x, now, y); }
    RestoredLinks(db, root, db', x, now);
    SameWalk(db.nodes, db'.nodes, root, path);
    SameFollow(db.nodes, db'.nodes, root, path, 0, 0, followFinal);
  }

  lemma UnfoldSound(nodes: Nodes, root: Id)
    requires Sound(nodes, root)
    ensures Rooted(nodes, root) && Acyclic(nodes) && NamesDistinct(nodes)
  {
  }

  // --- reachability of a restored node ---------------------------------------

  /** Outside the subtree of `x`, whatever is reachable in one table is reachable in the other by the same path. */
  lemma {:induction false} ReachableElsewhere(a: Nodes, b: Nodes, root: Id, x: Id, path: Segments, y: Id)
    requires Sound(a, root) && Sound(b, root) && Resolved(a, path) == Some(y)
    requires a.Keys == b.Keys && forall z :: z in a && z != x ==> a[z] == b[z]
    requires y in a && !Below(a, x, y)
    ensures Resolved(b, path) == Some(y)
    decreases |path|
  {
    RootIsFetched(a, root);
    RootIsFetched(b, root);
    if path != [] {
      LastStep(a, root, path, y);
      var p, name := a[y].parent.value, path[|path| - 1];
      NotBelowAbove(a, x, y);
      ReachableElsewhere(a, b, root, x, Pop(path), p);
      BelowSelfIfKnown(a, x);
      ResolvedChild(b, root, Pop(path), p, name);
      assert IsChild(b, p, name, y);
      ChildIsFetched(b, p, name, y);
      assert Pop(path) + [name] == path;
    }
  }

  lemma BelowSelfIfKnown(nodes: Nodes, x: Id)
    ensures x in nodes ==> Below(nodes, x, x)
  {
    if x in nodes { BelowSelf(nodes, x); }
  }

  lemma RestoreRows(db: Db, record: Id, destination: Option<Segments>, expected: Option<nat>, now: int)
    requires Restore(db, record, destination, expected, now).outcome.Done?
    ensures record in db.trash && db.trash[record].node in db.nodes &&
            RestorePlace(db.nodes, db.trash[record], destination).Ok?
    ensures var db', x, place := Restore(db, record, destination, expected, now).db, db.trash[record].node,
                                 RestorePlace(db.nodes, db.trash[record], destination).value;
            db'.nodes.Keys == db.nodes.Keys && (forall z :: z in db.nodes && z != x ==> db.nodes[z] == db'.nodes[z]) &&
            IsChild(db'.nodes, place.0, place.1, x)
  {
    hide RestorePlace;
  }

  /** A restored node can be reached exactly if the directory it was put in could be. */
  lemma RestoredIsReachableIff(db: Db, root: Id, record: Id, destination: Option<Segments>, expected: Option<nat>,
                               now: int)
    requires Inv(db, root) && Restore(db, record, destination, expected, now).outcome.Done?
    ensures record in db.trash && RestorePlace(db.nodes, db.trash[record], destination).Ok?
    ensures Live(Restore(db, record, destination, expected, now).db.nodes, db.trash[record].node) <==>
            Live(db.nodes, RestorePlace(db.nodes, db.trash[record], destination).value.0)
  {
    hide Inv, RestorePlace, Restore, Sound, Live;
    var r := Restore(db, record, destination, expected, now);
    RestoreKeepsInv(db, root, record, destination, expected, now);
    UnfoldInv(db, root);
    UnfoldInv(r.db, root);
    RestoreRows(db, record, destination, expected, now);
    RestorePlaceIsOutside(db, root, record, destination);
    var (p, name) := RestorePlace(db.nodes, db.trash[record], destination).value;
    RestoredRow(db, r.db, root, db.trash[record].node, p, name);
  }

  lemma RestoredRow(db: Db, db': Db, root: Id, x: Id, p: Id, name: string)
    requires Sound(db.nodes, root) && Sound(db'.nodes, root) && x in db.nodes && p in db.nodes && !Below(db.nodes, x, p)
    requires db'.nodes.Keys == db.nodes.Keys && forall z :: z in db.nodes && z != x ==> db.nodes[z] == db'.nodes[z]
    requires IsChild(db'.nodes, p, name, x) && db.nodes[p].kind.Directory?
    ensures Live(db'.nodes, x) <==> Live(db.nodes, p)
  {
    BelowSelf(db.nodes, x);
    if Live(db'.nodes, x) {
      var path :| Resolved(db'.nodes, path) == Some(x);
      RootIsFetched(db'.nodes, root);
      assert path != [];
      LastStep(db'.nodes, root, path, x);
      NotBelowOwnChild(db'.nodes, p, x);
      ReachableElsewhere(db'.nodes, db.nodes, root, x, Pop(path), p);
    }
    if Live(db.nodes, p) {
      var path :| Resolved(db.nodes, path) == Some(p);
      ReachableElsewhere(db.nodes, db'.nodes, root, x, path, p);
      ResolvedChild(db'.nodes, root, path, p, name);
      ChildIsFetched(db'.nodes, p, name, x);
    }
  }
}
