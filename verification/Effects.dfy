/**
 What the namespace requests do to paths: after a success the tree reads, path by
 path, as the request asked for, and nothing else has moved.
 */
module Effects {
  import opened Common
  import opened Chunks
  import opened Paths
  import opened Tree
  import opened Resolve
  import opened Store
  import opened Copy
  import opened Operations
  import opened Safety
  import opened Runs
  import opened TrashEffects

  // --- rows that did not change ----------------------------------------------

  /** No row on the way from the root to `y` differs. */
  ghost predicate SameWayUp(a: Nodes, b: Nodes, y: Id) {
    forall z :: Below(a, z, y) ==> z in a && z in b && b[z] == a[z]
  }

  lemma {:induction false} SameWayUpResolves(a: Nodes, b: Nodes, root: Id, path: Segments, y: Id)
    requires Sound(a, root) && Sound(b, root) && Resolved(a, path) == Some(y) && SameWayUp(a, b, y)
    ensures Resolved(b, path) == Some(y)
    decreases |path|
  {
    RootIsFetched(a, root);
    RootIsFetched(b, root);
    if path != [] {
      LastStep(a, root, path, y);
      BelowSelf(a, y);
      var p, name := a[y].parent.value, path[|path| - 1];
      forall z | Below(a, z, p) ensures z in a && z in b && b[z] == a[z] { BelowChild(a, z, p, y); }
      SameWayUpResolves(a, b, root, Pop(path), p);
      BelowSelf(a, p);
      ResolvedChild(b, root, Pop(path), p, name);
      ChildIsFetched(b, p, name, y);
      assert Pop(path) + [name] == path;
    }
  }

  // --- remove and purge ------------------------------------------------------

  /** A purge hides exactly the purged subtree. */
  lemma PurgedResolves(db: Db, root: Id, x: Id, path: Segments, followFinal: bool)
    requires Inv(db, root) && x in db.nodes && x != root
    ensures HidesExactly(db.nodes, PurgeSubtree(db, x).nodes, root, x, path, followFinal)
  {
    UnfoldInv(db, root);
    hide Inv, Sound, Acyclic, Trims, HidesExactly;
    PurgeTrims(db.nodes, root, x);
    TrimmingHides(db.nodes, Tree.Purged(db.nodes, x), root, x, path, followFinal);
  }

  /**
   After a removal no path leads to the node or below it, over links or not, and every
   path that did not lead there through the node resolves as before.
   */
  lemma RemoveTakesExactlyTheSubtree(db: Db, root: Id, path: Segments, recursive: bool, expected: Option<nat>, now: int,
                                     other: Segments, followFinal: bool)
    requires Inv(db, root) && Remove(db, path, recursive, expected, now).outcome.Finished?
    ensures Named(db.nodes, path).Ok? && root in db.nodes
    ensures HidesExactly(db.nodes, Remove(db, path, recursive, expected, now).db.nodes, root,
                         Named(db.nodes, path).value, other, followFinal)
  {
    UnfoldInv(db, root);
    hide Inv, Remove, Named, Sound, HidesExactly, PurgeSubtree;
    RemoveIs(db, path, recursive, expected, now);
    NamedIsProper(db.nodes, root, path);
    PurgedResolves(db, root, Named(db.nodes, path).value, other, followFinal);
  }

  /** Purging a trash record changes no path at all, over links or not: what it deletes could not be reached. */
  lemma PurgeChangesNoPath(db: Db, root: Id, record: Id, now: int, path: Segments, followFinal: bool)
    requires Inv(db, root) && record in db.trash
    ensures Resolved(Purge(db, record, now).db.nodes, path) == Resolved(db.nodes, path)
    ensures Followed(Purge(db, record, now).db.nodes, path, followFinal) == Followed(db.nodes, path, followFinal)
  {
    var x := db.trash[record].node;
    UnfoldInv(db, root);
    TrashedIsInactive(db, root, record);
    TrashedIsNotEntered(db.nodes, x, root, path, 0, followFinal);
    hide Inv, Resolved, Followed, Enters;
    var noted := AppendChange(db, ChangeKind.Purged, Some(x), None, None, None, now);
    AppendKeepsInv(db, root, ChangeKind.Purged, Some(x), None, None, None, now);
    PurgedResolves(noted, root, x, path, followFinal);
    var r := Resolved(db.nodes, path);
    if r.Some? && Below(db.nodes, x, r.value) {
      ReachableBelowIsActive(db.nodes, root, path, x, r.value);
      ActiveBelowIsBelow(db.nodes, x, r.value);
    }
  }

  lemma TrashedIsInactive(db: Db, root: Id, record: Id)
    requires Inv(db, root) && record in db.trash
    ensures var x := db.trash[record].node; x in db.nodes && x != root && !Active(db.nodes, x)
  {
  }

  // --- mkdir -----------------------------------------------------------------

  /** Everything that resolved still resolves to the same node, unchanged. */
  ghost predicate OnlyAdds(a: Nodes, b: Nodes) {
    (forall y :: y in a ==> y in b && b[y] == a[y]) &&
    forall path, y :: Resolved(a, path) == Some(y) ==> Resolved(b, path) == Some(y)
  }

  lemma InsertOnlyAdds(a: Nodes, b: Nodes, root: Id, x: Id)
    requires Sound(a, root) && Sound(b, root) && x !in a && x in b && b == a[x := b[x]]
    ensures OnlyAdds(a, b)
  {
    forall path, y | Resolved(a, path) == Some(y) ensures Resolved(b, path) == Some(y) {
      forall z | Below(a, z, y) ensures z in a && z in b && b[z] == a[z] { }
      SameWayUpResolves(a, b, root, path, y);
    }
  }

  lemma CreateDirectoryAdds(db: Db, root: Id, current: Id, at: Segments, name: string, now: int)
    requires Inv(db, root) && Resolved(db.nodes, at) == Some(current) && current in db.nodes &&
             db.nodes[current].kind.Directory?
    requires FetchChild(db.nodes, current, name).None?
    ensures var db' := CreateDirectory(db, current, name, at + [name], now);
            Inv(db', root) && OnlyAdds(db.nodes, db'.nodes) && Resolved(db'.nodes, at + [name]) == Some(db.nextId) &&
            db.nextId in db'.nodes && db'.nodes[db.nextId].kind.Directory?
  {
    var db' := CreateDirectory(db, current, name, at + [name], now);
    CreateDirectoryKeepsInv(db, root, current, name, at + [name], now);
    UnfoldInv(db, root);
    UnfoldInv(db', root);
    FreshIdUnreferenced(db, root);
    hide Inv, Sound, Resolved;
    InsertOnlyAdds(db.nodes, db'.nodes, root, db.nextId);
    ResolvedChild(db'.nodes, root, at, current, name);
    ChildIsFetched(db'.nodes, current, name, db.nextId);
  }

  lemma MkdirFromStep(db: Db, current: Id, at: Segments, segments: Segments, o: CreateOptions, now: int)
    requires current in db.nodes && segments != [] && MkdirFrom(db, current, at, segments, o, now).outcome.Done?
    ensures var s, name := MkdirFrom(db, current, at, segments, o, now), segments[0];
            var child := FetchChild(db.nodes, current, name);
            var made := CreateDirectory(db, current, name, at + [name], now);
            db.nodes[current].kind.Directory? &&
            if |segments| > 1 then
              s == if child.Some? then MkdirFrom(db, child.value, at + [name], segments[1..], o, now)
                   else MkdirFrom(made, db.nextId, at + [name], segments[1..], o, now)
            else if child.Some? then s == Step(db, Done(child.value)) && db.nodes[child.value].kind.Directory?
            else s == Step(made, Done(db.nextId))
  {
  }

  lemma {:induction false} MkdirFromMakesPath(db: Db, root: Id, current: Id, at: Segments, segments: Segments,
                                              o: CreateOptions, now: int)
    requires Inv(db, root) && current in db.nodes && segments != [] && Resolved(db.nodes, at) == Some(current)
    requires MkdirFrom(db, current, at, segments, o, now).outcome.Done?
    ensures var s := MkdirFrom(db, current, at, segments, o, now);
            OnlyAdds(db.nodes, s.db.nodes) && Resolved(s.db.nodes, at + segments) == Some(s.outcome.node) &&
            s.outcome.node in s.db.nodes && s.db.nodes[s.outcome.node].kind.Directory?
    decreases |segments|
  {
    hide Inv, Sound, Resolved, CreateDirectory, OnlyAdds, MkdirFrom, FetchChild;
    UnfoldInv(db, root);
    MkdirFromStep(db, current, at, segments, o, now);
    var name := segments[0];
    NothingAdded(db.nodes);
    var child := FetchChild(db.nodes, current, name);
    ResolvedChild(db.nodes, root, at, current, name);
    if child.None? { CreateDirectoryAdds(db, root, current, at, name, now); }
    if |segments| > 1 {
      assert (at + [name]) + segments[1..] == at + segments;
      if child.Some? {
        MkdirFromMakesPath(db, root, child.value, at + [name], segments[1..], o, now);
      } else {
        var made := CreateDirectory(db, current, name, at + [name], now);
        MkdirFromMakesPath(made, root, db.nextId, at + [name], segments[1..], o, now);
        AddsTwice(db.nodes, made.nodes, MkdirFrom(made, db.nextId, at + [name], segments[1..], o, now).db.nodes);
      }
    } else {
      assert [name] == segments;
    }
  }

  lemma NothingAdded(a: Nodes)
    ensures OnlyAdds(a, a)
  {
  }

  lemma AddsTwice(a: Nodes, b: Nodes, c: Nodes)
    requires OnlyAdds(a, b) && OnlyAdds(b, c)
    ensures OnlyAdds(a, c)
  {
  }

  /** A successful `mkdir` makes the path name a directory, and takes nothing away. */
  lemma MkdirMakesThePath(db: Db, root: Id, path: Segments, o: CreateOptions, now: int)
    requires Inv(db, root) && Mkdir(db, path, o, now).outcome.Done?
    ensures var s := Mkdir(db, path, o, now);
            OnlyAdds(db.nodes, s.db.nodes) && Resolved(s.db.nodes, path) == Some(s.outcome.node) &&
            s.outcome.node in s.db.nodes && s.db.nodes[s.outcome.node].kind.Directory?
  {
    UnfoldInv(db, root);
    hide Inv, MkdirFrom, OnlyAdds;
    RootIsFetched(db.nodes, root);
    assert Resolved(db.nodes, []) == Some(root);
    hide Resolved, Sound;
    MkdirFromMakesPath(db, root, root, [], path, o, now);
    assert [] + path == path;
  }

  // --- copy ------------------------------------------------------------------

  lemma CopiesAreActive(db0: Db, db: Db, copies: map<Id, Id>, top: Pending, now: int, x: Id)
    requires IdsFresh(db0) && Isomorphic(db0, db, copies, top, now) && x in copies
    ensures Active(db0.nodes, x) && copies[x] in db.nodes && copies[x] !in db0.nodes
    ensures HasPlace(db0, copies, top, x) && db.nodes[copies[x]] ==
            CopiedNode(db0.nodes[x], Place(db0, copies, top, x), copies[x], now)
  {
    assert ActiveBelow(db0.nodes, top.source, x);
    ActiveBelowIsBelow(db0.nodes, top.source, x);
    assert FaithfulCopy(db0, db, Place(db0, copies, top, x), copies[x], now);
  }

  lemma CopiesDiffer(db0: Db, db: Db, copies: map<Id, Id>, top: Pending, now: int, x: Id, y: Id)
    requires Isomorphic(db0, db, copies, top, now) && x in copies && y in copies && copies[x] == copies[y]
    ensures x == y
  {
  }

  lemma CopiedChildIsThere(db0: Db, root: Id, db: Db, copies: map<Id, Id>, top: Pending, now: int, x: Id, c: Id)
    requires Inv(db0, root) && Isomorphic(db0, db, copies, top, now) && x in copies && ActiveChild(db0.nodes, x, c)
    ensures c in copies && IsChild(db.nodes, copies[x], db0.nodes[c].name, copies[c])
  {
    UnfoldInv(db0, root);
    hide Inv, CopiesFaithful, FreshCopies, Extends, ActiveBelow;
    assert x in ActiveSubtree(db0.nodes, top.source);
    ActiveBelowChild(db0.nodes, top.source, x, c);
    ActiveBelowIsBelow(db0.nodes, top.source, x);
    assert c in ActiveSubtree(db0.nodes, top.source);
    hide Isomorphic, ActiveSubtree;
    CopiesAreActive(db0, db, copies, top, now, c);
    CopiesAreActive(db0, db, copies, top, now, x);
    if c == top.source { NotBelowOwnChild(db0.nodes, x, c); }
  }

  lemma OldRowsStay(db0: Db, db: Db, copies: map<Id, Id>, top: Pending, now: int, y: Id)
    requires Isomorphic(db0, db, copies, top, now) && y in db.nodes
    ensures if y in db0.nodes then db.nodes[y] == db0.nodes[y] else exists c :: c in copies && copies[c] == y
  {
  }

  lemma ChildOfCopyIsCopy(db0: Db, root: Id, db: Db, copies: map<Id, Id>, top: Pending, now: int, x: Id, name: string,
                          y: Id)
    returns (c: Id)
    requires CopyRequest(db0, root, top) && Isomorphic(db0, db, copies, top, now)
    requires x in copies && IsChild(db.nodes, copies[x], name, y)
    ensures c in copies && copies[c] == y && IsChild(db0.nodes, x, name, c)
  {
    UnfoldInv(db0, root);
    hide Inv, Isomorphic, ActiveBelow, Sound, Acyclic;
    CopiesAreActive(db0, db, copies, top, now, x);
    OldRowsStay(db0, db, copies, top, now, y);
    c :| c in copies && copies[c] == y;
    CopiesAreActive(db0, db, copies, top, now, c);
    if c != top.source { CopiesDiffer(db0, db, copies, top, now, x, db0.nodes[c].parent.value); }
  }

  /** A step down in the copy is the copy of the step down in the source. */
  lemma CopiedChild(db0: Db, root: Id, db: Db, copies: map<Id, Id>, top: Pending, now: int, x: Id, name: string)
    requires CopyRequest(db0, root, top) && Isomorphic(db0, db, copies, top, now) && Inv(db, root) && x in copies
    ensures var c := FetchChild(db0.nodes, x, name);
            if c.Some? then c.value in copies && FetchChild(db.nodes, copies[x], name) == Some(copies[c.value])
            else FetchChild(db.nodes, copies[x], name).None?
  {
    UnfoldInv(db, root);
    RequestSourceExists(db0, root, top);
    hide CopyRequest, Inv, Isomorphic, ActiveBelow, Sound, Acyclic;
    var c, d := FetchChild(db0.nodes, x, name), FetchChild(db.nodes, copies[x], name);
    if c.Some? {
      CopiedChildIsThere(db0, root, db, copies, top, now, x, c.value);
      ChildIsFetched(db.nodes, copies[x], name, copies[c.value]);
    }
    if d.Some? { var z := ChildOfCopyIsCopy(db0, root, db, copies, top, now, x, name, d.value); }
  }

  /**
   Every path below the copy leads to the copy of what the same path leads to below
   the source, a node with the same kind, bytes, target and attributes.
   */
  lemma {:induction false} CopyReadsTheSame(db0: Db, root: Id, db: Db, copies: map<Id, Id>, top: Pending, now: int,
                                            x: Id, path: Segments)
    requires CopyRequest(db0, root, top) && Isomorphic(db0, db, copies, top, now) && Inv(db, root) && x in copies
    ensures x in db0.nodes && copies[x] in db.nodes
    ensures var r := Walk(db0.nodes, x, path);
            if r.None? then Walk(db.nodes, copies[x], path).None?
            else r.value in copies && Walk(db.nodes, copies[x], path) == Some(copies[r.value]) &&
                 SameFile(db0, r.value, db, copies[r.value])
    decreases |path|
  {
    hide CopyRequest, Inv, Isomorphic, SameFile;
    RequestSourceExists(db0, root, top);
    CopyHasKind(db0, root, db, copies, top, now, x);
    if path == [] {
      CopiedFile(db0, root, db, copies, top, now, x);
    } else {
      CopiedChild(db0, root, db, copies, top, now, x, path[0]);
      var c := FetchChild(db0.nodes, x, path[0]);
      if c.Some? { CopyReadsTheSame(db0, root, db, copies, top, now, c.value, path[1..]); }
    }
  }

  lemma CopyHasKind(db0: Db, root: Id, db: Db, copies: map<Id, Id>, top: Pending, now: int, x: Id)
    requires Inv(db0, root) && Isomorphic(db0, db, copies, top, now) && x in copies
    ensures x in db0.nodes && copies[x] in db.nodes && db.nodes[copies[x]].kind == db0.nodes[x].kind
  {
    UnfoldInv(db0, root);
    hide Inv, Isomorphic, Sound, Acyclic;
    CopiesAreActive(db0, db, copies, top, now, x);
  }

  ghost predicate SameFile(a: Db, x: Id, b: Db, y: Id) {
    x in a.nodes && y in b.nodes && b.nodes[y].kind == a.nodes[x].kind && b.nodes[y].size == a.nodes[x].size &&
    b.nodes[y].target == a.nodes[x].target && FileContent(b, y) == FileContent(a, x) &&
    AttributesOf(b.attributes, y) == AttributesOf(a.attributes, x)
  }

  lemma CopiedFile(db0: Db, root: Id, db: Db, copies: map<Id, Id>, top: Pending, now: int, x: Id)
    requires Inv(db0, root) && Isomorphic(db0, db, copies, top, now) && x in copies
    ensures SameFile(db0, x, db, copies[x])
  {
    assert FaithfulCopy(db0, db, Place(db0, copies, top, x), copies[x], now);
    hide CopiesFaithful, FreshCopies, Extends, Isomorphic, ContentOf;
    FileHasGeneration(db0, root, x);
    if db0.nodes[x].generation.Some? { GenerationHasSize(db0, root, x); }
  }

  lemma GenerationHasSize(db: Db, root: Id, x: Id)
    requires Inv(db, root) && x in db.nodes && db.nodes[x].generation.Some?
    ensures var g := db.nodes[x].generation.value;
            g in db.generations && db.generations[g] == Generation(true, db.nodes[x].size, RowsIn(db, g))
  {
    assert KindOk(db.nodes[x], db.generations, db.maxFileBytes);
  }

  /** A copy between plain paths to a free place. */
  ghost predicate PlainCopy(db: Db, root: Id, from: Segments, to: Segments, s: Id, p: Id) {
    Inv(db, root) && to != [] && Resolved(db.nodes, from) == Some(s) && Resolved(db.nodes, Pop(to)) == Some(p) &&
    p in db.nodes && db.nodes[p].kind.Directory? && FetchChild(db.nodes, p, to[|to| - 1]).None?
  }

  lemma PlainCopyIs(db: Db, root: Id, from: Segments, to: Segments, recursive: bool, overwrite: bool,
                    expected: Option<nat>, now: int, s: Id, p: Id)
    requires PlainCopy(db, root, from, to, s, p)
    requires s in db.nodes && !Conflicts(expected, db.nodes[s]) && (db.nodes[s].kind.Directory? ==> recursive)
    ensures Active(db.nodes, s)
    ensures CopyTo(db, from, to, recursive, overwrite, expected, now) == CopyOver(db, s, p, None, from, to, now)
  {
    UnfoldInv(db, root);
    hide Inv, Sound, Resolved, CopyOver, Named, ResolveDestination;
    ResolvedIsActive(db.nodes, root, from, s);
    PlainName(db.nodes, root, from, s);
    DestinationOfPlainPath(db.nodes, root, to, p);
  }

  /** In paths: such a copy ends exactly if it does not go to the source or below it. */
  lemma PlainCopyEndsIff(db: Db, root: Id, from: Segments, to: Segments, recursive: bool, overwrite: bool,
                         expected: Option<nat>, now: int,
                         s: Id, p: Id)
    requires PlainCopy(db, root, from, to, s, p)
    requires s in db.nodes && !Conflicts(expected, db.nodes[s]) && (db.nodes[s].kind.Directory? ==> recursive)
    ensures CopyTo(db, from, to, recursive, overwrite, expected, now).Some? <==> !(from <= Pop(to))
  {
    UnfoldInv(db, root);
    PlainCopyIs(db, root, from, to, recursive, overwrite, expected, now, s, p);
    hide Inv, Sound, Resolved, CopyTo, CopySubtree, ActiveBelow, Below;
    PrefixIsAncestry(db.nodes, root, from, s, Pop(to), p);
    CopyEndsIff(db, root, Pending(s, p, to[|to| - 1]), now);
    if Below(db.nodes, s, p) { ReachableBelowIsActive(db.nodes, root, Pop(to), s, p); }
    if ActiveBelow(db.nodes, s, p) { ActiveBelowIsBelow(db.nodes, s, p); }
  }

  /** All checks of `copy_tx` pass, and the source is still there once the destination is cleared. */
  ghost predicate CopyAccepted(db: Db, from: Segments, to: Segments, recursive: bool, overwrite: bool,
                               expected: Option<nat>) {
    Named(db.nodes, from).Ok? && ResolveDestination(db.nodes, to).Ready? &&
    var source, existing := Named(db.nodes, from).value, ResolveDestination(db.nodes, to).existing;
    !Conflicts(expected, db.nodes[source]) && (db.nodes[source].kind.Directory? ==> recursive) &&
    (existing.Some? ==> overwrite && !Below(db.nodes, existing.value, source))
  }

  /** Clearing the destination leaves the way from a surviving source to the destination parent. */
  lemma ActiveBelowAfterClearing(db: Db, root: Id, source: Id, parent: Id, name: string, existing: Option<Id>)
    requires Sound(db.nodes, root) && IsDestination(db.nodes, parent, name, existing)
    ensures ActiveBelow(Cleared(db, existing).nodes, source, parent) <==> ActiveBelow(db.nodes, source, parent)
  {
    if existing.Some? {
      var e, nodes' := existing.value, Cleared(db, existing).nodes;
      ExistingIsChild(db.nodes, root, parent, name, existing);
      hide Below, Sound;
      if ActiveBelow(db.nodes, source, parent) {
        var c :| ActiveJoins(db.nodes, c, source, parent);
        ChainAvoids(db.nodes, e, c);
        assert forall i :: 0 <= i < |c| ==> c[i] in nodes' && nodes'[c[i]] == db.nodes[c[i]];
        assert ActiveJoins(nodes', c, source, parent);
      }
      if ActiveBelow(nodes', source, parent) {
        var c :| ActiveJoins(nodes', c, source, parent);
        assert ActiveJoins(db.nodes, c, source, parent);
      }
    }
  }

  /** Whether the source survives the clearing. */
  lemma SourceSurvives(db: Db, source: Id, existing: Option<Id>)
    requires Active(db.nodes, source)
    ensures Active(Cleared(db, existing).nodes, source) <==> existing.None? || !Below(db.nodes, existing.value, source)
  {
    hide Below;
  }

  /**
   Every copy request, over links and with overwriting, is answered, except that an
   accepted copy into the active subtree of its own source never returns.
   */
  lemma CopyReturnsIff(db: Db, root: Id, from: Segments, to: Segments, recursive: bool, overwrite: bool,
                       expected: Option<nat>, now: int)
    requires Inv(db, root)
    ensures CopyTo(db, from, to, recursive, overwrite, expected, now).Some? <==>
            !(CopyAccepted(db, from, to, recursive, overwrite, expected) &&
              ActiveBelow(db.nodes, Named(db.nodes, from).value, ResolveDestination(db.nodes, to).parent))
  {
    UnfoldInv(db, root);
    hide Inv, Named, ResolveDestination, CopyTo, CopyOver, Sound, ActiveBelow, Below;
    OnlyCopyingMayNotEnd(db, from, to, recursive, overwrite, expected, now);
    if Named(db.nodes, from).Ok? && ResolveDestination(db.nodes, to).Ready? {
      var source, d := Named(db.nodes, from).value, ResolveDestination(db.nodes, to);
      NamedIsProper(db.nodes, root, from);
      DestinationIsProper(db.nodes, root, to);
      CopyOverReturnsIff(db, root, source, d.parent, d.existing, from, to, now);
    }
  }

  /** Before the copying itself every branch answers. */
  lemma OnlyCopyingMayNotEnd(db: Db, from: Segments, to: Segments, recursive: bool, overwrite: bool,
                             expected: Option<nat>, now: int)
    ensures CopyTo(db, from, to, recursive, overwrite, expected, now).None? ==>
              Named(db.nodes, from).Ok? && ResolveDestination(db.nodes, to).Ready?
    ensures Named(db.nodes, from).Ok? && ResolveDestination(db.nodes, to).Ready? ==>
              var source, d := Named(db.nodes, from).value, ResolveDestination(db.nodes, to);
              CopyTo(db, from, to, recursive, overwrite, expected, now) ==
              if Conflicts(expected, db.nodes[source]) then Some(Step(db, Failed(RevisionConflict)))
              else if db.nodes[source].kind.Directory? && !recursive then Some(Step(db, Failed(WrongNodeType)))
              else if d.existing.Some? && !overwrite then Some(Step(db, Failed(AlreadyExists)))
              else CopyOver(db, source, d.parent, d.existing, from, to, now)
  {
    hide Named, ResolveDestination, CopyOver;
  }

  lemma CopyOverReturnsIff(db: Db, root: Id, source: Id, parent: Id, existing: Option<Id>, from: Segments, to: Segments,
                           now: int)
    requires Inv(db, root) && Active(db.nodes, source) && to != [] &&
             IsDestination(db.nodes, parent, to[|to| - 1], existing)
    ensures CopyOver(db, source, parent, existing, from, to, now).Some? <==>
            (existing.Some? && Below(db.nodes, existing.value, source)) || !ActiveBelow(db.nodes, source, parent)
  {
    UnfoldInv(db, root);
    hide Inv, Sound, ActiveBelow, Below, CopySubtree, PurgeSubtree;
    var name, cleared := to[|to| - 1], Cleared(db, existing);
    ClearingFreesTheName(db, root, parent, name, existing);
    ActiveBelowAfterClearing(db, root, source, parent, name, existing);
    SourceSurvives(db, source, existing);
    if Active(cleared.nodes, source) { CopyEndsIff(cleared, root, Pending(source, parent, name), now); }
  }

  lemma CopyAdds(db0: Db, root: Id, db: Db, copies: map<Id, Id>, top: Pending, now: int, path: Segments, y: Id)
    requires Inv(db0, root) && Inv(db, root) && Isomorphic(db0, db, copies, top, now) &&
             Resolved(db0.nodes, path) == Some(y)
    ensures Resolved(db.nodes, path) == Some(y)
  {
    UnfoldInv(db0, root);
    UnfoldInv(db, root);
    IsomorphicKeepsRows(db0, db, copies, top, now);
    hide Inv, Below, Sound, Resolved, Isomorphic;
    forall z | Below(db0.nodes, z, y) ensures z in db0.nodes && z in db.nodes && db.nodes[z] == db0.nodes[z] {
      BelowKnows(db0.nodes, z, y);
    }
    SameWayUpResolves(db0.nodes, db.nodes, root, path, y);
  }

  lemma IsomorphicKeepsRows(db0: Db, db: Db, copies: map<Id, Id>, top: Pending, now: int)
    requires Isomorphic(db0, db, copies, top, now)
    ensures forall z :: z in db0.nodes ==> z in db.nodes && db.nodes[z] == db0.nodes[z]
  {
  }

  lemma TopIsCopied(db0: Db, root: Id, db: Db, copies: map<Id, Id>, top: Pending, now: int)
    requires CopyRequest(db0, root, top) && Isomorphic(db0, db, copies, top, now)
    ensures top.source in copies && IsChild(db.nodes, top.parent, top.name, copies[top.source])
  {
    UnfoldInv(db0, root);
    ActiveBelowSelf(db0.nodes, top.source);
    hide Inv, ActiveBelow, CopiesFaithful, FreshCopies, Extends;
    assert top.source in ActiveSubtree(db0.nodes, top.source);
    hide Isomorphic;
    CopiesAreActive(db0, db, copies, top, now, top.source);
  }

  /** A copied node hangs where its place says. */
  lemma CopyHangs(db0: Db, db: Db, copies: map<Id, Id>, top: Pending, now: int, x: Id)
    requires IdsFresh(db0) && Isomorphic(db0, db, copies, top, now) && x in copies && x != top.source
    ensures copies[x] in db.nodes && x in db0.nodes && db0.nodes[x].parent.Some?
    ensures db0.nodes[x].parent.value in copies && db.nodes[copies[x]].parent == Some(copies[db0.nodes[x].parent.value])
  {
    CopiesAreActive(db0, db, copies, top, now, x);
    hide Isomorphic, ActiveBelow;
  }

  /** The copies all hang below the copy of the source. */
  lemma {:induction false} CopiesHangTogether(db0: Db, db: Db, copies: map<Id, Id>, top: Pending, now: int,
                                              rank: map<Id, nat>, x: Id)
    requires IdsFresh(db0) && Isomorphic(db0, db, copies, top, now) && top.source in copies && x in copies
    requires Ranked(db0.nodes, rank)
    ensures x in rank && Below(db.nodes, copies[top.source], copies[x])
    decreases if x in rank then rank[x] else 0
  {
    CopiesAreActive(db0, db, copies, top, now, x);
    hide Isomorphic, Below;
    if x == top.source {
      BelowSelf(db.nodes, copies[x]);
    } else {
      CopyHangs(db0, db, copies, top, now, x);
      var p := db0.nodes[x].parent.value;
      CopiesAreActive(db0, db, copies, top, now, p);
      CopiesHangTogether(db0, db, copies, top, now, rank, p);
      BelowChild(db.nodes, copies[top.source], copies[p], copies[x]);
    }
  }

  lemma NewIsBelowCopy(db0: Db, root: Id, db: Db, copies: map<Id, Id>, top: Pending, now: int, y: Id)
    requires IdsFresh(db0) && Acyclic(db0.nodes) && Isomorphic(db0, db, copies, top, now) && top.source in copies
    requires y in db.nodes && y !in db0.nodes
    ensures Below(db.nodes, copies[top.source], y)
  {
    OldRowsStay(db0, db, copies, top, now, y);
    hide Isomorphic, Below, IdsFresh;
    var rank :| Ranked(db0.nodes, rank);
    var c :| c in copies && copies[c] == y;
    CopiesHangTogether(db0, db, copies, top, now, rank, c);
  }

  lemma CopyIsNew(db0: Db, db: Db, copies: map<Id, Id>, top: Pending, now: int, x: Id)
    requires IdsFresh(db0) && Isomorphic(db0, db, copies, top, now) && x in copies
    ensures copies[x] in db.nodes && copies[x] !in db0.nodes
  {
    CopiesAreActive(db0, db, copies, top, now, x);
  }

  lemma CopyGrows(db0: Db, root: Id, db: Db, copies: map<Id, Id>, top: Pending, now: int)
    requires CopyRequest(db0, root, top) && Isomorphic(db0, db, copies, top, now)
    ensures top.source in copies && GrowsAt(db0.nodes, db.nodes, copies[top.source])
  {
    RequestSourceExists(db0, root, top);
    UnfoldInv(db0, root);
    hide CopyRequest, Inv, Isomorphic, Below, Sound, Acyclic, NamesDistinct, Rooted, IdsFresh, GrowsAt;
    TopIsCopied(db0, root, db, copies, top, now);
    CopyIsNew(db0, db, copies, top, now, top.source);
    IsomorphicKeepsRows(db0, db, copies, top, now);
    forall y | y in db.nodes && y !in db0.nodes ensures Below(db.nodes, copies[top.source], y) {
      NewIsBelowCopy(db0, root, db, copies, top, now, y);
    }
    OnlyNewGrows(db0.nodes, db.nodes, copies[top.source]);
  }

  lemma OnlyNewGrows(a: Nodes, b: Nodes, x: Id)
    requires x in b && x !in a && (forall y :: y in a ==> y in b && b[y] == a[y])
    requires forall y :: y in b && y !in a ==> Below(b, x, y)
    ensures GrowsAt(a, b, x)
  {
    hide Below;
  }

  /** A copy that ends reads, at `to`, exactly as its source does at `from`, and takes nothing away. */
  lemma PlainCopyCopiesTheTree(db: Db, root: Id, from: Segments, to: Segments, s: Id, p: Id, now: int, rest: Segments)
    returns (final: Db, copies: map<Id, Id>)
    requires PlainCopy(db, root, from, to, s, p) && !(from <= Pop(to)) && Active(db.nodes, s)
    ensures CopyOver(db, s, p, None, from, to, now).Some?
    ensures final == CopyOver(db, s, p, None, from, to, now).value.db && Inv(final, root)
    ensures s in copies && CopyOver(db, s, p, None, from, to, now).value.outcome == Done(copies[s])
    ensures copies[s] in final.nodes && GrowsAt(db.nodes, final.nodes, copies[s])
    ensures forall path, y :: Resolved(db.nodes, path) == Some(y) ==> Resolved(final.nodes, path) == Some(y)
    ensures var r := Resolved(db.nodes, from + rest);
            if r.None? then Resolved(final.nodes, to + rest).None?
            else r.value in copies && Resolved(final.nodes, to + rest) == Some(copies[r.value]) &&
                 SameFile(db, r.value, final, copies[r.value])
  {
    UnfoldInv(db, root);
    var top := Pending(s, p, to[|to| - 1]);
    PlainCopyIsRequest(db, root, from, to, s, p);
    hide Inv, Sound, ActiveBelow, Below, CopyRequest, CopySubtree, Isomorphic, SameFile, Resolved;
    var made;
    made, copies := CopySucceeds(db, root, top, now);
    final := AppendChange(made, Copied, Some(db.nextId), Some(from), Some(to), Some(1), now);
    AppendKeepsInv(made, root, Copied, Some(db.nextId), Some(from), Some(to), Some(1), now);
    forall path, y | Resolved(db.nodes, path) == Some(y) ensures Resolved(final.nodes, path) == Some(y) {
      CopyAdds(db, root, made, copies, top, now, path, y);
    }
    TopIsCopied(db, root, made, copies, top, now);
    CopyGrows(db, root, made, copies, top, now);
    CopyAdds(db, root, made, copies, top, now, Pop(to), p);
    UnfoldInv(made, root);
    DirectoryStays(db, made, copies, top, now, p);
    ToNamesTheNode(made.nodes, root, to, p, copies[s]);
    CopyReadsTheSame(db, root, made, copies, top, now, s, rest);
    WalkFrom(db.nodes, root, from, s, rest);
    WalkFrom(made.nodes, root, to, copies[s], rest);
    SameFileLater(db, made, final);
  }

  lemma SameFileLater(a: Db, b: Db, c: Db)
    requires c == b.(changes := c.changes, changeSeq := c.changeSeq)
    ensures forall x, y :: SameFile(a, x, b, y) ==> SameFile(a, x, c, y)
  {
  }

  lemma DirectoryStays(db0: Db, db: Db, copies: map<Id, Id>, top: Pending, now: int, p: Id)
    requires Isomorphic(db0, db, copies, top, now) && p in db0.nodes
    ensures p in db.nodes && db.nodes[p] == db0.nodes[p]
  {
  }

  lemma WalkFrom(nodes: Nodes, root: Id, path: Segments, x: Id, rest: Segments)
    requires Sound(nodes, root) && Resolved(nodes, path) == Some(x) && x in nodes
    ensures Resolved(nodes, path + rest) == Walk(nodes, x, rest)
  {
    RootIsFetched(nodes, root);
    WalkAppend(nodes, root, path, rest);
  }

  lemma PlainCopyIsRequest(db: Db, root: Id, from: Segments, to: Segments, s: Id, p: Id)
    requires PlainCopy(db, root, from, to, s, p) && !(from <= Pop(to)) && Active(db.nodes, s)
    ensures CopyRequest(db, root, Pending(s, p, to[|to| - 1])) && SourcesExist(db, [Pending(s, p, to[|to| - 1])])
  {
    UnfoldInv(db, root);
    hide Inv, Sound, ActiveBelow, Below, Resolved;
    PrefixIsAncestry(db.nodes, root, from, s, Pop(to), p);
    if ActiveBelow(db.nodes, s, p) { ActiveBelowIsBelow(db.nodes, s, p); }
  }

  // --- move ------------------------------------------------------------------

  /** A move between plain paths that keeps its source: what it starts from. */
  ghost predicate PlainMove(db: Db, root: Id, from: Segments, to: Segments, s: Id, p: Id, existing: Option<Id>) {
    Inv(db, root) && from != [] && to != [] && !(from <= to) && !(to <= from) &&
    Resolved(db.nodes, from) == Some(s) && Resolved(db.nodes, Pop(to)) == Some(p) &&
    p in db.nodes && db.nodes[p].kind.Directory? && existing == FetchChild(db.nodes, p, to[|to| - 1])
  }

  /** Neither the destination directory nor the overwritten node has anything to do with the moved subtree. */
  lemma MoveIsApart(db: Db, root: Id, from: Segments, to: Segments, s: Id, p: Id, existing: Option<Id>)
    requires PlainMove(db, root, from, to, s, p, existing)
    ensures s in db.nodes && s != root && Active(db.nodes, s) && db.nodes[s].parent.Some? && !Below(db.nodes, s, p)
    ensures existing.Some? ==>
              existing.value in db.nodes && !Below(db.nodes, existing.value, s) && !Below(db.nodes, s, existing.value)
  {
    hide Inv, Below, Sound, Resolved;
    UnfoldInv(db, root);
    LastStep(db.nodes, root, from, s);
    assert Pop(to) <= to;
    PrefixIsAncestry(db.nodes, root, from, s, Pop(to), p);
    if existing.Some? {
      ResolvedChild(db.nodes, root, Pop(to), p, to[|to| - 1]);
      assert Pop(to) + [to[|to| - 1]] == to;
      PrefixIsAncestry(db.nodes, root, to, existing.value, from, s);
      PrefixIsAncestry(db.nodes, root, from, s, to, existing.value);
    }
  }

  /** The tables after such a move. */
  lemma MovedRows(db: Db, root: Id, from: Segments, to: Segments, s: Id, p: Id, existing: Option<Id>, now: int)
    requires PlainMove(db, root, from, to, s, p, existing)
    ensures s in db.nodes
    ensures var db' := MoveOver(db, s, p, existing, from, to, now);
            Inv(db', root) && s in db'.nodes && db'.nodes[s] == MovedNode(db.nodes[s], p, to[|to| - 1], now) &&
            forall y :: y != s ==>
              (y in db'.nodes <==> y in db.nodes && (existing.None? || !Below(db.nodes, existing.value, y))) &&
              (y in db'.nodes ==> db'.nodes[y] == db.nodes[y])
  {
    hide Inv, Below, Resolved, Cleared, MoveOver, PlainMove, Active;
    MoveIsApart(db, root, from, to, s, p, existing);
    MovedIsValid(db, root, from, to, s, p, existing, now);
    MoveOverIs(db, s, p, existing, from, to, now);
    ClearedRows(db, existing);
  }

  lemma MovedIsValid(db: Db, root: Id, from: Segments, to: Segments, s: Id, p: Id, existing: Option<Id>, now: int)
    requires PlainMove(db, root, from, to, s, p, existing)
    ensures to != [] && s in db.nodes
    ensures Inv(MoveOver(db, s, p, existing, from, to, now), root)
  {
    hide Inv, Below, Resolved, MoveOver;
    MoveIsApart(db, root, from, to, s, p, existing);
    MoveOverKeepsInvIff(db, root, s, p, existing, from, to, now);
  }

  lemma ClearedRows(db: Db, existing: Option<Id>)
    ensures var nodes' := Cleared(db, existing).nodes;
            forall y ::
              (y in nodes' <==> y in db.nodes && (existing.None? || !Below(db.nodes, existing.value, y))) &&
              (y in nodes' ==> nodes'[y] == db.nodes[y])
  {
    hide Below;
  }

  lemma MovedStays(db: Db, root: Id, from: Segments, to: Segments, s: Id, p: Id, existing: Option<Id>, now: int, x: Id)
    requires PlainMove(db, root, from, to, s, p, existing) && Below(db.nodes, s, x)
    ensures s in db.nodes && x in db.nodes && x in MoveOver(db, s, p, existing, from, to, now).nodes
    ensures MoveOver(db, s, p, existing, from, to, now).nodes[x].kind == db.nodes[x].kind
  {
    UnfoldInv(db, root);
    MoveIsApart(db, root, from, to, s, p, existing);
    MovedRows(db, root, from, to, s, p, existing, now);
    hide Inv, Below, Sound, MoveOver, Resolved, PlainMove;
    BelowKnows(db.nodes, s, x);
    if existing.Some? && Below(db.nodes, existing.value, x) { NotBoth(db.nodes, existing.value, s, x); }
  }

  /** Rows outside both subtrees keep their whole way up. */
  lemma OutsideIsSame(db: Db, root: Id, from: Segments, to: Segments, s: Id, p: Id, existing: Option<Id>, now: int,
                      path: Segments, y: Id)
    requires PlainMove(db, root, from, to, s, p, existing) && Resolved(db.nodes, path) == Some(y)
    requires !Below(db.nodes, s, y) && (existing.None? || !Below(db.nodes, existing.value, y))
    ensures s in db.nodes && Resolved(MoveOver(db, s, p, existing, from, to, now).nodes, path) == Some(y)
  {
    UnfoldInv(db, root);
    MovedRows(db, root, from, to, s, p, existing, now);
    var db' := MoveOver(db, s, p, existing, from, to, now);
    UnfoldInv(db', root);
    hide Inv, Below, Sound, MoveOver, Resolved;
    forall z | Below(db.nodes, z, y) ensures z in db.nodes && z in db'.nodes && db'.nodes[z] == db.nodes[z] {
      BelowKnows(db.nodes, z, y);
      if existing.Some? && Below(db.nodes, existing.value, z) { BelowTrans(db.nodes, existing.value, z, y); }
    }
    SameWayUpResolves(db.nodes, db'.nodes, root, path, y);
  }

  lemma BelowKnows(nodes: Nodes, a: Id, x: Id)
    requires Below(nodes, a, x)
    ensures a in nodes && x in nodes
  {
    var c :| Joins(nodes, c, a, x);
    assert c[0] in nodes && c[|c| - 1] in nodes;
  }

  /** Inside the moved subtree every step down is as before. */
  lemma MovedChild(db: Db, root: Id, from: Segments, to: Segments, s: Id, p: Id, existing: Option<Id>, now: int, x: Id,
                   name: string)
    requires PlainMove(db, root, from, to, s, p, existing) && Below(db.nodes, s, x)
    ensures s in db.nodes
    ensures FetchChild(MoveOver(db, s, p, existing, from, to, now).nodes, x, name) == FetchChild(db.nodes, x, name)
  {
    UnfoldInv(db, root);
    MoveIsApart(db, root, from, to, s, p, existing);
    MovedRows(db, root, from, to, s, p, existing, now);
    var db' := MoveOver(db, s, p, existing, from, to, now);
    UnfoldInv(db', root);
    hide Inv, Below, Sound, MoveOver, Resolved;
    BelowKnows(db.nodes, s, x);
    NotItsOwnChild(db.nodes, s, x);
    forall y ensures IsChild(db'.nodes, x, name, y) <==> IsChild(db.nodes, x, name, y) {
      if y != s && IsChild(db.nodes, x, name, y) && existing.Some? && Below(db.nodes, existing.value, y) {
        BelowChild(db.nodes, s, x, y);
        NotBoth(db.nodes, existing.value, s, y);
      }
    }
    SameFetch(db'.nodes, db.nodes, x, name);
  }

  lemma NotItsOwnChild(nodes: Nodes, s: Id, x: Id)
    requires Acyclic(nodes) && Below(nodes, s, x) && s in nodes
    ensures nodes[s].parent != Some(x)
  {
    BelowKnows(nodes, s, x);
    if nodes[s].parent == Some(x) { NotBelowOwnChild(nodes, x, s); }
  }

  lemma NotBoth(nodes: Nodes, a: Id, b: Id, y: Id)
    requires Acyclic(nodes) && Below(nodes, a, y) && Below(nodes, b, y)
    ensures Below(nodes, a, b) || Below(nodes, b, a)
  {
    var rank :| Ranked(nodes, rank);
    AncestorsComparable(nodes, rank, a, b, y);
  }

  lemma SameFetch(a: Nodes, b: Nodes, p: Id, name: string)
    requires NamesDistinct(a) && NamesDistinct(b) && forall y :: IsChild(a, p, name, y) <==> IsChild(b, p, name, y)
    ensures FetchChild(a, p, name) == FetchChild(b, p, name)
  {
    if FetchChild(a, p, name).Some? { ChildIsFetched(b, p, name, FetchChild(a, p, name).value); }
  }

  lemma {:induction false} MovedWalk(db: Db, root: Id, from: Segments, to: Segments, s: Id, p: Id, existing: Option<Id>,
                                     now: int,
                                     x: Id, path: Segments)
    requires PlainMove(db, root, from, to, s, p, existing) && Below(db.nodes, s, x)
    ensures s in db.nodes && x in db.nodes && x in MoveOver(db, s, p, existing, from, to, now).nodes
    ensures Walk(MoveOver(db, s, p, existing, from, to, now).nodes, x, path) == Walk(db.nodes, x, path)
    decreases |path|
  {
    hide Inv, Below, Sound, MoveOver, Resolved, PlainMove;
    MovedStays(db, root, from, to, s, p, existing, now, x);
    if path != [] {
      MovedChild(db, root, from, to, s, p, existing, now, x, path[0]);
      var c := FetchChild(db.nodes, x, path[0]);
      if c.Some? {
        BelowChild(db.nodes, s, x, c.value);
        MovedWalk(db, root, from, to, s, p, existing, now, c.value, path[1..]);
      }
    }
  }

  /** After the move the old subtree hangs at `to`: same nodes by the same relative paths. */
  lemma MoveRelocates(db: Db, root: Id, from: Segments, to: Segments, s: Id, p: Id, existing: Option<Id>, now: int,
                      rest: Segments)
    requires PlainMove(db, root, from, to, s, p, existing)
    ensures s in db.nodes
    ensures Resolved(MoveOver(db, s, p, existing, from, to, now).nodes, to + rest) == Resolved(db.nodes, from + rest)
  {
    UnfoldInv(db, root);
    MoveIsApart(db, root, from, to, s, p, existing);
    MovedRows(db, root, from, to, s, p, existing, now);
    var db' := MoveOver(db, s, p, existing, from, to, now);
    UnfoldInv(db', root);
    if existing.Some? { ExistingIsChild(db.nodes, root, p, to[|to| - 1], existing); }
    OutsideIsSame(db, root, from, to, s, p, existing, now, Pop(to), p);
    BelowSelf(db.nodes, s);
    MovedWalk(db, root, from, to, s, p, existing, now, s, rest);
    ToNamesTheNode(db'.nodes, root, to, p, s);
    hide Inv, Below, Sound, MoveOver, PlainMove;
    RootIsFetched(db.nodes, root);
    RootIsFetched(db'.nodes, root);
    WalkAppend(db.nodes, root, from, rest);
    WalkAppend(db'.nodes, root, to, rest);
  }

  lemma ToNamesTheNode(nodes: Nodes, root: Id, to: Segments, p: Id, s: Id)
    requires Sound(nodes, root) && to != [] && Resolved(nodes, Pop(to)) == Some(p) && p in nodes &&
             nodes[p].kind.Directory?
    requires IsChild(nodes, p, to[|to| - 1], s)
    ensures Resolved(nodes, to) == Some(s)
  {
    ResolvedChild(nodes, root, Pop(to), p, to[|to| - 1]);
    ChildIsFetched(nodes, p, to[|to| - 1], s);
    assert Pop(to) + [to[|to| - 1]] == to;
  }

  /** And nothing is left at `from`. */
  lemma MoveLeavesNothing(db: Db, root: Id, from: Segments, to: Segments, s: Id, p: Id, existing: Option<Id>, now: int,
                          rest: Segments)
    requires PlainMove(db, root, from, to, s, p, existing)
    ensures s in db.nodes
    ensures Resolved(MoveOver(db, s, p, existing, from, to, now).nodes, from + rest).None?
  {
    hide Inv, Below, Sound, MoveOver, Resolved;
    PlainMoveIsValid(db, root, from, to, s, p, existing, now);
    var db' := MoveOver(db, s, p, existing, from, to, now);
    if y :| Resolved(db'.nodes, from) == Some(y) { NothingAtFrom(db, root, from, to, s, p, existing, now, y); }
    LongerIsNone(db'.nodes, root, from, rest);
  }

  lemma PlainMoveIsValid(db: Db, root: Id, from: Segments, to: Segments, s: Id, p: Id, existing: Option<Id>, now: int)
    requires PlainMove(db, root, from, to, s, p, existing)
    ensures s in db.nodes && Sound(MoveOver(db, s, p, existing, from, to, now).nodes, root) && Sound(db.nodes, root)
  {
    hide Inv, MoveOver, Sound;
    MovedRows(db, root, from, to, s, p, existing, now);
    UnfoldInv(db, root);
    UnfoldInv(MoveOver(db, s, p, existing, from, to, now), root);
  }

  lemma LongerIsNone(nodes: Nodes, root: Id, path: Segments, rest: Segments)
    requires Sound(nodes, root) && Resolved(nodes, path).None?
    ensures Resolved(nodes, path + rest).None?
  {
    RootIsFetched(nodes, root);
    WalkAppend(nodes, root, path, rest);
  }

  lemma NothingAtFrom(db: Db, root: Id, from: Segments, to: Segments, s: Id, p: Id, existing: Option<Id>, now: int,
                      y: Id)
    requires PlainMove(db, root, from, to, s, p, existing)
    ensures s in db.nodes && Resolved(MoveOver(db, s, p, existing, from, to, now).nodes, from) != Some(y)
  {
    hide Inv, Below, Sound, MoveOver, Resolved;
    PlainMoveIsValid(db, root, from, to, s, p, existing, now);
    var db' := MoveOver(db, s, p, existing, from, to, now);
    MovedRows(db, root, from, to, s, p, existing, now);
    OldParentStays(db, root, from, to, s, p, existing, now);
    LastStep(db.nodes, root, from, s);
    var q, name := db.nodes[s].parent.value, from[|from| - 1];
    if Resolved(db'.nodes, from) == Some(y) {
      LastStep(db'.nodes, root, from, y);
      if y == s {
        MoveRelocates(db, root, from, to, s, p, existing, now, []);
        assert to + [] == to && from + [] == from;
        PathUnique(db'.nodes, root, from, to, s);
      } else {
        OneOfAName(db.nodes, root, q, name, y, s);
      }
    }
  }

  lemma OneOfAName(nodes: Nodes, root: Id, p: Id, name: string, x: Id, y: Id)
    requires Sound(nodes, root) && IsChild(nodes, p, name, x) && IsChild(nodes, p, name, y)
    ensures x == y
  {
  }

  lemma OldParentStays(db: Db, root: Id, from: Segments, to: Segments, s: Id, p: Id, existing: Option<Id>, now: int)
    requires PlainMove(db, root, from, to, s, p, existing)
    ensures s in db.nodes && db.nodes[s].parent.Some?
    ensures Resolved(MoveOver(db, s, p, existing, from, to, now).nodes, Pop(from)) == db.nodes[s].parent
  {
    UnfoldInv(db, root);
    hide Inv, Below, Sound, MoveOver;
    MoveIsApart(db, root, from, to, s, p, existing);
    LastStep(db.nodes, root, from, s);
    var q := db.nodes[s].parent.value;
    NotBelowOwnChild(db.nodes, q, s);
    if existing.Some? && Below(db.nodes, existing.value, q) { BelowChild(db.nodes, existing.value, q, s); }
    OutsideIsSame(db, root, from, to, s, p, existing, now, Pop(from), q);
  }

  /**
   A successful move between plain paths, unless one lies below the other: the whole
   tree that could be read at `from` is read at `to`, and nothing at `from`.
   */
  lemma PlainMoveMovesTheTree(db: Db, root: Id, from: Segments, to: Segments, overwrite: bool, expected: Option<nat>,
                              now: int,
                              s: Id, p: Id, existing: Option<Id>, rest: Segments)
    requires PlainMove(db, root, from, to, s, p, existing) && (existing.None? || overwrite)
    requires s in db.nodes && !Conflicts(expected, db.nodes[s])
    ensures var r := MoveTo(db, from, to, overwrite, expected, now);
            r.outcome == Done(s) && Inv(r.db, root) &&
            Resolved(r.db.nodes, to + rest) == Resolved(db.nodes, from + rest) &&
            Resolved(r.db.nodes, from + rest).None?
  {
    hide Inv, Resolved, Sound, MoveOver;
    PlainMoveIs(db, root, from, to, overwrite, expected, now, s, p, existing);
    MovedIsValid(db, root, from, to, s, p, existing, now);
    MoveRelocates(db, root, from, to, s, p, existing, now, rest);
    MoveLeavesNothing(db, root, from, to, s, p, existing, now, rest);
  }

  lemma PlainMoveIs(db: Db, root: Id, from: Segments, to: Segments, overwrite: bool, expected: Option<nat>, now: int,
                    s: Id, p: Id, existing: Option<Id>)
    requires PlainMove(db, root, from, to, s, p, existing) && (existing.None? || overwrite)
    requires s in db.nodes && !Conflicts(expected, db.nodes[s])
    ensures MoveTo(db, from, to, overwrite, expected, now) == Step(MoveOver(db, s, p, existing, from, to, now), Done(s))
  {
    UnfoldInv(db, root);
    hide Inv, Resolved, Sound, MoveOver, Named, ResolveDestination;
    PlainName(db.nodes, root, from, s);
    DestinationOfPlainPath(db.nodes, root, to, p);
  }

  // --- symlink and attributes ------------------------------------------------

  /** A new link stands at its path with the stored target, and takes nothing away. */
  lemma SymlinkMakesTheLink(db: Db, root: Id, target: LinkTarget, link: Segments, o: CreateOptions, now: int, p: Id)
    requires Inv(db, root) && link != [] && Resolved(db.nodes, Pop(link)) == Some(p) && p in db.nodes &&
             db.nodes[p].kind.Directory?
    requires Resolved(db.nodes, link).None?
    ensures var s := MakeSymlink(db, target, link, o, now);
            s.outcome == Done(db.nextId) && OnlyAdds(db.nodes, s.db.nodes) &&
            Resolved(s.db.nodes, link) == Some(db.nextId) &&
            db.nextId in s.db.nodes && s.db.nodes[db.nextId].kind.Symlink? &&
            s.db.nodes[db.nextId].target == Some(target.canonical)
  {
    UnfoldInv(db, root);
    FreshIdUnreferenced(db, root);
    SymlinkKeepsInv(db, root, target, link, o, now);
    hide Inv, Sound, Resolved, OnlyAdds, ResolveDestination;
    DestinationOfPlainPath(db.nodes, root, link, p);
    UnresolvedIsFree(db.nodes, root, link);
    var db' := MakeSymlink(db, target, link, o, now).db;
    UnfoldInv(db', root);
    InsertOnlyAdds(db.nodes, db'.nodes, root, db.nextId);
    OnlyAddsResolves(db.nodes, db'.nodes, Pop(link), p);
    ToNamesTheNode(db'.nodes, root, link, p, db.nextId);
  }

  lemma OnlyAddsResolves(a: Nodes, b: Nodes, path: Segments, y: Id)
    requires OnlyAdds(a, b) && Resolved(a, path) == Some(y)
    ensures Resolved(b, path) == Some(y)
  {
  }

  /** Only `x` has other attributes than before, and no path leads elsewhere. */
  ghost predicate OnlyAttributesOf(db: Db, db': Db, x: Id, held: Attributes) {
    AttributesOf(db'.attributes, x) == held &&
    (forall y :: y != x ==> AttributesOf(db'.attributes, y) == AttributesOf(db.attributes, y)) &&
    forall path, y :: Resolved(db.nodes, path) == Some(y) ==> Resolved(db'.nodes, path) == Some(y)
  }

  lemma BumpKeepsPaths(db: Db, root: Id, x: Id, now: int, path: Segments, y: Id)
    requires Inv(db, root) && x in db.nodes && Resolved(db.nodes, path) == Some(y)
    ensures Resolved(db.nodes[x := BumpedNode(db.nodes[x], now)], path) == Some(y)
  {
    UnfoldInv(db, root);
    hide Inv, Sound, Acyclic, NamesDistinct;
    var node := BumpedNode(db.nodes[x], now);
    RestoredChildren(db, root, x, node);
    UnfoldSound(db.nodes[x := node], root);
    RootIsFetched(db.nodes, root);
    RootIsFetched(db.nodes[x := node], root);
    SameWalk(db.nodes, db.nodes[x := node], root, path);
  }

  /** Setting an attribute sets exactly that one. */
  lemma AttributeIsSet(db: Db, root: Id, path: Segments, key: string, value: Bytes, expected: Option<nat>, now: int)
    requires Inv(db, root) && SetAttribute(db, path, key, value, expected, now).outcome.Done?
    ensures Named(db.nodes, path).Ok?
    ensures var x := Named(db.nodes, path).value;
            OnlyAttributesOf(db, SetAttribute(db, path, key, value, expected, now).db, x,
                             AttributesOf(db.attributes, x)[key := value])
  {
    hide Inv, Named, Resolved;
    var x := Named(db.nodes, path).value;
    var s := SetAttribute(db, path, key, value, expected, now);
    forall q, y | Resolved(db.nodes, q) == Some(y) ensures Resolved(s.db.nodes, q) == Some(y) {
      BumpKeepsPaths(db, root, x, now, q, y);
    }
  }

  /** Removing it takes away exactly that one, if it is there. */
  lemma AttributeIsRemoved(db: Db, root: Id, path: Segments, key: string, expected: Option<nat>, now: int)
    requires Inv(db, root) && RemoveAttribute(db, path, key, expected, now).outcome.Done?
    ensures Named(db.nodes, path).Ok?
    ensures var x := Named(db.nodes, path).value;
            OnlyAttributesOf(db, RemoveAttribute(db, path, key, expected, now).db, x,
                             AttributesOf(db.attributes, x) - {key})
  {
    hide Inv, Named, Resolved;
    var x := Named(db.nodes, path).value;
    var s := RemoveAttribute(db, path, key, expected, now);
    assert key !in AttributesOf(db.attributes, x) ==>
        AttributesOf(db.attributes, x) - {key} == AttributesOf(db.attributes, x);
    forall q, y | Resolved(db.nodes, q) == Some(y) ensures Resolved(s.db.nodes, q) == Some(y) {
      BumpKeepsPaths(db, root, x, now, q, y);
    }
  }
}
