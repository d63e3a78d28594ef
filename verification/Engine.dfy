/**
 The storage engine as the code runs it: transactions that update the tables in
 place, with the loops of crates/fslite-sqlite/src (mutate.rs, directory.rs,
 trash.rs, content.rs).  Each method is proved to do to the tables what its
 function in Operations.dfy says.
 */
module Engine {
  import opened Common
  import opened Chunks
  import opened Paths
  import opened Tree
  import opened Resolve
  import opened Store
  import opened Ordering
  import opened Copy
  import opened Operations
  import opened Safety
  import opened Runs
  import opened Failures

  // --- queries ---------------------------------------------------------------

  lemma {:induction false} ClosedUnderChildren(nodes: Nodes, a: Id, ids: set<Id>, c: seq<Id>)
    requires a in ids && Chain(nodes, c) && c[0] == a
    requires forall x :: x in nodes && nodes[x].parent.Some? && nodes[x].parent.value in ids ==> x in ids
    ensures c[|c| - 1] in ids
    decreases |c|
  {
    if |c| > 1 { ClosedUnderChildren(nodes, a, ids, c[..|c| - 1]); }
  }

  /** The recursive query of `purge_subtree`, generation by generation. */
  method QuerySubtree(nodes: Nodes, a: Id) returns (ids: set<Id>)
    requires a in nodes
    ensures ids == Subtree(nodes, a)
  {
    BelowSelf(nodes, a);
    ids := {a};
    var latest := {a};
    while latest != {}
      invariant a in ids && latest <= ids <= nodes.Keys
      invariant forall x :: x in ids ==> Below(nodes, a, x)
      invariant forall x :: x in nodes && nodes[x].parent.Some? && nodes[x].parent.value in ids - latest ==> x in ids
      decreases nodes.Keys - ids, latest != {}
    {
      var next := set x | x in nodes && x !in ids && nodes[x].parent.Some? && nodes[x].parent.value in latest;
      forall x | x in next ensures Below(nodes, a, x) { BelowChild(nodes, a, nodes[x].parent.value, x); }
      ids := ids + next;
      latest := next;
    }
    forall x | Below(nodes, a, x) ensures x in ids {
      var c :| Joins(nodes, c, a, x);
      ClosedUnderChildren(nodes, a, ids, c);
    }
  }

  method QueryNamed(nodes: Nodes, path: Segments, ghost root: Id) returns (r: Result<Id, ErrorCode>)
    requires Sound(nodes, root)
    ensures r == Named(nodes, path)
  {
    var found := ResolveFollowing(nodes, path, false, root);
    match found
    case Found(x) => return Ok(x);
    case NotFound => return Err(NoSuchPath);
    case BrokenLink => return Err(NoSuchPath);
    case LinkLoop => return Err(LinkCycle);
  }

  method QueryDestination(nodes: Nodes, to: Segments, ghost root: Id) returns (d: Destination)
    requires Sound(nodes, root)
    ensures d == ResolveDestination(nodes, to)
  {
    if to == [] { return Refused(AlreadyExists); }
    var found := ResolveFollowing(nodes, Pop(to), true, root);
    if !found.Found? { return Refused(NoSuchPath); }
    if !nodes[found.id].kind.Directory? { return Refused(WrongNodeType); }
    var existing := QueryChild(nodes, found.id, to[|to| - 1]);
    return Ready(found.id, existing);
  }

  // --- the tables ------------------------------------------------------------

  class Workspace {
    const maxFileBytes: nat
    var nodes: Nodes
    var generations: map<Id, Generation>
    var trash: map<Id, TrashRow>
    var attributes: map<Id, Attributes>
    var changes: seq<Change>
    var changeSeq: nat
    var nextId: Id
    ghost const root: Id

    function Snapshot(): Db
      reads this
    {
      Db(nodes, generations, trash, attributes, changes, changeSeq, maxFileBytes, nextId)
    }

    ghost predicate Valid()
      reads this
    {
      Inv(Snapshot(), root)
    }

    constructor (maxFileBytes: nat, now: int)
      ensures Valid() && Snapshot() == NewWorkspace(maxFileBytes, now) && root == 0
    {
      this.maxFileBytes := maxFileBytes;
      nodes, generations, trash, attributes := map[0 := RootNode(now)], map[], map[], map[];
      changes, changeSeq, nextId, root := [], 0, 1, 0;
      NewWorkspaceIsValid(maxFileBytes, now);
    }

    /** A dropped transaction. */
    method Rollback(saved: Db)
      requires saved.maxFileBytes == maxFileBytes
      modifies this
      ensures Snapshot() == saved
    {
      nodes, generations, trash, attributes := saved.nodes, saved.generations, saved.trash, saved.attributes;
      changes, changeSeq, nextId := saved.changes, saved.changeSeq, saved.nextId;
    }

    /** `change::append`. */
    method AppendChange(kind: ChangeKind, node: Option<Id>, oldPath: Option<Segments>, newPath: Option<Segments>,
                        revision: Option<nat>, now: int)
      modifies this`changes, this`changeSeq
      ensures Snapshot() == Store.AppendChange(old(Snapshot()), kind, node, oldPath, newPath, revision, now)
    {
      changeSeq := changeSeq + 1;
      changes := changes + [Change(changeSeq, kind, node, oldPath, newPath, revision, now)];
    }

    method InsertNode(node: Node) returns (id: Id)
      modifies this`nodes, this`nextId
      ensures id == old(nextId) && Snapshot() == Store.InsertNode(old(Snapshot()), node)
    {
      id := nextId;
      nextId := nextId + 1;
      nodes := nodes[id := node];
    }

    /** `purge_subtree`: the row goes, what refers to it cascades, then its generations go. */
    method PurgeSubtree(id: Id)
      requires id in nodes
      modifies this
      ensures Snapshot() == Store.PurgeSubtree(old(Snapshot()), id)
    {
      var doomed := QuerySubtree(nodes, id);
      var dropped := set x | x in doomed && x in nodes && nodes[x].generation.Some? :: nodes[x].generation.value;
      nodes := nodes - doomed;
      attributes := attributes - doomed;
      trash := map t | t in trash && trash[t].node !in doomed :: trash[t];
      generations := generations - dropped;
    }

    // --- mkdir ---------------------------------------------------------------

    method CreateDirectory(parent: Id, name: string, path: Segments, now: int) returns (id: Id)
      modifies this
      ensures id == old(nextId) && Snapshot() == Operations.CreateDirectory(old(Snapshot()), parent, name, path, now)
    {
      id := InsertNode(DirectoryNode(parent, name, now));
      AppendChange(Created, Some(id), None, Some(path), Some(1), now);
    }

    /** The last segment of `mkdir_tx`. */
    method MkdirLeaf(current: Id, at: Segments, leaf: string, o: CreateOptions, now: int) returns (r: Outcome)
      requires Valid() && current in nodes
      modifies this
      ensures Step(Snapshot(), r) == MkdirFrom(old(Snapshot()), current, at, [leaf], o, now)
      ensures Valid()
    {
      hide Inv, Sound, Operations.CreateDirectory;
      UnfoldInv(Snapshot(), root);
      if !nodes[current].kind.Directory? { return Failed(WrongNodeType); }
      var child := QueryChild(nodes, current, leaf);
      if child.Some? {
        if !nodes[child.value].kind.Directory? { return Failed(WrongNodeType); }
        if !o.existOk { return Failed(AlreadyExists); }
        if Conflicts(o.expected, nodes[child.value]) { return Failed(RevisionConflict); }
        return Done(child.value);
      }
      CreateDirectoryKeepsInv(Snapshot(), root, current, leaf, at + [leaf], now);
      var id := CreateDirectory(current, leaf, at + [leaf], now);
      return Done(id);
    }

    /** One ancestor of `mkdir_tx`: the child of that name, created if missing. */
    method MkdirAncestor(current: Id, path: Segments, o: CreateOptions, now: int) returns (r: Result<Id, ErrorCode>)
      requires Valid() && current in nodes && path != []
      modifies this
      ensures r.Ok? ==> Valid() && r.value in nodes
      ensures var before, name := old(Snapshot()), path[|path| - 1];
              var child := FetchChild(before.nodes, current, name);
              if !before.nodes[current].kind.Directory? then r == Err(WrongNodeType) && Snapshot() == before
              else if child.Some? then r == Ok(child.value) && Snapshot() == before
              else if !o.parents then r == Err(NoSuchPath) && Snapshot() == before
              else r == Ok(before.nextId) && Snapshot() == Operations.CreateDirectory(before, current, name, path, now)
    {
      hide Inv, Sound;
      UnfoldInv(Snapshot(), root);
      if !nodes[current].kind.Directory? { return Err(WrongNodeType); }
      var child := QueryChild(nodes, current, path[|path| - 1]);
      if child.Some? { return Ok(child.value); }
      if !o.parents { return Err(NoSuchPath); }
      CreateDirectoryKeepsInv(Snapshot(), root, current, path[|path| - 1], path, now);
      var id := CreateDirectory(current, path[|path| - 1], path, now);
      return Ok(id);
    }

    /** `mkdir_tx`, with the check of its callers that the path is not the root. */
    method Mkdir(path: Segments, o: CreateOptions, now: int) returns (r: Outcome)
      requires Valid()
      modifies this
      ensures Step(Snapshot(), r) == Operations.Mkdir(old(Snapshot()), path, o, now)
      ensures Valid()
    {
      if path == [] { return Failed(AlreadyExists); }
      hide Inv, Sound, Operations.CreateDirectory, FetchChild, MkdirFrom;
      UnfoldInv(Snapshot(), root);
      var top := QueryRoot(nodes, root);
      if top.None? { return Failed(NoSuchPath); }
      var current := top.value;
      ghost var goal := MkdirFrom(Snapshot(), current, [], path, o, now);
      assert path[..0] == [] && path[0..] == path;
      for i := 0 to |path| - 1
        invariant Valid() && current in nodes && MkdirFrom(Snapshot(), current, path[..i], path[i..], o, now) == goal
      {
        MkdirTurn(Snapshot(), current, path, i, o, now);
        var next := MkdirAncestor(current, path[..i + 1], o, now);
        if next.Err? { return Failed(next.error); }
        current := next.value;
      }
      var last := |path| - 1;
      assert path[last..] == [path[last]];
      r := MkdirLeaf(current, path[..last], path[last], o, now);
    }

    /** `symlink_tx`. */
    method MakeSymlink(target: LinkTarget, link: Segments, o: CreateOptions, now: int) returns (r: Outcome)
      requires Valid()
      modifies this
      ensures Step(Snapshot(), r) == Operations.MakeSymlink(old(Snapshot()), target, link, o, now)
      ensures Valid()
    {
      if link == [] { return Failed(AlreadyExists); }
      hide Inv, Sound, ResolveDestination;
      UnfoldInv(Snapshot(), root);
      var d := QueryDestination(nodes, link, root);
      if d.Refused? { return Failed(d.code); }
      if d.existing.Some? {
        var x := d.existing.value;
        if !nodes[x].kind.Symlink? { return Failed(WrongNodeType); }
        if !o.existOk { return Failed(AlreadyExists); }
        if Conflicts(o.expected, nodes[x]) { return Failed(RevisionConflict); }
        return Done(x);
      }
      var id := InsertNode(LinkNode(d.parent, link[|link| - 1], target.canonical, now));
      AppendChange(Created, Some(id), None, Some(link), Some(1), now);
      SymlinkKeepsInv(old(Snapshot()), root, target, link, o, now);
      return Done(id);
    }

    // --- copy, move, remove --------------------------------------------------

    /** One turn of the loop of `copy_subtree`: the inserts for one entry. */
    method CopyOne(e: Pending, now: int) returns (id: Id)
      requires e.source in nodes
      modifies this
      ensures id == old(nextId) && Snapshot() == Copy.CopyOne(old(Snapshot()), e, now)
    {
      var n := nodes[e.source];
      id := nextId;
      nextId := nextId + 2;
      if n.kind.File? && n.generation.Some? {
        var copied := if n.generation.value in generations then generations[n.generation.value].rows else map[];
        generations := generations[id + 1 := Generation(true, n.size, copied)];
      }
      nodes := nodes[id := CopiedNode(n, e, id, now)];
      if e.source in attributes { attributes := attributes[id := attributes[e.source]]; }
    }

    /** `copy_subtree`, where it returns at all. */
    method CopySubtree(source: Id, parent: Id, name: string, now: int) returns (id: Id)
      requires source in nodes && Copy.CopySubtree(Snapshot(), source, parent, name, now).Some?
      modifies this
      ensures id == old(nextId) && Some(Snapshot()) == Copy.CopySubtree(old(Snapshot()), source, parent, name, now)
    {
      var stack := [Pending(source, parent, name)];
      ghost var goal := Copy.CopySubtree(Snapshot(), source, parent, name, now);
      ghost var fuel: nat :| CopyLoop(Snapshot(), stack, now, fuel) == goal;
      hide Copy.CopyOne, Copy.CopySubtree;
      id := nextId;
      while stack != []
        invariant SourcesExist(Snapshot(), stack) && CopyLoop(Snapshot(), stack, now, fuel) == goal
        decreases fuel
      {
        ghost var before := Snapshot();
        var e := stack[|stack| - 1];
        NextStackExists(before, stack, now);
        ghost var next := NextStack(before, stack, now);
        stack := stack[..|stack| - 1];
        var kind := nodes[e.source].kind;
        var copy := CopyOne(e, now);
        if kind.Directory? {
          var rows := SortRows(ChildKeys(nodes, e.source));
          stack := stack + Pushes(rows, copy);
        }
        assert stack == next;
        fuel := fuel - 1;
      }
    }

    /** `copy_tx`. */
    method CopyTo(from: Segments, to: Segments, recursive: bool, overwrite: bool, expected: Option<nat>, now: int)
      returns (r: Outcome)
      requires Valid() && Operations.CopyTo(Snapshot(), from, to, recursive, overwrite, expected, now).Some?
      modifies this
      ensures Some(Step(Snapshot(), r)) == Operations.CopyTo(old(Snapshot()), from, to, recursive, overwrite, expected,
                                                             now)
      ensures Valid()
    {
      CopyKeepsInv(Snapshot(), root, from, to, recursive, overwrite, expected, now);
      hide Inv, Sound, Named, ResolveDestination, Operations.CopyOver;
      UnfoldInv(Snapshot(), root);
      var named := QueryNamed(nodes, from, root);
      if named.Err? { return Failed(named.error); }
      var source := named.value;
      if Conflicts(expected, nodes[source]) { return Failed(RevisionConflict); }
      if nodes[source].kind.Directory? && !recursive { return Failed(WrongNodeType); }
      DestinationOrRefused(Snapshot(), root, to);
      var d := QueryDestination(nodes, to, root);
      if d.Refused? { return Failed(d.code); }
      if d.existing.Some? && !overwrite { return Failed(AlreadyExists); }
      r := CopyOver(source, d.parent, d.existing, from, to, now);
    }

    /** The changes of `copy_tx`; a source that the purge has removed rolls the transaction back. */
    method CopyOver(source: Id, parent: Id, existing: Option<Id>, from: Segments, to: Segments, now: int)
        returns (r: Outcome)
      requires to != [] && (existing.Some? ==> existing.value in nodes)
      requires Operations.CopyOver(Snapshot(), source, parent, existing, from, to, now).Some?
      modifies this
      ensures Some(Step(Snapshot(), r)) == Operations.CopyOver(old(Snapshot()), source, parent, existing, from, to, now)
    {
      hide Store.PurgeSubtree, Copy.CopySubtree;
      var saved := Snapshot();
      if existing.Some? { PurgeSubtree(existing.value); }
      if !Active(nodes, source) {
        Rollback(saved);
        return Failed(StorageFailure);
      }
      var id := CopySubtree(source, parent, to[|to| - 1], now);
      AppendChange(Copied, Some(id), Some(from), Some(to), Some(1), now);
      return Done(id);
    }

    /** `move_tx`. */
    method MoveTo(from: Segments, to: Segments, overwrite: bool, expected: Option<nat>, now: int) returns (r: Outcome)
      requires Valid()
      modifies this
      ensures Step(Snapshot(), r) == Operations.MoveTo(old(Snapshot()), from, to, overwrite, expected, now)
      ensures Valid() <==> !MovesBelowItself(old(Snapshot()), from, to, overwrite, expected)
    {
      MoveKeepsInvIff(Snapshot(), root, from, to, overwrite, expected, now);
      if from == [] { return Failed(PermissionDenied); }
      hide MovesBelowItself, Inv, Sound, Named, ResolveDestination, Operations.MoveOver;
      UnfoldInv(Snapshot(), root);
      var named := QueryNamed(nodes, from, root);
      if named.Err? { return Failed(named.error); }
      var source := named.value;
      if Conflicts(expected, nodes[source]) { return Failed(RevisionConflict); }
      if from <= to { return Failed(PermissionDenied); }
      DestinationOrRefused(Snapshot(), root, to);
      var d := QueryDestination(nodes, to, root);
      if d.Refused? { return Failed(d.code); }
      if d.existing.Some? && !overwrite { return Failed(AlreadyExists); }
      MoveOver(source, d.parent, d.existing, from, to, now);
      return Done(source);
    }

    /** The changes of `move_tx`: an update of a row that the purge has removed does nothing. */
    method MoveOver(source: Id, parent: Id, existing: Option<Id>, from: Segments, to: Segments, now: int)
      requires to != [] && source in nodes && (existing.Some? ==> existing.value in nodes)
      modifies this
      ensures Snapshot() == Operations.MoveOver(old(Snapshot()), source, parent, existing, from, to, now)
    {
      hide Store.PurgeSubtree;
      var read := nodes[source];
      if existing.Some? { PurgeSubtree(existing.value); }
      if source in nodes { nodes := nodes[source := MovedNode(read, parent, to[|to| - 1], now)]; }
      AppendChange(Moved, Some(source), Some(from), Some(to), Some(read.revision + 1), now);
    }

    /** `remove_tx`. */
    method Remove(path: Segments, recursive: bool, expected: Option<nat>, now: int) returns (r: Outcome)
      requires Valid()
      modifies this
      ensures Step(Snapshot(), r) == Operations.Remove(old(Snapshot()), path, recursive, expected, now)
      ensures Valid()
    {
      RemoveKeepsInv(Snapshot(), root, path, recursive, expected, now);
      if path == [] { return Failed(PermissionDenied); }
      hide Inv, Sound, Named, Store.PurgeSubtree;
      UnfoldInv(Snapshot(), root);
      var named := QueryNamed(nodes, path, root);
      if named.Err? { return Failed(named.error); }
      var x := named.value;
      if Conflicts(expected, nodes[x]) { return Failed(RevisionConflict); }
      var occupied := exists y :: y in nodes && ActiveChild(nodes, x, y);
      assert occupied <==> exists y :: ActiveChild(nodes, x, y);
      if nodes[x].kind.Directory? && !recursive && occupied { return Failed(DirectoryNotEmpty); }
      PurgeSubtree(x);
      AppendChange(Removed, Some(x), Some(path), None, None, now);
      return Finished;
    }

    // --- trash ---------------------------------------------------------------

    /** `trash_tx`. */
    method TrashPath(path: Segments, expected: Option<nat>, now: int) returns (r: Outcome)
      requires Valid()
      modifies this
      ensures Step(Snapshot(), r) == Operations.TrashPath(old(Snapshot()), path, expected, now)
      ensures Valid()
    {
      if path == [] { return Failed(PermissionDenied); }
      hide Inv, Sound, Named, MarkTrashed, Store.AppendChange;
      UnfoldInv(Snapshot(), root);
      var named := QueryNamed(nodes, path, root);
      if named.Err? { return Failed(named.error); }
      var x := named.value;
      if Conflicts(expected, nodes[x]) { return Failed(RevisionConflict); }
      if nodes[x].parent.None? { return Failed(StorageFailure); }
      var record := PutInTrash(x, path, now);
      TrashKeepsInv(old(Snapshot()), root, path, expected, now);
      return InTrash(record);
    }

    /** The updates of `trash_tx`. */
    method PutInTrash(x: Id, path: Segments, now: int) returns (record: Id)
      requires x in nodes && nodes[x].parent.Some?
      modifies this
      ensures var before := old(Snapshot());
              record == before.nextId &&
              Snapshot() == Store.AppendChange(MarkTrashed(before, x, now), Trashed, Some(x), Some(path), None,
                                               Some(before.nodes[x].revision), now)
    {
      record := nextId;
      nextId := nextId + 1;
      trash := trash[record := TrashRow(x, nodes[x].parent.value, nodes[x].name, now)];
      nodes := nodes[x := nodes[x].(trashedAt := Some(now))];
      AppendChange(Trashed, Some(x), Some(path), None, Some(nodes[x].revision), now);
    }

    method QueryRestorePlace(row: TrashRow, destination: Option<Segments>) returns (r: Result<(Id, string), ErrorCode>)
      requires Valid()
      ensures r == RestorePlace(nodes, row, destination)
    {
      hide Inv, Sound, ResolveDestination;
      UnfoldInv(Snapshot(), root);
      if destination.Some? {
        var to := destination.value;
        DestinationOrRefused(Snapshot(), root, to);
        var d := QueryDestination(nodes, to, root);
        return if d.Refused? then Err(d.code) else Ok((d.parent, to[|to| - 1]));
      }
      if !Active(nodes, row.originalParent) { return Err(NoSuchPath); }
      if !nodes[row.originalParent].kind.Directory? { return Err(WrongNodeType); }
      return Ok((row.originalParent, row.originalName));
    }

    /** `restore_tx`. */
    method Restore(record: Id, destination: Option<Segments>, expected: Option<nat>, now: int) returns (r: Outcome)
      requires Valid()
      modifies this
      ensures Step(Snapshot(), r) == Operations.Restore(old(Snapshot()), record, destination, expected, now)
      ensures Valid()
    {
      hide Inv, Sound, RestorePlace, Unmark, Store.AppendChange;
      UnfoldInv(Snapshot(), root);
      if record !in trash { return Failed(NoSuchPath); }
      var row := trash[record];
      if row.node !in nodes { return Failed(NoSuchPath); }
      var n := nodes[row.node];
      if Conflicts(expected, n) { return Failed(RevisionConflict); }
      var place := QueryRestorePlace(row, destination);
      if place.Err? { return Failed(place.error); }
      var (parent, name) := place.value;
      var occupant := QueryChild(nodes, parent, name);
      if occupant.Some? { return Failed(AlreadyExists); }
      Reattach(record, parent, name, now);
      RestoreKeepsInv(old(Snapshot()), root, record, destination, expected, now);
      return Done(row.node);
    }

    /** The updates of `restore_tx`. */
    method Reattach(record: Id, parent: Id, name: string, now: int)
      requires record in trash && trash[record].node in nodes
      modifies this
      ensures var before := old(Snapshot());
              var x := before.trash[record].node;
              Snapshot() == Store.AppendChange(Unmark(before, record, parent, name, now), Restored, Some(x), None, None,
                                               Some(before.nodes[x].revision + 1), now)
    {
      var x := trash[record].node;
      var n := nodes[x];
      nodes := nodes[x := n.(parent := Some(parent), name := name, trashedAt := None, revision := n.revision + 1,
                             modifiedAt := now)];
      trash := trash - {record};
      AppendChange(Restored, Some(x), None, None, Some(n.revision + 1), now);
    }

    /** `purge_tx`. */
    method Purge(record: Id, now: int) returns (r: Outcome)
      requires Valid()
      modifies this
      ensures Step(Snapshot(), r) == Operations.Purge(old(Snapshot()), record, now)
      ensures Valid()
    {
      PurgeRecordKeepsInv(Snapshot(), root, record, now);
      if record !in trash { return Failed(NoSuchPath); }
      RecordIsNotRoot(Snapshot(), root, record);
      hide Inv, Store.PurgeSubtree;
      var x := trash[record].node;
      AppendChange(ChangeKind.Purged, Some(x), None, None, None, now);
      PurgeSubtree(x);
      return Finished;
    }

    // --- attributes ----------------------------------------------------------

    /** The updates of an attribute request. */
    method PutAttributes(x: Id, held: Attributes, kind: ChangeKind, path: Segments, now: int)
      requires x in nodes
      modifies this
      ensures var before := old(Snapshot());
              var updated := UpdateNode(before, x, BumpedNode(before.nodes[x], now)).(attributes :=
                  before.attributes[x := held]);
              Snapshot() == Store.AppendChange(updated, kind, Some(x), None, Some(path),
                                               Some(before.nodes[x].revision + 1), now)
    {
      attributes := attributes[x := held];
      nodes := nodes[x := BumpedNode(nodes[x], now)];
      AppendChange(kind, Some(x), None, Some(path), Some(nodes[x].revision), now);
    }

    /** `set_attribute_tx`. */
    method SetAttribute(path: Segments, key: string, value: Bytes, expected: Option<nat>, now: int) returns (r: Outcome)
      requires Valid()
      modifies this
      ensures Step(Snapshot(), r) == Operations.SetAttribute(old(Snapshot()), path, key, value, expected, now)
      ensures Valid()
    {
      SetAttributeKeepsInv(Snapshot(), root, path, key, value, expected, now);
      hide Inv, Sound, Named, Store.AppendChange;
      UnfoldInv(Snapshot(), root);
      var named := QueryNamed(nodes, path, root);
      if named.Err? { return Failed(named.error); }
      var x := named.value;
      if Utf8Len(key) == 0 || Utf8Len(key) > MAX_ATTRIBUTE_KEY_BYTES { return Failed(InvalidName); }
      if |value| > MAX_ATTRIBUTE_VALUE_BYTES { return Failed(OverQuota); }
      if Conflicts(expected, nodes[x]) { return Failed(RevisionConflict); }
      var held := AttributesOf(attributes, x);
      if key !in held && |held| >= MAX_ATTRIBUTES_PER_NODE { return Failed(OverQuota); }
      PutAttributes(x, held[key := value], AttributeSet, path, now);
      return Done(x);
    }

    /** `remove_attribute_tx`. */
    method RemoveAttribute(path: Segments, key: string, expected: Option<nat>, now: int) returns (r: Outcome)
      requires Valid()
      modifies this
      ensures Step(Snapshot(), r) == Operations.RemoveAttribute(old(Snapshot()), path, key, expected, now)
      ensures Valid()
    {
      RemoveAttributeKeepsInv(Snapshot(), root, path, key, expected, now);
      hide Inv, Sound, Named, Store.AppendChange;
      UnfoldInv(Snapshot(), root);
      var named := QueryNamed(nodes, path, root);
      if named.Err? { return Failed(named.error); }
      var x := named.value;
      if Conflicts(expected, nodes[x]) { return Failed(RevisionConflict); }
      var held := AttributesOf(attributes, x);
      if key in held { PutAttributes(x, held - {key}, AttributeRemoved, path, now); }
      return Done(x);
    }

    // --- file content --------------------------------------------------------

    /** `finalize_tx` on a new file. */
    method FinalizeNew(path: Segments, parent: Id, g: Id, length: nat, now: int) returns (id: Id)
      requires g in generations && path != []
      modifies this
      ensures id == old(nextId) && Snapshot() == Operations.FinalizeNew(old(Snapshot()), path, parent, g, length, now)
    {
      id := InsertNode(FileNode(parent, path[|path| - 1], length, g, now));
      generations := generations[g := generations[g].(complete := true, length := length)];
      AppendChange(Created, Some(id), None, Some(path), Some(1), now);
    }

    /** `finalize_tx` on an existing file: the generation it had is deleted last. */
    method FinalizeExisting(path: Segments, x: Id, g: Id, length: nat, now: int)
      requires g in generations && x in nodes
      modifies this
      ensures Snapshot() == Operations.FinalizeExisting(old(Snapshot()), path, x, g, length, now)
    {
      var before := nodes[x];
      nodes := nodes[x := RewrittenNode(before, length, g, now)];
      generations := generations[g := generations[g].(complete := true, length := length)];
      AppendChange(Modified, Some(x), None, Some(path), Some(before.revision + 1), now);
      if before.generation.Some? && before.generation.value != g {
        generations := generations - {before.generation.value};
      }
    }

    method Finalize(path: Segments, g: Id, length: nat, create: bool, expected: Option<nat>, now: int)
        returns (r: Outcome)
      requires Sound(nodes, root) && g in generations
      modifies this
      ensures Step(Snapshot(), r) == Operations.Finalize(old(Snapshot()), path, g, length, create, expected, now)
    {
      hide Sound, Resolved, Operations.FinalizeNew, Operations.FinalizeExisting;
      var existing := ResolvePlain(nodes, path, root);
      if existing.None? {
        if path == [] { return Failed(NoSuchPath); }
        var parent := ResolvePlain(nodes, Pop(path), root);
        if parent.None? { return Failed(NoSuchPath); }
        if !nodes[parent.value].kind.Directory? { return Failed(WrongNodeType); }
        if !create { return Failed(NoSuchPath); }
        var id := FinalizeNew(path, parent.value, g, length, now);
        return Done(id);
      }
      var x := existing.value;
      if !nodes[x].kind.File? { return Failed(WrongNodeType); }
      if Conflicts(expected, nodes[x]) { return Failed(RevisionConflict); }
      FinalizeExisting(path, x, g, length, now);
      return Done(x);
    }

    /** `touch_tx`. */
    method Touch(path: Segments, create: bool, expected: Option<nat>, now: int) returns (r: Outcome)
      requires Valid()
      modifies this
      ensures Step(Snapshot(), r) == Operations.Touch(old(Snapshot()), path, create, expected, now)
      ensures Valid()
    {
      hide Inv, Sound, Resolved, Operations.Finalize;
      UnfoldInv(Snapshot(), root);
      var existing := ResolvePlain(nodes, path, root);
      if existing.Some? {
        var x := existing.value;
        if !nodes[x].kind.File? { return Failed(WrongNodeType); }
        if Conflicts(expected, nodes[x]) { return Failed(RevisionConflict); }
        UpdateKeepsInv(Snapshot(), root, x, BumpedNode(nodes[x], now).(accessedAt := now));
        nodes := nodes[x := BumpedNode(nodes[x], now).(accessedAt := now)];
        return Done(x);
      }
      if !create { return Failed(NoSuchPath); }
      var g := StoreGeneration(RowsOf([]));
      generations := generations[g := generations[g].(complete := true, length := 0)];
      r := Finalize(path, g, 0, true, None, now);
      TouchKeepsInv(old(Snapshot()), root, path, create, expected, now);
    }

    /** `create_generation` and the chunk rows staged under it. */
    method StoreGeneration(rows: Rows) returns (g: Id)
      modifies this`generations, this`nextId
      ensures g == old(nextId) && g in generations && Snapshot() == StageGeneration(old(Snapshot()), rows)
    {
      g := nextId;
      nextId := nextId + 1;
      generations := generations[g := Generation(false, 0, rows)];
    }

    /** `finalize`: on failure the staged generation is deleted again. */
    method Commit(rows: Rows, ghost content: Bytes, length: nat, path: Segments, create: bool, expected: Option<nat>,
                  now: int)
      returns (r: Outcome)
      requires Valid() && rows == RowsOf(content) && length == |content|
      modifies this
      ensures Step(Snapshot(), r) == Operations.Commit(old(Snapshot()), path, content, create, expected, now)
    {
      hide Inv, Sound, RowsOf, Operations.Finalize;
      UnfoldInv(Snapshot(), root);
      UnusedId(Snapshot(), root);
      ghost var before := Snapshot();
      var g := StoreGeneration(rows);
      r := Finalize(path, g, length, create, expected, now);
      if r.Failed? {
        FailedFinalize(StageGeneration(before, rows), path, g, length, create, expected, now);
        generations := generations - {g};
        nextId := g;
        assert generations == before.generations;
      }
    }

    /** `write`. */
    method Write(path: Segments, source: seq<Item>, create: bool, expected: Option<nat>, now: int) returns (r: Outcome)
      requires Valid()
      modifies this
      ensures Step(Snapshot(), r) == Operations.Write(old(Snapshot()), path, source, create, expected, now)
      ensures Valid()
    {
      WriteKeepsInv(Snapshot(), root, path, source, create, expected, now);
      hide Inv, Operations.Commit, RowsOf;
      var staged := StageSource(source, maxFileBytes);
      if staged.Err? { return Failed(StageCode(staged.error)); }
      r := Commit(staged.value.0, Gather(source), staged.value.1, path, create, expected, now);
    }

    /** `write_at_impl` from the generation to replace, if any, on. */
    method Rewrite(path: Segments, prior: Option<Rows>, priorLength: nat, ghost content: Bytes, offset: nat,
                   source: seq<Item>,
                   create: bool, expected: Option<nat>, preserve: bool, now: int)
      returns (r: Outcome)
      requires Valid() && |content| == priorLength <= maxFileBytes
      requires if prior.Some? then prior.value == RowsOf(content) else content == []
      modifies this
      ensures Step(Snapshot(), r) == Operations.Rewrite(old(Snapshot()), path, content, offset, source, create,
                                                        expected, preserve, now)
    {
      hide Inv, Operations.Commit, RowsOf, Staged;
      var staged := StageWriteAt(prior, priorLength, offset, source, maxFileBytes, preserve, content);
      if staged.Err? { return Failed(StageCode(staged.error)); }
      r := Commit(staged.value.0, Staged(content, offset, Gather(source), preserve), staged.value.1, path, create,
                  expected, now);
    }

    /** `write_at_impl`. */
    method WriteAt(path: Segments, offset: nat, source: seq<Item>, create: bool, expected: Option<nat>, preserve: bool,
                   now: int)
      returns (r: Outcome)
      requires Valid()
      modifies this
      ensures Step(Snapshot(), r) == Operations.WriteAt(old(Snapshot()), path, offset, source, create, expected,
                                                        preserve, now)
      ensures Valid()
    {
      WriteAtKeepsInv(Snapshot(), root, path, offset, source, create, expected, preserve, now);
      hide Inv, Sound, Operations.Rewrite, RowsOf, Resolved, FileContent;
      UnfoldInv(Snapshot(), root);
      var existing := ResolvePlain(nodes, path, root);
      if existing.None? {
        if !create { return Failed(NoSuchPath); }
        r := Rewrite(path, None, 0, [], offset, source, create, expected, preserve, now);
      } else {
        var x := existing.value;
        if !nodes[x].kind.File? { return Failed(WrongNodeType); }
        ContentHasSize(Snapshot(), root, x);
        var g := nodes[x].generation.value;
        r := Rewrite(path, Some(generations[g].rows), nodes[x].size, FileContent(Snapshot(), x), offset, source, create,
                     expected, preserve, now);
      }
    }

    /** `append`. */
    method Append(path: Segments, source: seq<Item>, create: bool, expected: Option<nat>, now: int) returns (r: Outcome)
      requires Valid()
      modifies this
      ensures Step(Snapshot(), r) == Operations.Append(old(Snapshot()), path, source, create, expected, now)
      ensures Valid()
    {
      AppendOrTruncateKeepsInv(Snapshot(), root, path, source, 0, create, expected, now);
      hide Inv, Sound, Operations.WriteAt, Resolved;
      UnfoldInv(Snapshot(), root);
      var existing := ResolvePlain(nodes, path, root);
      if existing.Some? && !nodes[existing.value].kind.File? { return Failed(WrongNodeType); }
      var offset := if existing.Some? then nodes[existing.value].size else 0;
      r := WriteAt(path, offset, source, create, expected, true, now);
    }

    /** `truncate`. */
    method Truncate(path: Segments, length: nat, expected: Option<nat>, now: int) returns (r: Outcome)
      requires Valid()
      modifies this
      ensures Step(Snapshot(), r) == Operations.Truncate(old(Snapshot()), path, length, expected, now)
      ensures Valid()
    {
      AppendOrTruncateKeepsInv(Snapshot(), root, path, [], length, false, expected, now);
      r := WriteAt(path, length, [], false, expected, false, now);
    }

    // --- batch ---------------------------------------------------------------

    /** `execute_batch_operation`. */
    method Execute(op: Operation, now: int) returns (r: Outcome)
      requires Valid() && Apply(Snapshot(), op, now).Some?
      modifies this
      ensures Some(Step(Snapshot(), r)) == Apply(old(Snapshot()), op, now)
      ensures Valid() <==> !HangsBelowItself(old(Snapshot()), op)
    {
      hide Inv, MovesBelowItself, Operations.Mkdir, Operations.MakeSymlink, Operations.CopyTo;
      hide Operations.MoveTo, Operations.Remove;
      hide Operations.TrashPath, Operations.Restore, Operations.Purge, Operations.SetAttribute;
      hide Operations.RemoveAttribute;
      hide Operations.Touch, Operations.Write, Operations.WriteAt, Operations.Append, Operations.Truncate;
      match op
      case OpMkdir(path, o) => r := Mkdir(path, o, now);
      case OpTouch(path, create, expected) => r := Touch(path, create, expected, now);
      case OpCopy(from, to, recursive, overwrite, expected) =>
        r := CopyTo(from, to, recursive, overwrite, expected, now);
      case OpMove(from, to, overwrite, expected) => r := MoveTo(from, to, overwrite, expected, now);
      case OpRemove(path, recursive, expected) => r := Remove(path, recursive, expected, now);
      case OpSymlink(target, link, o) => r := MakeSymlink(target, link, o, now);
      case OpTrash(path, expected) => r := TrashPath(path, expected, now);
      case OpRestore(record, destination, expected) => r := Restore(record, destination, expected, now);
      case OpPurge(record) => r := Purge(record, now);
      case OpSetAttribute(path, key, value, expected) => r := SetAttribute(path, key, value, expected, now);
      case OpRemoveAttribute(path, key, expected) => r := RemoveAttribute(path, key, expected, now);
      case OpWrite(path, source, create, expected) => r := Write(path, source, create, expected, now);
      case OpWriteAt(path, offset, source, create, expected) =>
        r := WriteAt(path, offset, source, create, expected, true, now);
      case OpAppend(path, source, create, expected) => r := Append(path, source, create, expected, now);
      case OpTruncate(path, length, expected) => r := Truncate(path, length, expected, now);
    }

    /** `batch`. */
    method Batch(held: set<Capability>, requests: seq<Request>) returns (r: BatchOutcome)
      requires Valid() && BatchUpright(Snapshot(), held, requests, 0)
      modifies this
      ensures Some(BatchStep(Snapshot(), r)) == Failures.Batch(old(Snapshot()), held, requests)
      ensures Valid()
    {
      hide Inv, Apply, HangsBelowItself;
      var saved := Snapshot();
      var results: seq<Outcome> := [];
      for i := 0 to |requests|
        invariant Valid() && BatchUpright(Snapshot(), held, requests, i)
        invariant BatchFrom(saved, Snapshot(), held, requests, i, results) == Failures.Batch(saved, held, requests)
      {
        if RequiredCapability(requests[i].op) !in held {
          Rollback(saved);
          return Stopped(i, PermissionDenied);
        }
        var outcome := Execute(requests[i].op, requests[i].now);
        if outcome.Failed? {
          Rollback(saved);
          return Stopped(i, outcome.code);
        }
        results := results + [outcome];
      }
      return Completed(results);
    }
  }

  lemma MkdirTurn(db: Db, current: Id, path: Segments, i: nat, o: CreateOptions, now: int)
    requires current in db.nodes && i < |path| - 1
    ensures var child := FetchChild(db.nodes, current, path[i]);
            MkdirFrom(db, current, path[..i], path[i..], o, now) ==
            if !db.nodes[current].kind.Directory? then Step(db, Failed(WrongNodeType))
            else if child.Some? then MkdirFrom(db, child.value, path[..i + 1], path[i + 1..], o, now)
            else if !o.parents then Step(db, Failed(NoSuchPath))
            else MkdirFrom(Operations.CreateDirectory(db, current, path[i], path[..i + 1], now), db.nextId,
                           path[..i + 1], path[i + 1..], o, now)
  {
    assert path[i..][0] == path[i] && path[i..][1..] == path[i + 1..] && path[..i] + [path[i]] == path[..i + 1];
  }

  lemma UnusedId(db: Db, root: Id)
    requires Inv(db, root)
    ensures db.nextId !in db.generations
  {
  }

  /** From request `i` on, every request of the batch returns and no move hangs a node below itself. */
  ghost predicate BatchUpright(db: Db, held: set<Capability>, requests: seq<Request>, i: nat)
    requires i <= |requests|
    decreases |requests| - i
  {
    i < |requests| && RequiredCapability(requests[i].op) in held ==>
      !HangsBelowItself(db, requests[i].op) &&
      var r := Apply(db, requests[i].op, requests[i].now);
      r.Some? && (r.value.outcome.Failed? || BatchUpright(r.value.db, held, requests, i + 1))
  }

  lemma DestinationOrRefused(db: Db, root: Id, to: Segments)
    requires Inv(db, root)
    ensures var d := ResolveDestination(db.nodes, to);
            d.Ready? ==> to != [] && d.parent in db.nodes && (d.existing.Some? ==> d.existing.value in db.nodes)
  {
    if ResolveDestination(db.nodes, to).Ready? { DestinationIsProper(db.nodes, root, to); }
  }
}
