/**
 Every transaction but a move keeps the invariant of Store.dfy; copies and moves,
 and runs of all of them, are in Runs.dfy.
 */
module Safety {
  import opened Common
  import opened Chunks
  import opened Paths
  import opened Tree
  import opened Resolve
  import opened Store
  import opened Copy
  import opened Operations

  // --- what resolution hands to a transaction ---------------------------------

  lemma NamedIsProper(nodes: Nodes, root: Id, path: Segments)
    requires Sound(nodes, root) && Named(nodes, path).Ok?
    ensures Active(nodes, Named(nodes, path).value) && Live(nodes, Named(nodes, path).value)
    ensures path != [] ==> Named(nodes, path).value != root && nodes[Named(nodes, path).value].parent.Some?
  {
    RootIsFetched(nodes, root);
    FoundIsLive(nodes, root, path, false);
    if path != [] { FollowedHasParent(nodes, root, path, 0, 0); }
  }

  lemma DestinationIsProper(nodes: Nodes, root: Id, to: Segments)
    requires Sound(nodes, root) && ResolveDestination(nodes, to).Ready?
    ensures var d := ResolveDestination(nodes, to);
            to != [] && Live(nodes, d.parent) && Active(nodes, d.parent) && nodes[d.parent].kind.Directory? &&
            d.existing == FetchChild(nodes, d.parent, to[|to| - 1]) &&
            (d.existing.Some? ==> d.existing.value != root)
  {
    FoundIsLive(nodes, root, Pop(to), true);
  }

  lemma AppendKeepsInv(db: Db, root: Id, kind: ChangeKind, node: Option<Id>, oldPath: Option<Segments>,
                       newPath: Option<Segments>, revision: Option<nat>, now: int)
    requires Inv(db, root)
    ensures Inv(AppendChange(db, kind, node, oldPath, newPath, revision, now), root)
  {
    hide Sound, FilesOk, TrashOk, AttributesOk;
  }

  // --- creating --------------------------------------------------------------

  lemma CreateDirectoryKeepsInv(db: Db, root: Id, parent: Id, name: string, path: Segments, now: int)
    requires Inv(db, root) && parent in db.nodes && db.nodes[parent].kind.Directory? &&
             FetchChild(db.nodes, parent, name).None?
    ensures Inv(CreateDirectory(db, parent, name, path, now), root)
  {
    InsertKeepsInv(db, root, DirectoryNode(parent, name, now));
    AppendKeepsInv(InsertNode(db, DirectoryNode(parent, name, now)), root, Created, Some(db.nextId), None, Some(path),
                   Some(1), now);
  }

  lemma {:induction false} MkdirKeepsInvFrom(db: Db, root: Id, current: Id, at: Segments, segments: Segments,
                                             o: CreateOptions, now: int)
    requires Inv(db, root) && current in db.nodes && segments != []
    ensures Inv(MkdirFrom(db, current, at, segments, o, now).db, root)
    decreases |segments|
  {
    hide Inv;
    var name := segments[0];
    if db.nodes[current].kind.Directory? {
      var child := FetchChild(db.nodes, current, name);
      if child.None? { CreateDirectoryKeepsInv(db, root, current, name, at + [name], now); }
      if |segments| > 1 {
        if child.Some? {
          MkdirKeepsInvFrom(db, root, child.value, at + [name], segments[1..], o, now);
        } else {
          MkdirKeepsInvFrom(CreateDirectory(db, current, name, at + [name], now), root, db.nextId, at + [name],
                            segments[1..], o, now);
        }
      }
    }
  }

  lemma MkdirKeepsInv(db: Db, root: Id, path: Segments, o: CreateOptions, now: int)
    requires Inv(db, root)
    ensures Inv(Mkdir(db, path, o, now).db, root)
  {
    hide Inv;
    if path != [] && FetchRoot(db.nodes).Some? {
      MkdirKeepsInvFrom(db, root, FetchRoot(db.nodes).value, [], path, o, now);
    }
  }

  lemma SymlinkKeepsInv(db: Db, root: Id, target: LinkTarget, link: Segments, o: CreateOptions, now: int)
    requires Inv(db, root)
    ensures Inv(MakeSymlink(db, target, link, o, now).db, root)
  {
    UnfoldInv(db, root);
    hide Inv, ResolveDestination;
    if link != [] && ResolveDestination(db.nodes, link).Ready? && ResolveDestination(db.nodes, link).existing.None? {
      DestinationIsProper(db.nodes, root, link);
      var parent := ResolveDestination(db.nodes, link).parent;
      var node := LinkNode(parent, link[|link| - 1], target.canonical, now);
      InsertKeepsInv(db, root, node);
      AppendKeepsInv(InsertNode(db, node), root, Created, Some(db.nextId), None, Some(link), Some(1), now);
    }
  }

  // --- removing, trashing, restoring ------------------------------------------

  /** A removal is a purge and a note of it. */
  lemma RemoveIs(db: Db, path: Segments, recursive: bool, expected: Option<nat>, now: int)
    ensures var s := Remove(db, path, recursive, expected, now);
            if s.outcome.Finished?
            then path != [] && Named(db.nodes, path).Ok? &&
                 s.db == AppendChange(PurgeSubtree(db, Named(db.nodes, path).value), Removed,
                                      Some(Named(db.nodes, path).value),
                                      Some(path), None, None, now)
            else s.db == db
  {
    hide Named, PurgeSubtree, AppendChange;
  }

  lemma RemoveKeepsInv(db: Db, root: Id, path: Segments, recursive: bool, expected: Option<nat>, now: int)
    requires Inv(db, root)
    ensures Inv(Remove(db, path, recursive, expected, now).db, root)
  {
    hide Inv, Named, PurgeSubtree, Remove, Sound;
    UnfoldInv(db, root);
    RemoveIs(db, path, recursive, expected, now);
    if Remove(db, path, recursive, expected, now).outcome.Finished? {
      var x := Named(db.nodes, path).value;
      NamedIsProper(db.nodes, root, path);
      PurgeKeepsInv(db, root, x);
      AppendKeepsInv(PurgeSubtree(db, x), root, Removed, Some(x), Some(path), None, None, now);
    }
  }

  lemma TrashKeepsInv(db: Db, root: Id, path: Segments, expected: Option<nat>, now: int)
    requires Inv(db, root)
    ensures Inv(TrashPath(db, path, expected, now).db, root)
  {
    UnfoldInv(db, root);
    hide Inv, Named, MarkTrashed;
    if path != [] && Named(db.nodes, path).Ok? {
      var x := Named(db.nodes, path).value;
      NamedIsProper(db.nodes, root, path);
      MarkKeepsInv(db, root, x, now);
      AppendKeepsInv(MarkTrashed(db, x, now), root, Trashed, Some(x), Some(path), None, Some(db.nodes[x].revision),
                     now);
    }
  }

  /**
   A trashed node is never restored into its own subtree: what is reachable is not below it, nor is its old parent.
   */
  lemma RestorePlaceIsOutside(db: Db, root: Id, record: Id, destination: Option<Segments>)
    requires Inv(db, root) && record in db.trash && RestorePlace(db.nodes, db.trash[record], destination).Ok?
    ensures var place := RestorePlace(db.nodes, db.trash[record], destination).value;
            Active(db.nodes, place.0) && db.nodes[place.0].kind.Directory? &&
            !Below(db.nodes, db.trash[record].node, place.0)
  {
    var row := db.trash[record];
    UnfoldInv(db, root);
    assert TrashOk(db.nodes, db.trash, root);
    if destination.Some? {
      DestinationIsProper(db.nodes, root, destination.value);
      var parent := ResolveDestination(db.nodes, destination.value).parent;
      if Below(db.nodes, row.node, parent) {
        var path :| Resolved(db.nodes, path) == Some(parent);
        ReachableBelowIsActive(db.nodes, root, path, row.node, parent);
        ActiveBelowIsBelow(db.nodes, row.node, parent);
      }
    } else {
      NotBelowOwnChild(db.nodes, row.originalParent, row.node);
    }
  }

  lemma RestoreKeepsInv(db: Db, root: Id, record: Id, destination: Option<Segments>, expected: Option<nat>, now: int)
    requires Inv(db, root)
    ensures Inv(Restore(db, record, destination, expected, now).db, root)
  {
    hide Inv, RestorePlace, Unmark;
    if record in db.trash && db.trash[record].node in db.nodes &&
        RestorePlace(db.nodes, db.trash[record], destination).Ok?
    {
      var (parent, name) := RestorePlace(db.nodes, db.trash[record], destination).value;
      RestorePlaceIsOutside(db, root, record, destination);
      if FetchChild(db.nodes, parent, name).None? {
        UnmarkKeepsInv(db, root, record, parent, name, now);
        AppendKeepsInv(Unmark(db, record, parent, name, now), root, Restored, Some(db.trash[record].node), None, None,
                       Some(db.nodes[db.trash[record].node].revision + 1), now);
      }
    }
  }

  lemma RecordIsNotRoot(db: Db, root: Id, record: Id)
    requires Inv(db, root) && record in db.trash
    ensures db.trash[record].node != root && db.trash[record].node in db.nodes
  {
  }

  lemma PurgeRecordKeepsInv(db: Db, root: Id, record: Id, now: int)
    requires Inv(db, root)
    ensures Inv(Purge(db, record, now).db, root)
  {
    hide Inv, PurgeSubtree;
    if record in db.trash {
      var x := db.trash[record].node;
      RecordIsNotRoot(db, root, record);
      AppendKeepsInv(db, root, ChangeKind.Purged, Some(x), None, None, None, now);
      PurgeKeepsInv(AppendChange(db, ChangeKind.Purged, Some(x), None, None, None, now), root, x);
    }
  }

  // --- attributes ------------------------------------------------------------

  lemma AttributesKeepInv(db: Db, root: Id, x: Id, attributes: Attributes)
    requires Inv(db, root) && x in db.nodes && |attributes| <= MAX_ATTRIBUTES_PER_NODE
    requires forall key :: key in attributes ==> AttributeOk(key, attributes[key])
    ensures Inv(db.(attributes := db.attributes[x := attributes]), root)
  {
    hide Sound, FilesOk, TrashOk;
  }

  lemma AttributesAreOk(db: Db, root: Id, x: Id)
    requires Inv(db, root)
    ensures |AttributesOf(db.attributes, x)| <= MAX_ATTRIBUTES_PER_NODE
    ensures forall key :: key in AttributesOf(db.attributes, x) ==>
            AttributeOk(key, AttributesOf(db.attributes, x)[key])
  {
  }

  lemma SizeAfterInsert(a: Attributes, key: string, value: Bytes)
    ensures |a[key := value]| == if key in a then |a| else |a| + 1
    ensures |a - {key}| <= |a|
  {
    assert a[key := value].Keys == a.Keys + {key};
    assert (a - {key}).Keys == a.Keys - {key};
  }

  lemma SetAttributeKeepsInv(db: Db, root: Id, path: Segments, key: string, value: Bytes, expected: Option<nat>,
                             now: int)
    requires Inv(db, root)
    ensures Inv(SetAttribute(db, path, key, value, expected, now).db, root)
  {
    hide Inv, Named;
    var s := SetAttribute(db, path, key, value, expected, now);
    if s.outcome.Done? {
      var x := Named(db.nodes, path).value;
      var attributes := AttributesOf(db.attributes, x);
      AttributesAreOk(db, root, x);
      SizeAfterInsert(attributes, key, value);
      UpdateKeepsInv(db, root, x, BumpedNode(db.nodes[x], now));
      AttributesKeepInv(UpdateNode(db, x, BumpedNode(db.nodes[x], now)), root, x, attributes[key := value]);
      AppendKeepsInv(UpdateNode(db, x, BumpedNode(db.nodes[x], now)).(attributes :=
          db.attributes[x := attributes[key := value]]),
                     root, AttributeSet, Some(x), None, Some(path), Some(db.nodes[x].revision + 1), now);
    }
  }

  lemma RemoveAttributeKeepsInv(db: Db, root: Id, path: Segments, key: string, expected: Option<nat>, now: int)
    requires Inv(db, root)
    ensures Inv(RemoveAttribute(db, path, key, expected, now).db, root)
  {
    hide Inv, Named;
    var s := RemoveAttribute(db, path, key, expected, now);
    if s.outcome.Done? {
      var x := Named(db.nodes, path).value;
      var attributes := AttributesOf(db.attributes, x);
      AttributesAreOk(db, root, x);
      SizeAfterInsert(attributes, key, []);
      UpdateKeepsInv(db, root, x, BumpedNode(db.nodes[x], now));
      AttributesKeepInv(UpdateNode(db, x, BumpedNode(db.nodes[x], now)), root, x, attributes - {key});
      AppendKeepsInv(UpdateNode(db, x, BumpedNode(db.nodes[x], now)).(attributes :=
          db.attributes[x := attributes - {key}]),
                     root, AttributeRemoved, Some(x), None, Some(path), Some(db.nodes[x].revision + 1), now);
    }
  }

  // --- file content ----------------------------------------------------------

  ghost predicate Unreferenced(nodes: Nodes, g: Id) { forall x :: x in nodes ==> nodes[x].generation != Some(g) }

  /** A generation that holds `content` and belongs to no node yet. */
  ghost predicate Holds(db: Db, g: Id, content: Bytes) {
    g in db.generations && db.generations[g].rows == RowsOf(content) && Unreferenced(db.nodes, g)
  }

  lemma GenerationOfFile(nodes: Nodes, generations: map<Id, Generation>, maxFileBytes: nat, x: Id)
    requires FilesOk(nodes, generations, maxFileBytes) && x in nodes
    ensures nodes[x].kind.File? <==> nodes[x].generation.Some?
    ensures nodes[x].generation.Some? ==> nodes[x].generation.value in generations
  {
    assert KindOk(nodes[x], generations, maxFileBytes);
  }

  /** Changing the table of generations apart from those in use. */
  lemma OtherGenerationsKeepFiles(nodes: Nodes, before: map<Id, Generation>, after: map<Id, Generation>,
                                  maxFileBytes: nat)
    requires FilesOk(nodes, before, maxFileBytes)
    requires forall g :: g in before && !Unreferenced(nodes, g) ==> g in after && after[g] == before[g]
    ensures FilesOk(nodes, after, maxFileBytes)
  {
    forall x | x in nodes ensures KindOk(nodes[x], after, maxFileBytes) {
      assert KindOk(nodes[x], before, maxFileBytes);
      if nodes[x].generation.Some? { assert !Unreferenced(nodes, nodes[x].generation.value); }
    }
  }

  lemma FreshIdUnreferenced(db: Db, root: Id)
    requires Inv(db, root)
    ensures Unreferenced(db.nodes, db.nextId) && db.nextId !in db.generations && db.nextId !in db.nodes
  {
    forall x | x in db.nodes ensures db.nodes[x].generation != Some(db.nextId) {
      GenerationOfFile(db.nodes, db.generations, db.maxFileBytes, x);
    }
  }

  lemma StageKeepsInv(db: Db, root: Id, content: Bytes)
    requires Inv(db, root)
    ensures Inv(StageGeneration(db, RowsOf(content)), root)
    ensures Holds(StageGeneration(db, RowsOf(content)), db.nextId, content)
  {
    FreshIdUnreferenced(db, root);
    OtherGenerationsKeepFiles(db.nodes, db.generations, StageGeneration(db, RowsOf(content)).generations,
                              db.maxFileBytes);
    hide Sound, FilesOk, TrashOk, AttributesOk;
  }

  lemma CompleteKeepsInv(db: Db, root: Id, g: Id, content: Bytes)
    requires Inv(db, root) && Holds(db, g, content)
    ensures Inv(CompleteGeneration(db, g, |content|), root) && Holds(CompleteGeneration(db, g, |content|), g, content)
  {
    OtherGenerationsKeepFiles(db.nodes, db.generations, CompleteGeneration(db, g, |content|).generations,
                              db.maxFileBytes);
    hide Sound, FilesOk, TrashOk, AttributesOk;
  }

  lemma CompletedIsOk(node: Node, content: Bytes, maxFileBytes: nat)
    requires node.size == |content| <= maxFileBytes
    ensures FileOk(node, Generation(true, |content|, RowsOf(content)), maxFileBytes)
    ensures ContentOf(Generation(true, |content|, RowsOf(content))) == content
  {
    FlattenRowsOf(content);
  }

  lemma FinalizeNewKeepsInv(db: Db, root: Id, path: Segments, parent: Id, g: Id, content: Bytes, now: int)
    requires Inv(db, root) && Holds(db, g, content) && |content| <= db.maxFileBytes && path != []
    requires parent in db.nodes && db.nodes[parent].kind.Directory? &&
             FetchChild(db.nodes, parent, path[|path| - 1]).None?
    ensures Inv(FinalizeNew(db, path, parent, g, |content|, now), root)
  {
    CompleteKeepsInv(db, root, g, content);
    var completed := CompleteGeneration(db, g, |content|);
    var node := FileNode(parent, path[|path| - 1], |content|, g, now);
    CompletedIsOk(node, content, db.maxFileBytes);
    hide Inv, RowsOf, FileOk;
    assert completed.generations[g] == Generation(true, |content|, RowsOf(content));
    InsertKeepsInv(completed, root, node);
    AppendKeepsInv(InsertNode(completed, node), root, Created, Some(db.nextId), None, Some(path), Some(1), now);
  }

  /** Another generation for one file; the one it had is dropped. */
  lemma SwapKeepsFiles(nodes: Nodes, generations: map<Id, Generation>, maxFileBytes: nat, x: Id, node: Node, g: Id)
    requires FilesOk(nodes, generations, maxFileBytes) && x in nodes && node.kind.File? && node.generation == Some(g)
    requires g in generations && FileOk(node, generations[g], maxFileBytes) && Unreferenced(nodes, g)
    ensures FilesOk(nodes[x := node], generations, maxFileBytes)
    ensures nodes[x].generation.Some? ==>
            FilesOk(nodes[x := node], generations - {nodes[x].generation.value}, maxFileBytes)
  {
    var nodes' := nodes[x := node];
    forall y | y in nodes' ensures KindOk(nodes'[y], generations, maxFileBytes) {
      if y != x { assert KindOk(nodes[y], generations, maxFileBytes); }
    }
    if nodes[x].generation.Some? {
      var old' := nodes[x].generation.value;
      forall y | y in nodes' ensures nodes'[y].generation != Some(old') { }
      OtherGenerationsKeepFiles(nodes', generations, generations - {old'}, maxFileBytes);
    }
  }

  lemma FileHasGeneration(db: Db, root: Id, x: Id)
    requires Inv(db, root) && x in db.nodes
    ensures db.nodes[x].kind.File? <==> db.nodes[x].generation.Some?
    ensures db.nodes[x].generation.Some? ==> db.nodes[x].generation.value in db.generations
  {
    GenerationOfFile(db.nodes, db.generations, db.maxFileBytes, x);
  }

  lemma SwapKeepsInv(db: Db, root: Id, x: Id, node: Node, g: Id)
    requires Inv(db, root) && x in db.nodes && db.nodes[x].kind.File? && SamePlace(db.nodes[x], node)
    requires node.generation == Some(g) && g in db.generations && Unreferenced(db.nodes, g)
    requires FileOk(node, db.generations[g], db.maxFileBytes)
    ensures db.nodes[x].generation.Some? && Inv(Swapped(db, x, node), root)
  {
    hide FileOk, Sound, FilesOk, TrashOk, AttributesOk, KindOk, RowsOf, ContentOf, Unreferenced;
    FileHasGeneration(db, root, x);
    SwapKeepsFiles(db.nodes, db.generations, db.maxFileBytes, x, node, g);
    UpdateKeepsSound(db.nodes, root, x, node);
    UpdateKeepsTrash(db.nodes, db.trash, root, x, node);
    UpdateKeepsAttributes(db.nodes, db.attributes, x, node);
  }

  function Swapped(db: Db, x: Id, node: Node): Db
    requires x in db.nodes && db.nodes[x].generation.Some?
  {
    UpdateNode(db, x, node).(generations := db.generations - {db.nodes[x].generation.value})
  }

  lemma FinalizeExistingSwaps(db: Db, path: Segments, x: Id, g: Id, length: nat, now: int)
    requires g in db.generations && x in db.nodes && db.nodes[x].generation.Some? && db.nodes[x].generation.value != g
    ensures FinalizeExisting(db, path, x, g, length, now) ==
            AppendChange(Swapped(CompleteGeneration(db, g, length), x, RewrittenNode(db.nodes[x], length, g, now)),
                         Modified, Some(x), None, Some(path), Some(db.nodes[x].revision + 1), now)
  {
  }

  lemma FinalizeExistingKeepsInv(db: Db, root: Id, path: Segments, x: Id, g: Id, content: Bytes, now: int)
    requires Inv(db, root) && Holds(db, g, content) && |content| <= db.maxFileBytes
    requires x in db.nodes && db.nodes[x].kind.File?
    ensures Inv(FinalizeExisting(db, path, x, g, |content|, now), root)
  {
    hide RowsOf, FileOk, Inv, FinalizeExisting, Swapped, AppendChange;
    FileHasGeneration(db, root, x);
    CompleteKeepsInv(db, root, g, content);
    var completed := CompleteGeneration(db, g, |content|);
    var node := RewrittenNode(db.nodes[x], |content|, g, now);
    CompletedIsOk(node, content, db.maxFileBytes);
    assert completed.generations[g] == Generation(true, |content|, RowsOf(content));
    SwapKeepsInv(completed, root, x, node, g);
    AppendKeepsInv(Swapped(completed, x, node), root, Modified, Some(x), None, Some(path),
                   Some(db.nodes[x].revision + 1), now);
    FinalizeExistingSwaps(db, path, x, g, |content|, now);
  }

  lemma UpdateKeepsSound(nodes: Nodes, root: Id, x: Id, node: Node)
    requires Sound(nodes, root) && x in nodes && SamePlace(nodes[x], node)
    ensures Sound(nodes[x := node], root)
  {
    UpdateKeepsTree(nodes, root, x, node);
    UpdateKeepsNames(nodes, x, node);
  }

  lemma UpdateKeepsAttributes(nodes: Nodes, attributes: map<Id, Attributes>, x: Id, node: Node)
    requires AttributesOk(nodes, attributes) && x in nodes
    ensures AttributesOk(nodes[x := node], attributes)
  {
  }

  /** A free place: an existing directory without an active child of that name. */
  lemma UnresolvedIsFree(nodes: Nodes, root: Id, path: Segments)
    requires Sound(nodes, root) && path != [] && Resolved(nodes, path).None? && Resolved(nodes, Pop(path)).Some?
    ensures var p := Resolved(nodes, Pop(path)).value;
            p in nodes && (nodes[p].kind.Directory? ==> FetchChild(nodes, p, path[|path| - 1]).None?)
  {
    ResolvedChild(nodes, root, Pop(path), Resolved(nodes, Pop(path)).value, path[|path| - 1]);
    assert Pop(path) + [path[|path| - 1]] == path;
  }

  lemma FinalizeKeepsInv(db: Db, root: Id, path: Segments, g: Id, content: Bytes, create: bool, expected: Option<nat>,
                         now: int)
    requires Inv(db, root) && Holds(db, g, content) && |content| <= db.maxFileBytes
    ensures Inv(Finalize(db, path, g, |content|, create, expected, now).db, root)
  {
    UnfoldInv(db, root);
    assert g in db.generations;
    hide Inv, Resolved, FinalizeNew, FinalizeExisting, Holds;
    match Resolved(db.nodes, path)
    case Some(x) =>
      if db.nodes[x].kind.File? { FinalizeExistingKeepsInv(db, root, path, x, g, content, now); }
    case None =>
      if path != [] && Resolved(db.nodes, Pop(path)).Some? {
        UnresolvedIsFree(db.nodes, root, path);
        if db.nodes[Resolved(db.nodes, Pop(path)).value].kind.Directory? {
          FinalizeNewKeepsInv(db, root, path, Resolved(db.nodes, Pop(path)).value, g, content, now);
        }
      }
  }

  lemma TouchKeepsInv(db: Db, root: Id, path: Segments, create: bool, expected: Option<nat>, now: int)
    requires Inv(db, root)
    ensures Inv(Touch(db, path, create, expected, now).db, root)
  {
    hide Inv, Resolved, Finalize, RowsOf, Holds;
    match Resolved(db.nodes, path)
    case Some(x) =>
      UpdateKeepsInv(db, root, x, BumpedNode(db.nodes[x], now).(accessedAt := now));
    case None =>
      StageKeepsInv(db, root, []);
      StagedIsThere(db, []);
      CompleteKeepsInv(StageGeneration(db, RowsOf([])), root, db.nextId, []);
      FinalizeKeepsInv(CompleteGeneration(StageGeneration(db, RowsOf([])), db.nextId, 0), root, path, db.nextId, [],
                       true, None, now);
  }

  lemma StagedIsThere(db: Db, content: Bytes)
    ensures db.nextId in StageGeneration(db, RowsOf(content)).generations
  {
  }

  lemma CommitKeepsInv(db: Db, root: Id, path: Segments, content: Bytes, create: bool, expected: Option<nat>, now: int)
    requires Inv(db, root) && |content| <= db.maxFileBytes
    ensures Inv(Commit(db, path, content, create, expected, now).db, root)
  {
    hide Inv, RowsOf, Finalize;
    StageKeepsInv(db, root, content);
    FinalizeKeepsInv(StageGeneration(db, RowsOf(content)), root, path, db.nextId, content, create, expected, now);
  }

  /** Inside the invariant the content of a file has its size. */
  lemma ContentHasSize(db: Db, root: Id, x: Id)
    requires Inv(db, root) && x in db.nodes && db.nodes[x].kind.File?
    ensures |FileContent(db, x)| == db.nodes[x].size <= db.maxFileBytes
    ensures db.nodes[x].generation.Some? && db.nodes[x].generation.value in db.generations
    ensures db.generations[db.nodes[x].generation.value].rows == RowsOf(FileContent(db, x))
  {
    assert KindOk(db.nodes[x], db.generations, db.maxFileBytes);
  }

  lemma WriteKeepsInv(db: Db, root: Id, path: Segments, source: seq<Item>, create: bool, expected: Option<nat>,
                      now: int)
    requires Inv(db, root)
    ensures Inv(Write(db, path, source, create, expected, now).db, root)
  {
    hide Inv, Commit;
    FeedSucceedsIff(0, source, db.maxFileBytes);
    if Feed(0, source, db.maxFileBytes).None? { CommitKeepsInv(db, root, path, Gather(source), create, expected, now); }
  }

  lemma RewriteKeepsInv(db: Db, root: Id, path: Segments, prior: Bytes, offset: nat, source: seq<Item>, create: bool,
                        expected: Option<nat>, preserve: bool, now: int)
    requires Inv(db, root) && |prior| <= db.maxFileBytes
    ensures Inv(Rewrite(db, path, prior, offset, source, create, expected, preserve, now).db, root)
  {
    hide Inv, Commit, Staged;
    StagingSucceedsIff(prior, offset, source, db.maxFileBytes, preserve);
    if StageFailure(|prior|, offset, source, db.maxFileBytes).None? {
      CommitKeepsInv(db, root, path, Staged(prior, offset, Gather(source), preserve), create, expected, now);
    }
  }

  lemma WriteAtKeepsInv(db: Db, root: Id, path: Segments, offset: nat, source: seq<Item>, create: bool,
                        expected: Option<nat>, preserve: bool, now: int)
    requires Inv(db, root)
    ensures Inv(WriteAt(db, path, offset, source, create, expected, preserve, now).db, root)
  {
    hide Inv, Rewrite, Resolved, FileContent;
    match Resolved(db.nodes, path)
    case Some(x) =>
      if db.nodes[x].kind.File? {
        ContentHasSize(db, root, x);
        RewriteKeepsInv(db, root, path, FileContent(db, x), offset, source, create, expected, preserve, now);
      }
    case None =>
      RewriteKeepsInv(db, root, path, [], offset, source, create, expected, preserve, now);
  }

  lemma AppendOrTruncateKeepsInv(db: Db, root: Id, path: Segments, source: seq<Item>, length: nat, create: bool,
                                 expected: Option<nat>, now: int)
    requires Inv(db, root)
    ensures Inv(Append(db, path, source, create, expected, now).db, root)
    ensures Inv(Truncate(db, path, length, expected, now).db, root)
  {
    hide Inv, WriteAt, Resolved;
    WriteAtKeepsInv(db, root, path, length, [], false, expected, false, now);
    match Resolved(db.nodes, path)
    case Some(x) => WriteAtKeepsInv(db, root, path, db.nodes[x].size, source, create, expected, true, now);
    case None => WriteAtKeepsInv(db, root, path, 0, source, create, expected, true, now);
  }
}
