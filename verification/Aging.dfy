/**
 What no transaction ever does to what was there before: stored generations are
 never rewritten, ids never come back, revisions never fall, a file whose revision
 stands still keeps its generation, and the change feed only grows.
 */
module Aging {
  import opened Common
  import opened Chunks
  import opened Paths
  import opened Tree
  import opened Resolve
  import opened Store
  import opened Copy
  import opened Operations
  import opened Safety
  import opened Runs

  ghost predicate NodesAge(a: Db, b: Db) {
    forall x :: x in b.nodes && x < a.nextId ==>
      x in a.nodes && a.nodes[x].revision <= b.nodes[x].revision &&
      (a.nodes[x].revision == b.nodes[x].revision ==> a.nodes[x].generation == b.nodes[x].generation)
  }

  /** Old generations are kept as they are or deleted; those that no file uses stay, unused. */
  ghost predicate GenerationsAge(a: Db, b: Db, own: Id) {
    (forall g :: g in b.generations && g < a.nextId && g != own ==>
        g in a.generations && b.generations[g] == a.generations[g]) &&
    forall g: Id :: g < a.nextId && g != own && Unreferenced(a.nodes, g) ==>
      Unreferenced(b.nodes, g) && (g in a.generations ==> g in b.generations)
  }

  /** No id is in use that the counter has not reached. */
  ghost predicate Fresh(db: Db) {
    IdsFresh(db) && forall x :: x in db.nodes && db.nodes[x].generation.Some? ==>
        db.nodes[x].generation.value < db.nextId
  }

  lemma InvIsFresh(db: Db, root: Id)
    requires Inv(db, root)
    ensures Fresh(db)
  {
    forall x | x in db.nodes && db.nodes[x].generation.Some? ensures db.nodes[x].generation.value < db.nextId {
      GenerationOfFile(db.nodes, db.generations, db.maxFileBytes, x);
    }
  }

  lemma FreshIsUnreferenced(db: Db)
    requires Fresh(db)
    ensures IdsFresh(db) && Unreferenced(db.nodes, db.nextId) && db.nextId !in db.generations &&
            db.nextId !in db.nodes && db.nextId !in db.trash
  {
  }

  /** `b` may follow `a`; only the generation `own` may be used or dropped by its writer. */
  ghost predicate Ages(a: Db, b: Db, own: Id) {
    a.nextId <= b.nextId && a.maxFileBytes == b.maxFileBytes && a.changes <= b.changes && (Fresh(a) ==> Fresh(b)) &&
    NodesAge(a, b) && GenerationsAge(a, b, own)
  }

  /** Nothing is put in the trash, and the feed reports nothing of that kind. */
  ghost predicate SameTrashings(a: Db, b: Db) {
    a.changes <= b.changes && (forall i :: |a.changes| <= i < |b.changes| ==> b.changes[i].kind != Trashed) &&
    forall t :: t in b.trash ==> t in a.trash && b.trash[t] == a.trash[t]
  }

  /** What every transaction but `trash_tx` does. */
  ghost predicate Steady(a: Db, b: Db, own: Id) { Ages(a, b, own) && SameTrashings(a, b) }

  lemma AgesSelf(a: Db, own: Id)
    ensures Steady(a, a, own)
  {
  }

  lemma AgesTwice(a: Db, b: Db, c: Db, own: Id, late: Id)
    requires Ages(a, b, own) && Ages(b, c, late) && (late == own || late >= a.nextId)
    ensures Ages(a, c, own)
  {
    hide Unreferenced, IdsFresh;
  }

  lemma SteadyTwice(a: Db, b: Db, c: Db, own: Id, late: Id)
    requires Steady(a, b, own) && Steady(b, c, late) && (late == own || late >= a.nextId)
    ensures Steady(a, c, own)
  {
    AgesTwice(a, b, c, own, late);
    hide Ages;
  }

  // --- the basic row operations ----------------------------------------------

  lemma AppendAges(db: Db, kind: ChangeKind, node: Option<Id>, oldPath: Option<Segments>, newPath: Option<Segments>,
                   revision: Option<nat>, now: int, own: Id)
    requires kind != Trashed
    ensures Steady(db, AppendChange(db, kind, node, oldPath, newPath, revision, now), own)
  {
  }

  lemma InsertAges(db: Db, node: Node, own: Id)
    requires node.generation.Some? ==> node.generation.value == own < db.nextId
    ensures Steady(db, InsertNode(db, node), own)
  {
  }

  lemma UpdateAges(db: Db, x: Id, node: Node, own: Id)
    requires x in db.nodes && db.nodes[x].revision <= node.revision && db.nodes[x].generation == node.generation
    ensures Steady(db, UpdateNode(db, x, node), own)
  {
    var db' := UpdateNode(db, x, node);
    forall g: Id | Unreferenced(db.nodes, g) ensures Unreferenced(db'.nodes, g) {
      assert db.nodes[x].generation != Some(g);
    }
  }

  lemma PurgeAges(db: Db, x: Id, own: Id)
    ensures Steady(db, PurgeSubtree(db, x), own)
  {
    var db' := PurgeSubtree(db, x);
    forall g | Unreferenced(db.nodes, g) ensures g !in GenerationsOf(db.nodes, Subtree(db.nodes, x)) {
      assert forall y :: y in Subtree(db.nodes, x) && y in db.nodes && db.nodes[y].generation.Some? ==>
          db.nodes[y].generation != Some(g);
    }
  }

  lemma StageAges(db: Db, rows: Rows)
    ensures Steady(db, StageGeneration(db, rows), db.nextId)
  {
  }

  lemma CompleteAges(db: Db, g: Id, length: nat)
    requires g in db.generations
    ensures Steady(db, CompleteGeneration(db, g, length), g)
  {
  }

  lemma AttributesAge(db: Db, attributes: map<Id, Attributes>, own: Id)
    ensures Steady(db, db.(attributes := attributes), own)
  {
  }

  /** A trash mark is recorded together with its change. */
  lemma MarkAges(db: Db, x: Id, path: Segments, revision: Option<nat>, now: int, own: Id)
    requires x in db.nodes && db.nodes[x].parent.Some? && db.nextId !in db.trash
    ensures Ages(db, AppendChange(MarkTrashed(db, x, now), Trashed, Some(x), Some(path), None, revision, now), own)
  {
    UpdateAges(db, x, db.nodes[x].(trashedAt := Some(now)), own);
  }

  lemma UnmarkAges(db: Db, record: Id, parent: Id, name: string, now: int, own: Id)
    requires record in db.trash && db.trash[record].node in db.nodes
    ensures Steady(db, Unmark(db, record, parent, name, now), own)
  {
    var x := db.trash[record].node;
    UpdateAges(db, x, Unmark(db, record, parent, name, now).nodes[x], own);
  }

  // --- transactions ----------------------------------------------------------

  lemma CreateDirectoryAges(db: Db, parent: Id, name: string, path: Segments, now: int, own: Id)
    ensures Steady(db, CreateDirectory(db, parent, name, path, now), own)
  {
    hide Steady;
    var node := DirectoryNode(parent, name, now);
    InsertAges(db, node, own);
    AppendAges(InsertNode(db, node), Created, Some(db.nextId), None, Some(path), Some(1), now, own);
    SteadyTwice(db, InsertNode(db, node), CreateDirectory(db, parent, name, path, now), own, own);
  }

  lemma {:induction false} MkdirFromAges(db: Db, current: Id, at: Segments, segments: Segments, o: CreateOptions,
                                         now: int, own: Id)
    requires current in db.nodes && segments != []
    ensures Steady(db, MkdirFrom(db, current, at, segments, o, now).db, own)
    decreases |segments|
  {
    hide Steady;
    AgesSelf(db, own);
    var path := at + [segments[0]];
    CreateDirectoryAges(db, current, segments[0], path, now, own);
    if db.nodes[current].kind.Directory? && |segments| > 1 {
      var child := FetchChild(db.nodes, current, segments[0]);
      if child.Some? {
        MkdirFromAges(db, child.value, path, segments[1..], o, now, own);
      } else {
        var made := CreateDirectory(db, current, segments[0], path, now);
        MkdirFromAges(made, db.nextId, path, segments[1..], o, now, own);
        SteadyTwice(db, made, MkdirFrom(made, db.nextId, path, segments[1..], o, now).db, own, own);
      }
    }
  }

  lemma MkdirAges(db: Db, path: Segments, o: CreateOptions, now: int, own: Id)
    ensures Steady(db, Mkdir(db, path, o, now).db, own)
  {
    hide Steady, MkdirFrom;
    AgesSelf(db, own);
    if path != [] && FetchRoot(db.nodes).Some? { MkdirFromAges(db, FetchRoot(db.nodes).value, [], path, o, now, own); }
  }

  lemma SymlinkAges(db: Db, target: LinkTarget, link: Segments, o: CreateOptions, now: int, own: Id)
    ensures Steady(db, MakeSymlink(db, target, link, o, now).db, own)
  {
    hide Steady, ResolveDestination;
    AgesSelf(db, own);
    if link != [] && ResolveDestination(db.nodes, link).Ready? {
      var node := LinkNode(ResolveDestination(db.nodes, link).parent, link[|link| - 1], target.canonical, now);
      InsertAges(db, node, own);
      var made := InsertNode(db, node);
      AppendAges(made, Created, Some(db.nextId), None, Some(link), Some(1), now, own);
      SteadyTwice(db, made, AppendChange(made, Created, Some(db.nextId), None, Some(link), Some(1), now), own, own);
    }
  }

  lemma CopyOneAges(db: Db, e: Pending, now: int, own: Id)
    requires e.source in db.nodes
    ensures Steady(db, CopyOne(db, e, now), own)
  {
  }

  /** Whatever the loop copies, and whether or not it is what was asked for. */
  lemma {:induction false} CopyLoopAges(db: Db, stack: seq<Pending>, now: int, fuel: nat, own: Id)
    requires SourcesExist(db, stack) && CopyLoop(db, stack, now, fuel).Some?
    ensures Steady(db, CopyLoop(db, stack, now, fuel).value, own)
    decreases fuel
  {
    hide Steady, CopyOne, NextStack;
    AgesSelf(db, own);
    if stack != [] {
      NextStackExists(db, stack, now);
      var next := CopyOne(db, stack[|stack| - 1], now);
      CopyOneAges(db, stack[|stack| - 1], now, own);
      CopyLoopAges(next, NextStack(db, stack, now), now, fuel - 1, own);
      SteadyTwice(db, next, CopyLoop(db, stack, now, fuel).value, own, own);
    }
  }

  lemma CopySubtreeAges(db: Db, source: Id, parent: Id, name: string, now: int, own: Id)
    requires source in db.nodes && CopySubtree(db, source, parent, name, now).Some?
    ensures Steady(db, CopySubtree(db, source, parent, name, now).value, own)
  {
    hide Steady, CopyLoop;
    var stack := [Pending(source, parent, name)];
    var fuel :| CopyLoop(db, stack, now, fuel).Some? &&
        CopySubtree(db, source, parent, name, now) == CopyLoop(db, stack, now, fuel);
    CopyLoopAges(db, stack, now, fuel, own);
  }

  lemma CopyAges(db: Db, from: Segments, to: Segments, recursive: bool, overwrite: bool, expected: Option<nat>,
                 now: int, own: Id)
    requires CopyTo(db, from, to, recursive, overwrite, expected, now).Some?
    ensures Steady(db, CopyTo(db, from, to, recursive, overwrite, expected, now).value.db, own)
  {
    hide Steady, Named, Followed, CopyOver;
    AgesSelf(db, own);
    if Named(db.nodes, from).Ok? && ResolveDestination(db.nodes, to).Ready? {
      var source := Named(db.nodes, from).value;
      var d := ResolveDestination(db.nodes, to);
      if CopyOver(db, source, d.parent, d.existing, from, to, now).Some? {
        CopyOverAges(db, source, d.parent, d.existing, from, to, now, own);
      }
    }
  }

  lemma ClearedAges(db: Db, existing: Option<Id>, own: Id)
    ensures Steady(db, Cleared(db, existing), own)
  {
    hide Steady, PurgeSubtree;
    AgesSelf(db, own);
    if existing.Some? { PurgeAges(db, existing.value, own); }
  }

  lemma CopyOverAges(db: Db, source: Id, parent: Id, existing: Option<Id>, from: Segments, to: Segments, now: int,
                     own: Id)
    requires to != [] && CopyOver(db, source, parent, existing, from, to, now).Some?
    ensures Steady(db, CopyOver(db, source, parent, existing, from, to, now).value.db, own)
  {
    hide Steady, CopySubtree, PurgeSubtree;
    AgesSelf(db, own);
    var cleared := Cleared(db, existing);
    ClearedAges(db, existing, own);
    if Active(cleared.nodes, source) {
      var final := CopySubtree(cleared, source, parent, to[|to| - 1], now).value;
      CopySubtreeAges(cleared, source, parent, to[|to| - 1], now, own);
      SteadyTwice(db, cleared, final, own, own);
      AppendAges(final, Copied, Some(cleared.nextId), Some(from), Some(to), Some(1), now, own);
      SteadyTwice(db, final, AppendChange(final, Copied, Some(cleared.nextId), Some(from), Some(to), Some(1), now), own,
                  own);
    }
  }

  lemma MoveAges(db: Db, from: Segments, to: Segments, overwrite: bool, expected: Option<nat>, now: int, own: Id)
    ensures Steady(db, MoveTo(db, from, to, overwrite, expected, now).db, own)
  {
    hide Steady, Named, ResolveDestination, MoveTo, MoveOver, PurgeSubtree;
    if MoveTo(db, from, to, overwrite, expected, now).outcome.Done? {
      AcceptedMove(db, from, to, overwrite, expected, now);
      var source, d := Named(db.nodes, from).value, ResolveDestination(db.nodes, to);
      MoveOverIs(db, source, d.parent, d.existing, from, to, now);
      MoveOverAges(db, source, d.parent, d.existing, from, to, now, own);
    } else {
      RefusedMove(db, from, to, overwrite, expected, now);
      AgesSelf(db, own);
    }
  }

  lemma MoveOverAges(db: Db, source: Id, parent: Id, existing: Option<Id>, from: Segments, to: Segments, now: int,
                     own: Id)
    requires to != [] && source in db.nodes
    ensures Steady(db, MoveOver(db, source, parent, existing, from, to, now), own)
  {
    hide Steady, MoveOver;
    MoveOverIs(db, source, parent, existing, from, to, now);
    var cleared := Cleared(db, existing);
    ClearedAges(db, existing, own);
    var node := MovedNode(db.nodes[source], parent, to[|to| - 1], now);
    var moved := if source in cleared.nodes then UpdateNode(cleared, source, node) else cleared;
    if source in cleared.nodes {
      UpdateAges(cleared, source, node, own);
      SteadyTwice(db, cleared, moved, own, own);
    }
    AppendAges(moved, Moved, Some(source), Some(from), Some(to), Some(node.revision), now, own);
    SteadyTwice(db, moved, MoveOver(db, source, parent, existing, from, to, now), own, own);
  }

  lemma RemoveAges(db: Db, path: Segments, recursive: bool, expected: Option<nat>, now: int, own: Id)
    ensures Steady(db, Remove(db, path, recursive, expected, now).db, own)
  {
    hide Steady, Named, PurgeSubtree;
    AgesSelf(db, own);
    if path != [] && Named(db.nodes, path).Ok? {
      var x := Named(db.nodes, path).value;
      PurgeAges(db, x, own);
      var purged := PurgeSubtree(db, x);
      AppendAges(purged, Removed, Some(x), Some(path), None, None, now, own);
      SteadyTwice(db, purged, AppendChange(purged, Removed, Some(x), Some(path), None, None, now), own, own);
    }
  }

  lemma TrashAges(db: Db, path: Segments, expected: Option<nat>, now: int, own: Id)
    requires IdsFresh(db)
    ensures Ages(db, TrashPath(db, path, expected, now).db, own)
  {
    hide Ages, Named, MarkTrashed;
    assert Steady(db, db, own) ==> Ages(db, db, own);
    AgesSelf(db, own);
    if path != [] && Named(db.nodes, path).Ok? && db.nodes[Named(db.nodes, path).value].parent.Some? {
      var x := Named(db.nodes, path).value;
      MarkAges(db, x, path, Some(db.nodes[x].revision), now, own);
    }
  }

  lemma RestoreAges(db: Db, record: Id, destination: Option<Segments>, expected: Option<nat>, now: int, own: Id)
    ensures Steady(db, Restore(db, record, destination, expected, now).db, own)
  {
    hide Steady, RestorePlace, Unmark;
    AgesSelf(db, own);
    if record in db.trash && db.trash[record].node in db.nodes &&
        RestorePlace(db.nodes, db.trash[record], destination).Ok?
    {
      var (parent, name) := RestorePlace(db.nodes, db.trash[record], destination).value;
      var x := db.trash[record].node;
      UnmarkAges(db, record, parent, name, now, own);
      var unmarked := Unmark(db, record, parent, name, now);
      var revision := Some(db.nodes[x].revision + 1);
      AppendAges(unmarked, Restored, Some(x), None, None, revision, now, own);
      SteadyTwice(db, unmarked, AppendChange(unmarked, Restored, Some(x), None, None, revision, now), own, own);
    }
  }

  lemma PurgeRecordAges(db: Db, record: Id, now: int, own: Id)
    ensures Steady(db, Purge(db, record, now).db, own)
  {
    hide Steady, PurgeSubtree;
    AgesSelf(db, own);
    if record in db.trash {
      var x := db.trash[record].node;
      AppendAges(db, ChangeKind.Purged, Some(x), None, None, None, now, own);
      var noted := AppendChange(db, ChangeKind.Purged, Some(x), None, None, None, now);
      PurgeAges(noted, x, own);
      SteadyTwice(db, noted, PurgeSubtree(noted, x), own, own);
    }
  }

  lemma AttributeUpdateAges(db: Db, x: Id, held: Attributes, kind: ChangeKind, path: Segments, now: int, own: Id)
    requires x in db.nodes && kind != Trashed
    ensures var updated := UpdateNode(db, x, BumpedNode(db.nodes[x], now)).(attributes := db.attributes[x := held]);
            Steady(db, AppendChange(updated, kind, Some(x), None, Some(path), Some(db.nodes[x].revision + 1), now), own)
  {
    hide Steady;
    var node := BumpedNode(db.nodes[x], now);
    var bumped := UpdateNode(db, x, node);
    var updated := bumped.(attributes := db.attributes[x := held]);
    UpdateAges(db, x, node, own);
    AttributesAge(bumped, db.attributes[x := held], own);
    SteadyTwice(db, bumped, updated, own, own);
    AppendAges(updated, kind, Some(x), None, Some(path), Some(db.nodes[x].revision + 1), now, own);
    SteadyTwice(db, updated, AppendChange(updated, kind, Some(x), None, Some(path), Some(db.nodes[x].revision + 1),
                                          now), own, own);
  }

  lemma AttributeAges(db: Db, path: Segments, key: string, value: Bytes, expected: Option<nat>, now: int, own: Id)
    ensures Steady(db, SetAttribute(db, path, key, value, expected, now).db, own)
    ensures Steady(db, RemoveAttribute(db, path, key, expected, now).db, own)
  {
    hide Steady, Named, AppendChange;
    AgesSelf(db, own);
    if Named(db.nodes, path).Ok? {
      var x := Named(db.nodes, path).value;
      var held := AttributesOf(db.attributes, x);
      AttributeUpdateAges(db, x, held[key := value], AttributeSet, path, now, own);
      AttributeUpdateAges(db, x, held - {key}, AttributeRemoved, path, now, own);
    }
  }

  // --- file content ----------------------------------------------------------

  lemma FinalizeNewAges(db: Db, path: Segments, parent: Id, g: Id, length: nat, now: int)
    requires g in db.generations && g < db.nextId && path != []
    ensures Steady(db, FinalizeNew(db, path, parent, g, length, now), g)
  {
    hide Steady;
    CompleteAges(db, g, length);
    var completed := CompleteGeneration(db, g, length);
    var node := FileNode(parent, path[|path| - 1], length, g, now);
    InsertAges(completed, node, g);
    var made := InsertNode(completed, node);
    SteadyTwice(db, completed, made, g, g);
    AppendAges(made, Created, Some(db.nextId), None, Some(path), Some(1), now, g);
    SteadyTwice(db, made, FinalizeNew(db, path, parent, g, length, now), g, g);
  }

  lemma SwapAges(db: Db, x: Id, node: Node, g: Id)
    requires x in db.nodes && node.generation == Some(g) && db.nodes[x].revision < node.revision
    requires db.nodes[x].generation != Some(g) && g < db.nextId
    ensures Steady(db, UpdateNode(db, x, node), g)
    ensures db.nodes[x].generation.Some? ==> Steady(db, Swapped(db, x, node), g)
  {
    var nodes' := db.nodes[x := node];
    forall h: Id | h != g && Unreferenced(db.nodes, h)
        ensures Unreferenced(nodes', h) && db.nodes[x].generation != Some(h) {
      assert db.nodes[x].generation != Some(h);
    }
  }

  function Reassigned(db: Db, x: Id, node: Node): Db
    requires x in db.nodes
  {
    if db.nodes[x].generation.Some? then Swapped(db, x, node) else UpdateNode(db, x, node)
  }

  lemma FinalizeExistingReassigns(db: Db, path: Segments, x: Id, g: Id, length: nat, now: int)
    requires g in db.generations && x in db.nodes && db.nodes[x].generation != Some(g)
    ensures FinalizeExisting(db, path, x, g, length, now) ==
            AppendChange(Reassigned(CompleteGeneration(db, g, length), x, RewrittenNode(db.nodes[x], length, g, now)),
                         Modified, Some(x), None, Some(path), Some(db.nodes[x].revision + 1), now)
  {
  }

  lemma FinalizeExistingAges(db: Db, path: Segments, x: Id, g: Id, length: nat, now: int)
    requires g in db.generations && g < db.nextId && x in db.nodes && db.nodes[x].generation != Some(g)
    ensures Steady(db, FinalizeExisting(db, path, x, g, length, now), g)
  {
    hide Steady, FinalizeExisting, Swapped, AppendChange;
    FinalizeExistingReassigns(db, path, x, g, length, now);
    CompleteAges(db, g, length);
    var completed := CompleteGeneration(db, g, length);
    var node := RewrittenNode(db.nodes[x], length, g, now);
    SwapAges(completed, x, node, g);
    var swapped := Reassigned(completed, x, node);
    SteadyTwice(db, completed, swapped, g, g);
    AppendAges(swapped, Modified, Some(x), None, Some(path), Some(db.nodes[x].revision + 1), now, g);
    SteadyTwice(db, swapped, FinalizeExisting(db, path, x, g, length, now), g, g);
  }

  lemma FinalizeAges(db: Db, path: Segments, g: Id, length: nat, create: bool, expected: Option<nat>, now: int)
    requires g in db.generations && g < db.nextId && Unreferenced(db.nodes, g)
    ensures Steady(db, Finalize(db, path, g, length, create, expected, now).db, g)
  {
    hide Steady, Resolved, FinalizeNew, FinalizeExisting;
    AgesSelf(db, g);
    match Resolved(db.nodes, path)
    case Some(x) => FinalizeExistingAges(db, path, x, g, length, now);
    case None =>
      if path != [] && Resolved(db.nodes, Pop(path)).Some? {
        FinalizeNewAges(db, path, Resolved(db.nodes, Pop(path)).value, g, length, now);
      }
  }

  lemma CommitAges(db: Db, path: Segments, content: Bytes, create: bool, expected: Option<nat>, now: int, own: Id)
    requires Fresh(db)
    ensures Steady(db, Commit(db, path, content, create, expected, now).db, own)
  {
    hide Steady, Fresh, RowsOf, Finalize;
    AgesSelf(db, own);
    StagedIsThere(db, content);
    FreshIsUnreferenced(db);
    StageAges(db, RowsOf(content));
    var staged := StageGeneration(db, RowsOf(content));
    FinalizeAges(staged, path, db.nextId, |content|, create, expected, now);
    var final := Finalize(staged, path, db.nextId, |content|, create, expected, now).db;
    SteadyTwice(db, staged, final, db.nextId, db.nextId);
    AgesWhoever(db, final, own);
  }

  /** A fresh generation needs no exception. */
  lemma AgesWhoever(a: Db, b: Db, own: Id)
    requires Steady(a, b, a.nextId)
    ensures Steady(a, b, own)
  {
  }

  lemma TouchAges(db: Db, path: Segments, create: bool, expected: Option<nat>, now: int, own: Id)
    requires Fresh(db)
    ensures Steady(db, Touch(db, path, create, expected, now).db, own)
  {
    hide Steady, Fresh, Resolved, RowsOf, Finalize;
    AgesSelf(db, own);
    match Resolved(db.nodes, path)
    case Some(x) =>
      UpdateAges(db, x, BumpedNode(db.nodes[x], now).(accessedAt := now), own);
    case None =>
      StagedIsThere(db, []);
      FreshIsUnreferenced(db);
      var staged := StageGeneration(db, RowsOf([]));
      var completed := CompleteGeneration(staged, db.nextId, 0);
      StageAges(db, RowsOf([]));
      CompleteAges(staged, db.nextId, 0);
      SteadyTwice(db, staged, completed, db.nextId, db.nextId);
      FinalizeAges(completed, path, db.nextId, 0, true, None, now);
      var final := Finalize(completed, path, db.nextId, 0, true, None, now).db;
      SteadyTwice(db, completed, final, db.nextId, db.nextId);
      AgesWhoever(db, final, own);
  }

  lemma WriteAges(db: Db, path: Segments, source: seq<Item>, create: bool, expected: Option<nat>, now: int, own: Id)
    requires Fresh(db)
    ensures Steady(db, Write(db, path, source, create, expected, now).db, own)
  {
    hide Steady, Fresh, Commit;
    AgesSelf(db, own);
    CommitAges(db, path, Gather(source), create, expected, now, own);
  }

  lemma WriteAtAges(db: Db, path: Segments, offset: nat, source: seq<Item>, create: bool, expected: Option<nat>,
                    preserve: bool, now: int, own: Id)
    requires Fresh(db)
    ensures Steady(db, WriteAt(db, path, offset, source, create, expected, preserve, now).db, own)
  {
    hide Steady, Fresh, Commit, Resolved, FileContent, Staged;
    AgesSelf(db, own);
    var x := Resolved(db.nodes, path);
    var prior := if x.Some? then FileContent(db, x.value) else [];
    CommitAges(db, path, Staged(prior, offset, Gather(source), preserve), create, expected, now, own);
    if x.None? { CommitAges(db, path, Staged([], offset, Gather(source), preserve), create, expected, now, own); }
  }

  lemma AppendOrTruncateAges(db: Db, path: Segments, source: seq<Item>, length: nat, create: bool,
                             expected: Option<nat>, now: int, own: Id)
    requires Fresh(db)
    ensures Steady(db, Append(db, path, source, create, expected, now).db, own)
    ensures Steady(db, Truncate(db, path, length, expected, now).db, own)
  {
    hide Steady, Fresh, WriteAt, Resolved;
    AgesSelf(db, own);
    WriteAtAges(db, path, length, [], false, expected, false, now, own);
    match Resolved(db.nodes, path)
    case Some(x) => WriteAtAges(db, path, db.nodes[x].size, source, create, expected, true, now, own);
    case None => WriteAtAges(db, path, 0, source, create, expected, true, now, own);
  }

  /**
   No request rewrites a stored generation, reuses an id, lowers a revision or swaps a file's generation unnoticed.
   */
  lemma EveryRequestAges(db: Db, op: Operation, now: int, own: Id)
    requires Fresh(db) && Apply(db, op, now).Some?
    ensures Ages(db, Apply(db, op, now).value.db, own)
    ensures !op.OpTrash? ==> SameTrashings(db, Apply(db, op, now).value.db)
  {
    hide Ages, SameTrashings, Fresh, Mkdir, MakeSymlink, CopyTo, MoveTo, Remove, TrashPath, Restore, Purge;
    hide SetAttribute, RemoveAttribute;
    hide Touch, Write, WriteAt, Append, Truncate;
    match op
    case OpMkdir(path, o) => MkdirAges(db, path, o, now, own);
    case OpTouch(path, create, expected) => TouchAges(db, path, create, expected, now, own);
    case OpCopy(from, to, recursive, overwrite, expected) =>
      CopyAges(db, from, to, recursive, overwrite, expected, now, own);
    case OpMove(from, to, overwrite, expected) => MoveAges(db, from, to, overwrite, expected, now, own);
    case OpRemove(path, recursive, expected) => RemoveAges(db, path, recursive, expected, now, own);
    case OpSymlink(target, link, o) => SymlinkAges(db, target, link, o, now, own);
    case OpTrash(path, expected) =>
      FreshIsUnreferenced(db);
      TrashAges(db, path, expected, now, own);
    case OpRestore(record, destination, expected) => RestoreAges(db, record, destination, expected, now, own);
    case OpPurge(record) => PurgeRecordAges(db, record, now, own);
    case OpSetAttribute(path, key, value, expected) => AttributeAges(db, path, key, value, expected, now, own);
    case OpRemoveAttribute(path, key, expected) => AttributeAges(db, path, key, [], expected, now, own);
    case OpWrite(path, source, create, expected) => WriteAges(db, path, source, create, expected, now, own);
    case OpWriteAt(path, offset, source, create, expected) =>
      WriteAtAges(db, path, offset, source, create, expected, true, now, own);
    case OpAppend(path, source, create, expected) =>
      AppendOrTruncateAges(db, path, source, 0, create, expected, now, own);
    case OpTruncate(path, length, expected) => AppendOrTruncateAges(db, path, [], length, false, expected, now, own);
  }

  // --- what the feed tells of the trash --------------------------------------

  /** `fetch_trash_change_context`: the latest `trashed` change of a node. */
  function TrashContext(changes: seq<Change>, node: Id): Option<Change> {
    if changes == [] then None
    else
      var last := changes[|changes| - 1];
      if last.kind == Trashed && last.node == Some(node) then Some(last)
          else TrashContext(changes[..|changes| - 1], node)
  }

  /** Changes that do not trash the node leave its context. */
  lemma {:induction false} ContextKept(a: seq<Change>, b: seq<Change>, node: Id)
    requires a <= b && forall i :: |a| <= i < |b| ==> b[i].kind != Trashed || b[i].node != Some(node)
    ensures TrashContext(b, node) == TrashContext(a, node)
    decreases |b|
  {
    if |a| < |b| { ContextKept(a, b[..|b| - 1], node); } else { assert a == b; }
  }

  /** What request `k` of a run trashed, the feed of state `i` still tells, with its path and time. */
  ghost predicate TrashedBy(dbs: seq<Db>, requests: seq<Request>, k: nat, i: nat, t: Id)
    requires Run(dbs, requests) && k < |requests| && i < |dbs|
  {
    requests[k].op.OpTrash? && Apply(dbs[k], requests[k].op, requests[k].now).value.outcome == InTrash(t) &&
    t in dbs[i].trash &&
    var row := dbs[i].trash[t];
    Named(dbs[k].nodes, requests[k].op.path) == Ok(row.node) && row.deletedAt == requests[k].now &&
    var context := TrashContext(dbs[i].changes, row.node);
    context.Some? && context.value.oldPath == Some(requests[k].op.path) && context.value.at == row.deletedAt
  }

  /** A record that was there keeps its context: its node is in the trash, and what is trashed now is not. */
  lemma RecordKeepsContext(db: Db, root: Id, op: Operation, now: int, t: Id)
    requires Inv(db, root) && Apply(db, op, now).Some? && t in db.trash && t in Apply(db, op, now).value.db.trash
    ensures var after := Apply(db, op, now).value.db;
            after.trash[t] == db.trash[t] && TrashContext(after.changes, db.trash[t].node) ==
                TrashContext(db.changes, db.trash[t].node)
  {
    hide Inv, Ages, Fresh, TrashPath, TrashContext;
    InvIsFresh(db, root);
    EveryRequestAges(db, op, now, db.nextId);
    var after := Apply(db, op, now).value.db;
    if op.OpTrash? { TrashSpares(db, root, op.path, op.expected, now, t); } else { hide Apply; }
    hide Apply;
    ContextKept(db.changes, after.changes, db.trash[t].node);
  }

  /** What a `trash` request names is not in the trash yet. */
  lemma NamedIsNotInTrash(db: Db, root: Id, path: Segments, t: Id)
    requires Inv(db, root) && t in db.trash && Named(db.nodes, path).Ok?
    ensures db.trash[t].node != Named(db.nodes, path).value && t < db.nextId
  {
    UnfoldInv(db, root);
    NamedIsProper(db.nodes, root, path);
    hide Sound, FilesOk, AttributesOk, FeedOk, Named, KindOk;
    assert TrashOk(db.nodes, db.trash, root);
  }

  lemma TrashSpares(db: Db, root: Id, path: Segments, expected: Option<nat>, now: int, t: Id)
    requires Inv(db, root) && t in db.trash
    ensures var after := TrashPath(db, path, expected, now).db;
            t in after.trash && after.trash[t] == db.trash[t] && db.changes <= after.changes &&
            forall i :: |db.changes| <= i < |after.changes| ==> after.changes[i].node != Some(db.trash[t].node)
  {
    hide Inv, Named;
    if Named(db.nodes, path).Ok? { NamedIsNotInTrash(db, root, path, t); }
  }

  lemma TrashRecords(db: Db, path: Segments, expected: Option<nat>, now: int, t: Id)
    requires t !in db.trash && t in TrashPath(db, path, expected, now).db.trash
    ensures TrashPath(db, path, expected, now).outcome == InTrash(t)
    ensures var after := TrashPath(db, path, expected, now).db;
            Named(db.nodes, path) == Ok(after.trash[t].node) && after.trash[t].deletedAt == now &&
            var context := TrashContext(after.changes, after.trash[t].node);
            context.Some? && context.value.oldPath == Some(path) && context.value.at == now
  {
    hide Named;
  }

  /** A record that was not there before is the answer of a `trash` request. */
  lemma NewRecordIsExplained(db: Db, root: Id, op: Operation, now: int, t: Id)
    requires Inv(db, root) && Apply(db, op, now).Some? && t !in db.trash && t in Apply(db, op, now).value.db.trash
    ensures op.OpTrash? && Apply(db, op, now).value.outcome == InTrash(t)
    ensures var after := Apply(db, op, now).value.db;
            Named(db.nodes, op.path) == Ok(after.trash[t].node) && after.trash[t].deletedAt == now &&
            var context := TrashContext(after.changes, after.trash[t].node);
            context.Some? && context.value.oldPath == Some(op.path) && context.value.at == now
  {
    InvIsFresh(db, root);
    EveryRequestAges(db, op, now, db.nextId);
    hide Inv, Ages, Fresh, TrashPath, TrashContext, Named, MarkTrashed, AppendChange;
    if op.OpTrash? { TrashRecords(db, op.path, op.expected, now, t); } else { hide Apply; }
  }

  /**
   At every moment of every run, each trash record is the answer of a request that
   put its node in the trash, and the latest `trashed` change of the node still
   tells the path and the time of that request.
   */
  lemma {:induction false} TrashIsAlwaysExplained(maxFileBytes: nat, start: int, dbs: seq<Db>, requests: seq<Request>,
                                                  i: nat, t: Id)
    requires Run(dbs, requests) && dbs[0] == NewWorkspace(maxFileBytes, start) && MovesUpright(dbs, requests) &&
             i < |dbs|
    requires t in dbs[i].trash
    ensures exists k: nat :: k < i && TrashedBy(dbs, requests, k, i, t)
  {
    hide Inv, Apply, HangsBelowItself, Named;
    if i > 0 {
      var before := dbs[i - 1];
      EveryRunIsSafe(maxFileBytes, start, dbs, requests, i - 1);
      if t in before.trash {
        TrashIsAlwaysExplained(maxFileBytes, start, dbs, requests, i - 1, t);
        var k: nat :| k < i - 1 && TrashedBy(dbs, requests, k, i - 1, t);
        RecordKeepsContext(before, 0, requests[i - 1].op, requests[i - 1].now, t);
        assert TrashedBy(dbs, requests, k, i, t);
      } else {
        NewRecordIsExplained(before, 0, requests[i - 1].op, requests[i - 1].now, t);
        assert TrashedBy(dbs, requests, i - 1, i, t);
      }
    }
  }
}
