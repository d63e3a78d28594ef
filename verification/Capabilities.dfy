/**
 What the capabilities of a batch (crates/fslite-sqlite/src/mutate.rs) let their holder
 do to the tables: a holder of one cannot do what another is for.
 */
module Capabilities {
  import opened Common
  import opened Chunks
  import opened Paths
  import opened Tree
  import opened Resolve
  import opened Store
  import opened Copy
  import opened Operations
  import opened Safety
  import opened Runs
  import opened Failures
  import opened TrashEffects
  import opened Effects
  import opened Answers
  import opened Additions
  import opened Chronicle

  /** Nothing is marked as trashed or unmarked; only what is overwritten is deleted. */
  ghost predicate OnlyWrites(a: Nodes, b: Nodes, overwrite: bool) {
    (forall x :: x in a ==> overwrite || x in b) &&
    forall x :: x in b ==> b[x].trashedAt == if x in a then a[x].trashedAt else None
  }

  /** No node is made and none is changed. */
  ghost predicate OnlyDeletes(a: Nodes, b: Nodes) { forall x :: x in b ==> x in a && b[x] == a[x] }

  /** No node is made or deleted, no bytes and no attributes are touched. */
  ghost predicate OnlyTrashes(a: Db, b: Db) {
    b.nodes.Keys == a.nodes.Keys && b.generations == a.generations && b.attributes == a.attributes
  }

  predicate Overwrites(op: Operation) { (op.OpCopy? || op.OpMove?) && op.overwrite }

  /** What a capability is for. */
  ghost predicate Within(a: Db, b: Db, op: Operation, c: Capability) {
    match c
    case CanWrite => OnlyWrites(a.nodes, b.nodes, Overwrites(op))
    case CanDelete => OnlyDeletes(a.nodes, b.nodes)
    case CanTrashRestore => OnlyTrashes(a, b)
  }

  lemma NothingWritten(a: Nodes)
    ensures OnlyWrites(a, a, false)
  {
  }

  lemma KeptIsWritten(a: Nodes, b: Nodes)
    requires (forall y :: y in a ==> y in b && b[y] == a[y]) && forall y :: y in b && y !in a ==> b[y].trashedAt.None?
    ensures OnlyWrites(a, b, false)
  {
  }

  lemma MkdirWrites(db: Db, root: Id, path: Segments, o: CreateOptions, now: int)
    requires Inv(db, root)
    ensures OnlyWrites(db.nodes, Mkdir(db, path, o, now).db.nodes, false)
  {
    MkdirAnswers(db, root, path, o, now);
    hide Passable, EndRefusal, OnlyWrites;
    if Mkdir(db, path, o, now).outcome.Done? {
      MkdirAddsExactly(db, root, path, o, now, [], false);
      MkdirTells(db, root, path, o, now);
      hide Inv, Mkdir;
      KeptIsWritten(db.nodes, Mkdir(db, path, o, now).db.nodes);
    } else {
      hide Inv, Mkdir;
      FailedMkdir(db, root, path, o, now);
      NothingWritten(db.nodes);
    }
  }

  lemma SymlinkWrites(db: Db, root: Id, target: LinkTarget, link: Segments, o: CreateOptions, now: int)
    requires Inv(db, root)
    ensures OnlyWrites(db.nodes, MakeSymlink(db, target, link, o, now).db.nodes, false)
  {
    UnfoldInv(db, root);
    SymlinkIs(db, target, link, o, now);
    hide Inv, MakeSymlink, ResolveDestination;
  }

  lemma FinalizeWrites(db: Db, path: Segments, g: Id, length: nat, create: bool, expected: Option<nat>, now: int)
    requires g in db.generations && db.nextId !in db.nodes
    ensures OnlyWrites(db.nodes, Finalize(db, path, g, length, create, expected, now).db.nodes, false)
  {
    hide Resolved;
  }

  lemma CommitWrites(db: Db, root: Id, path: Segments, content: Bytes, create: bool, expected: Option<nat>, now: int)
    requires Inv(db, root)
    ensures OnlyWrites(db.nodes, Commit(db, path, content, create, expected, now).db.nodes, false)
  {
    UnfoldInv(db, root);
    hide Inv, Finalize, RowsOf, OnlyWrites;
    NothingWritten(db.nodes);
    var staged := StageGeneration(db, RowsOf(content));
    assert staged.nextId !in db.nodes;
    FinalizeWrites(staged, path, db.nextId, |content|, create, expected, now);
  }

  lemma EditWrites(db: Db, root: Id, path: Segments, offset: nat, source: seq<Item>, create: bool,
                   expected: Option<nat>, preserve: bool, now: int)
    requires Inv(db, root)
    ensures OnlyWrites(db.nodes, Write(db, path, source, create, expected, now).db.nodes, false)
    ensures OnlyWrites(db.nodes, WriteAt(db, path, offset, source, create, expected, preserve, now).db.nodes, false)
  {
    hide Inv, Commit, Resolved, FileContent, Staged, OnlyWrites;
    NothingWritten(db.nodes);
    CommitWrites(db, root, path, Gather(source), create, expected, now);
    var x := Resolved(db.nodes, path);
    var prior := if x.Some? then FileContent(db, x.value) else [];
    CommitWrites(db, root, path, Staged(prior, offset, Gather(source), preserve), create, expected, now);
  }

  lemma AppendOrTruncateWrites(db: Db, root: Id, path: Segments, source: seq<Item>, length: nat, create: bool,
                               expected: Option<nat>, now: int)
    requires Inv(db, root)
    ensures OnlyWrites(db.nodes, Append(db, path, source, create, expected, now).db.nodes, false)
    ensures OnlyWrites(db.nodes, Truncate(db, path, length, expected, now).db.nodes, false)
  {
    hide Inv, WriteAt, Resolved, OnlyWrites;
    NothingWritten(db.nodes);
    EditWrites(db, root, path, length, [], false, expected, false, now);
    EditWrites(db, root, path, 0, source, create, expected, true, now);
    var x := Resolved(db.nodes, path);
    if x.Some? { EditWrites(db, root, path, db.nodes[x.value].size, source, create, expected, true, now); }
  }

  lemma TouchWrites(db: Db, root: Id, path: Segments, create: bool, expected: Option<nat>, now: int)
    requires Inv(db, root)
    ensures OnlyWrites(db.nodes, Touch(db, path, create, expected, now).db.nodes, false)
  {
    hide Inv, Resolved, OnlyWrites, Finalize;
    NothingWritten(db.nodes);
    match Resolved(db.nodes, path)
    case None => if create { EmptyFileWrites(db, root, path, now); }
    case Some(x) => BumpWrites(db.nodes, x, BumpedNode(db.nodes[x], now).(accessedAt := now));
  }

  lemma EmptyFileWrites(db: Db, root: Id, path: Segments, now: int)
    requires Inv(db, root)
    ensures var staged := CompleteGeneration(StageGeneration(db, RowsOf([])), db.nextId, 0);
            OnlyWrites(db.nodes, Finalize(staged, path, db.nextId, 0, true, None, now).db.nodes, false)
  {
    UnfoldInv(db, root);
    hide Inv, Finalize, RowsOf, OnlyWrites;
    FinalizeWrites(CompleteGeneration(StageGeneration(db, RowsOf([])), db.nextId, 0), path, db.nextId, 0, true, None,
                   now);
  }

  lemma BumpWrites(a: Nodes, x: Id, node: Node)
    requires x in a && node.trashedAt == a[x].trashedAt
    ensures OnlyWrites(a, a[x := node], false)
  {
  }

  lemma AttributeWrites(db: Db, path: Segments, key: string, value: Bytes, expected: Option<nat>, now: int)
    ensures OnlyWrites(db.nodes, SetAttribute(db, path, key, value, expected, now).db.nodes, false)
    ensures OnlyWrites(db.nodes, RemoveAttribute(db, path, key, expected, now).db.nodes, false)
  {
    AttributeTablesAre(db, path, key, value, expected, now);
    hide Named, SetAttribute, RemoveAttribute;
  }

  lemma CopyWrites(db: Db, root: Id, from: Segments, to: Segments, recursive: bool, overwrite: bool,
                   expected: Option<nat>, now: int)
    requires Inv(db, root) && CopyTo(db, from, to, recursive, overwrite, expected, now).Some?
    ensures OnlyWrites(db.nodes, CopyTo(db, from, to, recursive, overwrite, expected, now).value.db.nodes, overwrite)
  {
    UnfoldInv(db, root);
    OnlyCopyingMayNotEnd(db, from, to, recursive, overwrite, expected, now);
    hide Inv, Named, ResolveDestination, CopyOver, CopyTo, IdsFresh;
    if CopyTo(db, from, to, recursive, overwrite, expected, now).value.outcome.Failed? {
      FailedCopy(db, from, to, recursive, overwrite, expected, now);
    } else {
      CopyOutcome(db, from, to, recursive, overwrite, expected, now);
      var s, d := Named(db.nodes, from).value, ResolveDestination(db.nodes, to);
      DestinationIsProper(db.nodes, root, to);
      CopyOverWrites(db, s, d.parent, d.existing, from, to, overwrite, now);
    }
  }

  lemma CopyOverWrites(db: Db, s: Id, p: Id, existing: Option<Id>, from: Segments, to: Segments, overwrite: bool,
                       now: int)
    requires IdsFresh(db) && to != [] && (existing.Some? ==> overwrite)
    requires CopyOver(db, s, p, existing, from, to, now).Some?
    ensures OnlyWrites(db.nodes, CopyOver(db, s, p, existing, from, to, now).value.db.nodes, overwrite)
  {
    var cleared := Cleared(db, existing);
    ClearedIds(db, existing);
    ClearedIs(db, existing);
    hide PurgeSubtree, CopySubtree;
    if Active(cleared.nodes, s) { CopySubtreeIsFresh(cleared, s, p, to[|to| - 1], now); }
  }

  lemma MoveWrites(db: Db, root: Id, from: Segments, to: Segments, overwrite: bool, expected: Option<nat>, now: int)
    requires Inv(db, root)
    ensures OnlyWrites(db.nodes, MoveTo(db, from, to, overwrite, expected, now).db.nodes, overwrite)
  {
    hide Inv, Named, ResolveDestination, MoveTo, MoveOver;
    if MoveTo(db, from, to, overwrite, expected, now).outcome.Done? {
      AcceptedMove(db, from, to, overwrite, expected, now);
      MoveSucceedsIff(db, from, to, overwrite, expected, now);
      var s, d := Named(db.nodes, from).value, ResolveDestination(db.nodes, to);
      MoveOverIs(db, s, d.parent, d.existing, from, to, now);
      ClearedIs(db, d.existing);
    } else {
      RefusedMove(db, from, to, overwrite, expected, now);
    }
  }

  lemma RemoveDeletes(db: Db, path: Segments, recursive: bool, record: Id, expected: Option<nat>, now: int)
    ensures OnlyDeletes(db.nodes, Remove(db, path, recursive, expected, now).db.nodes)
    ensures OnlyDeletes(db.nodes, Purge(db, record, now).db.nodes)
  {
    RemoveIs(db, path, recursive, expected, now);
    hide Named, Remove, Below;
  }

  lemma TrashMarks(db: Db, root: Id, path: Segments, expected: Option<nat>, now: int)
    requires Inv(db, root)
    ensures OnlyTrashes(db, TrashPath(db, path, expected, now).db)
  {
    if TrashPath(db, path, expected, now).outcome.InTrash? {
      TrashedNode(db, root, path, expected, now);
      hide Inv, TrashPath, Named, Live;
    } else {
      TrashOrNot(db, path, expected, now);
    }
  }

  lemma RestoreMarks(db: Db, record: Id, destination: Option<Segments>, expected: Option<nat>, now: int)
    ensures OnlyTrashes(db, Restore(db, record, destination, expected, now).db)
  {
    hide RestorePlace, FetchChild;
  }

  /**
   Each request stays within what the one capability is for that a batch asks for it:
   writing neither trashes nor restores and deletes only what it overwrites, deleting
   neither makes nor changes anything, trashing and restoring touch no bytes.
   */
  lemma CapabilitiesAreKept(db: Db, root: Id, op: Operation, now: int)
    requires Inv(db, root) && Apply(db, op, now).Some?
    ensures Within(db, Apply(db, op, now).value.db, op, RequiredCapability(op))
  {
    hide Inv, Mkdir, MakeSymlink, CopyTo, MoveTo, Remove, TrashPath, Restore, Purge, SetAttribute, RemoveAttribute;
    hide Touch, Write, WriteAt, Append, Truncate, OnlyWrites, OnlyDeletes, OnlyTrashes;
    match op
    case OpMkdir(path, o) => MkdirWrites(db, root, path, o, now);
    case OpTouch(path, create, expected) => TouchWrites(db, root, path, create, expected, now);
    case OpCopy(from, to, recursive, overwrite, expected) =>
      CopyWrites(db, root, from, to, recursive, overwrite, expected, now);
    case OpMove(from, to, overwrite, expected) => MoveWrites(db, root, from, to, overwrite, expected, now);
    case OpRemove(path, recursive, expected) => RemoveDeletes(db, path, recursive, 0, expected, now);
    case OpSymlink(target, link, o) => SymlinkWrites(db, root, target, link, o, now);
    case OpTrash(path, expected) => TrashMarks(db, root, path, expected, now);
    case OpRestore(record, destination, expected) => RestoreMarks(db, record, destination, expected, now);
    case OpPurge(record) => RemoveDeletes(db, [], false, record, None, now);
    case OpSetAttribute(path, key, value, expected) => AttributeWrites(db, path, key, value, expected, now);
    case OpRemoveAttribute(path, key, expected) => AttributeWrites(db, path, key, [], expected, now);
    case OpWrite(path, source, create, expected) => EditWrites(db, root, path, 0, source, create, expected, true, now);
    case OpWriteAt(path, offset, source, create, expected) =>
      EditWrites(db, root, path, offset, source, create, expected, true, now);
    case OpAppend(path, source, create, expected) =>
      AppendOrTruncateWrites(db, root, path, source, 0, create, expected, now);
    case OpTruncate(path, length, expected) =>
      AppendOrTruncateWrites(db, root, path, [], length, false, expected, now);
  }
}
