/**
 What the change feed and the rows tell about a request afterwards: every new row of the
 feed is true of the tables before and after, no change of the tree goes without one, and
 a node's revision counts its changes.
 */
module Chronicle {
  import opened Common
  import opened Chunks
  import opened Paths
  import opened Tree
  import opened Resolve
  import opened Store
  import opened Copy
  import opened Operations
  import opened Safety
  import opened Runs
  import opened TrashEffects
  import opened Effects
  import opened Answers
  import opened Additions

  /** `x` stands at path `q` after the request, in the directory that `q` went to. */
  ghost predicate StandsAt(a: Nodes, b: Nodes, q: Segments, x: Id) {
    q != [] && exists p: Id ::
      (DirectoryFor(a, q, p) || Resolved(b, Pop(q)) == Some(p)) && IsChild(b, p, q[|q| - 1], x)
  }

  /** A row of the feed is true of the tables before and after. */
  ghost predicate Tells(a: Nodes, b: Nodes, c: Change) {
    c.node.Some? &&
    var x := c.node.value;
    match c.kind
    case Created => IsNew(a, b, c, x) && c.oldPath.None?
    case Copied => IsNew(a, b, c, x) && c.oldPath.Some? && exists s: Id :: Leads(a, c.oldPath.value, s, false)
    case Moved =>
      x in a && c.oldPath.Some? && Leads(a, c.oldPath.value, x, false) &&
      c.revision == Some(a[x].revision + 1) && c.newPath.Some? &&
      (x in b ==> StandsAt(a, b, c.newPath.value, x) && c.revision == Some(b[x].revision))
    case Modified => Renewed(a, b, c, x) && a[x].generation != b[x].generation
    case AttributeSet => Renewed(a, b, c, x) && a[x].generation == b[x].generation
    case AttributeRemoved => Renewed(a, b, c, x) && a[x].generation == b[x].generation
    case Trashed =>
      x in a && x in b && c.oldPath.Some? && Leads(a, c.oldPath.value, x, false) && c.newPath.None? &&
      c.revision == Some(a[x].revision) && a[x].trashedAt.None? && b[x].trashedAt == Some(c.at)
    case Restored =>
      x in a && x in b && c.oldPath.None? && c.newPath.None? &&
      c.revision == Some(a[x].revision + 1) == Some(b[x].revision) &&
      a[x].trashedAt.Some? && b[x].trashedAt.None?
    case Removed =>
      x in a && x !in b && c.oldPath.Some? && Leads(a, c.oldPath.value, x, false) &&
      c.newPath.None? && c.revision.None?
    case Purged =>
      x in a && x !in b && a[x].trashedAt.Some? && c.oldPath.None? && c.newPath.None? &&
      c.revision.None?
  }

  /** The row is about a node that was not there before, and where it stands. */
  ghost predicate IsNew(a: Nodes, b: Nodes, c: Change, x: Id) {
    x !in a && x in b && c.revision == Some(1) && c.newPath.Some? &&
    StandsAt(a, b, c.newPath.value, x)
  }

  /** The row is about a node that a path led to, and that has one revision more. */
  ghost predicate Renewed(a: Nodes, b: Nodes, c: Change, x: Id) {
    x in a && x in b && c.oldPath.None? && c.newPath.Some? && Leads(a, c.newPath.value, x, false) &&
    c.revision == Some(a[x].revision + 1) == Some(b[x].revision)
  }

  /** A row about an attribute: one was set, or one that was there is gone. */
  ghost predicate AttributesTell(a: map<Id, Attributes>, b: map<Id, Attributes>, c: Change) {
    c.node.Some? && (c.kind == AttributeSet || c.kind == AttributeRemoved) ==>
      var before, after := AttributesOf(a, c.node.value), AttributesOf(b, c.node.value);
      if c.kind == AttributeSet then exists key :: key in after && after - {key} == before - {key}
      else exists key :: key in before && after == before - {key}
  }

  /** The new rows of the feed are true and bear the time of the request. */
  ghost predicate FeedTells(a: Db, b: Db, now: int) {
    a.changes <= b.changes &&
    forall i :: |a.changes| <= i < |b.changes| ==>
      b.changes[i].at == now && Tells(a.nodes, b.nodes, b.changes[i]) &&
      AttributesTell(a.attributes, b.attributes, b.changes[i])
  }

  /** A row as it is first inserted. */
  predicate Fresh(n: Node, now: int) {
    n.revision == 1 && n.createdAt == now && n.modifiedAt == now && n.accessedAt == now && n.trashedAt.None?
  }

  /** The next revision of a row: the same kind of thing, made at the same time. */
  predicate Succeeds(m: Node, n: Node, now: int) {
    n.revision == m.revision + 1 && n.modifiedAt == now && n.createdAt == m.createdAt && n.kind == m.kind &&
    n.target == m.target && n.accessedAt == if n.generation != m.generation then now else m.accessedAt
  }

  /** `touch` counts as a change too, and as a reading. */
  ghost predicate OnlyTouches(a: Nodes, b: Nodes, now: int) {
    forall x :: x in b ==>
      x in a && (b[x] == a[x] || b[x] == a[x].(revision := a[x].revision + 1, modifiedAt := now, accessedAt := now))
  }

  /** Rows change by one revision at a time, and new ones begin with the first. */
  ghost predicate RowsAlter(a: Nodes, b: Nodes, now: int) {
    (forall x :: x in a && x in b && b[x] != a[x] ==> Succeeds(a[x], b[x], now)) &&
    forall x :: x in b && x !in a ==> Fresh(b[x], now)
  }

  /** All three, of a request that the feed must not pass over. */
  ghost predicate Told(a: Db, b: Db, now: int) {
    FeedTells(a, b, now) && RowsAlter(a.nodes, b.nodes, now) && (b.nodes == a.nodes || |b.changes| > |a.changes|)
  }

  lemma NothingToTell(a: Db, now: int)
    ensures Told(a, a, now)
  {
  }

  /** One row more in the feed. */
  lemma OneRow(a: Db, b: Db, kind: ChangeKind, node: Option<Id>, oldPath: Option<Segments>, newPath: Option<Segments>,
               revision: Option<nat>, now: int)
    requires a.changes == b.changes
    requires Tells(a.nodes, b.nodes, Change(b.changeSeq + 1, kind, node, oldPath, newPath, revision, now))
    requires kind == AttributeSet || kind == AttributeRemoved ==>
               AttributesTell(a.attributes, b.attributes,
                              Change(b.changeSeq + 1, kind, node, oldPath, newPath, revision, now))
    ensures var c := AppendChange(b, kind, node, oldPath, newPath, revision, now);
            FeedTells(a, c, now) && c.nodes == b.nodes && |c.changes| > |a.changes|
  {
    hide Tells;
  }

  // --- remove, trash, restore, purge -----------------------------------------

  lemma RemoveTells(db: Db, root: Id, path: Segments, recursive: bool, expected: Option<nat>, now: int)
    requires Inv(db, root)
    ensures Told(db, Remove(db, path, recursive, expected, now).db, now)
  {
    RemoveIs(db, path, recursive, expected, now);
    LookedUp(db, root, path, None);
    var s := Remove(db, path, recursive, expected, now);
    hide Inv, Remove, Named, Leads, Below, FeedTells, Tells, AttributesTell, AppendChange, RowsAlter;
    hide Subtree, GenerationsOf;
    if s.outcome.Finished? {
      var x := Named(db.nodes, path).value;
      assert Meets(db, path, None, x);
      PurgedRows(db, x, now);
      TellsRemoved(db.nodes, PurgeSubtree(db, x).nodes, db.changeSeq + 1, x, path, now);
      OneRow(db, PurgeSubtree(db, x), Removed, Some(x), Some(path), None, None, now);
    } else {
      NothingToTell(db, now);
    }
  }

  lemma PurgedRows(db: Db, x: Id, now: int)
    requires x in db.nodes
    ensures x !in PurgeSubtree(db, x).nodes && RowsAlter(db.nodes, PurgeSubtree(db, x).nodes, now)
  {
    BelowSelf(db.nodes, x);
    hide Below;
  }

  lemma TellsRemoved(a: Nodes, b: Nodes, sequence: nat, x: Id, path: Segments, now: int)
    requires x in a && x !in b && Leads(a, path, x, false)
    ensures Tells(a, b, Change(sequence, Removed, Some(x), Some(path), None, None, now))
  {
    hide Leads;
  }

  /** A trash mark is the one change that leaves the revision. */
  ghost predicate OnlyMarks(a: Db, b: Db, now: int) {
    FeedTells(a, b, now) && (b.nodes == a.nodes || |b.changes| > |a.changes|) &&
    forall x :: x in b.nodes ==>
      x in a.nodes && (b.nodes[x] == a.nodes[x] || b.nodes[x] == a.nodes[x].(trashedAt := Some(now)))
  }

  lemma TrashTells(db: Db, root: Id, path: Segments, expected: Option<nat>, now: int)
    requires Inv(db, root)
    ensures OnlyMarks(db, TrashPath(db, path, expected, now).db, now)
  {
    hide Inv, TrashPath, Named, Leads, OnlyMarks, Live;
    if TrashPath(db, path, expected, now).outcome.InTrash? {
      LookedUp(db, root, path, None);
      TrashedNode(db, root, path, expected, now);
      var x := Named(db.nodes, path).value;
      assert Meets(db, path, None, x);
      MarkTells(db, x, path, now);
    } else {
      TrashOrNot(db, path, expected, now);
      NothingMarked(db, now);
    }
  }

  lemma TrashOrNot(db: Db, path: Segments, expected: Option<nat>, now: int)
    requires !TrashPath(db, path, expected, now).outcome.InTrash?
    ensures TrashPath(db, path, expected, now).db == db
  {
    hide Named;
  }

  lemma NothingMarked(db: Db, now: int)
    ensures OnlyMarks(db, db, now)
  {
  }

  lemma MarkTells(db: Db, x: Id, path: Segments, now: int)
    requires Active(db.nodes, x) && db.nodes[x].parent.Some? && Leads(db.nodes, path, x, false)
    ensures OnlyMarks(db, AppendChange(MarkTrashed(db, x, now), Trashed, Some(x), Some(path), None,
                                       Some(db.nodes[x].revision), now), now)
  {
    hide FeedTells, Tells, AttributesTell, AppendChange, Leads;
    TellsTrashed(db.nodes, x, db.changeSeq + 1, path, now);
    OneRow(db, MarkTrashed(db, x, now), Trashed, Some(x), Some(path), None, Some(db.nodes[x].revision), now);
  }

  lemma TellsTrashed(a: Nodes, x: Id, sequence: nat, path: Segments, now: int)
    requires Active(a, x) && Leads(a, path, x, false)
    ensures Tells(a, a[x := a[x].(trashedAt := Some(now))],
                  Change(sequence, Trashed, Some(x), Some(path), None, Some(a[x].revision), now))
  {
    hide Leads;
  }

  lemma RestoreTells(db: Db, root: Id, record: Id, destination: Option<Segments>, expected: Option<nat>, now: int)
    requires Inv(db, root)
    ensures Told(db, Restore(db, record, destination, expected, now).db, now)
  {
    hide Inv, RestorePlace, FeedTells, Tells, AppendChange, RowsAlter, Unmark, FetchChild;
    if Restore(db, record, destination, expected, now).outcome.Done? {
      RestoreTables(db, record, destination, expected, now);
      TrashedIsInactive(db, root, record);
      var (p, name) := RestorePlace(db.nodes, db.trash[record], destination).value;
      hide Restore;
      UnmarkTells(db, record, p, name, now);
    } else {
      Failures.FailedRestore(db, record, destination, expected, now);
      NothingToTell(db, now);
    }
  }

  lemma UnmarkTells(db: Db, record: Id, p: Id, name: string, now: int)
    requires record in db.trash && db.trash[record].node in db.nodes && !Active(db.nodes, db.trash[record].node)
    ensures var x := db.trash[record].node;
            var b := AppendChange(Unmark(db, record, p, name, now), Restored, Some(x), None, None,
                                  Some(db.nodes[x].revision + 1), now);
            Told(db, b, now)
  {
    hide FeedTells, Tells, AttributesTell, AppendChange, RowsAlter;
    UnmarkKeepsFeed(db, record, p, name, now);
    TellsRestored(db, record, p, name, db.changeSeq + 1, now);
    var x := db.trash[record].node;
    hide Unmark;
    OneRow(db, Unmark(db, record, p, name, now), Restored, Some(x), None, None, Some(db.nodes[x].revision + 1), now);
  }

  lemma UnmarkKeepsFeed(db: Db, record: Id, p: Id, name: string, now: int)
    requires record in db.trash && db.trash[record].node in db.nodes
    ensures Unmark(db, record, p, name, now).changes == db.changes
    ensures Unmark(db, record, p, name, now).changeSeq == db.changeSeq
  {
  }

  lemma TellsRestored(db: Db, record: Id, p: Id, name: string, sequence: nat, now: int)
    requires record in db.trash && db.trash[record].node in db.nodes && db.nodes[db.trash[record].node].trashedAt.Some?
    ensures var x, nodes' := db.trash[record].node, Unmark(db, record, p, name, now).nodes;
            RowsAlter(db.nodes, nodes', now) &&
            Tells(db.nodes, nodes',
                  Change(sequence, Restored, Some(x), None, None, Some(db.nodes[x].revision + 1), now))
  {
  }

  lemma PurgeTells(db: Db, root: Id, record: Id, now: int)
    requires Inv(db, root)
    ensures Told(db, Purge(db, record, now).db, now)
  {
    if record in db.trash {
      var x := db.trash[record].node;
      TrashedIsInactive(db, root, record);
      PurgedRows(db, x, now);
      PurgeIs(db, record, now);
      hide Purge, Inv, FeedTells, Tells, AttributesTell, RowsAlter, Subtree, GenerationsOf, AppendChange;
      TellsPurged(db.nodes, PurgeSubtree(db, x).nodes, db.changeSeq + 1, x, now);
      OneRow(db, PurgeSubtree(db, x), ChangeKind.Purged, Some(x), None, None, None, now);
    } else {
      NothingToTell(db, now);
    }
  }

  lemma PurgeIs(db: Db, record: Id, now: int)
    requires record in db.trash
    ensures var x := db.trash[record].node;
            Purge(db, record, now).db ==
            AppendChange(PurgeSubtree(db, x), ChangeKind.Purged, Some(x), None, None, None, now)
  {
    hide Subtree, GenerationsOf;
  }

  lemma TellsPurged(a: Nodes, b: Nodes, sequence: nat, x: Id, now: int)
    requires x in a && x !in b && a[x].trashedAt.Some?
    ensures Tells(a, b, Change(sequence, ChangeKind.Purged, Some(x), None, None, None, now))
  {
  }

  // --- one row updated, one inserted -----------------------------------------

  /** An update of one node that a path led to, noted with its new revision. */
  lemma UpdateTells(a: Db, b: Db, x: Id, kind: ChangeKind, path: Segments, now: int)
    requires x in a.nodes && x in b.nodes && b.nodes == a.nodes[x := b.nodes[x]] && b.changes == a.changes
    requires Succeeds(a.nodes[x], b.nodes[x], now)
    requires Leads(a.nodes, path, x, false) && kind in {Modified, AttributeSet, AttributeRemoved}
    requires (kind == Modified) == (b.nodes[x].generation != a.nodes[x].generation)
    requires kind != Modified ==>
               AttributesTell(a.attributes, b.attributes,
                              Change(b.changeSeq + 1, kind, Some(x), None, Some(path), Some(b.nodes[x].revision), now))
    ensures Told(a, AppendChange(b, kind, Some(x), None, Some(path), Some(a.nodes[x].revision + 1), now), now)
  {
    hide FeedTells, Leads, AppendChange, AttributesTell;
    assert Renewed(a.nodes, b.nodes, Change(b.changeSeq + 1, kind, Some(x), None, Some(path),
                                            Some(a.nodes[x].revision + 1), now), x);
    hide Renewed;
    OneRow(a, b, kind, Some(x), None, Some(path), Some(a.nodes[x].revision + 1), now);
  }

  /** A new node, noted where it stands. */
  lemma InsertTells(a: Db, b: Db, x: Id, path: Segments, now: int)
    requires x !in a.nodes && x in b.nodes && b.nodes == a.nodes[x := b.nodes[x]] && b.changes == a.changes
    requires Fresh(b.nodes[x], now) && StandsAt(a.nodes, b.nodes, path, x)
    ensures Told(a, AppendChange(b, Created, Some(x), None, Some(path), Some(1), now), now)
  {
    hide FeedTells, StandsAt, AppendChange, AttributesTell;
    assert IsNew(a.nodes, b.nodes, Change(b.changeSeq + 1, Created, Some(x), None, Some(path), Some(1), now), x);
    hide IsNew;
    OneRow(a, b, Created, Some(x), None, Some(path), Some(1), now);
  }

  /** The tables with other attributes of `x`, and its revision bumped. */
  function Reattributed(db: Db, x: Id, held: Attributes, now: int): Db
    requires x in db.nodes
  {
    UpdateNode(db, x, BumpedNode(db.nodes[x], now)).(attributes := db.attributes[x := held])
  }

  lemma ReattributedTells(db: Db, x: Id, held: Attributes, kind: ChangeKind, path: Segments, key: string, now: int)
    requires x in db.nodes && Leads(db.nodes, path, x, false)
    requires var before := AttributesOf(db.attributes, x);
             (kind == AttributeSet && key in held && held - {key} == before - {key}) ||
             (kind == AttributeRemoved && key in before && held == before - {key})
    ensures Told(db, AppendChange(Reattributed(db, x, held, now), kind, Some(x), None, Some(path),
                                  Some(db.nodes[x].revision + 1), now), now)
  {
    var b := Reattributed(db, x, held, now);
    assert AttributesOf(b.attributes, x) == held;
    hide Told, Leads, AppendChange;
    UpdateTells(db, b, x, kind, path, now);
  }

  lemma AttributeTablesAre(db: Db, path: Segments, key: string, value: Bytes, expected: Option<nat>, now: int)
    ensures var given := SetAttribute(db, path, key, value, expected, now).db;
            given == db ||
            (Named(db.nodes, path).Ok? &&
             var x := Named(db.nodes, path).value;
             given == AppendChange(Reattributed(db, x, AttributesOf(db.attributes, x)[key := value], now), AttributeSet,
                                   Some(x), None, Some(path), Some(db.nodes[x].revision + 1), now))
    ensures var gone := RemoveAttribute(db, path, key, expected, now).db;
            gone == db ||
            (Named(db.nodes, path).Ok? &&
             var x := Named(db.nodes, path).value;
             key in AttributesOf(db.attributes, x) &&
             gone == AppendChange(Reattributed(db, x, AttributesOf(db.attributes, x) - {key}, now), AttributeRemoved,
                                  Some(x), None, Some(path), Some(db.nodes[x].revision + 1), now))
  {
    hide Named, AppendChange;
  }

  lemma AttributeTells(db: Db, root: Id, path: Segments, key: string, value: Bytes, expected: Option<nat>, now: int)
    requires Inv(db, root)
    ensures Told(db, SetAttribute(db, path, key, value, expected, now).db, now)
    ensures Told(db, RemoveAttribute(db, path, key, expected, now).db, now)
  {
    hide Inv, Named, Leads, Told, AppendChange, SetAttribute, RemoveAttribute, Reattributed;
    AttributeTablesAre(db, path, key, value, expected, now);
    LookedUp(db, root, path, None);
    NothingToTell(db, now);
    if Named(db.nodes, path).Ok? {
      var x := Named(db.nodes, path).value;
      assert Meets(db, path, None, x);
      var held := AttributesOf(db.attributes, x);
      assert held[key := value] - {key} == held - {key};
      ReattributedTells(db, x, held[key := value], AttributeSet, path, key, now);
      if key in held { ReattributedTells(db, x, held - {key}, AttributeRemoved, path, key, now); }
    }
  }

  lemma SymlinkTells(db: Db, root: Id, target: LinkTarget, link: Segments, o: CreateOptions, now: int)
    requires Inv(db, root)
    ensures Told(db, MakeSymlink(db, target, link, o, now).db, now)
  {
    UnfoldInv(db, root);
    hide Inv, ResolveDestination, Told, DirectoryFor, Occupied, Sound, MakeSymlink;
    SymlinkIs(db, target, link, o, now);
    var d := ResolveDestination(db.nodes, link);
    if MakeSymlink(db, target, link, o, now).db == db {
      NothingToTell(db, now);
    } else {
      DestinationIff(db.nodes, root, link);
      assert d == Ready(d.parent, None);
      NewLinkTells(db, d.parent, target, link, now);
    }
  }

  lemma SymlinkIs(db: Db, target: LinkTarget, link: Segments, o: CreateOptions, now: int)
    ensures var s, d := MakeSymlink(db, target, link, o, now), ResolveDestination(db.nodes, link);
            s.db == db ||
            (link != [] && d.Ready? && d.existing.None? &&
             s.db == AppendChange(InsertNode(db, LinkNode(d.parent, link[|link| - 1], target.canonical, now)),
                                  Created, Some(db.nextId), None, Some(link), Some(1), now))
  {
    hide ResolveDestination, AppendChange, InsertNode;
  }

  lemma NewLinkTells(db: Db, p: Id, target: LinkTarget, link: Segments, now: int)
    requires link != [] && DirectoryFor(db.nodes, link, p) && db.nextId !in db.nodes
    ensures Told(db, AppendChange(InsertNode(db, LinkNode(p, link[|link| - 1], target.canonical, now)),
                                  Created, Some(db.nextId), None, Some(link), Some(1), now), now)
  {
    hide Told, DirectoryFor, Resolved;
    var made := InsertNode(db, LinkNode(p, link[|link| - 1], target.canonical, now));
    assert IsChild(made.nodes, p, link[|link| - 1], db.nextId);
    InsertTells(db, made, db.nextId, link, now);
  }

  // --- file content ----------------------------------------------------------

  /** A generation dropped or staged makes no difference to what is told. */
  lemma GenerationsAside(a: Db, b: Db, c: Db, now: int)
    requires Told(a, b, now) && c == b.(generations := c.generations)
    ensures Told(a, c, now)
  {
    hide Tells, AttributesTell;
  }

  lemma FinalizeTells(db: Db, root: Id, staged: Db, path: Segments, g: Id, length: nat, create: bool,
                      expected: Option<nat>, now: int)
    requires Sound(db.nodes, root) && staged.nodes == db.nodes && staged.changes == db.changes
    requires staged.nextId !in db.nodes && g in staged.generations && Unreferenced(db.nodes, g)
    ensures Told(db, Finalize(staged, path, g, length, create, expected, now).db, now) ||
            Finalize(staged, path, g, length, create, expected, now).db == staged
  {
    hide Resolved, Told, FinalizeNew, FinalizeExisting, Sound;
    match Resolved(db.nodes, path)
    case Some(x) => FinalizeExistingTells(db, root, staged, path, x, g, length, now);
    case None =>
      if path != [] && Resolved(db.nodes, Pop(path)).Some? {
        var p := Resolved(db.nodes, Pop(path)).value;
        if db.nodes[p].kind.Directory? { FinalizeNewTells(db, root, staged, path, p, g, length, now); }
      }
  }

  function Rewritten(db: Db, x: Id, length: nat, g: Id, now: int): Db
    requires g in db.generations && x in db.nodes
  {
    CompleteGeneration(UpdateNode(db, x, RewrittenNode(db.nodes[x], length, g, now)), g, length)
  }

  lemma RewrittenRow(db: Db, x: Id, length: nat, g: Id, now: int)
    requires g in db.generations && x in db.nodes && db.nodes[x].generation != Some(g)
    ensures var b := Rewritten(db, x, length, g, now);
            x in b.nodes && b.nodes == db.nodes[x := b.nodes[x]] && b.changes == db.changes &&
            Succeeds(db.nodes[x], b.nodes[x], now) && b.nodes[x].generation == Some(g)
  {
  }

  lemma FinalizeExistingTells(db: Db, root: Id, staged: Db, path: Segments, x: Id, g: Id, length: nat, now: int)
    requires Sound(db.nodes, root) && staged.nodes == db.nodes && staged.changes == db.changes
    requires g in staged.generations && Resolved(db.nodes, path) == Some(x) && db.nodes[x].generation != Some(g)
    ensures Told(db, FinalizeExisting(staged, path, x, g, length, now), now)
  {
    hide Resolved, Told, Sound, Leads, FinalizeExisting, AppendChange, Rewritten, AttributesTell;
    PlainLeads(db.nodes, root, path, x, false);
    FinalizeExistingIs(staged, path, x, g, length, now);
    RewrittenRow(staged, x, length, g, now);
    var rewritten := Rewritten(staged, x, length, g, now);
    UpdateTells(db, rewritten, x, Modified, path, now);
    var noted := AppendChange(rewritten, Modified, Some(x), None, Some(path), Some(db.nodes[x].revision + 1), now);
    GenerationsAside(db, noted, FinalizeExisting(staged, path, x, g, length, now), now);
  }

  lemma FinalizeExistingIs(db: Db, path: Segments, x: Id, g: Id, length: nat, now: int)
    requires g in db.generations && x in db.nodes
    ensures var noted := AppendChange(Rewritten(db, x, length, g, now), Modified, Some(x), None, Some(path),
                                      Some(db.nodes[x].revision + 1), now);
            var b := FinalizeExisting(db, path, x, g, length, now);
            b == noted.(generations := b.generations)
  {
  }

  lemma FinalizeNewTells(db: Db, root: Id, staged: Db, path: Segments, p: Id, g: Id, length: nat, now: int)
    requires Sound(db.nodes, root) && staged.nodes == db.nodes && staged.changes == db.changes
    requires staged.nextId !in db.nodes && g in staged.generations
    requires path != [] && Resolved(db.nodes, Pop(path)) == Some(p) && db.nodes[p].kind.Directory?
    ensures Told(db, FinalizeNew(staged, path, p, g, length, now), now)
  {
    PlainLeads(db.nodes, root, Pop(path), p, true);
    hide Resolved, Told, Sound, Leads, Pop;
    var node := FileNode(p, path[|path| - 1], length, g, now);
    var made := InsertNode(CompleteGeneration(staged, g, length), node);
    assert DirectoryFor(db.nodes, path, p);
    hide DirectoryFor;
    assert IsChild(made.nodes, p, path[|path| - 1], staged.nextId);
    InsertTells(db, made, staged.nextId, path, now);
  }

  lemma CommitTells(db: Db, root: Id, path: Segments, content: Bytes, create: bool, expected: Option<nat>, now: int)
    requires Inv(db, root)
    ensures Told(db, Commit(db, path, content, create, expected, now).db, now)
  {
    UnfoldInv(db, root);
    var staged := StageGeneration(db, RowsOf(content));
    FreshIdUnreferenced(db, root);
    assert staged.nextId !in db.nodes;
    hide Inv, Told, Finalize, RowsOf, Sound;
    FinalizeTells(db, root, staged, path, db.nextId, |content|, create, expected, now);
    NothingToTell(db, now);
    if Finalize(staged, path, db.nextId, |content|, create, expected, now).db == staged {
      StagedIsTold(db, content, now);
    }
  }

  lemma StagedIsTold(db: Db, content: Bytes, now: int)
    ensures Told(db, StageGeneration(db, RowsOf(content)), now)
  {
    hide RowsOf;
  }

  lemma WriteTells(db: Db, root: Id, path: Segments, source: seq<Item>, create: bool, expected: Option<nat>, now: int)
    requires Inv(db, root)
    ensures Told(db, Write(db, path, source, create, expected, now).db, now)
  {
    hide Inv, Told, Commit;
    NothingToTell(db, now);
    CommitTells(db, root, path, Gather(source), create, expected, now);
  }

  lemma WriteAtTells(db: Db, root: Id, path: Segments, offset: nat, source: seq<Item>, create: bool,
                     expected: Option<nat>, preserve: bool, now: int)
    requires Inv(db, root)
    ensures Told(db, WriteAt(db, path, offset, source, create, expected, preserve, now).db, now)
  {
    hide Inv, Told, Commit, Resolved, FileContent, Staged;
    NothingToTell(db, now);
    var x := Resolved(db.nodes, path);
    var prior := if x.Some? then FileContent(db, x.value) else [];
    CommitTells(db, root, path, Staged(prior, offset, Gather(source), preserve), create, expected, now);
  }

  lemma AppendOrTruncateTells(db: Db, root: Id, path: Segments, source: seq<Item>, length: nat, create: bool,
                              expected: Option<nat>, now: int)
    requires Inv(db, root)
    ensures Told(db, Append(db, path, source, create, expected, now).db, now)
    ensures Told(db, Truncate(db, path, length, expected, now).db, now)
  {
    hide Inv, Told, WriteAt, Resolved;
    NothingToTell(db, now);
    WriteAtTells(db, root, path, length, [], false, expected, false, now);
    WriteAtTells(db, root, path, 0, source, create, expected, true, now);
    var x := Resolved(db.nodes, path);
    if x.Some? { WriteAtTells(db, root, path, db.nodes[x.value].size, source, create, expected, true, now); }
  }

  /** A `touch` of an existing file is the one change of a row that the feed does not tell. */
  lemma TouchTells(db: Db, root: Id, path: Segments, create: bool, expected: Option<nat>, now: int)
    requires Inv(db, root)
    ensures var s := Touch(db, path, create, expected, now);
            FeedTells(db, s.db, now) && (Resolved(db.nodes, path).None? ==> Told(db, s.db, now)) &&
            (Resolved(db.nodes, path).Some? ==>
              OnlyTouches(db.nodes, s.db.nodes, now) && s.db.changes == db.changes)
  {
    hide Inv, Resolved, RowsOf, Finalize, Tells;
    match Resolved(db.nodes, path)
    case Some(x) =>
    case None => TouchNewTells(db, root, path, create, expected, now);
  }

  lemma TouchNewTells(db: Db, root: Id, path: Segments, create: bool, expected: Option<nat>, now: int)
    requires Inv(db, root) && Resolved(db.nodes, path).None?
    ensures Told(db, Touch(db, path, create, expected, now).db, now)
  {
    UnfoldInv(db, root);
    var staged := CompleteGeneration(StageGeneration(db, RowsOf([])), db.nextId, 0);
    FreshIdUnreferenced(db, root);
    assert staged.nextId !in db.nodes;
    hide Inv, Told, Resolved, RowsOf, Finalize, Sound;
    NothingToTell(db, now);
    FinalizeTells(db, root, staged, path, db.nextId, 0, true, None, now);
    if Finalize(staged, path, db.nextId, 0, true, None, now).db == staged {
      StagedIsTold(db, [], now);
      GenerationsAside(db, StageGeneration(db, RowsOf([])), staged, now);
    }
  }

  // --- move ------------------------------------------------------------------

  lemma MoveTells(db: Db, root: Id, from: Segments, to: Segments, overwrite: bool, expected: Option<nat>, now: int)
    requires Inv(db, root)
    ensures Told(db, MoveTo(db, from, to, overwrite, expected, now).db, now)
  {
    hide Inv, Told, Named, ResolveDestination, MoveTo, MoveOver, FromTo;
    if MoveTo(db, from, to, overwrite, expected, now).outcome.Done? {
      AcceptedMove(db, from, to, overwrite, expected, now);
      FromToIff(db, root, from, to, None);
      var s, d := Named(db.nodes, from).value, ResolveDestination(db.nodes, to);
      assert FromTo(db, from, to, None, s, d.parent, d.existing);
      UnfoldInv(db, root);
      NamedIsProper(db.nodes, root, from);
      MoveOverTells(db, s, d.parent, d.existing, from, to, now);
    } else {
      RefusedMove(db, from, to, overwrite, expected, now);
      NothingToTell(db, now);
    }
  }

  lemma MoveOverTells(db: Db, s: Id, p: Id, existing: Option<Id>, from: Segments, to: Segments, now: int)
    requires to != [] && FromTo(db, from, to, None, s, p, existing) && s in db.nodes && Active(db.nodes, s)
    ensures Told(db, MoveOver(db, s, p, existing, from, to, now), now)
  {
    hide Told, MoveOver, Cleared, Leads, DirectoryFor, Occupied, Resolved, AppendChange;
    MoveOverIs(db, s, p, existing, from, to, now);
    ClearedIs(db, existing);
    var cleared := Cleared(db, existing);
    var node := MovedNode(db.nodes[s], p, to[|to| - 1], now);
    var moved := if s in cleared.nodes then UpdateNode(cleared, s, node) else cleared;
    TellsMoved(db.nodes, moved.nodes, db.changeSeq + 1, s, node, p, from, to, now);
    MovedTells(db, moved, s, node, from, to, now);
  }

  lemma ClearedIs(db: Db, existing: Option<Id>)
    ensures var cleared := Cleared(db, existing);
            cleared.changes == db.changes && cleared.changeSeq == db.changeSeq &&
            forall y :: y in cleared.nodes ==> y in db.nodes && cleared.nodes[y] == db.nodes[y]
  {
    hide Below;
  }

  lemma TellsMoved(a: Nodes, b: Nodes, sequence: nat, s: Id, node: Node, p: Id, from: Segments, to: Segments, now: int)
    requires s in a && Active(a, s) && Leads(a, from, s, false) && to != [] && DirectoryFor(a, to, p)
    requires node == MovedNode(a[s], p, to[|to| - 1], now) && (s in b ==> b[s] == node)
    ensures Tells(a, b, Change(sequence, Moved, Some(s), Some(from), Some(to), Some(node.revision), now))
  {
    hide Leads, DirectoryFor, Resolved;
    if s in b {
      assert IsChild(b, p, to[|to| - 1], s);
      assert StandsAt(a, b, to, s);
    }
  }

  lemma MovedTells(db: Db, moved: Db, s: Id, node: Node, from: Segments, to: Segments, now: int)
    requires s in db.nodes && moved.changes == db.changes && moved.changeSeq == db.changeSeq
    requires Succeeds(db.nodes[s], node, now)
    requires s in moved.nodes ==> moved.nodes[s] == node
    requires forall y :: y in moved.nodes && y != s ==> y in db.nodes && moved.nodes[y] == db.nodes[y]
    requires Tells(db.nodes, moved.nodes,
                   Change(db.changeSeq + 1, Moved, Some(s), Some(from), Some(to), Some(node.revision), now))
    ensures Told(db, AppendChange(moved, Moved, Some(s), Some(from), Some(to), Some(node.revision), now), now)
  {
    hide FeedTells, Tells, AttributesTell, AppendChange;
    OneRow(db, moved, Moved, Some(s), Some(from), Some(to), Some(node.revision), now);
  }

  // --- copy ------------------------------------------------------------------

  /** Only fresh rows are added, and nothing is noted yet. */
  ghost predicate OnlyFresh(a: Db, b: Db, now: int) {
    b.changes == a.changes && b.changeSeq == a.changeSeq && a.nextId <= b.nextId && (IdsFresh(a) ==> IdsFresh(b)) &&
    (forall x :: x in a.nodes ==> x in b.nodes && b.nodes[x] == a.nodes[x]) &&
    forall x :: x in b.nodes && x !in a.nodes ==> a.nextId <= x && Fresh(b.nodes[x], now)
  }

  lemma OnlyFreshTwice(a: Db, b: Db, c: Db, now: int)
    requires OnlyFresh(a, b, now) && OnlyFresh(b, c, now)
    ensures OnlyFresh(a, c, now)
  {
    hide IdsFresh;
  }

  lemma CopyOneIsFresh(db: Db, e: Pending, now: int)
    requires IdsFresh(db) && e.source in db.nodes
    ensures OnlyFresh(db, CopyOne(db, e, now), now)
    ensures var b := CopyOne(db, e, now); b.nextId > db.nextId && IsChild(b.nodes, e.parent, e.name, db.nextId)
    ensures db.nextId !in db.nodes
  {
  }

  lemma {:induction false} CopyLoopIsFresh(db: Db, stack: seq<Pending>, now: int, fuel: nat)
    requires IdsFresh(db) && SourcesExist(db, stack) && CopyLoop(db, stack, now, fuel).Some?
    ensures OnlyFresh(db, CopyLoop(db, stack, now, fuel).value, now)
    decreases fuel
  {
    hide OnlyFresh, CopyOne, NextStack, IdsFresh;
    if stack == [] {
      NothingFresh(db, now);
    } else {
      NextStackExists(db, stack, now);
      var next := CopyOne(db, stack[|stack| - 1], now);
      CopyOneIsFresh(db, stack[|stack| - 1], now);
      FreshStays(db, next, now);
      CopyLoopIsFresh(next, NextStack(db, stack, now), now, fuel - 1);
      OnlyFreshTwice(db, next, CopyLoop(db, stack, now, fuel).value, now);
    }
  }

  lemma NothingFresh(db: Db, now: int)
    ensures OnlyFresh(db, db, now)
  {
  }

  lemma FreshStays(a: Db, b: Db, now: int)
    requires OnlyFresh(a, b, now) && IdsFresh(a)
    ensures IdsFresh(b)
  {
  }

  lemma CopySubtreeIsFresh(db: Db, source: Id, parent: Id, name: string, now: int)
    requires IdsFresh(db) && source in db.nodes && CopySubtree(db, source, parent, name, now).Some?
    ensures var b := CopySubtree(db, source, parent, name, now).value;
            OnlyFresh(db, b, now) && db.nextId !in db.nodes && IsChild(b.nodes, parent, name, db.nextId)
  {
    hide CopyLoop, OnlyFresh, CopyOne, NextStack, IdsFresh;
    var e := Pending(source, parent, name);
    var fuel :| CopyLoop(db, [e], now, fuel).Some? &&
        CopySubtree(db, source, parent, name, now) == CopyLoop(db, [e], now, fuel);
    CopyLoopIsFresh(db, [e], now, fuel);
    FirstStays(db, e, now, fuel);
  }

  lemma FirstStays(db: Db, e: Pending, now: int, fuel: nat)
    requires IdsFresh(db) && e.source in db.nodes && CopyLoop(db, [e], now, fuel).Some?
    ensures db.nextId !in db.nodes && IsChild(CopyLoop(db, [e], now, fuel).value.nodes, e.parent, e.name, db.nextId)
  {
    hide CopyOne, NextStack, IdsFresh;
    NextStackExists(db, [e], now);
    var next := CopyOne(db, e, now);
    CopyOneIsFresh(db, e, now);
    FreshStays(db, next, now);
    CopyLoopIsFresh(next, NextStack(db, [e], now), now, fuel - 1);
    assert CopyLoop(db, [e], now, fuel) == CopyLoop(next, NextStack(db, [e], now), now, fuel - 1);
  }

  lemma CopyTells(db: Db, root: Id, from: Segments, to: Segments, recursive: bool, overwrite: bool,
                  expected: Option<nat>, now: int)
    requires Inv(db, root) && CopyTo(db, from, to, recursive, overwrite, expected, now).Some?
    ensures Told(db, CopyTo(db, from, to, recursive, overwrite, expected, now).value.db, now)
  {
    hide Inv, Told, Named, ResolveDestination, CopyOver, FromTo, IdsFresh, CopyTo;
    OnlyCopyingMayNotEnd(db, from, to, recursive, overwrite, expected, now);
    if CopyTo(db, from, to, recursive, overwrite, expected, now).value.outcome.Failed? {
      Failures.FailedCopy(db, from, to, recursive, overwrite, expected, now);
      NothingToTell(db, now);
    } else {
      CopyOutcome(db, from, to, recursive, overwrite, expected, now);
      FromToIff(db, root, from, to, None);
      var s, d := Named(db.nodes, from).value, ResolveDestination(db.nodes, to);
      assert FromTo(db, from, to, None, s, d.parent, d.existing);
      UnfoldInv(db, root);
      DestinationIsProper(db.nodes, root, to);
      CopyOverTells(db, s, d.parent, d.existing, from, to, now);
    }
  }

  lemma CopyOverTells(db: Db, s: Id, p: Id, existing: Option<Id>, from: Segments, to: Segments, now: int)
    requires IdsFresh(db) && to != [] && FromTo(db, from, to, None, s, p, existing)
    requires CopyOver(db, s, p, existing, from, to, now).Some?
    ensures Told(db, CopyOver(db, s, p, existing, from, to, now).value.db, now)
  {
    var cleared := Cleared(db, existing);
    ClearedIds(db, existing);
    ClearedIs(db, existing);
    hide Told, PurgeSubtree, CopySubtree, Leads, DirectoryFor, Occupied, OnlyFresh, IdsFresh;
    if Active(cleared.nodes, s) {
      var copied := CopySubtree(cleared, s, p, to[|to| - 1], now).value;
      CopySubtreeIsFresh(cleared, s, p, to[|to| - 1], now);
      CopiedTells(db, cleared, copied, s, p, from, to, now);
    } else {
      NothingToTell(db, now);
    }
  }

  lemma ClearedIds(db: Db, existing: Option<Id>)
    requires IdsFresh(db)
    ensures IdsFresh(Cleared(db, existing)) && Cleared(db, existing).nextId == db.nextId && db.nextId !in db.nodes
  {
    hide Below;
  }

  lemma CopiedTells(db: Db, cleared: Db, copied: Db, s: Id, p: Id, from: Segments, to: Segments, now: int)
    requires cleared.changes == db.changes && cleared.changeSeq == db.changeSeq && cleared.nextId == db.nextId
    requires forall y :: y in cleared.nodes ==> y in db.nodes && cleared.nodes[y] == db.nodes[y]
    requires OnlyFresh(cleared, copied, now) && IdsFresh(db)
    requires to != [] && IsChild(copied.nodes, p, to[|to| - 1], db.nextId)
    requires Leads(db.nodes, from, s, false) && DirectoryFor(db.nodes, to, p)
    ensures Told(db, AppendChange(copied, Copied, Some(db.nextId), Some(from), Some(to), Some(1), now), now)
  {
    FreshRowsAlter(db, cleared, copied, now);
    assert db.nextId !in db.nodes && db.nextId !in cleared.nodes && copied.nodes[db.nextId].revision == 1;
    hide OnlyFresh, IdsFresh, FeedTells, Tells, AttributesTell, AppendChange, RowsAlter, Leads, DirectoryFor, Resolved;
    hide Fresh;
    TellsCopied(db.nodes, copied.nodes, db.changeSeq + 1, db.nextId, s, p, from, to, now);
    OneRow(db, copied, Copied, Some(db.nextId), Some(from), Some(to), Some(1), now);
  }

  lemma FreshRowsAlter(db: Db, cleared: Db, copied: Db, now: int)
    requires forall y :: y in cleared.nodes ==> y in db.nodes && cleared.nodes[y] == db.nodes[y]
    requires OnlyFresh(cleared, copied, now) && IdsFresh(db) && cleared.nextId == db.nextId
    ensures RowsAlter(db.nodes, copied.nodes, now) && copied.changes == cleared.changes
    ensures copied.changeSeq == cleared.changeSeq
  {
  }

  lemma TellsCopied(a: Nodes, b: Nodes, sequence: nat, x: Id, s: Id, p: Id, from: Segments, to: Segments, now: int)
    requires x !in a && to != [] && IsChild(b, p, to[|to| - 1], x)
    requires Leads(a, from, s, false) && DirectoryFor(a, to, p)
    ensures Tells(a, b, Change(sequence, Copied, Some(x), Some(from), Some(to), Some(1), now))
  {
    hide Leads, DirectoryFor, Resolved;
    assert StandsAt(a, b, to, x);
    assert IsNew(a, b, Change(sequence, Copied, Some(x), Some(from), Some(to), Some(1), now), x);
  }

  // --- mkdir -----------------------------------------------------------------

  /** A row about a new directory: where its path leads, there it stands. */
  ghost predicate TellsMade(a: Nodes, b: Nodes, c: Change) {
    c.kind == Created && c.node.Some? && c.node.value !in a && c.node.value in b && c.revision == Some(1) &&
    c.oldPath.None? && c.newPath.Some? && c.newPath.value != [] && Resolved(b, c.newPath.value) == c.node
  }

  ghost predicate OnlyMakes(a: Db, b: Db, now: int) {
    a.changes <= b.changes && (b.nodes == a.nodes || |b.changes| > |a.changes|) &&
    (forall y :: y in a.nodes ==> y in b.nodes && b.nodes[y] == a.nodes[y]) &&
    (forall y :: y in b.nodes && y !in a.nodes ==> Fresh(b.nodes[y], now)) &&
    forall i :: |a.changes| <= i < |b.changes| ==> b.changes[i].at == now && TellsMade(a.nodes, b.nodes, b.changes[i])
  }

  lemma NothingMade(a: Db, now: int)
    ensures OnlyMakes(a, a, now)
  {
  }

  lemma MadeTwice(a: Db, b: Db, c: Db, now: int)
    requires OnlyMakes(a, b, now) && OnlyMakes(b, c, now) && OnlyAdds(b.nodes, c.nodes)
    ensures OnlyMakes(a, c, now)
  {
    hide Resolved;
    forall i | |a.changes| <= i < |c.changes|
      ensures c.changes[i].at == now && TellsMade(a.nodes, c.nodes, c.changes[i])
    {
      if i < |b.changes| { assert c.changes[i] == b.changes[i] && TellsMade(a.nodes, b.nodes, b.changes[i]); }
    }
  }

  lemma OneMade(a: Db, b: Db, id: Id, q: Segments, now: int)
    requires id !in a.nodes && id in b.nodes && b.nodes == a.nodes[id := b.nodes[id]] && Fresh(b.nodes[id], now)
    requires b.changes == a.changes && q != [] && Resolved(b.nodes, q) == Some(id)
    ensures OnlyMakes(a, AppendChange(b, Created, Some(id), None, Some(q), Some(1), now), now)
  {
    hide Resolved;
    var c := Change(b.changeSeq + 1, Created, Some(id), None, Some(q), Some(1), now);
    assert TellsMade(a.nodes, b.nodes, c);
    hide TellsMade;
    var d := AppendChange(b, Created, Some(id), None, Some(q), Some(1), now);
    assert d.nodes == b.nodes && d.changes == a.changes + [c];
  }

  lemma CreatedTells(db: Db, root: Id, current: Id, path: Segments, n: nat, now: int)
    requires Inv(db, root) && n < |path| && Resolved(db.nodes, path[..n]) == Some(current)
    requires db.nodes[current].kind.Directory? && FetchChild(db.nodes, current, path[n]).None?
    ensures OnlyMakes(db, CreateDirectory(db, current, path[n], path[..n + 1], now), now)
  {
    hide Inv, Resolved, FetchChild, OnlyMakes;
    CreatedRow(db, root, current, path, n, now);
    OneMade(db, InsertNode(db, DirectoryNode(current, path[n], now)), db.nextId, path[..n + 1], now);
  }

  lemma {:induction false} MkdirTellsAt(db: Db, root: Id, current: Id, path: Segments, n: nat, o: CreateOptions,
                                        now: int)
    requires Inv(db, root) && n < |path| && Resolved(db.nodes, path[..n]) == Some(current)
    requires MkdirAt(db, current, path, n, o, now).outcome.Done?
    ensures OnlyMakes(db, MkdirAt(db, current, path, n, o, now).db, now)
    decreases |path| - n
  {
    UnfoldInv(db, root);
    hide Inv, Resolved, Sound, FetchChild, CreateDirectory, MkdirAt, OnlyMakes, Acyclic, NamesDistinct, Rooted;
    StepDown(db.nodes, root, current, path, n);
    NothingMade(db, now);
    var child := FetchChild(db.nodes, current, path[n]);
    if !db.nodes[current].kind.Directory? {
      NotInDirectory(db, current, path, n, o, now);
    } else if child.Some? {
      if n + 1 < |path| {
        KnownAncestor(db, current, path, n, o, now);
        MkdirTellsAt(db, root, child.value, path, n + 1, o, now);
      } else {
        KnownLeaf(db, current, path, n, o, now);
      }
    } else {
      CreatedTells(db, root, current, path, n, now);
      if n + 1 == |path| {
        MissingLeaf(db, current, path, n, o, now);
      } else {
        CreatedRow(db, root, current, path, n, now);
        MissingStep(db, current, path, n, o, now);
        var made := CreateDirectory(db, current, path[n], path[..n + 1], now);
        MkdirTellsAt(made, root, db.nextId, path, n + 1, o, now);
        MadeStays(made, root, db.nextId, path, n + 1, o, now);
        MadeTwice(db, made, MkdirAt(made, db.nextId, path, n + 1, o, now).db, now);
      }
    }
  }

  lemma MadeStays(db: Db, root: Id, current: Id, path: Segments, n: nat, o: CreateOptions, now: int)
    requires Inv(db, root) && n < |path| && Resolved(db.nodes, path[..n]) == Some(current)
    requires MkdirAt(db, current, path, n, o, now).outcome.Done?
    ensures OnlyAdds(db.nodes, MkdirAt(db, current, path, n, o, now).db.nodes)
  {
    hide Inv, Resolved, MkdirFrom, OnlyAdds;
    MkdirFromMakesPath(db, root, current, path[..n], path[n..], o, now);
  }

  lemma MkdirTells(db: Db, root: Id, path: Segments, o: CreateOptions, now: int)
    requires Inv(db, root)
    ensures Told(db, Mkdir(db, path, o, now).db, now)
  {
    MkdirAnswers(db, root, path, o, now);
    hide Told, Passable, EndRefusal;
    if Mkdir(db, path, o, now).outcome.Done? {
      UnfoldInv(db, root);
      MkdirKeepsInv(db, root, path, o, now);
      UnfoldInv(Mkdir(db, path, o, now).db, root);
      RootIsFetched(db.nodes, root);
      assert path[..0] == [] && path[0..] == path;
      assert Mkdir(db, path, o, now) == MkdirAt(db, root, path, 0, o, now);
      assert Resolved(db.nodes, path[..0]) == Some(root);
      hide Inv, Mkdir, MkdirAt, Sound, Resolved, OnlyMakes;
      MkdirTellsAt(db, root, root, path, 0, o, now);
      MadeIsTold(db, Mkdir(db, path, o, now).db, root, now);
    } else {
      hide Inv, Mkdir;
      Failures.FailedMkdir(db, root, path, o, now);
      NothingToTell(db, now);
    }
  }

  lemma MadeIsTold(a: Db, b: Db, root: Id, now: int)
    requires OnlyMakes(a, b, now) && Sound(b.nodes, root)
    ensures Told(a, b, now)
  {
    forall i | |a.changes| <= i < |b.changes|
      ensures b.changes[i].at == now && Tells(a.nodes, b.nodes, b.changes[i])
      ensures AttributesTell(a.attributes, b.attributes, b.changes[i])
    {
      MadeStands(a.nodes, b.nodes, root, b.changes[i]);
    }
    hide Tells, TellsMade, Resolved, Sound;
  }

  lemma MadeStands(a: Nodes, b: Nodes, root: Id, c: Change)
    requires TellsMade(a, b, c) && Sound(b, root)
    ensures Tells(a, b, c)
  {
    LastStep(b, root, c.newPath.value, c.node.value);
    hide Resolved, Sound;
    assert StandsAt(a, b, c.newPath.value, c.node.value);
    assert IsNew(a, b, c, c.node.value);
  }

  // --- every request ---------------------------------------------------------

  /** How a request may alter the rows that are there. */
  ghost predicate RowsTell(a: Db, b: Db, op: Operation, now: int) {
    if op.OpTrash? then OnlyMarks(a, b, now)
    else if op.OpTouch? && Resolved(a.nodes, op.path).Some? then OnlyTouches(a.nodes, b.nodes, now)
    else RowsAlter(a.nodes, b.nodes, now)
  }

  /**
   Whatever a request does: the rows it adds to the change feed are true; a row of the
   tree that differs has one revision more, or just a trash mark; and the tree does not
   change without a row in the feed, but for a `touch` of a file that is there.
   */
  lemma EveryRequestIsTold(db: Db, root: Id, op: Operation, now: int)
    requires Inv(db, root) && Apply(db, op, now).Some?
    ensures var b := Apply(db, op, now).value.db;
            FeedTells(db, b, now) &&
            RowsTell(db, b, op, now) &&
            (b.nodes == db.nodes || |b.changes| > |db.changes| ||
             (op.OpTouch? && Resolved(db.nodes, op.path).Some? && b.changes == db.changes))
  {
    hide Inv, Mkdir, MakeSymlink, CopyTo, MoveTo, Remove, TrashPath, Restore, Purge, SetAttribute, RemoveAttribute;
    hide Touch, Write, WriteAt, Append, Truncate, Resolved, FeedTells, RowsAlter, OnlyTouches;
    match op
    case OpMkdir(path, o) => MkdirTells(db, root, path, o, now);
    case OpTouch(path, create, expected) => TouchTells(db, root, path, create, expected, now);
    case OpCopy(from, to, recursive, overwrite, expected) =>
      CopyTells(db, root, from, to, recursive, overwrite, expected, now);
    case OpMove(from, to, overwrite, expected) => MoveTells(db, root, from, to, overwrite, expected, now);
    case OpRemove(path, recursive, expected) => RemoveTells(db, root, path, recursive, expected, now);
    case OpSymlink(target, link, o) => SymlinkTells(db, root, target, link, o, now);
    case OpTrash(path, expected) => TrashTells(db, root, path, expected, now);
    case OpRestore(record, destination, expected) => RestoreTells(db, root, record, destination, expected, now);
    case OpPurge(record) => PurgeTells(db, root, record, now);
    case OpSetAttribute(path, key, value, expected) => AttributeTells(db, root, path, key, value, expected, now);
    case OpRemoveAttribute(path, key, expected) => AttributeTells(db, root, path, key, [], expected, now);
    case OpWrite(path, source, create, expected) => WriteTells(db, root, path, source, create, expected, now);
    case OpWriteAt(path, offset, source, create, expected) =>
      WriteAtTells(db, root, path, offset, source, create, expected, true, now);
    case OpAppend(path, source, create, expected) =>
      AppendOrTruncateTells(db, root, path, source, 0, create, expected, now);
    case OpTruncate(path, length, expected) =>
      AppendOrTruncateTells(db, root, path, [], length, false, expected, now);
  }
}
