/**
 The tables of one workspace (crates/fslite-sqlite/migrations/0001_initial.sql),
 the invariant every transaction keeps, and what the basic row operations do to it.

 Ids of nodes, generations and trash records are drawn fresh from one counter.
 */
module Store {
  import opened Common
  import opened Chunks
  import opened Paths
  import opened Tree
  import opened Resolve

  datatype Generation = Generation(complete: bool, length: nat, rows: Rows)

  datatype TrashRow = TrashRow(node: Id, originalParent: Id, originalName: string, deletedAt: int)

  datatype ChangeKind =
    | Created | Modified | Copied | Moved | Removed | Trashed | Restored | Purged | AttributeSet | AttributeRemoved

  datatype Change = Change(
    sequence: nat,
    kind: ChangeKind,
    node: Option<Id>,
    oldPath: Option<Segments>,
    newPath: Option<Segments>,
    revision: Option<nat>,
    at: int)

  type Attributes = map<string, Bytes>

  datatype Db = Db(
    nodes: Nodes,
    generations: map<Id, Generation>,
    trash: map<Id, TrashRow>,
    attributes: map<Id, Attributes>,
    changes: seq<Change>,
    changeSeq: nat,
    maxFileBytes: nat,
    nextId: Id)

  const MAX_ATTRIBUTE_KEY_BYTES: nat := 256
  const MAX_ATTRIBUTE_VALUE_BYTES: nat := 4096
  const MAX_ATTRIBUTES_PER_NODE: nat := 64

  /** The bytes a generation holds. */
  function ContentOf(g: Generation): Bytes { Flatten(g.rows, NumChunks(g.length)) }

  function AttributesOf(attributes: map<Id, Attributes>, id: Id): Attributes {
    if id in attributes then attributes[id] else map[]
  }

  // --- the invariant ---------------------------------------------------------

  /** A complete generation laid out in full chunks, of the node's size and within the quota. */
  ghost predicate FileOk(node: Node, g: Generation, maxFileBytes: nat) {
    g.complete && g.length == node.size <= maxFileBytes &&
    |ContentOf(g)| == g.length && g.rows == RowsOf(ContentOf(g))
  }

  ghost predicate KindOk(node: Node, generations: map<Id, Generation>, maxFileBytes: nat) {
    if node.kind.File? then
      node.generation.Some? && node.generation.value in generations &&
      FileOk(node, generations[node.generation.value], maxFileBytes)
    else node.generation.None?
  }

  /** Every file has its own complete generation. */
  ghost predicate FilesOk(nodes: Nodes, generations: map<Id, Generation>, maxFileBytes: nat) {
    (forall x :: x in nodes ==> KindOk(nodes[x], generations, maxFileBytes)) &&
    forall x, y :: x in nodes && y in nodes && x != y && nodes[x].generation.Some? ==>
      nodes[x].generation != nodes[y].generation
  }

  /** Trash records and trash marks correspond one to one, and remember the place the node still has. */
  ghost predicate TrashOk(nodes: Nodes, trash: map<Id, TrashRow>, root: Id) {
    (forall t :: t in trash ==>
      var row := trash[t];
      row.node in nodes && row.node != root && nodes[row.node].trashedAt.Some? &&
      nodes[row.node].parent == Some(row.originalParent) && nodes[row.node].name == row.originalName) &&
    (forall t, u :: t in trash && u in trash && trash[t].node == trash[u].node ==> t == u) &&
    (forall x :: x in nodes && nodes[x].trashedAt.Some? ==> exists t :: t in trash && trash[t].node == x)
  }

  predicate AttributeOk(key: string, value: Bytes) {
    0 < Utf8Len(key) <= MAX_ATTRIBUTE_KEY_BYTES && |value| <= MAX_ATTRIBUTE_VALUE_BYTES
  }

  ghost predicate AttributesOk(nodes: Nodes, attributes: map<Id, Attributes>) {
    forall x :: x in attributes ==>
      x in nodes && |attributes[x]| <= MAX_ATTRIBUTES_PER_NODE &&
      forall key :: key in attributes[x] ==> AttributeOk(key, attributes[x][key])
  }

  /** Change sequences are exactly 1 to `changeSeq`. */
  ghost predicate FeedOk(changes: seq<Change>, changeSeq: nat) {
    |changes| == changeSeq && forall i :: 0 <= i < |changes| ==> changes[i].sequence == i + 1
  }

  ghost predicate IdsFresh(db: Db) {
    (forall x :: x in db.nodes ==> x < db.nextId) &&
    (forall g :: g in db.generations ==> g < db.nextId) &&
    (forall t :: t in db.trash ==> t < db.nextId)
  }

  ghost predicate Inv(db: Db, root: Id) {
    Sound(db.nodes, root) &&
    FilesOk(db.nodes, db.generations, db.maxFileBytes) &&
    TrashOk(db.nodes, db.trash, root) &&
    AttributesOk(db.nodes, db.attributes) &&
    FeedOk(db.changes, db.changeSeq) &&
    IdsFresh(db)
  }

  lemma UnfoldInv(db: Db, root: Id)
    requires Inv(db, root)
    ensures Sound(db.nodes, root) && Rooted(db.nodes, root) && Acyclic(db.nodes) && NamesDistinct(db.nodes) &&
            IdsFresh(db)
  {
  }

  function RootNode(now: int): Node {
    Node(None, "", Directory, 0, 1, now, now, now, None, None, None)
  }

  /** `create_workspace`. */
  function NewWorkspace(maxFileBytes: nat, now: int): Db {
    Db(map[0 := RootNode(now)], map[], map[], map[], [], 0, maxFileBytes, 1)
  }

  lemma NewWorkspaceIsValid(maxFileBytes: nat, now: int)
    ensures Inv(NewWorkspace(maxFileBytes, now), 0)
  {
    assert Ranked(NewWorkspace(maxFileBytes, now).nodes, map[0 := 0]);
  }

  // --- change feed -----------------------------------------------------------

  function AppendChange(db: Db, kind: ChangeKind, node: Option<Id>, oldPath: Option<Segments>,
                        newPath: Option<Segments>,
                        revision: Option<nat>, now: int): Db {
    db.(changeSeq := db.changeSeq + 1,
        changes := db.changes + [Change(db.changeSeq + 1, kind, node, oldPath, newPath, revision, now)])
  }

  // --- inserting a node ------------------------------------------------------

  function InsertNode(db: Db, node: Node): Db {
    db.(nodes := db.nodes[db.nextId := node], nextId := db.nextId + 1)
  }

  lemma InsertKeepsFiles(db: Db, node: Node)
    requires IdsFresh(db) && FilesOk(db.nodes, db.generations, db.maxFileBytes)
    requires KindOk(node, db.generations, db.maxFileBytes)
    requires node.generation.Some? ==> forall x :: x in db.nodes ==> db.nodes[x].generation != node.generation
    ensures FilesOk(InsertNode(db, node).nodes, db.generations, db.maxFileBytes)
  {
  }

  lemma InsertKeepsTrash(db: Db, root: Id, node: Node)
    requires IdsFresh(db) && TrashOk(db.nodes, db.trash, root) && node.trashedAt.None?
    ensures TrashOk(InsertNode(db, node).nodes, db.trash, root)
  {
  }

  /** A new active node under a directory that has no active child of its name. */
  lemma InsertKeepsInv(db: Db, root: Id, node: Node)
    requires Inv(db, root)
    requires node.parent.Some? && node.parent.value in db.nodes && db.nodes[node.parent.value].kind.Directory?
    requires node.trashedAt.None? && FetchChild(db.nodes, node.parent.value, node.name).None?
    requires KindOk(node, db.generations, db.maxFileBytes)
    requires node.generation.Some? ==> forall x :: x in db.nodes ==> db.nodes[x].generation != node.generation
    ensures Inv(InsertNode(db, node), root)
  {
    hide TreeOk, FilesOk, KindOk, TrashOk;
    InsertKeepsTreeAndNames(db, root, node);
    InsertKeepsFiles(db, node);
    InsertKeepsTrash(db, root, node);
  }

  lemma InsertKeepsTreeAndNames(db: Db, root: Id, node: Node)
    requires Sound(db.nodes, root) && IdsFresh(db)
    requires node.parent.Some? && node.parent.value in db.nodes && db.nodes[node.parent.value].kind.Directory?
    requires node.trashedAt.None? && FetchChild(db.nodes, node.parent.value, node.name).None?
    ensures Sound(InsertNode(db, node).nodes, root)
  {
    InsertKeepsTree(db.nodes, root, db.nextId, node);
    InsertKeepsNames(db.nodes, db.nextId, node);
  }

  // --- updating a node in place ----------------------------------------------

  function UpdateNode(db: Db, id: Id, node: Node): Db { db.(nodes := db.nodes[id := node]) }

  /** Only revision and times differ. */
  predicate SameButTimes(a: Node, b: Node) {
    b == a.(revision := b.revision, modifiedAt := b.modifiedAt, accessedAt := b.accessedAt)
  }

  /** Nothing a file's storage depends on differs. */
  predicate SameStorage(a: Node, b: Node) { a.kind == b.kind && a.size == b.size && a.generation == b.generation }

  lemma UpdateKeepsFiles(nodes: Nodes, generations: map<Id, Generation>, maxFileBytes: nat, id: Id, node: Node)
    requires FilesOk(nodes, generations, maxFileBytes) && id in nodes && SameStorage(nodes[id], node)
    ensures FilesOk(nodes[id := node], generations, maxFileBytes)
  {
    assert KindOk(node, generations, maxFileBytes) by { assert KindOk(nodes[id], generations, maxFileBytes); }
  }

  lemma UpdateKeepsTrash(nodes: Nodes, trash: map<Id, TrashRow>, root: Id, id: Id, node: Node)
    requires TrashOk(nodes, trash, root) && id in nodes && nodes[id].trashedAt == node.trashedAt
    requires node.trashedAt.Some? ==> node.parent == nodes[id].parent && node.name == nodes[id].name
    ensures TrashOk(nodes[id := node], trash, root)
  {
  }

  lemma UpdateKeepsInv(db: Db, root: Id, id: Id, node: Node)
    requires Inv(db, root) && id in db.nodes && SameButTimes(db.nodes[id], node)
    ensures Inv(UpdateNode(db, id, node), root)
  {
    hide TreeOk, NamesDistinct, FilesOk, TrashOk;
    UpdateKeepsTree(db.nodes, root, id, node);
    UpdateKeepsNames(db.nodes, id, node);
    UpdateKeepsFiles(db.nodes, db.generations, db.maxFileBytes, id, node);
    UpdateKeepsTrash(db.nodes, db.trash, root, id, node);
  }

  // --- deleting a subtree ----------------------------------------------------

  ghost function GenerationsOf(nodes: Nodes, ids: set<Id>): set<Id> {
    set x | x in ids && x in nodes && nodes[x].generation.Some? :: nodes[x].generation.value
  }

  /** `purge_subtree`: the rows below `id`, what cascades from them, and their generations. */
  ghost function PurgeSubtree(db: Db, id: Id): Db {
    var doomed := Subtree(db.nodes, id);
    db.(nodes := db.nodes - doomed,
        attributes := db.attributes - doomed,
        trash := map t | t in db.trash && db.trash[t].node !in doomed :: db.trash[t],
        generations := db.generations - GenerationsOf(db.nodes, doomed))
  }

  lemma PurgeKeepsFiles(db: Db, id: Id)
    requires FilesOk(db.nodes, db.generations, db.maxFileBytes)
    ensures FilesOk(PurgeSubtree(db, id).nodes, PurgeSubtree(db, id).generations, db.maxFileBytes)
  {
    var db' := PurgeSubtree(db, id);
    forall x | x in db'.nodes ensures KindOk(db'.nodes[x], db'.generations, db.maxFileBytes) {
      assert KindOk(db.nodes[x], db.generations, db.maxFileBytes);
    }
  }

  lemma PurgeKeepsTrash(db: Db, root: Id, id: Id)
    requires TrashOk(db.nodes, db.trash, root)
    ensures TrashOk(PurgeSubtree(db, id).nodes, PurgeSubtree(db, id).trash, root)
  {
    var db' := PurgeSubtree(db, id);
    forall x | x in db'.nodes && db'.nodes[x].trashedAt.Some?
        ensures exists t :: t in db'.trash && db'.trash[t].node == x {
      var t :| t in db.trash && db.trash[t].node == x;
      assert t in db'.trash;
    }
  }

  lemma PurgeKeepsInv(db: Db, root: Id, id: Id)
    requires Inv(db, root) && id != root
    ensures Inv(PurgeSubtree(db, id), root)
  {
    PurgeKeepsTree(db.nodes, root, id);
    PurgeKeepsNames(db.nodes, id);
    PurgeKeepsFiles(db, id);
    PurgeKeepsTrash(db, root, id);
  }

  /** A purge removes the whole subtree and its generations, and nothing else. */
  lemma PurgeIsExact(db: Db, root: Id, id: Id)
    requires Inv(db, root) && id in db.nodes
    ensures var db' := PurgeSubtree(db, id);
            (forall x :: x in db'.nodes <==> x in db.nodes && !Below(db.nodes, id, x)) &&
            (forall x :: x in db'.nodes ==> db'.nodes[x] == db.nodes[x]) &&
            (forall g :: g in db'.generations <==>
              g in db.generations && forall x :: Below(db.nodes, id, x) && x in db.nodes ==>
                  db.nodes[x].generation != Some(g)) &&
            (forall g :: g in db'.generations ==> db'.generations[g] == db.generations[g])
  {
    var doomed := Subtree(db.nodes, id);
    forall g ensures g in GenerationsOf(db.nodes, doomed) <==>
                     exists x :: x in db.nodes && Below(db.nodes, id, x) && db.nodes[x].generation == Some(g) {
      if g in GenerationsOf(db.nodes, doomed) {
        var x :| x in doomed && x in db.nodes && db.nodes[x].generation.Some? && db.nodes[x].generation.value == g;
        assert db.nodes[x].generation == Some(g);
      }
    }
  }

  // --- hanging a node elsewhere ----------------------------------------------

  lemma RehangKeepsTreeAndNames(nodes: Nodes, root: Id, s: Id, node: Node)
    requires Sound(nodes, root) && s in nodes && s != root &&
             Rehung(nodes[s], node, if node.parent.Some? then node.parent.value else s)
    requires node.parent.value in nodes && nodes[node.parent.value].kind.Directory? &&
             !Below(nodes, s, node.parent.value)
    requires FetchChild(nodes, node.parent.value, node.name) in {None, Some(s)}
    ensures Sound(nodes[s := node], root)
  {
    RehangKeepsTree(nodes, root, s, node, node.parent.value);
    forall x | x != s ensures !IsChild(nodes, node.parent.value, node.name, x) {
      if IsChild(nodes, node.parent.value, node.name, x) { ChildIsFetched(nodes, node.parent.value, node.name, x); }
    }
    RehangKeepsNames(nodes, s, node, node.parent.value);
  }

  lemma RehangKeepsInv(db: Db, root: Id, s: Id, node: Node)
    requires Inv(db, root) && Active(db.nodes, s) && s != root
    requires SameButTimes(db.nodes[s].(parent := node.parent, name := node.name), node)
    requires node.parent.Some? && node.parent.value in db.nodes && db.nodes[node.parent.value].kind.Directory?
    requires !Below(db.nodes, s, node.parent.value)
    requires FetchChild(db.nodes, node.parent.value, node.name) in {None, Some(s)}
    ensures Inv(UpdateNode(db, s, node), root)
  {
    hide TreeOk, NamesDistinct, Below, FilesOk, TrashOk;
    RehangKeepsTreeAndNames(db.nodes, root, s, node);
    UpdateKeepsFiles(db.nodes, db.generations, db.maxFileBytes, s, node);
    UpdateKeepsTrash(db.nodes, db.trash, root, s, node);
  }

  // --- trash marks -----------------------------------------------------------

  function MarkTrashed(db: Db, id: Id, now: int): Db
    requires id in db.nodes && db.nodes[id].parent.Some?
  {
    db.(nodes := db.nodes[id := db.nodes[id].(trashedAt := Some(now))],
        trash := db.trash[db.nextId := TrashRow(id, db.nodes[id].parent.value, db.nodes[id].name, now)],
        nextId := db.nextId + 1)
  }

  lemma MarkKeepsTrash(db: Db, root: Id, id: Id, now: int)
    requires TrashOk(db.nodes, db.trash, root) && IdsFresh(db) && Active(db.nodes, id) && id != root &&
             db.nodes[id].parent.Some?
    ensures TrashOk(MarkTrashed(db, id, now).nodes, MarkTrashed(db, id, now).trash, root)
  {
    var db' := MarkTrashed(db, id, now);
    forall x | x in db'.nodes && db'.nodes[x].trashedAt.Some?
        ensures exists t :: t in db'.trash && db'.trash[t].node == x {
      if x == id {
        assert db'.trash[db.nextId].node == x;
      } else {
        var t :| t in db.trash && db.trash[t].node == x;
        assert t in db'.trash;
      }
    }
  }

  lemma MarkKeepsInv(db: Db, root: Id, id: Id, now: int)
    requires Inv(db, root) && Active(db.nodes, id) && id != root && db.nodes[id].parent.Some?
    ensures Inv(MarkTrashed(db, id, now), root)
  {
    hide TreeOk, NamesDistinct, FilesOk;
    UpdateKeepsFiles(db.nodes, db.generations, db.maxFileBytes, id, db.nodes[id].(trashedAt := Some(now)));
    MarkKeepsTree(db.nodes, root, id, Some(now));
    TrashKeepsNames(db.nodes, id, now);
    MarkKeepsTrash(db, root, id, now);
  }

  /** The row updates of `restore_tx`. */
  function Unmark(db: Db, trashId: Id, parent: Id, name: string, now: int): Db
    requires trashId in db.trash && db.trash[trashId].node in db.nodes
  {
    var id := db.trash[trashId].node;
    var n := db.nodes[id];
    db.(nodes := db.nodes[id := n.(parent := Some(parent), name := name, trashedAt := None,
                                   revision := n.revision + 1, modifiedAt := now)],
        trash := db.trash - {trashId})
  }

  lemma UnmarkKeepsTrash(db: Db, root: Id, trashId: Id, parent: Id, name: string, now: int)
    requires TrashOk(db.nodes, db.trash, root) && trashId in db.trash
    ensures TrashOk(Unmark(db, trashId, parent, name, now).nodes, Unmark(db, trashId, parent, name, now).trash, root)
  {
    var db' := Unmark(db, trashId, parent, name, now);
    forall x | x in db'.nodes && db'.nodes[x].trashedAt.Some?
        ensures exists t :: t in db'.trash && db'.trash[t].node == x {
      var t :| t in db.trash && db.trash[t].node == x;
      assert t in db'.trash;
    }
  }

  lemma UnmarkKeepsInv(db: Db, root: Id, trashId: Id, parent: Id, name: string, now: int)
    requires Inv(db, root) && trashId in db.trash
    requires parent in db.nodes && db.nodes[parent].kind.Directory? && !Below(db.nodes, db.trash[trashId].node, parent)
    requires FetchChild(db.nodes, parent, name).None?
    ensures Inv(Unmark(db, trashId, parent, name, now), root)
  {
    hide TreeOk, NamesDistinct, Below, FilesOk;
    var id := db.trash[trashId].node;
    var node := Unmark(db, trashId, parent, name, now).nodes[id];
    RehangKeepsTreeAndNames(db.nodes, root, id, node);
    UpdateKeepsFiles(db.nodes, db.generations, db.maxFileBytes, id, node);
    UnmarkKeepsTrash(db, root, trashId, parent, name, now);
  }
}
