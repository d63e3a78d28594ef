/**
 What each transaction does to the tables of a workspace
 (crates/fslite-sqlite/src/directory.rs, mutate.rs, trash.rs and content.rs).

 Each function gives the new tables and the public outcome.  A failed outcome is
 committed like any other: when it changes nothing is proved in Failures.dfy.
 */
module Operations {
  import opened Common
  import opened Chunks
  import opened Paths
  import opened Tree
  import opened Resolve
  import opened Store
  import opened Copy

  datatype ErrorCode =
    | AlreadyExists | NoSuchPath | WrongNodeType | RevisionConflict | PermissionDenied | LinkCycle
    | DirectoryNotEmpty | InvalidName | OverQuota | SourceBroken | StorageFailure

  datatype Outcome = Done(node: Id) | Finished | InTrash(record: Id) | Failed(code: ErrorCode)

  datatype Step = Step(db: Db, outcome: Outcome)

  datatype CreateOptions = CreateOptions(parents: bool, existOk: bool, expected: Option<nat>)

  predicate Conflicts(expected: Option<nat>, node: Node) { expected.Some? && expected.value != node.revision }

  /** The node an operation names, following links on the way but not at the end. */
  ghost function Named(nodes: Nodes, path: Segments): (r: Result<Id, ErrorCode>)
    ensures r.Ok? ==> r.value in nodes
  {
    match Followed(nodes, path, false)
    case Found(x) => Ok(x)
    case NotFound => Err(NoSuchPath)
    case BrokenLink => Err(NoSuchPath)
    case LinkLoop => Err(LinkCycle)
  }

  /** `resolve_destination`: where `to` goes, and what is there. */
  datatype Destination = Ready(parent: Id, existing: Option<Id>) | Refused(code: ErrorCode)

  ghost function ResolveDestination(nodes: Nodes, to: Segments): Destination {
    if to == [] then Refused(AlreadyExists)
    else
      match Followed(nodes, Pop(to), true)
      case Found(p) =>
        if nodes[p].kind.Directory? then Ready(p, FetchChild(nodes, p, to[|to| - 1]))
        else Refused(WrongNodeType)
      case _ => Refused(NoSuchPath)
  }

  // --- mkdir -----------------------------------------------------------------

  function DirectoryNode(parent: Id, name: string, now: int): Node {
    Node(Some(parent), name, Directory, 0, 1, now, now, now, None, None, None)
  }

  function CreateDirectory(db: Db, parent: Id, name: string, path: Segments, now: int): Db {
    AppendChange(InsertNode(db, DirectoryNode(parent, name, now)), Created, Some(db.nextId), None, Some(path), Some(1),
                 now)
  }

  ghost function MkdirFrom(db: Db, current: Id, at: Segments, segments: Segments, o: CreateOptions, now: int): Step
    requires current in db.nodes && segments != []
    decreases |segments|
  {
    var name := segments[0];
    if !db.nodes[current].kind.Directory? then Step(db, Failed(WrongNodeType))
    else
      var child := FetchChild(db.nodes, current, name);
      if |segments| > 1 then
        if child.Some? then MkdirFrom(db, child.value, at + [name], segments[1..], o, now)
        else if !o.parents then Step(db, Failed(NoSuchPath))
        else MkdirFrom(CreateDirectory(db, current, name, at + [name], now), db.nextId, at + [name], segments[1..], o,
                       now)
      else if child.Some? then
        if !db.nodes[child.value].kind.Directory? then Step(db, Failed(WrongNodeType))
        else if !o.existOk then Step(db, Failed(AlreadyExists))
        else if Conflicts(o.expected, db.nodes[child.value]) then Step(db, Failed(RevisionConflict))
        else Step(db, Done(child.value))
      else Step(CreateDirectory(db, current, name, at + [name], now), Done(db.nextId))
  }

  ghost function Mkdir(db: Db, path: Segments, o: CreateOptions, now: int): Step {
    if path == [] then Step(db, Failed(AlreadyExists))
    else
      var root := FetchRoot(db.nodes);
      if root.None? then Step(db, Failed(NoSuchPath)) else MkdirFrom(db, root.value, [], path, o, now)
  }

  // --- symlink ---------------------------------------------------------------

  function LinkNode(parent: Id, name: string, target: string, now: int): Node {
    Node(Some(parent), name, Symlink, 0, 1, now, now, now, None, Some(target), None)
  }

  ghost function MakeSymlink(db: Db, target: LinkTarget, link: Segments, o: CreateOptions, now: int): Step {
    if link == [] then Step(db, Failed(AlreadyExists))
    else
      match ResolveDestination(db.nodes, link)
      case Refused(code) => Step(db, Failed(code))
      case Ready(parent, Some(x)) =>
        if !db.nodes[x].kind.Symlink? then Step(db, Failed(WrongNodeType))
        else if !o.existOk then Step(db, Failed(AlreadyExists))
        else if Conflicts(o.expected, db.nodes[x]) then Step(db, Failed(RevisionConflict))
        else Step(db, Done(x))
      case Ready(parent, None) =>
        Step(AppendChange(InsertNode(db, LinkNode(parent, link[|link| - 1], target.canonical, now)),
                          Created, Some(db.nextId), None, Some(link), Some(1), now),
             Done(db.nextId))
  }

  // --- copy, move, remove ----------------------------------------------------

  /** `None` when `copy_subtree` never returns. */
  ghost function CopyTo(db: Db, from: Segments, to: Segments, recursive: bool, overwrite: bool, expected: Option<nat>,
                        now: int): Option<Step> {
    match Named(db.nodes, from)
    case Err(code) => Some(Step(db, Failed(code)))
    case Ok(source) =>
      if Conflicts(expected, db.nodes[source]) then Some(Step(db, Failed(RevisionConflict)))
      else if db.nodes[source].kind.Directory? && !recursive then Some(Step(db, Failed(WrongNodeType)))
      else
        match ResolveDestination(db.nodes, to)
        case Refused(code) => Some(Step(db, Failed(code)))
        case Ready(parent, existing) =>
          if existing.Some? && !overwrite then Some(Step(db, Failed(AlreadyExists)))
          else CopyOver(db, source, parent, existing, from, to, now)
  }

  /** After the checks: an overwritten node is purged first, which may take the source with it. */
  ghost function CopyOver(db: Db, source: Id, parent: Id, existing: Option<Id>, from: Segments, to: Segments,
                          now: int): Option<Step>
    requires to != []
  {
    var cleared := if existing.Some? then PurgeSubtree(db, existing.value) else db;
    if !Active(cleared.nodes, source) then Some(Step(db, Failed(StorageFailure)))
    else
      var copied := CopySubtree(cleared, source, parent, to[|to| - 1], now);
      if copied.None? then None
      else Some(Step(AppendChange(copied.value, Copied, Some(cleared.nextId), Some(from), Some(to), Some(1), now),
                     Done(cleared.nextId)))
  }

  ghost function MoveTo(db: Db, from: Segments, to: Segments, overwrite: bool, expected: Option<nat>, now: int): Step {
    if from == [] then Step(db, Failed(PermissionDenied))
    else
      match Named(db.nodes, from)
      case Err(code) => Step(db, Failed(code))
      case Ok(source) =>
        if Conflicts(expected, db.nodes[source]) then Step(db, Failed(RevisionConflict))
        else if from <= to then Step(db, Failed(PermissionDenied))
        else
          match ResolveDestination(db.nodes, to)
          case Refused(code) => Step(db, Failed(code))
          case Ready(parent, existing) =>
            if existing.Some? && !overwrite then Step(db, Failed(AlreadyExists))
            else Step(MoveOver(db, source, parent, existing, from, to, now), Done(source))
  }

  function MovedNode(n: Node, parent: Id, name: string, now: int): Node {
    n.(parent := Some(parent), name := name, revision := n.revision + 1, modifiedAt := now)
  }

  /** After the checks: the update of a source that the purge removed changes no row. */
  ghost function MoveOver(db: Db, source: Id, parent: Id, existing: Option<Id>, from: Segments, to: Segments,
                          now: int): Db
    requires to != [] && source in db.nodes
  {
    var cleared := if existing.Some? then PurgeSubtree(db, existing.value) else db;
    var moved := if source in cleared.nodes
                 then UpdateNode(cleared, source, MovedNode(db.nodes[source], parent, to[|to| - 1], now)) else cleared;
    AppendChange(moved, Moved, Some(source), Some(from), Some(to), Some(db.nodes[source].revision + 1), now)
  }

  ghost function Remove(db: Db, path: Segments, recursive: bool, expected: Option<nat>, now: int): Step {
    if path == [] then Step(db, Failed(PermissionDenied))
    else
      match Named(db.nodes, path)
      case Err(code) => Step(db, Failed(code))
      case Ok(x) =>
        if Conflicts(expected, db.nodes[x]) then Step(db, Failed(RevisionConflict))
        else if db.nodes[x].kind.Directory? && !recursive && (exists y :: ActiveChild(db.nodes, x, y))
        then Step(db, Failed(DirectoryNotEmpty))
        else Step(AppendChange(PurgeSubtree(db, x), Removed, Some(x), Some(path), None, None, now), Finished)
  }

  // --- trash -----------------------------------------------------------------

  ghost function TrashPath(db: Db, path: Segments, expected: Option<nat>, now: int): Step {
    if path == [] then Step(db, Failed(PermissionDenied))
    else
      match Named(db.nodes, path)
      case Err(code) => Step(db, Failed(code))
      case Ok(x) =>
        if Conflicts(expected, db.nodes[x]) then Step(db, Failed(RevisionConflict))
        else if db.nodes[x].parent.None? then Step(db, Failed(StorageFailure))
        else Step(AppendChange(MarkTrashed(db, x, now), Trashed, Some(x), Some(path), None, Some(db.nodes[x].revision),
                               now),
                  InTrash(db.nextId))
  }

  /** Where a restored node goes. */
  ghost function RestorePlace(nodes: Nodes, row: TrashRow, destination: Option<Segments>)
      : Result<(Id, string), ErrorCode> {
    match destination
    case Some(to) =>
      (match ResolveDestination(nodes, to)
       case Refused(code) => Err(code)
       case Ready(parent, _) => Ok((parent, to[|to| - 1])))
    case None =>
      if !Active(nodes, row.originalParent) then Err(NoSuchPath)
      else if !nodes[row.originalParent].kind.Directory? then Err(WrongNodeType)
      else Ok((row.originalParent, row.originalName))
  }

  ghost function Restore(db: Db, record: Id, destination: Option<Segments>, expected: Option<nat>, now: int): Step {
    if record !in db.trash || db.trash[record].node !in db.nodes then Step(db, Failed(NoSuchPath))
    else
      var row := db.trash[record];
      if Conflicts(expected, db.nodes[row.node]) then Step(db, Failed(RevisionConflict))
      else
        match RestorePlace(db.nodes, row, destination)
        case Err(code) => Step(db, Failed(code))
        case Ok((parent, name)) =>
          if FetchChild(db.nodes, parent, name).Some? then Step(db, Failed(AlreadyExists))
          else Step(AppendChange(Unmark(db, record, parent, name, now), Restored, Some(row.node), None, None,
                                 Some(db.nodes[row.node].revision + 1), now),
                    Done(row.node))
  }

  ghost function Purge(db: Db, record: Id, now: int): Step {
    if record !in db.trash then Step(db, Failed(NoSuchPath))
    else
      var x := db.trash[record].node;
      Step(PurgeSubtree(AppendChange(db, ChangeKind.Purged, Some(x), None, None, None, now), x), Finished)
  }

  // --- attributes ------------------------------------------------------------

  function BumpedNode(n: Node, now: int): Node { n.(revision := n.revision + 1, modifiedAt := now) }

  ghost function SetAttribute(db: Db, path: Segments, key: string, value: Bytes, expected: Option<nat>,
                              now: int): Step {
    match Named(db.nodes, path)
    case Err(code) => Step(db, Failed(code))
    case Ok(x) =>
      if Utf8Len(key) == 0 || Utf8Len(key) > MAX_ATTRIBUTE_KEY_BYTES then Step(db, Failed(InvalidName))
      else if |value| > MAX_ATTRIBUTE_VALUE_BYTES then Step(db, Failed(OverQuota))
      else if Conflicts(expected, db.nodes[x]) then Step(db, Failed(RevisionConflict))
      else
        var attributes := AttributesOf(db.attributes, x);
        if key !in attributes && |attributes| >= MAX_ATTRIBUTES_PER_NODE then Step(db, Failed(OverQuota))
        else
          var updated := UpdateNode(db, x, BumpedNode(db.nodes[x], now)).(attributes :=
              db.attributes[x := attributes[key := value]]);
          Step(AppendChange(updated, AttributeSet, Some(x), None, Some(path), Some(db.nodes[x].revision + 1), now),
               Done(x))
  }

  ghost function RemoveAttribute(db: Db, path: Segments, key: string, expected: Option<nat>, now: int): Step {
    match Named(db.nodes, path)
    case Err(code) => Step(db, Failed(code))
    case Ok(x) =>
      if Conflicts(expected, db.nodes[x]) then Step(db, Failed(RevisionConflict))
      else
        var attributes := AttributesOf(db.attributes, x);
        if key !in attributes then Step(db, Done(x))
        else
          var updated := UpdateNode(db, x, BumpedNode(db.nodes[x], now)).(attributes :=
              db.attributes[x := attributes - {key}]);
          Step(AppendChange(updated, AttributeRemoved, Some(x), None, Some(path), Some(db.nodes[x].revision + 1), now),
               Done(x))
  }

  // --- file content ----------------------------------------------------------

  /** A generation staged under the next fresh id. */
  function StageGeneration(db: Db, rows: Rows): Db {
    db.(generations := db.generations[db.nextId := Generation(false, 0, rows)], nextId := db.nextId + 1)
  }

  function CompleteGeneration(db: Db, g: Id, length: nat): Db
    requires g in db.generations
  {
    db.(generations := db.generations[g := db.generations[g].(complete := true, length := length)])
  }

  function FileNode(parent: Id, name: string, length: nat, g: Id, now: int): Node {
    Node(Some(parent), name, File, length, 1, now, now, now, Some(g), None, None)
  }

  function RewrittenNode(n: Node, length: nat, g: Id, now: int): Node {
    n.(generation := Some(g), size := length, revision := n.revision + 1, modifiedAt := now, accessedAt := now)
  }

  /** `finalize_tx`: the staged generation `g` becomes the content of `path`. */
  ghost function Finalize(db: Db, path: Segments, g: Id, length: nat, create: bool, expected: Option<nat>,
                          now: int): Step
    requires g in db.generations
  {
    match Resolved(db.nodes, path)
    case None =>
      if path == [] then Step(db, Failed(NoSuchPath))
      else
        (match Resolved(db.nodes, Pop(path))
         case None => Step(db, Failed(NoSuchPath))
         case Some(p) =>
           if !db.nodes[p].kind.Directory? then Step(db, Failed(WrongNodeType))
           else if !create then Step(db, Failed(NoSuchPath))
           else Step(FinalizeNew(db, path, p, g, length, now), Done(db.nextId)))
    case Some(x) =>
      if !db.nodes[x].kind.File? then Step(db, Failed(WrongNodeType))
      else if Conflicts(expected, db.nodes[x]) then Step(db, Failed(RevisionConflict))
      else Step(FinalizeExisting(db, path, x, g, length, now), Done(x))
  }

  function FinalizeNew(db: Db, path: Segments, parent: Id, g: Id, length: nat, now: int): Db
    requires g in db.generations && path != []
  {
    var completed := CompleteGeneration(db, g, length);
    AppendChange(InsertNode(completed, FileNode(parent, path[|path| - 1], length, g, now)),
                 Created, Some(db.nextId), None, Some(path), Some(1), now)
  }

  function FinalizeExisting(db: Db, path: Segments, x: Id, g: Id, length: nat, now: int): Db
    requires g in db.generations && x in db.nodes
  {
    var before := db.nodes[x];
    var completed := CompleteGeneration(UpdateNode(db, x, RewrittenNode(before, length, g, now)), g, length);
    var changed := AppendChange(completed, Modified, Some(x), None, Some(path), Some(before.revision + 1), now);
    if before.generation.Some? && before.generation.value != g
    then changed.(generations := changed.generations - {before.generation.value}) else changed
  }

  ghost function Touch(db: Db, path: Segments, create: bool, expected: Option<nat>, now: int): Step {
    match Resolved(db.nodes, path)
    case Some(x) =>
      if !db.nodes[x].kind.File? then Step(db, Failed(WrongNodeType))
      else if Conflicts(expected, db.nodes[x]) then Step(db, Failed(RevisionConflict))
      else Step(UpdateNode(db, x, BumpedNode(db.nodes[x], now).(accessedAt := now)), Done(x))
    case None =>
      if !create then Step(db, Failed(NoSuchPath))
      else Finalize(CompleteGeneration(StageGeneration(db, RowsOf([])), db.nextId, 0), path, db.nextId, 0, true, None,
                    now)
  }

  function StageCode(e: StageError): ErrorCode { if e.QuotaExceeded? then OverQuota else SourceBroken }

  /** Staged content made final; a failure deletes the staged generation again. */
  ghost function Commit(db: Db, path: Segments, content: Bytes, create: bool, expected: Option<nat>, now: int): Step {
    var s := Finalize(StageGeneration(db, RowsOf(content)), path, db.nextId, |content|, create, expected, now);
    if s.outcome.Failed? then Step(db, s.outcome) else s
  }

  ghost function Write(db: Db, path: Segments, source: seq<Item>, create: bool, expected: Option<nat>, now: int): Step {
    var failure := Feed(0, source, db.maxFileBytes);
    if failure.Some? then Step(db, Failed(StageCode(failure.value)))
    else Commit(db, path, Gather(source), create, expected, now)
  }

  /** The bytes of a file node. */
  function FileContent(db: Db, x: Id): Bytes {
    if x in db.nodes && db.nodes[x].generation.Some? && db.nodes[x].generation.value in db.generations
    then ContentOf(db.generations[db.nodes[x].generation.value]) else []
  }

  /** `write_at_impl`; `truncate` is the case of an empty source that keeps no old suffix. */
  ghost function WriteAt(db: Db, path: Segments, offset: nat, source: seq<Item>, create: bool, expected: Option<nat>,
                         preserve: bool, now: int): Step
  {
    match Resolved(db.nodes, path)
    case Some(x) =>
      if !db.nodes[x].kind.File? then Step(db, Failed(WrongNodeType))
      else Rewrite(db, path, FileContent(db, x), offset, source, create, expected, preserve, now)
    case None =>
      if !create then Step(db, Failed(NoSuchPath))
      else Rewrite(db, path, [], offset, source, create, expected, preserve, now)
  }

  ghost function Rewrite(db: Db, path: Segments, prior: Bytes, offset: nat, source: seq<Item>, create: bool,
                         expected: Option<nat>, preserve: bool, now: int): Step
  {
    var failure := StageFailure(|prior|, offset, source, db.maxFileBytes);
    if failure.Some? then Step(db, Failed(StageCode(failure.value)))
    else Commit(db, path, Staged(prior, offset, Gather(source), preserve), create, expected, now)
  }

  ghost function Append(db: Db, path: Segments, source: seq<Item>, create: bool, expected: Option<nat>,
                        now: int): Step {
    match Resolved(db.nodes, path)
    case Some(x) =>
      if !db.nodes[x].kind.File? then Step(db, Failed(WrongNodeType))
      else WriteAt(db, path, db.nodes[x].size, source, create, expected, true, now)
    case None => WriteAt(db, path, 0, source, create, expected, true, now)
  }

  ghost function Truncate(db: Db, path: Segments, length: nat, expected: Option<nat>, now: int): Step {
    WriteAt(db, path, length, [], false, expected, false, now)
  }

  // --- all of them -----------------------------------------------------------

  datatype Operation =
    | OpMkdir(path: Segments, create: CreateOptions)
    | OpTouch(path: Segments, mayCreate: bool, expected: Option<nat>)
    | OpCopy(from: Segments, to: Segments, recursive: bool, overwrite: bool, expected: Option<nat>)
    | OpMove(from: Segments, to: Segments, overwrite: bool, expected: Option<nat>)
    | OpRemove(path: Segments, recursive: bool, expected: Option<nat>)
    | OpSymlink(target: LinkTarget, link: Segments, create: CreateOptions)
    | OpTrash(path: Segments, expected: Option<nat>)
    | OpRestore(record: Id, destination: Option<Segments>, expected: Option<nat>)
    | OpPurge(record: Id)
    | OpSetAttribute(path: Segments, key: string, value: Bytes, expected: Option<nat>)
    | OpRemoveAttribute(path: Segments, key: string, expected: Option<nat>)
    | OpWrite(path: Segments, source: seq<Item>, mayCreate: bool, expected: Option<nat>)
    | OpWriteAt(path: Segments, offset: nat, source: seq<Item>, mayCreate: bool, expected: Option<nat>)
    | OpAppend(path: Segments, source: seq<Item>, mayCreate: bool, expected: Option<nat>)
    | OpTruncate(path: Segments, length: nat, expected: Option<nat>)

  /** The transaction for one request; `None` when it never returns. */
  ghost function Apply(db: Db, op: Operation, now: int): Option<Step> {
    match op
    case OpMkdir(path, o) => Some(Mkdir(db, path, o, now))
    case OpTouch(path, create, expected) => Some(Touch(db, path, create, expected, now))
    case OpCopy(from, to, recursive, overwrite, expected) => CopyTo(db, from, to, recursive, overwrite, expected, now)
    case OpMove(from, to, overwrite, expected) => Some(MoveTo(db, from, to, overwrite, expected, now))
    case OpRemove(path, recursive, expected) => Some(Remove(db, path, recursive, expected, now))
    case OpSymlink(target, link, o) => Some(MakeSymlink(db, target, link, o, now))
    case OpTrash(path, expected) => Some(TrashPath(db, path, expected, now))
    case OpRestore(record, destination, expected) => Some(Restore(db, record, destination, expected, now))
    case OpPurge(record) => Some(Purge(db, record, now))
    case OpSetAttribute(path, key, value, expected) => Some(SetAttribute(db, path, key, value, expected, now))
    case OpRemoveAttribute(path, key, expected) => Some(RemoveAttribute(db, path, key, expected, now))
    case OpWrite(path, source, create, expected) => Some(Write(db, path, source, create, expected, now))
    case OpWriteAt(path, offset, source, create, expected) =>
      Some(WriteAt(db, path, offset, source, create, expected, true, now))
    case OpAppend(path, source, create, expected) => Some(Append(db, path, source, create, expected, now))
    case OpTruncate(path, length, expected) => Some(Truncate(db, path, length, expected, now))
  }
}
