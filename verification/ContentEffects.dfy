/**
 What the content requests do to the bytes of files
 (`write`, `write_at`, `append`, `truncate` of crates/fslite-sqlite/src/content.rs).
 */
module ContentEffects {
  import opened Common
  import opened Chunks
  import opened Paths
  import opened Tree
  import opened Resolve
  import opened Store
  import opened Operations
  import opened Safety

  /** `path` now names the file `x` with the bytes `content`; no other node and no other file's bytes changed. */
  ghost predicate Holding(db: Db, db': Db, path: Segments, x: Id, content: Bytes) {
    Resolved(db'.nodes, path) == Some(x) && x in db'.nodes && db'.nodes[x].kind.File? &&
    db'.nodes[x].size == |content| &&
    FileContent(db', x) == content &&
    forall y :: y != x ==>
      (y in db'.nodes <==> y in db.nodes) &&
      (y in db.nodes ==> db'.nodes[y] == db.nodes[y] && FileContent(db', y) == FileContent(db, y))
  }

  lemma OthersKeepContent(db: Db, root: Id, db': Db, x: Id, g: Id)
    requires Inv(db, root) && (g !in db.generations || Unreferenced(db.nodes, g))
    requires forall y :: y in db.nodes && y != x ==> y in db'.nodes && db'.nodes[y] == db.nodes[y]
    requires forall h :: h in db.generations && h != g && (x !in db.nodes || db.nodes[x].generation != Some(h)) ==>
               h in db'.generations && db'.generations[h] == db.generations[h]
    ensures forall y :: y in db.nodes && y != x ==> FileContent(db', y) == FileContent(db, y)
  {
    forall y | y in db.nodes && y != x ensures FileContent(db', y) == FileContent(db, y) {
      FileHasGeneration(db, root, y);
      if db.nodes[y].generation.Some? {
        assert db.nodes[y].generation.value in db.generations;
        assert x in db.nodes ==> db.nodes[x].generation != db.nodes[y].generation;
      }
    }
  }

  /** The rows that committing a new file adds. */
  lemma CommitNewRows(db: Db, root: Id, path: Segments, content: Bytes, create: bool, expected: Option<nat>, now: int)
    requires Inv(db, root) && Resolved(db.nodes, path).None? &&
             Commit(db, path, content, create, expected, now).outcome.Done?
    ensures create && path != [] && Resolved(db.nodes, Pop(path)).Some?
    ensures var s, p := Commit(db, path, content, create, expected, now), Resolved(db.nodes, Pop(path)).value;
            db.nodes[p].kind.Directory? && s.outcome == Done(db.nextId + 1) &&
            s.db.nodes == db.nodes[db.nextId + 1 := FileNode(p, path[|path| - 1], |content|, db.nextId, now)] &&
            s.db.generations == db.generations[db.nextId := Generation(true, |content|, RowsOf(content))]
  {
    hide Inv, RowsOf, Resolved;
  }

  lemma ContentOfNode(db: Db, x: Id, g: Id, content: Bytes)
    requires x in db.nodes && db.nodes[x].generation == Some(g)
    requires g in db.generations && db.generations[g] == Generation(true, |content|, RowsOf(content))
    ensures FileContent(db, x) == content
  {
    FlattenRowsOf(content);
  }

  lemma NewFileHolds(db: Db, root: Id, db': Db, path: Segments, p: Id, x: Id, g: Id, content: Bytes, now: int)
    requires Inv(db, root) && Sound(db'.nodes, root) && |content| <= db.maxFileBytes && x !in db.nodes &&
             g !in db.generations
    requires path != [] && Resolved(db.nodes, Pop(path)) == Some(p) && db.nodes[p].kind.Directory?
    requires db'.nodes == db.nodes[x := FileNode(p, path[|path| - 1], |content|, g, now)]
    requires db'.generations == db.generations[g := Generation(true, |content|, RowsOf(content))]
    ensures Holding(db, db', path, x, content)
  {
    hide Inv, RowsOf, ContentOf, Resolved, Sound, FileContent;
    UnfoldInv(db, root);
    OthersKeepContent(db, root, db', x, g);
    ContentOfNode(db', x, g, content);
    NewChildResolves(db.nodes, db'.nodes, root, path, p, x);
  }

  lemma CommitNew(db: Db, root: Id, path: Segments, content: Bytes, create: bool, expected: Option<nat>, now: int)
    requires Inv(db, root) && |content| <= db.maxFileBytes && Resolved(db.nodes, path).None?
    requires Commit(db, path, content, create, expected, now).outcome.Done?
    ensures var s := Commit(db, path, content, create, expected, now);
            create && s.outcome == Done(db.nextId + 1) && Holding(db, s.db, path, db.nextId + 1, content)
  {
    hide Inv, RowsOf, ContentOf, Commit, Resolved, Sound, Holding;
    var s := Commit(db, path, content, create, expected, now);
    CommitKeepsInv(db, root, path, content, create, expected, now);
    UnfoldInv(db, root);
    UnfoldInv(s.db, root);
    FreshIdUnreferenced(db, root);
    CommitNewRows(db, root, path, content, create, expected, now);
    NewFileHolds(db, root, s.db, path, Resolved(db.nodes, Pop(path)).value, db.nextId + 1, db.nextId, content, now);
  }

  lemma {:induction false} NewChildKeepsPath(a: Nodes, b: Nodes, root: Id, x: Id, path: Segments, y: Id)
    requires Sound(a, root) && Sound(b, root) && Resolved(a, path) == Some(y)
    requires x !in a && b.Keys == a.Keys + {x} && forall z :: z in a ==> b[z] == a[z]
    ensures Resolved(b, path) == Some(y)
    decreases |path|
  {
    RootIsFetched(a, root);
    RootIsFetched(b, root);
    if path != [] {
      LastStep(a, root, path, y);
      var p, name := a[y].parent.value, path[|path| - 1];
      NewChildKeepsPath(a, b, root, x, Pop(path), p);
      ResolvedChild(b, root, Pop(path), p, name);
      ChildIsFetched(b, p, name, y);
      assert Pop(path) + [name] == path;
    }
  }

  lemma NewChildResolves(a: Nodes, b: Nodes, root: Id, path: Segments, p: Id, x: Id)
    requires Sound(a, root) && Sound(b, root) && path != [] && Resolved(a, Pop(path)) == Some(p) && p in a &&
             a[p].kind.Directory?
    requires x !in a && b.Keys == a.Keys + {x} && forall z :: z in a ==> b[z] == a[z]
    requires IsChild(b, p, path[|path| - 1], x)
    ensures Resolved(b, path) == Some(x)
  {
    NewChildKeepsPath(a, b, root, x, Pop(path), p);
    ResolvedChild(b, root, Pop(path), p, path[|path| - 1]);
    ChildIsFetched(b, p, path[|path| - 1], x);
    assert Pop(path) + [path[|path| - 1]] == path;
  }

  lemma {:induction false} UpdateKeepsPath(a: Nodes, b: Nodes, root: Id, x: Id, path: Segments, y: Id)
    requires Sound(a, root) && Sound(b, root) && Resolved(a, path) == Some(y)
    requires x in a && x in b && b == a[x := b[x]] && SamePlace(a[x], b[x])
    ensures Resolved(b, path) == Some(y)
    decreases |path|
  {
    RootIsFetched(a, root);
    RootIsFetched(b, root);
    if path != [] {
      LastStep(a, root, path, y);
      var p, name := a[y].parent.value, path[|path| - 1];
      UpdateKeepsPath(a, b, root, x, Pop(path), p);
      ResolvedChild(b, root, Pop(path), p, name);
      ChildIsFetched(b, p, name, y);
      assert Pop(path) + [name] == path;
    }
  }

  /** The rows that committing to an existing file changes. */
  lemma FinalizeExistingRows(db: Db, path: Segments, x: Id, g: Id, length: nat, now: int)
    requires g in db.generations && x in db.nodes && db.nodes[x].generation.Some? && db.nodes[x].generation.value != g
    ensures var db' := FinalizeExisting(db, path, x, g, length, now);
            db'.nodes == db.nodes[x := RewrittenNode(db.nodes[x], length, g, now)] &&
            db'.generations ==
                db.generations[g := Generation(true, length, db.generations[g].rows)] - {db.nodes[x].generation.value}
  {
  }

  lemma CommitExistingIs(db: Db, path: Segments, content: Bytes, create: bool, expected: Option<nat>, now: int, x: Id)
    requires Resolved(db.nodes, path) == Some(x) && Commit(db, path, content, create, expected, now).outcome.Done?
    ensures x in db.nodes && db.nodes[x].kind.File? && !Conflicts(expected, db.nodes[x])
    ensures db.nextId in StageGeneration(db, RowsOf(content)).generations
    ensures Commit(db, path, content, create, expected, now) ==
            Step(FinalizeExisting(StageGeneration(db, RowsOf(content)), path, x, db.nextId, |content|, now), Done(x))
  {
    hide RowsOf, Resolved, FinalizeExisting;
  }

  lemma RewrittenFileHolds(db: Db, root: Id, db': Db, path: Segments, x: Id, g: Id, content: Bytes, now: int)
    requires Inv(db, root) && Sound(db'.nodes, root) && |content| <= db.maxFileBytes && g !in db.generations
    requires Resolved(db.nodes, path) == Some(x) && db.nodes[x].kind.File? && db.nodes[x].generation.Some?
    requires db'.nodes == db.nodes[x := RewrittenNode(db.nodes[x], |content|, g, now)]
    requires db'.generations == db.generations[g :=
             Generation(true, |content|, RowsOf(content))] - {db.nodes[x].generation.value}
    requires db.nodes[x].generation.value != g
    ensures Holding(db, db', path, x, content)
  {
    hide Inv, RowsOf, ContentOf, Resolved, Sound, FileContent;
    UnfoldInv(db, root);
    OthersKeepContent(db, root, db', x, g);
    ContentOfNode(db', x, g, content);
    UpdateKeepsPath(db.nodes, db'.nodes, root, x, path, x);
  }

  lemma CommitExisting(db: Db, root: Id, path: Segments, content: Bytes, create: bool, expected: Option<nat>, now: int,
                       x: Id)
    requires Inv(db, root) && |content| <= db.maxFileBytes && Resolved(db.nodes, path) == Some(x)
    requires Commit(db, path, content, create, expected, now).outcome.Done?
    ensures var s := Commit(db, path, content, create, expected, now);
            s.outcome == Done(x) && x in db.nodes && db.nodes[x].kind.File? && !Conflicts(expected, db.nodes[x]) &&
            Holding(db, s.db, path, x, content) && x in s.db.nodes && s.db.nodes[x].revision == db.nodes[x].revision + 1
  {
    hide Inv, RowsOf, ContentOf, Commit, Resolved, Sound, Holding, FinalizeExisting, Unreferenced;
    var s := Commit(db, path, content, create, expected, now);
    CommitKeepsInv(db, root, path, content, create, expected, now);
    UnfoldInv(s.db, root);
    FreshIdUnreferenced(db, root);
    FileHasGeneration(db, root, x);
    CommitExistingIs(db, path, content, create, expected, now, x);
    FinalizeExistingRows(StageGeneration(db, RowsOf(content)), path, x, db.nextId, |content|, now);
    RewrittenFileHolds(db, root, s.db, path, x, db.nextId, content, now);
  }

  /** A `touch` leaves the bytes alone; where there was no file there is an empty one. */
  lemma TouchKeepsContent(db: Db, root: Id, path: Segments, create: bool, expected: Option<nat>, now: int)
    requires Inv(db, root) && Touch(db, path, create, expected, now).outcome.Done?
    ensures var s := Touch(db, path, create, expected, now);
            var x := Resolved(db.nodes, path);
            (x.Some? ==> s.outcome == Done(x.value)) &&
            Holding(db, s.db, path, s.outcome.node, if x.Some? then FileContent(db, x.value) else [])
  {
    hide Inv, Sound, RowsOf, ContentOf, Resolved, Holding, Touch, FileContent, Unreferenced;
    TouchKeepsInv(db, root, path, create, expected, now);
    var s := Touch(db, path, create, expected, now);
    UnfoldInv(s.db, root);
    match Resolved(db.nodes, path)
    case Some(x) =>
      TouchRows(db, path, create, expected, now, x);
      TouchedFile(db, root, s.db, path, x, now);
    case None =>
      UnfoldInv(db, root);
      FreshIdUnreferenced(db, root);
      TouchNewRows(db, path, create, expected, now);
      NewFileHolds(db, root, s.db, path, Resolved(db.nodes, Pop(path)).value, db.nextId + 1, db.nextId, [], now);
  }

  lemma TouchRows(db: Db, path: Segments, create: bool, expected: Option<nat>, now: int, x: Id)
    requires Resolved(db.nodes, path) == Some(x) && Touch(db, path, create, expected, now).outcome.Done?
    ensures x in db.nodes && db.nodes[x].kind.File?
    ensures Touch(db, path, create, expected, now) ==
            Step(UpdateNode(db, x, BumpedNode(db.nodes[x], now).(accessedAt := now)), Done(x))
  {
    hide Resolved;
  }

  lemma BumpKeepsContent(db: Db, x: Id, node: Node, y: Id)
    requires x in db.nodes && node.generation == db.nodes[x].generation
    ensures FileContent(UpdateNode(db, x, node), y) == FileContent(db, y)
  {
  }

  lemma TouchedFile(db: Db, root: Id, db': Db, path: Segments, x: Id, now: int)
    requires Inv(db, root) && Sound(db'.nodes, root) && Resolved(db.nodes, path) == Some(x) && db.nodes[x].kind.File?
    requires db' == UpdateNode(db, x, BumpedNode(db.nodes[x], now).(accessedAt := now))
    ensures Holding(db, db', path, x, FileContent(db, x))
  {
    hide Inv, Sound, RowsOf, ContentOf, Resolved, FileContent;
    ContentHasSize(db, root, x);
    UnfoldInv(db, root);
    forall y ensures FileContent(db', y) == FileContent(db, y) {
      BumpKeepsContent(db, x, BumpedNode(db.nodes[x], now).(accessedAt := now), y);
    }
    UpdateKeepsPath(db.nodes, db'.nodes, root, x, path, x);
  }

  lemma TouchNewRows(db: Db, path: Segments, create: bool, expected: Option<nat>, now: int)
    requires Resolved(db.nodes, path).None? && Touch(db, path, create, expected, now).outcome.Done?
    ensures path != [] && Resolved(db.nodes, Pop(path)).Some?
    ensures var s, p := Touch(db, path, create, expected, now), Resolved(db.nodes, Pop(path)).value;
            db.nodes[p].kind.Directory? && s.outcome == Done(db.nextId + 1) &&
            s.db.nodes == db.nodes[db.nextId + 1 := FileNode(p, path[|path| - 1], 0, db.nextId, now)] &&
            s.db.generations == db.generations[db.nextId := Generation(true, 0, RowsOf([]))]
  {
    hide RowsOf, Resolved;
  }

  // --- the flat meaning of one request ---------------------------------------

  /** A content request on one path. */
  datatype Edit =
    | EditWrite(source: seq<Item>, mayCreate: bool)
    | EditAt(offset: nat, source: seq<Item>, mayCreate: bool)
    | EditAppend(source: seq<Item>, mayCreate: bool)
    | EditTruncate(length: nat)

  ghost function Perform(db: Db, path: Segments, e: Edit, expected: Option<nat>, now: int): Step {
    match e
    case EditWrite(source, create) => Write(db, path, source, create, expected, now)
    case EditAt(offset, source, create) => WriteAt(db, path, offset, source, create, expected, true, now)
    case EditAppend(source, create) => Append(db, path, source, create, expected, now)
    case EditTruncate(length) => Truncate(db, path, length, expected, now)
  }

  function Input(e: Edit): seq<Item> { if e.EditTruncate? then [] else e.source }

  function MayCreate(e: Edit): bool { if e.EditTruncate? then false else e.mayCreate }

  /** Where the new bytes begin. */
  function Start(e: Edit, prior: Bytes): nat {
    match e
    case EditWrite(_, _) => 0
    case EditAt(offset, _, _) => offset
    case EditAppend(_, _) => |prior|
    case EditTruncate(length) => length
  }

  /** The file afterwards, byte by byte, in terms of the bytes before and the bytes received. */
  function Edited(prior: Bytes, e: Edit): (r: Bytes) {
    var data := Gather(Input(e));
    match e
    case EditWrite(_, _) => data
    case EditAppend(_, _) => prior + data
    case EditTruncate(length) => seq(length, i requires 0 <= i < length => if i < |prior| then prior[i] else 0)
    case EditAt(offset, _, _) =>
      seq(Max(offset + |data|, |prior|), i requires 0 <= i =>
        if offset <= i < offset + |data| then data[i - offset] else if i < |prior| then prior[i] else 0)
  }

  lemma EditedIsStaged(prior: Bytes, e: Edit)
    ensures Edited(prior, e) ==
            Staged(if e.EditWrite? then [] else prior, Start(e, prior), Gather(Input(e)), e.EditAt? || e.EditAppend?)
  {
    var data := Gather(Input(e));
    match e
    case EditWrite(_, _) => assert Staged([], 0, data, false) == data;
    case EditAppend(_, _) => AppendedIsConcatenation(prior, data);
    case EditTruncate(length) => TruncatedAt(prior, length);
    case EditAt(offset, _, _) => EditAtIsStaged(prior, e);
  }

  lemma EditAtIsStaged(prior: Bytes, e: Edit)
    requires e.EditAt?
    ensures Edited(prior, e) == Staged(prior, e.offset, Gather(e.source), true)
  {
    hide Gather;
    StagedAt(prior, e.offset, Gather(e.source));
    var a, b := Edited(prior, e), Staged(prior, e.offset, Gather(e.source), true);
    hide Staged;
    forall k | 0 <= k < |a| ensures a[k] == b[k] { }
  }

  /** The bytes that `path` names before an edit: none if it names nothing. */
  ghost function Before(db: Db, path: Segments): Bytes {
    var x := Resolved(db.nodes, path);
    if x.Some? then FileContent(db, x.value) else []
  }

  /** The target of an edit allows it. */
  ghost predicate Accepts(db: Db, path: Segments, e: Edit, expected: Option<nat>) {
    match Resolved(db.nodes, path)
    case Some(x) => db.nodes[x].kind.File? && (expected == None || expected == Some(db.nodes[x].revision))
    case None =>
      path != [] && MayCreate(e) && Resolved(db.nodes, Pop(path)).Some? &&
      db.nodes[Resolved(db.nodes, Pop(path)).value].kind.Directory?
  }

  ghost predicate Fits(db: Db, path: Segments, e: Edit) {
    Whole(Input(e)) && Start(e, Before(db, path)) + |Gather(Input(e))| <= db.maxFileBytes
  }

  lemma CommitSucceedsIff(db: Db, path: Segments, content: Bytes, e: Edit, expected: Option<nat>, now: int)
    ensures Commit(db, path, content, MayCreate(e), expected, now).outcome.Done? <==> Accepts(db, path, e, expected)
    ensures !Commit(db, path, content, MayCreate(e), expected, now).outcome.Done? ==>
            Commit(db, path, content, MayCreate(e), expected, now).outcome.Failed?
  {
    hide Resolved, RowsOf, FinalizeNew, FinalizeExisting;
  }

  lemma WriteIsCommit(db: Db, path: Segments, source: seq<Item>, create: bool, expected: Option<nat>, now: int)
    ensures var s := Write(db, path, source, create, expected, now);
            if Whole(source) && |Gather(source)| <= db.maxFileBytes
            then s == Commit(db, path, Gather(source), create, expected, now)
            else s.outcome.Failed?
  {
    hide Commit;
    FeedSucceedsIff(0, source, db.maxFileBytes);
  }

  /** A place where a positional edit may go: a file, or nothing yet if it may create one. */
  ghost predicate Positional(db: Db, path: Segments, create: bool) {
    var x := Resolved(db.nodes, path);
    if x.Some? then db.nodes[x.value].kind.File? else create
  }

  lemma WriteAtIsCommit(db: Db, root: Id, path: Segments, offset: nat, source: seq<Item>, create: bool,
                        expected: Option<nat>,
                        preserve: bool, now: int)
    requires Inv(db, root)
    ensures var s := WriteAt(db, path, offset, source, create, expected, preserve, now);
            if Positional(db, path, create) && Whole(source) && offset + |Gather(source)| <= db.maxFileBytes
            then |Staged(Before(db, path), offset, Gather(source), preserve)| <= db.maxFileBytes &&
                 s == Commit(db, path, Staged(Before(db, path), offset, Gather(source), preserve), create, expected,
                             now)
            else s.outcome.Failed?
  {
    hide Inv, Commit, Staged, Resolved, FileContent;
    if Positional(db, path, create) {
      if Resolved(db.nodes, path).Some? { ContentHasSize(db, root, Resolved(db.nodes, path).value); }
      StagingSucceedsIff(Before(db, path), offset, source, db.maxFileBytes, preserve);
    }
  }

  lemma AppendIsWriteAt(db: Db, root: Id, path: Segments, source: seq<Item>, create: bool, expected: Option<nat>,
                        now: int)
    requires Inv(db, root) && Positional(db, path, create)
    ensures Append(db, path, source, create, expected, now) ==
            WriteAt(db, path, |Before(db, path)|, source, create, expected, true, now)
  {
    hide Inv, WriteAt, Resolved, FileContent;
    if Resolved(db.nodes, path).Some? { ContentHasSize(db, root, Resolved(db.nodes, path).value); }
  }

  lemma AppendElsewhereFails(db: Db, path: Segments, source: seq<Item>, create: bool, expected: Option<nat>, now: int)
    requires !Positional(db, path, create)
    ensures Append(db, path, source, create, expected, now).outcome in {Failed(NoSuchPath), Failed(WrongNodeType)}
  {
    hide Resolved, FileContent, Rewrite;
  }

  /** Every edit whose stream is whole and fits stages the bytes that `Edited` gives, and then commits them. */
  lemma EditIsCommit(db: Db, root: Id, path: Segments, e: Edit, expected: Option<nat>, now: int)
    requires Inv(db, root)
    ensures var s := Perform(db, path, e, expected, now);
            if Fits(db, path, e) && (e.EditWrite? || Positional(db, path, MayCreate(e)))
            then |Edited(Before(db, path), e)| <= db.maxFileBytes &&
                s == Commit(db, path, Edited(Before(db, path), e), MayCreate(e), expected, now)
            else s.outcome.Failed?
  {
    hide Inv, Commit, Staged, Before, Positional, Write, WriteAt, Append, Resolved;
    var prior := Before(db, path);
    EditedIsStaged(prior, e);
    match e
    case EditWrite(source, create) =>
      WriteIsCommit(db, path, source, create, expected, now);
    case EditAt(offset, source, create) =>
      WriteAtIsCommit(db, root, path, offset, source, create, expected, true, now);
    case EditAppend(source, create) =>
      if Positional(db, path, create) {
        AppendIsWriteAt(db, root, path, source, create, expected, now);
        WriteAtIsCommit(db, root, path, |prior|, source, create, expected, true, now);
      } else {
        AppendElsewhereFails(db, path, source, create, expected, now);
      }
    case EditTruncate(length) =>
      WriteAtIsCommit(db, root, path, length, [], false, expected, false, now);
  }

  lemma AcceptedIsPositional(db: Db, path: Segments, e: Edit, expected: Option<nat>)
    requires Accepts(db, path, e, expected)
    ensures Positional(db, path, MayCreate(e))
  {
    hide Resolved;
  }

  /** When an edit succeeds: the target allows it, the stream is whole and the new bytes end within the quota. */
  lemma EditSucceedsIff(db: Db, root: Id, path: Segments, e: Edit, expected: Option<nat>, now: int)
    requires Inv(db, root)
    ensures var s := Perform(db, path, e, expected, now);
            (s.outcome.Done? <==> Accepts(db, path, e, expected) && Fits(db, path, e)) &&
            (s.outcome.Done? || s.outcome.Failed?)
  {
    hide Inv, Commit, Edited, Perform, Accepts, Positional, Fits;
    EditIsCommit(db, root, path, e, expected, now);
    CommitSucceedsIff(db, path, Edited(Before(db, path), e), e, expected, now);
    if Accepts(db, path, e, expected) { AcceptedIsPositional(db, path, e, expected); }
  }

  /** Some beginning of the stream, whole so far, ends beyond the quota. */
  ghost predicate Overruns(start: nat, source: seq<Item>, maxFileBytes: nat) {
    exists k: nat :: k <= |source| && OverrunsAt(start, source, maxFileBytes, k)
  }

  ghost predicate OverrunsAt(start: nat, source: seq<Item>, maxFileBytes: nat, k: nat)
    requires k <= |source|
  {
    Whole(source[..k]) && Gather(source[..k]) != [] && start + |Gather(source[..k])| > maxFileBytes
  }

  lemma OverrunsLater(start: nat, source: seq<Item>, maxFileBytes: nat, k: nat)
    requires source != [] && source[0].Data? && k < |source|
    requires source[0].bytes == [] || start + |source[0].bytes| <= maxFileBytes
    ensures OverrunsAt(start, source, maxFileBytes, k + 1) <==>
            OverrunsAt(start + |source[0].bytes|, source[1..], maxFileBytes, k)
  {
    var front := source[..k + 1];
    assert front[0] == source[0] && front[1..] == source[1..][..k];
    assert Whole(front) <==> Whole(front[1..]) by {
      assert forall i :: 0 < i < |front| ==> front[i] == front[1..][i - 1];
    }
  }

  /** The first thing that stops a stream: an overrun, or else an item that is broken. */
  lemma {:induction false} FeedFailsIff(total: nat, source: seq<Item>, maxFileBytes: nat)
    ensures Feed(total, source, maxFileBytes) == Some(QuotaExceeded) <==> Overruns(total, source, maxFileBytes)
    ensures Feed(total, source, maxFileBytes) == Some(SourceFailed) <==>
            !Overruns(total, source, maxFileBytes) && !Whole(source)
    decreases |source|
  {
    FeedSucceedsIff(total, source, maxFileBytes);
    if source == [] {
      assert Gather(source[..0]) == [];
    } else if source[0].Broken? {
      forall k: nat | k <= |source| ensures !OverrunsAt(total, source, maxFileBytes, k) {
        if k > 0 { assert source[..k][0] == source[0]; }
      }
    } else if source[0].bytes != [] && total + |source[0].bytes| > maxFileBytes {
      assert source[..1] == [source[0]] && [source[0]][1..] == [];
      assert OverrunsAt(total, source, maxFileBytes, 1);
    } else {
      var after := total + |source[0].bytes|;
      FeedFailsIff(after, source[1..], maxFileBytes);
      FeedSucceedsIff(after, source[1..], maxFileBytes);
      OverrunsOneLater(total, source, maxFileBytes);
    }
  }

  lemma OverrunsOneLater(total: nat, source: seq<Item>, maxFileBytes: nat)
    requires source != [] && source[0].Data?
    requires source[0].bytes == [] || total + |source[0].bytes| <= maxFileBytes
    ensures Overruns(total, source, maxFileBytes) <==>
            Overruns(total + |source[0].bytes|, source[1..], maxFileBytes)
  {
    var after := total + |source[0].bytes|;
    if Overruns(total, source, maxFileBytes) {
      var k: nat :| k <= |source| && OverrunsAt(total, source, maxFileBytes, k);
      assert Gather(source[..0]) == [];
      OverrunsLater(total, source, maxFileBytes, k - 1);
    }
    if Overruns(after, source[1..], maxFileBytes) {
      var k: nat :| k <= |source[1..]| && OverrunsAt(after, source[1..], maxFileBytes, k);
      OverrunsLater(total, source, maxFileBytes, k);
    }
  }

  /** The new bytes, or the zeros before them, do not fit. */
  ghost predicate TooBig(db: Db, path: Segments, e: Edit) {
    var start := Start(e, Before(db, path));
    Overruns(start, Input(e), db.maxFileBytes) || (start > |Before(db, path)| && start > db.maxFileBytes)
  }

  /** Content is staged before the target is checked only if the whole file is written. */
  ghost predicate Stages(db: Db, path: Segments, e: Edit) { e.EditWrite? || Positional(db, path, MayCreate(e)) }

  /** A file of another revision stands at the path. */
  ghost predicate Contested(db: Db, path: Segments, expected: Option<nat>) {
    var x := Resolved(db.nodes, path);
    x.Some? && db.nodes[x.value].kind.File? && Conflicts(expected, db.nodes[x.value])
  }

  lemma CommitRefusals(db: Db, path: Segments, content: Bytes, create: bool, expected: Option<nat>, now: int)
    ensures var r := Commit(db, path, content, create, expected, now).outcome;
            (r == Failed(RevisionConflict) <==> Contested(db, path, expected)) &&
            (r.Failed? ==> r.code in {RevisionConflict, NoSuchPath, WrongNodeType})
  {
    hide Resolved, RowsOf, FinalizeNew, FinalizeExisting;
  }

  lemma WriteRefusals(db: Db, path: Segments, source: seq<Item>, create: bool, expected: Option<nat>, now: int)
    ensures var r := Write(db, path, source, create, expected, now).outcome;
            var over := Overruns(0, source, db.maxFileBytes);
            (r == Failed(OverQuota) <==> over) && (r == Failed(SourceBroken) <==> !over && !Whole(source)) &&
            (r == Failed(RevisionConflict) <==> !over && Whole(source) && Contested(db, path, expected))
  {
    FeedFailsIff(0, source, db.maxFileBytes);
    CommitRefusals(db, path, Gather(source), create, expected, now);
    hide Commit, Feed, Overruns, Whole, Gather, Contested;
  }

  lemma WriteAtRefusals(db: Db, root: Id, path: Segments, offset: nat, source: seq<Item>, create: bool,
                        expected: Option<nat>, preserve: bool, now: int)
    requires Inv(db, root)
    ensures var r := WriteAt(db, path, offset, source, create, expected, preserve, now).outcome;
            var over := Overruns(offset, source, db.maxFileBytes) ||
                        (offset > |Before(db, path)| && offset > db.maxFileBytes);
            (r == Failed(OverQuota) <==> Positional(db, path, create) && over) &&
            (r == Failed(SourceBroken) <==> Positional(db, path, create) && !over && !Whole(source)) &&
            (r == Failed(RevisionConflict) <==> !over && Whole(source) && Contested(db, path, expected))
  {
    FeedFailsIff(offset, source, db.maxFileBytes);
    var prior := Before(db, path);
    CommitRefusals(db, path, Staged(prior, offset, Gather(source), preserve), create, expected, now);
    hide Inv, Commit, Feed, Overruns, Whole, Gather, Staged, Resolved, FileContent;
  }

  lemma ContestedIsPositional(db: Db, path: Segments, expected: Option<nat>, create: bool)
    ensures Contested(db, path, expected) ==> Positional(db, path, create)
  {
  }

  /**
   How an edit is refused for its content: too big exactly if the zeros before the new
   bytes or some beginning of the stream end beyond the quota, broken exactly if the
   stream breaks before that, and in conflict exactly if neither and the file has another
   revision.
   */
  lemma EditRefusals(db: Db, root: Id, path: Segments, e: Edit, expected: Option<nat>, now: int)
    requires Inv(db, root)
    ensures var r := Perform(db, path, e, expected, now).outcome;
            (r == Failed(OverQuota) <==> Stages(db, path, e) && TooBig(db, path, e)) &&
            (r == Failed(SourceBroken) <==> Stages(db, path, e) && !TooBig(db, path, e) && !Whole(Input(e))) &&
            (r == Failed(RevisionConflict) <==>
              !TooBig(db, path, e) && Whole(Input(e)) && Contested(db, path, expected))
  {
    hide Inv, Write, WriteAt, Overruns, Whole, Before, Positional, Resolved;
    match e
    case EditWrite(source, create) =>
      WriteRefusals(db, path, source, create, expected, now);
    case EditAt(offset, source, create) =>
      WriteAtRefusals(db, root, path, offset, source, create, expected, true, now);
    case EditAppend(source, create) =>
      if Positional(db, path, create) {
        AppendIsWriteAt(db, root, path, source, create, expected, now);
        WriteAtRefusals(db, root, path, |Before(db, path)|, source, create, expected, true, now);
      } else {
        ContestedIsPositional(db, path, expected, create);
        AppendElsewhereFails(db, path, source, create, expected, now);
      }
    case EditTruncate(length) =>
      WriteAtRefusals(db, root, path, length, [], false, expected, false, now);
  }

  /** What a successful edit leaves: the edited bytes under the path, everything else as it was. */
  lemma EditHasItsMeaning(db: Db, root: Id, path: Segments, e: Edit, expected: Option<nat>, now: int)
    requires Inv(db, root) && Perform(db, path, e, expected, now).outcome.Done?
    ensures var s := Perform(db, path, e, expected, now);
            Inv(s.db, root) && Holding(db, s.db, path, s.outcome.node, Edited(Before(db, path), e)) &&
            (Resolved(db.nodes, path).Some? ==> Resolved(db.nodes, path) == Some(s.outcome.node))
  {
    hide Inv, Commit, Edited, Resolved, Perform, Holding, Accepts, Positional, Fits, Before;
    EditSucceedsIff(db, root, path, e, expected, now);
    EditIsCommit(db, root, path, e, expected, now);
    AcceptedIsPositional(db, path, e, expected);
    var content := Edited(Before(db, path), e);
    CommitKeepsInv(db, root, path, content, MayCreate(e), expected, now);
    match Resolved(db.nodes, path)
    case Some(x) => CommitExisting(db, root, path, content, MayCreate(e), expected, now, x);
    case None => CommitNew(db, root, path, content, MayCreate(e), expected, now);
  }

  // --- runs on one file ------------------------------------------------------

  /** The abstract file after a list of edits. */
  function EditedBy(prior: Bytes, edits: seq<Edit>): Bytes
    decreases |edits|
  {
    if edits == [] then prior else EditedBy(Edited(prior, edits[0]), edits[1..])
  }

  ghost predicate EditStep(db: Db, db': Db, path: Segments, e: Edit, expected: Option<nat>, now: int) {
    var s := Perform(db, path, e, expected, now);
    s.outcome.Done? && s.db == db'
  }

  /** Successful edits of one path, one after the other. */
  ghost predicate EditRun(dbs: seq<Db>, path: Segments, edits: seq<Edit>, expected: seq<Option<nat>>, times: seq<int>) {
    |dbs| == |edits| + 1 && |expected| == |times| == |edits| &&
    forall i :: 0 <= i < |edits| ==> EditStep(dbs[i], dbs[i + 1], path, edits[i], expected[i], times[i])
  }

  lemma EditRunTail(dbs: seq<Db>, path: Segments, edits: seq<Edit>, expected: seq<Option<nat>>, times: seq<int>)
    requires EditRun(dbs, path, edits, expected, times) && edits != []
    ensures EditStep(dbs[0], dbs[1], path, edits[0], expected[0], times[0])
    ensures EditRun(dbs[1..], path, edits[1..], expected[1..], times[1..])
  {
    hide EditStep;
    assert dbs[0 + 1] == dbs[1];
    forall i | 0 <= i < |edits| - 1
      ensures EditStep(dbs[1..][i], dbs[1..][i + 1], path, edits[1..][i], expected[1..][i], times[1..][i])
    {
      assert EditStep(dbs[i + 1], dbs[i + 1 + 1], path, edits[i + 1], expected[i + 1], times[i + 1]);
    }
  }

  /** After any run of edits the stored chunks hold exactly the abstract file. */
  lemma {:induction false} RunOfEdits(dbs: seq<Db>, root: Id, path: Segments, edits: seq<Edit>,
                                      expected: seq<Option<nat>>, times: seq<int>)
    requires EditRun(dbs, path, edits, expected, times) && Inv(dbs[0], root)
    ensures Inv(dbs[|edits|], root) && Before(dbs[|edits|], path) == EditedBy(Before(dbs[0], path), edits)
    decreases |edits|
  {
    hide Inv, Perform, Resolved, Edited;
    if edits != [] {
      EditRunTail(dbs, path, edits, expected, times);
      hide EditRun;
      EditHasItsMeaning(dbs[0], root, path, edits[0], expected[0], times[0]);
      RunOfEdits(dbs[1..], root, path, edits[1..], expected[1..], times[1..]);
    }
  }
}
