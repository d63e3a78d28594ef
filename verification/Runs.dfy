/**
 Copies, moves and whole runs.  Every request keeps the invariant of Store.dfy with
 one exception that is given exactly: a move whose destination parent lies inside
 the moved subtree.  Hence every state of every run without such a move is valid.
 */
module Runs {
  import opened Common
  import opened Paths
  import opened Tree
  import opened Resolve
  import opened Store
  import opened Copy
  import opened Operations
  import opened Safety

  // --- clearing the destination ----------------------------------------------

  ghost function Cleared(db: Db, existing: Option<Id>): Db {
    if existing.Some? then PurgeSubtree(db, existing.value) else db
  }

  lemma {:induction false} ChainAvoids(nodes: Nodes, a: Id, c: seq<Id>)
    requires Chain(nodes, c) && !Below(nodes, a, c[|c| - 1])
    ensures forall i :: 0 <= i < |c| ==> !Below(nodes, a, c[i])
    decreases |c|
  {
    if |c| > 1 {
      if Below(nodes, a, c[|c| - 2]) { BelowChild(nodes, a, c[|c| - 2], c[|c| - 1]); }
      ChainAvoids(nodes, a, c[..|c| - 1]);
      forall i | 0 <= i < |c| ensures !Below(nodes, a, c[i]) {
        if i < |c| - 1 { assert c[i] == c[..|c| - 1][i]; }
      }
    }
  }

  /** A purge elsewhere does not change what lies above a surviving node. */
  lemma BelowAfterPurge(nodes: Nodes, a: Id, s: Id, x: Id)
    requires x in nodes && !Below(nodes, a, x)
    ensures Below(Tree.Purged(nodes, a), s, x) <==> Below(nodes, s, x)
  {
    if Below(nodes, s, x) {
      var c :| Joins(nodes, c, s, x);
      ChainAvoids(nodes, a, c);
      assert Joins(Tree.Purged(nodes, a), c, s, x);
    }
    if Below(Tree.Purged(nodes, a), s, x) {
      var c :| Joins(Tree.Purged(nodes, a), c, s, x);
      assert Joins(nodes, c, s, x);
    }
  }

  /** The directory a destination names, and what is there. */
  ghost predicate IsDestination(nodes: Nodes, parent: Id, name: string, existing: Option<Id>) {
    parent in nodes && nodes[parent].kind.Directory? && existing == FetchChild(nodes, parent, name)
  }

  lemma ExistingIsChild(nodes: Nodes, root: Id, parent: Id, name: string, existing: Option<Id>)
    requires Sound(nodes, root) && IsDestination(nodes, parent, name, existing) && existing.Some?
    ensures IsChild(nodes, parent, name, existing.value) && existing.value != root &&
            !Below(nodes, existing.value, parent)
  {
    NotBelowOwnChild(nodes, parent, existing.value);
  }

  /** Clearing the destination keeps its directory and frees the name. */
  lemma ClearingFreesTheName(db: Db, root: Id, parent: Id, name: string, existing: Option<Id>)
    requires Inv(db, root) && IsDestination(db.nodes, parent, name, existing)
    ensures Inv(Cleared(db, existing), root) && IsDestination(Cleared(db, existing).nodes, parent, name, None)
  {
    UnfoldInv(db, root);
    hide Inv;
    if existing.Some? {
      var x := existing.value;
      ExistingIsChild(db.nodes, root, parent, name, existing);
      PurgeKeepsInv(db, root, x);
      BelowSelf(db.nodes, x);
      var nodes' := Cleared(db, existing).nodes;
      forall y ensures !IsChild(nodes', parent, name, y) {
        assert IsChild(nodes', parent, name, y) ==> IsChild(db.nodes, parent, name, y);
      }
    }
  }

  // --- copy ------------------------------------------------------------------

  lemma CopyOverKeepsInv(db: Db, root: Id, source: Id, parent: Id, existing: Option<Id>, from: Segments, to: Segments,
                         now: int)
    requires Inv(db, root) && to != [] && IsDestination(db.nodes, parent, to[|to| - 1], existing)
    requires CopyOver(db, source, parent, existing, from, to, now).Some?
    ensures Inv(CopyOver(db, source, parent, existing, from, to, now).value.db, root)
  {
    hide Inv, CopySubtree, PurgeSubtree, ActiveBelow;
    ClearingFreesTheName(db, root, parent, to[|to| - 1], existing);
    var cleared := Cleared(db, existing);
    if Active(cleared.nodes, source) {
      var top := Pending(source, parent, to[|to| - 1]);
      CopyEndsIff(cleared, root, top, now);
      var final, copies := CopySucceeds(cleared, root, top, now);
      AppendKeepsInv(final, root, Copied, Some(cleared.nextId), Some(from), Some(to), Some(1), now);
    }
  }

  lemma CopyKeepsInv(db: Db, root: Id, from: Segments, to: Segments, recursive: bool, overwrite: bool,
                     expected: Option<nat>, now: int)
    requires Inv(db, root) && CopyTo(db, from, to, recursive, overwrite, expected, now).Some?
    ensures Inv(CopyTo(db, from, to, recursive, overwrite, expected, now).value.db, root)
  {
    UnfoldInv(db, root);
    hide Inv, Named, ResolveDestination, CopyOver;
    if Named(db.nodes, from).Ok? && ResolveDestination(db.nodes, to).Ready? {
      var source := Named(db.nodes, from).value;
      var d := ResolveDestination(db.nodes, to);
      DestinationIsProper(db.nodes, root, to);
      if CopyOver(db, source, d.parent, d.existing, from, to, now).Some? {
        CopyOverKeepsInv(db, root, source, d.parent, d.existing, from, to, now);
      }
    }
  }

  // --- move ------------------------------------------------------------------

  lemma MoveOnCleared(db: Db, root: Id, source: Id, node: Node)
    requires Inv(db, root) && Active(db.nodes, source) && source != root
    requires node.parent.Some? && node == MovedNode(db.nodes[source], node.parent.value, node.name, node.modifiedAt)
    requires IsDestination(db.nodes, node.parent.value, node.name, None)
    ensures Inv(UpdateNode(db, source, node), root) <==> !Below(db.nodes, source, node.parent.value)
  {
    UnfoldInv(db, root);
    if Below(db.nodes, source, node.parent.value) {
      RehangBelowMakesCycle(db.nodes, source, node, node.parent.value);
    } else {
      RehangKeepsInv(db, root, source, node);
    }
  }

  lemma AppendReflectsInv(db: Db, root: Id, kind: ChangeKind, node: Option<Id>, oldPath: Option<Segments>,
                          newPath: Option<Segments>, revision: Option<nat>, now: int)
    ensures Inv(AppendChange(db, kind, node, oldPath, newPath, revision, now), root) <==> Inv(db, root)
  {
    hide Sound, FilesOk, TrashOk, AttributesOk;
    var db' := AppendChange(db, kind, node, oldPath, newPath, revision, now);
    assert forall i :: 0 <= i < |db.changes| ==> db'.changes[i] == db.changes[i];
  }

  /** What clearing the destination means for the source of a move. */
  lemma SourceAfterClearing(db: Db, root: Id, source: Id, parent: Id, name: string, existing: Option<Id>)
    requires Sound(db.nodes, root) && source in db.nodes && IsDestination(db.nodes, parent, name, existing)
    ensures var nodes' := Cleared(db, existing).nodes;
            (source in nodes' <==> existing.None? || !Below(db.nodes, existing.value, source)) &&
            (source in nodes' ==> nodes'[source] == db.nodes[source]) &&
            (Below(nodes', source, parent) <==> Below(db.nodes, source, parent)) &&
            (source !in nodes' ==> !Below(db.nodes, source, parent))
  {
    hide Below;
    if existing.Some? {
      ExistingIsChild(db.nodes, root, parent, name, existing);
      BelowAfterPurge(db.nodes, existing.value, source, parent);
      if Below(db.nodes, existing.value, source) && Below(db.nodes, source, parent) {
        BelowTrans(db.nodes, existing.value, source, parent);
      }
    }
  }

  lemma MoveOverIs(db: Db, source: Id, parent: Id, existing: Option<Id>, from: Segments, to: Segments, now: int)
    requires to != [] && source in db.nodes
    ensures var cleared := Cleared(db, existing);
            var node := MovedNode(db.nodes[source], parent, to[|to| - 1], now);
            MoveOver(db, source, parent, existing, from, to, now) ==
            AppendChange(if source in cleared.nodes then UpdateNode(cleared, source, node) else cleared,
                         Moved, Some(source), Some(from), Some(to), Some(node.revision), now)
  {
    hide PurgeSubtree;
  }

  /** The row updates of a move: valid exactly when the destination parent is not in the moved subtree. */
  lemma MoveOverKeepsInvIff(db: Db, root: Id, source: Id, parent: Id, existing: Option<Id>, from: Segments,
                            to: Segments, now: int)
    requires Inv(db, root) && Active(db.nodes, source) && source != root
    requires to != [] && IsDestination(db.nodes, parent, to[|to| - 1], existing)
    ensures var db' := MoveOver(db, source, parent, existing, from, to, now);
            (Inv(db', root) <==> !Below(db.nodes, source, parent)) &&
            (source in db'.nodes <==> existing.None? || !Below(db.nodes, existing.value, source))
  {
    UnfoldInv(db, root);
    hide Inv, Below, Cleared, MoveOver, IsDestination;
    var name := to[|to| - 1];
    ClearingFreesTheName(db, root, parent, name, existing);
    SourceAfterClearing(db, root, source, parent, name, existing);
    MoveOverIs(db, source, parent, existing, from, to, now);
    var cleared := Cleared(db, existing);
    var node := MovedNode(db.nodes[source], parent, name, now);
    if source in cleared.nodes {
      MoveOnCleared(cleared, root, source, node);
      AppendReflectsInv(UpdateNode(cleared, source, node), root, Moved, Some(source), Some(from), Some(to),
                        Some(node.revision), now);
    } else {
      AppendReflectsInv(cleared, root, Moved, Some(source), Some(from), Some(to), Some(node.revision), now);
    }
  }

  /** All checks of `move_tx` pass. */
  ghost predicate MoveAccepted(db: Db, from: Segments, to: Segments, overwrite: bool, expected: Option<nat>) {
    from != [] && !(from <= to) &&
    Named(db.nodes, from).Ok? && !Conflicts(expected, db.nodes[Named(db.nodes, from).value]) &&
    ResolveDestination(db.nodes, to).Ready? && (ResolveDestination(db.nodes, to).existing.None? || overwrite)
  }

  lemma MoveSucceedsIff(db: Db, from: Segments, to: Segments, overwrite: bool, expected: Option<nat>, now: int)
    ensures MoveTo(db, from, to, overwrite, expected, now).outcome.Done? <==>
            MoveAccepted(db, from, to, overwrite, expected)
  {
    hide Named, Followed, MoveOver;
  }

  /** They pass although the directory the node goes to lies in the subtree of that node. */
  ghost predicate MovesBelowItself(db: Db, from: Segments, to: Segments, overwrite: bool, expected: Option<nat>) {
    MoveAccepted(db, from, to, overwrite, expected) &&
    Below(db.nodes, Named(db.nodes, from).value, ResolveDestination(db.nodes, to).parent)
  }

  /** What an accepted move resolved its two paths to. */
  lemma AcceptedMove(db: Db, from: Segments, to: Segments, overwrite: bool, expected: Option<nat>, now: int)
    requires MoveTo(db, from, to, overwrite, expected, now).outcome.Done?
    ensures from != [] && to != [] && !(from <= to) && Named(db.nodes, from).Ok? &&
            ResolveDestination(db.nodes, to).Ready?
    ensures var source, d := Named(db.nodes, from).value, ResolveDestination(db.nodes, to);
            MoveTo(db, from, to, overwrite, expected, now) ==
            Step(MoveOver(db, source, d.parent, d.existing, from, to, now), Done(source))
  {
    hide Named, Followed, MoveOver;
  }

  /** A refused move changes nothing. */
  lemma RefusedMove(db: Db, from: Segments, to: Segments, overwrite: bool, expected: Option<nat>, now: int)
    requires !MoveTo(db, from, to, overwrite, expected, now).outcome.Done?
    ensures MoveTo(db, from, to, overwrite, expected, now).db == db
  {
    hide Named, ResolveDestination, MoveOver;
  }

  lemma MoveKeepsInvIff(db: Db, root: Id, from: Segments, to: Segments, overwrite: bool, expected: Option<nat>,
                        now: int)
    requires Inv(db, root)
    ensures Inv(MoveTo(db, from, to, overwrite, expected, now).db, root) <==>
            !MovesBelowItself(db, from, to, overwrite, expected)
  {
    UnfoldInv(db, root);
    hide Inv, Named, ResolveDestination, MoveTo, MoveOver, Below, MoveAccepted;
    MoveSucceedsIff(db, from, to, overwrite, expected, now);
    if MoveTo(db, from, to, overwrite, expected, now).outcome.Done? {
      AcceptedMove(db, from, to, overwrite, expected, now);
      var source := Named(db.nodes, from).value;
      var d := ResolveDestination(db.nodes, to);
      NamedIsProper(db.nodes, root, from);
      DestinationIsProper(db.nodes, root, to);
      MoveOverKeepsInvIff(db, root, source, d.parent, d.existing, from, to, now);
    } else {
      RefusedMove(db, from, to, overwrite, expected, now);
    }
  }

  lemma {:induction false} DestinationOfPlainPath(nodes: Nodes, root: Id, to: Segments, p: Id)
    requires Sound(nodes, root) && to != [] && Resolved(nodes, Pop(to)) == Some(p) && p in nodes &&
             nodes[p].kind.Directory?
    ensures ResolveDestination(nodes, to) == Ready(p, FetchChild(nodes, p, to[|to| - 1]))
  {
    WalksAgreeWhenResolved(nodes, root, Pop(to), p, true);
  }

  /** Between paths that cross no link, the lexical test of `move_tx` is the ancestry test, and the move is safe. */
  lemma PlainMoveIsSafe(db: Db, root: Id, from: Segments, to: Segments, overwrite: bool, expected: Option<nat>,
                        now: int, s: Id, p: Id)
    requires Inv(db, root) && Resolved(db.nodes, from) == Some(s)
    requires to != [] ==> Resolved(db.nodes, Pop(to)) == Some(p) && p in db.nodes && db.nodes[p].kind.Directory?
    ensures Inv(MoveTo(db, from, to, overwrite, expected, now).db, root)
    ensures to != [] ==> (from <= Pop(to) <==> Below(db.nodes, s, p))
  {
    UnfoldInv(db, root);
    hide Inv, Named, ResolveDestination, MoveTo, MoveOver, Below;
    MoveKeepsInvIff(db, root, from, to, overwrite, expected, now);
    MoveSucceedsIff(db, from, to, overwrite, expected, now);
    if to != [] {
      assert Pop(to) <= to;
      PrefixIsAncestry(db.nodes, root, from, s, Pop(to), p);
      PlainName(db.nodes, root, from, s);
      DestinationOfPlainPath(db.nodes, root, to, p);
    }
    if MovesBelowItself(db, from, to, overwrite, expected) {
      AcceptedMove(db, from, to, overwrite, expected, now);
    }
  }

  lemma PlainName(nodes: Nodes, root: Id, path: Segments, x: Id)
    requires Sound(nodes, root) && Resolved(nodes, path) == Some(x)
    ensures Named(nodes, path) == Ok(x)
  {
    WalksAgreeWhenResolved(nodes, root, path, x, false);
  }

  /** A plain move over an existing node: the moved node survives unless its destination is an ancestor of it. */
  lemma PlainMoveLosesSourceIff(db: Db, root: Id, from: Segments, to: Segments, expected: Option<nat>, now: int, s: Id,
                                e: Id)
    requires Inv(db, root) && Resolved(db.nodes, from) == Some(s) && to != [] && Resolved(db.nodes, to) == Some(e)
    requires MoveTo(db, from, to, true, expected, now).outcome.Done?
    ensures MoveTo(db, from, to, true, expected, now).outcome == Done(s)
    ensures s in MoveTo(db, from, to, true, expected, now).db.nodes <==> !(to <= from)
  {
    UnfoldInv(db, root);
    hide Inv, Named, ResolveDestination, MoveTo, MoveOver, Below;
    AcceptedMove(db, from, to, true, expected, now);
    PlainName(db.nodes, root, from, s);
    NamedIsProper(db.nodes, root, from);
    LastStep(db.nodes, root, to, e);
    var p := Resolved(db.nodes, Pop(to)).value;
    DestinationOfPlainPath(db.nodes, root, to, p);
    ChildIsFetched(db.nodes, p, to[|to| - 1], e);
    PrefixIsAncestry(db.nodes, root, to, e, from, s);
    MoveOverKeepsInvIff(db, root, s, p, Some(e), from, to, now);
  }

  // --- every request ---------------------------------------------------------

  ghost predicate HangsBelowItself(db: Db, op: Operation) {
    op.OpMove? && MovesBelowItself(db, op.from, op.to, op.overwrite, op.expected)
  }

  /** Every request that ends leaves a valid workspace, unless it moves a node below itself. */
  lemma ApplyKeepsInvIff(db: Db, root: Id, op: Operation, now: int)
    requires Inv(db, root) && Apply(db, op, now).Some?
    ensures Inv(Apply(db, op, now).value.db, root) <==> !HangsBelowItself(db, op)
  {
    hide Inv, Mkdir, MakeSymlink, CopyTo, MoveTo, Remove, TrashPath, Restore, Purge, SetAttribute;
    hide RemoveAttribute, Touch, Write, WriteAt;
    hide Append, Truncate, MovesBelowItself;
    match op
    case OpMkdir(path, o) => MkdirKeepsInv(db, root, path, o, now);
    case OpTouch(path, create, expected) => TouchKeepsInv(db, root, path, create, expected, now);
    case OpCopy(from, to, recursive, overwrite, expected) =>
      CopyKeepsInv(db, root, from, to, recursive, overwrite, expected, now);
    case OpMove(from, to, overwrite, expected) => MoveKeepsInvIff(db, root, from, to, overwrite, expected, now);
    case OpRemove(path, recursive, expected) => RemoveKeepsInv(db, root, path, recursive, expected, now);
    case OpSymlink(target, link, o) => SymlinkKeepsInv(db, root, target, link, o, now);
    case OpTrash(path, expected) => TrashKeepsInv(db, root, path, expected, now);
    case OpRestore(record, destination, expected) => RestoreKeepsInv(db, root, record, destination, expected, now);
    case OpPurge(record) => PurgeRecordKeepsInv(db, root, record, now);
    case OpSetAttribute(path, key, value, expected) => SetAttributeKeepsInv(db, root, path, key, value, expected, now);
    case OpRemoveAttribute(path, key, expected) => RemoveAttributeKeepsInv(db, root, path, key, expected, now);
    case OpWrite(path, source, create, expected) => WriteKeepsInv(db, root, path, source, create, expected, now);
    case OpWriteAt(path, offset, source, create, expected) =>
      WriteAtKeepsInv(db, root, path, offset, source, create, expected, true, now);
    case OpAppend(path, source, create, expected) =>
      AppendOrTruncateKeepsInv(db, root, path, source, 0, create, expected, now);
    case OpTruncate(path, length, expected) =>
      AppendOrTruncateKeepsInv(db, root, path, [], length, false, expected, now);
  }

  // --- runs ------------------------------------------------------------------

  /** A request at a time, answered. */
  datatype Request = Request(op: Operation, now: int)

  /** `dbs[0]`, then the tables after each request. */
  ghost predicate Run(dbs: seq<Db>, requests: seq<Request>) {
    |dbs| == |requests| + 1 &&
    forall i :: 0 <= i < |requests| ==>
      Apply(dbs[i], requests[i].op, requests[i].now).Some? &&
      dbs[i + 1] == Apply(dbs[i], requests[i].op, requests[i].now).value.db
  }

  /** No request of the run moves a node below itself. */
  ghost predicate MovesUpright(dbs: seq<Db>, requests: seq<Request>) {
    |requests| <= |dbs| && forall i :: 0 <= i < |requests| ==> !HangsBelowItself(dbs[i], requests[i].op)
  }

  lemma {:induction false} RunKeepsInv(dbs: seq<Db>, requests: seq<Request>, root: Id, i: nat)
    requires Run(dbs, requests) && Inv(dbs[0], root) && MovesUpright(dbs, requests) && i < |dbs|
    ensures Inv(dbs[i], root)
  {
    hide Inv, Apply, HangsBelowItself;
    if i > 0 {
      RunKeepsInv(dbs, requests, root, i - 1);
      ApplyKeepsInvIff(dbs[i - 1], root, requests[i - 1].op, requests[i - 1].now);
    }
  }

  /** Every workspace that was created empty and driven by such requests is valid at every moment. */
  lemma EveryRunIsSafe(maxFileBytes: nat, start: int, dbs: seq<Db>, requests: seq<Request>, i: nat)
    requires Run(dbs, requests) && dbs[0] == NewWorkspace(maxFileBytes, start) && MovesUpright(dbs, requests) &&
             i < |dbs|
    ensures Inv(dbs[i], 0)
  {
    hide Inv, Apply, HangsBelowItself;
    NewWorkspaceIsValid(maxFileBytes, start);
    RunKeepsInv(dbs, requests, 0, i);
  }
}
