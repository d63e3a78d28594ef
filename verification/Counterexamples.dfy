/**
 Small workspaces on which the code does not do what one would expect: the inputs
 behind the exact conditions proved in Runs.dfy, Copy.dfy and Failures.dfy.
 */
module Counterexamples {
  import opened Common
  import opened Chunks
  import opened Paths
  import opened Tree
  import opened Resolve
  import opened Store
  import opened Copy
  import opened Operations
  import opened Safety
  import opened Runs
  import opened Failures
  import TrashEffects

  function Empty(): Db { NewWorkspace(0, 0) }

  /** The directory `/a`. */
  function WithA(): Db { Store.InsertNode(Empty(), DirectoryNode(0, "a", 0)) }

  /** `/a` and the link `/l` to it. */
  function WithLink(): Db { Store.InsertNode(WithA(), LinkNode(0, "l", "/a", 0)) }

  /** The directories `/a` and `/a/b`. */
  function WithB(): Db { Store.InsertNode(WithA(), DirectoryNode(1, "b", 0)) }

  lemma NoChildYet(db: Db, p: Id, name: string)
    requires forall x :: x in db.nodes ==> db.nodes[x].parent != Some(p) || db.nodes[x].name != name
    ensures FetchChild(db.nodes, p, name).None?
  {
  }

  lemma WithAIsValid()
    ensures Inv(WithA(), 0) && WithA().nodes == map[0 := RootNode(0), 1 := DirectoryNode(0, "a", 0)] &&
            WithA().nextId == 2
  {
    hide Inv;
    NewWorkspaceIsValid(0, 0);
    NoChildYet(Empty(), 0, "a");
    InsertKeepsInv(Empty(), 0, DirectoryNode(0, "a", 0));
  }

  lemma WithLinkIsValid()
    ensures Inv(WithLink(), 0)
    ensures WithLink().nodes == map[0 := RootNode(0), 1 := DirectoryNode(0, "a", 0), 2 := LinkNode(0, "l", "/a", 0)]
  {
    hide Inv;
    WithAIsValid();
    NoChildYet(WithA(), 0, "l");
    InsertKeepsInv(WithA(), 0, LinkNode(0, "l", "/a", 0));
  }

  lemma WithBIsValid()
    ensures Inv(WithB(), 0)
    ensures WithB().nodes == map[0 := RootNode(0), 1 := DirectoryNode(0, "a", 0), 2 := DirectoryNode(1, "b", 0)]
  {
    hide Inv;
    WithAIsValid();
    NoChildYet(WithA(), 1, "b");
    InsertKeepsInv(WithA(), 0, DirectoryNode(1, "b", 0));
  }

  /** One more step of a plain path. */
  lemma StepDown(nodes: Nodes, root: Id, path: Segments, p: Id, name: string, x: Id)
    requires Sound(nodes, root) && Resolved(nodes, path) == Some(p) && p in nodes && nodes[p].kind.Directory? &&
             IsChild(nodes, p, name, x)
    ensures Resolved(nodes, path + [name]) == Some(x)
  {
    ResolvedChild(nodes, root, path, p, name);
    ChildIsFetched(nodes, p, name, x);
  }

  lemma AtRoot(nodes: Nodes, root: Id)
    requires Sound(nodes, root)
    ensures Resolved(nodes, []) == Some(root)
  {
    RootIsFetched(nodes, root);
  }

  /** A move whose checks all pass. */
  lemma MoveIsAccepted(db: Db, from: Segments, to: Segments, overwrite: bool, now: int, source: Id, parent: Id,
                       existing: Option<Id>)
    requires from != [] && to != [] && !(from <= to) && Named(db.nodes, from) == Ok(source) &&
             (existing.None? || overwrite)
    requires ResolveDestination(db.nodes, to) == Ready(parent, existing)
    ensures source in db.nodes
    ensures MoveTo(db, from, to, overwrite, None, now) ==
            Step(MoveOver(db, source, parent, existing, from, to, now), Done(source))
  {
    hide Named, ResolveDestination, MoveOver;
  }

  /** Copying `/a` to `/a/b` never returns. */
  lemma CopyIntoItselfNeverEnds(now: int)
    ensures CopyTo(WithA(), ["a"], ["a", "b"], true, false, None, now) == None
  {
    hide Inv, CopySubtree, Resolved, Sound, WithA, ActiveBelow, Named;
    WithAIsValid();
    var db, top := WithA(), Pending(1, 1, "b");
    UnfoldInv(db, 0);
    AtRoot(db.nodes, 0);
    StepDown(db.nodes, 0, [], 0, "a", 1);
    assert [] + ["a"] == ["a"] && Pop(["a", "b"]) == ["a"];
    PlainName(db.nodes, 0, ["a"], 1);
    DestinationOfPlainPath(db.nodes, 0, ["a", "b"], 1);
    NoChildYet(db, 1, "b");
    ActiveBelowSelf(db.nodes, 1);
    CopyEndsIff(db, 0, top, now);
  }

  /** Moving `/a` to `/l/b`, where `/l` is a link to `/a`, hangs the directory below itself. */
  lemma MoveThroughLinkMakesCycle(now: int)
    ensures var s := MoveTo(WithLink(), ["a"], ["l", "b"], false, None, now);
            s.outcome == Done(1) && s.db.nodes[1].parent == Some(1) && !Inv(s.db, 0)
  {
    hide Inv, Resolved, Sound, Followed, WithLink, PurgeSubtree, MoveTo, Named;
    WithLinkIsValid();
    var db := WithLink();
    UnfoldInv(db, 0);
    AtRoot(db.nodes, 0);
    StepDown(db.nodes, 0, [], 0, "a", 1);
    assert [] + ["a"] == ["a"] && Pop(["l", "b"]) == ["l"];
    PlainName(db.nodes, 0, ["a"], 1);
    LinkLeadsToA();
    NoChildYet(db, 1, "b");
    BelowSelf(db.nodes, 1);
    assert ["a"][0] != ["l", "b"][0] by { assert "a"[0] != "l"[0]; }
    MoveIsAccepted(db, ["a"], ["l", "b"], false, now, 1, 1, None);
    MoveKeepsInvIff(db, 0, ["a"], ["l", "b"], false, None, now);
  }

  lemma LinkLeadsToA()
    ensures Followed(WithLink().nodes, ["l"], true) == Found(1)
  {
    hide Inv, WithLink, ParseTarget, SplitSegments, Sound, Acyclic, NamesDistinct;
    WithLinkIsValid();
    UnfoldInv(WithLink(), 0);
    var nodes := WithLink().nodes;
    RootIsFetched(nodes, 0);
    ChildIsFetched(nodes, 0, "l", 2);
    ChildIsFetched(nodes, 0, "a", 1);
    TargetIsA();
    assert FollowOne(nodes, 2) == Next(0, ["a"]);
    hide FollowOne;
    assert ["l"][1..] == [] && ["a"] + [] == ["a"] && ["a"][1..] == [];
    assert Follow(nodes, 1, [], 1, 0, true) == Found(1);
    assert Follow(nodes, 0, ["a"], 1, 1, true) == Found(1);
    assert Follow(nodes, 2, [], 0, 0, true) == Found(1);
  }

  lemma TargetIsA()
    ensures ParseTarget("/a") == Ok(LinkTarget("/a")) && IsAbsolute(LinkTarget("/a")) && SplitSegments("/a") == ["a"]
  {
    var segs := ["a"];
    assert Slashed(["a"][1..]) == "" && Render(segs) == "/a";
    RenderRoundTrip(segs);
    ParseIsIdempotent(VirtualPath("/a"));
    ReadAbsolute(segs);
  }

  lemma WithBPaths()
    ensures var nodes := WithB().nodes;
            Resolved(nodes, []) == Some(0) && Resolved(nodes, ["a"]) == Some(1) &&
            Resolved(nodes, ["a", "b"]) == Some(2) &&
            FetchChild(nodes, 0, "a") == Some(1)
  {
    hide Inv, Resolved, Sound, WithB;
    WithBIsValid();
    var nodes := WithB().nodes;
    UnfoldInv(WithB(), 0);
    AtRoot(nodes, 0);
    assert [] + ["a"] == ["a"] && ["a"] + ["b"] == ["a", "b"];
    StepDown(nodes, 0, [], 0, "a", 1);
    StepDown(nodes, 0, ["a"], 1, "b", 2);
    ChildIsFetched(nodes, 0, "a", 1);
  }

  /** Moving `/a/b` over `/a` reports success, and the node is gone. */
  lemma MoveOverAncestorLosesTheNode(now: int)
    ensures var s := MoveTo(WithB(), ["a", "b"], ["a"], true, None, now);
            s.outcome == Done(2) && 2 !in s.db.nodes
  {
    hide Inv, Resolved, Sound, ResolveDestination, MoveOver, WithB, MoveTo, Named;
    var db := WithB();
    WithBIsValid();
    UnfoldInv(db, 0);
    WithBPaths();
    assert Pop(["a"]) == [] && !(["a", "b"] <= ["a"]);
    PlainName(db.nodes, 0, ["a", "b"], 2);
    DestinationOfPlainPath(db.nodes, 0, ["a"], 0);
    MoveIsAccepted(db, ["a", "b"], ["a"], true, now, 2, 0, Some(1));
    assert ["a"] <= ["a", "b"];
    PlainMoveLosesSourceIff(db, 0, ["a", "b"], ["a"], None, now, 2, 1);
  }

  /** Touching `/a/b` where there is no `/a` fails, and leaves a generation that no node will ever use. */
  lemma FailedTouchLeavesOrphan(now: int)
    ensures var s := Touch(Empty(), ["a", "b"], true, None, now);
            s.outcome == Failed(NoSuchPath) && 1 in s.db.generations && Unreferenced(s.db.nodes, 1)
  {
    NewWorkspaceIsValid(0, 0);
    var db := Empty();
    UnfoldInv(db, 0);
    AtRoot(db.nodes, 0);
    ResolvedChild(db.nodes, 0, [], 0, "a");
    NoChildYet(db, 0, "a");
    assert [] + ["a"] == ["a"] && Pop(["a", "b"]) == ["a"];
    WalkAppend(db.nodes, 0, ["a"], ["b"]);
    RootIsFetched(db.nodes, 0);
    assert ["a"] + ["b"] == ["a", "b"];
    hide Resolved, RowsOf;
    StagedIsThere(db, []);
  }

  // --- a restore to where nothing leads --------------------------------------

  /** The directories `/a`, `/a/b` and `/a/b/c`. */
  function WithC(): Db { Store.InsertNode(WithB(), DirectoryNode(2, "c", 0)) }

  function Three(a: Option<int>, c: Option<int>): Nodes {
    map[0 := RootNode(0), 1 := DirectoryNode(0, "a", 0).(trashedAt := a), 2 := DirectoryNode(1, "b", 0),
        3 := DirectoryNode(2, "c", 0).(trashedAt := c)]
  }

  lemma WithCIsValid()
    ensures Inv(WithC(), 0) && WithC().nodes == Three(None, None) && WithC().nextId == 4 && WithC().trash == map[]
  {
    hide Inv;
    WithBIsValid();
    NoChildYet(WithB(), 2, "c");
    InsertKeepsInv(WithB(), 0, DirectoryNode(2, "c", 0));
  }

  lemma TrashC()
    ensures var s := TrashPath(WithC(), ["a", "b", "c"], None, 0);
            s.outcome == InTrash(4) && Inv(s.db, 0) && s.db.nodes == Three(None, Some(0)) && s.db.nextId == 5 &&
            s.db.trash == map[4 := TrashRow(3, 2, "c", 0)]
  {
    hide Inv, Resolved, Sound, Named, WithC;
    var db := WithC();
    WithCIsValid();
    UnfoldInv(db, 0);
    AtRoot(db.nodes, 0);
    assert [] + ["a"] == ["a"] && ["a"] + ["b"] == ["a", "b"] && ["a", "b"] + ["c"] == ["a", "b", "c"];
    StepDown(db.nodes, 0, [], 0, "a", 1);
    StepDown(db.nodes, 0, ["a"], 1, "b", 2);
    StepDown(db.nodes, 0, ["a", "b"], 2, "c", 3);
    PlainName(db.nodes, 0, ["a", "b", "c"], 3);
    TrashKeepsInv(db, 0, ["a", "b", "c"], None, 0);
    assert Three(None, None)[3 := Three(None, None)[3].(trashedAt := Some(0))] == Three(None, Some(0));
  }

  lemma ThenTrashA(db: Db)
    requires Inv(db, 0) && db.nodes == Three(None, Some(0)) && db.nextId == 5 &&
             db.trash == map[4 := TrashRow(3, 2, "c", 0)]
    ensures var s := TrashPath(db, ["a"], None, 0);
            s.outcome == InTrash(5) && Inv(s.db, 0) && s.db.nodes == Three(Some(0), Some(0)) &&
            s.db.trash == map[4 := TrashRow(3, 2, "c", 0), 5 := TrashRow(1, 0, "a", 0)]
  {
    hide Inv, Resolved, Sound, Named;
    UnfoldInv(db, 0);
    AtRoot(db.nodes, 0);
    assert [] + ["a"] == ["a"];
    StepDown(db.nodes, 0, [], 0, "a", 1);
    PlainName(db.nodes, 0, ["a"], 1);
    TrashKeepsInv(db, 0, ["a"], None, 0);
    assert Three(None, Some(0))[1 := Three(None, Some(0))[1].(trashedAt := Some(0))] == Three(Some(0), Some(0));
  }

  /** Below a trashed directory nothing is reached. */
  lemma BIsNotLive(nodes: Nodes)
    requires Sound(nodes, 0) && nodes == Three(Some(0), Some(0))
    ensures !Live(nodes, 2)
  {
    forall path ensures Resolved(nodes, path) != Some(2) {
      if Resolved(nodes, path) == Some(2) {
        RootIsFetched(nodes, 0);
        LastStep(nodes, 0, path, 2);
        ResolvedIsActive(nodes, 0, Pop(path), 1);
      }
    }
  }

  /**
   `/a/b/c` is put in the trash, then `/a`; restoring `/a/b/c` to its place succeeds, for
   `/a/b` bears no mark of its own, and no path leads to the restored node.
   */
  lemma RestoreBelowTheTrashIsUnreachable(now: int)
    ensures var trashed := TrashPath(TrashPath(WithC(), ["a", "b", "c"], None, 0).db, ["a"], None, 0).db;
            var s := Restore(trashed, 4, None, None, now);
            Inv(trashed, 0) && s.outcome == Done(3) && !Live(s.db.nodes, 3)
  {
    hide Inv, Sound, TrashPath, Live, WithC;
    TrashC();
    var db := TrashPath(WithC(), ["a", "b", "c"], None, 0).db;
    ThenTrashA(db);
    var trashed := TrashPath(db, ["a"], None, 0).db;
    UnfoldInv(trashed, 0);
    BIsNotLive(trashed.nodes);
    NoActiveC(trashed.nodes);
    TrashEffects.RestoredIsReachableIff(trashed, 0, 4, None, None, now);
  }

  lemma NoActiveC(nodes: Nodes)
    requires nodes == Three(Some(0), Some(0))
    ensures FetchChild(nodes, 2, "c").None?
  {
  }
}
