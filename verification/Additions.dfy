/**
 What the requests that put something into the tree add to it: seen from afterwards,
 the tables before are the tables after with exactly one subtree hidden, for every path,
 over links or not.
 */
module Additions {
  import opened Common
  import opened Paths
  import opened Tree
  import opened Resolve
  import opened Links
  import opened Store
  import opened Copy
  import opened Operations
  import opened Safety
  import opened Runs
  import opened TrashEffects
  import opened Effects
  import opened Answers

  // --- restore ---------------------------------------------------------------

  /** `x`, inactive before, stands in `p` under `name`, and no other row differs. */
  ghost predicate HungBack(a: Nodes, b: Nodes, x: Id, p: Id, name: string) {
    x in a && !Active(a, x) && !Below(a, x, p) && x in b && b == a[x := b[x]] &&
    b[x].kind == a[x].kind && b[x].generation == a[x].generation && IsChild(b, p, name, x)
  }

  lemma UnmarkedRow(db: Db, record: Id, p: Id, name: string, now: int)
    requires record in db.trash && db.trash[record].node in db.nodes
    requires !Active(db.nodes, db.trash[record].node) && !Below(db.nodes, db.trash[record].node, p)
    ensures HungBack(db.nodes, Unmark(db, record, p, name, now).nodes, db.trash[record].node, p, name)
  {
    hide Below;
  }

  lemma RestoreTables(db: Db, record: Id, destination: Option<Segments>, expected: Option<nat>, now: int)
    requires Restore(db, record, destination, expected, now).outcome.Done?
    ensures record in db.trash && db.trash[record].node in db.nodes
    ensures RestorePlace(db.nodes, db.trash[record], destination).Ok?
    ensures var x, (p, name) := db.trash[record].node, RestorePlace(db.nodes, db.trash[record], destination).value;
            Restore(db, record, destination, expected, now) ==
            Step(AppendChange(Unmark(db, record, p, name, now), Restored, Some(x), None, None,
                              Some(db.nodes[x].revision + 1), now),
                 Done(x))
  {
    hide RestorePlace, FetchChild, Unmark;
  }

  lemma HangsBack(db: Db, root: Id, record: Id, destination: Option<Segments>, expected: Option<nat>, now: int, p: Id,
                  name: string)
    requires Inv(db, root) && Restore(db, record, destination, expected, now).outcome.Done?
    requires record in db.trash && RestoresTo(db.nodes, db.trash[record], destination, p, name)
    ensures var s, x := Restore(db, record, destination, expected, now), db.trash[record].node;
            s.outcome == Done(x) && x != root && HungBack(db.nodes, s.db.nodes, x, p, name) &&
            s.db.trash == db.trash - {record} && s.db.generations == db.generations
    ensures db.trash[record].node in db.nodes
  {
    RestorePlaceIff(db, root, db.trash[record], destination);
    TrashedIsInactive(db, root, record);
    RestorePlaceIsOutside(db, root, record, destination);
    RestoreTables(db, record, destination, expected, now);
    UnmarkedRow(db, record, p, name, now);
    hide Inv, RestorePlace, RestoresTo, Restore, HungBack;
  }

  /** What a name leads to below the restored node is as it was in the trash. */
  lemma RestoredChild(a: Nodes, b: Nodes, x: Id, p: Id, name: string, c: Id, step: string)
    requires NamesDistinct(a) && NamesDistinct(b) && HungBack(a, b, x, p, name) && Below(a, x, c)
    ensures FetchChild(b, c, step) == FetchChild(a, c, step)
  {
    forall y ensures IsChild(b, c, step, y) <==> IsChild(a, c, step, y) { }
    SameFetch(b, a, c, step);
  }

  lemma {:induction false} RestoredWalk(a: Nodes, b: Nodes, x: Id, p: Id, name: string, c: Id, path: Segments)
    requires NamesDistinct(a) && NamesDistinct(b) && HungBack(a, b, x, p, name) && Below(a, x, c) && c in a
    ensures c in b && Walk(b, c, path) == Walk(a, c, path)
    decreases |path|
  {
    hide Below, NamesDistinct;
    if path != [] {
      RestoredChild(a, b, x, p, name, c, path[0]);
      var child := FetchChild(a, c, path[0]);
      if child.Some? {
        BelowChild(a, x, c, child.value);
        RestoredWalk(a, b, x, p, name, child.value, path[1..]);
      }
    }
  }

  lemma HungBackGrows(a: Nodes, b: Nodes, x: Id, p: Id, name: string)
    requires HungBack(a, b, x, p, name)
    ensures GrowsAt(a, b, x)
  {
    hide Below;
  }

  lemma RestoredInto(a: Nodes, b: Nodes, root: Id, x: Id, p: Id, name: string, base: Segments, rest: Segments)
    requires Sound(a, root) && Sound(b, root) && HungBack(a, b, x, p, name) && x != root && Resolved(a, base) == Some(p)
    ensures Resolved(b, base + [name]) == Some(x)
    ensures Resolved(b, base + [name] + rest) == Walk(a, x, rest)
  {
    HungBackGrows(a, b, x, p, name);
    GrowthAddsExactly(a, b, root, x, base, false);
    UnfoldSound(a, root);
    UnfoldSound(b, root);
    BelowSelf(a, x);
    RootIsFetched(b, root);
    assert b[p].kind.Directory?;
    hide Sound, Below, Acyclic, Rooted, HidesExactly;
    ResolvedChild(b, root, base, p, name);
    ChildIsFetched(b, p, name, x);
    WalkAppend(b, root, base + [name], rest);
    RestoredWalk(a, b, x, p, name, x, rest);
  }

  /**
   A successful restore puts the node, under the name asked for, into the directory asked
   for: what was below it in the trash is read below that path, every other path resolves
   as before, no bytes change, and of the trash records just this one is gone.
   */
  lemma RestorePutsTheTree(db: Db, root: Id, record: Id, destination: Option<Segments>, expected: Option<nat>, now: int,
                           p: Id, name: string, base: Segments, rest: Segments, other: Segments, followFinal: bool)
    requires Inv(db, root) && Restore(db, record, destination, expected, now).outcome.Done?
    requires record in db.trash && RestoresTo(db.nodes, db.trash[record], destination, p, name)
    requires Resolved(db.nodes, base) == Some(p)
    ensures db.trash[record].node in db.nodes && root in Restore(db, record, destination, expected, now).db.nodes
    ensures var s, x := Restore(db, record, destination, expected, now), db.trash[record].node;
            s.outcome == Done(x) && Resolved(s.db.nodes, base + [name]) == Some(x) &&
            Resolved(s.db.nodes, base + [name] + rest) == Walk(db.nodes, x, rest) &&
            HidesExactly(s.db.nodes, db.nodes, root, x, other, followFinal) &&
            (Resolved(db.nodes, other).Some? ==> Resolved(s.db.nodes, other) == Resolved(db.nodes, other))
    ensures var s := Restore(db, record, destination, expected, now);
            s.db.trash == db.trash - {record} && forall y :: FileContent(s.db, y) == FileContent(db, y)
  {
    HangsBack(db, root, record, destination, expected, now, p, name);
    var db', x := Restore(db, record, destination, expected, now).db, db.trash[record].node;
    RestoreKeepsInv(db, root, record, destination, expected, now);
    UnfoldInv(db, root);
    UnfoldInv(db', root);
    HungBackGrows(db.nodes, db'.nodes, x, p, name);
    SameContents(db, db', x, p, name);
    hide Inv, Restore, Sound, HidesExactly, RestoresTo, Resolved, HungBack, GrowsAt, FileContent, Walk;
    GrowthAddsExactly(db.nodes, db'.nodes, root, x, other, followFinal);
    RestoredInto(db.nodes, db'.nodes, root, x, p, name, base, rest);
  }

  lemma SameContents(db: Db, db': Db, x: Id, p: Id, name: string)
    requires HungBack(db.nodes, db'.nodes, x, p, name) && db'.generations == db.generations
    ensures forall y :: FileContent(db', y) == FileContent(db, y)
  {
    hide ContentOf, Below;
  }

  /** A path that meets no link leads where it plainly resolves to. */
  lemma PlainLeads(nodes: Nodes, root: Id, path: Segments, x: Id, followFinal: bool)
    requires Sound(nodes, root) && Resolved(nodes, path) == Some(x) && (followFinal ==> !nodes[x].kind.Symlink?)
    ensures forall y: Id :: Leads(nodes, path, y, followFinal) <==> y == x
  {
    hide Followed, Sound, Resolved, LeadsTo;
    WalksAgreeWhenResolved(nodes, root, path, x, followFinal);
    FollowedIff(nodes, root, path, followFinal);
    forall y: Id ensures Leads(nodes, path, y, followFinal) <==> y == x {
      assert Followed(nodes, path, followFinal) == Found(y) <==> Leads(nodes, path, y, followFinal);
    }
  }

  /** Restoring to a plain path succeeds exactly if the record is there, its revision is met and the path is free. */
  lemma RestoreToPathIff(db: Db, root: Id, record: Id, to: Segments, expected: Option<nat>, now: int, p: Id)
    requires Inv(db, root) && to != [] && Resolved(db.nodes, Pop(to)) == Some(p) && db.nodes[p].kind.Directory?
    ensures Restore(db, record, Some(to), expected, now).outcome.Done? <==>
            record in db.trash && db.trash[record].node in db.nodes &&
            !Conflicts(expected, db.nodes[db.trash[record].node]) && Resolved(db.nodes, to).None?
  {
    UnfoldInv(db, root);
    RestoreAnswers(db, root, record, Some(to), expected, now);
    hide Inv, Restore, Sound, Resolved, FindsFreePlace, Acyclic, NamesDistinct, Rooted, IdsFresh;
    if record in db.trash { PlainPlaceIsFree(db.nodes, root, db.trash[record], to, p); }
  }

  lemma PlainPlaceIsFree(nodes: Nodes, root: Id, row: TrashRow, to: Segments, p: Id)
    requires Sound(nodes, root) && to != [] && Resolved(nodes, Pop(to)) == Some(p) && nodes[p].kind.Directory?
    ensures RestoresTo(nodes, row, Some(to), p, to[|to| - 1])
    ensures FindsFreePlace(nodes, row, Some(to)) <==> Resolved(nodes, to).None?
  {
    var name := to[|to| - 1];
    assert Pop(to) + [name] == to;
    PlainLeads(nodes, root, Pop(to), p, true);
    PlainPlace(nodes, row, to, p);
    ResolvedChild(nodes, root, Pop(to), p, name);
    assert FetchChild(nodes, p, name).None? <==> Free(nodes, p, name);
  }

  /** Then the path leads to the node, and what was below it in the trash is read below the path. */
  lemma RestoreToPath(db: Db, root: Id, record: Id, to: Segments, expected: Option<nat>, now: int, p: Id,
                      rest: Segments, other: Segments)
    requires Inv(db, root) && to != [] && Resolved(db.nodes, Pop(to)) == Some(p) && db.nodes[p].kind.Directory?
    requires Restore(db, record, Some(to), expected, now).outcome.Done?
    ensures record in db.trash && db.trash[record].node in db.nodes
    ensures var s, x := Restore(db, record, Some(to), expected, now), db.trash[record].node;
            s.outcome == Done(x) && Resolved(s.db.nodes, to) == Some(x) &&
            Resolved(s.db.nodes, to + rest) == Walk(db.nodes, x, rest) &&
            (Resolved(db.nodes, other).Some? ==> Resolved(s.db.nodes, other) == Resolved(db.nodes, other))
  {
    UnfoldInv(db, root);
    RestoreToPathIff(db, root, record, to, expected, now, p);
    PlainPlaceIsFree(db.nodes, root, db.trash[record], to, p);
    hide Inv, Restore, HidesExactly, RestoresTo, Resolved, FileContent, Walk, Conflicts, FindsFreePlace, Sound;
    hide Acyclic, NamesDistinct, Rooted, IdsFresh, Pop;
    var name, base := to[|to| - 1], Pop(to);
    PopAndLast(to);
    RestorePutsTheTree(db, root, record, Some(to), expected, now, p, name, base, rest, other, false);
  }

  lemma PopAndLast(to: Segments)
    requires to != []
    ensures Pop(to) + [to[|to| - 1]] == to
  {
  }

  lemma PlainPlace(nodes: Nodes, row: TrashRow, to: Segments, p: Id)
    requires to != [] && p in nodes && nodes[p].kind.Directory?
    requires forall y: Id :: Leads(nodes, Pop(to), y, true) <==> y == p
    ensures RestoresTo(nodes, row, Some(to), p, to[|to| - 1])
    ensures FindsFreePlace(nodes, row, Some(to)) <==> Free(nodes, p, to[|to| - 1])
  {
    hide Leads, Free;
  }

  // --- mkdir, symlink and copy -----------------------------------------------

  /** One new active node in a directory. */
  lemma InsertGrows(a: Nodes, b: Nodes, x: Id)
    requires x !in a && x in b && b == a[x := b[x]]
    ensures GrowsAt(a, b, x)
  {
    BelowSelf(b, x);
  }

  /** A new link adds itself and nothing else. */
  lemma SymlinkAddsExactly(db: Db, root: Id, target: LinkTarget, link: Segments, o: CreateOptions, now: int,
                           path: Segments, followFinal: bool)
    requires Inv(db, root) && MakeSymlink(db, target, link, o, now).outcome.Done?
    ensures var s := MakeSymlink(db, target, link, o, now);
            s.db == db ||
            (root in s.db.nodes && s.outcome == Done(db.nextId) &&
             HidesExactly(s.db.nodes, db.nodes, root, db.nextId, path, followFinal))
  {
    var s := MakeSymlink(db, target, link, o, now);
    SymlinkKeepsInv(db, root, target, link, o, now);
    UnfoldInv(db, root);
    UnfoldInv(s.db, root);
    SymlinkRows(db, target, link, o, now);
    hide Inv, MakeSymlink, Sound, HidesExactly, GrowsAt;
    if s.db != db {
      InsertGrows(db.nodes, s.db.nodes, db.nextId);
      GrowthAddsExactly(db.nodes, s.db.nodes, root, db.nextId, path, followFinal);
    }
  }

  lemma SymlinkRows(db: Db, target: LinkTarget, link: Segments, o: CreateOptions, now: int)
    requires IdsFresh(db) && MakeSymlink(db, target, link, o, now).outcome.Done?
    ensures var s := MakeSymlink(db, target, link, o, now);
            s.db == db ||
            (s.outcome == Done(db.nextId) && db.nextId in s.db.nodes && db.nextId !in db.nodes &&
             s.db.nodes == db.nodes[db.nextId := s.db.nodes[db.nextId]])
  {
    hide ResolveDestination;
  }

  /** A copy between plain paths, to a free place outside its source, adds exactly the copy. */
  lemma PlainCopyAddsExactly(db: Db, root: Id, from: Segments, to: Segments, s: Id, p: Id, now: int, path: Segments,
                             followFinal: bool)
    requires PlainCopy(db, root, from, to, s, p) && !(from <= Pop(to)) && Active(db.nodes, s)
    ensures CopyOver(db, s, p, None, from, to, now).Some?
    ensures var r := CopyOver(db, s, p, None, from, to, now).value;
            r.outcome.Done? && Resolved(r.db.nodes, to) == Some(r.outcome.node) && root in r.db.nodes &&
            HidesExactly(r.db.nodes, db.nodes, root, r.outcome.node, path, followFinal)
  {
    hide Inv, ActiveBelow, Below, CopyRequest, CopyOver, SameFile, Resolved, HidesExactly, GrowsAt, Sound;
    UnfoldInv(db, root);
    var final, copies := PlainCopyCopiesTheTree(db, root, from, to, s, p, now, []);
    UnfoldInv(final, root);
    assert from + [] == from && to + [] == to;
    NewIsNotRoot(db.nodes, final.nodes, root, copies[s]);
    GrowthAddsExactly(db.nodes, final.nodes, root, copies[s], path, followFinal);
  }

  lemma NewIsNotRoot(a: Nodes, b: Nodes, root: Id, x: Id)
    requires Sound(a, root) && GrowsAt(a, b, x)
    ensures x != root
  {
    hide Below;
  }

  /** An overwriting copy is a purge of what stands at the destination, and then a copy to a free place. */
  lemma OverwritingCopyIs(db: Db, source: Id, parent: Id, e: Id, from: Segments, to: Segments, now: int)
    requires to != [] && Active(PurgeSubtree(db, e).nodes, source)
    ensures CopyOver(db, source, parent, Some(e), from, to, now) ==
            CopyOver(PurgeSubtree(db, e), source, parent, None, from, to, now)
  {
    hide CopySubtree, PurgeSubtree;
  }

  // --- mkdir -----------------------------------------------------------------

  /** The nodes of `b` that are not in `a` hang below `x` and stand on the path, beyond its first `n` names. */
  ghost predicate NewOnPath(a: Nodes, b: Nodes, x: Id, path: Segments, n: nat) {
    (forall y :: y in a ==> y in b && b[y] == a[y]) &&
    forall y :: y in b && y !in a ==>
      Below(b, x, y) && exists k :: n < k <= |path| && Resolved(b, path[..k]) == Some(y)
  }

  lemma NothingNew(a: Nodes, x: Id, path: Segments, n: nat)
    ensures NewOnPath(a, a, x, path, n)
  {
  }

  /** One directory more, at name `n` of the path. */
  lemma OneNew(a: Nodes, b: Nodes, x: Id, id: Id, path: Segments, n: nat)
    requires n < |path| && x in a && id !in a && id in b && b == a[id := b[id]] && b[id].parent == Some(x)
    requires Resolved(b, path[..n + 1]) == Some(id)
    ensures NewOnPath(a, b, x, path, n)
  {
    BelowSelf(b, x);
    BelowChild(b, x, x, id);
    hide Below, Resolved;
  }

  /** What hangs below a child hangs below its parent. */
  lemma NewBelowChild(a: Nodes, b: Nodes, x: Id, child: Id, path: Segments, n: nat)
    requires NewOnPath(a, b, child, path, n + 1) && x in a && child in a && a[child].parent == Some(x)
    ensures NewOnPath(a, b, x, path, n)
  {
    BelowSelf(b, x);
    BelowChild(b, x, x, child);
    hide Below, Resolved;
    forall y | y in b && y !in a
      ensures Below(b, x, y) && exists k :: n < k <= |path| && Resolved(b, path[..k]) == Some(y)
    {
      BelowTrans(b, x, child, y);
      var k :| n + 1 < k <= |path| && Resolved(b, path[..k]) == Some(y);
    }
  }

  /** One directory more, and then what hangs below it. */
  lemma NewAfterOne(a: Nodes, b: Nodes, c: Nodes, x: Id, id: Id, path: Segments, n: nat)
    requires NewOnPath(b, c, id, path, n + 1) && x in a
    requires id in b && id !in a && b == a[id := b[id]] && b[id].parent == Some(x)
    requires n < |path| && Resolved(c, path[..n + 1]) == Some(id)
    ensures NewOnPath(a, c, x, path, n) && GrowsAt(a, c, id)
  {
    BelowSelf(c, x);
    BelowSelf(c, id);
    BelowChild(c, x, x, id);
    hide Below, Resolved;
    forall y | y in c && y !in a
      ensures Below(c, id, y) && Below(c, x, y) && exists k :: n < k <= |path| && Resolved(c, path[..k]) == Some(y)
    {
      if y != id {
        BelowTrans(c, x, id, y);
        var k :| n + 1 < k <= |path| && Resolved(c, path[..k]) == Some(y);
      }
    }
  }

  lemma {:induction false} MkdirGrows(db: Db, root: Id, current: Id, path: Segments, n: nat, o: CreateOptions, now: int)
    requires Inv(db, root) && n < |path| && Resolved(db.nodes, path[..n]) == Some(current)
    requires MkdirAt(db, current, path, n, o, now).outcome.Done?
    ensures var s := MkdirAt(db, current, path, n, o, now);
            NewOnPath(db.nodes, s.db.nodes, current, path, n) &&
            (s.db == db || GrowsAt(db.nodes, s.db.nodes, db.nextId))
    decreases |path| - n, 1
  {
    UnfoldInv(db, root);
    hide Inv, Resolved, Sound, FetchChild, CreateDirectory, MkdirAt, NewOnPath, GrowsAt, Acyclic, NamesDistinct, Rooted;
    StepDown(db.nodes, root, current, path, n);
    NothingNew(db.nodes, current, path, n);
    var child := FetchChild(db.nodes, current, path[n]);
    if !db.nodes[current].kind.Directory? {
      NotInDirectory(db, current, path, n, o, now);
    } else if child.Some? {
      if n + 1 < |path| {
        KnownAncestor(db, current, path, n, o, now);
        MkdirGrows(db, root, child.value, path, n + 1, o, now);
        NewBelowChild(db.nodes, MkdirAt(db, current, path, n, o, now).db.nodes, current, child.value, path, n);
      } else {
        KnownLeaf(db, current, path, n, o, now);
      }
    } else {
      MissingGrows(db, root, current, path, n, o, now);
    }
  }

  lemma KnownLeaf(db: Db, current: Id, path: Segments, n: nat, o: CreateOptions, now: int)
    requires current in db.nodes && n + 1 == |path| && FetchChild(db.nodes, current, path[n]).Some?
    ensures MkdirAt(db, current, path, n, o, now).db == db
  {
    assert path[n..] == [path[n]];
  }

  lemma MissingGrows(db: Db, root: Id, current: Id, path: Segments, n: nat, o: CreateOptions, now: int)
    requires Inv(db, root) && n < |path| && Resolved(db.nodes, path[..n]) == Some(current)
    requires MkdirAt(db, current, path, n, o, now).outcome.Done?
    requires db.nodes[current].kind.Directory? && FetchChild(db.nodes, current, path[n]).None?
    ensures var s := MkdirAt(db, current, path, n, o, now);
            NewOnPath(db.nodes, s.db.nodes, current, path, n) && GrowsAt(db.nodes, s.db.nodes, db.nextId)
    decreases |path| - n, 0
  {
    hide Inv, Resolved, FetchChild, CreateDirectory, MkdirAt, NewOnPath, GrowsAt;
    if n + 1 == |path| {
      MissingLeafGrows(db, root, current, path, n, o, now);
    } else {
      MissingStep(db, current, path, n, o, now);
      CreatedRow(db, root, current, path, n, now);
      GrowsFurther(db, CreateDirectory(db, current, path[n], path[..n + 1], now), root, current, path, n, o, now);
    }
  }

  lemma MissingLeafGrows(db: Db, root: Id, current: Id, path: Segments, n: nat, o: CreateOptions, now: int)
    requires Inv(db, root) && n + 1 == |path| && Resolved(db.nodes, path[..n]) == Some(current)
    requires db.nodes[current].kind.Directory? && FetchChild(db.nodes, current, path[n]).None?
    ensures var s := MkdirAt(db, current, path, n, o, now);
            NewOnPath(db.nodes, s.db.nodes, current, path, n) && GrowsAt(db.nodes, s.db.nodes, db.nextId)
  {
    hide Inv, Resolved, FetchChild, CreateDirectory, MkdirAt, NewOnPath, GrowsAt;
    MissingLeaf(db, current, path, n, o, now);
    CreatedRow(db, root, current, path, n, now);
    var made := CreateDirectory(db, current, path[n], path[..n + 1], now);
    OneNew(db.nodes, made.nodes, current, db.nextId, path, n);
    InsertGrows(db.nodes, made.nodes, db.nextId);
  }

  lemma GrowsFurther(db: Db, made: Db, root: Id, current: Id, path: Segments, n: nat, o: CreateOptions, now: int)
    requires Inv(made, root) && n + 1 < |path| && current in db.nodes
    requires db.nextId !in db.nodes && db.nextId in made.nodes
    requires made.nodes == db.nodes[db.nextId := made.nodes[db.nextId]]
    requires made.nodes[db.nextId].parent == Some(current) && Resolved(made.nodes, path[..n + 1]) == Some(db.nextId)
    requires MkdirAt(made, db.nextId, path, n + 1, o, now).outcome.Done?
    ensures var s := MkdirAt(made, db.nextId, path, n + 1, o, now);
            NewOnPath(db.nodes, s.db.nodes, current, path, n) && GrowsAt(db.nodes, s.db.nodes, db.nextId)
    decreases |path| - n - 1, 2
  {
    hide Inv, Resolved, MkdirAt, NewOnPath, GrowsAt;
    var s := MkdirAt(made, db.nextId, path, n + 1, o, now);
    MkdirGrows(made, root, db.nextId, path, n + 1, o, now);
    StillThere(made, root, db.nextId, path, n + 1, o, now);
    NewAfterOne(db.nodes, made.nodes, s.db.nodes, current, db.nextId, path, n);
  }

  lemma CreatedRow(db: Db, root: Id, current: Id, path: Segments, n: nat, now: int)
    requires Inv(db, root) && n < |path| && Resolved(db.nodes, path[..n]) == Some(current)
    requires db.nodes[current].kind.Directory? && FetchChild(db.nodes, current, path[n]).None?
    ensures var id, made := db.nextId, CreateDirectory(db, current, path[n], path[..n + 1], now);
            Inv(made, root) && id !in db.nodes && id in made.nodes && made.nodes == db.nodes[id := made.nodes[id]] &&
            made.nodes[id].parent == Some(current) && Resolved(made.nodes, path[..n + 1]) == Some(id)
  {
    UnfoldInv(db, root);
    assert path[..n] + [path[n]] == path[..n + 1];
    hide Inv, Resolved, OnlyAdds, Sound;
    CreateDirectoryAdds(db, root, current, path[..n], path[n], now);
  }

  lemma MissingLeaf(db: Db, current: Id, path: Segments, n: nat, o: CreateOptions, now: int)
    requires current in db.nodes && db.nodes[current].kind.Directory? && n + 1 == |path|
    requires FetchChild(db.nodes, current, path[n]).None?
    ensures MkdirAt(db, current, path, n, o, now).db == CreateDirectory(db, current, path[n], path[..n + 1], now)
  {
    hide FetchChild, CreateDirectory;
    assert path[n..] == [path[n]] && path[..n] + [path[n]] == path[..n + 1];
  }

  lemma MissingStep(db: Db, current: Id, path: Segments, n: nat, o: CreateOptions, now: int)
    requires current in db.nodes && db.nodes[current].kind.Directory? && n + 1 < |path|
    requires FetchChild(db.nodes, current, path[n]).None? && MkdirAt(db, current, path, n, o, now).outcome.Done?
    ensures var made := CreateDirectory(db, current, path[n], path[..n + 1], now);
            db.nextId in made.nodes &&
            MkdirAt(db, current, path, n, o, now) == MkdirAt(made, db.nextId, path, n + 1, o, now)
  {
    hide FetchChild;
    assert path[n..][1..] == path[n + 1..] && path[..n] + [path[n]] == path[..n + 1];
  }

  lemma StillThere(db: Db, root: Id, current: Id, path: Segments, n: nat, o: CreateOptions, now: int)
    requires Inv(db, root) && n < |path| && Resolved(db.nodes, path[..n]) == Some(current)
    requires MkdirAt(db, current, path, n, o, now).outcome.Done?
    ensures Resolved(MkdirAt(db, current, path, n, o, now).db.nodes, path[..n]) == Some(current)
  {
    hide Inv, Resolved, MkdirFrom;
    MkdirFromMakesPath(db, root, current, path[..n], path[n..], o, now);
  }

  /**
   A successful `mkdir` creates nothing but the directories missing on its path, and every
   path that does not go to the first of them or through it resolves as before.
   */
  lemma MkdirAddsExactly(db: Db, root: Id, path: Segments, o: CreateOptions, now: int, other: Segments,
                         followFinal: bool)
    requires Inv(db, root) && Mkdir(db, path, o, now).outcome.Done?
    ensures var s := Mkdir(db, path, o, now);
            (forall y :: y in db.nodes ==> y in s.db.nodes && s.db.nodes[y] == db.nodes[y]) &&
            (forall y :: y in s.db.nodes && y !in db.nodes ==>
              exists k :: 0 < k <= |path| && Resolved(s.db.nodes, path[..k]) == Some(y)) &&
            (s.db == db ||
             (root in s.db.nodes && HidesExactly(s.db.nodes, db.nodes, root, db.nextId, other, followFinal)))
  {
    UnfoldInv(db, root);
    MkdirKeepsInv(db, root, path, o, now);
    RootIsFetched(db.nodes, root);
    var s := Mkdir(db, path, o, now);
    UnfoldInv(s.db, root);
    assert path[..0] == [] && path[0..] == path;
    assert s == MkdirAt(db, root, path, 0, o, now) && Resolved(db.nodes, path[..0]) == Some(root);
    hide Inv, Mkdir, MkdirAt, Sound, Resolved, HidesExactly, GrowsAt;
    MkdirGrows(db, root, root, path, 0, o, now);
    if s.db != db {
      NewIsNotRoot(db.nodes, s.db.nodes, root, db.nextId);
      GrowthAddsExactly(db.nodes, s.db.nodes, root, db.nextId, other, followFinal);
    }
  }

  // --- move ------------------------------------------------------------------

  lemma ForwardOutside(db: Db, root: Id, from: Segments, to: Segments, s: Id, p: Id, existing: Option<Id>, now: int,
                       path: Segments, y: Id)
    requires PlainMove(db, root, from, to, s, p, existing) && Resolved(db.nodes, path) == Some(y)
    requires !(from <= path) && !(to <= path)
    ensures s in db.nodes && Resolved(MoveOver(db, s, p, existing, from, to, now).nodes, path) == Some(y)
  {
    UnfoldInv(db, root);
    hide Inv, Sound, Resolved, Below, MoveOver, Acyclic, NamesDistinct, Rooted, IdsFresh;
    PrefixIsAncestry(db.nodes, root, from, s, path, y);
    if existing.Some? {
      PopAndLast(to);
      ResolvedChild(db.nodes, root, Pop(to), p, to[|to| - 1]);
      PrefixIsAncestry(db.nodes, root, to, existing.value, path, y);
    }
    OutsideIsSame(db, root, from, to, s, p, existing, now, path, y);
  }

  lemma BackwardOutside(db: Db, root: Id, from: Segments, to: Segments, s: Id, p: Id, existing: Option<Id>, now: int,
                        path: Segments, y: Id)
    requires PlainMove(db, root, from, to, s, p, existing) && s in db.nodes && !(to <= path)
    requires Resolved(MoveOver(db, s, p, existing, from, to, now).nodes, path) == Some(y)
    ensures Resolved(db.nodes, path) == Some(y)
  {
    hide Inv, Sound, Resolved, Below, MoveOver, MovedNode;
    PlainMoveIsValid(db, root, from, to, s, p, existing, now);
    MovedToGoal(db, root, from, to, s, p, existing, now);
    OthersUnmoved(db, root, from, to, s, p, existing, now);
    hide PlainMove;
    var db' := MoveOver(db, s, p, existing, from, to, now);
    SameOutside(db'.nodes, db.nodes, root, to, s, path, y);
  }

  lemma MovedToGoal(db: Db, root: Id, from: Segments, to: Segments, s: Id, p: Id, existing: Option<Id>, now: int)
    requires PlainMove(db, root, from, to, s, p, existing) && s in db.nodes
    ensures Resolved(MoveOver(db, s, p, existing, from, to, now).nodes, to) == Some(s)
  {
    assert to + [] == to && from + [] == from;
    hide Inv, Sound, MoveOver, Pop;
    MoveRelocates(db, root, from, to, s, p, existing, now, []);
    hide Resolved;
  }

  lemma OthersUnmoved(db: Db, root: Id, from: Segments, to: Segments, s: Id, p: Id, existing: Option<Id>, now: int)
    requires PlainMove(db, root, from, to, s, p, existing) && s in db.nodes
    ensures var nodes' := MoveOver(db, s, p, existing, from, to, now).nodes;
            forall z :: z in nodes' && z != s ==> z in db.nodes && db.nodes[z] == nodes'[z]
  {
    hide Inv, Sound, Resolved, Below, MoveOver, MovedNode;
    MovedRows(db, root, from, to, s, p, existing, now);
    hide PlainMove;
  }

  lemma SameOutside(a: Nodes, b: Nodes, root: Id, to: Segments, s: Id, path: Segments, y: Id)
    requires Sound(a, root) && Sound(b, root) && Resolved(a, to) == Some(s) && Resolved(a, path) == Some(y)
    requires !(to <= path) && forall z :: z in a && z != s ==> z in b && b[z] == a[z]
    ensures Resolved(b, path) == Some(y)
  {
    hide Sound, Resolved, Below;
    PrefixIsAncestry(a, root, to, s, path, y);
    forall z | Below(a, z, y) ensures z in a && z in b && b[z] == a[z] { BelowKnows(a, z, y); }
    SameWayUpResolves(a, b, root, path, y);
  }

  /** A successful move between plain paths leaves every path alone that goes neither to its source nor to its goal. */
  lemma PlainMoveKeepsOthers(db: Db, root: Id, from: Segments, to: Segments, overwrite: bool, expected: Option<nat>,
                             now: int, s: Id, p: Id, existing: Option<Id>, path: Segments)
    requires PlainMove(db, root, from, to, s, p, existing) && (existing.None? || overwrite)
    requires s in db.nodes && !Conflicts(expected, db.nodes[s])
    requires !(from <= path) && !(to <= path)
    ensures Resolved(MoveTo(db, from, to, overwrite, expected, now).db.nodes, path) == Resolved(db.nodes, path)
  {
    hide Inv, Resolved, Sound, MoveOver, PlainMove;
    PlainMoveIs(db, root, from, to, overwrite, expected, now, s, p, existing);
    var after := Resolved(MoveOver(db, s, p, existing, from, to, now).nodes, path);
    if Resolved(db.nodes, path).Some? {
      ForwardOutside(db, root, from, to, s, p, existing, now, path, Resolved(db.nodes, path).value);
    } else if after.Some? {
      BackwardOutside(db, root, from, to, s, p, existing, now, path, after.value);
    }
  }
}
