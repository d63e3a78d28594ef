/**
 When each namespace request succeeds, and how it is refused, in terms of paths:
 which node a path leads to is that of Links.dfy, without the walk.
 */
module Answers {
  import opened Common
  import opened Chunks
  import opened Paths
  import opened Tree
  import opened Resolve
  import opened Links
  import opened Store
  import opened Copy
  import opened Operations
  import opened Safety
  import opened Failures

  /** Over links, `path` leads to `x`. */
  ghost predicate Leads(nodes: Nodes, path: Segments, x: Id, followFinal: bool) {
    exists n: nat :: n <= 40 && LeadsTo(nodes, path, x, n, followFinal)
  }

  /** The node an operation names, in paths. */
  lemma NamedIff(nodes: Nodes, root: Id, path: Segments)
    requires Sound(nodes, root)
    ensures forall x: Id :: Named(nodes, path) == Ok(x) <==> Leads(nodes, path, x, false)
    ensures Named(nodes, path) == Err(LinkCycle) <==> MeetsAnother(nodes, path, 40, false)
    ensures Named(nodes, path).Err? ==> Named(nodes, path).error in {NoSuchPath, LinkCycle}
  {
    hide Followed, LeadsTo, MeetsAnother;
    FollowedIff(nodes, root, path, false);
    forall x: Id ensures Named(nodes, path) == Ok(x) <==> Followed(nodes, path, false) == Found(x) { }
  }

  /** The directory that `to` goes to, in paths. */
  ghost predicate DirectoryFor(nodes: Nodes, to: Segments, p: Id) {
    to != [] && Leads(nodes, Pop(to), p, true) && p in nodes && nodes[p].kind.Directory?
  }

  /** What stands at `to` in its directory, or nothing. */
  ghost predicate Occupied(nodes: Nodes, to: Segments, p: Id, there: Option<Id>)
    requires to != []
  {
    forall y: Id :: there == Some(y) <==> IsChild(nodes, p, to[|to| - 1], y)
  }

  lemma DestinationIff(nodes: Nodes, root: Id, to: Segments)
    requires Sound(nodes, root)
    ensures forall p: Id, there: Option<Id> :: ResolveDestination(nodes, to) == Ready(p, there) <==>
              DirectoryFor(nodes, to, p) && Occupied(nodes, to, p, there)
    ensures ResolveDestination(nodes, to) == Refused(AlreadyExists) <==> to == []
    ensures ResolveDestination(nodes, to) == Refused(WrongNodeType) <==>
              NoDirectoryFor(nodes, to)
    ensures ResolveDestination(nodes, to).Refused? ==>
              ResolveDestination(nodes, to).code in {AlreadyExists, WrongNodeType, NoSuchPath}
  {
    hide Followed, LeadsTo, Sound;
    if to != [] {
      FollowedIff(nodes, root, Pop(to), true);
      assert forall p: Id :: Followed(nodes, Pop(to), true) == Found(p) <==> Leads(nodes, Pop(to), p, true);
      forall p: Id, there: Option<Id>
        ensures there == FetchChild(nodes, p, to[|to| - 1]) <==> Occupied(nodes, to, p, there)
      {
        FetchedIsThere(nodes, root, to, p, there);
      }
      hide Leads, Occupied, FetchChild;
    }
  }

  /** `to` goes to something that is no directory. */
  ghost predicate NoDirectoryFor(nodes: Nodes, to: Segments) {
    to != [] && exists p: Id :: Leads(nodes, Pop(to), p, true) && p in nodes && !nodes[p].kind.Directory?
  }

  /** `e` stands at `to`. */
  ghost predicate Taken(nodes: Nodes, to: Segments, e: Id) {
    to != [] && exists p: Id :: DirectoryFor(nodes, to, p) && IsChild(nodes, p, to[|to| - 1], e)
  }

  /** How a destination is refused, and what is found there if it is not. */
  lemma DestinationCodes(nodes: Nodes, root: Id, to: Segments)
    requires Sound(nodes, root)
    ensures var d := ResolveDestination(nodes, to);
            (d == Refused(AlreadyExists) <==> to == []) &&
            (d == Refused(WrongNodeType) <==> NoDirectoryFor(nodes, to)) &&
            (d.Refused? ==> d.code in {AlreadyExists, WrongNodeType, NoSuchPath}) &&
            forall e: Id :: Taken(nodes, to, e) <==> d.Ready? && d.existing == Some(e)
  {
    DestinationIff(nodes, root, to);
    UnfoldNames(nodes, root);
    hide Sound, ResolveDestination, DirectoryFor, Leads;
    if to != [] {
      var d := ResolveDestination(nodes, to);
      forall e: Id ensures Taken(nodes, to, e) <==> d.Ready? && d.existing == Some(e) {
        if d.Ready? { assert DirectoryFor(nodes, to, d.parent) && Occupied(nodes, to, d.parent, d.existing); }
        if Taken(nodes, to, e) {
          var p: Id :| DirectoryFor(nodes, to, p) && IsChild(nodes, p, to[|to| - 1], e);
          assert Occupied(nodes, to, p, Some(e));
        }
      }
    }
  }

  lemma FetchedIsThere(nodes: Nodes, root: Id, to: Segments, p: Id, there: Option<Id>)
    requires Sound(nodes, root) && to != []
    ensures there == FetchChild(nodes, p, to[|to| - 1]) <==> Occupied(nodes, to, p, there)
  {
    UnfoldNames(nodes, root);
    var child := FetchChild(nodes, p, to[|to| - 1]);
    forall y: Id ensures child == Some(y) <==> IsChild(nodes, p, to[|to| - 1], y) {
      ChildIsFetched(nodes, p, to[|to| - 1], y);
    }
    hide FetchChild, IsChild;
    assert child.Some? ==> IsChild(nodes, p, to[|to| - 1], child.value);
    assert there.Some? ==> (child == Some(there.value) <==> IsChild(nodes, p, to[|to| - 1], there.value));
  }

  lemma UnfoldNames(nodes: Nodes, root: Id)
    requires Sound(nodes, root)
    ensures NamesDistinct(nodes)
  {
  }

  /** `path` names `x`, which has the revision asked for, if one is. */
  ghost predicate Meets(db: Db, path: Segments, expected: Option<nat>, x: Id) {
    Leads(db.nodes, path, x, false) && x in db.nodes && (expected == None || expected == Some(db.nodes[x].revision))
  }

  /** `path` names a node of another revision. */
  ghost predicate Stale(db: Db, path: Segments, expected: Option<nat>) {
    expected != None &&
    exists x: Id :: Leads(db.nodes, path, x, false) && x in db.nodes && expected != Some(db.nodes[x].revision)
  }

  ghost predicate Cyclic(db: Db, path: Segments) { MeetsAnother(db.nodes, path, 40, false) }

  /** What looking up the named node answers. */
  lemma LookedUp(db: Db, root: Id, path: Segments, expected: Option<nat>)
    requires Inv(db, root)
    ensures var named := Named(db.nodes, path);
            (forall x: Id :: Meets(db, path, expected, x) <==> named == Ok(x) && !Conflicts(expected, db.nodes[x])) &&
            (Stale(db, path, expected) <==> named.Ok? && Conflicts(expected, db.nodes[named.value])) &&
            (Cyclic(db, path) <==> named == Err(LinkCycle)) &&
            (named.Err? ==> named.error in {NoSuchPath, LinkCycle})
  {
    UnfoldInv(db, root);
    NamedIff(db.nodes, root, path);
    hide Inv, Leads, MeetsAnother, Named, Sound;
    if Named(db.nodes, path).Ok? { assert Leads(db.nodes, path, Named(db.nodes, path).value, false); }
  }

  // --- remove and trash ------------------------------------------------------

  ghost predicate Vacant(nodes: Nodes, x: Id) { forall y :: !ActiveChild(nodes, x, y) }

  /** `remove` may take `x`: a directory with children only recursively. */
  ghost predicate Removable(nodes: Nodes, x: Id, recursive: bool)
    requires x in nodes
  {
    nodes[x].kind.Directory? ==> recursive || Vacant(nodes, x)
  }

  lemma RemoveAnswers(db: Db, root: Id, path: Segments, recursive: bool, expected: Option<nat>, now: int)
    requires Inv(db, root)
    ensures var r := Remove(db, path, recursive, expected, now).outcome;
            (r == Finished <==>
              path != [] && exists x: Id :: Meets(db, path, expected, x) && Removable(db.nodes, x, recursive)) &&
            (r == Failed(DirectoryNotEmpty) <==>
              path != [] && exists x: Id :: Meets(db, path, expected, x) && !Removable(db.nodes, x, recursive)) &&
            (r == Failed(RevisionConflict) <==> path != [] && Stale(db, path, expected)) &&
            (r == Failed(LinkCycle) <==> path != [] && Cyclic(db, path)) &&
            (r == Failed(PermissionDenied) <==> path == []) &&
            (r == Finished || (r.Failed? &&
              r.code in {DirectoryNotEmpty, RevisionConflict, LinkCycle, PermissionDenied, NoSuchPath}))
  {
    LookedUp(db, root, path, expected);
    hide Inv, Meets, Stale, Cyclic, Named, PurgeSubtree, ActiveChild;
    if Named(db.nodes, path).Ok? {
      var x := Named(db.nodes, path).value;
      assert Meets(db, path, expected, x) <==> !Conflicts(expected, db.nodes[x]);
    }
  }

  /** Without `recursive` a removal deletes nothing that a path leads to, but the node it names. */
  lemma PlainRemoveTakesOne(db: Db, root: Id, path: Segments, expected: Option<nat>, now: int, y: Id)
    requires Inv(db, root) && Remove(db, path, false, expected, now).outcome.Finished?
    requires Live(db.nodes, y) && !Leads(db.nodes, path, y, false)
    ensures y in Remove(db, path, false, expected, now).db.nodes
    ensures y in db.nodes && Remove(db, path, false, expected, now).db.nodes[y] == db.nodes[y]
  {
    UnfoldInv(db, root);
    LookedUp(db, root, path, expected);
    RemoveAnswers(db, root, path, false, expected, now);
    RemoveIs(db, path, false, expected, now);
    hide Inv, Leads, Named, Remove, Sound, Below, PurgeSubtree, ActiveChild, Live;
    var x :| Meets(db, path, expected, x) && Removable(db.nodes, x, false);
    NamedIsProper(db.nodes, root, path);
    PurgeIsExact(db, root, x);
    if Below(db.nodes, x, y) { LivesBelowChild(db.nodes, root, x, y); }
    LiveIsThere(db.nodes, root, y);
  }

  lemma LiveIsThere(nodes: Nodes, root: Id, y: Id)
    requires Sound(nodes, root) && Live(nodes, y)
    ensures y in nodes
  {
  }

  /** What can be reached below a node is below a child of it that can be reached. */
  lemma LivesBelowChild(nodes: Nodes, root: Id, x: Id, y: Id)
    requires Sound(nodes, root) && Live(nodes, x) && Live(nodes, y) && Below(nodes, x, y) && x != y
    ensures x in nodes && nodes[x].kind.Directory? && !Vacant(nodes, x)
  {
    var p :| Resolved(nodes, p) == Some(x);
    var q :| Resolved(nodes, q) == Some(y);
    PrefixIsAncestry(nodes, root, p, x, q, y);
    RootIsFetched(nodes, root);
    var rest := q[|p|..];
    assert p + rest == q;
    WalkAppend(nodes, root, p, rest);
    assert ActiveChild(nodes, x, FetchChild(nodes, x, rest[0]).value);
  }

  lemma TrashAnswers(db: Db, root: Id, path: Segments, expected: Option<nat>, now: int)
    requires Inv(db, root)
    ensures var s := TrashPath(db, path, expected, now);
            (s.outcome.InTrash? <==> path != [] && exists x: Id :: Meets(db, path, expected, x)) &&
            (s.outcome == Failed(RevisionConflict) <==> path != [] && Stale(db, path, expected)) &&
            (s.outcome == Failed(LinkCycle) <==> path != [] && Cyclic(db, path)) &&
            (s.outcome == Failed(PermissionDenied) <==> path == []) &&
            (s.outcome.InTrash? || (s.outcome.Failed? &&
              s.outcome.code in {RevisionConflict, LinkCycle, PermissionDenied, NoSuchPath}))
  {
    LookedUp(db, root, path, expected);
    UnfoldInv(db, root);
    hide Inv, Meets, Stale, Cyclic, Named, MarkTrashed;
    if Named(db.nodes, path).Ok? {
      NamedIsProper(db.nodes, root, path);
      var x := Named(db.nodes, path).value;
      assert Meets(db, path, expected, x) <==> !Conflicts(expected, db.nodes[x]);
    }
  }

  // --- restore and purge -----------------------------------------------------

  /** Where a restored node goes: to a directory that a path leads to, or back to the one it came from. */
  ghost predicate RestoresTo(nodes: Nodes, row: TrashRow, destination: Option<Segments>, p: Id, name: string) {
    match destination
    case Some(to) => DirectoryFor(nodes, to, p) && name == to[|to| - 1]
    case None => p == row.originalParent && Active(nodes, p) && nodes[p].kind.Directory? && name == row.originalName
  }

  ghost predicate Free(nodes: Nodes, p: Id, name: string) { forall y :: !IsChild(nodes, p, name, y) }

  ghost predicate FindsFreePlace(nodes: Nodes, row: TrashRow, destination: Option<Segments>) {
    exists p: Id, name: string :: RestoresTo(nodes, row, destination, p, name) && Free(nodes, p, name)
  }

  lemma RestorePlaceIff(db: Db, root: Id, row: TrashRow, destination: Option<Segments>)
    requires Inv(db, root)
    ensures forall p: Id, name: string :: RestorePlace(db.nodes, row, destination) == Ok((p, name)) <==>
              RestoresTo(db.nodes, row, destination, p, name)
    ensures RestorePlace(db.nodes, row, destination).Err? ==>
              RestorePlace(db.nodes, row, destination).error in {AlreadyExists, WrongNodeType, NoSuchPath}
  {
    UnfoldInv(db, root);
    hide Inv, Leads, ResolveDestination, Sound, DirectoryFor, Occupied;
    if destination.Some? {
      var to := destination.value;
      DestinationIff(db.nodes, root, to);
      DestinationHasOccupant(db.nodes, root, to);
      var d := ResolveDestination(db.nodes, to);
      if d.Ready? { assert DirectoryFor(db.nodes, to, d.parent); }
    }
  }

  /** One directory at most is the place of a path, and something or nothing stands there. */
  lemma DestinationHasOccupant(nodes: Nodes, root: Id, to: Segments)
    requires Sound(nodes, root)
    ensures forall p: Id :: DirectoryFor(nodes, to, p) ==>
              ResolveDestination(nodes, to) == Ready(p, FetchChild(nodes, p, to[|to| - 1]))
  {
    DestinationIff(nodes, root, to);
    forall p: Id | DirectoryFor(nodes, to, p)
      ensures ResolveDestination(nodes, to) == Ready(p, FetchChild(nodes, p, to[|to| - 1]))
    {
      FetchedIsThere(nodes, root, to, p, FetchChild(nodes, p, to[|to| - 1]));
    }
  }

  /** A restore succeeds exactly if the record and the place are there, the revision is met and the name is free. */
  lemma RestoreAnswers(db: Db, root: Id, record: Id, destination: Option<Segments>, expected: Option<nat>, now: int)
    requires Inv(db, root)
    ensures var r := Restore(db, record, destination, expected, now).outcome;
            (forall x: Id :: r == Done(x) <==>
              record in db.trash && x == db.trash[record].node && x in db.nodes && !Conflicts(expected, db.nodes[x]) &&
              FindsFreePlace(db.nodes, db.trash[record], destination)) &&
            (r == Failed(RevisionConflict) <==>
              record in db.trash && db.trash[record].node in db.nodes &&
              Conflicts(expected, db.nodes[db.trash[record].node])) &&
            (r.Done? || (r.Failed? && r.code in {AlreadyExists, RevisionConflict, WrongNodeType, NoSuchPath}))
  {
    if record in db.trash && db.trash[record].node in db.nodes {
      PlaceIsFreeIff(db, root, db.trash[record], destination);
      RestoreOutcome(db, record, destination, expected, now);
      hide Inv, RestorePlace, FindsFreePlace, FetchChild, Restore;
    } else {
      hide Inv, RestorePlace, FindsFreePlace, FetchChild;
    }
  }

  lemma PlaceIsFreeIff(db: Db, root: Id, row: TrashRow, destination: Option<Segments>)
    requires Inv(db, root)
    ensures var place := RestorePlace(db.nodes, row, destination);
            (FindsFreePlace(db.nodes, row, destination) <==>
              place.Ok? && FetchChild(db.nodes, place.value.0, place.value.1).None?) &&
            (place.Err? ==> place.error in {AlreadyExists, WrongNodeType, NoSuchPath})
  {
    RestorePlaceIff(db, root, row, destination);
    forall p: Id, name: string ensures FetchChild(db.nodes, p, name).None? <==> Free(db.nodes, p, name) { }
    hide Inv, RestorePlace, RestoresTo, FetchChild, Free;
    var place := RestorePlace(db.nodes, row, destination);
    if place.Ok? {
      assert place == Ok((place.value.0, place.value.1));
      assert RestoresTo(db.nodes, row, destination, place.value.0, place.value.1);
    }
  }

  lemma RestoreOutcome(db: Db, record: Id, destination: Option<Segments>, expected: Option<nat>, now: int)
    requires record in db.trash && db.trash[record].node in db.nodes
    ensures var x := db.trash[record].node;
            var place := RestorePlace(db.nodes, db.trash[record], destination);
            Restore(db, record, destination, expected, now).outcome ==
            if Conflicts(expected, db.nodes[x]) then Failed(RevisionConflict)
            else if place.Err? then Failed(place.error)
            else if FetchChild(db.nodes, place.value.0, place.value.1).Some? then Failed(AlreadyExists)
            else Done(x)
  {
    hide RestorePlace, FetchChild, Unmark;
  }

  /** How a restore is refused for its place. */
  lemma RestoreRefusals(db: Db, root: Id, record: Id, destination: Option<Segments>, expected: Option<nat>, now: int)
    requires Inv(db, root) && record in db.trash && db.trash[record].node in db.nodes
    requires !Conflicts(expected, db.nodes[db.trash[record].node])
    ensures var r, row := Restore(db, record, destination, expected, now).outcome, db.trash[record];
            (r == Failed(AlreadyExists) <==>
              destination == Some([]) || FindsTakenPlace(db.nodes, row, destination)) &&
            (r == Failed(WrongNodeType) <==>
              match destination
              case Some(to) => NoDirectoryFor(db.nodes, to)
              case None => Active(db.nodes, row.originalParent) && !db.nodes[row.originalParent].kind.Directory?)
  {
    var row := db.trash[record];
    PlaceIsTakenIff(db, root, row, destination);
    RestoreOutcome(db, record, destination, expected, now);
    UnfoldInv(db, root);
    if destination.Some? { DestinationCodes(db.nodes, root, destination.value); }
    RefusedPlace(db, row, destination);
    hide Inv, Restore, RestorePlace, FindsTakenPlace, FetchChild, Sound, ResolveDestination, NoDirectoryFor, Taken;
  }

  ghost predicate FindsTakenPlace(nodes: Nodes, row: TrashRow, destination: Option<Segments>) {
    exists p: Id, name: string :: RestoresTo(nodes, row, destination, p, name) && !Free(nodes, p, name)
  }

  lemma PlaceIsTakenIff(db: Db, root: Id, row: TrashRow, destination: Option<Segments>)
    requires Inv(db, root)
    ensures var place := RestorePlace(db.nodes, row, destination);
            FindsTakenPlace(db.nodes, row, destination) <==>
            place.Ok? && FetchChild(db.nodes, place.value.0, place.value.1).Some?
  {
    RestorePlaceIff(db, root, row, destination);
    forall p: Id, name: string ensures FetchChild(db.nodes, p, name).None? <==> Free(db.nodes, p, name) { }
    hide Inv, RestorePlace, RestoresTo, FetchChild, Free;
    var place := RestorePlace(db.nodes, row, destination);
    if place.Ok? { assert place == Ok((place.value.0, place.value.1)); }
  }

  lemma RefusedPlace(db: Db, row: TrashRow, destination: Option<Segments>)
    ensures var place := RestorePlace(db.nodes, row, destination);
            match destination
            case Some(to) =>
              var d := ResolveDestination(db.nodes, to);
              place.Err? <==> d.Refused? && (place.Err? ==> place.error == d.code)
            case None =>
              (place == Err(WrongNodeType) <==>
                Active(db.nodes, row.originalParent) && !db.nodes[row.originalParent].kind.Directory?) &&
              (place.Err? ==> place.error in {WrongNodeType, NoSuchPath})
  {
    hide ResolveDestination;
  }

  /** Purging a record deletes exactly the subtree of its node. */
  lemma PurgeAnswers(db: Db, root: Id, record: Id, now: int)
    requires Inv(db, root)
    ensures var s := Purge(db, record, now);
            (s.outcome == Finished <==> record in db.trash) &&
            (s.outcome == Failed(NoSuchPath) <==> record !in db.trash)
    ensures record in db.trash ==>
              var s := Purge(db, record, now);
              record !in s.db.trash &&
              (forall y: Id :: y in s.db.nodes <==> y in db.nodes && !Below(db.nodes, db.trash[record].node, y)) &&
              forall y: Id :: y in s.db.nodes ==> s.db.nodes[y] == db.nodes[y]
  {
    if record in db.trash {
      var x := db.trash[record].node;
      BelowSelf(db.nodes, x);
      hide Inv, Below;
    }
  }

  // --- symlink, copy, move ---------------------------------------------------

  lemma SymlinkAnswers(db: Db, root: Id, target: LinkTarget, link: Segments, o: CreateOptions, now: int)
    requires Inv(db, root)
    ensures var r := MakeSymlink(db, target, link, o, now).outcome;
            (r.Done? <==> exists p: Id, there: Option<Id> ::
               DirectoryFor(db.nodes, link, p) && Occupied(db.nodes, link, p, there) &&
               (there.None? || (there.value in db.nodes && db.nodes[there.value].kind.Symlink? && o.existOk &&
                                !Conflicts(o.expected, db.nodes[there.value])))) &&
            (r.Done? || r.Failed?)
  {
    UnfoldInv(db, root);
    DestinationIff(db.nodes, root, link);
    hide Inv, DirectoryFor, Occupied, ResolveDestination, Sound;
    var d := ResolveDestination(db.nodes, link);
    if d.Ready? {
      assert ResolveDestination(db.nodes, link) == Ready(d.parent, d.existing);
      if d.existing.Some? { DestinationIsProper(db.nodes, root, link); }
    }
  }

  /** How a link is refused. */
  lemma SymlinkRefusals(db: Db, root: Id, target: LinkTarget, link: Segments, o: CreateOptions, now: int)
    requires Inv(db, root)
    ensures var r := MakeSymlink(db, target, link, o, now).outcome;
            (r == Failed(WrongNodeType) <==>
              NoDirectoryFor(db.nodes, link) ||
              exists e: Id :: Taken(db.nodes, link, e) && e in db.nodes && !db.nodes[e].kind.Symlink?) &&
            (r == Failed(AlreadyExists) <==>
              link == [] || (!o.existOk &&
              exists e: Id :: Taken(db.nodes, link, e) && e in db.nodes && db.nodes[e].kind.Symlink?)) &&
            (r == Failed(RevisionConflict) <==>
              o.existOk && exists e: Id :: Taken(db.nodes, link, e) && e in db.nodes && db.nodes[e].kind.Symlink? &&
                                           Conflicts(o.expected, db.nodes[e])) &&
            (r.Done? || (r.Failed? && r.code in {WrongNodeType, AlreadyExists, RevisionConflict, NoSuchPath}))
  {
    UnfoldInv(db, root);
    DestinationCodes(db.nodes, root, link);
    hide Inv, ResolveDestination, Sound, NoDirectoryFor, Taken;
    var d := ResolveDestination(db.nodes, link);
    if d.Ready? {
      DestinationIsProper(db.nodes, root, link);
      if d.existing.Some? { assert Taken(db.nodes, link, d.existing.value); }
    }
  }

  /** The two paths of a copy or a move: what is at `from` and where `to` goes, over links. */
  ghost predicate FromTo(db: Db, from: Segments, to: Segments, expected: Option<nat>, s: Id, p: Id, there: Option<Id>) {
    Meets(db, from, expected, s) && DirectoryFor(db.nodes, to, p) && Occupied(db.nodes, to, p, there)
  }

  lemma FromToIff(db: Db, root: Id, from: Segments, to: Segments, expected: Option<nat>)
    requires Inv(db, root)
    ensures forall s: Id, p: Id, there: Option<Id> :: FromTo(db, from, to, expected, s, p, there) <==>
              Named(db.nodes, from) == Ok(s) && !Conflicts(expected, db.nodes[s]) &&
              ResolveDestination(db.nodes, to) == Ready(p, there)
  {
    UnfoldInv(db, root);
    LookedUp(db, root, from, expected);
    DestinationIff(db.nodes, root, to);
    hide Inv, Meets, DirectoryFor, Occupied, Named, ResolveDestination, Sound;
  }

  lemma MoveOutcome(db: Db, from: Segments, to: Segments, overwrite: bool, expected: Option<nat>, now: int)
    ensures var named, d := Named(db.nodes, from), ResolveDestination(db.nodes, to);
            MoveTo(db, from, to, overwrite, expected, now).outcome ==
            if from == [] then Failed(PermissionDenied)
            else if named.Err? then Failed(named.error)
            else if Conflicts(expected, db.nodes[named.value]) then Failed(RevisionConflict)
            else if from <= to then Failed(PermissionDenied)
            else if d.Refused? then Failed(d.code)
            else if d.existing.Some? && !overwrite then Failed(AlreadyExists)
            else Done(named.value)
  {
    hide Named, ResolveDestination, MoveOver;
  }

  lemma MoveAnswers(db: Db, root: Id, from: Segments, to: Segments, overwrite: bool, expected: Option<nat>, now: int)
    requires Inv(db, root)
    ensures var r := MoveTo(db, from, to, overwrite, expected, now).outcome;
            (forall s: Id :: r == Done(s) <==>
              from != [] && !(from <= to) &&
              exists p: Id, there: Option<Id> ::
                FromTo(db, from, to, expected, s, p, there) && (there.None? || overwrite)) &&
            (r == Failed(RevisionConflict) <==> from != [] && Stale(db, from, expected)) &&
            (r == Failed(LinkCycle) <==> from != [] && Cyclic(db, from)) &&
            (r == Failed(PermissionDenied) <==>
              from == [] || (from <= to && exists s: Id :: Meets(db, from, expected, s))) &&
            (r.Done? || r.Failed?)
  {
    LookedUp(db, root, from, expected);
    FromToIff(db, root, from, to, expected);
    UnfoldInv(db, root);
    DestinationIff(db.nodes, root, to);
    MoveOutcome(db, from, to, overwrite, expected, now);
    hide Inv, Meets, Stale, Cyclic, FromTo, DirectoryFor, Occupied, Named, ResolveDestination, MoveTo, Sound;
    var d := ResolveDestination(db.nodes, to);
    if Named(db.nodes, from).Ok? {
      var s := Named(db.nodes, from).value;
      assert Meets(db, from, expected, s) <==> !Conflicts(expected, db.nodes[s]);
      if d.Ready? {
        assert FromTo(db, from, to, expected, s, d.parent, d.existing) <==> !Conflicts(expected, db.nodes[s]);
      }
    }
  }

  /** How a move is refused for its destination. */
  lemma MoveRefusals(db: Db, root: Id, from: Segments, to: Segments, overwrite: bool, expected: Option<nat>, now: int)
    requires Inv(db, root) && from != [] && !(from <= to) && exists s: Id :: Meets(db, from, expected, s)
    ensures var r := MoveTo(db, from, to, overwrite, expected, now).outcome;
            (r == Failed(AlreadyExists) <==> to == [] || (!overwrite && exists e: Id :: Taken(db.nodes, to, e))) &&
            (r == Failed(WrongNodeType) <==> NoDirectoryFor(db.nodes, to)) &&
            (r.Failed? ==> r.code in {AlreadyExists, WrongNodeType, NoSuchPath})
  {
    LookedUp(db, root, from, expected);
    UnfoldInv(db, root);
    DestinationCodes(db.nodes, root, to);
    MoveOutcome(db, from, to, overwrite, expected, now);
    hide Inv, Meets, Named, ResolveDestination, MoveTo, Sound, NoDirectoryFor, Taken;
    var d := ResolveDestination(db.nodes, to);
    if d.Ready? && d.existing.Some? { assert Taken(db.nodes, to, d.existing.value); }
  }

  lemma CopyOutcome(db: Db, from: Segments, to: Segments, recursive: bool, overwrite: bool, expected: Option<nat>,
                    now: int)
    requires CopyTo(db, from, to, recursive, overwrite, expected, now).Some?
    ensures var named, d := Named(db.nodes, from), ResolveDestination(db.nodes, to);
            var cleared := if d.Ready? && d.existing.Some? then PurgeSubtree(db, d.existing.value) else db;
            CopyTo(db, from, to, recursive, overwrite, expected, now).value.outcome ==
            if named.Err? then Failed(named.error)
            else if Conflicts(expected, db.nodes[named.value]) then Failed(RevisionConflict)
            else if db.nodes[named.value].kind.Directory? && !recursive then Failed(WrongNodeType)
            else if d.Refused? then Failed(d.code)
            else if d.existing.Some? && !overwrite then Failed(AlreadyExists)
            else if !Active(cleared.nodes, named.value) then Failed(StorageFailure)
            else Done(db.nextId)
  {
    hide Named, ResolveDestination, CopySubtree, PurgeSubtree;
    ClearedKeepsIds(db);
  }

  lemma ClearedKeepsIds(db: Db)
    ensures forall x :: PurgeSubtree(db, x).nextId == db.nextId
  {
  }

  /**
   A copy that returns succeeds exactly if a node of the expected revision stands at
   `from`, a directory asked for recursively, `to` goes to a directory, and what stands
   at `to` may be overwritten and does not hold the source.
   */
  lemma CopyAnswers(db: Db, root: Id, from: Segments, to: Segments, recursive: bool, overwrite: bool,
                    expected: Option<nat>, now: int)
    requires Inv(db, root) && CopyTo(db, from, to, recursive, overwrite, expected, now).Some?
    ensures var r := CopyTo(db, from, to, recursive, overwrite, expected, now).value.outcome;
            (r.Done? <==> exists s: Id, p: Id, there: Option<Id> ::
               FromTo(db, from, to, expected, s, p, there) && Copyable(db, s, there, recursive, overwrite)) &&
            (r == Failed(RevisionConflict) <==> Stale(db, from, expected)) &&
            (r == Failed(LinkCycle) <==> Cyclic(db, from)) &&
            (r == Done(db.nextId) || r.Failed?)
  {
    LookedUp(db, root, from, expected);
    FromToIff(db, root, from, to, expected);
    UnfoldInv(db, root);
    DestinationIff(db.nodes, root, to);
    CopyOutcome(db, from, to, recursive, overwrite, expected, now);
    hide Inv, Meets, Stale, Cyclic, FromTo, DirectoryFor, Occupied, Named, ResolveDestination, CopyTo, Sound;
    hide PurgeSubtree, Below;
    var d := ResolveDestination(db.nodes, to);
    if Named(db.nodes, from).Ok? {
      var s := Named(db.nodes, from).value;
      NamedIsProper(db.nodes, root, from);
      assert Meets(db, from, expected, s) <==> !Conflicts(expected, db.nodes[s]);
      if d.Ready? {
        assert FromTo(db, from, to, expected, s, d.parent, d.existing) <==> !Conflicts(expected, db.nodes[s]);
        if d.existing.Some? { StaysActive(db, d.existing.value, s); }
      }
    }
  }

  /** How a copy is refused for its kind or its destination. */
  lemma CopyRefusals(db: Db, root: Id, from: Segments, to: Segments, recursive: bool, overwrite: bool,
                     expected: Option<nat>, now: int, s: Id)
    requires Inv(db, root) && CopyTo(db, from, to, recursive, overwrite, expected, now).Some?
    requires Meets(db, from, expected, s)
    ensures var r := CopyTo(db, from, to, recursive, overwrite, expected, now).value.outcome;
            var flat := db.nodes[s].kind.Directory? && !recursive;
            (r == Failed(WrongNodeType) <==> flat || NoDirectoryFor(db.nodes, to)) &&
            (r == Failed(AlreadyExists) <==>
              !flat && (to == [] || (!overwrite && exists e: Id :: Taken(db.nodes, to, e)))) &&
            (r == Failed(StorageFailure) <==>
              !flat && overwrite && exists e: Id :: Taken(db.nodes, to, e) && Below(db.nodes, e, s)) &&
            (r.Failed? ==> r.code in {WrongNodeType, AlreadyExists, StorageFailure, NoSuchPath})
  {
    LookedUp(db, root, from, expected);
    UnfoldInv(db, root);
    NamedIsProper(db.nodes, root, from);
    DestinationCodes(db.nodes, root, to);
    CopyOutcome(db, from, to, recursive, overwrite, expected, now);
    hide Inv, Meets, Named, ResolveDestination, CopyTo, Sound, NoDirectoryFor, Taken, PurgeSubtree, Below;
    var d := ResolveDestination(db.nodes, to);
    if d.Ready? && d.existing.Some? {
      assert Taken(db.nodes, to, d.existing.value);
      StaysActive(db, d.existing.value, s);
    }
  }

  ghost predicate Copyable(db: Db, s: Id, there: Option<Id>, recursive: bool, overwrite: bool) {
    s in db.nodes && (db.nodes[s].kind.Directory? ==> recursive) &&
    (there.Some? ==> overwrite && !Below(db.nodes, there.value, s))
  }

  lemma StaysActive(db: Db, e: Id, s: Id)
    requires Active(db.nodes, s)
    ensures Active(PurgeSubtree(db, e).nodes, s) <==> !Below(db.nodes, e, s)
  {
    hide Below;
  }

  // --- mkdir -----------------------------------------------------------------

  /** Whatever stands on the way along `path`, from its first `from` names on, is a directory. */
  ghost predicate Passable(nodes: Nodes, path: Segments, from: nat) {
    forall k :: from <= k < |path| && Resolved(nodes, path[..k]).Some? ==>
      nodes[Resolved(nodes, path[..k]).value].kind.Directory?
  }

  /** What speaks against `mkdir` at the end of its path. */
  ghost function EndRefusal(db: Db, path: Segments, o: CreateOptions): Option<ErrorCode>
    requires path != []
  {
    var x := Resolved(db.nodes, path);
    if x.Some? then
      if !db.nodes[x.value].kind.Directory? then Some(WrongNodeType)
      else if !o.existOk then Some(AlreadyExists)
      else if Conflicts(o.expected, db.nodes[x.value]) then Some(RevisionConflict)
      else None
    else if o.parents || Resolved(db.nodes, Pop(path)).Some? then None
    else Some(NoSuchPath)
  }

  /** An answer that refuses with this code, or that does not refuse. */
  predicate Refuses(r: Outcome, code: Option<ErrorCode>) { if code.Some? then r == Failed(code.value) else r.Done? }

  lemma UnresolvedBeyond(nodes: Nodes, root: Id, p: Segments, q: Segments)
    requires Sound(nodes, root) && Resolved(nodes, p).None? && p <= q
    ensures Resolved(nodes, q).None?
  {
    RootIsFetched(nodes, root);
    assert p + q[|p|..] == q;
    WalkAppend(nodes, root, p, q[|p|..]);
  }

  /** One step along the path. */
  lemma PassableStep(nodes: Nodes, root: Id, path: Segments, n: nat)
    requires Sound(nodes, root) && n < |path|
    ensures var x := Resolved(nodes, path[..n]);
            Passable(nodes, path, n) <==> x.None? || (nodes[x.value].kind.Directory? && Passable(nodes, path, n + 1))
  {
    if Resolved(nodes, path[..n]).None? {
      forall k | n <= k < |path| ensures Resolved(nodes, path[..k]).None? {
        UnresolvedBeyond(nodes, root, path[..n], path[..k]);
      }
    }
  }

  /** The loop at name `n` of the path. */
  ghost function MkdirAt(db: Db, current: Id, path: Segments, n: nat, o: CreateOptions, now: int): Step
    requires current in db.nodes && n < |path|
  {
    MkdirFrom(db, current, path[..n], path[n..], o, now)
  }

  lemma {:induction false} MkdirFromSucceedsIff(db: Db, root: Id, current: Id, path: Segments, n: nat,
                                                o: CreateOptions, now: int)
    requires Inv(db, root) && n < |path| && Resolved(db.nodes, path[..n]) == Some(current)
    ensures var r := MkdirAt(db, current, path, n, o, now).outcome;
            Refuses(r, if Passable(db.nodes, path, n) then EndRefusal(db, path, o) else Some(WrongNodeType))
    decreases |path| - n
  {
    UnfoldInv(db, root);
    hide Inv, Resolved, Sound, FetchChild, CreateDirectory, Passable, MkdirAt, EndRefusal;
    hide IsChild, Conflicts, Acyclic, NamesDistinct, Rooted, IdsFresh, Active;
    PassableStep(db.nodes, root, path, n);
    StepDown(db.nodes, root, current, path, n);
    var child := FetchChild(db.nodes, current, path[n]);
    if !db.nodes[current].kind.Directory? {
      NotInDirectory(db, current, path, n, o, now);
    } else if n + 1 == |path| {
      LeafSucceedsIff(db, root, current, path, n, o, now);
    } else if child.Some? {
      KnownAncestor(db, current, path, n, o, now);
      MkdirFromSucceedsIff(db, root, child.value, path, n + 1, o, now);
    } else {
      MissingDecides(db, root, current, path, n, o, now);
    }
  }

  lemma LeafSucceedsIff(db: Db, root: Id, current: Id, path: Segments, n: nat, o: CreateOptions, now: int)
    requires Inv(db, root) && n + 1 == |path| && Resolved(db.nodes, path[..n]) == Some(current)
    requires db.nodes[current].kind.Directory?
    ensures var r := MkdirAt(db, current, path, n, o, now).outcome;
            Refuses(r, EndRefusal(db, path, o))
    ensures Passable(db.nodes, path, n + 1)
  {
    UnfoldInv(db, root);
    hide Inv, Resolved, Sound, FetchChild, MkdirAt;
    assert path[..n + 1] == path && Pop(path) == path[..n];
    StepDown(db.nodes, root, current, path, n);
    LeafOutcome(db, current, path, n, o, now);
  }

  /** At a missing ancestor it is decided. */
  lemma MissingDecides(db: Db, root: Id, current: Id, path: Segments, n: nat, o: CreateOptions, now: int)
    requires Inv(db, root) && n + 1 < |path| && Resolved(db.nodes, path[..n]) == Some(current)
    requires db.nodes[current].kind.Directory? && FetchChild(db.nodes, current, path[n]).None?
    ensures var r := MkdirAt(db, current, path, n, o, now).outcome;
            Passable(db.nodes, path, n + 1) && Refuses(r, EndRefusal(db, path, o))
  {
    UnfoldInv(db, root);
    MissingAncestor(db, root, current, path, n, o, now);
    hide Inv, Resolved, Sound, FetchChild, Passable, MkdirAt, Pop;
    NothingBeyond(db.nodes, root, current, path, n);
  }

  lemma NothingBeyond(nodes: Nodes, root: Id, current: Id, path: Segments, n: nat)
    requires Sound(nodes, root) && n + 1 < |path| && Resolved(nodes, path[..n]) == Some(current)
    requires FetchChild(nodes, current, path[n]).None?
    ensures Passable(nodes, path, n + 1) && Resolved(nodes, path).None? && Resolved(nodes, Pop(path)).None?
  {
    hide Resolved, Sound, FetchChild, Passable;
    StepDown(nodes, root, current, path, n);
    PassableStep(nodes, root, path, n + 1);
    UnresolvedBeyond(nodes, root, path[..n + 1], path);
    UnresolvedBeyond(nodes, root, path[..n + 1], Pop(path));
  }

  lemma StepDown(nodes: Nodes, root: Id, current: Id, path: Segments, n: nat)
    requires Sound(nodes, root) && n < |path| && Resolved(nodes, path[..n]) == Some(current)
    ensures Resolved(nodes, path[..n + 1]) ==
            if nodes[current].kind.Directory? then FetchChild(nodes, current, path[n]) else None
  {
    hide Resolved, Sound, FetchChild;
    assert path[..n] + [path[n]] == path[..n + 1];
    ResolvedChild(nodes, root, path[..n], current, path[n]);
  }

  // The branches of `mkdir_tx`, one by one.

  lemma NotInDirectory(db: Db, current: Id, path: Segments, n: nat, o: CreateOptions, now: int)
    requires current in db.nodes && n < |path| && !db.nodes[current].kind.Directory?
    ensures MkdirAt(db, current, path, n, o, now).outcome == Failed(WrongNodeType)
  {
  }

  lemma KnownAncestor(db: Db, current: Id, path: Segments, n: nat, o: CreateOptions, now: int)
    requires current in db.nodes && n + 1 < |path| && db.nodes[current].kind.Directory?
    requires FetchChild(db.nodes, current, path[n]).Some?
    ensures MkdirAt(db, current, path, n, o, now) ==
            MkdirAt(db, FetchChild(db.nodes, current, path[n]).value, path, n + 1, o, now)
  {
    hide FetchChild;
    assert path[n..][1..] == path[n + 1..] && path[..n] + [path[n]] == path[..n + 1];
  }

  lemma MissingAncestor(db: Db, root: Id, current: Id, path: Segments, n: nat, o: CreateOptions, now: int)
    requires Inv(db, root) && current in db.nodes && n + 1 < |path| && db.nodes[current].kind.Directory?
    requires FetchChild(db.nodes, current, path[n]).None?
    ensures var r := MkdirAt(db, current, path, n, o, now).outcome;
            if o.parents then r.Done? else r == Failed(NoSuchPath)
  {
    hide Inv, FetchChild, CreateDirectory;
    assert path[n..][1..] == path[n + 1..] && path[..n] + [path[n]] == path[..n + 1];
    if o.parents {
      CreatedIsEmpty(db, root, current, path[n], path[..n + 1], now);
      CreateDirectoryKeepsInv(db, root, current, path[n], path[..n + 1], now);
      MkdirBelowCreatedSucceeds(CreateDirectory(db, current, path[n], path[..n + 1], now), root, db.nextId,
                                path[..n + 1], path[n + 1..], o, now);
    }
  }

  lemma LeafOutcome(db: Db, current: Id, path: Segments, n: nat, o: CreateOptions, now: int)
    requires current in db.nodes && n + 1 == |path| && db.nodes[current].kind.Directory?
    ensures var child := FetchChild(db.nodes, current, path[n]);
            MkdirAt(db, current, path, n, o, now).outcome ==
            if child.None? then Done(db.nextId)
            else if !db.nodes[child.value].kind.Directory? then Failed(WrongNodeType)
            else if !o.existOk then Failed(AlreadyExists)
            else if Conflicts(o.expected, db.nodes[child.value]) then Failed(RevisionConflict)
            else Done(child.value)
  {
    hide FetchChild;
    assert path[n..] == [path[n]];
  }

  /** `mkdir` is refused first for what stands on the way, then for what its path ends at; else it succeeds. */
  lemma MkdirAnswers(db: Db, root: Id, path: Segments, o: CreateOptions, now: int)
    requires Inv(db, root)
    ensures var r := Mkdir(db, path, o, now).outcome;
            Refuses(r, if path == [] then Some(AlreadyExists)
                       else if !Passable(db.nodes, path, 0) then Some(WrongNodeType)
                       else EndRefusal(db, path, o))
  {
    UnfoldInv(db, root);
    RootIsFetched(db.nodes, root);
    assert Resolved(db.nodes, path[..0]) == Some(root) && path[..0] == [] && path[0..] == path;
    hide Inv, MkdirFrom, Resolved, Sound;
    if path != [] { MkdirFromSucceedsIff(db, root, root, path, 0, o, now); }
  }

  // --- attributes and touch --------------------------------------------------

  /** The value is too long for an attribute of `x`, or one more attribute too many. */
  ghost predicate TooMuch(db: Db, path: Segments, key: string, value: Bytes, expected: Option<nat>, x: Id) {
    Meets(db, path, None, x) &&
    (|value| > 4096 ||
     (Meets(db, path, expected, x) && key !in AttributesOf(db.attributes, x) &&
      |AttributesOf(db.attributes, x)| >= 64))
  }

  lemma SetAttributeAnswers(db: Db, root: Id, path: Segments, key: string, value: Bytes, expected: Option<nat>,
                            now: int)
    requires Inv(db, root)
    ensures var r := SetAttribute(db, path, key, value, expected, now).outcome;
            (forall x: Id :: r == Done(x) <==>
               Meets(db, path, expected, x) && 1 <= Utf8Len(key) <= 256 && |value| <= 4096 &&
               (key in AttributesOf(db.attributes, x) || |AttributesOf(db.attributes, x)| < 64)) &&
            (r == Failed(InvalidName) <==>
               !(1 <= Utf8Len(key) <= 256) && exists x: Id :: Meets(db, path, None, x)) &&
            (r == Failed(OverQuota) <==>
               1 <= Utf8Len(key) <= 256 && exists x: Id :: TooMuch(db, path, key, value, expected, x)) &&
            (r.Done? || (r.Failed? && r.code in {InvalidName, OverQuota, RevisionConflict, LinkCycle, NoSuchPath}))
  {
    LookedUp(db, root, path, expected);
    LookedUp(db, root, path, None);
    hide Inv, Meets, Stale, Cyclic, Named, Utf8Len;
    if Named(db.nodes, path).Ok? {
      var x := Named(db.nodes, path).value;
      assert Meets(db, path, None, x);
      assert TooMuch(db, path, key, value, expected, x) || !TooMuch(db, path, key, value, expected, x);
    }
  }

  lemma RemoveAttributeAnswers(db: Db, root: Id, path: Segments, key: string, expected: Option<nat>, now: int)
    requires Inv(db, root)
    ensures var r := RemoveAttribute(db, path, key, expected, now).outcome;
            (forall x: Id :: r == Done(x) <==> Meets(db, path, expected, x)) &&
            (r == Failed(RevisionConflict) <==> Stale(db, path, expected)) &&
            (r == Failed(LinkCycle) <==> Cyclic(db, path)) &&
            (r.Done? || (r.Failed? && r.code in {RevisionConflict, LinkCycle, NoSuchPath}))
  {
    LookedUp(db, root, path, expected);
    hide Inv, Meets, Stale, Cyclic, Named;
  }

  /** `touch` follows no links. */
  lemma TouchAnswers(db: Db, root: Id, path: Segments, create: bool, expected: Option<nat>, now: int)
    requires Inv(db, root)
    ensures var s := Touch(db, path, create, expected, now);
            (s.outcome.Done? <==>
              match Resolved(db.nodes, path)
              case Some(x) => db.nodes[x].kind.File? && !Conflicts(expected, db.nodes[x])
              case None =>
                path != [] && create && Resolved(db.nodes, Pop(path)).Some? &&
                db.nodes[Resolved(db.nodes, Pop(path)).value].kind.Directory?) &&
            (s.outcome.Done? || s.outcome.Failed?)
  {
    hide Inv, Resolved, FinalizeNew, FinalizeExisting, RowsOf;
  }
}
