/**
 What staging leaves behind: a generation that is not complete belongs to a writer at
 work, however writers, readers and requests interleave, unless a writer vanishes.
 */
module Leftovers {
  import opened Common
  import opened Chunks
  import opened Paths
  import opened Tree
  import opened Resolve
  import opened Store
  import opened Copy
  import opened Operations
  import opened Safety
  import opened Runs
  import opened Plans
  import opened Writers
  import opened Interleavings

  /** No generation is begun. */
  ghost predicate BeginsNone(a: Db, b: Db) {
    forall g :: g in b.generations && !b.generations[g].complete ==> g in a.generations && !a.generations[g].complete
  }

  lemma BeginsNoneTwice(a: Db, b: Db, c: Db)
    requires BeginsNone(a, b) && BeginsNone(b, c)
    ensures BeginsNone(a, c)
  {
  }

  lemma {:induction false} MkdirFromBeginsNone(db: Db, current: Id, at: Segments, segments: Segments, o: CreateOptions,
                                               now: int)
    requires current in db.nodes && segments != []
    ensures MkdirFrom(db, current, at, segments, o, now).db.generations == db.generations
    decreases |segments|
  {
    hide FetchChild;
    var name := segments[0];
    if db.nodes[current].kind.Directory? && |segments| > 1 {
      var child := FetchChild(db.nodes, current, name);
      if child.Some? {
        MkdirFromBeginsNone(db, child.value, at + [name], segments[1..], o, now);
      } else if o.parents {
        MkdirFromBeginsNone(CreateDirectory(db, current, name, at + [name], now), db.nextId, at + [name],
                            segments[1..], o, now);
      }
    }
  }

  lemma {:induction false} CopyLoopBeginsNone(db: Db, stack: seq<Pending>, now: int, fuel: nat)
    requires SourcesExist(db, stack) && CopyLoop(db, stack, now, fuel).Some?
    ensures BeginsNone(db, CopyLoop(db, stack, now, fuel).value)
    decreases fuel
  {
    hide NextStack;
    if stack != [] {
      NextStackExists(db, stack, now);
      var next := CopyOne(db, stack[|stack| - 1], now);
      CopyLoopBeginsNone(next, NextStack(db, stack, now), now, fuel - 1);
      BeginsNoneTwice(db, next, CopyLoop(db, stack, now, fuel).value);
    }
  }

  lemma CopyOverBeginsNone(db: Db, s: Id, p: Id, existing: Option<Id>, from: Segments, to: Segments, now: int)
    requires to != [] && CopyOver(db, s, p, existing, from, to, now).Some?
    ensures BeginsNone(db, CopyOver(db, s, p, existing, from, to, now).value.db)
  {
    var cleared := Cleared(db, existing);
    assert BeginsNone(db, cleared);
    hide PurgeSubtree, CopyLoop;
    if Active(cleared.nodes, s) {
      var e := Pending(s, p, to[|to| - 1]);
      var fuel :| CopyLoop(cleared, [e], now, fuel).Some? &&
          CopySubtree(cleared, s, p, to[|to| - 1], now) == CopyLoop(cleared, [e], now, fuel);
      CopyLoopBeginsNone(cleared, [e], now, fuel);
    }
  }

  lemma CopyBeginsNone(db: Db, from: Segments, to: Segments, recursive: bool, overwrite: bool, expected: Option<nat>,
                       now: int)
    requires CopyTo(db, from, to, recursive, overwrite, expected, now).Some?
    ensures BeginsNone(db, CopyTo(db, from, to, recursive, overwrite, expected, now).value.db)
  {
    hide Named, Followed, CopyOver;
    if Named(db.nodes, from).Ok? && ResolveDestination(db.nodes, to).Ready? {
      var s, d := Named(db.nodes, from).value, ResolveDestination(db.nodes, to);
      if CopyOver(db, s, d.parent, d.existing, from, to, now).Some? {
        CopyOverBeginsNone(db, s, d.parent, d.existing, from, to, now);
      }
    }
  }

  lemma MoveBeginsNone(db: Db, from: Segments, to: Segments, overwrite: bool, expected: Option<nat>, now: int)
    ensures BeginsNone(db, MoveTo(db, from, to, overwrite, expected, now).db)
  {
    hide Named, ResolveDestination, MoveTo, MoveOver, Subtree;
    if MoveTo(db, from, to, overwrite, expected, now).outcome.Done? {
      AcceptedMove(db, from, to, overwrite, expected, now);
      var s, d := Named(db.nodes, from).value, ResolveDestination(db.nodes, to);
      MoveOverIs(db, s, d.parent, d.existing, from, to, now);
    } else {
      RefusedMove(db, from, to, overwrite, expected, now);
    }
  }

  lemma FinalizeBeginsNone(db: Db, path: Segments, g: Id, length: nat, create: bool, expected: Option<nat>, now: int)
    requires g in db.generations
    ensures var s := Finalize(db, path, g, length, create, expected, now);
            BeginsNone(db, s.db) && (s.outcome.Failed? ==> s.db == db) &&
            (!s.outcome.Failed? ==> g in s.db.generations ==> s.db.generations[g].complete)
  {
    hide Resolved;
  }

  lemma TouchBeginsNone(db: Db, path: Segments, create: bool, expected: Option<nat>, now: int)
    ensures BeginsNone(db, Touch(db, path, create, expected, now).db)
  {
    hide Resolved, Finalize, RowsOf;
    if Resolved(db.nodes, path).None? && create {
      var staged := CompleteGeneration(StageGeneration(db, RowsOf([])), db.nextId, 0);
      assert BeginsNone(db, staged);
      FinalizeBeginsNone(staged, path, db.nextId, 0, true, None, now);
      BeginsNoneTwice(db, staged, Finalize(staged, path, db.nextId, 0, true, None, now).db);
    }
  }

  lemma RemoveBeginsNone(db: Db, path: Segments, recursive: bool, record: Id, expected: Option<nat>, now: int)
    ensures BeginsNone(db, Remove(db, path, recursive, expected, now).db) && BeginsNone(db, Purge(db, record, now).db)
  {
    RemoveIs(db, path, recursive, expected, now);
    hide Named, Remove, Subtree;
  }

  lemma MarksBeginNone(db: Db, path: Segments, record: Id, destination: Option<Segments>, expected: Option<nat>,
                       now: int)
    ensures BeginsNone(db, TrashPath(db, path, expected, now).db)
    ensures BeginsNone(db, Restore(db, record, destination, expected, now).db)
  {
    hide Named, RestorePlace, FetchChild;
  }

  lemma AttributesBeginNone(db: Db, path: Segments, key: string, value: Bytes, expected: Option<nat>, now: int)
    ensures SetAttribute(db, path, key, value, expected, now).db.generations == db.generations
    ensures RemoveAttribute(db, path, key, expected, now).db.generations == db.generations
  {
    hide Named;
  }

  lemma MadeBeginsNone(db: Db, path: Segments, target: LinkTarget, o: CreateOptions, now: int)
    ensures BeginsNone(db, Mkdir(db, path, o, now).db) && BeginsNone(db, MakeSymlink(db, target, path, o, now).db)
  {
    hide MkdirFrom, ResolveDestination;
    var top := FetchRoot(db.nodes);
    if path != [] && top.Some? { MkdirFromBeginsNone(db, top.value, [], path, o, now); }
  }

  lemma SameBeginsNone(a: Db, b: Db)
    requires b.generations == a.generations
    ensures BeginsNone(a, b)
  {
  }

  /** A request that is one transaction leaves no generation begun. */
  lemma RequestBeginsNone(db: Db, op: Operation, now: int)
    requires OneTransaction(op) && Apply(db, op, now).Some?
    ensures BeginsNone(db, Apply(db, op, now).value.db)
  {
    hide Mkdir, MakeSymlink, CopyTo, MoveTo, Remove, TrashPath, Restore, Purge, SetAttribute, RemoveAttribute, Touch;
    hide BeginsNone;
    match op
    case OpMkdir(path, o) => MadeBeginsNone(db, path, LinkTarget(""), o, now);
    case OpTouch(path, create, expected) => TouchBeginsNone(db, path, create, expected, now);
    case OpCopy(from, to, recursive, overwrite, expected) =>
      CopyBeginsNone(db, from, to, recursive, overwrite, expected, now);
    case OpMove(from, to, overwrite, expected) => MoveBeginsNone(db, from, to, overwrite, expected, now);
    case OpRemove(path, recursive, expected) => RemoveBeginsNone(db, path, recursive, 0, expected, now);
    case OpSymlink(target, link, o) => MadeBeginsNone(db, link, target, o, now);
    case OpTrash(path, expected) => MarksBeginNone(db, path, 0, None, expected, now);
    case OpRestore(record, destination, expected) =>
      MarksBeginNone(db, [], record, destination, expected, now);
    case OpPurge(record) => RemoveBeginsNone(db, [], false, record, None, now);
    case OpSetAttribute(path, key, value, expected) =>
      AttributesBeginNone(db, path, key, value, expected, now);
      SameBeginsNone(db, Apply(db, op, now).value.db);
    case OpRemoveAttribute(path, key, expected) =>
      AttributesBeginNone(db, path, key, [], expected, now);
      SameBeginsNone(db, Apply(db, op, now).value.db);
  }

  // --- histories -------------------------------------------------------------

  /** Every generation that is not complete is that of a writer at work. */
  ghost predicate Owned(s: System) {
    forall g :: g in s.db.generations && !s.db.generations[g].complete ==>
      exists w :: w in s.writers && s.writers[w].generation == Some(g)
  }

  /** The writers go on with the generations they have. */
  ghost predicate WritersGoOn(a: System, b: System) {
    forall w :: w in a.writers && a.writers[w].generation.Some? ==>
      w in b.writers && b.writers[w].generation == a.writers[w].generation
  }

  lemma GoingOnIsOwned(a: System, b: System)
    requires Owned(a) && BeginsNone(a.db, b.db) && WritersGoOn(a, b)
    ensures Owned(b)
  {
  }

  /** Only a writer that vanishes leaves its generation behind. */
  lemma OwnedStep(s: System, e: Event)
    requires Owned(s) && After(s, e).Some? && !e.Vanish?
    ensures Owned(After(s, e).value)
  {
    hide Apply, Resolved, Flushed, Rest, CopyChunkRange, Piece, Flatten, Finalize, Closed;
    var s' := After(s, e).value;
    match e
    case Requested(op, now) =>
      RequestBeginsNone(s.db, op, now);
      GoingOnIsOwned(s, s');
    case OpenGeneration(w) => OpeningIsOwned(s, w);
    case FinalizeNow(w, now) => FinalizingIsOwned(s, w, now);
    case Abort(w) => AbortingIsOwned(s, w);
    case _ => GoingOnIsOwned(s, s');
  }

  lemma OpeningIsOwned(s: System, w: nat)
    requires Owned(s) && w in s.writers && s.writers[w].generation.None?
    ensures Owned(GenerationOpened(s, w))
  {
    var s' := GenerationOpened(s, w);
    forall g | g in s'.db.generations && !s'.db.generations[g].complete
      ensures exists v :: v in s'.writers && s'.writers[v].generation == Some(g)
    {
      if g == s.db.nextId {
        assert s'.writers[w].generation == Some(g);
      } else {
        var v :| v in s.writers && s.writers[v].generation == Some(g);
        assert v in s'.writers && s'.writers[v].generation == Some(g);
      }
    }
  }

  /** A writer may go once its generation is complete or deleted. */
  lemma OneMayGo(a: System, b: System, w: nat)
    requires Owned(a) && BeginsNone(a.db, b.db) && w in a.writers && b.writers == a.writers - {w}
    requires var g := a.writers[w].generation;
             g.Some? && g.value in b.db.generations ==> b.db.generations[g.value].complete
    ensures Owned(b)
  {
    forall g | g in b.db.generations && !b.db.generations[g].complete
      ensures exists v :: v in b.writers && b.writers[v].generation == Some(g)
    {
      var v :| v in a.writers && a.writers[v].generation == Some(g);
      assert v in b.writers && b.writers[v].generation == Some(g);
    }
  }

  lemma FinalizingIsOwned(s: System, w: nat, now: int)
    requires Owned(s) && Opened(s, w)
    ensures Owned(Finalized(s, w, now))
  {
    var writer := s.writers[w];
    hide Finalize, Owned;
    FinalizeBeginsNone(s.db, writer.path, writer.generation.value, Length(writer), writer.create, writer.expected, now);
    if FinalizeStep(s, w, now).outcome.Failed? {
      GoingOnIsOwned(s, Finalized(s, w, now));
    } else {
      OneMayGo(s, Finalized(s, w, now), w);
    }
  }

  lemma AbortingIsOwned(s: System, w: nat)
    requires Owned(s) && w in s.writers
    ensures Owned(Aborted(s, w))
  {
    hide Owned;
    OneMayGo(s, Aborted(s, w), w);
  }

  /**
   In every interleaving that begins with nothing half done, every generation that is
   not complete belongs to a writer at work, unless a writer has vanished.
   */
  lemma {:induction false} NothingIsLeftBehind(states: seq<System>, events: seq<Event>, i: nat)
    requires Starts(states, events) && i < |states| && Owned(states[0])
    requires forall j :: 0 <= j < i ==> !events[j].Vanish?
    ensures Owned(states[i])
    decreases i
  {
    hide After, Owned;
    if i > 0 {
      NothingIsLeftBehind(states, events, i - 1);
      HistoryStep(states, events, i - 1);
      OwnedStep(states[i - 1], events[i - 1]);
    }
  }
}
