/**
 Failed requests and batches.  A failed outcome is committed by its wrapper all the
 same, so it must not have touched the tables: exactly one request breaks this.
 */
module Failures {
  import opened Common
  import opened Chunks
  import opened Paths
  import opened Tree
  import opened Resolve
  import opened Store
  import opened Copy
  import opened Operations
  import opened Safety
  import opened Runs

  // --- single requests -------------------------------------------------------

  /** A directory without any child, as `create_directory` leaves it. */
  ghost predicate Empty(db: Db, d: Id) {
    d in db.nodes && db.nodes[d].kind.Directory? && forall x :: x in db.nodes ==> db.nodes[x].parent != Some(d)
  }

  lemma CreatedIsEmpty(db: Db, root: Id, parent: Id, name: string, path: Segments, now: int)
    requires Inv(db, root) && parent in db.nodes
    ensures Empty(CreateDirectory(db, parent, name, path, now), db.nextId)
  {
    hide FilesOk, TrashOk, AttributesOk, FeedOk;
  }

  lemma EmptyHasNoChild(db: Db, d: Id, name: string)
    requires Empty(db, d)
    ensures FetchChild(db.nodes, d, name).None?
  {
  }

  /** Below a directory it has just created `mkdir` cannot fail any more. */
  lemma {:induction false} MkdirBelowCreatedSucceeds(db: Db, root: Id, d: Id, at: Segments, segments: Segments,
                                                     o: CreateOptions, now: int)
    requires Inv(db, root) && Empty(db, d) && segments != [] && o.parents
    ensures MkdirFrom(db, d, at, segments, o, now).outcome.Done?
    decreases |segments|
  {
    hide Inv;
    EmptyHasNoChild(db, d, segments[0]);
    if |segments| > 1 {
      var path := at + [segments[0]];
      CreatedIsEmpty(db, root, d, segments[0], path, now);
      CreateDirectoryKeepsInv(db, root, d, segments[0], path, now);
      MkdirBelowCreatedSucceeds(CreateDirectory(db, d, segments[0], path, now), root, db.nextId, path, segments[1..], o,
                                now);
    }
  }

  lemma {:induction false} FailedMkdirFrom(db: Db, root: Id, current: Id, at: Segments, segments: Segments,
                                           o: CreateOptions, now: int)
    requires Inv(db, root) && current in db.nodes && segments != []
    requires MkdirFrom(db, current, at, segments, o, now).outcome.Failed?
    ensures MkdirFrom(db, current, at, segments, o, now).db == db
    decreases |segments|
  {
    hide Inv;
    if db.nodes[current].kind.Directory? && |segments| > 1 {
      var child := FetchChild(db.nodes, current, segments[0]);
      var path := at + [segments[0]];
      if child.Some? {
        FailedMkdirFrom(db, root, child.value, path, segments[1..], o, now);
      } else if o.parents {
        CreatedIsEmpty(db, root, current, segments[0], path, now);
        CreateDirectoryKeepsInv(db, root, current, segments[0], path, now);
        MkdirBelowCreatedSucceeds(CreateDirectory(db, current, segments[0], path, now), root, db.nextId, path,
                                  segments[1..], o, now);
      }
    }
  }

  /** A failing `mkdir` changes nothing, missing ancestors included. */
  lemma FailedMkdir(db: Db, root: Id, path: Segments, o: CreateOptions, now: int)
    requires Inv(db, root) && Mkdir(db, path, o, now).outcome.Failed?
    ensures Mkdir(db, path, o, now).db == db
  {
    hide Inv, MkdirFrom;
    if path != [] && FetchRoot(db.nodes).Some? {
      FailedMkdirFrom(db, root, FetchRoot(db.nodes).value, [], path, o, now);
    }
  }

  lemma FailedFinalize(db: Db, path: Segments, g: Id, length: nat, create: bool, expected: Option<nat>, now: int)
    requires g in db.generations && Finalize(db, path, g, length, create, expected, now).outcome.Failed?
    ensures Finalize(db, path, g, length, create, expected, now).db == db
  {
    hide Resolved;
  }

  /** The empty generation that a failing `touch` leaves behind. */
  lemma FailedTouch(db: Db, path: Segments, create: bool, expected: Option<nat>, now: int)
    requires db.nextId !in db.generations && Touch(db, path, create, expected, now).outcome.Failed?
    ensures Touch(db, path, create, expected, now).db ==
            if create && Resolved(db.nodes, path).None?
            then db.(generations := db.generations[db.nextId := Generation(true, 0, RowsOf([]))],
                     nextId := db.nextId + 1)
            else db
  {
    hide Finalize, RowsOf;
    if create && Resolved(db.nodes, path).None? {
      StagedIsThere(db, []);
      FailedFinalize(CompleteGeneration(StageGeneration(db, RowsOf([])), db.nextId, 0), path, db.nextId, 0, true, None,
                     now);
    }
  }

  lemma FailedCopy(db: Db, from: Segments, to: Segments, recursive: bool, overwrite: bool, expected: Option<nat>,
                   now: int)
    requires CopyTo(db, from, to, recursive, overwrite, expected, now).Some?
    requires CopyTo(db, from, to, recursive, overwrite, expected, now).value.outcome.Failed?
    ensures CopyTo(db, from, to, recursive, overwrite, expected, now).value.db == db
  {
    hide Named, Followed, CopySubtree;
  }

  lemma FailedRestore(db: Db, record: Id, destination: Option<Segments>, expected: Option<nat>, now: int)
    requires Restore(db, record, destination, expected, now).outcome.Failed?
    ensures Restore(db, record, destination, expected, now).db == db
  {
    hide RestorePlace, Unmark;
  }

  lemma FailedWriteAt(db: Db, path: Segments, offset: nat, source: seq<Item>, create: bool, expected: Option<nat>,
                      preserve: bool, now: int)
    requires WriteAt(db, path, offset, source, create, expected, preserve, now).outcome.Failed?
    ensures WriteAt(db, path, offset, source, create, expected, preserve, now).db == db
  {
    hide Resolved, Finalize, Staged;
  }

  lemma FailedWrite(db: Db, path: Segments, source: seq<Item>, create: bool, expected: Option<nat>, now: int)
    requires Write(db, path, source, create, expected, now).outcome.Failed?
    ensures Write(db, path, source, create, expected, now).db == db
  {
    hide Finalize;
  }

  lemma FailedSymlink(db: Db, target: LinkTarget, link: Segments, o: CreateOptions, now: int)
    requires MakeSymlink(db, target, link, o, now).outcome.Failed?
    ensures MakeSymlink(db, target, link, o, now).db == db
  {
    hide ResolveDestination;
  }

  lemma FailedRemove(db: Db, path: Segments, recursive: bool, expected: Option<nat>, now: int)
    requires Remove(db, path, recursive, expected, now).outcome.Failed?
    ensures Remove(db, path, recursive, expected, now).db == db
  {
    hide Named, PurgeSubtree;
  }

  lemma FailedTrash(db: Db, path: Segments, record: Id, expected: Option<nat>, now: int)
    ensures TrashPath(db, path, expected, now).outcome.Failed? ==> TrashPath(db, path, expected, now).db == db
    ensures Purge(db, record, now).outcome.Failed? ==> Purge(db, record, now).db == db
  {
    hide Named, PurgeSubtree;
  }

  lemma FailedAttribute(db: Db, path: Segments, key: string, value: Bytes, expected: Option<nat>, now: int)
    ensures SetAttribute(db, path, key, value, expected, now).outcome.Failed? ==>
            SetAttribute(db, path, key, value, expected, now).db == db
    ensures RemoveAttribute(db, path, key, expected, now).outcome.Failed? ==>
            RemoveAttribute(db, path, key, expected, now).db == db
  {
    hide Named;
  }

  lemma FailedAppend(db: Db, path: Segments, source: seq<Item>, create: bool, expected: Option<nat>, now: int)
    requires Append(db, path, source, create, expected, now).outcome.Failed?
    ensures Append(db, path, source, create, expected, now).db == db
  {
    hide WriteAt, Resolved;
    match Resolved(db.nodes, path)
    case Some(x) =>
      if db.nodes[x].kind.File? { FailedWriteAt(db, path, db.nodes[x].size, source, create, expected, true, now); }
    case None => FailedWriteAt(db, path, 0, source, create, expected, true, now);
  }

  /** The one request whose failure is not without trace: a `touch` that was to create a file. */
  ghost predicate LeavesOrphan(db: Db, op: Operation) {
    op.OpTouch? && op.mayCreate && Resolved(db.nodes, op.path).None?
  }

  /** A failed request changes nothing, except exactly for a `touch` that was to create a file. */
  lemma FailureChangesNothingIff(db: Db, root: Id, op: Operation, now: int)
    requires Inv(db, root) && Apply(db, op, now).Some? && Apply(db, op, now).value.outcome.Failed?
    ensures Apply(db, op, now).value.db == db <==> !LeavesOrphan(db, op)
  {
    hide Inv, Unreferenced, Mkdir, MakeSymlink, CopyTo, MoveTo, Remove, TrashPath, Restore;
    hide Purge, SetAttribute, RemoveAttribute, Touch, Write, WriteAt;
    hide Append, Truncate, Resolved, RowsOf;
    FreshIdUnreferenced(db, root);
    match op
    case OpMkdir(path, o) => FailedMkdir(db, root, path, o, now);
    case OpTouch(path, create, expected) => FailedTouch(db, path, create, expected, now);
    case OpCopy(from, to, recursive, overwrite, expected) =>
      FailedCopy(db, from, to, recursive, overwrite, expected, now);
    case OpMove(from, to, overwrite, expected) => RefusedMove(db, from, to, overwrite, expected, now);
    case OpRemove(path, recursive, expected) => FailedRemove(db, path, recursive, expected, now);
    case OpSymlink(target, link, o) => FailedSymlink(db, target, link, o, now);
    case OpTrash(path, expected) => FailedTrash(db, path, 0, expected, now);
    case OpRestore(record, destination, expected) => FailedRestore(db, record, destination, expected, now);
    case OpPurge(record) => FailedTrash(db, [], record, None, now);
    case OpSetAttribute(path, key, value, expected) => FailedAttribute(db, path, key, value, expected, now);
    case OpRemoveAttribute(path, key, expected) => FailedAttribute(db, path, key, [], expected, now);
    case OpWrite(path, source, create, expected) => FailedWrite(db, path, source, create, expected, now);
    case OpWriteAt(path, offset, source, create, expected) =>
      FailedWriteAt(db, path, offset, source, create, expected, true, now);
    case OpAppend(path, source, create, expected) => FailedAppend(db, path, source, create, expected, now);
    case OpTruncate(path, length, expected) => FailedTruncate(db, path, length, expected, now);
  }

  lemma FailedTruncate(db: Db, path: Segments, length: nat, expected: Option<nat>, now: int)
    requires Truncate(db, path, length, expected, now).outcome.Failed?
    ensures Truncate(db, path, length, expected, now).db == db
  {
    FailedWriteAt(db, path, length, [], false, expected, false, now);
  }

  // --- batches ---------------------------------------------------------------

  datatype Capability = CanWrite | CanDelete | CanTrashRestore

  /** `required_capability`. */
  function RequiredCapability(op: Operation): Capability {
    match op
    case OpRemove(_, _, _) => CanDelete
    case OpPurge(_) => CanDelete
    case OpTrash(_, _) => CanTrashRestore
    case OpRestore(_, _, _) => CanTrashRestore
    case _ => CanWrite
  }

  datatype BatchOutcome = Completed(results: seq<Outcome>) | Stopped(index: nat, code: ErrorCode)

  datatype BatchStep = BatchStep(db: Db, outcome: BatchOutcome)

  /** From request `i` on; the transaction is dropped at the first failure, so that `db0` stays. */
  ghost function BatchFrom(db0: Db, db: Db, held: set<Capability>, requests: seq<Request>, i: nat,
                           results: seq<Outcome>): Option<BatchStep>
    requires i <= |requests|
    decreases |requests| - i
  {
    if i == |requests| then Some(BatchStep(db, Completed(results)))
    else if RequiredCapability(requests[i].op) !in held then Some(BatchStep(db0, Stopped(i, PermissionDenied)))
    else
      var r := Apply(db, requests[i].op, requests[i].now);
      if r.None? then None
      else if r.value.outcome.Failed? then Some(BatchStep(db0, Stopped(i, r.value.outcome.code)))
      else BatchFrom(db0, r.value.db, held, requests, i + 1, results + [r.value.outcome])
  }

  ghost function Batch(db: Db, held: set<Capability>, requests: seq<Request>): Option<BatchStep> {
    BatchFrom(db, db, held, requests, 0, [])
  }

  /** Request `i` of a run is allowed and succeeds. */
  ghost predicate Passes(dbs: seq<Db>, held: set<Capability>, requests: seq<Request>, i: nat)
    requires i < |dbs| && i < |requests|
  {
    RequiredCapability(requests[i].op) in held &&
    var r := Apply(dbs[i], requests[i].op, requests[i].now);
    r.Some? && !r.value.outcome.Failed?
  }

  lemma {:induction false} BatchFollowsRun(dbs: seq<Db>, held: set<Capability>, requests: seq<Request>, n: nat, i: nat,
                                           results: seq<Outcome>)
    requires n <= |requests| && Run(dbs, requests[..n]) && i <= n && |results| == i
    requires forall k :: 0 <= k < n ==> Passes(dbs, held, requests, k)
    requires forall k :: 0 <= k < i ==> results[k] == Apply(dbs[k], requests[k].op, requests[k].now).value.outcome
    ensures exists all :: |all| == n &&
              (forall k :: 0 <= k < n ==> all[k] == Apply(dbs[k], requests[k].op, requests[k].now).value.outcome) &&
              BatchFrom(dbs[0], dbs[i], held, requests, i, results) == BatchFrom(dbs[0], dbs[n], held, requests, n, all)
    decreases n - i
  {
    hide Apply;
    if i < n {
      assert requests[..n][i] == requests[i] && Passes(dbs, held, requests, i);
      BatchFollowsRun(dbs, held, requests, n, i + 1,
                      results + [Apply(dbs[i], requests[i].op, requests[i].now).value.outcome]);
    }
  }

  /** A batch whose requests all pass is that run of its requests, one result for each. */
  lemma BatchIsTheRun(dbs: seq<Db>, held: set<Capability>, requests: seq<Request>)
    requires Run(dbs, requests) && forall k :: 0 <= k < |requests| ==> Passes(dbs, held, requests, k)
    ensures var b := Batch(dbs[0], held, requests);
            b.Some? && b.value.outcome.Completed? && b.value.db == dbs[|requests|] &&
            |b.value.outcome.results| == |requests| &&
            forall k :: 0 <= k < |requests| ==>
              b.value.outcome.results[k] == Apply(dbs[k], requests[k].op, requests[k].now).value.outcome
  {
    hide Apply;
    assert requests[..|requests|] == requests;
    BatchFollowsRun(dbs, held, requests, |requests|, 0, []);
  }

  /**
   A batch stops at its first request that does not pass, with its index and its error, and leaves nothing of the ones
   before.
   */
  lemma BatchStopsAtFirst(dbs: seq<Db>, held: set<Capability>, requests: seq<Request>, n: nat)
    requires n < |requests| && Run(dbs, requests[..n]) && forall k :: 0 <= k < n ==> Passes(dbs, held, requests, k)
    requires !Passes(dbs, held, requests, n)
    ensures var b := Batch(dbs[0], held, requests);
            var allowed := RequiredCapability(requests[n].op) in held;
            (b.Some? <==> !allowed || Apply(dbs[n], requests[n].op, requests[n].now).Some?) &&
            (b.Some? ==>
              b.value.db == dbs[0] && b.value.outcome.Stopped? && b.value.outcome.index == n &&
              b.value.outcome.code ==
              if allowed then Apply(dbs[n], requests[n].op, requests[n].now).value.outcome.code else PermissionDenied)
  {
    hide Apply;
    BatchFollowsRun(dbs, held, requests, n, 0, []);
  }

  /** A batch that was completed is such a run. */
  lemma {:induction false} CompletedBatchIsARun(db0: Db, db: Db, held: set<Capability>, requests: seq<Request>, i: nat,
                                                results: seq<Outcome>)
    returns (dbs: seq<Db>)
    requires i <= |requests| && BatchFrom(db0, db, held, requests, i, results).Some?
    requires BatchFrom(db0, db, held, requests, i, results).value.outcome.Completed?
    ensures Run(dbs, requests[i..]) && dbs[0] == db &&
            dbs[|requests| - i] == BatchFrom(db0, db, held, requests, i, results).value.db
    ensures forall k :: 0 <= k < |requests| - i ==> Passes(dbs, held, requests[i..], k)
    decreases |requests| - i
  {
    hide Apply;
    if i == |requests| { return [db]; }
    var r := Apply(db, requests[i].op, requests[i].now).value;
    var rest := CompletedBatchIsARun(db0, r.db, held, requests, i + 1, results + [r.outcome]);
    dbs := [db] + rest;
    forall k | 0 <= k < |requests| - i
      ensures Passes(dbs, held, requests[i..], k)
      ensures dbs[k + 1] == Apply(dbs[k], requests[i..][k].op, requests[i..][k].now).value.db
    {
      if k > 0 { assert requests[i..][k] == requests[i + 1..][k - 1] && Passes(rest, held, requests[i + 1..], k - 1); }
    }
  }
}
