/**
 What a path over symbolic links means, without the walk
 (crates/fslite-sqlite/src/resolve.rs): the first link that a path meets is replaced
 by the path it stands for, at most forty times, and what is left is resolved plainly.
 */
module Links {
  import opened Common
  import opened Paths
  import opened Tree
  import opened Resolve

  /** A link that must be followed stands at `at`, a beginning of `path`. */
  ghost predicate LinkAt(nodes: Nodes, path: Segments, at: Segments, followFinal: bool) {
    at != [] && at <= path && (at != path || followFinal) &&
    Resolved(nodes, at).Some? && nodes[Resolved(nodes, at).value].kind.Symlink?
  }

  /** The path a link at `at` stands for: its target, joined to the directory it stands in. */
  function Target(at: Segments, raw: string): Segments
    requires at != [] && raw != ""
  {
    Clamp(if raw[0] == '/' then [] else Pop(at), Split(raw))
  }

  /** One link replaced by what it stands for. */
  ghost predicate Rewrites(nodes: Nodes, path: Segments, next: Segments, followFinal: bool) {
    exists at :: LinkAt(nodes, path, at, followFinal) && Through(nodes, path, at, next)
  }

  ghost predicate Through(nodes: Nodes, path: Segments, at: Segments, next: Segments)
    requires at != [] && at <= path && Resolved(nodes, at).Some?
  {
    var raw := nodes[Resolved(nodes, at).value].target;
    raw.Some? && raw.value != "" && ParseTarget(raw.value).Ok? && next == Target(at, raw.value) + path[|at|..]
  }

  /** `path` becomes `goal` over `n` links. */
  ghost predicate LeadsOver(nodes: Nodes, path: Segments, goal: Segments, n: nat, followFinal: bool)
    decreases n
  {
    if n == 0 then goal == path
    else exists next :: Rewrites(nodes, path, next, followFinal) && LeadsOver(nodes, next, goal, n - 1, followFinal)
  }

  /** `path` leads to `x` over `n` links; if the final link is followed, `x` is no link. */
  ghost predicate LeadsTo(nodes: Nodes, path: Segments, x: Id, n: nat, followFinal: bool) {
    x in nodes && (followFinal ==> !nodes[x].kind.Symlink?) &&
    exists goal :: LeadsOver(nodes, path, goal, n, followFinal) && Resolved(nodes, goal) == Some(x)
  }

  /** After `n` links yet another must be followed. */
  ghost predicate MeetsAnother(nodes: Nodes, path: Segments, n: nat, followFinal: bool) {
    exists goal, at :: LeadsOver(nodes, path, goal, n, followFinal) && LinkAt(nodes, goal, at, followFinal)
  }

  // --- where the walk stands -------------------------------------------------

  lemma PrefixOf(nodes: Nodes, root: Id, at: Segments, rest: Segments)
    requires Sound(nodes, root)
    ensures Resolved(nodes, at).None? ==> Resolved(nodes, at + rest).None?
    ensures Resolved(nodes, at).Some? && rest != [] && !nodes[Resolved(nodes, at).value].kind.Directory? ==>
              Resolved(nodes, at + rest).None?
  {
    RootIsFetched(nodes, root);
    WalkAppend(nodes, root, at, rest);
  }

  /** A node that is no directory ends every plain path through it. */
  lemma EndsThere(nodes: Nodes, root: Id, path: Segments, at: Segments, p: Segments)
    requires Sound(nodes, root) && at <= path && p <= path && Resolved(nodes, at).Some? && Resolved(nodes, p).Some?
    requires !nodes[Resolved(nodes, at).value].kind.Directory?
    ensures |p| <= |at|
  {
    if |p| > |at| {
      assert at + p[|at|..] == p;
      PrefixOf(nodes, root, at, p[|at|..]);
    }
  }

  /** The one link a path meets first. */
  lemma OneLinkAt(nodes: Nodes, root: Id, path: Segments, a: Segments, b: Segments, followFinal: bool)
    requires Sound(nodes, root) && LinkAt(nodes, path, a, followFinal) && LinkAt(nodes, path, b, followFinal)
    ensures a == b
  {
    EndsThere(nodes, root, path, a, b);
    EndsThere(nodes, root, path, b, a);
  }

  /** Standing at a link that must be followed, `path` goes on exactly where `FollowOne` does. */
  lemma StandsAtLink(nodes: Nodes, root: Id, at: Segments, link: Id, pending: Segments, next: Segments,
                     followFinal: bool)
    requires Sound(nodes, root) && Resolved(nodes, at) == Some(link) && nodes[link].kind.Symlink?
    requires pending != [] || followFinal
    ensures at != [] && LinkAt(nodes, at + pending, at, followFinal)
    ensures Rewrites(nodes, at + pending, next, followFinal) <==> Through(nodes, at + pending, at, next)
  {
    RootIsFetched(nodes, root);
    forall b | LinkAt(nodes, at + pending, b, followFinal) ensures b == at {
      OneLinkAt(nodes, root, at + pending, at, b, followFinal);
    }
  }

  /** The step over a link, in paths. */
  lemma StepOverLink(nodes: Nodes, root: Id, at: Segments, link: Id, pending: Segments)
    returns (base: Segments)
    requires Sound(nodes, root) && at != [] && Resolved(nodes, at) == Some(link) && FollowOne(nodes, link).Next?
    ensures nodes[link].target.Some? && nodes[link].target.value != "" && ParseTarget(nodes[link].target.value).Ok?
    ensures var step := FollowOne(nodes, link);
            Resolved(nodes, base) == Some(step.base) &&
            base + (step.remaining + pending) == Target(at, nodes[link].target.value) + pending
  {
    hide Clamp, Split, Climb, FollowOne, ParseTarget, Resolved, Sound;
    assert Pop(at) + [at[|at| - 1]] == at;
    TargetIsNotEmpty(nodes, link);
    FollowingMeansJoining(nodes, root, Pop(at), at[|at| - 1], link);
    var step, raw := FollowOne(nodes, link), nodes[link].target.value;
    assert Target(at, raw) == if raw[0] == '/' then Clamp([], Split(raw)) else Clamp(Pop(at), Split(raw));
    base :| base + step.remaining == Target(at, raw) && Resolved(nodes, base) == Some(step.base);
    assert base + (step.remaining + pending) == (base + step.remaining) + pending;
  }

  lemma TargetIsNotEmpty(nodes: Nodes, link: Id)
    requires link in nodes && FollowOne(nodes, link).Next?
    ensures nodes[link].target.Some? && nodes[link].target.value != "" && ParseTarget(nodes[link].target.value).Ok?
  {
    hide Climb, Split;
  }

  /** A link whose target can be parsed can be followed. */
  lemma ParsedIsFollowed(nodes: Nodes, root: Id, at: Segments, link: Id)
    requires Sound(nodes, root) && at != [] && Resolved(nodes, at) == Some(link)
    requires nodes[link].target.Some? && ParseTarget(nodes[link].target.value).Ok?
    ensures FollowOne(nodes, link).Next?
  {
    hide FollowOne, ParseTarget, Clamp, Split;
    assert Pop(at) + [at[|at| - 1]] == at;
    FollowingMeansJoining(nodes, root, Pop(at), at[|at| - 1], link);
  }

  // --- the walk finds what the path leads to ---------------------------------

  /** Standing at a link: the path goes over it, and on as the walk does. */
  lemma LeadsOverLink(nodes: Nodes, root: Id, at: Segments, link: Id, pending: Segments, goal: Segments, n: nat,
                      followFinal: bool)
    requires Sound(nodes, root) && Resolved(nodes, at) == Some(link) && nodes[link].kind.Symlink?
    requires pending != [] || followFinal
    ensures at != [] && LinkAt(nodes, at + pending, at, followFinal)
    ensures n > 0 ==>
              (LeadsOver(nodes, at + pending, goal, n, followFinal) <==>
               FollowOne(nodes, link).Next? &&
               LeadsOver(nodes, Target(at, nodes[link].target.value) + pending, goal, n - 1, followFinal))
  {
    hide Clamp, Split, ParseTarget, FollowOne, Target, LinkAt;
    StandsAtLink(nodes, root, at, link, pending, [], followFinal);
    assert (at + pending)[|at|..] == pending;
    if FollowOne(nodes, link).Next? {
      TargetIsNotEmpty(nodes, link);
      var next := Target(at, nodes[link].target.value) + pending;
      StandsAtLink(nodes, root, at, link, pending, next, followFinal);
      assert Rewrites(nodes, at + pending, next, followFinal);
    }
    if n > 0 && LeadsOver(nodes, at + pending, goal, n, followFinal) {
      var next :| Rewrites(nodes, at + pending, next, followFinal) && LeadsOver(nodes, next, goal, n - 1, followFinal);
      StandsAtLink(nodes, root, at, link, pending, next, followFinal);
      ParsedIsFollowed(nodes, root, at, link);
    }
  }

  /** A path that meets no link to follow leads nowhere but where it plainly resolves to. */
  lemma NoLinkMet(nodes: Nodes, path: Segments, followFinal: bool)
    requires forall at :: !LinkAt(nodes, path, at, followFinal)
    ensures forall x: Id, n: nat :: LeadsTo(nodes, path, x, n, followFinal) ==>
              n == 0 && Resolved(nodes, path) == Some(x)
    ensures forall n: nat :: !MeetsAnother(nodes, path, n, followFinal)
    ensures forall x :: Resolved(nodes, path) == Some(x) && (followFinal ==> !nodes[x].kind.Symlink?) ==>
              LeadsTo(nodes, path, x, 0, followFinal)
  {
    forall next ensures !Rewrites(nodes, path, next, followFinal) { }
    hide LinkAt, Rewrites, Resolved;
    forall goal, n: nat | LeadsOver(nodes, path, goal, n, followFinal) ensures n == 0 && goal == path { }
    assert LeadsOver(nodes, path, path, 0, followFinal);
  }

  lemma NoLinkOnResolved(nodes: Nodes, root: Id, at: Segments, current: Id, pending: Segments, followFinal: bool)
    requires Sound(nodes, root) && Resolved(nodes, at) == Some(current)
    requires if nodes[current].kind.Directory?
             then pending == [] || FetchChild(nodes, current, pending[0]).None?
             else if nodes[current].kind.Symlink? then pending == [] && !followFinal
             else true
    ensures forall b :: !LinkAt(nodes, at + pending, b, followFinal)
  {
    var path := at + pending;
    forall b ensures !LinkAt(nodes, path, b, followFinal) {
      if LinkAt(nodes, path, b, followFinal) {
        assert b == path[..|b|] && at == path[..|at|];
        EndsThere(nodes, root, path, b, at);
        if !nodes[current].kind.Directory? {
          EndsThere(nodes, root, path, at, b);
        } else if |b| > |at| {
          assert (at + [pending[0]]) + b[|at| + 1..] == b;
          ResolvedChild(nodes, root, at, current, pending[0]);
          PrefixOf(nodes, root, at + [pending[0]], b[|at| + 1..]);
        }
      }
    }
  }

  /** The first link followed, in all that is said of a path. */
  lemma OverTheFirst(nodes: Nodes, root: Id, at: Segments, link: Id, pending: Segments, followFinal: bool)
    requires Sound(nodes, root) && Resolved(nodes, at) == Some(link) && nodes[link].kind.Symlink?
    requires pending != [] || followFinal
    ensures at != []
    ensures forall x :: !LeadsTo(nodes, at + pending, x, 0, followFinal)
    ensures MeetsAnother(nodes, at + pending, 0, followFinal)
    ensures forall x: Id, n: nat :: n > 0 ==>
              (LeadsTo(nodes, at + pending, x, n, followFinal) <==>
               FollowOne(nodes, link).Next? &&
               LeadsTo(nodes, Target(at, nodes[link].target.value) + pending, x, n - 1, followFinal))
    ensures forall n: nat :: n > 0 ==>
              (MeetsAnother(nodes, at + pending, n, followFinal) <==>
               FollowOne(nodes, link).Next? &&
               MeetsAnother(nodes, Target(at, nodes[link].target.value) + pending, n - 1, followFinal))
  {
    PrefixOf(nodes, root, at, pending);
    if pending == [] { assert at + pending == at; }
    LeadsOverLink(nodes, root, at, link, pending, [], 0, followFinal);
    hide Clamp, Split, FollowOne, Target, LinkAt, Resolved, Sound;
    assert LeadsOver(nodes, at + pending, at + pending, 0, followFinal);
    hide LeadsOver;
    forall goal, n: nat | n > 0
      ensures LeadsOver(nodes, at + pending, goal, n, followFinal) <==>
              FollowOne(nodes, link).Next? &&
              LeadsOver(nodes, Target(at, nodes[link].target.value) + pending, goal, n - 1, followFinal)
    {
      LeadsOverLink(nodes, root, at, link, pending, goal, n, followFinal);
    }
  }

  lemma {:induction false} WalkFinds(nodes: Nodes, root: Id, at: Segments, current: Id, pending: Segments, hops: nat,
                                     fromLink: nat, followFinal: bool)
    requires Sound(nodes, root) && Resolved(nodes, at) == Some(current) && hops <= 40
    ensures var r := Follow(nodes, current, pending, hops, fromLink, followFinal);
            (forall x :: r == Found(x) <==>
               exists n: nat :: n <= 40 - hops && LeadsTo(nodes, at + pending, x, n, followFinal)) &&
            (r == LinkLoop <==> MeetsAnother(nodes, at + pending, 40 - hops, followFinal))
    decreases 40 - hops, |pending|
  {
    hide Sound, FollowOne, LeadsTo, MeetsAnother, Target, LinkAt, Resolved;
    if pending == [] && !(followFinal && nodes[current].kind.Symlink?) {
      NoLinkOnResolved(nodes, root, at, current, pending, followFinal);
      NoLinkMet(nodes, at + pending, followFinal);
      assert at + pending == at;
    } else if nodes[current].kind.File? {
      NoLinkOnResolved(nodes, root, at, current, pending, followFinal);
      NoLinkMet(nodes, at + pending, followFinal);
      PrefixOf(nodes, root, at, pending);
    } else if nodes[current].kind.Symlink? {
      OverTheFirst(nodes, root, at, current, pending, followFinal);
      var step := FollowOne(nodes, current);
      if hops < 40 && step.Next? {
        var base := StepOverLink(nodes, root, at, current, pending);
        WalkFinds(nodes, root, base, step.base, step.remaining + pending, hops + 1, |step.remaining|, followFinal);
        var next := Target(at, nodes[current].target.value) + pending;
        forall x: Id, n: nat | LeadsTo(nodes, next, x, n, followFinal)
          ensures LeadsTo(nodes, at + pending, x, n + 1, followFinal)
        {
          assert n + 1 - 1 == n;
        }
        assert MeetsAnother(nodes, at + pending, 40 - hops, followFinal) <==>
               MeetsAnother(nodes, next, 40 - (hops + 1), followFinal);
      }
    } else {
      ResolvedChild(nodes, root, at, current, pending[0]);
      var child := FetchChild(nodes, current, pending[0]);
      assert (at + [pending[0]]) + pending[1..] == at + pending;
      if child.Some? {
        WalkFinds(nodes, root, at + [pending[0]], child.value, pending[1..], hops, Max(0, fromLink - 1), followFinal);
      } else {
        NoLinkOnResolved(nodes, root, at, current, pending, followFinal);
        NoLinkMet(nodes, at + pending, followFinal);
        PrefixOf(nodes, root, at + [pending[0]], pending[1..]);
      }
    }
  }

  /**
   What the link-following walk answers, for every path: a node exactly if the path
   leads to it over at most forty links, and a cycle exactly if after forty links
   another must be followed.
   */
  lemma FollowedIff(nodes: Nodes, root: Id, path: Segments, followFinal: bool)
    requires Sound(nodes, root)
    ensures forall x :: Followed(nodes, path, followFinal) == Found(x) <==>
              exists n: nat :: n <= 40 && LeadsTo(nodes, path, x, n, followFinal)
    ensures Followed(nodes, path, followFinal) == LinkLoop <==> MeetsAnother(nodes, path, 40, followFinal)
  {
    RootIsFetched(nodes, root);
    assert [] + path == path;
    WalkFinds(nodes, root, [], root, path, 0, 0, followFinal);
  }
}
