/**
 Path resolution (crates/fslite-sqlite/src/resolve.rs): the plain walk, and the
 hop-bounded walk that follows symbolic links.
 */
module Resolve {
  import opened Common
  import opened Paths
  import opened Tree

  const MAX_LINK_HOPS: nat := 40

  // --- row queries -----------------------------------------------------------

  predicate IsRoot(nodes: Nodes, x: Id) { Active(nodes, x) && nodes[x].parent.None? }

  ghost function FetchRoot(nodes: Nodes): (r: Option<Id>)
    ensures r.Some? ==> IsRoot(nodes, r.value)
  {
    if exists x :: IsRoot(nodes, x) then (var x :| IsRoot(nodes, x); Some(x)) else None
  }

  ghost function FetchChild(nodes: Nodes, p: Id, name: string): (r: Option<Id>)
    ensures r.Some? ==> IsChild(nodes, p, name, r.value)
  {
    if exists x :: IsChild(nodes, p, name, x) then (var x :| IsChild(nodes, p, name, x); Some(x)) else None
  }

  /** The tables of a workspace between transactions. */
  ghost predicate Sound(nodes: Nodes, root: Id) { TreeOk(nodes, root) && NamesDistinct(nodes) }

  lemma RootIsFetched(nodes: Nodes, root: Id)
    requires Rooted(nodes, root)
    ensures FetchRoot(nodes) == Some(root)
  {
    assert IsRoot(nodes, root);
  }

  lemma ChildIsFetched(nodes: Nodes, p: Id, name: string, x: Id)
    requires NamesDistinct(nodes)
    ensures FetchChild(nodes, p, name) == Some(x) <==> IsChild(nodes, p, name, x)
  {
  }

  method QueryRoot(nodes: Nodes, ghost root: Id) returns (r: Option<Id>)
    requires Rooted(nodes, root)
    ensures r == FetchRoot(nodes) == Some(root)
  {
    RootIsFetched(nodes, root);
    assert IsRoot(nodes, root);
    if x :| x in nodes && IsRoot(nodes, x) { return Some(x); }
    return None;
  }

  method QueryChild(nodes: Nodes, p: Id, name: string) returns (r: Option<Id>)
    requires NamesDistinct(nodes)
    ensures r == FetchChild(nodes, p, name)
  {
    if x :| x in nodes && IsChild(nodes, p, name, x) {
      ChildIsFetched(nodes, p, name, x);
      return Some(x);
    }
    assert forall x :: !IsChild(nodes, p, name, x);
    return None;
  }

  // --- the plain walk --------------------------------------------------------

  ghost function Walk(nodes: Nodes, current: Id, path: Segments): (r: Option<Id>)
    requires current in nodes
    ensures r.Some? ==> r.value in nodes
    decreases |path|
  {
    if path == [] then Some(current)
    else if !nodes[current].kind.Directory? then None
    else
      var child := FetchChild(nodes, current, path[0]);
      if child.Some? then Walk(nodes, child.value, path[1..]) else None
  }

  ghost function Resolved(nodes: Nodes, path: Segments): (r: Option<Id>)
    ensures r.Some? ==> r.value in nodes
  {
    var root := FetchRoot(nodes);
    if root.Some? then Walk(nodes, root.value, path) else None
  }

  method ResolvePlain(nodes: Nodes, path: Segments, ghost root: Id) returns (r: Option<Id>)
    requires Sound(nodes, root)
    ensures r == Resolved(nodes, path)
  {
    var top := QueryRoot(nodes, root);
    if top.None? { return None; }
    var current := top.value;
    for i := 0 to |path|
      invariant current in nodes && Walk(nodes, current, path[i..]) == Resolved(nodes, path)
    {
      assert path[i..][0] == path[i] && path[i..][1..] == path[i + 1..];
      if !nodes[current].kind.Directory? { return None; }
      var child := QueryChild(nodes, current, path[i]);
      if child.None? { return None; }
      current := child.value;
    }
    return Some(current);
  }

  lemma {:induction false} WalkAppend(nodes: Nodes, current: Id, a: Segments, b: Segments)
    requires current in nodes
    ensures Walk(nodes, current, a).Some? ==> Walk(nodes, current, a).value in nodes
    ensures Walk(nodes, current, a + b) ==
            if Walk(nodes, current, a).Some? then Walk(nodes, Walk(nodes, current, a).value, b) else None
    decreases |a|
  {
    if a == [] {
      assert a + b == b;
    } else {
      assert (a + b)[1..] == a[1..] + b;
      var child := FetchChild(nodes, current, a[0]);
      if child.Some? { WalkAppend(nodes, child.value, a[1..], b); }
    }
  }

  /** The last step of a resolved path. */
  lemma LastStep(nodes: Nodes, root: Id, path: Segments, x: Id)
    requires Sound(nodes, root) && path != [] && Resolved(nodes, path) == Some(x)
    ensures var p := Resolved(nodes, Pop(path));
            p.Some? && p.value in nodes && nodes[p.value].kind.Directory? &&
            IsChild(nodes, p.value, path[|path| - 1], x)
  {
    RootIsFetched(nodes, root);
    var last := path[|path| - 1];
    WalkAppend(nodes, root, Pop(path), [last]);
    assert Pop(path) + [last] == path && [last][1..] == [];
  }

  lemma ResolvedChild(nodes: Nodes, root: Id, path: Segments, p: Id, name: string)
    requires Sound(nodes, root) && Resolved(nodes, path) == Some(p)
    ensures p in nodes
    ensures Resolved(nodes, path + [name]) ==
            if nodes[p].kind.Directory? then FetchChild(nodes, p, name) else None
  {
    RootIsFetched(nodes, root);
    WalkAppend(nodes, root, path, [name]);
    assert [name][1..] == [] && [name][0] == name;
  }

  /** Reachable by a path of active nodes. */
  ghost predicate Live(nodes: Nodes, x: Id) { exists path :: Resolved(nodes, path) == Some(x) }

  lemma ResolvedIsActive(nodes: Nodes, root: Id, path: Segments, x: Id)
    requires Sound(nodes, root) && Resolved(nodes, path) == Some(x)
    ensures Active(nodes, x)
  {
    RootIsFetched(nodes, root);
    if path != [] { LastStep(nodes, root, path, x); }
  }

  /** A node has one path. */
  lemma {:induction false} PathUnique(nodes: Nodes, root: Id, p: Segments, q: Segments, x: Id)
    requires Sound(nodes, root) && Resolved(nodes, p) == Some(x) && Resolved(nodes, q) == Some(x)
    ensures p == q
    decreases |p|
  {
    RootIsFetched(nodes, root);
    if p != [] { LastStep(nodes, root, p, x); }
    if q != [] { LastStep(nodes, root, q, x); }
    if p != [] && q != [] {
      PathUnique(nodes, root, Pop(p), Pop(q), nodes[x].parent.value);
      assert p == Pop(p) + [p[|p| - 1]] && q == Pop(q) + [q[|q| - 1]];
    }
  }

  lemma {:induction false} WalkIsBelow(nodes: Nodes, current: Id, path: Segments)
    requires current in nodes
    ensures Walk(nodes, current, path).Some? ==> Below(nodes, current, Walk(nodes, current, path).value)
    decreases |path|
  {
    if path == [] {
      BelowSelf(nodes, current);
    } else if nodes[current].kind.Directory? && FetchChild(nodes, current, path[0]).Some? {
      var child := FetchChild(nodes, current, path[0]).value;
      WalkIsBelow(nodes, child, path[1..]);
      BelowSelf(nodes, current);
      BelowChild(nodes, current, current, child);
      if Walk(nodes, child, path[1..]).Some? { BelowTrans(nodes, current, child, Walk(nodes, child, path[1..]).value); }
    }
  }

  /** For plainly resolved paths the prefix order of paths is ancestry in the tree. */
  lemma {:induction false} PrefixIsAncestry(nodes: Nodes, root: Id, p: Segments, s: Id, q: Segments, d: Id)
    requires Sound(nodes, root) && Resolved(nodes, p) == Some(s) && Resolved(nodes, q) == Some(d)
    ensures p <= q <==> Below(nodes, s, d)
    decreases |q|
  {
    RootIsFetched(nodes, root);
    if p <= q {
      WalkAppend(nodes, root, p, q[|p|..]);
      assert p + q[|p|..] == q;
      WalkIsBelow(nodes, s, q[|p|..]);
    }
    if Below(nodes, s, d) {
      if d == s {
        PathUnique(nodes, root, p, q, s);
      } else {
        if q == [] { RootBelowOnlyItself(nodes, root, s); }
        LastStep(nodes, root, q, d);
        BelowParent(nodes, s, d);
        PrefixIsAncestry(nodes, root, p, s, Pop(q), nodes[d].parent.value);
        assert p <= Pop(q) <= q;
      }
    }
  }

  // --- one link --------------------------------------------------------------

  datatype FollowStep = Next(base: Id, remaining: Segments) | Broken

  /** Leading `..` segments climb, staying at the root once there. */
  function Climb(nodes: Nodes, base: Id, remaining: Segments): FollowStep
    requires base in nodes
    decreases |remaining|
  {
    if remaining == [] || remaining[0] != ".." then Next(base, remaining)
    else if nodes[base].parent.None? then Climb(nodes, base, remaining[1..])
    else if Active(nodes, nodes[base].parent.value) then Climb(nodes, nodes[base].parent.value, remaining[1..])
    else Broken
  }

  lemma {:induction false} ClimbStays(nodes: Nodes, base: Id, remaining: Segments)
    requires base in nodes
    ensures Climb(nodes, base, remaining).Next? ==> Climb(nodes, base, remaining).base in nodes
    decreases |remaining|
  {
    if remaining != [] && remaining[0] == ".." {
      if nodes[base].parent.None? { ClimbStays(nodes, base, remaining[1..]); }
      else if Active(nodes, nodes[base].parent.value) { ClimbStays(nodes, nodes[base].parent.value, remaining[1..]); }
    }
  }

  ghost function FollowOne(nodes: Nodes, link: Id): (step: FollowStep)
    requires link in nodes
    ensures step.Next? ==> step.base in nodes
  {
    if nodes[link].target.None? || ParseTarget(nodes[link].target.value).Err? then Broken
    else
      var target := ParseTarget(nodes[link].target.value).value;
      var remaining := SplitSegments(target.canonical);
      if IsAbsolute(target) then
        var root := FetchRoot(nodes);
        if root.Some? then Next(root.value, remaining) else Broken
      else if nodes[link].parent.None? || !Active(nodes, nodes[link].parent.value) then Broken
      else
        ClimbStays(nodes, nodes[link].parent.value, remaining);
        Climb(nodes, nodes[link].parent.value, remaining)
  }

  method FollowLink(nodes: Nodes, link: Id, ghost root: Id) returns (step: FollowStep)
    requires Rooted(nodes, root) && link in nodes
    ensures step == FollowOne(nodes, link)
  {
    if nodes[link].target.None? { return Broken; }
    var parsed := ParseTarget(nodes[link].target.value);
    if parsed.Err? { return Broken; }
    var remaining := SplitSegments(parsed.value.canonical);
    if IsAbsolute(parsed.value) {
      var top := QueryRoot(nodes, root);
      if top.None? { return Broken; }
      return Next(top.value, remaining);
    }
    if nodes[link].parent.None? || !Active(nodes, nodes[link].parent.value) { return Broken; }
    var base := nodes[link].parent.value;
    while remaining != [] && remaining[0] == ".."
      invariant base in nodes && Climb(nodes, base, remaining) == FollowOne(nodes, link)
      decreases |remaining|
    {
      remaining := remaining[1..];
      if nodes[base].parent.Some? {
        if !Active(nodes, nodes[base].parent.value) { return Broken; }
        base := nodes[base].parent.value;
      }
    }
    return Next(base, remaining);
  }

  lemma {:induction false} ClimbMeaning(nodes: Nodes, root: Id, dir: Segments, d: Id, segs: Segments, ups: nat)
    requires Sound(nodes, root) && Resolved(nodes, dir) == Some(d) && UpsThenNames(segs, ups)
    ensures d in nodes
    ensures var base := dir[..Max(0, |dir| - ups)];
            var step := Climb(nodes, d, segs);
            step.Next? && Resolved(nodes, base) == Some(step.base) && step.remaining == segs[ups..]
    decreases ups
  {
    RootIsFetched(nodes, root);
    ResolvedIsActive(nodes, root, dir, d);
    assert dir[..|dir|] == dir;
    if ups == 0 {
      assert segs[0..] == segs;
      if segs != [] { assert Segment(segs[0..][0]); }
    } else {
      assert segs[1..][ups - 1..] == segs[ups..];
      assert forall i :: 0 <= i < ups - 1 ==> segs[1..][i] == segs[i + 1];
      if dir == [] {
        assert d == root;
        ClimbMeaning(nodes, root, dir, d, segs[1..], ups - 1);
      } else {
        LastStep(nodes, root, dir, d);
        ResolvedIsActive(nodes, root, Pop(dir), nodes[d].parent.value);
        ClimbMeaning(nodes, root, Pop(dir), nodes[d].parent.value, segs[1..], ups - 1);
        assert Pop(dir)[..Max(0, |dir| - ups)] == dir[..Max(0, |dir| - ups)];
      }
    }
  }

  /**
   Following a link in directory `dir`: resolution goes on from the node and the
   segments that `dir.join(target)` stands for, and no `..` is left to walk.
   */
  lemma FollowingMeansJoining(nodes: Nodes, root: Id, dir: Segments, name: string, link: Id)
    requires Sound(nodes, root) && Resolved(nodes, dir + [name]) == Some(link)
    requires link in nodes && nodes[link].target.Some? && ParseTarget(nodes[link].target.value).Ok?
    ensures var raw := nodes[link].target.value;
            var goal := if raw[0] == '/' then Clamp([], Split(raw)) else Clamp(dir, Split(raw));
            var step := FollowOne(nodes, link);
            step.Next? && AllSegments(step.remaining) &&
            exists base :: base + step.remaining == goal && Resolved(nodes, base) == Some(step.base)
  {
    hide FollowOne, Clamp, Split;
    LastStep(nodes, root, dir + [name], link);
    assert Pop(dir + [name]) == dir;
    if nodes[link].target.value[0] == '/' {
      FollowingAbsolute(nodes, root, link);
    } else {
      FollowingRelative(nodes, root, dir, link);
    }
  }

  lemma FollowingAbsolute(nodes: Nodes, root: Id, link: Id)
    requires Sound(nodes, root) && link in nodes && nodes[link].target.Some? &&
             ParseTarget(nodes[link].target.value).Ok?
    requires nodes[link].target.value[0] == '/'
    ensures var step := FollowOne(nodes, link);
            step.Next? && AllSegments(step.remaining) && Resolved(nodes, []) == Some(step.base) &&
            [] + step.remaining == Clamp([], Split(nodes[link].target.value))
  {
    var raw := nodes[link].target.value;
    RootIsFetched(nodes, root);
    TargetSegments(raw);
    SplitNulless(raw);
    ClampCanonical([], Split(raw));
  }

  lemma FollowingRelative(nodes: Nodes, root: Id, dir: Segments, link: Id)
    requires Sound(nodes, root) && link in nodes && nodes[link].target.Some? &&
             ParseTarget(nodes[link].target.value).Ok?
    requires nodes[link].target.value[0] != '/' && nodes[link].parent.Some? &&
             Resolved(nodes, dir) == nodes[link].parent
    ensures var step := FollowOne(nodes, link);
            step.Next? && AllSegments(step.remaining) &&
            exists base :: base + step.remaining == Clamp(dir, Split(nodes[link].target.value)) &&
              Resolved(nodes, base) == Some(step.base)
  {
    var raw := nodes[link].target.value;
    TargetSegments(raw);
    SplitNulless(raw);
    var step := FollowOne(nodes, link);
    var segs := Relative([], Split(raw));
    var ups := RelativeShape([], 0, Split(raw));
    var d := nodes[link].parent.value;
    ResolvedIsActive(nodes, root, dir, d);
    ClimbMeaning(nodes, root, dir, d, segs, ups);
    ClampClimbs(dir, segs, ups);
    RelativePreservesMeaning(dir, raw);
    assert dir[..Max(0, |dir| - ups)] + step.remaining == Clamp(dir, Split(raw));
  }

  lemma LinkLeadsSomewhere(nodes: Nodes, root: Id, dir: Segments, name: string, link: Id)
    requires Sound(nodes, root) && Resolved(nodes, dir + [name]) == Some(link) && link in nodes
    requires FollowOne(nodes, link).Next?
    ensures exists base :: Resolved(nodes, base) == Some(FollowOne(nodes, link).base)
  {
    FollowingMeansJoining(nodes, root, dir, name, link);
  }

  // --- the walk that follows links -------------------------------------------

  datatype Lookup = Found(id: Id) | NotFound | BrokenLink | LinkLoop

  ghost function Follow(nodes: Nodes, current: Id, pending: Segments, hops: nat, fromLink: nat,
                        followFinal: bool): (r: Lookup)
    requires current in nodes && hops <= MAX_LINK_HOPS
    ensures r.Found? ==> r.id in nodes
    decreases MAX_LINK_HOPS - hops, |pending|
  {
    if pending == [] && !(followFinal && nodes[current].kind.Symlink?) then Found(current)
    else if nodes[current].kind.File? then NotFound
    else if nodes[current].kind.Symlink? then
      if hops + 1 > MAX_LINK_HOPS then LinkLoop
      else
        var step := FollowOne(nodes, current);
        if step.Broken? then BrokenLink
        else Follow(nodes, step.base, step.remaining + pending, hops + 1, |step.remaining|, followFinal)
    else
      var child := FetchChild(nodes, current, pending[0]);
      if child.Some? then Follow(nodes, child.value, pending[1..], hops, Max(0, fromLink - 1), followFinal)
      else if fromLink > 0 then BrokenLink
      else NotFound
  }

  ghost function Followed(nodes: Nodes, path: Segments, followFinal: bool): (r: Lookup)
    ensures r.Found? ==> r.id in nodes
  {
    var root := FetchRoot(nodes);
    if root.Some? then Follow(nodes, root.value, path, 0, 0, followFinal) else NotFound
  }

  /** The loop's branch at a symbolic link: an answer, or where to go on and the link's own segments. */
  method AtLink(nodes: Nodes, current: Id, hops: nat, ghost root: Id) returns (answer: Option<Lookup>, step: FollowStep)
    requires Rooted(nodes, root) && current in nodes && hops <= MAX_LINK_HOPS
    ensures answer == if hops + 1 > MAX_LINK_HOPS then Some(LinkLoop)
                      else if FollowOne(nodes, current).Broken? then Some(BrokenLink) else None
    ensures answer.None? ==> step == FollowOne(nodes, current) && step.Next?
  {
    if hops + 1 > MAX_LINK_HOPS { return Some(LinkLoop), Broken; }
    step := FollowLink(nodes, current, root);
    answer := if step.Broken? then Some(BrokenLink) else None;
  }

  method ResolveFollowing(nodes: Nodes, path: Segments, followFinal: bool, ghost root: Id) returns (r: Lookup)
    requires Sound(nodes, root)
    ensures r == Followed(nodes, path, followFinal)
  {
    var top := QueryRoot(nodes, root);
    if top.None? { return NotFound; }
    r := FollowLoop(nodes, top.value, path, followFinal, root);
  }

  method FollowLoop(nodes: Nodes, start: Id, path: Segments, followFinal: bool, ghost root: Id) returns (r: Lookup)
    requires Rooted(nodes, root) && NamesDistinct(nodes) && start in nodes
    ensures r == Follow(nodes, start, path, 0, 0, followFinal)
  {
    hide FollowOne;
    var current, pending, hops: nat, fromLink: nat := start, path, 0, 0;
    ghost var goal := Follow(nodes, start, path, 0, 0, followFinal);
    while true
      invariant current in nodes && hops <= MAX_LINK_HOPS
      invariant Follow(nodes, current, pending, hops, fromLink, followFinal) == goal
      decreases MAX_LINK_HOPS - hops, |pending|
    {
      if pending == [] && !(followFinal && nodes[current].kind.Symlink?) { return Found(current); }
      if nodes[current].kind.File? { return NotFound; }
      if nodes[current].kind.Symlink? {
        var answer, step := AtLink(nodes, current, hops, root);
        if answer.Some? { return answer.value; }
        current, pending, hops, fromLink := step.base, step.remaining + pending, hops + 1, |step.remaining|;
      } else {
        var child := QueryChild(nodes, current, pending[0]);
        if child.None? { return if fromLink > 0 then BrokenLink else NotFound; }
        current, pending, fromLink := child.value, pending[1..], Max(0, fromLink - 1);
      }
    }
  }

  /** With `followFinal` the answer is never a symbolic link. */
  lemma {:induction false} FollowedIsNoLink(nodes: Nodes, current: Id, pending: Segments, hops: nat, fromLink: nat)
    requires current in nodes && hops <= MAX_LINK_HOPS
    ensures var r := Follow(nodes, current, pending, hops, fromLink, true);
            r.Found? ==> r.id in nodes && !nodes[r.id].kind.Symlink?
    decreases MAX_LINK_HOPS - hops, |pending|
  {
    hide FollowOne;
    if nodes[current].kind.Symlink? {
      if hops < MAX_LINK_HOPS {
        var step := FollowOne(nodes, current);
        if step.Next? { FollowedIsNoLink(nodes, step.base, step.remaining + pending, hops + 1, |step.remaining|); }
      }
    } else if pending != [] && nodes[current].kind.Directory? {
      var child := FetchChild(nodes, current, pending[0]);
      if child.Some? { FollowedIsNoLink(nodes, child.value, pending[1..], hops, Max(0, fromLink - 1)); }
    }
  }

  /** Whatever is found lies on a path of active nodes, links included. */
  lemma {:induction false} FollowedIsLive(nodes: Nodes, root: Id, at: Segments, current: Id, pending: Segments,
                                          hops: nat, fromLink: nat, followFinal: bool)
    requires Sound(nodes, root) && Resolved(nodes, at) == Some(current) && current in nodes && hops <= MAX_LINK_HOPS
    ensures var r := Follow(nodes, current, pending, hops, fromLink, followFinal);
            r.Found? ==> Live(nodes, r.id)
    decreases MAX_LINK_HOPS - hops, |pending|
  {
    hide FollowOne;
    RootIsFetched(nodes, root);
    if pending == [] && !(followFinal && nodes[current].kind.Symlink?) {
      assert Live(nodes, current);
    } else if nodes[current].kind.Symlink? {
      if hops < MAX_LINK_HOPS && FollowOne(nodes, current).Next? {
        var step := FollowOne(nodes, current);
        assert at != [];
        assert Pop(at) + [at[|at| - 1]] == at;
        LinkLeadsSomewhere(nodes, root, Pop(at), at[|at| - 1], current);
        var base :| Resolved(nodes, base) == Some(step.base);
        FollowedIsLive(nodes, root, base, step.base, step.remaining + pending, hops + 1, |step.remaining|, followFinal);
      }
    } else if nodes[current].kind.Directory? {
      var child := FetchChild(nodes, current, pending[0]);
      if child.Some? {
        ResolvedChild(nodes, root, at, current, pending[0]);
        FollowedIsLive(nodes, root, at + [pending[0]], child.value, pending[1..], hops, Max(0, fromLink - 1),
                       followFinal);
      }
    }
  }

  /** A non-empty path never leads to the root itself, unless its last link does. */
  lemma {:induction false} FollowedHasParent(nodes: Nodes, current: Id, pending: Segments, hops: nat, fromLink: nat)
    requires current in nodes && hops <= MAX_LINK_HOPS && pending != []
    ensures var r := Follow(nodes, current, pending, hops, fromLink, false);
            r.Found? ==> nodes[r.id].parent.Some?
    decreases MAX_LINK_HOPS - hops, |pending|
  {
    hide FollowOne;
    if nodes[current].kind.Symlink? {
      if hops < MAX_LINK_HOPS {
        var step := FollowOne(nodes, current);
        if step.Next? { FollowedHasParent(nodes, step.base, step.remaining + pending, hops + 1, |step.remaining|); }
      }
    } else if nodes[current].kind.Directory? {
      var child := FetchChild(nodes, current, pending[0]);
      if child.Some? && |pending| > 1 {
        FollowedHasParent(nodes, child.value, pending[1..], hops, Max(0, fromLink - 1));
      }
    }
  }

  lemma FoundIsLive(nodes: Nodes, root: Id, path: Segments, followFinal: bool)
    requires Sound(nodes, root) && Followed(nodes, path, followFinal).Found?
    ensures Live(nodes, Followed(nodes, path, followFinal).id) && Active(nodes, Followed(nodes, path, followFinal).id)
    ensures followFinal ==> !nodes[Followed(nodes, path, followFinal).id].kind.Symlink?
  {
    RootIsFetched(nodes, root);
    FollowedIsLive(nodes, root, [], root, path, 0, 0, followFinal);
    var x := Followed(nodes, path, followFinal).id;
    var p :| Resolved(nodes, p) == Some(x);
    ResolvedIsActive(nodes, root, p, x);
    if followFinal { FollowedIsNoLink(nodes, root, path, 0, 0); }
  }

  // --- agreement of the two walks --------------------------------------------

  /** The plain walk along `path` is stopped by a symbolic link. */
  ghost predicate MeetsLink(nodes: Nodes, current: Id, path: Segments)
    requires current in nodes
    decreases |path|
  {
    path != [] &&
    (nodes[current].kind.Symlink? ||
     (nodes[current].kind.Directory? && FetchChild(nodes, current, path[0]).Some? &&
      MeetsLink(nodes, FetchChild(nodes, current, path[0]).value, path[1..])))
  }

  lemma {:induction false} WalksAgreeFrom(nodes: Nodes, current: Id, path: Segments, hops: nat, followFinal: bool)
    requires current in nodes && hops <= MAX_LINK_HOPS && !MeetsLink(nodes, current, path)
    ensures var x := Walk(nodes, current, path);
            (x.Some? ==> x.value in nodes) &&
            (x.None? || !followFinal || !nodes[x.value].kind.Symlink? ==>
              Follow(nodes, current, path, hops, 0, followFinal) == if x.Some? then Found(x.value) else NotFound)
    decreases |path|
  {
    if path != [] && nodes[current].kind.Directory? {
      var child := FetchChild(nodes, current, path[0]);
      if child.Some? { WalksAgreeFrom(nodes, child.value, path[1..], hops, followFinal); }
    }
  }

  lemma {:induction false} WalkedMeetsNoLink(nodes: Nodes, current: Id, path: Segments)
    requires current in nodes && Walk(nodes, current, path).Some?
    ensures !MeetsLink(nodes, current, path)
    decreases |path|
  {
    if path != [] { WalkedMeetsNoLink(nodes, FetchChild(nodes, current, path[0]).value, path[1..]); }
  }

  /** A plainly resolved path is found by both walks, unless its last node is a link that must be followed. */
  lemma WalksAgreeWhenResolved(nodes: Nodes, root: Id, path: Segments, x: Id, followFinal: bool)
    requires Sound(nodes, root) && Resolved(nodes, path) == Some(x)
    requires followFinal ==> x in nodes && !nodes[x].kind.Symlink?
    ensures Followed(nodes, path, followFinal) == Found(x)
  {
    RootIsFetched(nodes, root);
    WalkedMeetsNoLink(nodes, root, path);
    WalksAgreeFrom(nodes, root, path, 0, followFinal);
  }

  lemma {:induction false} NoLinksMet(nodes: Nodes, current: Id, path: Segments)
    requires current in nodes && forall x :: x in nodes ==> !nodes[x].kind.Symlink?
    ensures !MeetsLink(nodes, current, path)
    decreases |path|
  {
    if path != [] && nodes[current].kind.Directory? && FetchChild(nodes, current, path[0]).Some? {
      NoLinksMet(nodes, FetchChild(nodes, current, path[0]).value, path[1..]);
    }
  }

  /** Without symbolic links the two walks agree on every path. */
  lemma WalksAgreeWithoutLinks(nodes: Nodes, root: Id, path: Segments, followFinal: bool)
    requires Sound(nodes, root) && forall x :: x in nodes ==> !nodes[x].kind.Symlink?
    ensures Followed(nodes, path, followFinal) ==
            if Resolved(nodes, path).Some? then Found(Resolved(nodes, path).value) else NotFound
  {
    RootIsFetched(nodes, root);
    NoLinksMet(nodes, root, path);
    WalksAgreeFrom(nodes, root, path, 0, followFinal);
  }
}
