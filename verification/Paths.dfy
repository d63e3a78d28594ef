/**
 Virtual paths and link targets (crates/fslite-core/src/path.rs).

 The code works on canonical strings.  `Segs` gives the meaning of such a string
 as a sequence of segments, and every string operation is related to the plain
 operation on segments.
 */
module Paths {
  import opened Common

  type Segments = seq<string>

  // --- strings and their pieces ---------------------------------------------

  /** `str::split('/')`: always at least one piece. */
  function Split(s: string): (pieces: Segments)
    ensures |pieces| > 0
    ensures forall i :: 0 <= i < |pieces| ==> '/' !in pieces[i]
  {
    if s == "" then [""]
    else
      var rest := Split(s[1..]);
      if s[0] == '/' then [""] + rest else [[s[0]] + rest[0]] + rest[1..]
  }

  function Join(segs: Segments): string {
    if segs == [] then "" else if |segs| == 1 then segs[0] else segs[0] + "/" + Join(segs[1..])
  }

  predicate Nulless(s: string) { '\0' !in s }

  /** A segment of a canonical path. */
  predicate Segment(s: string) { s != "" && s != "." && s != ".." && '/' !in s && Nulless(s) }

  predicate AllSegments(segs: Segments) { forall i :: 0 <= i < |segs| ==> Segment(segs[i]) }

  predicate SlashFree(segs: Segments) { forall i :: 0 <= i < |segs| ==> '/' !in segs[i] }

  lemma {:induction false} SplitSlash(x: string, rest: string)
    requires '/' !in x
    ensures Split(x + "/" + rest) == [x] + Split(rest)
  {
    if x == "" {
      assert x + "/" + rest == "/" + rest;
    } else {
      assert (x + "/" + rest)[1..] == x[1..] + "/" + rest;
      SplitSlash(x[1..], rest);
      assert [x[0]] + x[1..] == x;
    }
  }

  lemma {:induction false} SplitPlain(x: string)
    requires '/' !in x
    ensures Split(x) == [x]
  {
    if x != "" {
      SplitPlain(x[1..]);
      assert [x[0]] + x[1..] == x;
    }
  }

  /** Splitting undoes joining. */
  lemma {:induction false} SplitJoin(segs: Segments)
    requires segs != [] && SlashFree(segs)
    ensures Split(Join(segs)) == segs
  {
    if |segs| == 1 {
      SplitPlain(segs[0]);
    } else {
      assert SlashFree(segs[1..]);
      SplitJoin(segs[1..]);
      SplitSlash(segs[0], Join(segs[1..]));
    }
  }

  lemma {:induction false} SplitNulless(s: string)
    requires Nulless(s)
    ensures forall i :: 0 <= i < |Split(s)| ==> Nulless(Split(s)[i])
  {
    if s != "" {
      assert Nulless(s[1..]);
      SplitNulless(s[1..]);
    }
  }

  function Filter(segs: Segments, drop: set<string>): (kept: Segments)
    ensures forall i :: 0 <= i < |kept| ==> kept[i] in segs && kept[i] !in drop
  {
    if segs == [] then []
    else (if segs[0] in drop then [] else [segs[0]]) + Filter(segs[1..], drop)
  }

  lemma {:induction false} FilterKeepsAll(segs: Segments, drop: set<string>)
    requires forall i :: 0 <= i < |segs| ==> segs[i] !in drop
    ensures Filter(segs, drop) == segs
  {
    if segs != [] {
      assert forall i :: 0 <= i < |segs[1..]| ==> segs[1..][i] == segs[i + 1];
      FilterKeepsAll(segs[1..], drop);
    }
  }

  // --- the two normalisers ---------------------------------------------------

  function Pop(stack: Segments): Segments { if stack == [] then [] else stack[..|stack| - 1] }

  /** One step of `normalize`: `..` never climbs above the root. */
  function Push(stack: Segments, segment: string): Segments {
    if segment == "" || segment == "." then stack
    else if segment == ".." then Pop(stack)
    else stack + [segment]
  }

  function Clamp(stack: Segments, raw: Segments): Segments
    decreases |raw|
  {
    if raw == [] then stack else Clamp(Push(stack, raw[0]), raw[1..])
  }

  /** One step of `normalize_relative`: a `..` with nothing to cancel is kept. */
  function PushRelative(stack: Segments, segment: string): Segments {
    if segment == "" || segment == "." then stack
    else if segment == ".." && stack != [] && stack[|stack| - 1] != ".." then Pop(stack)
    else stack + [segment]
  }

  function Relative(stack: Segments, raw: Segments): Segments
    decreases |raw|
  {
    if raw == [] then stack else Relative(PushRelative(stack, raw[0]), raw[1..])
  }

  function Slashed(segs: Segments): string {
    if segs == [] then "" else "/" + segs[0] + Slashed(segs[1..])
  }

  /** The canonical absolute string of a list of segments. */
  function Render(segs: Segments): string { if segs == [] then "/" else Slashed(segs) }

  function RenderRelative(segs: Segments): string { if segs == [] then "." else Join(segs) }

  lemma {:induction false} SlashedAppend(a: Segments, b: Segments)
    ensures Slashed(a + b) == Slashed(a) + Slashed(b)
  {
    if a == [] {
      assert a + b == b;
    } else {
      SlashedAppend(a[1..], b);
      assert (a + b)[1..] == a[1..] + b;
    }
  }

  method Normalize(segments: Segments) returns (canonical: string)
    ensures canonical == Render(Clamp([], segments))
  {
    var normalized: Segments := [];
    for i := 0 to |segments|
      invariant Clamp(normalized, segments[i..]) == Clamp([], segments)
    {
      assert segments[i..][1..] == segments[i + 1..];
      match segments[i]
      case "" =>
      case "." =>
      case ".." => normalized := Pop(normalized);
      case _ => normalized := normalized + [segments[i]];
    }
    if normalized == [] { return "/"; }
    canonical := "";
    for i := 0 to |normalized|
      invariant canonical == Slashed(normalized[..i])
    {
      SlashedAppend(normalized[..i], [normalized[i]]);
      assert normalized[..i + 1] == normalized[..i] + [normalized[i]];
      canonical := canonical + "/" + normalized[i];
    }
    assert normalized[..|normalized|] == normalized;
  }

  method NormalizeRelative(segments: Segments) returns (canonical: string)
    ensures canonical == RenderRelative(Relative([], segments))
  {
    var normalized: Segments := [];
    for i := 0 to |segments|
      invariant Relative(normalized, segments[i..]) == Relative([], segments)
    {
      assert segments[i..][1..] == segments[i + 1..];
      var segment := segments[i];
      if segment == "" || segment == "." {
      } else if segment == ".." && normalized != [] && normalized[|normalized| - 1] != ".." {
        normalized := Pop(normalized);
      } else {
        normalized := normalized + [segment];
      }
    }
    if normalized == [] { return "."; }
    return Join(normalized);
  }

  lemma {:induction false} ClampAppend(stack: Segments, a: Segments, b: Segments)
    ensures Clamp(stack, a + b) == Clamp(Clamp(stack, a), b)
    decreases |a|
  {
    if a == [] {
      assert a + b == b;
    } else {
      assert (a + b)[1..] == a[1..] + b;
      ClampAppend(Push(stack, a[0]), a[1..], b);
    }
  }

  lemma {:induction false} ClampOfSegments(stack: Segments, segs: Segments)
    requires AllSegments(segs)
    ensures Clamp(stack, segs) == stack + segs
    decreases |segs|
  {
    if segs != [] {
      assert AllSegments(segs[1..]);
      ClampOfSegments(stack + [segs[0]], segs[1..]);
      assert stack + [segs[0]] + segs[1..] == stack + segs;
    }
  }

  lemma {:induction false} ClampCanonical(stack: Segments, raw: Segments)
    requires AllSegments(stack) && SlashFree(raw) && forall i :: 0 <= i < |raw| ==> Nulless(raw[i])
    ensures AllSegments(Clamp(stack, raw))
    decreases |raw|
  {
    if raw != [] {
      assert SlashFree(raw[1..]) && forall i :: 0 <= i < |raw[1..]| ==> raw[1..][i] == raw[i + 1];
      ClampCanonical(Push(stack, raw[0]), raw[1..]);
    }
  }

  /** A normalised relative target: some `..`, then proper segments only. */
  predicate UpsThenNames(segs: Segments, ups: nat)
  {
    ups <= |segs| && (forall i :: 0 <= i < ups ==> segs[i] == "..") && AllSegments(segs[ups..])
  }

  lemma {:induction false} RelativeShape(stack: Segments, ups: nat, raw: Segments) returns (ups': nat)
    requires UpsThenNames(stack, ups) && SlashFree(raw) && forall i :: 0 <= i < |raw| ==> Nulless(raw[i])
    ensures UpsThenNames(Relative(stack, raw), ups')
    decreases |raw|
  {
    if raw == [] { return ups; }
    var seg := raw[0];
    var next := PushRelative(stack, seg);
    var n := ups;
    if seg == "" || seg == "." {
    } else if seg == ".." {
      if ups < |stack| {
        assert Segment(stack[ups..][|stack| - 1 - ups]);
        assert next[ups..] == stack[ups..][..|stack| - ups - 1];
      } else {
        n := ups + 1;
        assert next[n..] == [];
      }
    } else {
      assert next[ups..] == stack[ups..] + [seg];
    }
    assert UpsThenNames(next, n);
    assert SlashFree(raw[1..]) && forall i :: 0 <= i < |raw[1..]| ==> raw[1..][i] == raw[i + 1];
    ups' := RelativeShape(next, n, raw[1..]);
  }

  lemma {:induction false} RelativeStep(base: Segments, stack: Segments, ups: nat, segment: string)
    requires UpsThenNames(stack, ups)
    ensures Clamp(base, PushRelative(stack, segment)) == Push(Clamp(base, stack), segment)
  {
    if segment == ".." && stack != [] && stack[|stack| - 1] != ".." {
      var last := stack[|stack| - 1];
      assert Segment(stack[ups..][|stack| - 1 - ups]);
      assert stack == Pop(stack) + [last];
      ClampAppend(base, Pop(stack), [last]);
      assert Clamp(base, stack) == Clamp(base, Pop(stack)) + [last];
    } else if segment != "" && segment != "." {
      ClampAppend(base, stack, [segment]);
    }
  }

  lemma {:induction false} RelativePreservesFrom(base: Segments, stack: Segments, ups: nat, raw: Segments)
    requires UpsThenNames(stack, ups) && SlashFree(raw) && forall i :: 0 <= i < |raw| ==> Nulless(raw[i])
    ensures Clamp(base, Relative(stack, raw)) == Clamp(Clamp(base, stack), raw)
    decreases |raw|
  {
    if raw != [] {
      RelativeStep(base, stack, ups, raw[0]);
      var n := RelativeShape(stack, ups, [raw[0]]);
      assert Relative(stack, [raw[0]]) == PushRelative(stack, raw[0]);
      assert SlashFree(raw[1..]) && forall i :: 0 <= i < |raw[1..]| ==> raw[1..][i] == raw[i + 1];
      RelativePreservesFrom(base, PushRelative(stack, raw[0]), n, raw[1..]);
    }
  }

  // --- VirtualPath -----------------------------------------------------------

  datatype VirtualPath = VirtualPath(canonical: string)

  /** The segments of a canonical string, as `VirtualPath::segments` reads them. */
  function Segs(p: VirtualPath): Segments
    requires p.canonical != ""
  {
    Filter(Split(p.canonical[1..]), {""})
  }

  predicate IsCanonical(p: VirtualPath) {
    p.canonical != "" && AllSegments(Segs(p)) && p.canonical == Render(Segs(p))
  }

  lemma {:induction false} SlashedIsJoin(segs: Segments)
    requires segs != []
    ensures Slashed(segs) == "/" + Join(segs)
  {
    if |segs| > 1 { SlashedIsJoin(segs[1..]); }
  }

  /** Rendering and reading back are inverse. */
  lemma RenderRoundTrip(segs: Segments)
    requires AllSegments(segs)
    ensures Segs(VirtualPath(Render(segs))) == segs && IsCanonical(VirtualPath(Render(segs)))
  {
    var p := VirtualPath(Render(segs));
    if segs == [] {
      assert p.canonical[1..] == "" && [""][1..] == [];
      assert Filter([""], {""}) == [];
    } else {
      SlashedIsJoin(segs);
      assert p.canonical[1..] == Join(segs);
      SplitJoin(segs);
      FilterKeepsAll(segs, {""});
    }
  }

  datatype PathError = InvalidPathOrName

  method Parse(input: string) returns (r: Result<VirtualPath, PathError>)
    ensures r.Ok? <==> input != "" && input[0] == '/' && Nulless(input)
    ensures r.Ok? ==> IsCanonical(r.value) && Segs(r.value) == Clamp([], Split(input))
  {
    if input == "" || input[0] != '/' || '\0' in input { return Err(InvalidPathOrName); }
    var canonical := Normalize(Split(input));
    SplitNulless(input);
    ClampCanonical([], Split(input));
    RenderRoundTrip(Clamp([], Split(input)));
    return Ok(VirtualPath(canonical));
  }

  lemma JoinMeaning(segs: Segments, relative: string)
    requires AllSegments(segs) && Nulless(relative)
    ensures var joined := Clamp([], segs + Split(relative));
            joined == Clamp(segs, Split(relative)) && AllSegments(joined) &&
            Segs(VirtualPath(Render(joined))) == joined && IsCanonical(VirtualPath(Render(joined)))
  {
    SplitNulless(relative);
    ClampAppend([], segs, Split(relative));
    ClampOfSegments([], segs);
    assert [] + segs == segs;
    ClampCanonical(segs, Split(relative));
    RenderRoundTrip(Clamp(segs, Split(relative)));
  }

  method JoinPath(p: VirtualPath, relative: string) returns (r: Result<VirtualPath, PathError>)
    requires IsCanonical(p)
    ensures r.Ok? <==> !(relative != "" && relative[0] == '/') && Nulless(relative)
    ensures r.Ok? ==> IsCanonical(r.value) && Segs(r.value) == Clamp(Segs(p), Split(relative))
  {
    if (relative != "" && relative[0] == '/') || '\0' in relative { return Err(InvalidPathOrName); }
    var canonical := Normalize(Segs(p) + Split(relative));
    JoinMeaning(Segs(p), relative);
    return Ok(VirtualPath(canonical));
  }

  /** Parsing a canonical path changes nothing. */
  lemma ParseIsIdempotent(p: VirtualPath)
    requires IsCanonical(p)
    ensures Clamp([], Split(p.canonical)) == Segs(p)
  {
    var segs := Segs(p);
    if segs == [] {
      assert Split("/") == [""] + Split("");
      assert Clamp([], Split("/")) == [] by {
        assert Split("/")[1..] == Split("");
        assert Clamp([], Split("")) == [];
      }
    } else {
      SlashedIsJoin(segs);
      assert "" + "/" + Join(segs) == p.canonical;
      SplitSlash("", Join(segs));
      SplitJoin(segs);
      assert Split(p.canonical)[1..] == segs;
      ClampOfSegments([], segs);
    }
  }

  /** The index of the last `/`. */
  function LastSlash(s: string): (i: int)
    ensures -1 <= i < |s|
    ensures i >= 0 ==> s[i] == '/'
    ensures forall k :: i < k < |s| ==> s[k] != '/'
  {
    if s == "" then -1 else if s[|s| - 1] == '/' then |s| - 1 else LastSlash(s[..|s| - 1])
  }

  function Name(p: VirtualPath): Option<string> {
    if |p.canonical| == 1 then None else Some(p.canonical[LastSlash(p.canonical) + 1..])
  }

  function Parent(p: VirtualPath): Option<VirtualPath> {
    var separator := LastSlash(p.canonical);
    if separator < 0 then None
    else if separator == 0 then (if |p.canonical| == 1 then None else Some(VirtualPath("/")))
    else Some(VirtualPath(p.canonical[..separator]))
  }

  lemma {:induction false} LastSlashOf(a: string, b: string)
    requires '/' !in b
    ensures LastSlash(a + "/" + b) == |a|
  {
    var s := a + "/" + b;
    assert s[|a|] == '/';
    forall k | |a| < k < |s| ensures s[k] != '/' { assert s[k] == b[k - |a| - 1]; }
  }

  /** `name` and `parent` are the last segment and all the others. */
  lemma NameAndParent(p: VirtualPath)
    requires IsCanonical(p)
    ensures Segs(p) == [] ==> Name(p).None? && Parent(p).None?
    ensures Segs(p) != [] ==> Name(p) == Some(Segs(p)[|Segs(p)| - 1])
    ensures Segs(p) != [] ==> Parent(p).Some? && IsCanonical(Parent(p).value) && Segs(Parent(p).value) == Pop(Segs(p))
  {
    var segs := Segs(p);
    if segs != [] {
      var last, front := segs[|segs| - 1], Pop(segs);
      assert segs == front + [last];
      SlashedAppend(front, [last]);
      assert p.canonical == Slashed(front) + "/" + last;
      LastSlashOf(Slashed(front), last);
      assert Segment(last);
      assert AllSegments(front);
      RenderRoundTrip(front);
      if front != [] { assert p.canonical[..|Slashed(front)|] == Slashed(front); }
    }
  }

  // --- the lexical ancestry test ---------------------------------------------

  predicate StartsWith(s: string, prefix: string) { prefix <= s }

  /** `is_same_or_descendant` of mutate.rs. */
  predicate IsSameOrDescendant(ancestor: VirtualPath, candidate: VirtualPath) {
    candidate.canonical == ancestor.canonical ||
    StartsWith(candidate.canonical, if ancestor.canonical == "/" then "/" else ancestor.canonical + "/")
  }

  lemma LongerHeadHasSlash(x: string, u: string, y: string, v: string)
    requires |y| < |x| && x + u <= y + v && (v == "" || v[0] == '/')
    ensures '/' in x
  {
    assert (y + v)[|y|] == '/';
    assert x[|y|] == (x + u)[|y|];
  }

  lemma {:induction false} SlashFreeHeads(x: string, u: string, y: string, v: string)
    requires '/' !in x && '/' !in y && u != "" && u[0] == '/' && (v == "" || v[0] == '/')
    ensures x + u <= y + v <==> x == y && u <= v
  {
    if x + u <= y + v {
      assert (x + u)[|x|] == '/' && (y + v)[|x|] == '/';
      assert |x| >= |y|;
      if |x| > |y| { LongerHeadHasSlash(x, u, y, v); }
      assert x == (x + u)[..|x|] == (y + v)[..|x|] == y;
      assert u == (x + u)[|x|..] && v == (y + v)[|x|..];
      assert u == v[..|u|];
    }
  }

  lemma PrefixStep(x: string, u: string, y: string, v: string)
    requires '/' !in x && '/' !in y && (u == "" || u[0] == '/') && (v == "" || v[0] == '/')
    ensures "/" + x + u + "/" <= "/" + y + v <==> x == y && u + "/" <= v
  {
    SlashFreeHeads(x, u + "/", y, v);
    var left, right := x + (u + "/"), y + v;
    assert "/" + x + u + "/" == "/" + left && "/" + y + v == "/" + right;
    assert ("/" + left)[1..] == left && ("/" + right)[1..] == right;
    if left <= right { assert "/" + left <= "/" + right; }
    if "/" + left <= "/" + right { assert left == ("/" + right)[1..][..|left|]; }
  }

  lemma HeadTail(a: Segments, c: Segments)
    requires a != [] && c != []
    ensures a < c <==> a[0] == c[0] && a[1..] < c[1..]
  {
    assert a == [a[0]] + a[1..] && c == [c[0]] + c[1..];
  }

  lemma {:induction false} SlashedPrefix(a: Segments, c: Segments)
    requires SlashFree(a) && SlashFree(c)
    ensures Slashed(a) + "/" <= Slashed(c) <==> a < c
  {
    if a == [] {
      assert Slashed(a) + "/" == "/";
    } else if c == [] {
      assert |Slashed(a) + "/"| > |Slashed(c)|;
    } else {
      assert SlashFree(a[1..]) && SlashFree(c[1..]);
      SlashedPrefix(a[1..], c[1..]);
      PrefixStep(a[0], Slashed(a[1..]), c[0], Slashed(c[1..]));
      HeadTail(a, c);
    }
  }

  lemma RenderInjective(a: Segments, c: Segments)
    requires AllSegments(a) && AllSegments(c) && Render(a) == Render(c)
    ensures a == c
  {
    RenderRoundTrip(a);
    RenderRoundTrip(c);
  }

  lemma SlashedLength(segs: Segments)
    requires segs != [] && Segment(segs[0])
    ensures |Slashed(segs)| >= 2
  {
  }

  lemma RenderedTest(a: Segments, c: Segments)
    requires AllSegments(a) && AllSegments(c)
    ensures IsSameOrDescendant(VirtualPath(Render(a)), VirtualPath(Render(c))) <==> a <= c
  {
    if a == [] {
      assert Render(c)[0] == '/';
    } else {
      SlashedLength(a);
      assert SlashFree(a) && SlashFree(c);
      SlashedPrefix(a, c);
      if Render(a) == Render(c) { RenderInjective(a, c); }
      assert Render(a) != "/";
      assert a <= c <==> a == c || a < c;
      if c == [] { assert |Render(a) + "/"| > |Render(c)|; }
    }
  }

  /** The string test decides exactly the prefix order of segments. */
  lemma LexicalTest(ancestor: VirtualPath, candidate: VirtualPath)
    requires IsCanonical(ancestor) && IsCanonical(candidate)
    ensures IsSameOrDescendant(ancestor, candidate) <==> Segs(ancestor) <= Segs(candidate)
  {
    RenderedTest(Segs(ancestor), Segs(candidate));
    assert ancestor == VirtualPath(Render(Segs(ancestor)));
    assert candidate == VirtualPath(Render(Segs(candidate)));
  }

  // --- LinkTarget ------------------------------------------------------------

  datatype LinkTarget = LinkTarget(canonical: string)

  function ParseTarget(input: string): Result<LinkTarget, PathError> {
    if input == "" || '\0' in input then Err(InvalidPathOrName)
    else if input[0] == '/' then Ok(LinkTarget(Render(Clamp([], Split(input)))))
    else Ok(LinkTarget(RenderRelative(Relative([], Split(input)))))
  }

  predicate IsAbsolute(t: LinkTarget) { t.canonical != "" && t.canonical[0] == '/' }

  /** `split_segments` of resolve.rs. */
  function SplitSegments(path: string): Segments { Filter(Split(path), {"", "."}) }

  lemma ReadAbsolute(segs: Segments)
    requires AllSegments(segs)
    ensures Render(segs)[0] == '/' && SplitSegments(Render(segs)) == segs
  {
    if segs == [] {
      SplitSlash("", "");
      SplitPlain("");
      assert "" + "/" + "" == "/";
      assert [""] + [""] == ["", ""] && ["", ""][1..] == [""] && [""][1..] == [];
      assert Filter([""], {"", "."}) == [];
    } else {
      SlashedIsJoin(segs);
      assert "" + "/" + Join(segs) == Render(segs);
      SplitSlash("", Join(segs));
      SplitJoin(segs);
      FilterKeepsAll(segs, {"", "."});
      assert ([""] + segs)[1..] == segs;
    }
  }

  predicate Kept(segs: Segments) { forall i :: 0 <= i < |segs| ==> segs[i] != "" && segs[i] != "." && '/' !in segs[i] }

  lemma ReadRelative(segs: Segments)
    requires Kept(segs)
    ensures RenderRelative(segs) != "" && RenderRelative(segs)[0] != '/' && SplitSegments(RenderRelative(segs)) == segs
  {
    if segs == [] {
      SplitPlain(".");
      assert ["."][1..] == [];
      assert Filter(["."], {"", "."}) == [];
    } else {
      SplitJoin(segs);
      FilterKeepsAll(segs, {"", "."});
      assert Join(segs)[0] == segs[0][0];
    }
  }

  lemma UpsThenNamesKept(segs: Segments, ups: nat)
    requires UpsThenNames(segs, ups)
    ensures Kept(segs)
  {
    forall i | 0 <= i < |segs| ensures segs[i] != "" && segs[i] != "." && '/' !in segs[i] {
      if i >= ups { assert segs[i] == segs[ups..][i - ups]; }
    }
  }

  /** What a raw absolute or relative target means to the resolver. */
  lemma TargetSegments(input: string)
    requires ParseTarget(input).Ok?
    ensures var t := ParseTarget(input).value;
            IsAbsolute(t) == (input[0] == '/') &&
            SplitSegments(t.canonical) == if IsAbsolute(t) then Clamp([], Split(input)) else Relative([], Split(input))
  {
    SplitNulless(input);
    if input[0] == '/' {
      ClampCanonical([], Split(input));
      ReadAbsolute(Clamp([], Split(input)));
    } else {
      var ups := RelativeShape([], 0, Split(input));
      UpsThenNamesKept(Relative([], Split(input)), ups);
      ReadRelative(Relative([], Split(input)));
    }
  }

  /** Normalising a relative target keeps its meaning against every directory. */
  lemma RelativePreservesMeaning(base: Segments, raw: string)
    requires ParseTarget(raw).Ok? && raw[0] != '/'
    ensures Clamp(base, Relative([], Split(raw))) == Clamp(base, Split(raw))
    ensures Clamp(base, Split(ParseTarget(raw).value.canonical)) == Clamp(base, Split(raw))
  {
    SplitNulless(raw);
    RelativePreservesFrom(base, [], 0, Split(raw));
    var segs := Relative([], Split(raw));
    if segs == [] {
      SplitPlain(".");
      assert Clamp(base, ["."]) == Clamp(base, []);
    } else {
      var ups := RelativeShape([], 0, Split(raw));
      UpsThenNamesKept(segs, ups);
      SplitJoin(segs);
    }
  }

  /** Climbing `ups` levels and walking down the rest is what the normalised target means. */
  lemma {:induction false} ClampClimbs(base: Segments, segs: Segments, ups: nat)
    requires UpsThenNames(segs, ups)
    ensures Clamp(base, segs) == base[..Max(0, |base| - ups)] + segs[ups..]
    decreases ups
  {
    if ups == 0 {
      assert segs[0..] == segs;
      ClampOfSegments(base, segs);
      assert base[..|base|] == base;
    } else {
      assert segs[1..][ups - 1..] == segs[ups..];
      assert forall i :: 0 <= i < ups - 1 ==> segs[1..][i] == segs[i + 1];
      ClampClimbs(Pop(base), segs[1..], ups - 1);
      if base != [] { assert Pop(base)[..Max(0, |base| - ups)] == base[..Max(0, |base| - ups)]; }
    }
  }
}
