/**
 Path patterns with `**` (crates/fslite-sqlite/src/search.rs).

 `GlobMatches` is the recursive meaning of a pattern.  `GlobMatch` is the dynamic
 program of the source, and `literal_prefix` splits off the leading literals that
 anchor the subtree walk.
 */
module Glob {
  import opened Common
  import opened Paths
  import opened Wildcard

  datatype PatternSegment = Literal(name: string) | Glob(pattern: string) | DoubleStar

  type Pattern = seq<PatternSegment>

  predicate SegmentMatches(segment: PatternSegment, name: string)
    requires !segment.DoubleStar?
  {
    match segment
    case Literal(expected) => expected == name
    case Glob(pattern) => WildcardMatches(pattern, name)
  }

  /** What a pattern means: `**` takes zero or more whole segments. */
  predicate GlobMatches(pattern: Pattern, path: Segments)
    decreases |pattern|, |path|
  {
    if pattern == [] then path == []
    else if pattern[0].DoubleStar? then
      GlobMatches(pattern[1..], path) || (path != [] && GlobMatches(pattern, path[1..]))
    else path != [] && SegmentMatches(pattern[0], path[0]) && GlobMatches(pattern[1..], path[1..])
  }

  // --- the meaning, read from the other end ----------------------------------

  lemma {:induction false} GlobJoin(p: Pattern, q: Pattern, path: Segments, k: nat)
    requires k <= |path| && GlobMatches(p, path[..k]) && GlobMatches(q, path[k..])
    ensures GlobMatches(p + q, path)
    decreases |p|, k
  {
    if p == [] {
      assert p + q == q && path[k..] == path;
    } else {
      assert (p + q)[1..] == p[1..] + q;
      if k > 0 {
        assert path[..k][1..] == path[1..][..k - 1] && path[k..] == path[1..][k - 1..];
        if p[0].DoubleStar? {
          if GlobMatches(p[1..], path[..k]) { GlobJoin(p[1..], q, path, k); }
          else { GlobJoin(p, q, path[1..], k - 1); }
        } else {
          GlobJoin(p[1..], q, path[1..], k - 1);
        }
      } else {
        GlobJoin(p[1..], q, path, k);
      }
    }
  }

  lemma {:induction false} GlobSplit(p: Pattern, q: Pattern, path: Segments) returns (k: nat)
    requires GlobMatches(p + q, path)
    ensures k <= |path| && GlobMatches(p, path[..k]) && GlobMatches(q, path[k..])
    decreases |p|, |path|
  {
    if p == [] {
      assert p + q == q && path[0..] == path;
      k := 0;
    } else {
      assert (p + q)[1..] == p[1..] + q;
      if p[0].DoubleStar? && GlobMatches(p[1..] + q, path) {
        k := GlobSplit(p[1..], q, path);
      } else {
        var j;
        if p[0].DoubleStar? { j := GlobSplit(p, q, path[1..]); } else { j := GlobSplit(p[1..], q, path[1..]); }
        k := j + 1;
        assert path[..k][1..] == path[1..][..j] && path[k..] == path[1..][j..];
      }
    }
  }

  lemma {:induction false} DoubleStarTakesAll(path: Segments)
    ensures GlobMatches([DoubleStar], path)
  {
    if path != [] { DoubleStarTakesAll(path[1..]); }
    assert [DoubleStar][1..] == [];
  }

  lemma LastDoubleStar(p: Pattern, path: Segments)
    ensures GlobMatches(p + [DoubleStar], path) <==> exists k :: 0 <= k <= |path| && GlobMatches(p, path[..k])
  {
    if GlobMatches(p + [DoubleStar], path) {
      var k := GlobSplit(p, [DoubleStar], path);
    }
    if k :| 0 <= k <= |path| && GlobMatches(p, path[..k]) {
      DoubleStarTakesAll(path[k..]);
      GlobJoin(p, [DoubleStar], path, k);
    }
  }

  lemma GlobLastDoubleStar(p: Pattern, path: Segments)
    ensures GlobMatches(p + [DoubleStar], path) ==
            (GlobMatches(p, path) || (path != [] && GlobMatches(p + [DoubleStar], path[..|path| - 1])))
  {
    LastDoubleStar(p, path);
    assert path[..|path|] == path;
    if path != [] {
      var front := path[..|path| - 1];
      LastDoubleStar(p, front);
      assert forall k :: 0 <= k <= |front| ==> front[..k] == path[..k];
    }
  }

  lemma GlobLastOne(p: Pattern, last: PatternSegment, path: Segments)
    requires !last.DoubleStar?
    ensures GlobMatches(p + [last], path) ==
            (path != [] && GlobMatches(p, path[..|path| - 1]) && SegmentMatches(last, path[|path| - 1]))
  {
    var n := |path|;
    assert [last][1..] == [];
    if GlobMatches(p + [last], path) {
      var k := GlobSplit(p, [last], path);
      assert path[k..][1..] == [] && k == n - 1;
    }
    if path != [] && GlobMatches(p, path[..n - 1]) && SegmentMatches(last, path[n - 1]) {
      assert path[n - 1..][1..] == [];
      GlobJoin(p, [last], path, n - 1);
    }
  }

  /** One more pattern segment at the end: the recurrence the dynamic program fills in. */
  lemma GlobLast(p: Pattern, last: PatternSegment, path: Segments)
    ensures last.DoubleStar? ==>
      GlobMatches(p + [last], path) ==
      (GlobMatches(p, path) || (path != [] && GlobMatches(p + [last], path[..|path| - 1])))
    ensures !last.DoubleStar? ==>
      GlobMatches(p + [last], path) ==
      (path != [] && GlobMatches(p, path[..|path| - 1]) && SegmentMatches(last, path[|path| - 1]))
  {
    if last.DoubleStar? { GlobLastDoubleStar(p, path); } else { GlobLastOne(p, last, path); }
  }

  /** The value of one cell, from the cells above it and to its left. */
  lemma Cell(pattern: Pattern, candidate: Segments, i: nat, j: nat)
    requires 0 < i <= |pattern| && j <= |candidate|
    ensures var above, last := pattern[..i - 1], pattern[i - 1];
            GlobMatches(pattern[..i], candidate[..j]) ==
            if last.DoubleStar? then GlobMatches(above, candidate[..j]) ||
                (j > 0 && GlobMatches(pattern[..i], candidate[..j - 1]))
            else j > 0 && GlobMatches(above, candidate[..j - 1]) && SegmentMatches(last, candidate[j - 1])
  {
    GlobLast(pattern[..i - 1], pattern[i - 1], candidate[..j]);
    assert pattern[..i] == pattern[..i - 1] + [pattern[i - 1]];
    if j > 0 { assert candidate[..j][..j - 1] == candidate[..j - 1]; }
  }

  lemma FirstRow(pattern: Pattern, candidate: Segments)
    ensures GlobMatches(pattern[..0], candidate[..0])
    ensures forall b :: 0 < b <= |candidate| ==> !GlobMatches(pattern[..0], candidate[..b])
  {
  }

  /** The dynamic program decides the recursive meaning. */
  method GlobMatch(pattern: Pattern, candidate: Segments) returns (matched: bool)
    ensures matched == GlobMatches(pattern, candidate)
  {
    hide GlobMatches, SegmentMatches;
    var plen, clen := |pattern|, |candidate|;
    var dp := new bool[plen + 1, clen + 1]((_, _) => false);
    dp[0, 0] := true;
    FirstRow(pattern, candidate);
    for i := 1 to plen + 1
      invariant forall a, b :: 0 <= a <= plen && 0 < b <= clen ==> !dp[a, b]
      invariant forall a :: i <= a <= plen ==> !dp[a, 0]
      invariant forall a :: 0 <= a < i ==> dp[a, 0] == GlobMatches(pattern[..a], candidate[..0])
    {
      Cell(pattern, candidate, i, 0);
      if pattern[i - 1].DoubleStar? { dp[i, 0] := dp[i - 1, 0]; }
    }
    for i := 1 to plen + 1
      invariant forall a :: 0 <= a <= plen ==> dp[a, 0] == GlobMatches(pattern[..a], candidate[..0])
      invariant forall a, b :: 0 <= a < i && 0 <= b <= clen ==> dp[a, b] == GlobMatches(pattern[..a], candidate[..b])
    {
      for j := 1 to clen + 1
        invariant forall a :: 0 <= a <= plen ==> dp[a, 0] == GlobMatches(pattern[..a], candidate[..0])
        invariant forall a, b :: 0 <= a < i && 0 <= b <= clen ==> dp[a, b] == GlobMatches(pattern[..a], candidate[..b])
        invariant forall b :: 0 <= b < j ==> dp[i, b] == GlobMatches(pattern[..i], candidate[..b])
      {
        Cell(pattern, candidate, i, j);
        if pattern[i - 1].DoubleStar? {
          dp[i, j] := dp[i - 1, j] || dp[i, j - 1];
        } else {
          dp[i, j] := dp[i - 1, j - 1] && SegmentMatches(pattern[i - 1], candidate[j - 1]);
        }
      }
    }
    assert pattern[..plen] == pattern && candidate[..clen] == candidate;
    return dp[plen, clen];
  }

  // --- compiling and anchoring -----------------------------------------------

  function CompileSegment(segment: string): PatternSegment {
    if segment == "**" then DoubleStar
    else if '*' in segment || '?' in segment then Glob(segment)
    else Literal(segment)
  }

  function CompileAll(segments: Segments): Pattern {
    seq(|segments|, i requires 0 <= i < |segments| => CompileSegment(segments[i]))
  }

  function CompilePattern(pattern: string): Result<Pattern, PathError> {
    if pattern == "" || pattern[0] != '/' then Err(InvalidPathOrName)
    else Ok(CompileAll(Filter(Split(pattern[1..]), {""})))
  }

  function Literals(names: Segments): (p: Pattern) { seq(|names|, i requires 0 <= i < |names| => Literal(names[i])) }

  /** How many leading segments are literal. */
  function LiteralCount(p: Pattern): (n: nat)
    ensures n <= |p| && (forall i :: 0 <= i < n ==> p[i].Literal?) && (n < |p| ==> !p[n].Literal?)
  {
    if p != [] && p[0].Literal? then 1 + LiteralCount(p[1..]) else 0
  }

  function Names(p: Pattern): Segments
    requires forall i :: 0 <= i < |p| ==> p[i].Literal?
  {
    seq(|p|, i requires 0 <= i < |p| => p[i].name)
  }

  /** The path that anchors the walk: the literals, normalised as `join` does. */
  function Anchor(p: Pattern): Segments { Clamp([], Names(p[..LiteralCount(p)])) }

  /** The whole pattern with its literal prefix in canonical form. */
  function CanonicalPattern(p: Pattern): Pattern { Literals(Anchor(p)) + p[LiteralCount(p)..] }

  lemma JoinLiteral(p: Pattern, i: nat)
    requires i < LiteralCount(p) && '/' !in p[i].name
    ensures Clamp(Clamp([], Names(p[..i])), Split(p[i].name)) == Clamp([], Names(p[..i + 1]))
  {
    SplitPlain(p[i].name);
    ClampAppend([], Names(p[..i]), [p[i].name]);
    assert Names(p[..i + 1]) == Names(p[..i]) + [p[i].name];
  }

  /** The loop of `literal_prefix`, joining one literal at a time. */
  method LiteralPrefix(segments: Pattern) returns (path: VirtualPath, count: nat)
    requires forall i :: 0 <= i < |segments| && segments[i].Literal? ==>
               '/' !in segments[i].name && Nulless(segments[i].name) && segments[i].name != ""
    ensures count == LiteralCount(segments)
    ensures IsCanonical(path) && Segs(path) == Anchor(segments)
  {
    RenderRoundTrip([]);
    path := VirtualPath("/");
    count := 0;
    ghost var n := LiteralCount(segments);
    while count < |segments| && segments[count].Literal?
      invariant count <= n == LiteralCount(segments) && IsCanonical(path)
      invariant Segs(path) == Clamp([], Names(segments[..count]))
    {
      var name := segments[count].name;
      var joined := JoinPath(path, name);
      JoinLiteral(segments, count);
      path := joined.value;
      count := count + 1;
    }
  }

  /** Literals match exactly themselves, so the prefix may be resolved on its own. */
  lemma {:induction false} LiteralsAnchor(names: Segments, rest: Pattern, path: Segments)
    ensures GlobMatches(Literals(names) + rest, path) <==>
            names <= path && GlobMatches(rest, path[|names|..])
  {
    if names == [] {
      assert Literals(names) + rest == rest && path[0..] == path;
    } else {
      var p := Literals(names) + rest;
      assert p[1..] == Literals(names[1..]) + rest;
      if path != [] {
        LiteralsAnchor(names[1..], rest, path[1..]);
        if names[0] == path[0] {
          assert names <= path <==> names[1..] <= path[1..] by {
            assert names == [names[0]] + names[1..] && path == [path[0]] + path[1..];
          }
          if names <= path { assert path[1..][|names| - 1..] == path[|names|..]; }
        }
      }
    }
  }

  /** Matching below the anchor is matching the whole canonical pattern on absolute paths. */
  lemma AnchoredMatch(p: Pattern, below: Segments)
    ensures GlobMatches(p[LiteralCount(p)..], below) <==> GlobMatches(CanonicalPattern(p), Anchor(p) + below)
  {
    LiteralsAnchor(Anchor(p), p[LiteralCount(p)..], Anchor(p) + below);
    assert (Anchor(p) + below)[|Anchor(p)|..] == below;
  }

  /** Nothing outside the anchor's subtree can match. */
  lemma MatchesLieBelowAnchor(p: Pattern, path: Segments)
    requires GlobMatches(CanonicalPattern(p), path)
    ensures Anchor(p) <= path && GlobMatches(p[LiteralCount(p)..], path[|Anchor(p)|..])
  {
    LiteralsAnchor(Anchor(p), p[LiteralCount(p)..], path);
  }

  /** Without `.` and `..` among its leading literals a pattern is its own canonical form. */
  lemma PlainPatternIsCanonical(p: Pattern)
    requires AllSegments(Names(p[..LiteralCount(p)]))
    ensures CanonicalPattern(p) == p
  {
    var n := LiteralCount(p);
    hide Clamp, Segment;
    ClampOfSegments([], Names(p[..n]));
    assert [] + Names(p[..n]) == Names(p[..n]);
    forall i | 0 <= i < n ensures Literals(Names(p[..n]))[i] == p[..n][i] { assert p[i].Literal?; }
    assert Literals(Names(p[..n])) == p[..n];
  }

  // --- pattern strings -------------------------------------------------------

  /** Splitting invents no characters. */
  lemma {:induction false} SplitIsNulless(s: string)
    requires Nulless(s)
    ensures forall i :: 0 <= i < |Split(s)| ==> Nulless(Split(s)[i])
  {
    if s != "" {
      assert Nulless(s[1..]) by { assert forall c :: c in s[1..] ==> c in s; }
      SplitIsNulless(s[1..]);
      var rest := Split(s[1..]);
      assert s[0] != '\0' && Nulless(rest[0]);
    }
  }

  /**
   The literals of a compiled pattern string are names: nonempty, without `/`, and without NUL if the string has none.
   */
  lemma CompiledLiterals(pattern: string)
    requires CompilePattern(pattern).Ok? && Nulless(pattern)
    ensures var p := CompilePattern(pattern).value;
            forall i :: 0 <= i < |p| && p[i].Literal? ==> '/' !in p[i].name && Nulless(p[i].name) && p[i].name != ""
  {
    var pieces := Split(pattern[1..]);
    assert Nulless(pattern[1..]) by { assert forall c :: c in pattern[1..] ==> c in pattern; }
    SplitIsNulless(pattern[1..]);
    var kept := Filter(pieces, {""});
    var p := CompilePattern(pattern).value;
    forall i | 0 <= i < |p| && p[i].Literal? ensures '/' !in p[i].name && Nulless(p[i].name) && p[i].name != "" {
      assert kept[i] in pieces;
    }
  }

  /** A pattern string without the pieces `.` and `..` means what its compiled segments mean. */
  lemma PlainStringIsCanonical(pattern: string)
    requires CompilePattern(pattern).Ok? && Nulless(pattern)
    requires forall piece :: piece in Split(pattern[1..]) ==> piece != "." && piece != ".."
    ensures CanonicalPattern(CompilePattern(pattern).value) == CompilePattern(pattern).value
  {
    var p := CompilePattern(pattern).value;
    var kept := Filter(Split(pattern[1..]), {""});
    CompiledLiterals(pattern);
    var names := Names(p[..LiteralCount(p)]);
    forall i | 0 <= i < |names| ensures Segment(names[i]) { assert p[i].name == kept[i]; }
    PlainPatternIsCanonical(p);
  }

  // --- what a pattern string means -------------------------------------------

  predicate Plain(piece: string) { '*' !in piece && '?' !in piece }

  /** A piece without wildcards takes its own name; another by the matcher's verdict, or by what `*` and `?` mean. */
  predicate Takes(piece: string, name: string, greedy: bool) {
    if Plain(piece) then piece == name
    else if greedy then WildcardMatches(piece, name)
    else Matches(piece, name)
  }

  /** Empty pieces mean nothing, `**` takes any number of names, and every other piece takes one. */
  predicate PiecesTake(pieces: Segments, path: Segments, greedy: bool)
    decreases |pieces|
  {
    if pieces == [] then path == []
    else if pieces[0] == "" then PiecesTake(pieces[1..], path, greedy)
    else if pieces[0] == "**" then exists k :: 0 <= k <= |path| && PiecesTake(pieces[1..], path[k..], greedy)
    else path != [] && Takes(pieces[0], path[0], greedy) && PiecesTake(pieces[1..], path[1..], greedy)
  }

  /** How many leading pieces hold no wildcard. */
  function PlainLead(pieces: Segments): (n: nat)
    ensures n <= |pieces|
  {
    if pieces != [] && Plain(pieces[0]) then 1 + PlainLead(pieces[1..]) else 0
  }

  /** The path that these pieces spell, `.` and `..` among them walked. */
  function Lead(pattern: string): Segments
    requires pattern != ""
  {
    var pieces := Split(pattern[1..]);
    Clamp([], pieces[..PlainLead(pieces)])
  }

  /** What an absolute pattern string means. */
  predicate StringTakes(pattern: string, path: Segments, greedy: bool)
    requires pattern != ""
  {
    var pieces := Split(pattern[1..]);
    Lead(pattern) <= path && PiecesTake(pieces[PlainLead(pieces)..], path[|Lead(pattern)|..], greedy)
  }

  /** On names without `*` the verdict is the meaning. */
  lemma {:induction false} VerdictIsMeaning(pieces: Segments, path: Segments)
    requires forall i :: 0 <= i < |path| ==> '*' !in path[i]
    ensures PiecesTake(pieces, path, true) <==> PiecesTake(pieces, path, false)
    decreases |pieces|
  {
    if pieces != [] {
      if pieces[0] == "" {
        VerdictIsMeaning(pieces[1..], path);
      } else if pieces[0] == "**" {
        forall k | 0 <= k <= |path|
          ensures PiecesTake(pieces[1..], path[k..], true) <==> PiecesTake(pieces[1..], path[k..], false)
        {
          VerdictIsMeaning(pieces[1..], path[k..]);
        }
      } else if path != [] {
        VerdictIsMeaning(pieces[1..], path[1..]);
        ExactIffNoStarInText(path[0]);
      }
    }
  }

  lemma {:induction false} DoubleStarTakes(rest: Pattern, path: Segments)
    ensures GlobMatches([DoubleStar] + rest, path) <==> exists k :: 0 <= k <= |path| && GlobMatches(rest, path[k..])
    decreases |path|
  {
    assert ([DoubleStar] + rest)[1..] == rest && path[0..] == path;
    if path != [] {
      DoubleStarTakes(rest, path[1..]);
      assert forall k :: 0 <= k < |path| ==> path[1..][k..] == path[k + 1..];
      if k :| 0 <= k <= |path| && GlobMatches(rest, path[k..]) {
        if k > 0 { assert GlobMatches(rest, path[1..][k - 1..]); }
      }
    }
  }

  lemma CompileOneMore(first: string, rest: Segments)
    ensures CompileAll([first] + rest) == [CompileSegment(first)] + CompileAll(rest)
  {
  }

  /** The compiled pattern decides what its pieces take. */
  lemma {:induction false} CompiledTakes(pieces: Segments, path: Segments)
    ensures GlobMatches(CompileAll(Filter(pieces, {""})), path) <==> PiecesTake(pieces, path, true)
    decreases |pieces|
  {
    if pieces == [] {
    } else if pieces[0] == "" {
      CompiledTakes(pieces[1..], path);
      assert Filter(pieces, {""}) == Filter(pieces[1..], {""});
    } else {
      var rest := CompileAll(Filter(pieces[1..], {""}));
      CompileOneMore(pieces[0], Filter(pieces[1..], {""}));
      var p := [CompileSegment(pieces[0])] + rest;
      assert CompileAll(Filter(pieces, {""})) == p && p[1..] == rest;
      if pieces[0] == "**" {
        DoubleStarTakes(rest, path);
        forall k | 0 <= k <= |path|
          ensures GlobMatches(rest, path[k..]) <==> PiecesTake(pieces[1..], path[k..], true)
        {
          CompiledTakes(pieces[1..], path[k..]);
        }
      } else if path != [] {
        CompiledTakes(pieces[1..], path[1..]);
      }
    }
  }

  lemma {:induction false} FilterClamps(stack: Segments, pieces: Segments)
    ensures Clamp(stack, Filter(pieces, {""})) == Clamp(stack, pieces)
    decreases |pieces|
  {
    if pieces != [] {
      var rest := Filter(pieces[1..], {""});
      FilterClamps(Push(stack, pieces[0]), pieces[1..]);
      if pieces[0] != "" { assert ([pieces[0]] + rest)[1..] == rest; } else { assert [] + rest == rest; }
    }
  }

  lemma OneMoreLiteral(name: string, rest: Pattern)
    ensures var p, m := [Literal(name)] + rest, LiteralCount(rest);
            LiteralCount(p) == m + 1 && Names(p[..m + 1]) == [name] + Names(rest[..m]) && p[m + 1..] == rest[m..]
  {
    var p, m := [Literal(name)] + rest, LiteralCount(rest);
    assert p[1..] == rest;
    assert p[..m + 1] == [Literal(name)] + rest[..m];
  }

  lemma NoLiteral(p: Pattern)
    requires p == [] || !p[0].Literal?
    ensures LiteralCount(p) == 0 && Names(p[..0]) == [] && p[0..] == p
  {
  }

  /** The literals that anchor a compiled pattern are its leading pieces without wildcards. */
  lemma {:induction false} LeadCompiles(pieces: Segments)
    ensures var p, n := CompileAll(Filter(pieces, {""})), PlainLead(pieces);
            Names(p[..LiteralCount(p)]) == Filter(pieces[..n], {""}) &&
            p[LiteralCount(p)..] == CompileAll(Filter(pieces[n..], {""}))
    decreases |pieces|
  {
    hide Names, LiteralCount, CompileAll;
    var p, n := CompileAll(Filter(pieces, {""})), PlainLead(pieces);
    if pieces == [] || !Plain(pieces[0]) {
      assert pieces[..0] == [] && pieces[0..] == pieces;
      FirstCompiles(pieces);
      NoLiteral(p);
    } else {
      LeadCompiles(pieces[1..]);
      assert pieces[..n][1..] == pieces[1..][..n - 1] && pieces[1..][n - 1..] == pieces[n..];
      if pieces[0] != "" {
        FirstCompiles(pieces);
        OneMoreLiteral(pieces[0], CompileAll(Filter(pieces[1..], {""})));
      } else {
        EmptyIsDropped(pieces);
        EmptyIsDropped(pieces[..n]);
      }
    }
  }

  lemma EmptyIsDropped(pieces: Segments)
    requires pieces != [] && pieces[0] == ""
    ensures Filter(pieces, {""}) == Filter(pieces[1..], {""})
  {
  }

  lemma FirstCompiles(pieces: Segments)
    requires pieces == [] || pieces[0] != ""
    ensures CompileAll(Filter(pieces, {""})) ==
            if pieces == [] then [] else [CompileSegment(pieces[0])] + CompileAll(Filter(pieces[1..], {""}))
  {
    if pieces != [] { CompileOneMore(pieces[0], Filter(pieces[1..], {""})); }
  }

  /** The compiled and anchored pattern decides what its string means. */
  lemma CompiledStringTakes(pattern: string, path: Segments)
    requires CompilePattern(pattern).Ok?
    ensures var p := CompilePattern(pattern).value;
            Anchor(p) == Lead(pattern) && (GlobMatches(CanonicalPattern(p), path) <==> StringTakes(pattern, path, true))
  {
    hide GlobMatches, PiecesTake, Clamp, Split, Filter, CompileAll, LiteralCount, PlainLead, Names;
    var p, pieces := CompilePattern(pattern).value, Split(pattern[1..]);
    LeadCompiles(pieces);
    var n := PlainLead(pieces);
    FilterClamps([], pieces[..n]);
    LiteralsAnchor(Anchor(p), p[LiteralCount(p)..], path);
    if Lead(pattern) <= path { CompiledTakes(pieces[n..], path[|Lead(pattern)|..]); }
  }
}
