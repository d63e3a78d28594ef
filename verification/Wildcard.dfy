/**
 The `*`/`?` matcher of one path segment (crates/fslite-sqlite/src/search.rs).

 `Matches` is the meaning of a pattern.  `Greedy` follows the two-pointer loop,
 which backtracks only to the last star.  The loop compares characters before it
 looks for a star, so a `*` in the TEXT can swallow a `*` of the pattern: the
 matcher never accepts too much, and it is exact on every pattern exactly when
 the text holds no `*`.
 */
module Wildcard {
  import opened Common

  /** What `*` (any run) and `?` (any one character) mean. */
  predicate Matches(p: string, t: string)
    decreases |p|, |t|
  {
    if p == [] then t == []
    else if p[0] == '*' then Matches(p[1..], t) || (t != [] && Matches(p, t[1..]))
    else t != [] && One(p[0], t[0]) && Matches(p[1..], t[1..])
  }

  /** One pattern character against one text character, as the loop compares them. */
  predicate One(p: char, t: char) { p == '?' || p == t }

  predicate AllStars(p: string) { forall i :: 0 <= i < |p| ==> p[i] == '*' }

  /** The loop's verdict from pattern index `pi`, text index `ti`, last star and restart point. */
  predicate Greedy(p: string, t: string, pi: nat, ti: nat, star: Option<nat>, from: nat)
    requires pi <= |p| && from <= ti <= |t|
    requires star.Some? ==> star.value < |p|
    decreases |t| - from, |t| - ti, |p| - pi
  {
    if ti == |t| then AllStars(p[pi..])
    else if pi < |p| && One(p[pi], t[ti]) then Greedy(p, t, pi + 1, ti + 1, star, from)
    else if pi < |p| && p[pi] == '*' then Greedy(p, t, pi + 1, ti, Some(pi), ti)
    else if star.Some? then Greedy(p, t, star.value + 1, from + 1, star, from + 1)
    else false
  }

  predicate WildcardMatches(p: string, t: string) { Greedy(p, t, 0, 0, None, 0) }

  /** The matcher as the source runs it. */
  method WildcardMatch(pattern: string, text: string) returns (matched: bool)
    ensures matched == WildcardMatches(pattern, text)
    ensures matched ==> Matches(pattern, text)
    ensures '*' !in text ==> matched == Matches(pattern, text)
  {
    SoundFor(pattern, text);
    if '*' !in text && Matches(pattern, text) { CompleteFor(pattern, text); }
    var pi: nat, ti: nat := 0, 0;
    var star: Option<nat> := None;
    var from: nat := 0;
    while ti < |text|
      invariant pi <= |pattern| && from <= ti <= |text|
      invariant star.Some? ==> star.value < |pattern|
      invariant Greedy(pattern, text, pi, ti, star, from) == WildcardMatches(pattern, text)
      decreases |text| - from, |text| - ti, |pattern| - pi
    {
      if pi < |pattern| && (pattern[pi] == '?' || pattern[pi] == text[ti]) {
        pi, ti := pi + 1, ti + 1;
      } else if pi < |pattern| && pattern[pi] == '*' {
        star, from, pi := Some(pi), ti, pi + 1;
      } else if star.Some? {
        pi, from := star.value + 1, from + 1;
        ti := from;
      } else {
        return false;
      }
    }
    ghost var rest := pattern[pi..];
    ghost var at := pi;
    while pi < |pattern| && pattern[pi] == '*'
      invariant at <= pi <= |pattern|
      invariant forall k :: at <= k < pi ==> pattern[k] == '*'
    {
      pi := pi + 1;
    }
    assert pi < |pattern| ==> rest[pi - at] != '*';
    return pi == |pattern|;
  }

  // --- the matcher never accepts too much -----------------------------------

  lemma {:induction false} Sound(p: string, t: string, pi: nat, ti: nat, star: Option<nat>, from: nat)
    requires pi <= |p| && from <= ti <= |t|
    requires Greedy.requires(p, t, pi, ti, star, from) && Greedy(p, t, pi, ti, star, from)
    requires Matches(p[pi..], t[ti..]) ==> Matches(p, t)
    requires star.Some? ==> p[star.value] == '*' && (Matches(p[star.value..], t[from..]) ==> Matches(p, t))
    ensures Matches(p, t)
    decreases |t| - from, |t| - ti, |p| - pi
  {
    if ti == |t| {
      StarsMatchNothing(p[pi..]);
    } else if pi < |p| && One(p[pi], t[ti]) {
      Step(p, t, pi, ti);
      Sound(p, t, pi + 1, ti + 1, star, from);
    } else if pi < |p| && p[pi] == '*' {
      StarStep(p, t, pi, ti);
      Sound(p, t, pi + 1, ti, Some(pi), ti);
    } else {
      var s := star.value;
      StarStep(p, t, s, from);
      StarStep(p, t, s, from + 1);
      Sound(p, t, s + 1, from + 1, star, from + 1);
    }
  }

  /** Every accepted text is a match of the pattern. */
  lemma SoundFor(p: string, t: string)
    ensures WildcardMatches(p, t) ==> Matches(p, t)
  {
    assert p[0..] == p && t[0..] == t;
    if WildcardMatches(p, t) { Sound(p, t, 0, 0, None, 0); }
  }

  lemma {:induction false} StarsMatchNothing(p: string)
    ensures AllStars(p) <==> Matches(p, "")
  {
    if p != [] {
      StarsMatchNothing(p[1..]);
      assert AllStars(p) <==> p[0] == '*' && AllStars(p[1..]) by {
        if p[0] == '*' && AllStars(p[1..]) {
          forall i | 0 <= i < |p| ensures p[i] == '*' { if i > 0 { assert p[i] == p[1..][i - 1]; } }
        }
        if AllStars(p) {
          forall i | 0 <= i < |p[1..]| ensures p[1..][i] == '*' { assert p[1..][i] == p[i + 1]; }
        }
      }
    }
  }

  lemma Step(p: string, t: string, pi: nat, ti: nat)
    requires pi < |p| && ti < |t| && One(p[pi], t[ti])
    ensures Matches(p[pi + 1..], t[ti + 1..]) ==> Matches(p[pi..], t[ti..])
    ensures p[pi] != '*' ==> Matches(p[pi + 1..], t[ti + 1..]) == Matches(p[pi..], t[ti..])
  {
    assert p[pi..][1..] == p[pi + 1..] && t[ti..][1..] == t[ti + 1..];
    if p[pi] == '*' && Matches(p[pi + 1..], t[ti + 1..]) {
      assert Matches(p[pi..], t[ti + 1..]);
    }
  }

  lemma StarStep(p: string, t: string, pi: nat, ti: nat)
    requires pi < |p| && ti <= |t| && p[pi] == '*'
    ensures Matches(p[pi..], t[ti..]) ==
            (Matches(p[pi + 1..], t[ti..]) || (ti < |t| && Matches(p[pi..], t[ti + 1..])))
  {
    assert p[pi..][1..] == p[pi + 1..];
    if ti < |t| { assert t[ti..][1..] == t[ti + 1..]; }
  }

  // --- and accepts every match when the text holds no star -------------------

  /** The characters after star `s` that the loop has matched one for one, starting at `from`. */
  predicate Block(p: string, t: string, s: nat, from: nat, pi: nat, ti: nat)
  {
    s < pi <= |p| && from <= ti <= |t| && pi - (s + 1) == ti - from &&
    forall q :: s < q < pi ==> p[q] != '*' && One(p[q], t[from + (q - s - 1)])
  }

  lemma {:induction false} Peel(p: string, t: string, i: nat, j: nat, n: nat)
    requires i + n <= |p| && j <= |t|
    requires forall k :: i <= k < i + n ==> p[k] != '*'
    requires Matches(p[i..], t[j..])
    ensures j + n <= |t| && Matches(p[i + n..], t[j + n..])
    decreases n
  {
    if n > 0 {
      assert p[i..][1..] == p[i + 1..];
      assert t[j..] != [] && t[j..][1..] == t[j + 1..];
      Peel(p, t, i + 1, j + 1, n - 1);
    }
  }

  /** A star hands over to what follows it at some later text position. */
  lemma {:induction false} StarEnds(p: string, t: string, s: nat, from: nat) returns (j: nat)
    requires s < |p| && p[s] == '*' && from <= |t| && Matches(p[s..], t[from..])
    ensures from <= j <= |t| && Matches(p[s + 1..], t[j..])
    decreases |t| - from
  {
    StarStep(p, t, s, from);
    if Matches(p[s + 1..], t[from..]) { j := from; } else { j := StarEnds(p, t, s, from + 1); }
  }

  /** A star may also start earlier. */
  lemma {:induction false} StarAbsorbs(p: string, t: string, s: nat, from: nat, j: nat)
    requires s < |p| && p[s] == '*' && from <= j <= |t| && Matches(p[s..], t[j..])
    ensures Matches(p[s..], t[from..])
    decreases j - from
  {
    if from < j {
      StarAbsorbs(p, t, s, from + 1, j);
      StarStep(p, t, s, from);
    }
  }

  lemma LateMatch(p: string, t: string, s: nat, from: nat, pi: nat, ti: nat) returns (j: nat)
    requires Block(p, t, s, from, pi, ti) && p[s] == '*' && Matches(p[s..], t[from..])
    ensures ti <= j <= |t| && Matches(p[pi..], t[j..])
  {
    var k := StarEnds(p, t, s, from);
    Peel(p, t, s + 1, k, pi - (s + 1));
    j := k + (pi - (s + 1));
  }

  lemma {:induction false} Complete(p: string, t: string, pi: nat, ti: nat, star: Option<nat>, from: nat)
    requires '*' !in t
    requires pi <= |p| && from <= ti <= |t|
    requires star.None? ==> Matches(p[pi..], t[ti..])
    requires star.Some? ==> Block(p, t, star.value, from, pi, ti) && p[star.value] == '*'
    requires star.Some? ==> Matches(p[star.value..], t[from..])
    ensures Greedy(p, t, pi, ti, star, from)
    decreases |t| - from, |t| - ti, |p| - pi
  {
    if ti == |t| {
      if star.Some? { var j := LateMatch(p, t, star.value, from, pi, ti); }
      assert t[ti..] == "";
      StarsMatchNothing(p[pi..]);
    } else if pi < |p| && One(p[pi], t[ti]) {
      Step(p, t, pi, ti);
      Complete(p, t, pi + 1, ti + 1, star, from);
    } else if pi < |p| && p[pi] == '*' {
      if star.Some? {
        var j := LateMatch(p, t, star.value, from, pi, ti);
        StarAbsorbs(p, t, pi, ti, j);
      }
      Complete(p, t, pi + 1, ti, Some(pi), ti);
    } else if star.Some? {
      var s := star.value;
      StarStep(p, t, s, from);
      if Matches(p[s + 1..], t[from..]) {
        Peel(p, t, s + 1, from, pi - (s + 1));
        assert false;
      }
      Complete(p, t, s + 1, from + 1, star, from + 1);
    } else {
      assert false;
    }
  }

  lemma CompleteFor(p: string, t: string)
    requires '*' !in t && Matches(p, t)
    ensures WildcardMatches(p, t)
  {
    assert p[0..] == p && t[0..] == t;
    Complete(p, t, 0, 0, None, 0);
  }

  // --- exactly which texts are matched right ---------------------------------

  function Questions(n: nat): (q: string)
    ensures |q| == n && forall i :: 0 <= i < n ==> q[i] == '?'
  {
    seq(n, _ => '?')
  }

  lemma {:induction false} QuestionsMatch(t: string)
    ensures Matches(Questions(|t|), t)
  {
    if t != [] {
      QuestionsMatch(t[1..]);
      assert Questions(|t|)[1..] == Questions(|t[1..]|);
    }
  }

  lemma {:induction false} LiteralThen(u: string, p: string, t: string)
    requires '*' !in u && Matches(p, t)
    ensures Matches(u + p, u + t)
  {
    if u == [] {
      assert u + p == p && u + t == t;
    } else {
      assert '*' !in u[1..];
      LiteralThen(u[1..], p, t);
      assert (u + p)[1..] == u[1..] + p && (u + t)[1..] == u[1..] + t;
    }
  }

  /** A pattern that agrees with the text place by place is walked without a star. */
  lemma {:induction false} Diagonal(p: string, t: string, i: nat)
    requires i <= |t| < |p| && forall k :: 0 <= k < |t| ==> One(p[k], t[k])
    ensures Greedy(p, t, i, i, None, 0) == AllStars(p[|t|..])
    decreases |t| - i
  {
    if i < |t| { Diagonal(p, t, i + 1); }
  }

  /** For a text with a star: a pattern that matches it and that the loop rejects. */
  lemma Misjudged(t: string) returns (p: string)
    requires '*' in t
    ensures Matches(p, t) && !WildcardMatches(p, t)
  {
    var k: nat := 0;
    while t[k] != '*'
      invariant k < |t| && '*' !in t[..k] && '*' in t[k..]
      decreases |t| - k
    {
      assert t[k..][1..] == t[k + 1..];
      assert t[..k + 1] == t[..k] + [t[k]];
      assert exists i :: k <= i < |t| && t[i] == '*' by {
        var i :| 0 <= i < |t[k..]| && t[k..][i] == '*';
        assert t[k + i] == '*';
      }
      k := k + 1;
    }
    var u, v := t[..k], t[k..];
    var tail := "*" + Questions(|v|);
    p := u + tail;
    QuestionsMatch(v);
    assert tail[1..] == Questions(|v|);
    assert Matches(tail, v);
    LiteralThen(u, tail, v);
    assert u + v == t;
    forall i | 0 <= i < |t| ensures One(p[i], t[i]) {
      if i > k { assert p[i] == tail[i - k] == Questions(|v|)[i - k - 1]; }
    }
    Diagonal(p, t, 0);
    assert p[|t|..][0] == '?';
  }

  /** A text is judged right against every pattern exactly when it holds no `*`. */
  lemma ExactIffNoStarInText(t: string)
    ensures (forall p :: WildcardMatches(p, t) == Matches(p, t)) <==> '*' !in t
  {
    if '*' in t {
      var p := Misjudged(t);
      assert WildcardMatches(p, t) != Matches(p, t);
    } else {
      forall p ensures WildcardMatches(p, t) == Matches(p, t) {
        SoundFor(p, t);
        if Matches(p, t) { CompleteFor(p, t); }
      }
    }
  }
}
