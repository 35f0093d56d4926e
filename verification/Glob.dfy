/** Glob name matching: `*` matches any byte sequence, every other byte is
    literal, the whole name must match (`glob.rs`). */
module Glob {
  import opened Common

  const STAR: Byte := 0x2A

  /** `pattern` with its k-th star replaced by `fills[k]`. */
  function Expand(pattern: Bytes, fills: seq<Bytes>): Bytes {
    if pattern == [] then []
    else if pattern[0] != STAR then [pattern[0]] + Expand(pattern[1..], fills)
    else if fills == [] then Expand(pattern[1..], fills)
    else fills[0] + Expand(pattern[1..], fills[1..])
  }

  /** The declarative meaning: some choice of fillings makes the pattern the text. */
  ghost predicate Matches(pattern: Bytes, text: Bytes) {
    exists fills :: Expand(pattern, fills) == text
  }

  lemma MatchesEmpty(text: Bytes)
    ensures Matches([], text) <==> text == []
  {
    assert Expand([], []) == [];
  }

  lemma MatchesLiteral(pattern: Bytes, text: Bytes)
    requires pattern != [] && pattern[0] != STAR
    ensures Matches(pattern, text) <==> text != [] && text[0] == pattern[0] && Matches(pattern[1..], text[1..])
  {
    if Matches(pattern, text) {
      var fills :| Expand(pattern, fills) == text;
      assert text[1..] == Expand(pattern[1..], fills);
    }
    if text != [] && text[0] == pattern[0] && Matches(pattern[1..], text[1..]) {
      var fills :| Expand(pattern[1..], fills) == text[1..];
      assert Expand(pattern, fills) == text;
    }
  }

  lemma MatchesStar(pattern: Bytes, text: Bytes)
    requires pattern != [] && pattern[0] == STAR
    ensures Matches(pattern, text) <==> exists k :: 0 <= k <= |text| && Matches(pattern[1..], text[k..])
  {
    if Matches(pattern, text) {
      var fills :| Expand(pattern, fills) == text;
      if fills == [] {
        assert text[0..] == text == Expand(pattern[1..], fills);
      } else {
        assert text[|fills[0]|..] == Expand(pattern[1..], fills[1..]);
      }
    }
    if k :| 0 <= k <= |text| && Matches(pattern[1..], text[k..]) {
      var fills :| Expand(pattern[1..], fills) == text[k..];
      assert ([text[..k]] + fills)[1..] == fills;
      assert Expand(pattern, [text[..k]] + fills) == text;
    }
  }

  /** A star-free run of the pattern consumes its own length of text. */
  lemma {:induction false} MatchesAfterLiterals(pattern: Bytes, n: nat, text: Bytes)
    requires n <= |pattern| && forall i :: 0 <= i < n ==> pattern[i] != STAR
    requires Matches(pattern, text)
    ensures n <= |text| && Matches(pattern[n..], text[n..])
  {
    if n == 0 {
      assert pattern[0..] == pattern && text[0..] == text;
    } else {
      MatchesLiteral(pattern, text);
      MatchesAfterLiterals(pattern[1..], n - 1, text[1..]);
      assert pattern[1..][n - 1..] == pattern[n..] && text[1..][n - 1..] == text[n..];
    }
  }

  /** Some later restart of the remembered star would match. */
  ghost predicate LaterRestart(p: Bytes, t: Bytes, star: Option<nat>, mark: nat)
    requires star.Some? ==> star.value < |p|
  {
    star.Some? && exists k :: mark < k <= |t| && Matches(p[star.value + 1..], t[k..])
  }

  /** When a second star is reached, forgetting the first one loses no match. */
  lemma OnlyLastStarMatters(p: Bytes, t: Bytes, s: nat, mark: nat, pi: nat, ti: nat)
    requires s < pi < |p| && mark <= ti <= |t| && ti - mark == pi - (s + 1)
    requires p[pi] == STAR && forall i :: s < i < pi ==> p[i] != STAR
    requires LaterRestart(p, t, Some(s), mark)
    ensures Matches(p[pi..], t[ti..])
  {
    var k :| mark < k <= |t| && Matches(p[s + 1..], t[k..]);
    var n := pi - (s + 1);
    var q, u := p[s + 1..], t[k..];
    MatchesAfterLiterals(q, n, u);
    assert q[n..] == p[pi..] && u[n..] == t[k + n..];
    MatchesStar(p[pi..], t[k + n..]);
    var j :| 0 <= j <= |t[k + n..]| && Matches(p[pi..][1..], t[k + n..][j..]);
    assert t[k + n..][j..] == t[ti..][k + n + j - ti..];
    MatchesStar(p[pi..], t[ti..]);
  }

  /** The single-star backtracking loop decides exactly the declarative matcher. */
  method GlobMatches(pattern: Bytes, text: Bytes) returns (matched: bool)
    ensures matched <==> Matches(pattern, text)
  {
    hide Matches;
    var p, t := pattern, text;
    var pi, ti, mark := 0, 0, 0;
    var star: Option<nat> := None;
    assert p[0..] == p && t[0..] == t;
    while ti < |t|
      invariant 0 <= pi <= |p| && 0 <= ti <= |t| && mark <= ti
      invariant star.Some? ==> star.value < pi && p[star.value] == STAR && ti - mark == pi - (star.value + 1)
      invariant star.Some? ==> forall i :: star.value < i < pi ==> p[i] != STAR
      invariant star.None? ==> mark == 0
      invariant Matches(p, t) <==> Matches(p[pi..], t[ti..]) || LaterRestart(p, t, star, mark)
      decreases if star.Some? then |p| - star.value else |p| + 1, |t| - mark, |t| - ti
    {
      if pi < |p| && p[pi] == STAR {
        StarStep(p, t, star, mark, pi, ti);
        star := Some(pi);
        mark := ti;
        pi := pi + 1;
      } else if pi < |p| && p[pi] == t[ti] {
        MatchesLiteral(p[pi..], t[ti..]);
        assert p[pi..][1..] == p[pi + 1..] && t[ti..][1..] == t[ti + 1..];
        pi := pi + 1;
        ti := ti + 1;
      } else {
        NoMatchHere(p, t, pi, ti);
        if star.Some? {
          RestartStep(p, t, star.value, mark);
          pi := star.value + 1;
          mark := mark + 1;
          ti := mark;
        } else {
          return false;
        }
      }
    }
    AtEndOfText(p, t, star, mark, pi);
    while pi < |p| && p[pi] == STAR
      invariant 0 <= pi <= |p|
      invariant Matches(p, t) <==> Matches(p[pi..], [])
    {
      var none: Bytes := [];
      MatchesStar(p[pi..], none);
      assert p[pi..][1..] == p[pi + 1..] && none[0..] == none;
      pi := pi + 1;
    }
    if pi == |p| {
      MatchesEmpty([]);
      assert p[pi..] == [];
    } else {
      MatchesLiteral(p[pi..], []);
    }
    return pi == |p|;
  }

  lemma StarStep(p: Bytes, t: Bytes, star: Option<nat>, mark: nat, pi: nat, ti: nat)
    requires pi < |p| && ti <= |t| && p[pi] == STAR && mark <= ti
    requires star.Some? ==> star.value < pi && ti - mark == pi - (star.value + 1)
    requires star.Some? ==> forall i :: star.value < i < pi ==> p[i] != STAR
    ensures (Matches(p[pi..], t[ti..]) || LaterRestart(p, t, star, mark))
            <==> (Matches(p[pi + 1..], t[ti..]) || LaterRestart(p, t, Some(pi), ti))
  {
    if LaterRestart(p, t, star, mark) {
      OnlyLastStarMatters(p, t, star.value, mark, pi, ti);
    }
    MatchesStar(p[pi..], t[ti..]);
    assert p[pi..][1..] == p[pi + 1..];
    if Matches(p[pi..], t[ti..]) {
      var k :| 0 <= k <= |t[ti..]| && Matches(p[pi + 1..], t[ti..][k..]);
      assert t[ti..][k..] == t[ti + k..];
    }
    if k :| ti < k <= |t| && Matches(p[pi + 1..], t[k..]) {
      assert t[ti..][k - ti..] == t[k..];
    }
    if Matches(p[pi + 1..], t[ti..]) {
      assert t[ti..][0..] == t[ti..];
    }
  }

  lemma NoMatchHere(p: Bytes, t: Bytes, pi: nat, ti: nat)
    requires pi <= |p| && ti < |t|
    requires pi < |p| ==> p[pi] != STAR && p[pi] != t[ti]
    ensures !Matches(p[pi..], t[ti..])
  {
    if pi == |p| {
      assert p[pi..] == [];
      MatchesEmpty(t[ti..]);
    } else {
      MatchesLiteral(p[pi..], t[ti..]);
    }
  }

  lemma RestartStep(p: Bytes, t: Bytes, s: nat, mark: nat)
    requires s < |p| && mark < |t|
    ensures LaterRestart(p, t, Some(s), mark)
            <==> Matches(p[s + 1..], t[mark + 1..]) || LaterRestart(p, t, Some(s), mark + 1)
  {
  }

  /** With the text used up, an older restart matches only if the rest of the pattern does. */
  lemma AtEndOfText(p: Bytes, t: Bytes, star: Option<nat>, mark: nat, pi: nat)
    requires pi <= |p| && mark <= |t|
    requires star.Some? ==> star.value < pi && |t| - mark == pi - (star.value + 1)
    requires star.Some? ==> forall i :: star.value < i < pi ==> p[i] != STAR
    ensures Matches(p[pi..], t[|t|..]) || LaterRestart(p, t, star, mark) <==> Matches(p[pi..], [])
  {
    assert t[|t|..] == [];
    if LaterRestart(p, t, star, mark) {
      var k :| mark < k <= |t| && Matches(p[star.value + 1..], t[k..]);
      MatchesAfterLiterals(p[star.value + 1..], pi - (star.value + 1), t[k..]);
      assert false;
    }
  }
}
