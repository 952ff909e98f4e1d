/**
  The wildcard matcher of server/middleware/cors, which remembers only the last
  star it met, against the language that a pattern denotes.
 */
module Cors {
  import opened Common

  const STAR: byte := 42

  /** How many stars the pattern has. */
  function Stars(pattern: seq<byte>): nat {
    if pattern == [] then 0
    else (if pattern[0] == STAR then 1 else 0) + Stars(pattern[1..])
  }

  /** The pattern with its stars replaced, from left to right, by the given texts. */
  function Fill(pattern: seq<byte>, texts: seq<seq<byte>>): seq<byte>
    requires |texts| == Stars(pattern)
  {
    if pattern == [] then []
    else if pattern[0] == STAR then texts[0] + Fill(pattern[1..], texts[1..])
    else [pattern[0]] + Fill(pattern[1..], texts)
  }

  /** The language of a pattern: each star stands for any text, every other byte for itself. */
  ghost predicate InLanguage(value: seq<byte>, pattern: seq<byte>) {
    exists texts :: |texts| == Stars(pattern) && Fill(pattern, texts) == value
  }

  /** The same language, read off the pattern one byte at a time. */
  ghost predicate Matches(value: seq<byte>, pattern: seq<byte>)
    decreases |pattern|
  {
    if pattern == [] then value == []
    else if pattern[0] == STAR then exists k :: 0 <= k <= |value| && Matches(value[k..], pattern[1..])
    else value != [] && value[0] == pattern[0] && Matches(value[1..], pattern[1..])
  }

  lemma {:induction false} MatchesIsLanguage(value: seq<byte>, pattern: seq<byte>)
    ensures Matches(value, pattern) <==> InLanguage(value, pattern)
    decreases |pattern|
  {
    if Matches(value, pattern) {
      var texts := FillingOf(value, pattern);
    }
    if InLanguage(value, pattern) {
      var texts :| |texts| == Stars(pattern) && Fill(pattern, texts) == value;
      FilledMatches(pattern, texts);
    }
  }

  lemma {:induction false} FillingOf(value: seq<byte>, pattern: seq<byte>) returns (texts: seq<seq<byte>>)
    requires Matches(value, pattern)
    ensures |texts| == Stars(pattern) && Fill(pattern, texts) == value
    decreases |pattern|
  {
    if pattern == [] {
      texts := [];
    } else if pattern[0] == STAR {
      var k :| 0 <= k <= |value| && Matches(value[k..], pattern[1..]);
      var rest := FillingOf(value[k..], pattern[1..]);
      texts := [value[..k]] + rest;
      assert texts[1..] == rest;
    } else {
      texts := FillingOf(value[1..], pattern[1..]);
    }
  }

  lemma {:induction false} FilledMatches(pattern: seq<byte>, texts: seq<seq<byte>>)
    requires |texts| == Stars(pattern)
    ensures Matches(Fill(pattern, texts), pattern)
    decreases |pattern|
  {
    if pattern != [] {
      var value := Fill(pattern, texts);
      if pattern[0] == STAR {
        FilledMatches(pattern[1..], texts[1..]);
        assert value[|texts[0]|..] == Fill(pattern[1..], texts[1..]);
      } else {
        FilledMatches(pattern[1..], texts);
        assert value[1..] == Fill(pattern[1..], texts);
      }
    }
  }

  // ----------------------------------------------------------- greedy matching

  ghost predicate NoStar(literal: seq<byte>) {
    forall i :: 0 <= i < |literal| ==> literal[i] != STAR
  }

  /** A literal at the front of the pattern consumes exactly itself. */
  lemma {:induction false} MatchesLiteral(value: seq<byte>, literal: seq<byte>, rest: seq<byte>)
    requires NoStar(literal)
    ensures Matches(value, literal + rest)
            <==> literal <= value && Matches(value[|literal|..], rest)
  {
    if literal == [] {
      assert literal + rest == rest && value[0..] == value;
    } else {
      assert (literal + rest)[1..] == literal[1..] + rest;
      if value != [] && value[0] == literal[0] {
        MatchesLiteral(value[1..], literal[1..], rest);
        assert literal <= value <==> literal[1..] <= value[1..] by {
          assert literal == [literal[0]] + literal[1..];
          assert value == [value[0]] + value[1..];
        }
        if literal <= value { assert value[1..][|literal| - 1..] == value[|literal|..]; }
      }
    }
  }

  /** A star that can start late can start early. */
  lemma StarStartsEarlier(value: seq<byte>, j: nat, rest: seq<byte>)
    requires j <= |value| && Matches(value[j..], [STAR] + rest)
    ensures Matches(value, [STAR] + rest)
  {
    assert ([STAR] + rest)[1..] == rest;
    var k :| 0 <= k <= |value[j..]| && Matches(value[j..][k..], rest);
    assert value[j..][k..] == value[j + k..];
  }

  /** Either the star stops here or it takes one more byte. */
  lemma StarUnfolds(value: seq<byte>, rest: seq<byte>)
    ensures Matches(value, [STAR] + rest)
            <==> Matches(value, rest) || (value != [] && Matches(value[1..], [STAR] + rest))
  {
    assert ([STAR] + rest)[1..] == rest && value[0..] == value;
    if Matches(value, [STAR] + rest) && !Matches(value, rest) {
      var k :| 0 <= k <= |value| && Matches(value[k..], rest);
      assert value[k..] == value[1..][k - 1..];
    }
    if value != [] && Matches(value[1..], [STAR] + rest) {
      StarStartsEarlier(value, 1, rest);
    }
  }

  /**
    Why one backtrack point is enough: when the text between two stars has been found at
    its first possible place, the earlier star has nothing left to decide.
   */
  lemma FirstOccurrenceSuffices(value: seq<byte>, literal: seq<byte>, rest: seq<byte>)
    requires NoStar(literal) && literal <= value
    ensures Matches(value, [STAR] + literal + [STAR] + rest)
            <==> Matches(value[|literal|..], [STAR] + rest)
  {
    var tail := [STAR] + rest;
    var pattern := [STAR] + literal + [STAR] + rest;
    assert pattern[1..] == literal + tail;
    if Matches(value[|literal|..], tail) {
      MatchesLiteral(value, literal, tail);
      assert value[0..] == value;
    }
    if Matches(value, pattern) {
      var k :| 0 <= k <= |value| && Matches(value[k..], literal + tail);
      MatchesLiteral(value[k..], literal, tail);
      assert value[k..][|literal|..] == value[|literal|..][k..];
      StarStartsEarlier(value[|literal|..], k, rest);
    }
  }

  lemma {:induction false} EmptyMatchesStars(pattern: seq<byte>)
    ensures Matches([], pattern) <==> forall i :: 0 <= i < |pattern| ==> pattern[i] == STAR
    decreases |pattern|
  {
    if pattern != [] {
      EmptyMatchesStars(pattern[1..]);
      assert forall i :: 0 < i < |pattern| ==> pattern[i] == pattern[1..][i - 1];
      if pattern[0] == STAR {
        var empty: seq<byte> := [];
        assert empty[0..] == empty;
      }
    }
  }

  /** What the four indices of the loop say about the match that is still to be decided. */
  ghost predicate Pending(value: seq<byte>, pattern: seq<byte>, v: nat, p: nat, star: int, m: nat)
    requires v <= |value| && p <= |pattern|
  {
    if star == -1 then
      Matches(value, pattern) <==> Matches(value[v..], pattern[p..])
    else
      && 0 <= star < p && m <= v && pattern[star] == STAR
      && NoStar(pattern[star + 1..p]) && value[m..v] == pattern[star + 1..p]
      && (Matches(value, pattern) <==> Matches(value[m..], pattern[star..]))
  }

  lemma MeetStar(value: seq<byte>, pattern: seq<byte>, v: nat, p: nat, star: int, m: nat)
    requires v <= |value| && p < |pattern| && pattern[p] == STAR
    requires Pending(value, pattern, v, p, star, m)
    ensures Pending(value, pattern, v, p + 1, p, v)
  {
    if star != -1 {
      var literal, rest := pattern[star + 1..p], pattern[p + 1..];
      assert pattern[star..] == [STAR] + literal + [STAR] + rest;
      assert literal <= value[m..] && value[m..][|literal|..] == value[v..] by {
        assert |literal| == v - m && value[m..][..v - m] == value[m..v];
      }
      FirstOccurrenceSuffices(value[m..], literal, rest);
      assert pattern[p..] == [STAR] + rest;
    }
  }

  lemma MeetByte(value: seq<byte>, pattern: seq<byte>, v: nat, p: nat, star: int, m: nat)
    requires v < |value| && p < |pattern| && pattern[p] == value[v] != STAR
    requires Pending(value, pattern, v, p, star, m)
    ensures Pending(value, pattern, v + 1, p + 1, star, m)
  {
    if star == -1 {
      assert value[v..][1..] == value[v + 1..] && pattern[p..][1..] == pattern[p + 1..];
    } else {
      assert pattern[star + 1..p + 1] == pattern[star + 1..p] + [pattern[p]];
      assert value[m..v + 1] == value[m..v] + [value[v]];
    }
  }

  /** Stopping the star at `m` leaves exactly the comparison that the indices stand at. */
  lemma StarHere(value: seq<byte>, pattern: seq<byte>, v: nat, p: nat, star: int, m: nat)
    requires v <= |value| && p <= |pattern| && star != -1
    requires Pending(value, pattern, v, p, star, m)
    ensures pattern[star..] == [STAR] + pattern[star + 1..]
    ensures Matches(value[m..], pattern[star + 1..]) <==> Matches(value[v..], pattern[p..])
  {
    var literal := pattern[star + 1..p];
    assert pattern[star + 1..] == literal + pattern[p..];
    MatchesLiteral(value[m..], literal, pattern[p..]);
    assert |literal| == v - m && value[m..][..v - m] == value[m..v];
    assert value[m..][|literal|..] == value[v..];
  }

  lemma FallBack(value: seq<byte>, pattern: seq<byte>, v: nat, p: nat, star: int, m: nat)
    requires v < |value| && p <= |pattern| && star != -1
    requires p < |pattern| ==> pattern[p] != STAR && pattern[p] != value[v]
    requires Pending(value, pattern, v, p, star, m)
    ensures Pending(value, pattern, m + 1, star + 1, star, m + 1)
  {
    StarHere(value, pattern, v, p, star, m);
    assert !Matches(value[v..], pattern[p..]);
    StarUnfolds(value[m..], pattern[star + 1..]);
    assert value[m..][1..] == value[m + 1..];
  }

  lemma ValueExhausted(value: seq<byte>, pattern: seq<byte>, p: nat, star: int, m: nat)
    requires p <= |pattern| && Pending(value, pattern, |value|, p, star, m)
    ensures Matches(value, pattern) <==> Matches([], pattern[p..])
  {
    assert value[|value|..] == [];
    if star != -1 {
      StarHere(value, pattern, |value|, p, star, m);
      StarOverShortValue(value[m..], pattern[star + 1..p], pattern[p..]);
      assert pattern[star + 1..] == pattern[star + 1..p] + pattern[p..];
      assert value[m..] == value[m..|value|];
    }
  }

  /** A star before a literal as long as the value has to be empty. */
  lemma StarOverShortValue(value: seq<byte>, literal: seq<byte>, rest: seq<byte>)
    requires NoStar(literal) && literal == value
    ensures Matches(value, [STAR] + (literal + rest)) <==> Matches(value, literal + rest)
  {
    assert ([STAR] + (literal + rest))[1..] == literal + rest && value[0..] == value;
    if Matches(value, [STAR] + (literal + rest)) {
      var k :| 0 <= k <= |value| && Matches(value[k..], literal + rest);
      MatchesLiteral(value[k..], literal, rest);
    }
  }

  lemma Mismatch(value: seq<byte>, pattern: seq<byte>, v: nat, p: nat, m: nat)
    requires v < |value| && p <= |pattern|
    requires p < |pattern| ==> pattern[p] != STAR && pattern[p] != value[v]
    requires Pending(value, pattern, v, p, -1, m)
    ensures !InLanguage(value, pattern)
  {
    MatchesIsLanguage(value, pattern);
  }

  /** The iterations spent when the value position is at least `m` and the pattern position is `p`. */
  ghost predicate WithinBudget(iterations: nat, m: nat, p: nat, pattern: seq<byte>) {
    iterations <= m * (|pattern| + 1) + p
  }

  lemma BudgetGrows(iterations: nat, m: nat, m': nat, p: nat, p': nat, pattern: seq<byte>)
    requires WithinBudget(iterations, m, p, pattern) && p <= |pattern|
    requires (m <= m' && p < p') || m < m'
    ensures WithinBudget(iterations + 1, m', p', pattern)
  {
    var w := |pattern| + 1;
    if m < m' {
      Budget(m + 1, m', w);
      Budget(m, m, w);
    }
  }

  lemma BudgetBound(iterations: nat, m: nat, p: nat, pattern: seq<byte>, n: nat)
    requires WithinBudget(iterations, m, p, pattern) && p <= |pattern| && m <= n
    ensures iterations < (n + 1) * (|pattern| + 1)
  {
    Budget(m, n, |pattern| + 1);
    Budget(n, n, |pattern| + 1);
  }

  lemma Budget(a: nat, b: nat, c: nat)
    requires a <= b
    ensures a * c <= b * c && (a + 1) * c == a * c + c
  {
  }

  /**
    Decides the language of the pattern, except that the empty pattern matches nothing,
    in fewer than (|value| + 1) * (|pattern| + 1) iterations.
   */
  method WildcardMatch(value: seq<byte>, pattern: seq<byte>) returns (r: bool, ghost iterations: nat)
    ensures r <==> pattern != [] && InLanguage(value, pattern)
    ensures iterations < (|value| + 1) * (|pattern| + 1)
  {
    iterations := 0;
    if pattern == [] {
      BudgetBound(0, 0, 0, pattern, |value|);
      return false, 0;
    }
    var valueIdx, patternIdx := 0, 0;
    var starIdx, matchIdx := -1, 0;
    assert value[0..] == value && pattern[0..] == pattern;
    while valueIdx < |value|
      invariant 0 <= valueIdx <= |value| && 0 <= patternIdx <= |pattern| && 0 <= matchIdx <= valueIdx
      invariant Pending(value, pattern, valueIdx, patternIdx, starIdx, matchIdx)
      invariant WithinBudget(iterations, matchIdx, patternIdx, pattern)
      decreases |value| - matchIdx, |pattern| - patternIdx
    {
      ghost var m, p := matchIdx, patternIdx;
      if patternIdx < |pattern| && pattern[patternIdx] == STAR {
        MeetStar(value, pattern, valueIdx, patternIdx, starIdx, matchIdx);
        starIdx := patternIdx;
        matchIdx := valueIdx;
        patternIdx := patternIdx + 1;
      } else if patternIdx < |pattern| && pattern[patternIdx] == value[valueIdx] {
        MeetByte(value, pattern, valueIdx, patternIdx, starIdx, matchIdx);
        valueIdx := valueIdx + 1;
        patternIdx := patternIdx + 1;
      } else if starIdx != -1 {
        FallBack(value, pattern, valueIdx, patternIdx, starIdx, matchIdx);
        patternIdx := starIdx + 1;
        matchIdx := matchIdx + 1;
        valueIdx := matchIdx;
      } else {
        Mismatch(value, pattern, valueIdx, patternIdx, matchIdx);
        BudgetBound(iterations, matchIdx, patternIdx, pattern, |value|);
        return false, iterations;
      }
      BudgetGrows(iterations, m, matchIdx, p, patternIdx, pattern);
      iterations := iterations + 1;
    }
    BudgetBound(iterations, matchIdx, patternIdx, pattern, |value|);
    ValueExhausted(value, pattern, patternIdx, starIdx, matchIdx);
    patternIdx := SkipStars(pattern, patternIdx);
    MatchesIsLanguage(value, pattern);
    return patternIdx == |pattern|, iterations;
  }

  /** The loop that follows the value: nothing but stars may be left of the pattern. */
  method SkipStars(pattern: seq<byte>, start: nat) returns (patternIdx: nat)
    requires start <= |pattern|
    ensures patternIdx == |pattern| <==> Matches([], pattern[start..])
  {
    patternIdx := start;
    ghost var left := pattern[start..];
    while patternIdx < |pattern| && pattern[patternIdx] == STAR
      invariant start <= patternIdx <= |pattern|
      invariant forall i :: 0 <= i < patternIdx - start ==> left[i] == STAR
    {
      patternIdx := patternIdx + 1;
    }
    EmptyMatchesStars(left);
    if patternIdx < |pattern| {
      assert left[patternIdx - start] != STAR;
    }
  }
}
