/** The top-N step of `process_query`: the candidate positions sorted by
    descending similarity, stably (equal scores keep ascending position),
    cut to the first N. Scores are abstract integers, standing for the
    floating-point dot products the source computes. */
module Ranking {

  /** How many candidates survive the ranking. */
  const TopCount: nat := 200

  /** Position `i` comes before position `j`: a higher score, or the same
      score at an earlier position. */
  predicate Before(scores: seq<int>, i: nat, j: nat)
    requires i < |scores| && j < |scores|
  {
    scores[i] > scores[j] || (scores[i] == scores[j] && i < j)
  }

  /** Every entry of `xs` is a position of `scores`. */
  predicate Positions(scores: seq<int>, xs: seq<nat>) {
    forall k :: 0 <= k < |xs| ==> xs[k] < |scores|
  }

  /** `xs` lists positions of `scores` in strictly descending rank. */
  predicate Ranked(scores: seq<int>, xs: seq<nat>) {
    && Positions(scores, xs)
    && forall a, b :: 0 <= a < b < |xs| ==> Before(scores, xs[a], xs[b])
  }

  predicate Distinct(xs: seq<nat>) {
    forall a, b :: 0 <= a < b < |xs| ==> xs[a] != xs[b]
  }

  /** `range(n)`. */
  function Range(n: nat): (xs: seq<nat>)
    ensures |xs| == n && forall k :: 0 <= k < n ==> xs[k] == k
  {
    seq(n, k => k)
  }

  /** Places position `x` into a ranked list. */
  function Insert(scores: seq<int>, x: nat, xs: seq<nat>): (r: seq<nat>)
    requires x < |scores| && Ranked(scores, xs) && x !in xs
    ensures Ranked(scores, r)
    ensures multiset(r) == multiset(xs) + multiset{x}
    ensures |r| == |xs| + 1
  {
    if xs == [] then [x]
    else if Before(scores, x, xs[0]) then [x] + xs
    else
      var tail := xs[1..];
      assert forall k :: 0 <= k < |tail| ==> tail[k] == xs[k + 1];
      var rest := Insert(scores, x, tail);
      RankedCons(scores, xs[0], x, tail, rest);
      assert xs == [xs[0]] + tail;
      [xs[0]] + rest
  }

  /** The head of a ranked list stays ahead of everything the rest of the
      list and an inserted lower-ranked position can be rearranged into. */
  lemma RankedCons(scores: seq<int>, h: nat, x: nat, tail: seq<nat>, rest: seq<nat>)
    requires h < |scores| && x < |scores| && x != h && !Before(scores, x, h)
    requires Ranked(scores, [h] + tail) && Ranked(scores, rest)
    requires multiset(rest) == multiset(tail) + multiset{x}
    ensures Ranked(scores, [h] + rest)
  {
    var xs := [h] + tail;
    forall b | 0 <= b < |rest| ensures Before(scores, h, rest[b]) {
      assert rest[b] in multiset(rest);
      if rest[b] != x {
        assert rest[b] in multiset(tail);
        var j :| 0 <= j < |tail| && tail[j] == rest[b];
        assert xs[0] == h && xs[j + 1] == rest[b];
        assert Before(scores, xs[0], xs[j + 1]);
      } else {
        assert Before(scores, h, x);
      }
    }
    var r := [h] + rest;
    forall a, b | 0 <= a < b < |r| ensures Before(scores, r[a], r[b]) {
      if a > 0 {
        assert r[a] == rest[a - 1] && r[b] == rest[b - 1];
      } else {
        assert r[b] == rest[b - 1];
      }
    }
  }

  /** Insertion sort of distinct positions into descending rank. */
  function SortByScore(scores: seq<int>, xs: seq<nat>): (r: seq<nat>)
    requires Positions(scores, xs) && Distinct(xs)
    ensures Ranked(scores, r)
    ensures multiset(r) == multiset(xs)
    ensures |r| == |xs|
  {
    if xs == [] then []
    else
      var init := xs[..|xs| - 1];
      var last := xs[|xs| - 1];
      var sorted := SortByScore(scores, init);
      assert last !in multiset(init);
      assert xs == init + [last];
      Insert(scores, last, sorted)
  }

  /** `sorted(range(len(scores)), key=..., reverse=True)[:n]`. */
  function TopN(scores: seq<int>, n: nat): seq<nat> {
    var all := SortByScore(scores, Range(|scores|));
    all[..if n < |scores| then n else |scores|]
  }

  /** What the ranking promises: `min(n, len(scores))` distinct valid
      positions, scores non-increasing along the list, equal scores in
      ascending position, and every position left out ranks after every
      position kept: a lower score, or the same score at a later position. */
  lemma TopNProperties(scores: seq<int>, n: nat)
    ensures var top := TopN(scores, n);
            && |top| == (if n < |scores| then n else |scores|)
            && (forall k :: 0 <= k < |top| ==> top[k] < |scores|)
            && (forall a, b :: 0 <= a < b < |top| ==> top[a] != top[b])
            && (forall a, b :: 0 <= a < b < |top| ==> scores[top[a]] >= scores[top[b]])
            && (forall a, b :: 0 <= a < b < |top| && scores[top[a]] == scores[top[b]] ==> top[a] < top[b])
            && (forall i, k :: 0 <= i < |scores| && i !in top && 0 <= k < |top| ==> scores[i] <= scores[top[k]])
            && (forall i, k :: 0 <= i < |scores| && i !in top && 0 <= k < |top| ==> Before(scores, top[k], i))
  {
    var all := SortByScore(scores, Range(|scores|));
    var m := if n < |scores| then n else |scores|;
    RankedPrefix(scores, all, m);
    RankedOrder(scores, all[..m]);
    SortedIsPermutation(scores);
    OmittedBelow(scores, all, m);
  }

  /** A prefix of a ranked list is ranked. */
  lemma RankedPrefix(scores: seq<int>, xs: seq<nat>, m: nat)
    requires Ranked(scores, xs) && m <= |xs|
    ensures Ranked(scores, xs[..m])
  {
    assert forall k :: 0 <= k < m ==> xs[..m][k] == xs[k];
  }

  /** Descending rank spelled out: distinct positions, non-increasing
      scores, and ascending positions among equal scores. */
  lemma RankedOrder(scores: seq<int>, top: seq<nat>)
    requires Ranked(scores, top)
    ensures forall a, b :: 0 <= a < b < |top| ==> top[a] != top[b]
    ensures forall a, b :: 0 <= a < b < |top| ==> scores[top[a]] >= scores[top[b]]
    ensures forall a, b :: 0 <= a < b < |top| && scores[top[a]] == scores[top[b]] ==> top[a] < top[b]
  {
    forall a, b | 0 <= a < b < |top| ensures top[a] != top[b] && scores[top[a]] >= scores[top[b]] {
      assert Before(scores, top[a], top[b]);
    }
  }

  /** In a ranked list of all positions, a position past the cut scores no
      higher than any position before it. */
  lemma OmittedBelow(scores: seq<int>, all: seq<nat>, m: nat)
    requires Ranked(scores, all) && m <= |all|
    requires forall i :: 0 <= i < |scores| ==> i in all
    ensures forall i, k :: 0 <= i < |scores| && i !in all[..m] && 0 <= k < m ==> Before(scores, all[..m][k], i)
  {
    forall i, k | 0 <= i < |scores| && i !in all[..m] && 0 <= k < m
      ensures Before(scores, all[..m][k], i)
    {
      assert i in all;
      var p :| 0 <= p < |all| && all[p] == i;
      assert forall q :: 0 <= q < m ==> all[..m][q] == all[q];
      assert p >= m;
      assert Before(scores, all[k], all[p]);
    }
  }

  /** Every candidate is ranked exactly once before the cut. */
  lemma SortedIsPermutation(scores: seq<int>)
    ensures multiset(SortByScore(scores, Range(|scores|))) == multiset(Range(|scores|))
    ensures forall i :: 0 <= i < |scores| ==> i in SortByScore(scores, Range(|scores|))
  {
    var all := SortByScore(scores, Range(|scores|));
    forall i | 0 <= i < |scores| ensures i in all {
      assert Range(|scores|)[i] == i;
      assert i in multiset(all);
    }
  }
}
