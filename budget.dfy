/** Running totals of non-negative costs. Both budget loops of the
    retrieval pipeline add one cost per item and stop at the first item
    that would take the total over a ceiling; these facts say that such a
    stop yields the longest prefix within the ceiling. */
module Budget {

  /** The sum of the costs, accumulated front to back. */
  function Sum(costs: seq<nat>): nat {
    if costs == [] then 0 else Sum(costs[..|costs| - 1]) + costs[|costs| - 1]
  }

  /** Extending a prefix by one item adds that item's cost. */
  lemma SumSnoc(costs: seq<nat>, i: nat)
    requires i < |costs|
    ensures Sum(costs[..i + 1]) == Sum(costs[..i]) + costs[i]
  {
    assert costs[..i + 1][..i] == costs[..i];
  }

  /** A longer prefix never costs less. */
  lemma {:induction false} SumPrefixGrows(costs: seq<nat>, i: nat, j: nat)
    requires i <= j <= |costs|
    ensures Sum(costs[..i]) <= Sum(costs[..j])
    decreases j - i
  {
    if i < j {
      SumPrefixGrows(costs, i, j - 1);
      SumSnoc(costs, j - 1);
    }
  }

  /** Costs of at least `least` each add up to at least `least` per item. */
  lemma {:induction false} SumAtLeast(costs: seq<nat>, least: nat)
    requires forall k :: 0 <= k < |costs| ==> costs[k] >= least
    ensures Sum(costs) >= least * |costs|
  {
    if costs != [] {
      SumAtLeast(costs[..|costs| - 1], least);
    }
  }

  /** Stopping at the first item that would overflow leaves the longest
      prefix within the ceiling: every longer prefix is over it. */
  lemma GreedyStopIsLongest(costs: seq<nat>, n: nat, ceiling: nat)
    requires n < |costs|
    requires Sum(costs[..n]) + costs[n] > ceiling
    ensures forall m :: n < m <= |costs| ==> Sum(costs[..m]) > ceiling
  {
    SumSnoc(costs, n);
    forall m | n < m <= |costs| ensures Sum(costs[..m]) > ceiling {
      SumPrefixGrows(costs, n + 1, m);
    }
  }

  /** The greedy scan from item `i` on, with the first `i` items taken. */
  function FitFrom(costs: seq<nat>, ceiling: nat, i: nat): (n: nat)
    requires i <= |costs| && Sum(costs[..i]) <= ceiling
    ensures i <= n <= |costs| && Sum(costs[..n]) <= ceiling
    ensures forall m :: n < m <= |costs| ==> Sum(costs[..m]) > ceiling
    decreases |costs| - i
  {
    if i == |costs| then i
    else if Sum(costs[..i]) + costs[i] <= ceiling then
      SumSnoc(costs, i);
      FitFrom(costs, ceiling, i + 1)
    else
      GreedyStopIsLongest(costs, i, ceiling);
      i
  }

  /** How many items the greedy scan takes: the longest prefix within the
      ceiling. */
  function Fit(costs: seq<nat>, ceiling: nat): (n: nat)
    ensures n <= |costs| && Sum(costs[..n]) <= ceiling
    ensures forall m :: n < m <= |costs| ==> Sum(costs[..m]) > ceiling
  {
    FitFrom(costs, ceiling, 0)
  }

  /** The longest prefix within the ceiling is unique, so any scan that
      stops at one takes exactly `Fit` items. */
  lemma LongestIsFit(costs: seq<nat>, n: nat, ceiling: nat)
    requires n <= |costs| && Sum(costs[..n]) <= ceiling
    requires forall m :: n < m <= |costs| ==> Sum(costs[..m]) > ceiling
    ensures n == Fit(costs, ceiling)
  {
    var f := Fit(costs, ceiling);
    assert Sum(costs[..f]) <= ceiling;
    assert Sum(costs[..n]) <= ceiling;
  }
}
