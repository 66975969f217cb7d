/** The recency weighting the report scripts apply to one evaluator's
    chronologically ordered scores for one subject: a lone score is kept as
    it is; otherwise the last score gets weight `wLast` and the mean of the
    earlier ones weight `wPrev`. The weights are used as given: nothing
    normalises them and nothing guards a zero sum. */
module Weighting {
  import opened Stats
  import opened Seqs

  function Recency(scores: seq<real>, wLast: real, wPrev: real): (w: real)
    requires |scores| > 0
    ensures |scores| == 1 ==> w == scores[0]
  {
    if |scores| == 1 then scores[0]
    else LastAndMean(scores[|scores| - 1], scores[..|scores| - 1], wLast, wPrev)
  }

  /** `wLast` times the singled-out score plus `wPrev` times the mean of the others. */
  function LastAndMean(last: real, others: seq<real>, wLast: real, wPrev: real): real
    requires |others| > 0
  {
    wLast * last + wPrev * Mean(others)
  }

  lemma MulNonNegative(x: real, y: real)
    requires x >= 0.0 && y >= 0.0
    ensures x * y >= 0.0
  {
  }

  /** Two non-negative weights applied to values in [lo, hi]. */
  lemma WeightedBetween(wLast: real, wPrev: real, a: real, b: real, lo: real, hi: real)
    requires wLast >= 0.0 && wPrev >= 0.0
    requires lo <= a <= hi && lo <= b <= hi
    ensures (wLast + wPrev) * lo <= wLast * a + wPrev * b <= (wLast + wPrev) * hi
  {
    MulNonNegative(wLast, a - lo);
    MulNonNegative(wPrev, b - lo);
    assert wLast * a + wPrev * b - (wLast + wPrev) * lo == wLast * (a - lo) + wPrev * (b - lo);
    MulNonNegative(wLast, hi - a);
    MulNonNegative(wPrev, hi - b);
    assert (wLast + wPrev) * hi - (wLast * a + wPrev * b) == wLast * (hi - a) + wPrev * (hi - b);
  }

  /** With non-negative weights that sum to one, the weighted score stays
      within the range of the scores it combines. */
  lemma RecencyWithinRange(scores: seq<real>, wLast: real, wPrev: real, lo: real, hi: real)
    requires |scores| > 0
    requires wLast >= 0.0 && wPrev >= 0.0 && wLast + wPrev == 1.0
    requires forall i :: 0 <= i < |scores| ==> lo <= scores[i] <= hi
    ensures lo <= Recency(scores, wLast, wPrev) <= hi
  {
    if |scores| > 1 {
      var prev := scores[..|scores| - 1];
      MeanBounds(prev, lo, hi);
      WeightedBetween(wLast, wPrev, scores[|scores| - 1], Mean(prev), lo, hi);
    }
  }

  /** Only the last position is singled out: reordering the earlier scores
      does not change the result. */
  lemma RecencyIgnoresEarlierOrder(prev1: seq<real>, prev2: seq<real>, last: real, wLast: real, wPrev: real)
    requires multiset(prev1) == multiset(prev2)
    ensures Recency(prev1 + [last], wLast, wPrev) == Recency(prev2 + [last], wLast, wPrev)
  {
    SumPermutation(prev1, prev2);
    assert |prev1| == |multiset(prev1)| == |prev2|;
    assert (prev1 + [last])[..|prev1|] == prev1;
    assert (prev2 + [last])[..|prev2|] == prev2;
  }

  /** Weighting a group after a stable sort: the weight `wLast` goes to the
      element the sort puts last (the latest, ties to the latest input
      position) and `wPrev` to the mean of all the others, whatever their order. */
  lemma {:induction false} RecencyOfSorted<T>(group: seq<T>, le: (T, T) -> bool, score: T -> real, wLast: real, wPrev: real)
    requires |group| > 1
    ensures var j := LatestIndex(group, le);
      Recency(Map(SortWith(group, le), score), wLast, wPrev)
      == LastAndMean(score(group[j]), Map(RemoveAt(group, j), score), wLast, wPrev)
  {
    var j := LatestIndex(group, le);
    SortWithLast(group, le);
    SortedFrontPermutation(group, le, score);
    RecencyOfParts(Map(SortWith(group, le), score), score(group[j]), Map(RemoveAt(group, j), score), wLast, wPrev);
  }

  /** The weighted score only needs the last value and the multiset of the others. */
  lemma RecencyOfParts(scores: seq<real>, last: real, others: seq<real>, wLast: real, wPrev: real)
    requires |scores| > 1 && scores[|scores| - 1] == last
    requires multiset(scores[..|scores| - 1]) == multiset(others)
    ensures |others| > 0 && Recency(scores, wLast, wPrev) == LastAndMean(last, others, wLast, wPrev)
  {
    MeanPermutation(scores[..|scores| - 1], others);
  }

  lemma SortedFrontPermutation<T>(group: seq<T>, le: (T, T) -> bool, score: T -> real)
    requires |group| > 1
    ensures multiset(Map(SortWith(group, le), score)[..|group| - 1])
         == multiset(Map(RemoveAt(group, LatestIndex(group, le)), score))
  {
    var sorted := SortWith(group, le);
    var front := sorted[..|group| - 1];
    SortWithAllButLast(group, le);
    MapPermutation(front, RemoveAt(group, LatestIndex(group, le)), score);
    assert Map(sorted, score)[..|group| - 1] == Map(front, score);
  }

  /** A worked example: [4, 6, 10] at 0.7/0.3 gives 8.5. */
  lemma RecencyExample()
    ensures Recency([4.0, 6.0, 10.0], 0.7, 0.3) == 8.5
  {
    assert [4.0, 6.0, 10.0][..2] == [4.0, 6.0];
    assert [4.0, 6.0][..1] == [4.0];
    assert [4.0][..0] == [];
    assert Sum([4.0, 6.0]) == 10.0;
  }

  /** Equal weights do not turn this rule into a plain mean: 0.5/0.5 on
      [0, 0, 3] gives 1.5, while the mean is 1. */
  lemma RecencyEqualWeightsIsNotMean()
    ensures Recency([0.0, 0.0, 3.0], 0.5, 0.5) == 1.5
    ensures Mean([0.0, 0.0, 3.0]) == 1.0
  {
    assert [0.0, 0.0, 3.0][..2] == [0.0, 0.0];
    assert [0.0, 0.0][..1] == [0.0];
    assert [0.0][..0] == [];
    assert Sum([0.0, 0.0]) == 0.0;
    assert Sum([0.0, 0.0, 3.0]) == 3.0;
  }
}
