/** Sums, means, counts and percentages over sequences of scores: the
    arithmetic that `sum(...) / len(...)`, `np.mean`, `Series.mean` and
    `(s >= HIGH).mean() * 100` perform in the report scripts. */
module Stats {
  import opened Seqs

  function Sum(s: seq<real>): real {
    if s == [] then 0.0 else Sum(s[..|s| - 1]) + s[|s| - 1]
  }

  function Mean(s: seq<real>): real
    requires |s| > 0
  {
    Sum(s) / |s| as real
  }

  lemma SumAppend(a: seq<real>, x: real)
    ensures Sum(a + [x]) == Sum(a) + x
  {
    assert (a + [x])[..|a|] == a;
  }

  lemma {:induction false} SumConcat(a: seq<real>, b: seq<real>)
    ensures Sum(a + b) == Sum(a) + Sum(b)
    decreases |b|
  {
    if b == [] {
      assert a + b == a;
    } else {
      var b' := b[..|b| - 1];
      assert a + b == (a + b') + [b[|b| - 1]];
      SumAppend(a + b', b[|b| - 1]);
      SumConcat(a, b');
      SumAppend(b', b[|b| - 1]);
      assert b == b' + [b[|b| - 1]];
    }
  }

  /** A sum of values between `lo` and `hi` lies between `|s|*lo` and `|s|*hi`. */
  lemma {:induction false} SumBounds(s: seq<real>, lo: real, hi: real)
    requires forall i :: 0 <= i < |s| ==> lo <= s[i] <= hi
    ensures |s| as real * lo <= Sum(s) <= |s| as real * hi
  {
    if s != [] {
      SumBounds(s[..|s| - 1], lo, hi);
    }
  }

  /** The mean lies between the smallest and the largest value. */
  lemma MeanBounds(s: seq<real>, lo: real, hi: real)
    requires |s| > 0
    requires forall i :: 0 <= i < |s| ==> lo <= s[i] <= hi
    ensures lo <= Mean(s) <= hi
  {
    SumBounds(s, lo, hi);
    var n := |s| as real;
    assert Sum(s) / n >= (n * lo) / n;
    assert Sum(s) / n <= (n * hi) / n;
  }

  /** Removing the element at `i` takes it out of the sum. */
  lemma SumRemove(s: seq<real>, i: nat)
    requires i < |s|
    ensures Sum(s) == Sum(RemoveAt(s, i)) + s[i]
  {
    var l, r := s[..i], s[i + 1..];
    SplitAround(s, i);
    SumConcat(l + [s[i]], r);
    SumAppend(l, s[i]);
    SumConcat(l, r);
  }

  /** The sum depends only on the multiset of values, not their order. */
  lemma {:induction false} SumPermutation(a: seq<real>, b: seq<real>)
    requires multiset(a) == multiset(b)
    ensures Sum(a) == Sum(b)
    decreases |a|
  {
    if a == [] {
      assert |b| == |multiset(b)| == 0;
    } else {
      var j := |a| - 1;
      PermutationHas(a, b, j);
      var i := IndexOf(b, a[j]);
      PermutationWithout(a, b, j, i);
      SumPermutation(RemoveAt(a, j), RemoveAt(b, i));
      SumRemove(a, j);
      SumRemove(b, i);
    }
  }

  /** The mean, too, depends only on the multiset of values. */
  lemma MeanPermutation(a: seq<real>, b: seq<real>)
    requires |a| > 0 && multiset(a) == multiset(b)
    ensures |b| > 0 && Mean(a) == Mean(b)
  {
    assert |a| == |multiset(a)| == |multiset(b)| == |b|;
    SumPermutation(a, b);
  }

  /** How many values satisfy `p`. */
  function Count(s: seq<real>, p: real -> bool): (n: nat)
    ensures n <= |s|
  {
    if s == [] then 0 else Count(s[..|s| - 1], p) + (if p(s[|s| - 1]) then 1 else 0)
  }

  /** All values satisfy `p` exactly when `p` counts every one of them. */
  lemma {:induction false} CountAll(s: seq<real>, p: real -> bool)
    ensures Count(s, p) == |s| <==> forall i :: 0 <= i < |s| ==> p(s[i])
  {
    if s != [] {
      CountAll(s[..|s| - 1], p);
      if !p(s[|s| - 1]) {
        assert Count(s[..|s| - 1], p) <= |s| - 1;
      }
    }
  }

  /** `100 * k / n`, the share of `k` among `n` as a percentage. */
  function Percent(k: nat, n: nat): (r: real)
    requires 0 < n && k <= n
    ensures 0.0 <= r <= 100.0
    ensures r == 100.0 <==> k == n
    ensures r >= 50.0 <==> 2 * k >= n
  {
    QuotientFacts(k as real, n as real);
    assert (2 * k) as real == 2.0 * (k as real);
    (k as real / n as real) * 100.0
  }

  /** The quotient of `0 <= x <= y` lies in [0, 1], is 1 exactly for `x == y`
      and reaches one half exactly when `2x >= y`. */
  lemma QuotientFacts(x: real, y: real)
    requires y > 0.0 && 0.0 <= x <= y
    ensures 0.0 <= x / y <= 1.0
    ensures x / y == 1.0 <==> x == y
    ensures x / y >= 0.5 <==> 2.0 * x >= y
  {
    var q := x / y;
    assert q * y == x;
    ProductSign(q, y);
    assert (q - 1.0) * y == x - y;
    ProductSign(q - 1.0, y);
    assert (q - 0.5) * y == x - 0.5 * y;
    ProductSign(q - 0.5, y);
  }

  /** A positive factor keeps the sign of the other. */
  lemma ProductSign(a: real, y: real)
    requires y > 0.0
    ensures a > 0.0 <==> a * y > 0.0
    ensures a == 0.0 <==> a * y == 0.0
  {
    if a < 0.0 {
      assert (-a) * y > 0.0;
    }
  }

  /** The percentage of values satisfying `p`. */
  function PercentWhere(s: seq<real>, p: real -> bool): (r: real)
    requires |s| > 0
    ensures 0.0 <= r <= 100.0
    ensures r == 100.0 <==> forall i :: 0 <= i < |s| ==> p(s[i])
  {
    CountAll(s, p);
    Percent(Count(s, p), |s|)
  }

  /** A share of at least half: `PercentWhere >= 50` counts the values. */
  lemma PercentWhereHalf(s: seq<real>, p: real -> bool)
    requires |s| > 0
    ensures PercentWhere(s, p) >= 50.0 <==> 2 * Count(s, p) >= |s|
  {
  }

  /** The masks `s >= high` and `s < low` of the threshold columns. */
  function AtOrAbove(high: real): real -> bool {
    x => x >= high
  }

  function Below(low: real): real -> bool {
    x => x < low
  }

  ghost predicate NoDuplicates<T>(s: seq<T>) {
    forall i, j :: 0 <= i < j < |s| ==> s[i] != s[j]
  }

  /** The distinct values of `s` in order of first appearance (`unique()`). */
  function Distinct<T(==,!new)>(s: seq<T>): (r: seq<T>)
    ensures NoDuplicates(r)
    ensures forall x :: x in r <==> x in s
  {
    if s == [] then []
    else
      var d := Distinct(s[..|s| - 1]);
      assert forall x :: x in s <==> x in s[..|s| - 1] || x == s[|s| - 1];
      if s[|s| - 1] in d then d else d + [s[|s| - 1]]
  }

  /** A sequence without duplicates has as many elements as its set. */
  lemma {:induction false} NoDuplicatesCard<T>(s: seq<T>)
    requires NoDuplicates(s)
    ensures |set x | x in s| == |s|
  {
    if s != [] {
      var s' := s[..|s| - 1];
      NoDuplicatesCard(s');
      assert (set x | x in s) == (set x | x in s') + {s[|s| - 1]};
      assert s[|s| - 1] !in s';
    }
  }

  /** Without duplicates, a value occurs at most once. */
  lemma {:induction false} NoDuplicatesOnce<T>(s: seq<T>, x: T)
    requires NoDuplicates(s)
    ensures multiset(s)[x] <= 1
  {
    if s != [] {
      var s' := s[..|s| - 1];
      NoDuplicatesOnce(s', x);
      assert s == s' + [s[|s| - 1]];
      if s[|s| - 1] == x {
        assert x !in s';
      }
    }
  }

  /** Reordering a sequence without duplicates keeps it without duplicates. */
  lemma NoDuplicatesPermutation<T>(a: seq<T>, b: seq<T>)
    requires multiset(a) == multiset(b) && NoDuplicates(a)
    ensures NoDuplicates(b)
  {
    forall i, j | 0 <= i < j < |b| ensures b[i] != b[j] {
      NoDuplicatesOnce(a, b[i]);
      if b[i] == b[j] {
        OccursTwice(b, i, j);
      }
    }
  }

  lemma OccursTwice<T>(s: seq<T>, i: nat, j: nat)
    requires i < j < |s| && s[i] == s[j]
    ensures multiset(s)[s[i]] >= 2
  {
    assert s == s[..j] + s[j..];
    assert s[i] in multiset(s[..j]) && s[j] in multiset(s[j..]);
  }

  /** `nunique()`: the number of distinct values is the size of their set. */
  lemma DistinctCount<T(!new)>(s: seq<T>)
    ensures |Distinct(s)| == |set x | x in s|
  {
    var d := Distinct(s);
    NoDuplicatesCard(d);
    assert (set x | x in d) == (set x | x in s);
  }
}
