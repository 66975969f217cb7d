/** Sequence operations behind the pandas calls of the report scripts:
    column selection (`Map`), boolean row masks (`Filter`) and the stable
    `sort_values` that orders each group's submissions before weighting. */
module Seqs {

  function Map<T, U>(s: seq<T>, f: T -> U): (r: seq<U>)
    ensures |r| == |s| && forall i :: 0 <= i < |s| ==> r[i] == f(s[i])
  {
    seq(|s|, i requires 0 <= i < |s| => f(s[i]))
  }

  function Filter<T>(s: seq<T>, p: T -> bool): (r: seq<T>)
    ensures |r| <= |s|
    ensures forall i :: 0 <= i < |r| ==> p(r[i])
  {
    if s == [] then []
    else
      var rest := Filter(s[..|s| - 1], p);
      if p(s[|s| - 1]) then rest + [s[|s| - 1]] else rest
  }

  /** The mask keeps elements of the input only, each at most as often. */
  lemma {:induction false} FilterSubset<T>(s: seq<T>, p: T -> bool)
    ensures multiset(Filter(s, p)) <= multiset(s)
  {
    if s != [] {
      FilterSubset(s[..|s| - 1], p);
      assert s == s[..|s| - 1] + [s[|s| - 1]];
    }
  }

  /** Every element the mask accepts is kept. */
  lemma {:induction false} FilterKeeps<T>(s: seq<T>, p: T -> bool, i: nat)
    requires i < |s| && p(s[i])
    ensures s[i] in Filter(s, p)
  {
    var prefix := s[..|s| - 1];
    if i < |s| - 1 {
      assert prefix[i] == s[i];
      FilterKeeps(prefix, p, i);
    }
  }

  /** Every element the mask accepts is kept, stated for all of them. */
  lemma FilterKeepsAll<T>(s: seq<T>, p: T -> bool)
    ensures forall x :: x in s && p(x) ==> x in Filter(s, p)
  {
    forall x | x in s && p(x) ensures x in Filter(s, p) {
      var i :| 0 <= i < |s| && s[i] == x;
      FilterKeeps(s, p, i);
    }
  }

  /** The mask keeps nothing exactly when it accepts no element. */
  lemma FilterEmpty<T>(s: seq<T>, p: T -> bool)
    ensures Filter(s, p) == [] <==> forall i :: 0 <= i < |s| ==> !p(s[i])
  {
    if exists i :: 0 <= i < |s| && p(s[i]) {
      var i :| 0 <= i < |s| && p(s[i]);
      FilterKeeps(s, p, i);
    }
  }

  /** An element of a non-empty sequence is in its front or is its last. */
  lemma InFrontOrLast<T>(s: seq<T>, x: T)
    requires s != []
    ensures x in s <==> x in s[..|s| - 1] || x == s[|s| - 1]
  {
    assert s == s[..|s| - 1] + [s[|s| - 1]];
  }

  lemma MapAppend<T, U>(a: seq<T>, b: seq<T>, f: T -> U)
    ensures Map(a + b, f) == Map(a, f) + Map(b, f)
  {
  }

  /** Mapping commutes with taking one element out. */
  lemma MapRemoveAt<T, U>(s: seq<T>, i: nat, f: T -> U)
    requires i < |s|
    ensures Map(RemoveAt(s, i), f) == RemoveAt(Map(s, f), i)
  {
    var l, r := Map(RemoveAt(s, i), f), RemoveAt(Map(s, f), i);
    forall n | 0 <= n < |l| ensures l[n] == r[n] {
      if n < i {
        assert RemoveAt(s, i)[n] == s[n];
      } else {
        assert RemoveAt(s, i)[n] == s[n + 1];
      }
    }
  }

  /** The position of the first `x` in `s` (`str.index`). */
  function IndexOf<T(==)>(s: seq<T>, x: T): (i: nat)
    requires x in s
    ensures i < |s| && s[i] == x && x !in s[..i]
  {
    if s[0] == x then 0 else 1 + IndexOf(s[1..], x)
  }

  function RemoveAt<T>(s: seq<T>, i: nat): (r: seq<T>)
    requires i < |s|
    ensures |r| == |s| - 1
  {
    s[..i] + s[i + 1..]
  }

  /** A sequence is the part before `i`, the element at `i` and the part
      after it; removing the element leaves the two parts. */
  lemma SplitAround<T>(s: seq<T>, i: nat)
    requires i < |s|
    ensures (s[..i] + [s[i]]) + s[i + 1..] == s
    ensures RemoveAt(s, i) == s[..i] + s[i + 1..]
  {
  }

  lemma MultisetRemoveAt<T>(s: seq<T>, i: nat)
    requires i < |s|
    ensures multiset(s) == multiset(RemoveAt(s, i)) + multiset{s[i]}
  {
    assert s == s[..i] + [s[i]] + s[i + 1..];
  }

  /** Taking the same element out of two permutations of each other leaves
      permutations of each other. */
  lemma PermutationWithout<T>(a: seq<T>, b: seq<T>, j: nat, i: nat)
    requires multiset(a) == multiset(b) && j < |a| && i < |b| && a[j] == b[i]
    ensures multiset(RemoveAt(a, j)) == multiset(RemoveAt(b, i))
  {
    MultisetRemoveAt(a, j);
    MultisetRemoveAt(b, i);
    var ma, mb, x := multiset(RemoveAt(a, j)), multiset(RemoveAt(b, i)), multiset{a[j]};
    assert forall y :: ma[y] == (ma + x)[y] - x[y] == (mb + x)[y] - x[y] == mb[y];
  }

  /** An element of a permutation's source occurs in the permutation. */
  lemma PermutationHas<T>(a: seq<T>, b: seq<T>, j: nat)
    requires multiset(a) == multiset(b) && j < |a|
    ensures a[j] in b
  {
    assert a[j] in multiset(a);
  }

  /** Mapping a permutation gives a permutation. */
  lemma {:induction false} MapPermutation<T, U>(a: seq<T>, b: seq<T>, f: T -> U)
    requires multiset(a) == multiset(b)
    ensures multiset(Map(a, f)) == multiset(Map(b, f))
    decreases |a|
  {
    if a == [] {
      assert |b| == |multiset(b)| == 0;
    } else {
      var j := |a| - 1;
      PermutationHas(a, b, j);
      var i := IndexOf(b, a[j]);
      PermutationWithout(a, b, j, i);
      MapPermutation(RemoveAt(a, j), RemoveAt(b, i), f);
      MapRemoveAt(a, j, f);
      MapRemoveAt(b, i, f);
      MultisetRemoveAt(Map(a, f), j);
      MultisetRemoveAt(Map(b, f), i);
    }
  }

  /** `le` orders every pair and composes: what a sort key needs. */
  ghost predicate TotalPreorder<T(!new)>(le: (T, T) -> bool) {
    && (forall a, b :: le(a, b) || le(b, a))
    && (forall a, b, c :: le(a, b) && le(b, c) ==> le(a, c))
  }

  ghost predicate SortedBy<T>(s: seq<T>, le: (T, T) -> bool) {
    forall i, j :: 0 <= i < j < |s| ==> le(s[i], s[j])
  }

  /** Places `x` after every element of `t` that is not above it, so that
      among equal keys the later input element comes later. */
  function Insert<T>(x: T, t: seq<T>, le: (T, T) -> bool): (r: seq<T>)
    ensures |r| == |t| + 1
  {
    if t == [] || le(t[|t| - 1], x) then t + [x]
    else Insert(x, t[..|t| - 1], le) + [t[|t| - 1]]
  }

  lemma {:induction false} InsertPermutes<T>(x: T, t: seq<T>, le: (T, T) -> bool)
    ensures multiset(Insert(x, t, le)) == multiset(t) + multiset{x}
    decreases |t|
  {
    if !(t == [] || le(t[|t| - 1], x)) {
      var t' := t[..|t| - 1];
      assert t == t' + [t[|t| - 1]];
      InsertPermutes(x, t', le);
    }
  }

  /** A stable sort (insertion sort) under the ordering `le`. */
  function SortWith<T>(s: seq<T>, le: (T, T) -> bool): (r: seq<T>)
    ensures |r| == |s|
  {
    if s == [] then []
    else Insert(s[|s| - 1], SortWith(s[..|s| - 1], le), le)
  }

  /** The sort is a permutation of its input. */
  lemma {:induction false} SortWithPermutes<T>(s: seq<T>, le: (T, T) -> bool)
    ensures multiset(SortWith(s, le)) == multiset(s)
  {
    if s != [] {
      SortWithPermutes(s[..|s| - 1], le);
      InsertPermutes(s[|s| - 1], SortWith(s[..|s| - 1], le), le);
      assert s == s[..|s| - 1] + [s[|s| - 1]];
    }
  }

  lemma {:induction false} InsertSorted<T(!new)>(x: T, t: seq<T>, le: (T, T) -> bool)
    requires TotalPreorder(le) && SortedBy(t, le)
    ensures SortedBy(Insert(x, t, le), le)
    decreases |t|
  {
    if t == [] || le(t[|t| - 1], x) {
    } else {
      var t' := t[..|t| - 1];
      var last := t[|t| - 1];
      InsertSorted(x, t', le);
      var r' := Insert(x, t', le);
      InsertPermutes(x, t', le);
      assert le(x, last);
      forall k | 0 <= k < |r'| ensures le(r'[k], last) {
        assert r'[k] in multiset(r');
        if r'[k] != x {
          assert r'[k] in multiset(t');
          var m :| 0 <= m < |t'| && t'[m] == r'[k];
          assert t[m] == t'[m];
        }
      }
    }
  }

  /** The sort yields an ordered permutation of its input. */
  lemma {:induction false} SortWithSorted<T(!new)>(s: seq<T>, le: (T, T) -> bool)
    requires TotalPreorder(le)
    ensures SortedBy(SortWith(s, le), le)
  {
    if s != [] {
      SortWithSorted(s[..|s| - 1], le);
      InsertSorted(s[|s| - 1], SortWith(s[..|s| - 1], le), le);
    }
  }

  /** A sequence already in order is left as it is: among equal keys the
      input order is kept. */
  lemma {:induction false} SortWithOfSorted<T>(s: seq<T>, le: (T, T) -> bool)
    requires SortedBy(s, le)
    ensures SortWith(s, le) == s
  {
    if s != [] {
      var s', x := s[..|s| - 1], s[|s| - 1];
      assert SortedBy(s', le) by {
        forall i, j | 0 <= i < j < |s'| ensures le(s'[i], s'[j]) {
          assert s'[i] == s[i] && s'[j] == s[j];
        }
      }
      SortWithOfSorted(s', le);
      assert SortWith(s, le) == Insert(x, s', le);
      if s' != [] {
        assert le(s[|s| - 2], x);
      }
      assert Insert(x, s', le) == s' + [x];
      assert s' + [x] == s;
    }
  }

  /** The index of the element a stable sort puts last: the last position
      holding a greatest element. */
  function LatestIndex<T>(s: seq<T>, le: (T, T) -> bool): (j: nat)
    requires |s| > 0
    ensures j < |s|
  {
    if |s| == 1 then 0
    else
      var j := LatestIndex(s[..|s| - 1], le);
      if le(s[j], s[|s| - 1]) then |s| - 1 else j
  }

  /** The element at `LatestIndex` is greatest, and every element after it in
      the input is strictly smaller: ties go to the latest input position. */
  lemma {:induction false} LatestIndexIsLatest<T(!new)>(s: seq<T>, le: (T, T) -> bool)
    requires |s| > 0 && TotalPreorder(le)
    ensures forall i :: 0 <= i < |s| ==> le(s[i], s[LatestIndex(s, le)])
    ensures forall i :: LatestIndex(s, le) < i < |s| ==> !le(s[LatestIndex(s, le)], s[i])
  {
    if |s| > 1 {
      var s' := s[..|s| - 1];
      LatestIndexIsLatest(s', le);
      var j := LatestIndex(s', le);
      assert forall i :: 0 <= i < |s'| ==> s'[i] == s[i];
    }
  }

  /** The last element of the sorted sequence is the one at `LatestIndex`. */
  lemma {:induction false} SortWithLast<T>(s: seq<T>, le: (T, T) -> bool)
    requires |s| > 0
    ensures SortWith(s, le)[|s| - 1] == s[LatestIndex(s, le)]
  {
    if |s| > 1 {
      var s' := s[..|s| - 1];
      SortWithLast(s', le);
      assert s'[LatestIndex(s', le)] == s[LatestIndex(s', le)];
    }
  }

  /** All but the last of the sorted sequence are the input without the
      element at `LatestIndex`, in some order. */
  lemma SortWithAllButLast<T>(s: seq<T>, le: (T, T) -> bool)
    requires |s| > 0
    ensures multiset(SortWith(s, le)[..|s| - 1]) == multiset(RemoveAt(s, LatestIndex(s, le)))
  {
    var r := SortWith(s, le);
    SortWithPermutes(s, le);
    SortWithLast(s, le);
    PermutationWithout(r, s, |s| - 1, LatestIndex(s, le));
    assert RemoveAt(r, |s| - 1) == r[..|s| - 1];
  }

  lemma FilterSnoc<T>(s: seq<T>, x: T, p: T -> bool)
    ensures Filter(s + [x], p) == Filter(s, p) + (if p(x) then [x] else [])
  {
    assert (s + [x])[..|s|] == s;
  }

  /** Under a total preorder every element of a sorted sequence precedes its last one. */
  lemma SortedBeforeLast<T(!new)>(t: seq<T>, le: (T, T) -> bool, i: nat)
    requires TotalPreorder(le) && SortedBy(t, le) && i < |t|
    ensures le(t[i], t[|t| - 1])
  {
  }

  /** Keeping the elements that satisfy `p` commutes with inserting into a sorted sequence. */
  lemma {:induction false} FilterInsert<T(!new)>(x: T, t: seq<T>, le: (T, T) -> bool, p: T -> bool)
    requires TotalPreorder(le) && SortedBy(t, le)
    ensures Filter(Insert(x, t, le), p) == if p(x) then Insert(x, Filter(t, p), le) else Filter(t, p)
    decreases |t|
  {
    if t == [] {
      FilterSnoc([], x, p);
      assert [] + [x] == [x];
    } else if le(t[|t| - 1], x) {
      FilterInsertAtEnd(x, t, le, p);
    } else {
      var t' := t[..|t| - 1];
      assert SortedBy(t', le);
      FilterInsert(x, t', le, p);
      FilterInsertBefore(x, t, le, p);
    }
  }

  /** The case where `x` goes after the last element of `t`. */
  lemma FilterInsertAtEnd<T(!new)>(x: T, t: seq<T>, le: (T, T) -> bool, p: T -> bool)
    requires TotalPreorder(le) && SortedBy(t, le) && t != [] && le(t[|t| - 1], x)
    ensures Filter(Insert(x, t, le), p) == if p(x) then Insert(x, Filter(t, p), le) else Filter(t, p)
  {
    assert Insert(x, t, le) == t + [x];
    FilterSnoc(t, x, p);
    var f := Filter(t, p);
    if p(x) {
      if f != [] {
        FilterLastBelow(x, t, le, p);
      }
      assert Insert(x, f, le) == f + [x];
    } else {
      DroppedLast(f);
    }
  }

  /** What the mask keeps of a sorted `t` stays below anything above `t`'s last element. */
  lemma FilterLastBelow<T(!new)>(x: T, t: seq<T>, le: (T, T) -> bool, p: T -> bool)
    requires TotalPreorder(le) && SortedBy(t, le) && t != [] && le(t[|t| - 1], x) && Filter(t, p) != []
    ensures le(Filter(t, p)[|Filter(t, p)| - 1], x)
  {
    var f := Filter(t, p);
    FilterSubset(t, p);
    assert f[|f| - 1] in multiset(t);
    var i :| 0 <= i < |t| && t[i] == f[|f| - 1];
    SortedBeforeLast(t, le, i);
  }

  /** The case where `x` goes before the last element `y` of `t`, given the
      property for the front of `t`. */
  lemma FilterInsertBefore<T(!new)>(x: T, t: seq<T>, le: (T, T) -> bool, p: T -> bool)
    requires t != [] && !le(t[|t| - 1], x)
    requires var t' := t[..|t| - 1];
      Filter(Insert(x, t', le), p) == if p(x) then Insert(x, Filter(t', p), le) else Filter(t', p)
    ensures Filter(Insert(x, t, le), p) == if p(x) then Insert(x, Filter(t, p), le) else Filter(t, p)
  {
    var t' := t[..|t| - 1];
    var y := t[|t| - 1];
    assert t == t' + [y];
    FilterSnoc(t', y, p);
    assert Insert(x, t, le) == Insert(x, t', le) + [y];
    FilterSnoc(Insert(x, t', le), y, p);
    if p(y) {
      KeptBeforeLast(x, Filter(t', p), y, le);
    } else {
      DroppedLast(Filter(t', p));
      DroppedLast(Filter(Insert(x, t', le), p));
    }
  }

  lemma KeptBeforeLast<T>(x: T, f': seq<T>, y: T, le: (T, T) -> bool)
    requires !le(y, x)
    ensures Insert(x, f' + [y], le) == Insert(x, f', le) + [y]
  {
    assert (f' + [y])[..|f'|] == f';
  }

  lemma DroppedLast<T>(s: seq<T>)
    ensures s + [] == s
  {
  }

  /** Sorting one element leaves it alone. */
  lemma OneSorted<T>(s: seq<T>, le: (T, T) -> bool)
    requires |s| == 1
    ensures SortWith(s, le) == s
  {
    assert s[..0] == [];
  }

  /** Sorting and then keeping one group is keeping the group and then sorting
      it: a stable sort keeps each group's relative order. */
  lemma {:induction false} FilterSortWith<T(!new)>(s: seq<T>, le: (T, T) -> bool, p: T -> bool)
    requires TotalPreorder(le)
    ensures Filter(SortWith(s, le), p) == SortWith(Filter(s, p), le)
  {
    if s != [] {
      var s' := s[..|s| - 1];
      var x := s[|s| - 1];
      assert s == s' + [x];
      FilterSortWith(s', le, p);
      SortWithSorted(s', le);
      FilterInsert(x, SortWith(s', le), le, p);
      FilterSnoc(s', x, p);
      var f := Filter(s', p);
      if p(x) {
        assert (f + [x])[..|f|] == f;
      }
    }
  }

  /** Some element of a non-empty sequence satisfies `p` exactly when some
      element of all but the last does, or the last does. */
  lemma ExistsSnoc<T>(s: seq<T>, prefix: seq<T>, p: T -> bool)
    requires s != [] && prefix == s[..|s| - 1]
    ensures (exists i :: 0 <= i < |s| && p(s[i]))
      <==> ((exists i :: 0 <= i < |prefix| && p(prefix[i])) || p(s[|s| - 1]))
  {
    if exists i :: 0 <= i < |s| && p(s[i]) {
      var i :| 0 <= i < |s| && p(s[i]);
      if i < |prefix| {
        assert prefix[i] == s[i];
      }
    }
    if exists i :: 0 <= i < |prefix| && p(prefix[i]) {
      var i :| 0 <= i < |prefix| && p(prefix[i]);
      assert prefix[i] == s[i];
    }
  }

  /** The lists `f` gives for the elements, joined in order: a loop that
      extends one list with a few items per element. */
  function FlatMap<T, U>(s: seq<T>, f: T -> seq<U>): seq<U> {
    if s == [] then [] else FlatMap(s[..|s| - 1], f) + f(s[|s| - 1])
  }

  /** One more element extends the joined list by its own items. */
  lemma FlatMapNext<T, U>(s: seq<T>, f: T -> seq<U>, j: nat)
    requires j < |s|
    ensures FlatMap(s[..j + 1], f) == FlatMap(s[..j], f) + f(s[j])
  {
    assert s[..j + 1][..j] == s[..j];
  }

  /** The joined list is empty exactly when every element gives nothing. */
  lemma {:induction false} FlatMapEmpty<T, U>(s: seq<T>, f: T -> seq<U>)
    ensures FlatMap(s, f) == [] <==> forall i :: 0 <= i < |s| ==> f(s[i]) == []
  {
    if s != [] {
      var prefix := s[..|s| - 1];
      FlatMapEmpty(prefix, f);
      assert forall i :: 0 <= i < |prefix| ==> prefix[i] == s[i];
    }
  }

  /** Every item of the joined list comes from some element's items. */
  lemma {:induction false} FlatMapFrom<T, U>(s: seq<T>, f: T -> seq<U>, x: U)
    requires x in FlatMap(s, f)
    ensures exists i :: 0 <= i < |s| && x in f(s[i])
  {
    var prefix := s[..|s| - 1];
    if x in FlatMap(prefix, f) {
      FlatMapFrom(prefix, f, x);
      var i :| 0 <= i < |prefix| && x in f(prefix[i]);
      assert prefix[i] == s[i];
    } else {
      assert x in f(s[|s| - 1]);
    }
  }
}
