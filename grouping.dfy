/** `DataFrame.groupby`: the distinct keys of a record sequence and, for each,
    the records carrying it in their order in the sequence. */
module Grouping {
  import opened Seqs
  import opened Stats

  /** The group keys, each once, in order of first appearance. */
  function GroupKeys<T, K(==,!new)>(s: seq<T>, key: T -> K): (ks: seq<K>)
    ensures NoDuplicates(ks)
    ensures forall k :: k in ks <==> exists i :: 0 <= i < |s| && key(s[i]) == k
  {
    var m := Map(s, key);
    assert forall k :: k in m <==> exists i :: 0 <= i < |s| && key(s[i]) == k;
    Distinct(m)
  }

  /** The records of one group, in sequence order. */
  function Group<T, K(==)>(s: seq<T>, key: T -> K, k: K): (g: seq<T>)
    ensures forall i :: 0 <= i < |g| ==> key(g[i]) == k
  {
    Filter(s, x => key(x) == k)
  }

  /** A group holds records of the sequence only. */
  lemma GroupSubset<T, K>(s: seq<T>, key: T -> K, k: K)
    ensures multiset(Group(s, key, k)) <= multiset(s)
  {
    FilterSubset(s, x => key(x) == k);
  }

  /** Every record with the key is in its group. */
  lemma GroupHas<T, K>(s: seq<T>, key: T -> K, k: K, i: nat)
    requires i < |s| && key(s[i]) == k
    ensures s[i] in Group(s, key, k) && |Group(s, key, k)| > 0
  {
    FilterKeeps(s, x => key(x) == k, i);
  }

  /** The group of a key that occurs is not empty. */
  lemma GroupOfKey<T, K(!new)>(s: seq<T>, key: T -> K, k: K)
    requires k in GroupKeys(s, key)
    ensures |Group(s, key, k)| > 0
  {
    var i :| 0 <= i < |s| && key(s[i]) == k;
    GroupHas(s, key, k, i);
  }

  /** Grouping a stably sorted sequence gives each group stably sorted. */
  lemma GroupOfSorted<T(!new), K(!new)>(s: seq<T>, le: (T, T) -> bool, key: T -> K, k: K)
    requires TotalPreorder(le)
    ensures Group(SortWith(s, le), key, k) == SortWith(Group(s, key, k), le)
  {
    FilterSortWith(s, le, x => key(x) == k);
  }

  /** Sorting does not change the set of group keys. */
  lemma GroupKeysOfSorted<T, K(!new)>(s: seq<T>, le: (T, T) -> bool, key: T -> K, k: K)
    ensures k in GroupKeys(SortWith(s, le), key) <==> k in GroupKeys(s, key)
  {
    var t := SortWith(s, le);
    SortWithPermutes(s, le);
    if k in GroupKeys(s, key) {
      var i :| 0 <= i < |s| && key(s[i]) == k;
      assert s[i] in multiset(t);
    }
    if k in GroupKeys(t, key) {
      var i :| 0 <= i < |t| && key(t[i]) == k;
      assert t[i] in multiset(s);
    }
  }

  /** Keys that are distinct over a sequence stay distinct over any part of
      it that a mask keeps, a group in particular. */
  lemma {:induction false} FilterMapDistinct<T, U>(s: seq<T>, p: T -> bool, f: T -> U)
    requires NoDuplicates(Map(s, f))
    ensures NoDuplicates(Map(Filter(s, p), f))
  {
    if s != [] {
      var s' := s[..|s| - 1];
      var x := s[|s| - 1];
      assert Map(s', f) == Map(s, f)[..|s| - 1];
      FilterMapDistinct(s', p, f);
      if p(x) {
        var r := Filter(s', p);
        FilterSubset(s', p);
        forall i | 0 <= i < |r| ensures f(r[i]) != f(x) {
          assert r[i] in multiset(s');
          var j :| 0 <= j < |s'| && s'[j] == r[i];
          assert Map(s, f)[j] == f(r[i]);
        }
        var m := Map(Filter(s, p), f);
        assert m == Map(r, f) + [f(x)];
        forall i, j | 0 <= i < j < |m| ensures m[i] != m[j] {
          if j < |r| {
            assert m[i] == Map(r, f)[i] && m[j] == Map(r, f)[j];
          }
        }
      }
    }
  }

  /** The same for a group. */
  lemma GroupMapDistinct<T, K, U>(s: seq<T>, key: T -> K, k: K, f: T -> U)
    requires NoDuplicates(Map(s, f))
    ensures NoDuplicates(Map(Group(s, key, k), f))
  {
    FilterMapDistinct(s, x => key(x) == k, f);
  }
}
