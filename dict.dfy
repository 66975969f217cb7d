/** Python's insertion-ordered `dict`, as a sequence of key/value pairs with
    distinct keys. Assigning to a key already present replaces its value in
    place; a new key goes to the end, as `d[k] = v` and `setdefault` do. */
module Dict {
  import opened Wrappers

  type Dict<K(==), V> = seq<(K, V)>

  function Keys<K(==), V>(d: Dict<K, V>): (ks: seq<K>)
    ensures |ks| == |d| && forall i :: 0 <= i < |d| ==> ks[i] == d[i].0
  {
    seq(|d|, i requires 0 <= i < |d| => d[i].0)
  }

  predicate UniqueKeys<K(==), V>(d: Dict<K, V>) {
    forall i, j :: 0 <= i < j < |d| ==> d[i].0 != d[j].0
  }

  function Get<K(==), V>(d: Dict<K, V>, k: K): (r: Option<V>)
    ensures r.Some? <==> k in Keys(d)
    ensures r.Some? ==> (k, r.value) in d
  {
    if d == [] then None
    else if d[0].0 == k then Some(d[0].1)
    else
      assert Keys(d) == [d[0].0] + Keys(d[1..]);
      Get(d[1..], k)
  }

  /** `d[k] = v`. */
  function Put<K(==), V>(d: Dict<K, V>, k: K, v: V): (r: Dict<K, V>)
    ensures k in Keys(d) ==> |r| == |d| && forall i :: 0 <= i < |d| ==> r[i].0 == d[i].0
    ensures k !in Keys(d) ==> r == d + [(k, v)]
  {
    if d == [] then [(k, v)]
    else if d[0].0 == k then [(k, v)] + d[1..]
    else
      KeysTail(d);
      [d[0]] + Put(d[1..], k, v)
  }

  lemma KeysTail<K, V>(d: Dict<K, V>)
    requires d != []
    ensures forall k :: k in Keys(d) <==> k == d[0].0 || k in Keys(d[1..])
  {
    assert Keys(d) == [d[0].0] + Keys(d[1..]);
  }

  /** Reading a key just assigned gives the assigned value, and every other key
      keeps its value. */
  lemma {:induction false} GetPut<K, V>(d: Dict<K, V>, k: K, v: V, k': K)
    ensures Get(Put(d, k, v), k') == if k' == k then Some(v) else Get(d, k')
  {
    if d != [] && d[0].0 != k {
      GetPut(d[1..], k, v, k');
    }
  }

  /** Assignment keeps the keys distinct. */
  lemma {:induction false} PutUnique<K, V>(d: Dict<K, V>, k: K, v: V)
    requires UniqueKeys(d)
    ensures UniqueKeys(Put(d, k, v))
  {
    var r := Put(d, k, v);
    if k in Keys(d) {
    } else {
      forall i, j | 0 <= i < j < |r| ensures r[i].0 != r[j].0 {
        if j == |d| {
          assert d[i].0 == Keys(d)[i];
        }
      }
    }
  }

  /** The keys after assigning are the old keys plus `k`. */
  lemma PutKeys<K, V>(d: Dict<K, V>, k: K, v: V, k': K)
    ensures k' in Keys(Put(d, k, v)) <==> k' == k || k' in Keys(d)
  {
    GetPut(d, k, v, k');
  }

  /** `d.setdefault(k, default)`: the value at `k`, inserting `default` if absent. */
  function GetOrDefault<K(==), V>(d: Dict<K, V>, k: K, default: V): V {
    Get(d, k).GetOr(default)
  }

  /** `lists.setdefault(k, []).append(f(v))` for each `(k, v)` of `items`, in order. */
  function AppendEach<K(==), V, W>(lists: Dict<K, seq<W>>, items: Dict<K, V>, f: V -> W): Dict<K, seq<W>> {
    if items == [] then lists
    else
      var d := AppendEach(lists, items[..|items| - 1], f);
      var (k, v) := items[|items| - 1];
      Put(d, k, GetOrDefault(d, k, []) + [f(v)])
  }

  /** A dictionary with distinct keys is its front with its last pair assigned. */
  lemma UniqueKeysSnoc<K, V>(d: Dict<K, V>)
    requires UniqueKeys(d) && d != []
    ensures var front := d[..|d| - 1];
      UniqueKeys(front) && d[|d| - 1].0 !in Keys(front) && d == Put(front, d[|d| - 1].0, d[|d| - 1].1)
  {
    var front := d[..|d| - 1];
    var last := d[|d| - 1];
    assert forall i :: 0 <= i < |front| ==> front[i] == d[i];
    assert d == front + [last];
  }

  /** With distinct item keys, each list grows by the one item under its key, if any. */
  lemma {:induction false} AppendEachAt<K, V, W>(lists: Dict<K, seq<W>>, items: Dict<K, V>, f: V -> W, key: K)
    requires UniqueKeys(items)
    ensures Get(items, key).None? ==> GetOrDefault(AppendEach(lists, items, f), key, []) == GetOrDefault(lists, key, [])
    ensures Get(items, key).Some? ==>
      GetOrDefault(AppendEach(lists, items, f), key, []) == GetOrDefault(lists, key, []) + [f(Get(items, key).value)]
  {
    if items != [] {
      var prefix := items[..|items| - 1];
      var last := items[|items| - 1];
      UniqueKeysSnoc(items);
      AppendEachAt(lists, prefix, f, key);
      var d := AppendEach(lists, prefix, f);
      var grown := GetOrDefault(d, last.0, []) + [f(last.1)];
      assert AppendEach(lists, items, f) == Put(d, last.0, grown);
      GetPut(d, last.0, grown, key);
      GetPut(prefix, last.0, last.1, key);
      if key == last.0 {
        assert Get(prefix, key) == None;
      }
    }
  }
}
