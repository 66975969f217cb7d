/** Column headers: the cleaning the loaders apply to them, the regular
    expressions the scripts match them against (each written out as a
    predicate on the string), and the dictionaries the detection loops build
    from the matches. */
module Columns {
  import opened Wrappers
  import opened Text
  import opened Dict
  import opened Seqs

  /** Drops the whitespace at the front of `s`. */
  function DropSpaces(s: string): (r: string)
    ensures |r| <= |s| && r == s[|s| - |r|..]
    ensures r == [] || !IsSpace(r[0])
  {
    if s != [] && IsSpace(s[0]) then DropSpaces(s[1..]) else s
  }

  /** `re.sub(r"\s+", " ", s)`: every run of whitespace becomes one space. */
  function CollapseSpaces(s: string): (r: string)
    ensures forall i :: 0 <= i < |r| && IsSpace(r[i]) ==> r[i] == ' '
    decreases |s|
  {
    if s == [] then []
    else if IsSpace(s[0]) then [' '] + CollapseSpaces(DropSpaces(s[1..]))
    else [s[0]] + CollapseSpaces(s[1..])
  }

  /** A header as the loaders clean it: stripped, inner whitespace collapsed. */
  function CleanHeader(s: string): (r: string)
    ensures '\n' !in r
  {
    CollapseSpaces(Strip(s))
  }

  /** `stem + suffix` with a stem of at least `minStem` characters, none of them
      a newline: what `^(.+?)suffix$` (`minStem == 1`) and `^(.*)suffix$`
      (`minStem == 0`) capture, since the fixed suffix pins the split. */
  function SuffixStem(col: string, suffix: string, minStem: nat): (r: Option<string>)
    ensures r.Some? ==> col == r.value + suffix && |r.value| >= minStem && '\n' !in r.value
  {
    if EndsWith(col, suffix) && |col| - |suffix| >= minStem && '\n' !in col[..|col| - |suffix|]
    then
      assert col == col[..|col| - |suffix|] + suffix;
      Some(col[..|col| - |suffix|])
    else None
  }

  lemma SuffixStemOf(stem: string, suffix: string, minStem: nat)
    requires |stem| >= minStem && '\n' !in stem
    ensures SuffixStem(stem + suffix, suffix, minStem) == Some(stem)
  {
    var col := stem + suffix;
    assert col[|col| - |suffix|..] == suffix;
    assert col[..|col| - |suffix|] == stem;
  }

  /** `^([A-Z])_(.*?)_1$`: a team letter, `_`, the metric, and `_1` at the end. */
  function TeamMetricColumn(col: string): (r: Option<(char, string)>)
    ensures r.Some? ==> (IsUpper(r.value.0) && '\n' !in r.value.1
      && col == [r.value.0] + "_" + r.value.1 + "_1")
  {
    if |col| >= 4 && IsUpper(col[0]) && col[1] == '_' && EndsWith(col, "_1")
      && '\n' !in col[2..|col| - 2]
    then
      assert col == [col[0]] + "_" + col[2..|col| - 2] + "_1";
      Some((col[0], col[2..|col| - 2]))
    else None
  }

  /** Every header of that shape matches, capturing its letter and metric. */
  lemma TeamMetricColumnOf(team: char, metric: string)
    requires IsUpper(team) && '\n' !in metric
    ensures TeamMetricColumn([team] + "_" + metric + "_1") == Some((team, metric))
  {
    var col := [team] + "_" + metric + "_1";
    assert col[2..|col| - 2] == metric;
    assert col[|col| - 2..] == "_1";
  }

  /** `^([A-Z])<tail>$` for a fixed tail: the team letter. */
  function LetterThen(col: string, tail: string): (r: Option<char>)
    ensures r.Some? <==> |col| == |tail| + 1 && IsUpper(col[0]) && col[1..] == tail
    ensures r.Some? ==> r.value == col[0]
  {
    if |col| == |tail| + 1 && IsUpper(col[0]) && col[1..] == tail then Some(col[0]) else None
  }

  /** The keys of a nested dictionary that `setdefault(key, {})[inner] = col`
      builds, one matching column at a time in header order. */
  function Nested<K(==)>(columns: seq<string>, classify: string -> Option<(K, string)>): Dict<K, Dict<string, string>> {
    if columns == [] then []
    else
      var d := Nested(columns[..|columns| - 1], classify);
      var col := columns[|columns| - 1];
      match classify(col)
      case Some((k, inner)) => Put(d, k, Put(GetOrDefault(d, k, []), inner, col))
      case None => d
  }

  /** `d[key] = col` for each matching column in header order. */
  function Flat<K(==)>(columns: seq<string>, classify: string -> Option<K>): Dict<K, string> {
    if columns == [] then []
    else
      var d := Flat(columns[..|columns| - 1], classify);
      var col := columns[|columns| - 1];
      match classify(col)
      case Some(k) => Put(d, k, col)
      case None => d
  }

  /** The nested dictionary stays empty exactly when no header matches. */
  lemma {:induction false} NestedEmpty<K>(columns: seq<string>, classify: string -> Option<(K, string)>)
    ensures Nested(columns, classify) == [] <==> forall i :: 0 <= i < |columns| ==> classify(columns[i]).None?
  {
    if columns != [] {
      var prefix := columns[..|columns| - 1];
      NestedEmpty(prefix, classify);
      assert forall i :: 0 <= i < |prefix| ==> prefix[i] == columns[i];
    }
  }

  /** A nested entry exists exactly for the pairs some header matches. */
  lemma {:induction false} NestedHas<K>(columns: seq<string>, classify: string -> Option<(K, string)>, k: K, inner: string)
    ensures inner in Keys(GetOrDefault(Nested(columns, classify), k, []))
      <==> exists i :: 0 <= i < |columns| && classify(columns[i]) == Some((k, inner))
  {
    if columns != [] {
      var prefix := columns[..|columns| - 1];
      var col := columns[|columns| - 1];
      NestedHas(prefix, classify, k, inner);
      ExistsSnoc(columns, prefix, c => classify(c) == Some((k, inner)));
      var d := Nested(prefix, classify);
      match classify(col)
      case Some((k', inner')) =>
        GetPut(d, k', Put(GetOrDefault(d, k', []), inner', col), k);
        if k == k' {
          PutKeys(GetOrDefault(d, k', []), inner', col, inner);
        }
      case None =>
    }
  }

  /** The entry holds the last header that matches it, as a later assignment
      overwrites an earlier one. */
  lemma {:induction false} NestedLast<K>(columns: seq<string>, classify: string -> Option<(K, string)>, k: K, inner: string, i: nat)
    requires i < |columns| && classify(columns[i]) == Some((k, inner))
    requires forall j :: i < j < |columns| ==> classify(columns[j]) != Some((k, inner))
    ensures Get(GetOrDefault(Nested(columns, classify), k, []), inner) == Some(columns[i])
  {
    var prefix := columns[..|columns| - 1];
    var col := columns[|columns| - 1];
    var d := Nested(prefix, classify);
    if i < |columns| - 1 {
      assert prefix[i] == columns[i];
      assert forall j :: i < j < |prefix| ==> prefix[j] == columns[j];
      NestedLast(prefix, classify, k, inner, i);
    }
    match classify(col)
    case Some((k', inner')) =>
      GetPut(d, k', Put(GetOrDefault(d, k', []), inner', col), k);
      if k == k' {
        GetPut(GetOrDefault(d, k', []), inner', col, inner);
      }
    case None =>
  }

  ghost predicate HasKey<K>(classify: string -> Option<(K, string)>, col: string, k: K) {
    classify(col).Some? && classify(col).value.0 == k
  }

  ghost predicate SomeHasKey<K>(columns: seq<string>, classify: string -> Option<(K, string)>, k: K) {
    exists i :: 0 <= i < |columns| && HasKey(classify, columns[i], k)
  }

  lemma SomeHasKeySnoc<K>(columns: seq<string>, classify: string -> Option<(K, string)>, k: K)
    requires columns != []
    ensures SomeHasKey(columns, classify, k)
      <==> SomeHasKey(columns[..|columns| - 1], classify, k) || HasKey(classify, columns[|columns| - 1], k)
  {
    var prefix := columns[..|columns| - 1];
    if SomeHasKey(columns, classify, k) {
      var i :| 0 <= i < |columns| && HasKey(classify, columns[i], k);
      if i < |prefix| {
        assert prefix[i] == columns[i];
      }
    }
    if SomeHasKey(prefix, classify, k) {
      var i :| 0 <= i < |prefix| && HasKey(classify, prefix[i], k);
      assert prefix[i] == columns[i];
    }
  }

  /** A nested key exists exactly when some header matches with that key. */
  lemma {:induction false} NestedKeys<K>(columns: seq<string>, classify: string -> Option<(K, string)>, k: K)
    ensures k in Keys(Nested(columns, classify)) <==> SomeHasKey(columns, classify, k)
  {
    if columns != [] {
      var prefix := columns[..|columns| - 1];
      var col := columns[|columns| - 1];
      NestedKeys(prefix, classify, k);
      SomeHasKeySnoc(columns, classify, k);
      var d := Nested(prefix, classify);
      match classify(col)
      case Some((k', inner')) =>
        PutKeys(d, k', Put(GetOrDefault(d, k', []), inner', col), k);
        assert HasKey(classify, col, k) <==> k == k';
      case None =>
        assert !HasKey(classify, col, k);
    }
  }

  /** A flat entry exists exactly for the keys some header matches. */
  lemma {:induction false} FlatHas<K>(columns: seq<string>, classify: string -> Option<K>, k: K)
    ensures Get(Flat(columns, classify), k).Some? <==> exists i :: 0 <= i < |columns| && classify(columns[i]) == Some(k)
  {
    if columns != [] {
      var prefix := columns[..|columns| - 1];
      var col := columns[|columns| - 1];
      FlatHas(prefix, classify, k);
      ExistsSnoc(columns, prefix, c => classify(c) == Some(k));
      match classify(col)
      case Some(k') => GetPut(Flat(prefix, classify), k', col, k);
      case None =>
    }
  }

  /** The entry holds the last header that matches its key. */
  lemma {:induction false} FlatLast<K>(columns: seq<string>, classify: string -> Option<K>, k: K, i: nat)
    requires i < |columns| && classify(columns[i]) == Some(k)
    requires forall j :: i < j < |columns| ==> classify(columns[j]) != Some(k)
    ensures Get(Flat(columns, classify), k) == Some(columns[i])
  {
    var prefix := columns[..|columns| - 1];
    var col := columns[|columns| - 1];
    if i < |columns| - 1 {
      assert prefix[i] == columns[i];
      assert forall j :: i < j < |prefix| ==> prefix[j] == columns[j];
      FlatLast(prefix, classify, k, i);
    }
    match classify(col)
    case Some(k') => GetPut(Flat(prefix, classify), k', col, k);
    case None =>
  }
}
