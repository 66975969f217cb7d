/** A loaded survey export: the cleaned column headers in file order and one
    row per response. A cell is empty (pandas' NaN), a number (with the text
    `str()` prints for it) or text; `recorded` is the integer instant that
    the timestamp column each script resolves parses to: RecordedDate, or
    for grade.py the first header containing "Recorded" when there is no
    RecordedDate column. */
module Table {
  import opened Wrappers
  import opened Text
  import opened Dict
  import opened Seqs

  datatype Cell = Missing | Num(value: real, text: string) | Str(s: string)

  datatype Row = Row(cells: map<string, Cell>, recorded: int)

  datatype Frame = Frame(columns: seq<string>, rows: seq<Row>)

  /** `row.get(col)`: an absent column reads as empty, like `None` under `pd.notna`. */
  function CellAt(row: Row, col: string): (c: Cell)
    ensures col !in row.cells ==> c == Missing
  {
    if col in row.cells then row.cells[col] else Missing
  }

  /** `str(v)` of a cell value. */
  function CellText(c: Cell): string {
    match c
    case Missing => "nan"
    case Num(_, t) => t
    case Str(s) => s
  }

  /** `str(row.get(col, default))`: the default only when the column is absent;
      an empty cell prints as "nan". */
  function TextOr(row: Row, col: string, default: string): (t: string)
    ensures col !in row.cells ==> t == default
    ensures col in row.cells && row.cells[col] == Missing ==> t == "nan"
  {
    if col in row.cells then CellText(row.cells[col]) else default
  }

  /** `float(v)` guarded by `pd.notna(v)`: `None` for an empty cell and for
      text that `float` rejects. */
  function AsFloat(c: Cell): (r: Option<real>)
    ensures c.Missing? ==> r == None
    ensures c.Num? ==> r == Some(c.value)
  {
    match c
    case Missing => None
    case Num(v, _) => Some(v)
    case Str(s) => ParseFloat(s)
  }

  predicate Parses(row: Row, col: string) {
    AsFloat(CellAt(row, col)).Some?
  }

  /** What the metric loops of the report scripts collect from one row: for each
      `(metric, column)` in order, a value that parses is stored under its metric
      (a later column for the same metric overwrites) and appended to the list
      of raw values. */
  function Parsed(row: Row, named: seq<(string, string)>): (r: (Dict<string, real>, seq<real>))
    ensures |r.1| <= |named|
  {
    if named == [] then ([], [])
    else
      var (vals, raw) := Parsed(row, named[..|named| - 1]);
      var (metric, col) := named[|named| - 1];
      match AsFloat(CellAt(row, col))
      case Some(v) => (Put(vals, metric, v), raw + [v])
      case None => (vals, raw)
  }

  /** No raw value is collected exactly when no column parses. */
  lemma {:induction false} ParsedEmpty(row: Row, named: seq<(string, string)>)
    ensures Parsed(row, named).1 == [] <==> forall i :: 0 <= i < |named| ==> !Parses(row, named[i].1)
  {
    if named != [] {
      var prefix := named[..|named| - 1];
      ParsedEmpty(row, prefix);
      assert forall i :: 0 <= i < |prefix| ==> prefix[i] == named[i];
    }
  }

  /** A metric is stored exactly when one of its columns parses. */
  lemma {:induction false} ParsedKeys(row: Row, named: seq<(string, string)>, k: string)
    ensures k in Keys(Parsed(row, named).0) <==> exists i :: 0 <= i < |named| && named[i].0 == k && Parses(row, named[i].1)
  {
    if named != [] {
      var prefix := named[..|named| - 1];
      ParsedKeys(row, prefix, k);
      var (metric, col) := named[|named| - 1];
      var vals := Parsed(row, prefix).0;
      ExistsSnoc(named, prefix, (p: (string, string)) => p.0 == k && Parses(row, p.1));
      match AsFloat(CellAt(row, col))
      case Some(v) => PutKeys(vals, metric, v, k);
      case None =>
    }
  }

  /** The stored metrics have distinct names. */
  lemma {:induction false} ParsedUnique(row: Row, named: seq<(string, string)>)
    ensures UniqueKeys(Parsed(row, named).0)
  {
    if named != [] {
      var prefix := named[..|named| - 1];
      ParsedUnique(row, prefix);
      var (metric, col) := named[|named| - 1];
      match AsFloat(CellAt(row, col))
      case Some(v) => PutUnique(Parsed(row, prefix).0, metric, v);
      case None =>
    }
  }

  /** The raw values of two column lists back to back are those of each. */
  lemma {:induction false} ParsedConcat(row: Row, a: seq<(string, string)>, b: seq<(string, string)>)
    ensures Parsed(row, a + b).1 == Parsed(row, a).1 + Parsed(row, b).1
    decreases |b|
  {
    if b == [] {
      assert a + b == a;
    } else {
      var b' := b[..|b| - 1];
      assert (a + b)[..|a + b| - 1] == a + b';
      assert (a + b)[|a + b| - 1] == b[|b| - 1];
      ParsedConcat(row, a, b');
    }
  }

  /** Taking one column out of the list takes its value, if any, out of the raw values. */
  lemma ParsedRemove(row: Row, b: seq<(string, string)>, i: nat)
    requires i < |b|
    ensures multiset(Parsed(row, b).1) == multiset(Parsed(row, RemoveAt(b, i)).1) + multiset(Parsed(row, [b[i]]).1)
  {
    var l, r := b[..i], b[i + 1..];
    assert b == (l + [b[i]]) + r;
    ParsedConcat(row, l + [b[i]], r);
    ParsedConcat(row, l, [b[i]]);
    ParsedConcat(row, l, r);
  }

  /** The raw values do not depend on the order the columns are visited in,
      up to their own order. */
  lemma {:induction false} ParsedPermutation(row: Row, a: seq<(string, string)>, b: seq<(string, string)>)
    requires multiset(a) == multiset(b)
    ensures multiset(Parsed(row, a).1) == multiset(Parsed(row, b).1)
    decreases |a|
  {
    if a == [] {
      assert |b| == |multiset(b)| == 0;
    } else {
      var j := |a| - 1;
      PermutationHas(a, b, j);
      var i := IndexOf(b, a[j]);
      PermutationWithout(a, b, j, i);
      ParsedPermutation(row, RemoveAt(a, j), RemoveAt(b, i));
      ParsedRemove(row, a, j);
      ParsedRemove(row, b, i);
    }
  }

  /** The loop that fills `vals` and `raw_scores` for one row. */
  method ParseMetrics(row: Row, named: seq<(string, string)>) returns (vals: Dict<string, real>, raw: seq<real>)
    ensures (vals, raw) == Parsed(row, named)
  {
    vals, raw := [], [];
    for i := 0 to |named|
      invariant (vals, raw) == Parsed(row, named[..i])
    {
      assert named[..i + 1][..i] == named[..i];
      var (metric, col) := named[i];
      var v := AsFloat(CellAt(row, col));
      if v.Some? {
        vals := Put(vals, metric, v.value);
        raw := raw + [v.value];
      }
    }
    assert named[..|named|] == named;
  }
}
