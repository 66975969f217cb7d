/** Loops that build a list one element at a time and stop at the first
    exception: the element-wise form (`MapResult`, one output per input) and
    the concatenating form (`ConcatResult`, a list of outputs per input). */
module Results {
  import opened Wrappers

  /** `f` applied to every element in order; the first error is the result. */
  function MapResult<A, B>(xs: seq<A>, f: A -> Result<B>): (r: Result<seq<B>>)
    ensures r.Ok? ==> |r.value| == |xs|
  {
    if xs == [] then Ok([])
    else
      match MapResult(xs[..|xs| - 1], f)
      case Err(e) => Err(e)
      case Ok(ys) =>
        match f(xs[|xs| - 1])
        case Err(e) => Err(e)
        case Ok(y) => Ok(ys + [y])
  }

  /** Element `i` fails and every earlier element succeeds. */
  ghost predicate FirstFailure<A, B>(xs: seq<A>, f: A -> Result<B>, i: int) {
    0 <= i < |xs| && f(xs[i]).Err? && forall j :: 0 <= j < i ==> f(xs[j]).Ok?
  }

  /** The run fails exactly when some element fails, with the message of the
      first element that does; otherwise it holds every element's value at
      that element's place. */
  lemma {:induction false} MapResultSpec<A, B>(xs: seq<A>, f: A -> Result<B>)
    ensures MapResult(xs, f).Err? <==> exists i :: 0 <= i < |xs| && f(xs[i]).Err?
    ensures MapResult(xs, f).Err? ==> exists i :: FirstFailure(xs, f, i) && MapResult(xs, f).message == f(xs[i]).message
    ensures MapResult(xs, f).Ok? ==> forall i :: 0 <= i < |xs| ==> f(xs[i]) == Ok(MapResult(xs, f).value[i])
  {
    if xs != [] {
      var prefix := xs[..|xs| - 1];
      assert forall i :: 0 <= i < |prefix| ==> prefix[i] == xs[i];
      MapResultSpec(prefix, f);
    }
  }

  /** One more element after a successful prefix: its error, or its value appended. */
  lemma MapResultNext<A, B>(xs: seq<A>, f: A -> Result<B>, j: nat)
    requires j < |xs| && MapResult(xs[..j], f).Ok?
    ensures MapResult(xs[..j + 1], f) == if f(xs[j]).Err? then Err(f(xs[j]).message) else Ok(MapResult(xs[..j], f).value + [f(xs[j]).value])
  {
    assert xs[..j + 1][..j] == xs[..j];
  }

  /** Once a prefix fails, the whole run fails the same way. */
  lemma {:induction false} MapResultStops<A, B>(xs: seq<A>, f: A -> Result<B>, j: nat)
    requires j <= |xs| && MapResult(xs[..j], f).Err?
    ensures MapResult(xs, f) == MapResult(xs[..j], f)
    decreases |xs| - j
  {
    if j < |xs| {
      assert xs[..j + 1][..j] == xs[..j];
      MapResultStops(xs, f, j + 1);
    } else {
      assert xs[..j] == xs;
    }
  }

  /** The lists `f` gives for the elements, joined in order; the first error is
      the result. */
  function ConcatResult<A, B>(xs: seq<A>, f: A -> Result<seq<B>>): (r: Result<seq<B>>)
    ensures xs == [] ==> r == Ok([])
  {
    if xs == [] then Ok([])
    else
      match ConcatResult(xs[..|xs| - 1], f)
      case Err(e) => Err(e)
      case Ok(ys) =>
        match f(xs[|xs| - 1])
        case Err(e) => Err(e)
        case Ok(more) => Ok(ys + more)
  }

  /** The joined run fails exactly when some element fails. */
  lemma {:induction false} ConcatResultFails<A, B>(xs: seq<A>, f: A -> Result<seq<B>>)
    ensures ConcatResult(xs, f).Err? <==> exists i :: 0 <= i < |xs| && f(xs[i]).Err?
  {
    if xs != [] {
      var prefix := xs[..|xs| - 1];
      assert forall i :: 0 <= i < |prefix| ==> prefix[i] == xs[i];
      ConcatResultFails(prefix, f);
    }
  }

  /** The error of element `i`, reached after the earlier elements succeed, is
      the error of the whole run. */
  lemma {:induction false} ConcatResultStops<A, B>(xs: seq<A>, f: A -> Result<seq<B>>, i: nat)
    requires i < |xs| && ConcatResult(xs[..i], f).Ok? && f(xs[i]).Err?
    ensures ConcatResult(xs, f) == f(xs[i])
  {
    assert xs[..i + 1][..i] == xs[..i];
    ConcatResultAfterErr(xs, f, i + 1);
  }

  lemma {:induction false} ConcatResultAfterErr<A, B>(xs: seq<A>, f: A -> Result<seq<B>>, k: nat)
    requires k <= |xs| && ConcatResult(xs[..k], f).Err?
    ensures ConcatResult(xs, f) == ConcatResult(xs[..k], f)
    decreases |xs| - k
  {
    if k < |xs| {
      assert xs[..k + 1][..k] == xs[..k];
      ConcatResultAfterErr(xs, f, k + 1);
    } else {
      assert xs[..k] == xs;
    }
  }
}
