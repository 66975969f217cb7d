/** The identifier helpers of the survey-definition builder: a counter that
    hands out flow identifiers `FL_2`, `FL_3`, ..., and random identifiers
    made of a prefix, an underscore and eight letters or digits. */
module Utils {
  import opened Text

  /** The identifier of flow number `n`. */
  function FlowId(n: nat): (id: string)
    ensures |id| > 3 && id[..3] == "FL_"
    ensures forall i :: 3 <= i < |id| ==> IsDigit(id[i])
  {
    "FL_" + NatToString(n)
  }

  /** Different numbers give different identifiers. */
  lemma FlowIdInjective(a: nat, b: nat)
    requires a != b
    ensures FlowId(a) != FlowId(b)
  {
    NatToStringInjective(a, b);
    assert FlowId(a)[3..] == NatToString(a) && FlowId(b)[3..] == NatToString(b);
  }

  /** `_FlowIds`: the number of the last identifier handed out, starting at 1. */
  class FlowIds {
    var count: nat

    constructor()
      ensures count == 1
    {
      count := 1;
    }

    /** `next`: moves the counter on by one and names the new number. */
    method Next() returns (id: string)
      modifies this
      ensures count == old(count) + 1
      ensures id == FlowId(count)
    {
      count := count + 1;
      id := FlowId(count);
    }
  }

  /** `n` successive calls of `next` on one counter: the identifiers of the
      next `n` numbers, no two alike. */
  method NextIds(flows: FlowIds, n: nat) returns (ids: seq<string>)
    modifies flows
    ensures flows.count == old(flows.count) + n
    ensures |ids| == n && forall i :: 0 <= i < n ==> ids[i] == FlowId(old(flows.count) + i + 1)
    ensures forall i, j :: 0 <= i < j < n ==> ids[i] != ids[j]
  {
    ids := [];
    for k := 0 to n
      invariant flows.count == old(flows.count) + k
      invariant |ids| == k && forall i :: 0 <= i < k ==> ids[i] == FlowId(old(flows.count) + i + 1)
    {
      var id := flows.Next();
      ids := ids + [id];
    }
    forall i, j | 0 <= i < j < n ensures ids[i] != ids[j] {
      FlowIdInjective(old(flows.count) + i + 1, old(flows.count) + j + 1);
    }
  }

  /** A fresh counter hands out `FL_2` first, then `FL_3`. */
  method FirstFlowIds() returns (first: string, second: string)
    ensures first == "FL_2" && second == "FL_3"
  {
    var flows := new FlowIds();
    first := flows.Next();
    second := flows.Next();
  }

  /** `string.ascii_letters + string.digits`: a..z, A..Z, 0..9. */
  function AlphabetChar(i: nat): (c: char)
    requires i < 62
    ensures IsAlnum(c)
  {
    if i < 26 then ('a' as int + i) as char
    else if i < 52 then ('A' as int + (i - 26)) as char
    else ('0' as int + (i - 52)) as char
  }

  /** The position of a letter or digit in the alphabet. */
  function AlphabetIndex(c: char): (i: nat)
    requires IsAlnum(c)
    ensures i < 62 && AlphabetChar(i) == c
  {
    if IsLower(c) then c as int - 'a' as int
    else if IsUpper(c) then 26 + (c as int - 'A' as int)
    else 52 + (c as int - '0' as int)
  }

  /** `get_random_id(prefix)`, with the eight draws of `random.choices` given
      as positions in the alphabet. */
  function RandomId(prefix: string, draws: seq<nat>): (id: string)
    requires |draws| == 8 && forall k :: 0 <= k < 8 ==> draws[k] < 62
    ensures |id| == |prefix| + 9 && id[..|prefix|] == prefix && id[|prefix|] == '_'
    ensures forall i :: |prefix| < i < |id| ==> IsAlnum(id[i])
  {
    prefix + "_" + seq(8, k requires 0 <= k < 8 => AlphabetChar(draws[k]))
  }

  /** Every identifier of that shape is one the draws can produce. */
  lemma RandomIdCovers(prefix: string, tail: string)
    requires |tail| == 8 && forall i :: 0 <= i < 8 ==> IsAlnum(tail[i])
    ensures var draws := seq(8, k requires 0 <= k < 8 => AlphabetIndex(tail[k]));
      RandomId(prefix, draws) == prefix + "_" + tail
  {
    var draws := seq(8, k requires 0 <= k < 8 => AlphabetIndex(tail[k]));
    assert seq(8, k requires 0 <= k < 8 => AlphabetChar(draws[k])) == tail;
  }
}
