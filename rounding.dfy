/** Python's `round(x, k)` taken on the exact value of `x`: the nearest
    multiple of `1/scale` (with `scale == 10^k`), ties to the even multiple. */
module Rounding {

  function RoundHalfEven(x: real, scale: nat): (r: real)
    requires scale > 0
  {
    (RoundedUnits(x * (scale as real)) as real) / (scale as real)
  }

  /** The integer nearest to `y`; a tie goes to the even neighbour. */
  function RoundedUnits(y: real): (n: int)
    ensures y - 0.5 <= n as real <= y + 0.5
  {
    var f := y.Floor;
    var frac := y - f as real;
    if frac > 0.5 then f + 1
    else if frac < 0.5 then f
    else if f % 2 == 0 then f else f + 1
  }

  /** Rounding moves a value by at most half a unit of the last kept digit. */
  lemma RoundError(x: real, scale: nat)
    requires scale > 0
    ensures x - 0.5 / (scale as real) <= RoundHalfEven(x, scale) <= x + 0.5 / (scale as real)
  {
    var y := x * (scale as real);
    var n := RoundedUnits(y);
    assert RoundHalfEven(x, scale) == (n as real) / (scale as real);
    DivMonotone(y - 0.5, n as real, scale as real);
    DivMonotone(n as real, y + 0.5, scale as real);
    assert (y - 0.5) / (scale as real) == x - 0.5 / (scale as real);
    assert (y + 0.5) / (scale as real) == x + 0.5 / (scale as real);
  }

  lemma DivMonotone(a: real, b: real, s: real)
    requires a <= b && s > 0.0
    ensures a / s <= b / s
  {
  }

  /** `round(x, 6) == 10` holds exactly on the closed interval
      [9.9999995, 10.0000005]: both ends are ties that go to the even 10.000000. */
  lemma RoundsToTenIff(x: real)
    ensures RoundHalfEven(x, 1000000) == 10.0 <==> 9.9999995 <= x <= 10.0000005
  {
    var y := x * 1000000.0;
    var f := y.Floor;
    var n := RoundedUnits(y);
    assert RoundHalfEven(x, 1000000) == n as real / 1000000.0;
    if 9.9999995 <= x <= 10.0000005 {
      assert 9999999.5 <= y <= 10000000.5;
      if y < 10000000.0 {
        assert f == 9999999;
      } else {
        assert f == 10000000;
      }
      assert n == 10000000;
    } else if n == 10000000 {
      assert false;
    }
  }

  /** `round(x, 3)`. */
  function Round3(x: real): real {
    RoundHalfEven(x, 1000)
  }

  /** `round(x, 2)`. */
  function Round2(x: real): real {
    RoundHalfEven(x, 100)
  }
}
