/** The two action policies of the reports. The mentor and client reports
    classify one average score; the peer grade classifies by the share of
    evaluators above and below the thresholds. */
module Actions {
  import opened Rounding

  datatype Action = Bonus | Attention | Normal

  /** `round(avg, 6) == 10`. */
  predicate RoundsToTen(avg: real) {
    RoundHalfEven(avg, 1000000) == 10.0
  }

  /** The closed interval of averages that print as 10 at six decimals. */
  predicate NearTen(avg: real) {
    9.9999995 <= avg <= 10.0000005
  }

  /** Score-based rule: Bonus first, then `avg <= low`, otherwise Normal. The
      Bonus test `round(avg, 6) == 10` is written as the interval it denotes
      (see `BonusIffRoundsToTen`). It does not depend on `low`: Bonus wins
      even when `low >= 10`. */
  function ClassifyByScore(avg: real, low: real): (a: Action)
    ensures a == Bonus <==> NearTen(avg)
    ensures a == Attention <==> !NearTen(avg) && avg <= low
    ensures a == Normal <==> !NearTen(avg) && avg > low
  {
    if NearTen(avg) then Bonus
    else if avg <= low then Attention
    else Normal
  }

  /** The score rule gives Bonus exactly when the average rounds to 10 at six
      decimals. */
  lemma BonusIffRoundsToTen(avg: real, low: real)
    ensures ClassifyByScore(avg, low) == Bonus <==> RoundsToTen(avg)
  {
    RoundsToTenIff(avg);
  }

  /** Percentage-based rule: everyone at or above high earns Bonus, half or more
      below low needs attention. */
  function ClassifyByPercent(pctAbove: real, pctBelow: real): (a: Action)
    ensures a == Bonus <==> pctAbove == 100.0
    ensures a == Attention <==> pctAbove != 100.0 && pctBelow >= 50.0
    ensures a == Normal <==> pctAbove != 100.0 && pctBelow < 50.0
  {
    if pctAbove == 100.0 then Bonus
    else if pctBelow >= 50.0 then Attention
    else Normal
  }
}
