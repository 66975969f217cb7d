/** The team frame of `mentor_report.py`: the generic weighting of dimension
    histories, the columns `build_final_team_df` adds per team, and the bonus
    multiplier `main` derives from the command line. */
module MentorReport {
  import opened Wrappers
  import opened Text
  import opened Dict
  import opened Seqs
  import opened Stats
  import opened Weighting
  import opened Grouping
  import opened MentorLong
  import opened MentorTeam

  /** Weights of a student's rubric series. */
  const StudentLastWeight := 0.7
  const StudentPrevWeight := 0.3

  /** Weights of a team's dimension histories: equal, so a plain mean. */
  const TeamDimLastWeight := 0.5
  const TeamDimPrevWeight := 0.5

  /** The dimensions behind `Dimension_Weighted_Avg` and the team average. */
  const TeamDimensions: seq<string> := ["CommWithClient", "AlignWithClient", "CriticalThinking", "Independence"]

  /** Reported per student, but not part of the team average. */
  const OverallDimension := "OverallSatisfaction"

  /** `Mentor_Name_DB` of a team the mentor map does not know. */
  const UnknownMentor := "UNK"

  /** `BONUS = (100 + bonus) / 100`: a bonus given in percent as a factor. */
  function BonusMultiplier(bonus: real): (m: real)
    ensures 100.0 * m == 100.0 + bonus
    ensures m >= 1.0 <==> bonus >= 0.0
    ensures m == 1.0 <==> bonus == 0.0
  {
    (100.0 + bonus) / 100.0
  }

  /** A Python float that may be NaN. */
  datatype PyFloat = NaN | Fin(value: real)

  /** `compute_weighted_score_generic` as written: the equal-weight test comes
      first, so an empty list with equal weights reaches `np.mean([])`, which
      is NaN, instead of the `None` the empty test gives. */
  function GenericWeightedAsWritten(values: seq<real>, latestW: real, prevW: real): (r: Option<PyFloat>)
    ensures r == Some(NaN) <==> values == [] && latestW == prevW
    ensures r == None <==> values == [] && latestW != prevW
  {
    if latestW == prevW then (if values == [] then Some(NaN) else Some(Fin(Mean(values))))
    else if values == [] then None
    else Some(Fin(Recency(values, latestW, prevW)))
  }

  /** `compute_weighted_score_generic` with the empty test first: `None` for
      no values, the plain mean for equal weights, the recency weighting
      otherwise. A single value is returned as it is either way. */
  function GenericWeighted(values: seq<real>, latestW: real, prevW: real): (r: Option<real>)
    ensures r.None? <==> values == []
    ensures |values| == 1 ==> r == Some(values[0])
  {
    if values == [] then None
    else if latestW == prevW then
      assert |values| == 1 ==> Sum(values) == values[0] by {
        if |values| == 1 {
          assert values[..0] == [];
        }
      }
      Some(Mean(values))
    else Some(Recency(values, latestW, prevW))
  }

  /** The two agree on every non-empty list; on the empty list with equal
      weights the code as written gives NaN where `None` was meant. */
  lemma GenericWeightedCorrects(values: seq<real>, latestW: real, prevW: real)
    ensures values != [] ==> GenericWeightedAsWritten(values, latestW, prevW) == Some(Fin(GenericWeighted(values, latestW, prevW).value))
    ensures values == [] ==> GenericWeighted(values, latestW, prevW) == None
    ensures values == [] && latestW == prevW ==> GenericWeightedAsWritten(values, latestW, prevW) == Some(NaN)
  {
  }

  /** With unequal weights a list of two or more values gives
      `latestW * last + prevW * mean(all but last)`, the weights unnormalised. */
  lemma GenericWeightedUnequal(values: seq<real>, latestW: real, prevW: real)
    requires |values| > 1 && latestW != prevW
    ensures GenericWeighted(values, latestW, prevW)
      == Some(latestW * values[|values| - 1] + prevW * Mean(values[..|values| - 1]))
  {
  }

  /** The team dimension weights are equal, so a dimension's weighting is the
      mean of its whole history. */
  lemma TeamDimensionIsMean(values: seq<real>)
    requires values != []
    ensures GenericWeighted(values, TeamDimLastWeight, TeamDimPrevWeight) == Some(Mean(values))
  {
  }

  /** With weights that are non-negative and sum to one, the weighted value
      stays within the range of the values. */
  lemma GenericWeightedWithin(values: seq<real>, latestW: real, prevW: real, lo: real, hi: real)
    requires values != []
    requires latestW >= 0.0 && prevW >= 0.0 && latestW + prevW == 1.0
    requires forall i :: 0 <= i < |values| ==> lo <= values[i] <= hi
    ensures lo <= GenericWeighted(values, latestW, prevW).value <= hi
  {
    if latestW == prevW {
      MeanBounds(values, lo, hi);
    } else {
      RecencyWithinRange(values, latestW, prevW, lo, hi);
    }
  }

  /** `[x for x in xs if x is not None]`. */
  function Somes<T>(xs: seq<Option<T>>): (r: seq<T>)
    ensures |r| <= |xs|
    ensures r == [] <==> forall i :: 0 <= i < |xs| ==> xs[i].None?
  {
    if xs == [] then []
    else
      var front := xs[..|xs| - 1];
      assert forall i :: 0 <= i < |front| ==> front[i] == xs[i];
      Somes(front) + if xs[|xs| - 1].Some? then [xs[|xs| - 1].value] else []
  }

  /** Every value kept is one of the present entries. */
  lemma {:induction false} SomesFrom<T>(xs: seq<Option<T>>, i: nat)
    requires i < |Somes(xs)|
    ensures Some(Somes(xs)[i]) in xs
  {
    var front := xs[..|xs| - 1];
    if i < |Somes(front)| {
      SomesFrom(front, i);
      assert forall x :: x in front ==> x in xs;
    }
  }

  /** The values kept from the entries wrapped as finite floats. */
  lemma {:induction false} SomesLifted(xs: seq<Option<real>>)
    ensures Somes(Lifted(xs)) == Map(Somes(xs), (x: real) => Fin(x))
  {
    if xs != [] {
      var front := xs[..|xs| - 1];
      assert Lifted(xs)[..|xs| - 1] == Lifted(front);
      SomesLifted(front);
      MapAppend(Somes(front), if xs[|xs| - 1].Some? then [xs[|xs| - 1].value] else [], (x: real) => Fin(x));
    }
  }

  /** Optional metric values as the code sees them: finite floats or `None`. */
  function Lifted(xs: seq<Option<real>>): (r: seq<Option<PyFloat>>)
    ensures |r| == |xs|
    ensures forall i :: 0 <= i < |xs| ==> r[i] == if xs[i].Some? then Some(Fin(xs[i].value)) else None
  {
    Map(xs, (x: Option<real>) => if x.Some? then Some(Fin(x.value)) else None)
  }

  function FiniteValue(x: PyFloat): real {
    if x.Fin? then x.value else 0.0
  }

  /** `np.mean` of floats: NaN when there are none or one of them is NaN. */
  function PyMean(xs: seq<PyFloat>): (r: PyFloat)
    ensures r.Fin? <==> xs != [] && forall i :: 0 <= i < |xs| ==> xs[i].Fin?
  {
    if xs != [] && forall i :: 0 <= i < |xs| ==> xs[i].Fin? then Fin(Mean(Map(xs, FiniteValue))) else NaN
  }

  /** Python truthiness of a metric value inside `any([...])`: `None` and
      `0.0` are false, NaN is true. */
  predicate Truthy(m: Option<PyFloat>) {
    m.Some? && (m.value.NaN? || m.value.value != 0.0)
  }

  /** `Dimension_Weighted_Avg` as written: the mean of the present values,
      guarded by `any` over the values themselves rather than by their
      presence, so an all-zero row reads as missing. */
  function DimensionAvgAsWritten(ms: seq<Option<PyFloat>>): (r: Option<PyFloat>)
    ensures r.None? <==> forall i :: 0 <= i < |ms| ==> !Truthy(ms[i])
  {
    if exists i :: 0 <= i < |ms| && Truthy(ms[i]) then Some(PyMean(Somes(ms))) else None
  }

  /** The mean of the present values, `None` exactly when none is present: the
      rule `expand_to_student_level` applies to the same values. */
  function DimensionAvg(ms: seq<Option<real>>): (r: Option<real>)
    ensures r.None? <==> forall i :: 0 <= i < |ms| ==> ms[i].None?
  {
    var present := Somes(ms);
    if present == [] then None else Some(Mean(present))
  }

  /** The mean of present values lies within their range. */
  lemma DimensionAvgWithin(ms: seq<Option<real>>, lo: real, hi: real)
    requires forall i :: 0 <= i < |ms| && ms[i].Some? ==> lo <= ms[i].value <= hi
    ensures DimensionAvg(ms).Some? ==> lo <= DimensionAvg(ms).value <= hi
  {
    var present := Somes(ms);
    if present != [] {
      forall i | 0 <= i < |present| ensures lo <= present[i] <= hi {
        SomesFrom(ms, i);
      }
      MeanBounds(present, lo, hi);
    }
  }

  /** When some present value is not zero, the code as written computes the
      same average. */
  lemma DimensionAvgAgrees(ms: seq<Option<real>>, k: nat)
    requires k < |ms| && ms[k].Some? && ms[k].value != 0.0
    ensures DimensionAvgAsWritten(Lifted(ms)) == Some(Fin(DimensionAvg(ms).value))
  {
    var lifted := Lifted(ms);
    assert Truthy(lifted[k]);
    SomesLifted(ms);
    var present := Somes(ms);
    var fins := Map(present, (x: real) => Fin(x));
    assert Map(fins, FiniteValue) == present;
  }

  /** The discrepancy: a team whose four dimension weightings are all 0.0
      gets `None` as written and 0.0 as intended. */
  lemma DimensionAvgAllZero()
    ensures DimensionAvgAsWritten(Lifted([Some(0.0), Some(0.0), Some(0.0), Some(0.0)])) == None
    ensures DimensionAvg([Some(0.0), Some(0.0), Some(0.0), Some(0.0)]) == Some(0.0)
  {
    var ms: seq<Option<real>> := [Some(0.0), Some(0.0), Some(0.0), Some(0.0)];
    var lifted := Lifted(ms);
    assert forall i :: 0 <= i < |lifted| ==> !Truthy(lifted[i]);
    assert DimensionAvgAsWritten(lifted) == None;
    assert ms[0].Some?;
    DimensionAvgWithin(ms, 0.0, 0.0);
  }

  /** Python's `<=` on strings. */
  predicate StrLe(a: string, b: string) {
    a == b || StrLt(a, b)
  }

  lemma StrLeTotal()
    ensures TotalPreorder(StrLe)
  {
    forall a: string, b: string ensures StrLe(a, b) || StrLe(b, a) {
      if a != b {
        StrLtTotal(a, b);
      }
    }
    forall a: string, b: string, c: string | StrLe(a, b) && StrLe(b, c) ensures StrLe(a, c) {
      if a != b && b != c {
        StrLtTransitive(a, b, c);
      }
    }
  }

  function RowMentor(m: MentorScore): string {
    m.mentor
  }

  /** The mentors of one team's weighted rows, one per row. */
  function TeamMentors(ws: seq<MentorScore>, t: char): seq<string> {
    Map(Group(ws, ScoreTeam, t), RowMentor)
  }

  /** `sorted(set(x))` over a team's mentors. */
  function MentorNames(ws: seq<MentorScore>, t: char): seq<string> {
    SortWith(Distinct(TeamMentors(ws, t)), StrLe)
  }

  /** The mentors of a team's group are the mentors of its rows. */
  lemma TeamMentorsHas(ws: seq<MentorScore>, t: char, n: string)
    ensures n in TeamMentors(ws, t) <==> exists i :: 0 <= i < |ws| && ws[i].team == t && ws[i].mentor == n
  {
    var ms := TeamMentors(ws, t);
    var g := Group(ws, ScoreTeam, t);
    if n in ms {
      GroupSubset(ws, ScoreTeam, t);
      var k :| 0 <= k < |g| && g[k].mentor == n;
      assert g[k] in multiset(ws);
      var i :| 0 <= i < |ws| && ws[i] == g[k];
    }
    if exists i :: 0 <= i < |ws| && ws[i].team == t && ws[i].mentor == n {
      var i :| 0 <= i < |ws| && ws[i].team == t && ws[i].mentor == n;
      GroupHas(ws, ScoreTeam, t, i);
      var k :| 0 <= k < |g| && g[k] == ws[i];
      assert ms[k] == n;
    }
  }

  /** A team's mentors appear in `Mentor` once each, in ascending order. */
  lemma MentorNamesSorted(ws: seq<MentorScore>, t: char)
    ensures var ns := MentorNames(ws, t);
      && (forall i, j :: 0 <= i < j < |ns| ==> StrLt(ns[i], ns[j]))
      && forall n :: n in ns <==> exists i :: 0 <= i < |ws| && ws[i].team == t && ws[i].mentor == n
  {
    var d := Distinct(TeamMentors(ws, t));
    var ns := MentorNames(ws, t);
    StrLeTotal();
    SortWithSorted(d, StrLe);
    SortWithPermutes(d, StrLe);
    NoDuplicatesPermutation(d, ns);
    forall n ensures n in ns <==> exists i :: 0 <= i < |ws| && ws[i].team == t && ws[i].mentor == n {
      assert n in ns <==> n in multiset(d);
      TeamMentorsHas(ws, t, n);
    }
  }

  /** `", ".join(parts)`. */
  function JoinWith(parts: seq<string>, sep: string): (s: string)
    ensures |parts| == 1 ==> s == parts[0]
  {
    if parts == [] then ""
    else if |parts| == 1 then parts[0]
    else parts[0] + sep + JoinWith(parts[1..], sep)
  }

  /** `Reviewer_Count`: `nunique` of a team's mentors. */
  function ReviewerCount(ws: seq<MentorScore>, t: char): (n: nat)
    ensures n == |MentorNames(ws, t)|
  {
    |Distinct(TeamMentors(ws, t))|
  }

  /** The reviewer count is the number of distinct mentors among the team's
      records. */
  lemma ReviewerCountOfRecords(records: seq<LongRecord>, t: char)
    ensures ReviewerCount(WeightedRows(SortWith(records, NewestFirst)), t)
      == |set i | 0 <= i < |records| && records[i].team == t :: records[i].mentor|
  {
    var ms := TeamMentors(WeightedRows(SortWith(records, NewestFirst)), t);
    DistinctCount(ms);
    forall n ensures n in ms <==> exists i :: 0 <= i < |records| && records[i].team == t && records[i].mentor == n {
      TeamMentorOfRecords(records, t, n);
    }
    MentorSetOf(ms, records, t);
  }

  /** A list holding exactly the team's mentors names as many as the records do. */
  lemma MentorSetOf(ms: seq<string>, records: seq<LongRecord>, t: char)
    requires forall n :: n in ms <==> exists i :: 0 <= i < |records| && records[i].team == t && records[i].mentor == n
    ensures |set x | x in ms| == |set i | 0 <= i < |records| && records[i].team == t :: records[i].mentor|
  {
    var both := set i | 0 <= i < |records| && records[i].team == t :: records[i].mentor;
    var named := set x | x in ms;
    forall n ensures n in named <==> n in both {
      if n in both {
        var i :| 0 <= i < |records| && records[i].team == t && records[i].mentor == n;
      }
      if n in ms {
        var i :| 0 <= i < |records| && records[i].team == t && records[i].mentor == n;
        assert records[i].mentor in both;
      }
    }
    assert named == both;
  }

  /** A mentor is among a team's weighted rows exactly when a record of the
      team names them. */
  lemma TeamMentorOfRecords(records: seq<LongRecord>, t: char, n: string)
    ensures n in TeamMentors(WeightedRows(SortWith(records, NewestFirst)), t)
      <==> exists i :: 0 <= i < |records| && records[i].team == t && records[i].mentor == n
  {
    TeamMentorsHas(WeightedRows(SortWith(records, NewestFirst)), t, n);
    WeightedRowsKeys(records, t, n);
  }

  /** `Mentor_Name_DB`: the team's entry of the mentor map, "UNK" without one. */
  function MentorDb(mentorMap: Option<Dict<string, string>>, t: char): (s: string)
    ensures mentorMap.None? ==> s == UnknownMentor
    ensures mentorMap.Some? ==> s == GetOrDefault(mentorMap.value, [t], UnknownMentor)
  {
    match mentorMap
    case None => UnknownMentor
    case Some(m) => GetOrDefault(m, [t], UnknownMentor)
  }

  /** `(x >= HIGH) * 100` and `(x < LOW) * 100`. */
  function ThresholdPct(hit: bool): real {
    if hit then 100.0 else 0.0
  }

  /** The per-team threshold columns are the share, in percent, of the team's
      single weighted score that meets the condition. */
  lemma ThresholdIsShareOfOne(w: real, high: real, low: real)
    ensures ThresholdPct(w >= high) == PercentWhere([w], x => x >= high)
    ensures ThresholdPct(w < low) == PercentWhere([w], x => x < low)
  {
    assert [w][..0] == [];
  }

  /** One row of the final team frame. `Avg_Score` repeats `Weighted_Score`. */
  datatype TeamRow = TeamRow(
    team: char,
    mentor: string,
    mentorDb: string,
    weighted: real,
    dimensionAvg: Option<real>,
    pctAbove: real,
    pctBelow: real,
    reviewers: nat,
    dims: seq<seq<real>>,
    overall: Option<seq<real>>,
    raw: seq<Dict<string, StudentBlock>>)

  /** A dimension history weighted with the team weights. */
  function TeamDimWeighted(h: seq<real>): Option<real> {
    GenericWeighted(h, TeamDimLastWeight, TeamDimPrevWeight)
  }

  /** The team's histories for `names`, in order; the first missing column
      raises `KeyError`. */
  function Histories(lists: Dict<char, Dict<string, seq<real>>>, t: char, names: seq<string>): (r: Result<seq<seq<real>>>)
    ensures r.Ok? ==> |r.value| == |names|
  {
    if names == [] then Ok([])
    else
      match DimensionHistory(lists, t, names[0])
      case Err(e) => Err(e)
      case Ok(h) =>
        match Histories(lists, t, names[1..])
        case Err(e) => Err(e)
        case Ok(hs) => Ok([h] + hs)
  }

  /** `Histories` fails exactly when one of the names has no history. */
  lemma {:induction false} HistoriesErr(lists: Dict<char, Dict<string, seq<real>>>, t: char, names: seq<string>)
    ensures Histories(lists, t, names).Err? <==> exists i :: 0 <= i < |names| && DimensionHistory(lists, t, names[i]).Err?
  {
    if names != [] {
      var tail := names[1..];
      HistoriesErr(lists, t, tail);
      if DimensionHistory(lists, t, names[0]).Ok? && Histories(lists, t, tail).Err? {
        var i :| 0 <= i < |tail| && DimensionHistory(lists, t, tail[i]).Err?;
        assert tail[i] == names[i + 1];
      }
      if Histories(lists, t, names).Ok? {
        forall i | 0 <= i < |names| ensures DimensionHistory(lists, t, names[i]).Ok? {
          if i > 0 {
            assert names[i] == tail[i - 1];
          }
        }
      }
    }
  }

  /** Otherwise it holds each name's history at the name's position. */
  lemma {:induction false} HistoriesOk(lists: Dict<char, Dict<string, seq<real>>>, t: char, names: seq<string>)
    ensures var r := Histories(lists, t, names);
      r.Ok? ==> forall i :: 0 <= i < |names| ==> DimensionHistory(lists, t, names[i]) == Ok(r.value[i])
  {
    var r := Histories(lists, t, names);
    if names != [] && r.Ok? {
      var tail := names[1..];
      HistoriesOk(lists, t, tail);
      var rest := Histories(lists, t, tail);
      assert r.value == [DimensionHistory(lists, t, names[0]).value] + rest.value;
      forall i | 0 <= i < |names| ensures DimensionHistory(lists, t, names[i]) == Ok(r.value[i]) {
        if i > 0 {
          assert names[i] == tail[i - 1] && r.value[i] == rest.value[i - 1];
        }
      }
    }
  }

  /** The final row of team `t` with team score `w`. */
  function FinalTeamRow(ws: seq<MentorScore>, lists: Dict<char, Dict<string, seq<real>>>, sortedOldest: seq<LongRecord>,
                        mentorMap: Option<Dict<string, string>>, high: real, low: real, t: char, w: real): (r: Result<TeamRow>)
    ensures r.Err? <==> exists i :: 0 <= i < |TeamDimensions| && DimensionHistory(lists, t, TeamDimensions[i]).Err?
    ensures r.Ok? ==> r.value.team == t && r.value.weighted == w && |r.value.dims| == |TeamDimensions|
  {
    HistoriesErr(lists, t, TeamDimensions);
    HistoriesOk(lists, t, TeamDimensions);
    match Histories(lists, t, TeamDimensions)
    case Err(e) => Err(e)
    case Ok(dims) =>
      var overall := DimensionHistory(lists, t, OverallDimension);
      Ok(TeamRow(t, JoinWith(MentorNames(ws, t), ", "), MentorDb(mentorMap, t), w,
                 DimensionAvg(Map(dims, TeamDimWeighted)),
                 ThresholdPct(w >= high), ThresholdPct(w < low), ReviewerCount(ws, t),
                 dims, if overall.Ok? then Some(overall.value) else None,
                 RawEvaluations(sortedOldest, t)))
  }

  /** No team has a value for dimension `m`: its column does not exist. */
  predicate MissingColumn(lists: Dict<char, Dict<string, seq<real>>>, m: string) {
    forall j :: 0 <= j < |lists| ==> m !in Keys(lists[j].1)
  }

  /** Whether a row fails does not depend on its team: a dimension column
      is missing only when no team has that dimension. */
  lemma FinalTeamRowFails(ws: seq<MentorScore>, lists: Dict<char, Dict<string, seq<real>>>, sortedOldest: seq<LongRecord>,
                          mentorMap: Option<Dict<string, string>>, high: real, low: real, t: char, w: real, t': char, w': real)
    ensures FinalTeamRow(ws, lists, sortedOldest, mentorMap, high, low, t, w).Err?
      == FinalTeamRow(ws, lists, sortedOldest, mentorMap, high, low, t', w').Err?
  {
    forall i | 0 <= i < |TeamDimensions|
      ensures DimensionHistory(lists, t, TeamDimensions[i]).Err? == DimensionHistory(lists, t', TeamDimensions[i]).Err?
    {
    }
  }

  /** `build_final_team_df`: one row per team score, in the order of the team
      scores; the row apply raises `KeyError` on its first row when a
      dimension column is missing. */
  function FinalTeamDf(ws: seq<MentorScore>, ts: Dict<char, real>, lists: Dict<char, Dict<string, seq<real>>>,
                       sortedOldest: seq<LongRecord>, mentorMap: Option<Dict<string, string>>, high: real, low: real): (r: Result<seq<TeamRow>>)
    ensures r.Err? <==> ts != [] && exists i :: 0 <= i < |TeamDimensions| && MissingColumn(lists, TeamDimensions[i])
    ensures r.Ok? ==> (|r.value| == |ts|
      && forall i :: 0 <= i < |ts| ==> r.value[i].team == ts[i].0 && r.value[i].weighted == ts[i].1)
  {
    if ts == [] then Ok([])
    else
      match FinalTeamRow(ws, lists, sortedOldest, mentorMap, high, low, ts[0].0, ts[0].1)
      case Err(e) => Err(e)
      case Ok(_) =>
        Ok(seq(|ts|, i requires 0 <= i < |ts| =>
          FinalTeamRowFails(ws, lists, sortedOldest, mentorMap, high, low, ts[0].0, ts[0].1, ts[i].0, ts[i].1);
          FinalTeamRow(ws, lists, sortedOldest, mentorMap, high, low, ts[i].0, ts[i].1).value))
  }

  /** Each row of the frame is the final row of its team. */
  lemma FinalTeamDfRow(ws: seq<MentorScore>, ts: Dict<char, real>, lists: Dict<char, Dict<string, seq<real>>>,
                       sortedOldest: seq<LongRecord>, mentorMap: Option<Dict<string, string>>, high: real, low: real, i: nat)
    requires FinalTeamDf(ws, ts, lists, sortedOldest, mentorMap, high, low).Ok? && i < |ts|
    ensures FinalTeamRow(ws, lists, sortedOldest, mentorMap, high, low, ts[i].0, ts[i].1)
      == Ok(FinalTeamDf(ws, ts, lists, sortedOldest, mentorMap, high, low).value[i])
  {
    FinalTeamRowFails(ws, lists, sortedOldest, mentorMap, high, low, ts[0].0, ts[0].1, ts[i].0, ts[i].1);
  }

  /** The team's dimension average: the mean of the means of its non-empty
      dimension histories; none when all four are empty. */
  lemma TeamRowDimensionAvg(ws: seq<MentorScore>, lists: Dict<char, Dict<string, seq<real>>>, sortedOldest: seq<LongRecord>,
                            mentorMap: Option<Dict<string, string>>, high: real, low: real, t: char, w: real)
    requires FinalTeamRow(ws, lists, sortedOldest, mentorMap, high, low, t, w).Ok?
    ensures var row := FinalTeamRow(ws, lists, sortedOldest, mentorMap, high, low, t, w).value;
      (row.dimensionAvg.None? <==> forall i :: 0 <= i < |row.dims| ==> row.dims[i] == [])
      && forall i :: 0 <= i < |row.dims| && row.dims[i] != [] ==> TeamDimWeighted(row.dims[i]) == Some(Mean(row.dims[i]))
  {
    var row := FinalTeamRow(ws, lists, sortedOldest, mentorMap, high, low, t, w).value;
    var weighted := Map(row.dims, TeamDimWeighted);
    assert forall i :: 0 <= i < |row.dims| ==> (weighted[i].None? <==> row.dims[i] == []);
  }
}
