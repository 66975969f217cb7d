/** The team side of the mentor report: the recency weighting per (team,
    mentor) and its mean per team, the per-team metric histories, and the
    raw student blocks each team carries into the student expansion. */
module MentorTeam {
  import opened Wrappers
  import opened Text
  import opened Dict
  import opened Stats
  import opened Seqs
  import opened Weighting
  import opened Rounding
  import opened Grouping
  import opened MentorLong

  /** The fixed weights of `compute_weighted_score` in `compute_team_weighting`. */
  const MentorLastWeight := 0.7
  const MentorPrevWeight := 0.3

  /** Sorting an empty record frame by "team" raises `KeyError`. */
  const NoRecords := "KeyError: team"

  /** `sort_values(["team", "mentor", "timestamp"], ascending=[True, True, False])`:
      the newest submission of a (team, mentor) pair comes first. */
  predicate NewestFirst(a: LongRecord, b: LongRecord) {
    KeyLe(a.team, a.mentor, -a.timestamp, b.team, b.mentor, -b.timestamp)
  }

  /** `sort_values(["team", "mentor", "timestamp"])`. */
  predicate OldestFirst(a: LongRecord, b: LongRecord) {
    KeyLe(a.team, a.mentor, a.timestamp, b.team, b.mentor, b.timestamp)
  }

  lemma NewestFirstTotal()
    ensures TotalPreorder(NewestFirst)
  {
    forall a: LongRecord, b: LongRecord ensures NewestFirst(a, b) || NewestFirst(b, a) {
      KeyLeTotal(a.team, a.mentor, -a.timestamp, b.team, b.mentor, -b.timestamp);
    }
    forall a: LongRecord, b: LongRecord, c: LongRecord | NewestFirst(a, b) && NewestFirst(b, c) ensures NewestFirst(a, c) {
      KeyLeTransitive(a.team, a.mentor, -a.timestamp, b.team, b.mentor, -b.timestamp, c.team, c.mentor, -c.timestamp);
    }
  }

  lemma OldestFirstTotal()
    ensures TotalPreorder(OldestFirst)
  {
    forall a: LongRecord, b: LongRecord ensures OldestFirst(a, b) || OldestFirst(b, a) {
      KeyLeTotal(a.team, a.mentor, a.timestamp, b.team, b.mentor, b.timestamp);
    }
    forall a: LongRecord, b: LongRecord, c: LongRecord | OldestFirst(a, b) && OldestFirst(b, c) ensures OldestFirst(a, c) {
      KeyLeTransitive(a.team, a.mentor, a.timestamp, b.team, b.mentor, b.timestamp, c.team, c.mentor, c.timestamp);
    }
  }

  function MentorKey(r: LongRecord): (char, string) {
    (r.team, r.mentor)
  }

  function RecordScore(r: LongRecord): real {
    r.score
  }

  /** One row of `weighted_df`. */
  datatype MentorScore = MentorScore(team: char, mentor: string, score: real)

  function ScoreTeam(m: MentorScore): char {
    m.team
  }

  function ScoreValue(m: MentorScore): real {
    m.score
  }

  /** `compute_weighted_score` of the (team, mentor) group `k` of the sorted records. */
  function MentorWeighted(sorted: seq<LongRecord>, k: (char, string)): real
    requires k in GroupKeys(sorted, MentorKey)
  {
    GroupOfKey(sorted, MentorKey, k);
    Recency(Map(Group(sorted, MentorKey, k), RecordScore), MentorLastWeight, MentorPrevWeight)
  }

  /** `weighted_df`: one weighted score per (team, mentor) pair, in group order. */
  function WeightedRows(sorted: seq<LongRecord>): (ws: seq<MentorScore>)
    ensures |ws| == |GroupKeys(sorted, MentorKey)|
  {
    var keys := GroupKeys(sorted, MentorKey);
    seq(|keys|, i requires 0 <= i < |keys| => MentorScore(keys[i].0, keys[i].1, MentorWeighted(sorted, keys[i])))
  }

  /** `team_weighted`: the mean of the mentor scores of each team. */
  function TeamScores(ws: seq<MentorScore>): (ts: Dict<char, real>)
    ensures |ts| == |GroupKeys(ws, ScoreTeam)|
  {
    var teams := GroupKeys(ws, ScoreTeam);
    seq(|teams|, i requires 0 <= i < |teams| =>
      GroupOfKey(ws, ScoreTeam, teams[i]);
      (teams[i], Mean(Map(Group(ws, ScoreTeam, teams[i]), ScoreValue))))
  }

  /** `compute_team_weighting`: an error for an empty record frame. */
  function TeamWeighting(records: seq<LongRecord>): (r: Result<(seq<MentorScore>, Dict<char, real>)>)
    ensures r.Err? <==> records == []
  {
    if records == [] then Err(NoRecords)
    else
      var ws := WeightedRows(SortWith(records, NewestFirst));
      Ok((ws, TeamScores(ws)))
  }

  /** The weighted rows name exactly the (team, mentor) pairs of the records,
      each once, with the score of that pair's group. */
  lemma WeightedRowsKeys(records: seq<LongRecord>, team: char, mentor: string)
    ensures var ws := WeightedRows(SortWith(records, NewestFirst));
      (exists i :: 0 <= i < |ws| && ws[i].team == team && ws[i].mentor == mentor)
      <==> (exists i :: 0 <= i < |records| && records[i].team == team && records[i].mentor == mentor)
  {
    var sorted := SortWith(records, NewestFirst);
    var ws := WeightedRows(sorted);
    var keys := GroupKeys(sorted, MentorKey);
    GroupKeysOfSorted(records, NewestFirst, MentorKey, (team, mentor));
    if exists i :: 0 <= i < |ws| && ws[i].team == team && ws[i].mentor == mentor {
      var i :| 0 <= i < |ws| && ws[i].team == team && ws[i].mentor == mentor;
      assert keys[i] == (team, mentor);
      var j :| 0 <= j < |records| && MentorKey(records[j]) == (team, mentor);
    }
    if exists i :: 0 <= i < |records| && records[i].team == team && records[i].mentor == mentor {
      var i :| 0 <= i < |records| && records[i].team == team && records[i].mentor == mentor;
      assert MentorKey(records[i]) == (team, mentor);
      var j :| 0 <= j < |keys| && keys[j] == (team, mentor);
      assert ws[j].team == team && ws[j].mentor == mentor;
    }
  }

  /** Grouping the sorted records gives each pair's records sorted. */
  lemma MentorGroupSorted(records: seq<LongRecord>, k: (char, string))
    ensures Group(SortWith(records, NewestFirst), MentorKey, k) == SortWith(Group(records, MentorKey, k), NewestFirst)
  {
    NewestFirstTotal();
    GroupOfSorted(records, NewestFirst, MentorKey, k);
  }

  /** Within one pair the sort key is the time alone, so the element the sort
      puts last is the earliest. */
  lemma EarliestOfPair(g: seq<LongRecord>, k: (char, string))
    requires |g| > 0 && forall i :: 0 <= i < |g| ==> MentorKey(g[i]) == k
    ensures forall i :: 0 <= i < |g| ==> g[LatestIndex(g, NewestFirst)].timestamp <= g[i].timestamp
  {
    var j := LatestIndex(g, NewestFirst);
    NewestFirstTotal();
    LatestIndexIsLatest(g, NewestFirst);
    forall i | 0 <= i < |g| ensures g[j].timestamp <= g[i].timestamp {
      assert NewestFirst(g[i], g[j]);
      assert MentorKey(g[i]) == k && MentorKey(g[j]) == k;
      StrLtIrreflexive(g[i].mentor);
    }
  }

  /** A pair with a lone submission keeps its score. */
  lemma MentorWeightedSingle(records: seq<LongRecord>, k: (char, string))
    requires k in GroupKeys(SortWith(records, NewestFirst), MentorKey)
    requires |Group(records, MentorKey, k)| == 1
    ensures MentorWeighted(SortWith(records, NewestFirst), k) == Group(records, MentorKey, k)[0].score
  {
    GroupKeysOfSorted(records, NewestFirst, MentorKey, k);
    MentorWeightedOfGroup(records, k);
    OneSorted(Group(records, MentorKey, k), NewestFirst);
  }

  /** Because a pair's group is sorted newest first, the element the sort puts
      last is the earliest submission: for more than one submission, the weight
      0.7 goes to the earliest one and 0.3 to the mean of the others. */
  lemma PairWeightingEarliest(g: seq<LongRecord>, k: (char, string), w: real)
    requires |g| > 1 && forall i :: 0 <= i < |g| ==> MentorKey(g[i]) == k
    requires w == Recency(Map(SortWith(g, NewestFirst), RecordScore), MentorLastWeight, MentorPrevWeight)
    ensures var j := LatestIndex(g, NewestFirst);
      && (forall i :: 0 <= i < |g| ==> g[j].timestamp <= g[i].timestamp)
      && w == LastAndMean(g[j].score, Map(RemoveAt(g, j), RecordScore), MentorLastWeight, MentorPrevWeight)
  {
    EarliestOfPair(g, k);
    RecencyOfSorted(g, NewestFirst, RecordScore, MentorLastWeight, MentorPrevWeight);
  }

  /** A pair's weighted score is the recency weighting of that pair's own
      records sorted newest first. */
  lemma MentorWeightedOfGroup(records: seq<LongRecord>, k: (char, string))
    requires k in GroupKeys(records, MentorKey)
    ensures && k in GroupKeys(SortWith(records, NewestFirst), MentorKey)
      && |Group(records, MentorKey, k)| > 0
      && MentorWeighted(SortWith(records, NewestFirst), k)
        == Recency(Map(SortWith(Group(records, MentorKey, k), NewestFirst), RecordScore), MentorLastWeight, MentorPrevWeight)
  {
    GroupKeysOfSorted(records, NewestFirst, MentorKey, k);
    GroupOfKey(records, MentorKey, k);
    MentorGroupSorted(records, k);
  }

  predicate ScoresWithin(records: seq<LongRecord>, lo: real, hi: real) {
    forall i :: 0 <= i < |records| ==> lo <= records[i].score <= hi
  }

  lemma SortedScoresWithin(records: seq<LongRecord>, lo: real, hi: real)
    requires ScoresWithin(records, lo, hi)
    ensures ScoresWithin(SortWith(records, NewestFirst), lo, hi)
  {
    var sorted := SortWith(records, NewestFirst);
    SortWithPermutes(records, NewestFirst);
    forall n | 0 <= n < |sorted| ensures lo <= sorted[n].score <= hi {
      assert sorted[n] in multiset(records);
    }
  }

  /** A pair's weighted score lies in the range of the record scores. */
  lemma MentorWeightedWithin(sorted: seq<LongRecord>, k: (char, string), lo: real, hi: real)
    requires k in GroupKeys(sorted, MentorKey) && ScoresWithin(sorted, lo, hi)
    ensures lo <= MentorWeighted(sorted, k) <= hi
  {
    GroupOfKey(sorted, MentorKey, k);
    var g := Group(sorted, MentorKey, k);
    var scores := Map(g, RecordScore);
    GroupSubset(sorted, MentorKey, k);
    forall n | 0 <= n < |scores| ensures lo <= scores[n] <= hi {
      assert g[n] in multiset(sorted);
    }
    RecencyWithinRange(scores, MentorLastWeight, MentorPrevWeight, lo, hi);
  }

  /** The mean of one team's mentor scores lies in their range. */
  lemma TeamMeanWithin(ws: seq<MentorScore>, t: char, lo: real, hi: real)
    requires |Group(ws, ScoreTeam, t)| > 0
    requires forall i :: 0 <= i < |ws| ==> lo <= ws[i].score <= hi
    ensures lo <= Mean(Map(Group(ws, ScoreTeam, t), ScoreValue)) <= hi
  {
    var g := Group(ws, ScoreTeam, t);
    var scores := Map(g, ScoreValue);
    GroupSubset(ws, ScoreTeam, t);
    forall n | 0 <= n < |scores| ensures lo <= scores[n] <= hi {
      assert g[n] in multiset(ws);
    }
    MeanBounds(scores, lo, hi);
  }

  /** With every record score in `[lo, hi]`, so is every mentor score and every
      team score: the 0.7/0.3 weights sum to one and a mean stays in range. */
  lemma TeamWeightingWithinRange(records: seq<LongRecord>, lo: real, hi: real)
    requires ScoresWithin(records, lo, hi)
    ensures TeamWeighting(records).Ok? ==>
      var (ws, ts) := TeamWeighting(records).value;
      (forall i :: 0 <= i < |ws| ==> lo <= ws[i].score <= hi)
      && (forall i :: 0 <= i < |ts| ==> lo <= ts[i].1 <= hi)
  {
    if records != [] {
      var sorted := SortWith(records, NewestFirst);
      SortedScoresWithin(records, lo, hi);
      var ws := WeightedRows(sorted);
      var keys := GroupKeys(sorted, MentorKey);
      forall i | 0 <= i < |ws| ensures lo <= ws[i].score <= hi {
        assert keys[i] in keys;
        MentorWeightedWithin(sorted, keys[i], lo, hi);
      }
      var ts := TeamScores(ws);
      var teams := GroupKeys(ws, ScoreTeam);
      forall i | 0 <= i < |ts| ensures lo <= ts[i].1 <= hi {
        assert teams[i] in teams;
        GroupOfKey(ws, ScoreTeam, teams[i]);
        TeamMeanWithin(ws, teams[i], lo, hi);
      }
    }
  }

  /** The history lists of one team after one more record: each of its
      metrics appends its rounded value to that metric's list. */
  function AppendMetrics(lists: Dict<string, seq<real>>, metrics: Dict<string, real>): Dict<string, seq<real>> {
    AppendEach(lists, metrics, Round3)
  }

  /** `build_metric_lists` on records already in (team, mentor, time) order. */
  function MetricLists(sorted: seq<LongRecord>): Dict<char, Dict<string, seq<real>>> {
    if sorted == [] then []
    else
      var d := MetricLists(sorted[..|sorted| - 1]);
      var r := sorted[|sorted| - 1];
      Put(d, r.team, AppendMetrics(GetOrDefault(d, r.team, []), r.metrics))
  }

  /** The Python value of a record's metric, 0.0 standing in when absent. */
  function MetricOf(r: LongRecord, m: string): real {
    GetOrDefault(r.metrics, m, 0.0)
  }

  /** The history a team's lists hold for one metric: the rounded values of
      that metric, one per record of the team that has it, in record order. */
  function History(sorted: seq<LongRecord>, t: char, m: string): seq<real> {
    if sorted == [] then []
    else
      var r := sorted[|sorted| - 1];
      History(sorted[..|sorted| - 1], t, m) + if r.team == t && m in Keys(r.metrics) then [Round3(MetricOf(r, m))] else []
  }

  /** One record appends its rounded metric to its own team's list for that
      metric and leaves every other list as it was. */
  lemma MetricListsStep(d: Dict<char, Dict<string, seq<real>>>, r: LongRecord, t: char, m: string)
    requires UniqueKeys(r.metrics)
    ensures GetOrDefault(GetOrDefault(Put(d, r.team, AppendMetrics(GetOrDefault(d, r.team, []), r.metrics)), t, []), m, [])
      == GetOrDefault(GetOrDefault(d, t, []), m, []) + if r.team == t && m in Keys(r.metrics) then [Round3(MetricOf(r, m))] else []
  {
    GetPut(d, r.team, AppendMetrics(GetOrDefault(d, r.team, []), r.metrics), t);
    if r.team == t {
      AppendEachAt(GetOrDefault(d, t, []), r.metrics, Round3, m);
    }
  }

  /** What `build_metric_lists` stores per team and metric is exactly its history. */
  lemma {:induction false} MetricListsHistory(sorted: seq<LongRecord>, t: char, m: string)
    requires forall i :: 0 <= i < |sorted| ==> UniqueKeys(sorted[i].metrics)
    ensures GetOrDefault(GetOrDefault(MetricLists(sorted), t, []), m, []) == History(sorted, t, m)
  {
    if sorted != [] {
      var prefix := sorted[..|sorted| - 1];
      assert forall i :: 0 <= i < |prefix| ==> prefix[i] == sorted[i];
      MetricListsHistory(prefix, t, m);
      MetricListsStep(MetricLists(prefix), sorted[|sorted| - 1], t, m);
    }
  }

  /** The inner loop of `build_metric_lists`: one record's metrics appended,
      rounded, to its team's lists. */
  method AppendRecordMetrics(teamLists: Dict<string, seq<real>>, metrics: Dict<string, real>) returns (out: Dict<string, seq<real>>)
    ensures out == AppendMetrics(teamLists, metrics)
  {
    out := teamLists;
    for j := 0 to |metrics|
      invariant out == AppendMetrics(teamLists, metrics[..j])
    {
      assert metrics[..j + 1][..j] == metrics[..j];
      var (k, v) := metrics[j];
      out := Put(out, k, GetOrDefault(out, k, []) + [Round3(v)]);
    }
    assert metrics[..|metrics|] == metrics;
  }

  /** The two loops of `build_metric_lists`. */
  method BuildMetricLists(records: seq<LongRecord>) returns (lists: Dict<char, Dict<string, seq<real>>>)
    ensures lists == MetricLists(SortWith(records, OldestFirst))
  {
    var sorted := SortWith(records, OldestFirst);
    lists := [];
    for i := 0 to |sorted|
      invariant lists == MetricLists(sorted[..i])
    {
      assert sorted[..i + 1][..i] == sorted[..i];
      var r := sorted[i];
      var teamLists := AppendRecordMetrics(GetOrDefault(lists, r.team, []), r.metrics);
      lists := Put(lists, r.team, teamLists);
    }
    assert sorted[..|sorted|] == sorted;
  }

  /** One team's entry of the metric-list frame for one dimension: a team
      without values reads as the empty list; a dimension no team has is a
      missing column, which raises `KeyError`. */
  function DimensionHistory(lists: Dict<char, Dict<string, seq<real>>>, t: char, m: string): (r: Result<seq<real>>)
    ensures r.Err? <==> forall i :: 0 <= i < |lists| ==> m !in Keys(lists[i].1)
    ensures r.Ok? ==> r.value == GetOrDefault(GetOrDefault(lists, t, []), m, [])
  {
    if exists i :: 0 <= i < |lists| && m in Keys(lists[i].1) then Ok(GetOrDefault(GetOrDefault(lists, t, []), m, []))
    else Err("KeyError: " + m)
  }

  /** `build_raw_json` for one team: the student blocks of its records in
      (team, mentor, time) order. */
  function RawEvaluations(sorted: seq<LongRecord>, t: char): (raw: seq<Dict<string, StudentBlock>>)
    ensures |raw| <= |sorted|
    ensures forall b :: b in raw <==> exists r :: r in sorted && r.team == t && r.rawStudents == b
  {
    var onTeam := (r: LongRecord) => r.team == t;
    var kept := Filter(sorted, onTeam);
    FilterSubset(sorted, onTeam);
    FilterKeepsAll(sorted, onTeam);
    assert forall k :: 0 <= k < |kept| ==> kept[k] in multiset(sorted);
    Map(kept, (r: LongRecord) => r.rawStudents)
  }
}
