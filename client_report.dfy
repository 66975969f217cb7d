/** The client report: each client's rating of each project team, the
    70/30 recency weighting per (team, client), the per-team aggregates and
    action, the team's organization, and one block per client holding that
    client's evaluations. */
module ClientReport {
  import opened Wrappers
  import opened Text
  import opened Dict
  import opened Stats
  import opened Seqs
  import opened Table
  import opened Columns
  import opened Grouping
  import opened Weighting
  import opened Rounding
  import opened Actions

  /** The command-line defaults `--high-threshold 8` and `--low-threshold 5`. */
  const DefaultHigh := 8.0
  const DefaultLow := 5.0

  /** The weights of `compute_weighted` and of `weighted_overall`. */
  const ClientLastWeight := 0.7
  const ClientPrevWeight := 0.3

  const ClientNameColumn := "ClientName"
  const TimestampColumn := "RecordedDate"
  const OrganizationColumn := "Organization"
  const OverallSuffix := "_Overall_1"

  /** Converting the timestamp column of a frame without one raises `KeyError`. */
  const NoTimestamp := "KeyError: RecordedDate"
  const NoClientRatings := "No valid client ratings found."

  // ---------------------------------------------------------------------
  // Column detection
  // ---------------------------------------------------------------------

  /** `^([A-Z])_AdditionalFeedback$`. */
  function TeamFeedbackColumn(col: string): (t: Option<char>)
    ensures t.Some? <==> |col| == 20 && IsUpper(col[0]) && col[1..] == "_AdditionalFeedback"
    ensures t.Some? ==> t.value == col[0]
  {
    LetterThen(col, "_AdditionalFeedback")
  }

  /** A header ending in `_Overall_1` names a candidate: the header with every
      `_Overall_1` removed. */
  function CandidateColumn(col: string): (c: Option<string>)
    ensures c.Some? <==> EndsWith(col, OverallSuffix)
  {
    if EndsWith(col, OverallSuffix) then Some(ReplaceAll(col, OverallSuffix, "")) else None
  }

  /** A candidate name without an underscore comes back whole. */
  lemma CandidateColumnOf(name: string)
    requires '_' !in name
    ensures CandidateColumn(name + OverallSuffix) == Some(name)
  {
    var col := name + OverallSuffix;
    assert col[|col| - |OverallSuffix|..] == OverallSuffix;
    forall i | 0 <= i < |name| ensures !StartsWith(col[i..], OverallSuffix) {
      assert col[i] == name[i];
    }
    ReplaceAllSuffix(name, OverallSuffix);
  }

  /** `replace` removes every occurrence, so a header that repeats the suffix
      loses both copies. */
  lemma CandidateColumnRepeated()
    ensures CandidateColumn("A_Overall_1_Overall_1") == Some("A")
  {
    var col := "A_Overall_1_Overall_1";
    assert EndsWith(col, OverallSuffix);
    assert col[..10][0] == 'A' && OverallSuffix[0] == '_';
    assert !StartsWith(col, OverallSuffix);
    assert col[1..] == OverallSuffix + OverallSuffix;
    assert StartsWith(col[1..], OverallSuffix);
    assert col[1..][10..] == OverallSuffix;
    assert StartsWith(col[1..][10..], OverallSuffix);
    assert col[1..][10..][10..] == [];
    assert ReplaceAll(col[1..][10..], OverallSuffix, "") == [];
    assert ReplaceAll(col[1..], OverallSuffix, "") == [];
    assert ReplaceAll(col, OverallSuffix, "") == "A";
  }

  /** The three column maps of a client export. */
  datatype ClientColumns = ClientColumns(
    metricCols: Dict<char, Dict<string, string>>,
    feedbackCols: Dict<char, string>,
    candidateCols: Dict<string, string>)

  /** The column maps of a header row: team -> metric -> column, team ->
      feedback column, candidate -> overall column; a later header of the
      same key replaces the column in place. */
  function ClientColumnsOf(columns: seq<string>): ClientColumns {
    ClientColumns(Nested(columns, TeamMetricColumn), Flat(columns, TeamFeedbackColumn), Flat(columns, CandidateColumn))
  }

  /** The detection loop over the headers and the candidate comprehension. */
  method DetectClientColumns(columns: seq<string>) returns (cc: ClientColumns)
    ensures cc == ClientColumnsOf(columns)
  {
    var metricCols: Dict<char, Dict<string, string>> := [];
    var feedbackCols: Dict<char, string> := [];
    for i := 0 to |columns|
      invariant metricCols == Nested(columns[..i], TeamMetricColumn)
      invariant feedbackCols == Flat(columns[..i], TeamFeedbackColumn)
    {
      var col := columns[i];
      assert columns[..i + 1][..i] == columns[..i];
      var m := TeamMetricColumn(col);
      if m.Some? {
        var (team, metric) := m.value;
        metricCols := Put(metricCols, team, Put(GetOrDefault(metricCols, team, []), metric, col));
      }
      var f := TeamFeedbackColumn(col);
      if f.Some? {
        feedbackCols := Put(feedbackCols, f.value, col);
      }
    }
    var candidateCols: Dict<string, string> := [];
    for i := 0 to |columns|
      invariant candidateCols == Flat(columns[..i], CandidateColumn)
    {
      var col := columns[i];
      assert columns[..i + 1][..i] == columns[..i];
      if EndsWith(col, OverallSuffix) {
        candidateCols := Put(candidateCols, ReplaceAll(col, OverallSuffix, ""), col);
      }
    }
    assert columns[..|columns|] == columns;
    cc := ClientColumns(metricCols, feedbackCols, candidateCols);
  }

  // ---------------------------------------------------------------------
  // The long records
  // ---------------------------------------------------------------------

  /** The client of a row: the stripped `ClientName` cell, or
      `Reviewer_<ResponseId>` when that is empty or "nan" in any case. */
  function ClientEvaluator(row: Row): (e: string)
    ensures e != "" && ToLower(e) != "nan"
    ensures var name := Strip(TextOr(row, ClientNameColumn, ""));
      && (name != "" && ToLower(name) != "nan" ==> e == name)
      && (name == "" || ToLower(name) == "nan" ==> e == "Reviewer_" + TextOr(row, "ResponseId", "Unknown"))
  {
    var name := Strip(TextOr(row, ClientNameColumn, ""));
    if name == "" || ToLower(name) == "nan" then
      var fallback := "Reviewer_" + TextOr(row, "ResponseId", "Unknown");
      assert |ToLower(fallback)| == |fallback| >= 9;
      fallback
    else name
  }

  /** The feedback of a team in a row: the cell's text when the team has a
      feedback column and the cell is filled, otherwise empty. */
  function ClientFeedback(row: Row, feedbackCols: Dict<char, string>, team: char): (f: string)
    ensures Get(feedbackCols, team).None? ==> f == ""
    ensures Get(feedbackCols, team).Some? ==>
      f == if CellAt(row, Get(feedbackCols, team).value) == Missing then "" else CellText(CellAt(row, Get(feedbackCols, team).value))
  {
    match Get(feedbackCols, team)
    case None => ""
    case Some(col) =>
      var cell := CellAt(row, col);
      if cell == Missing then "" else CellText(cell)
  }

  /** `row.get("Organization", None)`: absent when there is no such column or
      the cell is empty (both are dropped before the mode). */
  function OrganizationOf(row: Row): Option<string> {
    var cell := CellAt(row, OrganizationColumn);
    if cell == Missing then None else Some(CellText(cell))
  }

  datatype ClientRecord = ClientRecord(
    team: char,
    evaluator: string,
    score: real,
    candidates: Dict<string, real>,
    feedback: string,
    timestamp: int,
    organization: Option<string>)

  /** The record a row yields for one team: none when no metric of the team
      parses, otherwise the mean of the values that do. */
  function TeamRecord(row: Row, cc: ClientColumns, evaluator: string, team: (char, Dict<string, string>)): (r: Option<ClientRecord>)
    ensures r.None? <==> Parsed(row, team.1).1 == []
    ensures r.Some? ==> && r.value.team == team.0 && r.value.evaluator == evaluator
                        && r.value.score == Mean(Parsed(row, team.1).1)
                        && r.value.candidates == Parsed(row, cc.candidateCols).0
                        && r.value.timestamp == row.recorded
  {
    var raw := Parsed(row, team.1).1;
    if raw == [] then None
    else Some(ClientRecord(team.0, evaluator, Mean(raw), Parsed(row, cc.candidateCols).0,
                           ClientFeedback(row, cc.feedbackCols, team.0), row.recorded, OrganizationOf(row)))
  }

  function RecordList(r: Option<ClientRecord>): seq<ClientRecord> {
    if r.Some? then [r.value] else []
  }

  function TeamRecords(row: Row, cc: ClientColumns, team: (char, Dict<string, string>)): seq<ClientRecord> {
    RecordList(TeamRecord(row, cc, ClientEvaluator(row), team))
  }

  /** The records of one row, teams in column order. */
  function RowRecords(row: Row, cc: ClientColumns): seq<ClientRecord> {
    FlatMap(cc.metricCols, (t: (char, Dict<string, string>)) => TeamRecords(row, cc, t))
  }

  /** `long_records`: the records of each row in turn. */
  function ClientRecords(rows: seq<Row>, cc: ClientColumns): seq<ClientRecord> {
    FlatMap(rows, (row: Row) => RowRecords(row, cc))
  }

  /** One team of one row. */
  method ParseTeam(row: Row, cc: ClientColumns, evaluator: string, team: char, metrics: Dict<string, string>)
    returns (record: Option<ClientRecord>)
    ensures record == TeamRecord(row, cc, evaluator, (team, metrics))
  {
    var _, rawValues := ParseMetrics(row, metrics);
    if rawValues == [] {
      record := None;
    } else {
      var avgScore := Mean(rawValues);
      var feedback := ClientFeedback(row, cc.feedbackCols, team);
      var candidateScores, _ := ParseMetrics(row, cc.candidateCols);
      record := Some(ClientRecord(team, evaluator, avgScore, candidateScores, feedback, row.recorded, OrganizationOf(row)));
    }
  }

  /** The loop over the teams of one row. */
  method RowClientRecords(row: Row, cc: ClientColumns) returns (recs: seq<ClientRecord>)
    ensures recs == RowRecords(row, cc)
  {
    var teams := cc.metricCols;
    assert teams[..|teams|] == teams;
    var evaluator := ClientEvaluator(row);
    recs := [];
    for j := 0 to |teams|
      invariant recs == FlatMap(teams[..j], (t: (char, Dict<string, string>)) => TeamRecords(row, cc, t))
    {
      FlatMapNext(teams, (t: (char, Dict<string, string>)) => TeamRecords(row, cc, t), j);
      var record := ParseTeam(row, cc, evaluator, teams[j].0, teams[j].1);
      recs := recs + RecordList(record);
    }
  }

  /** The loop over the rows that builds `long_records`. */
  method BuildClientRecords(rows: seq<Row>, cc: ClientColumns) returns (records: seq<ClientRecord>)
    ensures records == ClientRecords(rows, cc)
  {
    records := [];
    for i := 0 to |rows|
      invariant records == ClientRecords(rows[..i], cc)
    {
      FlatMapNext(rows, (row: Row) => RowRecords(row, cc), i);
      var recs := RowClientRecords(rows[i], cc);
      records := records + recs;
    }
    assert rows[..|rows|] == rows;
  }

  /** Some metric of some team parses in the row. */
  ghost predicate RowRates(row: Row, cc: ClientColumns) {
    exists j :: 0 <= j < |cc.metricCols| && Parsed(row, cc.metricCols[j].1).1 != []
  }

  /** A row adds records exactly when some team metric parses in it. */
  lemma RowRecordsEmpty(row: Row, cc: ClientColumns)
    ensures RowRecords(row, cc) == [] <==> !RowRates(row, cc)
  {
    FlatMapEmpty(cc.metricCols, (t: (char, Dict<string, string>)) => TeamRecords(row, cc, t));
  }

  /** `long_records` stays empty exactly when no row rates any team. */
  lemma ClientRecordsEmpty(rows: seq<Row>, cc: ClientColumns)
    ensures ClientRecords(rows, cc) == [] <==> forall i :: 0 <= i < |rows| ==> !RowRates(rows[i], cc)
  {
    FlatMapEmpty(rows, (row: Row) => RowRecords(row, cc));
    forall i | 0 <= i < |rows| ensures RowRecords(rows[i], cc) == [] <==> !RowRates(rows[i], cc) {
      RowRecordsEmpty(rows[i], cc);
    }
  }

  /** A record as the report relies on it: a named client and the mean of a
      non-empty list of parsed values of some row. */
  ghost predicate FromRow(rows: seq<Row>, cc: ClientColumns, r: ClientRecord) {
    exists i, j :: 0 <= i < |rows| && 0 <= j < |cc.metricCols| && RatedBy(rows[i], cc, j, r)
  }

  ghost predicate RatedBy(row: Row, cc: ClientColumns, j: nat, r: ClientRecord)
    requires j < |cc.metricCols|
  {
    var raw := Parsed(row, cc.metricCols[j].1).1;
    && raw != [] && r.score == Mean(raw) && r.team == cc.metricCols[j].0
    && r.evaluator == ClientEvaluator(row) && r.timestamp == row.recorded
  }

  /** Every long record is a team of a row with parsed values, rated by that
      row's client. */
  lemma ClientRecordsFromRows(rows: seq<Row>, cc: ClientColumns, r: ClientRecord)
    requires r in ClientRecords(rows, cc)
    ensures FromRow(rows, cc, r) && r.evaluator != "" && ToLower(r.evaluator) != "nan"
  {
    FlatMapFrom(rows, (row: Row) => RowRecords(row, cc), r);
    var i :| 0 <= i < |rows| && r in RowRecords(rows[i], cc);
    FlatMapFrom(cc.metricCols, (t: (char, Dict<string, string>)) => TeamRecords(rows[i], cc, t), r);
    var j :| 0 <= j < |cc.metricCols| && r in TeamRecords(rows[i], cc, cc.metricCols[j]);
    TeamRecordRated(rows[i], cc, j, r);
  }

  /** The record of one team of one row is rated by that row's client. */
  lemma TeamRecordRated(row: Row, cc: ClientColumns, j: nat, r: ClientRecord)
    requires j < |cc.metricCols| && r in TeamRecords(row, cc, cc.metricCols[j])
    ensures RatedBy(row, cc, j, r) && r.evaluator != "" && ToLower(r.evaluator) != "nan"
  {
    var record := TeamRecord(row, cc, ClientEvaluator(row), cc.metricCols[j]);
    assert record.Some? && r == record.value;
  }

  // ---------------------------------------------------------------------
  // Organization per team
  // ---------------------------------------------------------------------

  /** `m` is at least as good a mode as `v`: more frequent, or as frequent
      and not after it in string order. */
  predicate ModeBeats(vals: seq<string>, m: string, v: string) {
    multiset(vals)[m] > multiset(vals)[v] || (multiset(vals)[m] == multiset(vals)[v] && !StrLt(v, m))
  }

  /** The best of `cands` as a mode of `vals`. */
  function BestMode(cands: seq<string>, vals: seq<string>): (m: string)
    requires cands != []
    ensures m in cands
    ensures forall i :: 0 <= i < |cands| ==> ModeBeats(vals, m, cands[i])
  {
    if |cands| == 1 then
      StrLtIrreflexive(cands[0]);
      cands[0]
    else
      var b := BestMode(cands[..|cands| - 1], vals);
      var c := cands[|cands| - 1];
      if multiset(vals)[c] > multiset(vals)[b] || (multiset(vals)[c] == multiset(vals)[b] && StrLt(c, b)) then
        assert forall i :: 0 <= i < |cands| - 1 ==> ModeBeats(vals, c, cands[i]) by {
          forall i | 0 <= i < |cands| - 1 ensures ModeBeats(vals, c, cands[i]) {
            var v := cands[i];
            assert ModeBeats(vals, b, cands[..|cands| - 1][i]);
            if multiset(vals)[c] == multiset(vals)[v] && StrLt(v, c) {
              StrLtTransitive(v, c, b);
            }
          }
        }
        StrLtIrreflexive(c);
        c
      else
        assert ModeBeats(vals, b, c) by {
          if c != b && multiset(vals)[c] == multiset(vals)[b] {
            StrLtTotal(c, b);
          }
          StrLtIrreflexive(b);
        }
        b
  }

  /** `x.mode().iloc[0]`: a most frequent value, the smallest among the
      most frequent. */
  function Mode(vals: seq<string>): (m: string)
    requires vals != []
    ensures m in vals
    ensures forall v :: v in vals ==> multiset(vals)[v] <= multiset(vals)[m]
    ensures forall v :: v in vals && multiset(vals)[v] == multiset(vals)[m] ==> !StrLt(v, m)
  {
    var m := BestMode(vals, vals);
    assert forall v :: v in vals ==> ModeBeats(vals, m, v);
    m
  }

  /** The organizations named in the records of a team, in record order. */
  function Organizations(records: seq<ClientRecord>, team: char): seq<string> {
    FlatMap(records, (r: ClientRecord) => if r.team == team && r.organization.Some? then [r.organization.value] else [])
  }

  /** `org_map[team]`: no entry when none of the team's records names an
      organization, otherwise their mode: the most frequent name, the
      smallest among equally frequent ones. */
  function OrgOf(records: seq<ClientRecord>, team: char): (o: Option<string>)
    ensures o.None? <==> Organizations(records, team) == []
    ensures o.Some? ==> o.value in Organizations(records, team)
    ensures o.Some? ==> var vals := Organizations(records, team);
      forall v :: v in vals ==> multiset(vals)[v] <= multiset(vals)[o.value]
    ensures o.Some? ==> var vals := Organizations(records, team);
      forall v :: v in vals && multiset(vals)[v] == multiset(vals)[o.value] ==> !StrLt(v, o.value)
  {
    var vals := Organizations(records, team);
    if vals == [] then None else Some(Mode(vals))
  }

  // ---------------------------------------------------------------------
  // Weighting per (team, client)
  // ---------------------------------------------------------------------

  /** `sort_values(by=["team", "evaluator", "timestamp"])`. */
  predicate ClientLe(a: ClientRecord, b: ClientRecord) {
    KeyLe(a.team, a.evaluator, a.timestamp, b.team, b.evaluator, b.timestamp)
  }

  lemma ClientLeTotal()
    ensures TotalPreorder(ClientLe)
  {
    forall a: ClientRecord, b: ClientRecord ensures ClientLe(a, b) || ClientLe(b, a) {
      KeyLeTotal(a.team, a.evaluator, a.timestamp, b.team, b.evaluator, b.timestamp);
    }
    forall a: ClientRecord, b: ClientRecord, c: ClientRecord | ClientLe(a, b) && ClientLe(b, c) ensures ClientLe(a, c) {
      KeyLeTransitive(a.team, a.evaluator, a.timestamp, b.team, b.evaluator, b.timestamp, c.team, c.evaluator, c.timestamp);
    }
  }

  /** The weighting groups: (team, client). */
  function PairKey(r: ClientRecord): (char, string) {
    (r.team, r.evaluator)
  }

  function RecordScore(r: ClientRecord): real {
    r.score
  }

  /** One row of `weighted_df`. */
  datatype PairScore = PairScore(team: char, evaluator: string, weighted: real)

  /** `compute_weighted` of the group `k` of the sorted records. */
  function PairWeighted(sorted: seq<ClientRecord>, k: (char, string)): real
    requires k in GroupKeys(sorted, PairKey)
  {
    GroupOfKey(sorted, PairKey, k);
    Recency(Map(Group(sorted, PairKey, k), RecordScore), ClientLastWeight, ClientPrevWeight)
  }

  /** `weighted_df`: one weighted score per (team, client), in group order. */
  function WeightedRows(sorted: seq<ClientRecord>): (ws: seq<PairScore>)
    ensures |ws| == |GroupKeys(sorted, PairKey)|
  {
    var keys := GroupKeys(sorted, PairKey);
    seq(|keys|, i requires 0 <= i < |keys| => PairScore(keys[i].0, keys[i].1, PairWeighted(sorted, keys[i])))
  }

  /** Among the records of one (team, client) the sort looks at the timestamp
      only: the record it puts last has the latest timestamp, and any later
      record of the input has an earlier one. */
  lemma LatestOfPair(g: seq<ClientRecord>, k: (char, string))
    requires |g| > 0 && forall i :: 0 <= i < |g| ==> PairKey(g[i]) == k
    ensures var j := LatestIndex(g, ClientLe);
      && (forall i :: 0 <= i < |g| ==> g[i].timestamp <= g[j].timestamp)
      && (forall i :: j < i < |g| ==> g[i].timestamp < g[j].timestamp)
  {
    ClientLeTotal();
    var j := LatestIndex(g, ClientLe);
    LatestIndexIsLatest(g, ClientLe);
    forall i | 0 <= i < |g| ensures g[i].timestamp <= g[j].timestamp {
      assert ClientLe(g[i], g[j]) && PairKey(g[i]) == PairKey(g[j]);
      StrLtIrreflexive(g[i].evaluator);
    }
    forall i | j < i < |g| ensures g[i].timestamp < g[j].timestamp {
      assert !ClientLe(g[j], g[i]) && PairKey(g[i]) == PairKey(g[j]);
    }
  }

  /** The weighted score of a (team, client): its only score, or 0.7 times
      the score of its latest record plus 0.3 times the mean of the others,
      whatever order the records came in. */
  lemma PairWeightedLatest(records: seq<ClientRecord>, k: (char, string))
    requires k in GroupKeys(records, PairKey)
    ensures var g := Group(records, PairKey, k);
      && k in GroupKeys(SortWith(records, ClientLe), PairKey) && |g| > 0
      && (|g| == 1 ==> PairWeighted(SortWith(records, ClientLe), k) == g[0].score)
      && (|g| > 1 ==> PairWeighted(SortWith(records, ClientLe), k)
                      == LastAndMean(g[LatestIndex(g, ClientLe)].score, Map(RemoveAt(g, LatestIndex(g, ClientLe)), RecordScore),
                                     ClientLastWeight, ClientPrevWeight))
  {
    var g := Group(records, PairKey, k);
    ClientLeTotal();
    GroupKeysOfSorted(records, ClientLe, PairKey, k);
    GroupOfKey(records, PairKey, k);
    GroupOfSorted(records, ClientLe, PairKey, k);
    if |g| == 1 {
      OneSorted(g, ClientLe);
    } else {
      RecencyOfSorted(g, ClientLe, RecordScore, ClientLastWeight, ClientPrevWeight);
    }
  }

  // ---------------------------------------------------------------------
  // Team aggregates and action
  // ---------------------------------------------------------------------

  function ScoreTeam(w: PairScore): char {
    w.team
  }

  function ScoreValue(w: PairScore): real {
    w.weighted
  }

  function ScoreClient(w: PairScore): string {
    w.evaluator
  }

  function ScorePair(w: PairScore): (char, string) {
    (w.team, w.evaluator)
  }

  /** The unrounded aggregates of one team's weighted rows. */
  datatype TeamStats = TeamStats(avg: real, pctAbove: real, pctBelow: real, reviewers: nat)

  /** `Avg_Score`, `Pct_Above_Threshold`, `Pct_Below_Threshold` and
      `Reviewer_Count` (`nunique` of the clients). */
  function TeamStatsOf(g: seq<PairScore>, high: real, low: real): (st: TeamStats)
    requires |g| > 0
    ensures 0.0 <= st.pctAbove <= 100.0 && 0.0 <= st.pctBelow <= 100.0
    ensures st.reviewers == |set w | w in Map(g, ScoreClient)|
  {
    DistinctCount(Map(g, ScoreClient));
    var scores := Map(g, ScoreValue);
    TeamStats(Mean(scores), PercentWhere(scores, AtOrAbove(high)), PercentWhere(scores, Below(low)),
              |Distinct(Map(g, ScoreClient))|)
  }

  /** The weighted rows name each (team, client) once. */
  lemma WeightedRowsPairs(sorted: seq<ClientRecord>)
    ensures NoDuplicates(Map(WeightedRows(sorted), ScorePair))
  {
    var ws := WeightedRows(sorted);
    assert Map(ws, ScorePair) == GroupKeys(sorted, PairKey);
  }

  /** `Reviewer_Count` counts every weighted row of the team: each client
      contributes one weighted score to the team average. */
  lemma ReviewerCountIsRows(sorted: seq<ClientRecord>, t: char, high: real, low: real)
    requires |Group(WeightedRows(sorted), ScoreTeam, t)| > 0
    ensures TeamStatsOf(Group(WeightedRows(sorted), ScoreTeam, t), high, low).reviewers
         == |Group(WeightedRows(sorted), ScoreTeam, t)|
  {
    var ws := WeightedRows(sorted);
    var g := Group(ws, ScoreTeam, t);
    WeightedRowsPairs(sorted);
    GroupMapDistinct(ws, ScoreTeam, t, ScorePair);
    var clients := Map(g, ScoreClient);
    forall i, j | 0 <= i < j < |clients| ensures clients[i] != clients[j] {
      assert Map(g, ScorePair)[i] != Map(g, ScorePair)[j];
    }
    NoDuplicatesCard(clients);
  }

  /** One row of the team frame; the clients' blocks are keyed by client
      column. Averages and percentages are rounded to two places after the
      action is decided on the unrounded average. */
  datatype TeamRow = TeamRow(
    team: char,
    organization: Option<string>,
    avg: real,
    pctAbove: real,
    pctBelow: real,
    reviewers: nat,
    action: Action,
    clients: Dict<string, ClientBlock>)

  // ---------------------------------------------------------------------
  // Client blocks
  // ---------------------------------------------------------------------

  /** `sort_values("timestamp")`. */
  predicate TimeLe(a: ClientRecord, b: ClientRecord) {
    a.timestamp <= b.timestamp
  }

  lemma TimeLeTotal()
    ensures TotalPreorder(TimeLe)
  {
  }

  /** One entry of a block's `evaluations`. */
  datatype Evaluation = Evaluation(timestamp: int, overall: real, candidates: Dict<string, real>, feedback: string)

  datatype ClientBlock = ClientBlock(weightedOverall: real, evaluations: seq<Evaluation>)

  function EvaluationOf(r: ClientRecord): Evaluation {
    Evaluation(r.timestamp, Round3(r.score), r.candidates, r.feedback)
  }

  /** `weighted_overall`: the only score as it is, otherwise 0.7 times the
      last plus 0.3 times the mean of the others, rounded to three places. */
  function WeightedOverall(scores: seq<real>): (w: real)
    requires |scores| > 0
    ensures |scores| == 1 ==> w == scores[0]
    ensures |scores| > 1 ==> w == Round3(Recency(scores, ClientLastWeight, ClientPrevWeight))
  {
    if |scores| == 1 then scores[0]
    else Round3(ClientLastWeight * scores[|scores| - 1] + ClientPrevWeight * Mean(scores[..|scores| - 1]))
  }

  /** The block of one (team, client) over the time-sorted records. */
  function BlockOf(timeSorted: seq<ClientRecord>, k: (char, string)): ClientBlock
    requires k in GroupKeys(timeSorted, PairKey)
  {
    GroupOfKey(timeSorted, PairKey, k);
    var g := Group(timeSorted, PairKey, k);
    ClientBlock(WeightedOverall(Map(g, RecordScore)), Map(g, EvaluationOf))
  }

  /** `client_blocks`: one block per (team, client), in the order of the
      weighting groups. */
  function ClientBlocks(sorted: seq<ClientRecord>): (bs: seq<(char, string, ClientBlock)>)
    ensures |bs| == |GroupKeys(sorted, PairKey)|
  {
    var keys := GroupKeys(sorted, PairKey);
    var timeSorted := SortWith(sorted, TimeLe);
    seq(|keys|, i requires 0 <= i < |keys| =>
      TimeLeTotal();
      GroupKeysOfSorted(sorted, TimeLe, PairKey, keys[i]);
      (keys[i].0, keys[i].1, BlockOf(timeSorted, keys[i])))
  }

  /** Sorting the (team, client, time)-sorted records again by time keeps each
      (team, client) group as it was. */
  lemma TimeSortKeepsPairs(records: seq<ClientRecord>, k: (char, string))
    ensures var sorted := SortWith(records, ClientLe);
      Group(SortWith(sorted, TimeLe), PairKey, k) == Group(sorted, PairKey, k)
  {
    var sorted := SortWith(records, ClientLe);
    ClientLeTotal();
    TimeLeTotal();
    GroupOfSorted(sorted, TimeLe, PairKey, k);
    GroupOfSorted(records, ClientLe, PairKey, k);
    var g := Group(sorted, PairKey, k);
    SortWithSorted(Group(records, PairKey, k), ClientLe);
    forall i, j | 0 <= i < j < |g| ensures TimeLe(g[i], g[j]) {
      assert ClientLe(g[i], g[j]) && PairKey(g[i]) == PairKey(g[j]);
      StrLtIrreflexive(g[i].evaluator);
    }
    SortWithOfSorted(g, TimeLe);
  }

  /** A block's `weighted_overall` is the pair's weighted score, rounded to
      three places when there is more than one evaluation. */
  lemma BlockMatchesWeighted(records: seq<ClientRecord>, i: nat)
    requires i < |GroupKeys(SortWith(records, ClientLe), PairKey)|
    ensures var sorted := SortWith(records, ClientLe);
      var k := GroupKeys(sorted, PairKey)[i];
      var b := ClientBlocks(sorted)[i];
      var n := |Group(sorted, PairKey, k)|;
      && b.0 == k.0 && b.1 == k.1 && n == |b.2.evaluations|
      && (n == 1 ==> b.2.weightedOverall == PairWeighted(sorted, k))
      && (n > 1 ==> b.2.weightedOverall == Round3(PairWeighted(sorted, k)))
  {
    var sorted := SortWith(records, ClientLe);
    var k := GroupKeys(sorted, PairKey)[i];
    TimeSortKeepsPairs(records, k);
    GroupOfKey(sorted, PairKey, k);
  }

  /** `"Client_" + str(x).strip().replace(" ", "_")`. */
  function ClientColumn(evaluator: string): (c: string)
    ensures StartsWith(c, "Client_") && ' ' !in c
  {
    ReplaceSpaces(Strip(evaluator));
    assert ' ' !in "Client_";
    "Client_" + ReplaceAll(Strip(evaluator), " ", "_")
  }

  /** Replacing every space by an underscore leaves no space. */
  lemma {:induction false} ReplaceSpaces(s: string)
    ensures ' ' !in ReplaceAll(s, " ", "_")
    decreases |s|
  {
    if s != [] {
      if StartsWith(s, " ") {
        ReplaceSpaces(s[1..]);
      } else {
        assert s[0] != ' ';
        ReplaceSpaces(s[1..]);
      }
    }
  }

  /** A client column of a stripped name without spaces keeps the name. */
  lemma ClientColumnOf(name: string)
    requires forall i :: 0 <= i < |name| ==> !IsSpace(name[i])
    ensures ClientColumn(name) == "Client_" + name
  {
    StripNoSpace(name);
    NoSpaceUnchanged(name);
  }

  lemma {:induction false} NoSpaceUnchanged(s: string)
    requires forall i :: 0 <= i < |s| ==> !IsSpace(s[i])
    ensures ReplaceAll(s, " ", "_") == s
    decreases |s|
  {
    if s != [] {
      assert s[0] != ' ';
      assert s[..1][0] == s[0];
      assert !StartsWith(s, " ");
      NoSpaceUnchanged(s[1..]);
    }
  }

  /** Some block of team `t` has client column `c`. */
  ghost predicate NamesColumn(blocks: seq<(char, string, ClientBlock)>, t: char, c: string) {
    exists i :: 0 <= i < |blocks| && blocks[i].0 == t && ClientColumn(blocks[i].1) == c
  }

  /** `pivot_table(..., aggfunc="first")` for one team: its blocks by client
      column, the first block of each column kept. */
  function TeamClients(blocks: seq<(char, string, ClientBlock)>, t: char): (d: Dict<string, ClientBlock>)
    ensures UniqueKeys(d)
    ensures forall c :: c in Keys(d) <==> NamesColumn(blocks, t, c)
  {
    if blocks == [] then []
    else
      var front := blocks[..|blocks| - 1];
      var d := TeamClients(front, t);
      var (team, client, block) := blocks[|blocks| - 1];
      var col := ClientColumn(client);
      assert forall c :: NamesColumn(blocks, t, c) <==> NamesColumn(front, t, c) || (team == t && col == c) by {
        forall c ensures NamesColumn(blocks, t, c) <==> NamesColumn(front, t, c) || (team == t && col == c) {
          ExistsSnoc(blocks, front, (b: (char, string, ClientBlock)) => b.0 == t && ClientColumn(b.1) == c);
        }
      }
      if team == t && col !in Keys(d) then
        assert Keys(d + [(col, block)]) == Keys(d) + [col];
        d + [(col, block)]
      else d
  }

  /** The first block of a client column is the one the team keeps. */
  lemma {:induction false} TeamClientsFirst(blocks: seq<(char, string, ClientBlock)>, t: char, i: nat)
    requires i < |blocks| && blocks[i].0 == t
    requires forall j :: 0 <= j < i ==> blocks[j].0 != t || ClientColumn(blocks[j].1) != ClientColumn(blocks[i].1)
    ensures Get(TeamClients(blocks, t), ClientColumn(blocks[i].1)) == Some(blocks[i].2)
  {
    var front := blocks[..|blocks| - 1];
    var col := ClientColumn(blocks[i].1);
    if i < |blocks| - 1 {
      TeamClientsFirst(front, t, i);
      assert col in Keys(TeamClients(front, t));
    } else {
      assert !NamesColumn(front, t, col);
    }
  }

  // ---------------------------------------------------------------------
  // The report
  // ---------------------------------------------------------------------

  /** `grade_df` merged with the client blocks, teams in the order of the
      weighted rows. */
  function TeamRows(records: seq<ClientRecord>, high: real, low: real): (rows: seq<TeamRow>)
    ensures |rows| == |GroupKeys(WeightedRows(SortWith(records, ClientLe)), ScoreTeam)|
  {
    var sorted := SortWith(records, ClientLe);
    var ws := WeightedRows(sorted);
    var blocks := ClientBlocks(sorted);
    var teams := GroupKeys(ws, ScoreTeam);
    seq(|teams|, i requires 0 <= i < |teams| =>
      GroupOfKey(ws, ScoreTeam, teams[i]);
      var st := TeamStatsOf(Group(ws, ScoreTeam, teams[i]), high, low);
      TeamRow(teams[i], OrgOf(records, teams[i]), Round2(st.avg), Round2(st.pctAbove), Round2(st.pctBelow),
              st.reviewers, ClassifyByScore(st.avg, low), TeamClients(blocks, teams[i])))
  }

  /** `main` after loading, as a specification. */
  function ClientReportOf(frame: Frame, high: real, low: real): (r: Result<seq<TeamRow>>)
    ensures TimestampColumn !in frame.columns ==> r == Err(NoTimestamp)
  {
    if TimestampColumn !in frame.columns then Err(NoTimestamp)
    else
      var records := ClientRecords(frame.rows, ClientColumnsOf(frame.columns));
      if records == [] then Err(NoClientRatings)
      else Ok(TeamRows(records, high, low))
  }

  /** The run fails exactly when there is no timestamp column or no row
      rates any team; otherwise every team rated in some row has a row. */
  lemma ClientReportFails(frame: Frame, high: real, low: real)
    ensures ClientReportOf(frame, high, low).Err? <==>
      TimestampColumn !in frame.columns
      || forall i :: 0 <= i < |frame.rows| ==> !RowRates(frame.rows[i], ClientColumnsOf(frame.columns))
  {
    ClientRecordsEmpty(frame.rows, ClientColumnsOf(frame.columns));
  }

  /** Each team row is its team's: the mean of the clients' weighted scores
      and the shares at or above `high` and below `low`, each rounded to two
      places; the organization of its records; the action by the score rule
      on the unrounded mean; and every client counted once. */
  lemma TeamRowsAt(records: seq<ClientRecord>, high: real, low: real, i: nat)
    requires i < |GroupKeys(WeightedRows(SortWith(records, ClientLe)), ScoreTeam)|
    ensures var ws := WeightedRows(SortWith(records, ClientLe));
      var t := GroupKeys(ws, ScoreTeam)[i];
      var g := Group(ws, ScoreTeam, t);
      var row := TeamRows(records, high, low)[i];
      && |g| > 0 && row.team == t && row.reviewers == |g|
      && row.organization == OrgOf(records, t)
      && row.avg == Round2(Mean(Map(g, ScoreValue)))
      && row.pctAbove == Round2(PercentWhere(Map(g, ScoreValue), AtOrAbove(high)))
      && row.pctBelow == Round2(PercentWhere(Map(g, ScoreValue), Below(low)))
      && (row.action == Bonus <==> NearTen(Mean(Map(g, ScoreValue))))
      && (row.action == Attention <==> !NearTen(Mean(Map(g, ScoreValue))) && Mean(Map(g, ScoreValue)) <= low)
  {
    var sorted := SortWith(records, ClientLe);
    var ws := WeightedRows(sorted);
    var t := GroupKeys(ws, ScoreTeam)[i];
    GroupOfKey(ws, ScoreTeam, t);
    ReviewerCountIsRows(sorted, t, high, low);
  }

  /** `main` after loading and argument parsing. */
  method ClientMain(frame: Frame, high: real, low: real) returns (r: Result<seq<TeamRow>>)
    ensures r == ClientReportOf(frame, high, low)
  {
    if TimestampColumn !in frame.columns {
      r := Err(NoTimestamp);
      return;
    }
    var cc := DetectClientColumns(frame.columns);
    var records := BuildClientRecords(frame.rows, cc);
    if records == [] {
      r := Err(NoClientRatings);
      return;
    }
    r := Ok(TeamRows(records, high, low));
  }
}
