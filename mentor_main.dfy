/** The mentor report end to end: structure detection, the long frame, the
    mentor and team weighting, the metric histories, the final team frame and
    its student-level expansion, with the thresholds and the bonus factor of
    the command line. */
module MentorMain {
  import opened Wrappers
  import opened Dict
  import opened Seqs
  import opened Table
  import opened Columns
  import opened Grouping
  import opened MentorLong
  import opened MentorTeam
  import opened MentorReport
  import opened MentorStudents
  import opened Results

  /** The command-line defaults: `--high-threshold 8`, `--low-threshold 7`,
      `--bonus 5` (per cent). */
  const DefaultHigh := 8.0
  const DefaultLow := 7.0
  const DefaultBonus := 5.0

  /** What the run produces: the team frame, which is written before the
      expansion starts, and the student rows or the error that stops them. */
  datatype MentorOutput = MentorOutput(teams: seq<TeamRow>, students: Result<seq<StudentRow>>)

  /** No header is a team metric column. */
  predicate NoTeamColumns(columns: seq<string>) {
    forall i :: 0 <= i < |columns| ==> TeamMetricColumn(columns[i]).None?
  }

  /** The detected structure of a loaded frame. */
  function StructureOf(columns: seq<string>): Structure {
    Structure(Nested(columns, TeamMetricColumn), Flat(columns, MentorNameColumn))
  }

  function StudentColumnsOf(columns: seq<string>): StudentColumns {
    StudentColumns(Nested(columns, StudentMetricColumn), Flat(columns, StudentFeedbackColumn))
  }

  /** The long records of a loaded frame. */
  function RecordsOf(frame: Frame): seq<LongRecord> {
    LongRecords(frame.rows, StructureOf(frame.columns), StudentColumnsOf(frame.columns))
  }

  /** Some team's student rows fail. */
  ghost predicate SomeTeamFails(teams: seq<TeamRow>, low: real, bonus: real) {
    exists i :: 0 <= i < |teams| && TeamStudentRows(teams[i], low, bonus).Err?
  }

  /** The team frame `main` builds and writes before the expansion. */
  function TeamFrameOf(frame: Frame, mentorMap: Option<Dict<string, string>>, high: real, low: real): (r: Result<seq<TeamRow>>)
    ensures NoTeamColumns(frame.columns) ==> r == Err(NoTeamBlocks)
    ensures !NoTeamColumns(frame.columns) && RecordsOf(frame) == [] ==> r == Err(NoRecords)
  {
    if NoTeamColumns(frame.columns) then Err(NoTeamBlocks)
    else
      var records := RecordsOf(frame);
      match TeamWeighting(records)
      case Err(e) => Err(e)
      case Ok(weighting) =>
        var sorted := SortWith(records, OldestFirst);
        FinalTeamDf(weighting.0, weighting.1, MetricLists(sorted), sorted, mentorMap, high, low)
  }

  /** `main` as a specification: the team frame, then its student rows with
      the bonus factor of the bonus percentage. */
  function MentorReportOf(frame: Frame, mentorMap: Option<Dict<string, string>>, high: real, low: real, bonusPct: real): (r: Result<MentorOutput>)
    ensures r.Err? <==> TeamFrameOf(frame, mentorMap, high, low).Err?
    ensures r.Ok? ==> r.value.teams == TeamFrameOf(frame, mentorMap, high, low).value
    ensures r.Ok? ==> (r.value.students.Err? <==> SomeTeamFails(r.value.teams, low, BonusMultiplier(bonusPct)))
  {
    match TeamFrameOf(frame, mentorMap, high, low)
    case Err(e) => Err(e)
    case Ok(teams) =>
      StudentLevelFails(teams, low, BonusMultiplier(bonusPct));
      Ok(MentorOutput(teams, StudentLevel(teams, low, BonusMultiplier(bonusPct))))
  }

  /** A frame with records has at least one team score. */
  lemma TeamScoresNonEmpty(records: seq<LongRecord>)
    requires records != []
    ensures TeamWeighting(records).Ok? && TeamWeighting(records).value.1 != []
  {
    var sorted := SortWith(records, NewestFirst);
    SortWithPermutes(records, NewestFirst);
    assert records[0] in multiset(sorted);
    var i :| 0 <= i < |sorted| && sorted[i] == records[0];
    assert MentorKey(sorted[i]) in GroupKeys(sorted, MentorKey);
    var ws := WeightedRows(sorted);
    assert ScoreTeam(ws[0]) in GroupKeys(ws, ScoreTeam);
  }

  /** Some rubric dimension has no column. */
  ghost predicate SomeDimensionMissing(lists: Dict<char, Dict<string, seq<real>>>) {
    exists i :: 0 <= i < |TeamDimensions| && MissingColumn(lists, TeamDimensions[i])
  }

  /** The run fails exactly when no header is a team metric, when there are
      no records, or when a rubric dimension has no column. */
  lemma TeamFrameFails(frame: Frame, mentorMap: Option<Dict<string, string>>, high: real, low: real)
    ensures TeamFrameOf(frame, mentorMap, high, low).Err? <==>
      NoTeamColumns(frame.columns) || RecordsOf(frame) == []
      || SomeDimensionMissing(MetricLists(SortWith(RecordsOf(frame), OldestFirst)))
  {
    var records := RecordsOf(frame);
    if !NoTeamColumns(frame.columns) && records != [] {
      TeamScoresNonEmpty(records);
    }
  }

  /** The part of `main` that builds the team frame. */
  method BuildTeamFrame(frame: Frame, mentorMap: Option<Dict<string, string>>, high: real, low: real) returns (r: Result<seq<TeamRow>>)
    ensures r == TeamFrameOf(frame, mentorMap, high, low)
  {
    var st := DetectTeamStructure(frame.columns);
    if st.Err? {
      r := Err(st.message);
      return;
    }
    var sc := DetectStudentMetrics(frame.columns);
    var records := BuildLongDf(frame.rows, st.value, sc);
    var weighting := TeamWeighting(records);
    if weighting.Err? {
      r := Err(weighting.message);
      return;
    }
    var lists := BuildMetricLists(records);
    var sorted := SortWith(records, OldestFirst);
    r := FinalTeamDf(weighting.value.0, weighting.value.1, lists, sorted, mentorMap, high, low);
  }

  /** `main` after argument parsing and file loading: `BONUS` becomes the
      factor `(100 + bonus) / 100`. */
  method MentorMain(frame: Frame, mentorMap: Option<Dict<string, string>>, high: real, low: real, bonusPct: real) returns (r: Result<MentorOutput>)
    ensures r == MentorReportOf(frame, mentorMap, high, low, bonusPct)
  {
    var bonus := BonusMultiplier(bonusPct);
    var teams := BuildTeamFrame(frame, mentorMap, high, low);
    if teams.Err? {
      r := Err(teams.message);
      return;
    }
    var students := ExpandToStudentLevel(teams.value, low, bonus);
    r := Ok(MentorOutput(teams.value, students));
  }
}
