/** The first half of the mentor report: detecting the team and student
    column blocks of a mentor survey export, and expanding each response
    into one long record per team it rates. */
module MentorLong {
  import opened Wrappers
  import opened Text
  import opened Dict
  import opened Stats
  import opened Table
  import opened Columns
  import opened Seqs

  const NoTeamBlocks := "No mentor team blocks detected."

  const StudentMetrics: seq<string> := ["Communication", "Technical", "Reliability"]

  /** `^([A-Z])_MentorName$`. */
  function MentorNameColumn(col: string): (t: Option<char>)
    ensures t.Some? <==> |col| == 12 && IsUpper(col[0]) && col[1..] == "_MentorName"
  {
    LetterThen(col, "_MentorName")
  }

  /** `^(.+?)_<metric>_1$` for one metric: the student name. */
  function StudentStem(col: string, metric: string): (r: Option<string>)
    ensures r.Some? ==> |r.value| >= 1 && '\n' !in r.value && col == r.value + "_" + metric + "_1"
  {
    var r := SuffixStem(col, "_" + metric + "_1", 1);
    if r.Some? then
      assert col == r.value + "_" + metric + "_1";
      r
    else None
  }

  /** `^(.+?)_(Communication|Technical|Reliability)_1$`: a student name of at
      least one character and one of the three rubric metrics. */
  function StudentMetricColumn(col: string): (r: Option<(string, string)>)
    ensures r.Some? ==> (r.value.1 in StudentMetrics
      && |r.value.0| >= 1 && '\n' !in r.value.0
      && col == r.value.0 + "_" + r.value.1 + "_1")
  {
    var c := StudentStem(col, "Communication");
    if c.Some? then Some((c.value, "Communication"))
    else
      var t := StudentStem(col, "Technical");
      if t.Some? then Some((t.value, "Technical"))
      else
        var l := StudentStem(col, "Reliability");
        if l.Some? then Some((l.value, "Reliability")) else None
  }

  /** Every header of that shape matches; a name never ends in `_<metric>_1`
      of another metric, so the first alternative that matches is the one. */
  lemma StudentMetricColumnOf(name: string, metric: string)
    requires metric in StudentMetrics && |name| >= 1 && '\n' !in name
    ensures StudentMetricColumn(name + "_" + metric + "_1").Some?
  {
    var col := name + "_" + metric + "_1";
    assert col == name + ("_" + metric + "_1");
    SuffixStemOf(name, "_" + metric + "_1", 1);
  }

  /** `^(.+?)_Feedback$`. */
  function StudentFeedbackColumn(col: string): (r: Option<string>)
    ensures r.Some? ==> |r.value| >= 1 && col == r.value + "_Feedback"
  {
    SuffixStem(col, "_Feedback", 1)
  }

  datatype Structure = Structure(teamMetrics: Dict<char, Dict<string, string>>, mentorNameCols: Dict<char, string>)

  datatype StudentColumns = StudentColumns(metricCols: Dict<string, Dict<string, string>>, feedbackCols: Dict<string, string>)

  /** `detect_team_structure`: team letter -> metric -> column, and team letter
      -> mentor-name column; an error when no header is a team metric. */
  method DetectTeamStructure(columns: seq<string>) returns (r: Result<Structure>)
    ensures r.Err? <==> forall i :: 0 <= i < |columns| ==> TeamMetricColumn(columns[i]).None?
    ensures r.Err? ==> r.message == NoTeamBlocks
    ensures r.Ok? ==> r.value == Structure(Nested(columns, TeamMetricColumn), Flat(columns, MentorNameColumn))
  {
    var teamMetrics: Dict<char, Dict<string, string>> := [];
    var mentorNameCols: Dict<char, string> := [];
    for i := 0 to |columns|
      invariant teamMetrics == Nested(columns[..i], TeamMetricColumn)
      invariant mentorNameCols == Flat(columns[..i], MentorNameColumn)
    {
      var col := columns[i];
      assert columns[..i + 1][..i] == columns[..i];
      var m := MentorNameColumn(col);
      if m.Some? {
        mentorNameCols := Put(mentorNameCols, m.value, col);
      }
      var t := TeamMetricColumn(col);
      if t.Some? {
        var (team, metric) := t.value;
        teamMetrics := Put(teamMetrics, team, Put(GetOrDefault(teamMetrics, team, []), metric, col));
      }
    }
    assert columns[..|columns|] == columns;
    NestedEmpty(columns, TeamMetricColumn);
    if teamMetrics == [] {
      r := Err(NoTeamBlocks);
    } else {
      r := Ok(Structure(teamMetrics, mentorNameCols));
    }
  }

  /** `detect_student_metrics`: student -> metric -> column, and student ->
      feedback column. */
  method DetectStudentMetrics(columns: seq<string>) returns (sc: StudentColumns)
    ensures sc == StudentColumns(Nested(columns, StudentMetricColumn), Flat(columns, StudentFeedbackColumn))
  {
    var metricCols: Dict<string, Dict<string, string>> := [];
    var feedbackCols: Dict<string, string> := [];
    for i := 0 to |columns|
      invariant metricCols == Nested(columns[..i], StudentMetricColumn)
      invariant feedbackCols == Flat(columns[..i], StudentFeedbackColumn)
    {
      var col := columns[i];
      assert columns[..i + 1][..i] == columns[..i];
      var m := StudentMetricColumn(col);
      if m.Some? {
        var (name, metric) := m.value;
        metricCols := Put(metricCols, name, Put(GetOrDefault(metricCols, name, []), metric, col));
      }
      var f := StudentFeedbackColumn(col);
      if f.Some? {
        feedbackCols := Put(feedbackCols, f.value, col);
      }
    }
    assert columns[..|columns|] == columns;
    sc := StudentColumns(metricCols, feedbackCols);
  }

  /** What one submission says about one student: the rubric values that
      parse, and the stripped feedback text if it is not blank. */
  datatype StudentBlock = StudentBlock(metrics: Dict<string, real>, feedback: Option<string>)

  datatype LongRecord = LongRecord(
    team: char,
    mentor: string,
    score: real,
    metrics: Dict<string, real>,
    timestamp: int,
    rawStudents: Dict<string, StudentBlock>)

  /** The feedback of a student in one row: present only when the cell is not
      empty and not blank after stripping. */
  function FeedbackText(row: Row, fbCol: Option<string>): (f: Option<string>)
    ensures f.Some? ==> fbCol.Some? && f.value != [] && !IsSpace(f.value[0]) && !IsSpace(f.value[|f.value| - 1])
    ensures fbCol.Some? && CellAt(row, fbCol.value) == Missing ==> f == None
  {
    match fbCol
    case None => None
    case Some(c) =>
      var cell := CellAt(row, c);
      if cell == Missing then None
      else
        var t := Strip(CellText(cell));
        StripEnds(CellText(cell));
        if t == "" then None else Some(t)
  }

  /** `raw_student_block` of one row, over the first `|students|` entries of
      the student columns: a student appears only with something to say. */
  function StudentBlocks(row: Row, sc: StudentColumns, students: Dict<string, Dict<string, string>>): (d: Dict<string, StudentBlock>)
    ensures forall i :: 0 <= i < |d| ==> d[i].1.metrics != [] || d[i].1.feedback.Some?
    ensures forall k :: k in Keys(d) ==> k in Keys(students)
  {
    if students == [] then []
    else
      var prefix := students[..|students| - 1];
      var d := StudentBlocks(row, sc, prefix);
      var (student, metrics) := students[|students| - 1];
      var block := StudentBlock(Parsed(row, metrics).0, FeedbackText(row, Get(sc.feedbackCols, student)));
      assert forall k :: k in Keys(prefix) ==> k in Keys(students) by {
        assert forall i :: 0 <= i < |prefix| ==> prefix[i] == students[i];
      }
      if block.metrics != [] || block.feedback.Some? then
        assert forall k :: k in Keys(Put(d, student, block)) ==> k == student || k in Keys(d) by {
          forall k { PutKeys(d, student, block, k); }
        }
        assert forall i :: 0 <= i < |Put(d, student, block)| ==>
          Put(d, student, block)[i].1.metrics != [] || Put(d, student, block)[i].1.feedback.Some? by {
          StudentBlocksNonEmpty(d, student, block);
        }
        Put(d, student, block)
      else d
  }

  lemma StudentBlocksNonEmpty(d: Dict<string, StudentBlock>, student: string, block: StudentBlock)
    requires forall i :: 0 <= i < |d| ==> d[i].1.metrics != [] || d[i].1.feedback.Some?
    requires block.metrics != [] || block.feedback.Some?
    ensures forall i :: 0 <= i < |Put(d, student, block)| ==>
      Put(d, student, block)[i].1.metrics != [] || Put(d, student, block)[i].1.feedback.Some?
    decreases |d|
  {
    if d != [] && d[0].0 != student {
      StudentBlocksNonEmpty(d[1..], student, block);
    }
  }

  /** The mentor of a team's record: the stripped mentor-name cell, or
      `Mentor_<ResponseId>` when that is empty or "nan" in any case. */
  function MentorOf(row: Row, team: char, mentorNameCols: Dict<char, string>): (m: string)
    ensures m != "" && ToLower(m) != "nan"
    ensures var col := Get(mentorNameCols, team);
      var name := if col.Some? then Strip(TextOr(row, col.value, "")) else "";
      m == if name == "" || ToLower(name) == "nan" then "Mentor_" + TextOr(row, "ResponseId", "Unknown") else name
  {
    var col := Get(mentorNameCols, team);
    var name := if col.Some? then Strip(TextOr(row, col.value, "")) else "";
    if name == "" || ToLower(name) == "nan" then
      var fallback := "Mentor_" + TextOr(row, "ResponseId", "Unknown");
      assert |ToLower(fallback)| == |fallback| >= 7;
      fallback
    else name
  }

  /** The record one row yields for one team. */
  function TeamRecord(row: Row, st: Structure, team: (char, Dict<string, string>), raw: Dict<string, StudentBlock>): Option<LongRecord> {
    var (vals, scores) := Parsed(row, team.1);
    if scores == [] then None
    else Some(LongRecord(team.0, MentorOf(row, team.0, st.mentorNameCols), Mean(scores), vals, row.recorded, raw))
  }

  /** A team has a record in a row exactly when at least one of its metrics
      parses as a number. */
  lemma TeamRecordSome(row: Row, st: Structure, team: (char, Dict<string, string>), raw: Dict<string, StudentBlock>)
    ensures TeamRecord(row, st, team, raw).Some? <==> exists i :: 0 <= i < |team.1| && Parses(row, team.1[i].1)
  {
    ParsedEmpty(row, team.1);
  }

  /** The record carries the row's time and student blocks, the mentor of the
      team, the mean of the values that parse, and exactly the metrics that
      parse, each once. */
  lemma TeamRecordFields(row: Row, st: Structure, team: (char, Dict<string, string>), raw: Dict<string, StudentBlock>)
    requires TeamRecord(row, st, team, raw).Some?
    ensures var r := TeamRecord(row, st, team, raw).value;
      && r.team == team.0 && r.timestamp == row.recorded && r.rawStudents == raw
      && r.mentor == MentorOf(row, team.0, st.mentorNameCols)
      && r.score == Mean(Parsed(row, team.1).1)
      && UniqueKeys(r.metrics)
      && forall k :: k in Keys(r.metrics) <==> exists i :: 0 <= i < |team.1| && team.1[i].0 == k && Parses(row, team.1[i].1)
  {
    ParsedUnique(row, team.1);
    forall k ensures k in Keys(Parsed(row, team.1).0) <==> exists i :: 0 <= i < |team.1| && team.1[i].0 == k && Parses(row, team.1[i].1) {
      ParsedKeys(row, team.1, k);
    }
  }

  /** The records one row yields for the first `|teams|` teams, in team order. */
  function TeamRecords(row: Row, st: Structure, teams: Dict<char, Dict<string, string>>, raw: Dict<string, StudentBlock>): (rs: seq<LongRecord>)
    ensures |rs| <= |teams|
  {
    if teams == [] then []
    else
      var rest := TeamRecords(row, st, teams[..|teams| - 1], raw);
      match TeamRecord(row, st, teams[|teams| - 1], raw)
      case Some(r) => rest + [r]
      case None => rest
  }

  /** A row's records are exactly the team records it has. */
  lemma {:induction false} TeamRecordsExactly(row: Row, st: Structure, teams: Dict<char, Dict<string, string>>, raw: Dict<string, StudentBlock>, r: LongRecord)
    ensures r in TeamRecords(row, st, teams, raw) <==> exists i :: 0 <= i < |teams| && TeamRecord(row, st, teams[i], raw) == Some(r)
  {
    if teams != [] {
      var prefix := teams[..|teams| - 1];
      var last := TeamRecord(row, st, teams[|teams| - 1], raw);
      var rest := TeamRecords(row, st, prefix, raw);
      TeamRecordsExactly(row, st, prefix, raw, r);
      assert TeamRecords(row, st, teams, raw) == rest + (if last.Some? then [last.value] else []);
      assert r in TeamRecords(row, st, teams, raw) <==> r in rest || last == Some(r);
      ExistsSnoc(teams, prefix, t => TeamRecord(row, st, t, raw) == Some(r));
    }
  }

  /** One more team adds its record, if it has one, at the end. */
  lemma TeamRecordsSnoc(row: Row, st: Structure, teams: Dict<char, Dict<string, string>>, raw: Dict<string, StudentBlock>, i: nat)
    requires i < |teams|
    ensures TeamRecords(row, st, teams[..i + 1], raw) == TeamRecords(row, st, teams[..i], raw)
      + (if TeamRecord(row, st, teams[i], raw).Some? then [TeamRecord(row, st, teams[i], raw).value] else [])
  {
    assert teams[..i + 1][..i] == teams[..i];
    assert teams[..i + 1][i] == teams[i];
  }

  /** `build_long_df` as a specification: the records of each row in turn. */
  function LongRecords(rows: seq<Row>, st: Structure, sc: StudentColumns): seq<LongRecord>
  {
    if rows == [] then []
    else
      var row := rows[|rows| - 1];
      LongRecords(rows[..|rows| - 1], st, sc) + RowRecords(row, st, sc)
  }

  /** The records of one row, student blocks included. */
  function RowRecords(row: Row, st: Structure, sc: StudentColumns): seq<LongRecord> {
    TeamRecords(row, st, st.teamMetrics, StudentBlocks(row, sc, sc.metricCols))
  }

  /** Every long record is the record of some row for some team, and every
      team record of every row is a long record. */
  lemma {:induction false} LongRecordsExactly(rows: seq<Row>, st: Structure, sc: StudentColumns, r: LongRecord)
    ensures r in LongRecords(rows, st, sc) <==> exists k :: 0 <= k < |rows| && r in RowRecords(rows[k], st, sc)
  {
    if rows != [] {
      var prefix := rows[..|rows| - 1];
      LongRecordsExactly(prefix, st, sc, r);
      assert LongRecords(rows, st, sc) == LongRecords(prefix, st, sc) + RowRecords(rows[|rows| - 1], st, sc);
      ExistsSnoc(rows, prefix, w => r in RowRecords(w, st, sc));
    }
  }

  /** Every long record comes from one team block of one row, so its metric
      names are distinct and at least one of them is present. */
  lemma LongRecordMetrics(rows: seq<Row>, st: Structure, sc: StudentColumns, r: LongRecord)
    requires r in LongRecords(rows, st, sc)
    ensures UniqueKeys(r.metrics) && r.metrics != []
  {
    LongRecordsExactly(rows, st, sc, r);
    var k :| 0 <= k < |rows| && r in RowRecords(rows[k], st, sc);
    RowRecordMetrics(rows[k], st, sc, r);
  }

  lemma RowRecordMetrics(row: Row, st: Structure, sc: StudentColumns, r: LongRecord)
    requires r in RowRecords(row, st, sc)
    ensures UniqueKeys(r.metrics) && r.metrics != []
  {
    var raw := StudentBlocks(row, sc, sc.metricCols);
    TeamRecordsExactly(row, st, st.teamMetrics, raw, r);
    var i :| 0 <= i < |st.teamMetrics| && TeamRecord(row, st, st.teamMetrics[i], raw) == Some(r);
    TeamRecordMetrics(row, st, st.teamMetrics[i], raw);
  }

  lemma TeamRecordMetrics(row: Row, st: Structure, team: (char, Dict<string, string>), raw: Dict<string, StudentBlock>)
    requires TeamRecord(row, st, team, raw).Some?
    ensures var r := TeamRecord(row, st, team, raw).value;
      UniqueKeys(r.metrics) && r.metrics != []
  {
    TeamRecordSome(row, st, team, raw);
    TeamRecordFields(row, st, team, raw);
    var j :| 0 <= j < |team.1| && Parses(row, team.1[j].1);
    assert team.1[j].0 in Keys(TeamRecord(row, st, team, raw).value.metrics);
  }

  /** The loop over the student columns of one row. */
  method RowStudentBlocks(row: Row, sc: StudentColumns) returns (blocks: Dict<string, StudentBlock>)
    ensures blocks == StudentBlocks(row, sc, sc.metricCols)
  {
    blocks := [];
    var students := sc.metricCols;
    for i := 0 to |students|
      invariant blocks == StudentBlocks(row, sc, students[..i])
    {
      assert students[..i + 1][..i] == students[..i];
      var (student, metrics) := students[i];
      var vals, _ := ParseMetrics(row, metrics);
      var feedback := FeedbackText(row, Get(sc.feedbackCols, student));
      if vals != [] || feedback.Some? {
        blocks := Put(blocks, student, StudentBlock(vals, feedback));
      }
    }
    assert students[..|students|] == students;
  }

  /** The loop over the team blocks of one row. */
  method RowTeamRecords(row: Row, st: Structure, raw: Dict<string, StudentBlock>) returns (recs: seq<LongRecord>)
    ensures recs == TeamRecords(row, st, st.teamMetrics, raw)
  {
    recs := [];
    var teams := st.teamMetrics;
    for i := 0 to |teams|
      invariant recs == TeamRecords(row, st, teams[..i], raw)
    {
      TeamRecordsSnoc(row, st, teams, raw, i);
      var (team, metrics) := teams[i];
      var vals, scores := ParseMetrics(row, metrics);
      ghost var next := TeamRecord(row, st, teams[i], raw);
      if scores != [] {
        var mentor := MentorOf(row, team, st.mentorNameCols);
        var r := LongRecord(team, mentor, Mean(scores), vals, row.recorded, raw);
        assert next == Some(r);
        recs := recs + [r];
      } else {
        assert next == None;
      }
    }
    assert teams[..|teams|] == teams;
  }

  /** `build_long_df`. */
  method BuildLongDf(rows: seq<Row>, st: Structure, sc: StudentColumns) returns (records: seq<LongRecord>)
    ensures records == LongRecords(rows, st, sc)
  {
    records := [];
    for i := 0 to |rows|
      invariant records == LongRecords(rows[..i], st, sc)
    {
      assert rows[..i + 1][..i] == rows[..i];
      var raw := RowStudentBlocks(rows[i], sc);
      var recs := RowTeamRecords(rows[i], st, raw);
      records := records + recs;
    }
    assert rows[..|rows|] == rows;
  }
}
