/** `expand_to_student_level` and `main` of `mentor_report.py`: each team's
    submissions regrouped per student, each student's rubric series weighted,
    classified and combined with the team average into the final individual
    score. */
module MentorStudents {
  import opened Wrappers
  import opened Text
  import opened Dict
  import opened Seqs
  import opened Stats
  import opened Table
  import opened Columns
  import opened Actions
  import opened Weighting
  import opened MentorLong
  import opened MentorTeam
  import opened MentorReport
  import opened Results
  import opened Rounding

  /** The three rubric metrics of a student block. */
  const Communication := "Communication"
  const Technical := "Technical"
  const Reliability := "Reliability"

  /** In a mentor name, the mark of the `Mentor_<ResponseId>` fallback. */
  const FallbackMark := "Mentor_R_"

  /** `round(None, 6)` in `classify_action`. */
  const NoStudentAverage := "TypeError: type NoneType doesn't define __round__ method"

  /** A student's series across one team's submissions. */
  datatype StudentSeries = StudentSeries(comm: seq<real>, tech: seq<real>, reliab: seq<real>, feedback: seq<string>)

  /** What `setdefault` inserts for a student seen for the first time. */
  const NoSeries := StudentSeries([], [], [], [])

  /** The value of metric `k` in a block as a list of at most one element. */
  function MetricEntry(b: StudentBlock, k: string): (e: seq<real>)
    ensures |e| <= 1
    ensures e != [] <==> k in Keys(b.metrics)
  {
    match Get(b.metrics, k)
    case Some(v) => [v]
    case None => []
  }

  function FeedbackEntry(b: StudentBlock): (e: seq<string>)
    ensures e != [] <==> b.feedback.Some?
  {
    match b.feedback
    case Some(f) => [f]
    case None => []
  }

  /** One submission's block appended to a student's series. */
  function AddBlock(s: StudentSeries, b: StudentBlock): StudentSeries {
    StudentSeries(s.comm + MetricEntry(b, Communication), s.tech + MetricEntry(b, Technical),
                  s.reliab + MetricEntry(b, Reliability), s.feedback + FeedbackEntry(b))
  }

  /** The loop over one submission's students: `setdefault`, then append. */
  function AddSubmission(m: Dict<string, StudentSeries>, sub: Dict<string, StudentBlock>): Dict<string, StudentSeries> {
    if sub == [] then m
    else
      var d := AddSubmission(m, sub[..|sub| - 1]);
      var student := sub[|sub| - 1].0;
      Put(d, student, AddBlock(GetOrDefault(d, student, NoSeries), sub[|sub| - 1].1))
  }

  /** `student_map` after the submissions `raw`, in order. */
  function StudentMap(raw: seq<Dict<string, StudentBlock>>): Dict<string, StudentSeries> {
    if raw == [] then [] else AddSubmission(StudentMap(raw[..|raw| - 1]), raw[|raw| - 1])
  }

  /** The reference series of one student: that student's block of each
      submission that has one, appended in submission order. */
  function SeriesOf(raw: seq<Dict<string, StudentBlock>>, student: string): StudentSeries {
    if raw == [] then NoSeries
    else
      var s := SeriesOf(raw[..|raw| - 1], student);
      match Get(raw[|raw| - 1], student)
      case Some(b) => AddBlock(s, b)
      case None => s
  }

  /** With distinct students in the submission, each student's series grows by
      that student's block, if any, and keeps its place. */
  lemma {:induction false} AddSubmissionAt(m: Dict<string, StudentSeries>, sub: Dict<string, StudentBlock>, student: string)
    requires UniqueKeys(sub)
    ensures GetOrDefault(AddSubmission(m, sub), student, NoSeries)
      == match Get(sub, student)
         case Some(b) => AddBlock(GetOrDefault(m, student, NoSeries), b)
         case None => GetOrDefault(m, student, NoSeries)
    ensures student in Keys(AddSubmission(m, sub)) <==> student in Keys(m) || student in Keys(sub)
  {
    if sub != [] {
      var prefix := sub[..|sub| - 1];
      var (s, b) := sub[|sub| - 1];
      UniqueKeysSnoc(sub);
      AddSubmissionAt(m, prefix, student);
      var d := AddSubmission(m, prefix);
      GetPut(d, s, AddBlock(GetOrDefault(d, s, NoSeries), b), student);
      GetPut(prefix, s, b, student);
      if student == s {
        assert Get(prefix, student) == None;
      }
    }
  }

  /** What `student_map` holds for a student is that student's reference
      series, and it holds exactly the students of some submission. */
  lemma {:induction false} StudentMapSeries(raw: seq<Dict<string, StudentBlock>>, student: string)
    requires forall i :: 0 <= i < |raw| ==> UniqueKeys(raw[i])
    ensures GetOrDefault(StudentMap(raw), student, NoSeries) == SeriesOf(raw, student)
    ensures student in Keys(StudentMap(raw)) <==> exists i :: 0 <= i < |raw| && student in Keys(raw[i])
  {
    if raw != [] {
      var prefix := raw[..|raw| - 1];
      assert forall i :: 0 <= i < |prefix| ==> prefix[i] == raw[i];
      StudentMapSeries(prefix, student);
      AddSubmissionAt(StudentMap(prefix), raw[|raw| - 1], student);
      ExistsSnoc(raw, prefix, (sub: Dict<string, StudentBlock>) => student in Keys(sub));
    }
  }

  /** A student is listed once. */
  lemma {:induction false} StudentMapUnique(raw: seq<Dict<string, StudentBlock>>)
    ensures UniqueKeys(StudentMap(raw))
  {
    if raw != [] {
      StudentMapUnique(raw[..|raw| - 1]);
      AddSubmissionUnique(StudentMap(raw[..|raw| - 1]), raw[|raw| - 1]);
    }
  }

  lemma {:induction false} AddSubmissionUnique(m: Dict<string, StudentSeries>, sub: Dict<string, StudentBlock>)
    requires UniqueKeys(m)
    ensures UniqueKeys(AddSubmission(m, sub))
  {
    if sub != [] {
      AddSubmissionUnique(m, sub[..|sub| - 1]);
      var d := AddSubmission(m, sub[..|sub| - 1]);
      var (s, b) := sub[|sub| - 1];
      PutUnique(d, s, AddBlock(GetOrDefault(d, s, NoSeries), b));
    }
  }

  /** The loop over the students of one submission. */
  method AddStudents(start: Dict<string, StudentSeries>, sub: Dict<string, StudentBlock>) returns (m: Dict<string, StudentSeries>)
    ensures m == AddSubmission(start, sub)
  {
    m := start;
    for j := 0 to |sub|
      invariant m == AddSubmission(start, sub[..j])
    {
      assert sub[..j + 1][..j] == sub[..j];
      var student := sub[j].0;
      m := Put(m, student, AddBlock(GetOrDefault(m, student, NoSeries), sub[j].1));
    }
    assert sub[..|sub|] == sub;
  }

  /** The loop over the submissions that builds `student_map`. */
  method CollectStudentSeries(raw: seq<Dict<string, StudentBlock>>) returns (m: Dict<string, StudentSeries>)
    ensures m == StudentMap(raw)
  {
    m := [];
    for i := 0 to |raw|
      invariant m == StudentMap(raw[..i])
    {
      assert raw[..i + 1][..i] == raw[..i];
      m := AddStudents(m, raw[i]);
    }
    assert raw[..|raw|] == raw;
  }

  /** `student_avg`: the mean of the weighted rubric series that are not
      empty, none when all three are. */
  function StudentAverage(s: StudentSeries): (r: Option<real>)
    ensures r.None? <==> NoRubric(s)
  {
    DimensionAvg(StudentWeighted(s))
  }

  /** The three weighted rubric series of a student. */
  function StudentWeighted(s: StudentSeries): (w: seq<Option<real>>)
    ensures |w| == 3
    ensures w[0].None? <==> s.comm == []
    ensures w[1].None? <==> s.tech == []
    ensures w[2].None? <==> s.reliab == []
  {
    [GenericWeighted(s.comm, StudentLastWeight, StudentPrevWeight),
     GenericWeighted(s.tech, StudentLastWeight, StudentPrevWeight),
     GenericWeighted(s.reliab, StudentLastWeight, StudentPrevWeight)]
  }

  /** A student average of rubric values within a range stays within it. */
  lemma StudentAverageWithin(s: StudentSeries, lo: real, hi: real)
    requires forall i :: 0 <= i < |s.comm| ==> lo <= s.comm[i] <= hi
    requires forall i :: 0 <= i < |s.tech| ==> lo <= s.tech[i] <= hi
    requires forall i :: 0 <= i < |s.reliab| ==> lo <= s.reliab[i] <= hi
    ensures StudentAverage(s).Some? ==> lo <= StudentAverage(s).value <= hi
  {
    var w := StudentWeighted(s);
    if s.comm != [] {
      GenericWeightedWithin(s.comm, StudentLastWeight, StudentPrevWeight, lo, hi);
    }
    if s.tech != [] {
      GenericWeightedWithin(s.tech, StudentLastWeight, StudentPrevWeight, lo, hi);
    }
    if s.reliab != [] {
      GenericWeightedWithin(s.reliab, StudentLastWeight, StudentPrevWeight, lo, hi);
    }
    DimensionAvgWithin(w, lo, hi);
  }

  /** The final individual score. Without a team average there is none; Bonus
      scales the team average by ten and the bonus factor; Attention by the
      student average, or by ten without one; Normal by ten. */
  function FinalScore(teamAvg: Option<real>, action: Action, studentAvg: Option<real>, bonus: real): (r: Option<real>)
    ensures r.None? <==> teamAvg.None?
  {
    match teamAvg
    case None => None
    case Some(t) =>
      match action
      case Bonus => Some(t * 10.0 * bonus)
      case Attention => if studentAvg.Some? then Some(t * studentAvg.value) else Some(t * 10.0)
      case Normal => Some(t * 10.0)
  }

  /** For a non-negative team average, a student average of at most ten and a
      bonus factor of at least one, Attention scores no more than Normal and
      Normal no more than Bonus. */
  lemma FinalScoreOrdering(t: real, s: real, bonus: real)
    requires t >= 0.0 && s <= 10.0 && bonus >= 1.0
    ensures FinalScore(Some(t), Attention, Some(s), bonus).value <= FinalScore(Some(t), Normal, Some(s), bonus).value
    ensures FinalScore(Some(t), Normal, Some(s), bonus).value <= FinalScore(Some(t), Bonus, Some(s), bonus).value
  {
    MulNonNegative(t, 10.0 - s);
    MulNonNegative(t * 10.0, bonus - 1.0);
  }

  /** With team and student averages on the 0..10 scale the final score lies
      between 0 and 100 times the bonus factor. */
  lemma FinalScoreRange(t: real, action: Action, s: real, bonus: real)
    requires 0.0 <= t <= 10.0 && 0.0 <= s <= 10.0 && bonus >= 1.0
    ensures 0.0 <= FinalScore(Some(t), action, Some(s), bonus).value <= 100.0 * bonus
  {
    MulNonNegative(t, s);
    MulNonNegative(10.0 - t, s);
    MulNonNegative(t, 10.0 - s);
    MulNonNegative(10.0 - t, 10.0);
    MulNonNegative(t * 10.0, bonus);
    MulNonNegative(100.0 - t * 10.0, bonus);
    MulNonNegative(100.0, bonus - 1.0);
  }

  /** `round(x, 3) if x is not None else None`. */
  function RoundOpt(x: Option<real>): Option<real> {
    match x
    case Some(v) => Some(Round3(v))
    case None => None
  }

  /** One student row of the output, its numbers rounded to three places. */
  datatype StudentRow = StudentRow(
    team: char,
    student: string,
    mentor: string,
    teamAvg: Option<real>,
    studentAvg: real,
    action: Action,
    finalScore: Option<real>,
    studentWeighted: seq<Option<real>>,
    teamWeighted: seq<Option<real>>,
    overallWeighted: Option<real>,
    feedback: seq<string>)

  /** The values of a team row that every student row of it repeats. */
  datatype TeamPart = TeamPart(team: char, mentor: string, teamAvg: Option<real>,
                               teamWeighted: seq<Option<real>>, overallWeighted: Option<real>)

  /** The mentor shown per student: the mentor-map name in place of a
      fallback name. */
  function ShownMentor(row: TeamRow): (m: string)
    ensures !Contains(row.mentor, FallbackMark) ==> m == row.mentor
    ensures Contains(row.mentor, FallbackMark) ==> m == row.mentorDb
  {
    if Contains(row.mentor, FallbackMark) then row.mentorDb else row.mentor
  }

  /** The row of one student; `classify_action` fails on a student without
      any rubric value. Classification uses the unrounded average. */
  function StudentRowOf(tp: TeamPart, student: string, s: StudentSeries, low: real, bonus: real): (r: Result<StudentRow>)
    ensures r.Err? <==> NoRubric(s)
  {
    match StudentAverage(s)
    case None => Err(NoStudentAverage)
    case Some(avg) =>
      var action := ClassifyByScore(avg, low);
      Ok(StudentRow(tp.team, student, tp.mentor, RoundOpt(tp.teamAvg), Round3(avg), action,
                    RoundOpt(FinalScore(tp.teamAvg, action, Some(avg), bonus)),
                    Map(StudentWeighted(s), RoundOpt), Map(tp.teamWeighted, RoundOpt), RoundOpt(tp.overallWeighted),
                    s.feedback))
  }

  /** A student with a rubric value gets a row: of the team and the
      student, with the student's feedback, the action the score rule gives
      the unrounded average, a final score exactly when the team has an
      average, and the average rounded to within half a thousandth. */
  lemma StudentRowFacts(tp: TeamPart, student: string, s: StudentSeries, low: real, bonus: real)
    requires !NoRubric(s)
    ensures StudentRowOf(tp, student, s, low, bonus).Ok?
    ensures var row := StudentRowOf(tp, student, s, low, bonus).value;
      var avg := StudentAverage(s).value;
      && row.team == tp.team && row.student == student && row.feedback == s.feedback
      && (row.action == Bonus <==> NearTen(avg))
      && (row.action == Attention <==> !NearTen(avg) && avg <= low)
      && (row.finalScore.None? <==> tp.teamAvg.None?)
      && avg - 0.0005 <= row.studentAvg <= avg + 0.0005
  {
    RoundError(StudentAverage(s).value, 1000);
  }

  /** The rows of the students of `student_map`, in its order; the first
      student without a rubric value stops the run. */
  function StudentRows(tp: TeamPart, students: Dict<string, StudentSeries>, low: real, bonus: real): (r: Result<seq<StudentRow>>)
    ensures r.Ok? ==> |r.value| == |students|
  {
    MapResult(students, (e: (string, StudentSeries)) => StudentRowOf(tp, e.0, e.1, low, bonus))
  }

  /** The rows fail exactly when some student's row does, with the first such
      student's error, and otherwise hold each student's row at that
      student's place. */
  lemma StudentRowsSpec(tp: TeamPart, students: Dict<string, StudentSeries>, low: real, bonus: real)
    ensures var r := StudentRows(tp, students, low, bonus);
      && (r.Err? <==> exists i :: 0 <= i < |students| && StudentRowOf(tp, students[i].0, students[i].1, low, bonus).Err?)
      && (r.Ok? ==> forall i :: 0 <= i < |students| ==> StudentRowOf(tp, students[i].0, students[i].1, low, bonus) == Ok(r.value[i]))
  {
    MapResultSpec(students, (e: (string, StudentSeries)) => StudentRowOf(tp, e.0, e.1, low, bonus));
  }

  /** The shared part of a team's student rows: the team average is the mean
      of its non-empty dimension weightings. */
  function TeamPartOf(row: TeamRow, overall: seq<real>): (tp: TeamPart)
    ensures tp.team == row.team && |tp.teamWeighted| == |row.dims|
    ensures tp.teamAvg == DimensionAvg(tp.teamWeighted)
  {
    var weighted := Map(row.dims, TeamDimWeighted);
    TeamPart(row.team, ShownMentor(row), DimensionAvg(weighted), weighted, TeamDimWeighted(overall))
  }

  /** The student rows of one team row: a missing `OverallSatisfaction`
      column raises `KeyError` before any student is looked at. */
  function TeamStudentRows(row: TeamRow, low: real, bonus: real): (r: Result<seq<StudentRow>>)
    ensures row.overall.None? ==> r.Err?
  {
    match row.overall
    case None => Err("KeyError: " + OverallDimension)
    case Some(overall) => StudentRows(TeamPartOf(row, overall), StudentMap(row.raw), low, bonus)
  }

  /** The student rows of all team rows, team by team. */
  function StudentLevel(rows: seq<TeamRow>, low: real, bonus: real): (r: Result<seq<StudentRow>>)
    ensures rows == [] ==> r == Ok([])
  {
    ConcatResult(rows, row => TeamStudentRows(row, low, bonus))
  }

  /** The expansion fails exactly when one team's student rows do. */
  lemma StudentLevelFails(rows: seq<TeamRow>, low: real, bonus: real)
    ensures StudentLevel(rows, low, bonus).Err? <==> exists i :: 0 <= i < |rows| && TeamStudentRows(rows[i], low, bonus).Err?
  {
    ConcatResultFails(rows, row => TeamStudentRows(row, low, bonus));
  }

  /** A student with no rubric value in any submission. */
  predicate NoRubric(s: StudentSeries) {
    s.comm == [] && s.tech == [] && s.reliab == []
  }

  /** Some student of the map has no rubric value. */
  ghost predicate SomeWithoutRubric(students: Dict<string, StudentSeries>) {
    exists i :: 0 <= i < |students| && NoRubric(students[i].1)
  }

  /** A run over students fails exactly when one of them has no rubric
      value. */
  lemma StudentRowsFail(tp: TeamPart, students: Dict<string, StudentSeries>, low: real, bonus: real)
    ensures StudentRows(tp, students, low, bonus).Err? <==> SomeWithoutRubric(students)
  {
    StudentRowsSpec(tp, students, low, bonus);
    assert forall i :: 0 <= i < |students| ==>
      (StudentRowOf(tp, students[i].0, students[i].1, low, bonus).Err? <==> NoRubric(students[i].1));
  }

  /** A team's student rows fail exactly when its overall column is missing
      or one of its students has no rubric value in any submission. */
  lemma TeamStudentRowsFail(row: TeamRow, low: real, bonus: real)
    ensures TeamStudentRows(row, low, bonus).Err? <==> row.overall.None? || SomeWithoutRubric(StudentMap(row.raw))
  {
    if row.overall.Some? {
      StudentRowsFail(TeamPartOf(row, row.overall.value), StudentMap(row.raw), low, bonus);
    }
  }

  /** The loop of `expand_to_student_level` over the students of one team. */
  method ExpandTeam(tp: TeamPart, students: Dict<string, StudentSeries>, low: real, bonus: real) returns (r: Result<seq<StudentRow>>)
    ensures r == StudentRows(tp, students, low, bonus)
  {
    var more: seq<StudentRow> := [];
    ghost var f := (e: (string, StudentSeries)) => StudentRowOf(tp, e.0, e.1, low, bonus);
    for j := 0 to |students|
      invariant MapResult(students[..j], f) == Ok(more)
    {
      var one := StudentRowOf(tp, students[j].0, students[j].1, low, bonus);
      MapResultNext(students, f, j);
      if one.Err? {
        r := Err(one.message);
        MapResultStops(students, f, j + 1);
        return;
      }
      more := more + [one.value];
    }
    assert students[..|students|] == students;
    r := Ok(more);
  }

  /** The loop of `expand_to_student_level` over the final team rows. */
  method ExpandToStudentLevel(rows: seq<TeamRow>, low: real, bonus: real) returns (r: Result<seq<StudentRow>>)
    ensures r == StudentLevel(rows, low, bonus)
  {
    var out: seq<StudentRow> := [];
    for i := 0 to |rows|
      invariant StudentLevel(rows[..i], low, bonus) == Ok(out)
    {
      assert rows[..i + 1][..i] == rows[..i];
      var row := rows[i];
      var more: Result<seq<StudentRow>>;
      if row.overall.None? {
        more := Err("KeyError: " + OverallDimension);
      } else {
        var students := CollectStudentSeries(row.raw);
        more := ExpandTeam(TeamPartOf(row, row.overall.value), students, low, bonus);
      }
      if more.Err? {
        r := more;
        ConcatResultStops(rows, row => TeamStudentRows(row, low, bonus), i);
        return;
      }
      out := out + more.value;
    }
    assert rows[..|rows|] == rows;
    r := Ok(out);
  }
}
