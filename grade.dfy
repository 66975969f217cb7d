/** The peer-evaluation grade report: rating blocks detected from the
    headers, one record per (row, student) with a parsed rubric value, self
    evaluations removed, a stable sort, the recency weighting per
    (evaluator, student, team) and the percentage-based action per
    (team, student). */
module Grade {
  import opened Wrappers
  import opened Text
  import opened Dict
  import opened Seqs
  import opened Stats
  import opened Rounding
  import opened Table
  import opened Columns
  import opened Grouping
  import opened Weighting
  import opened Actions

  /** The command-line defaults. */
  const DefaultHigh := 8.0
  const DefaultLow := 5.0
  const DefaultLastWeight := 0.7
  const DefaultPrevWeight := 0.3

  const NoRatings := "No valid rating records found."
  /** `reset_index` after an `apply` over no groups, when every record is a
      self evaluation. */
  const NoEvaluations := "ValueError: cannot insert team, already exists"
  /** `reset_index(name=...)` on the frame an `apply` over no groups returns,
      when no kept record has feedback. */
  const NoFeedback := "TypeError: reset_index() got an unexpected keyword argument 'name'"

  /** `find_col(part)`: the first header that contains `part`, ignoring case. */
  function FindColumn(columns: seq<string>, part: string): (r: Result<string>)
    ensures r.Ok? ==> r.value in columns && Contains(ToLower(r.value), ToLower(part))
    ensures r.Err? <==> forall i :: 0 <= i < |columns| ==> !Contains(ToLower(columns[i]), ToLower(part))
    ensures r.Err? ==> r.message == "KeyError: Required column not found containing: " + part
  {
    if columns == [] then Err("KeyError: Required column not found containing: " + part)
    else if Contains(ToLower(columns[0]), ToLower(part)) then Ok(columns[0])
    else
      var r := FindColumn(columns[1..], part);
      assert forall i :: 1 <= i < |columns| ==> columns[i] == columns[1..][i - 1];
      r
  }

  /** Header `i` is the first that contains `part`, ignoring case. */
  ghost predicate FirstContaining(columns: seq<string>, part: string, i: int) {
    0 <= i < |columns| && Contains(ToLower(columns[i]), ToLower(part))
    && forall k :: 0 <= k < i ==> !Contains(ToLower(columns[k]), ToLower(part))
  }

  /** `find_col` returns the first header that contains the part. */
  lemma {:induction false} FindColumnFirst(columns: seq<string>, part: string)
    ensures FindColumn(columns, part).Ok? ==> exists i :: FirstContaining(columns, part, i) && columns[i] == FindColumn(columns, part).value
  {
    if columns != [] && !Contains(ToLower(columns[0]), ToLower(part)) {
      FindColumnFirst(columns[1..], part);
      if FindColumn(columns, part).Ok? {
        var i :| FirstContaining(columns[1..], part, i) && columns[1..][i] == FindColumn(columns[1..], part).value;
        assert forall k :: 1 <= k < i + 1 ==> columns[k] == columns[1..][k - 1];
        assert FirstContaining(columns, part, i + 1);
      }
    } else if columns != [] {
      assert FirstContaining(columns, part, 0);
    }
  }

  /** The exact header when present, otherwise the first that contains
      `part`. */
  function ResolveColumn(columns: seq<string>, name: string, part: string): (r: Result<string>)
    ensures name in columns ==> r == Ok(name)
    ensures r.Ok? ==> r.value in columns
  {
    if name in columns then Ok(name) else FindColumn(columns, part)
  }

  /** The evaluator, team and timestamp headers. */
  datatype GradeColumns = GradeColumns(evaluator: string, team: string, timestamp: string)

  /** The three headers, resolved in turn; the first that is missing raises. */
  function ResolveGradeColumns(columns: seq<string>): (r: Result<GradeColumns>)
    ensures r.Ok? ==> r.value.evaluator in columns && r.value.team in columns && r.value.timestamp in columns
  {
    match ResolveColumn(columns, "Name", "Name")
    case Err(e) => Err(e)
    case Ok(ev) =>
      match ResolveColumn(columns, "Team", "Team")
      case Err(e) => Err(e)
      case Ok(team) =>
        match ResolveColumn(columns, "RecordedDate", "Recorded")
        case Err(e) => Err(e)
        case Ok(ts) => Ok(GradeColumns(ev, team, ts))
  }

  /** `col` is `stem` followed by one of the three rubric suffixes. */
  predicate RatingHeader(col: string, stem: string) {
    col == stem + "_Communication_1" || col == stem + "_Technical_1" || col == stem + "_Reliability_1"
  }

  /** `^(.*)_Communication_1$`, `^(.*)_Technical_1$` and
      `^(.*)_Reliability_1$`: the stripped student name of a rating column. */
  function RatingColumn(col: string): (r: Option<string>)
    ensures r.Some? ==> exists stem :: '\n' !in stem && RatingHeader(col, stem) && r.value == Strip(stem)
  {
    match SuffixStem(col, "_Communication_1", 0)
    case Some(stem) => assert RatingHeader(col, stem); Some(Strip(stem))
    case None =>
      match SuffixStem(col, "_Technical_1", 0)
      case Some(stem) => assert RatingHeader(col, stem); Some(Strip(stem))
      case None =>
        match SuffixStem(col, "_Reliability_1", 0)
        case Some(stem) => assert RatingHeader(col, stem); Some(Strip(stem))
        case None => None
  }

  /** Every rubric header names its stripped stem. */
  lemma RatingColumnOf(stem: string, suffix: string)
    requires '\n' !in stem && suffix in ["_Communication_1", "_Technical_1", "_Reliability_1"]
    ensures RatingColumn(stem + suffix) == Some(Strip(stem))
  {
    var col := stem + suffix;
    assert col[|col| - |suffix|..] == suffix && col[..|col| - |suffix|] == stem;
    assert EndsWith(col, suffix);
    RatingSuffixesExclusive(col);
  }

  /** At most one of the three patterns matches a header, since the suffixes
      part at their third-to-last character. */
  lemma RatingSuffixesExclusive(col: string)
    ensures !(EndsWith(col, "_Communication_1") && EndsWith(col, "_Technical_1"))
    ensures !(EndsWith(col, "_Communication_1") && EndsWith(col, "_Reliability_1"))
    ensures !(EndsWith(col, "_Technical_1") && EndsWith(col, "_Reliability_1"))
  {
    if EndsWith(col, "_Communication_1") {
      assert col[|col| - 3] == "_Communication_1"[13];
    }
    if EndsWith(col, "_Technical_1") {
      assert col[|col| - 3] == "_Technical_1"[9];
    }
  }

  /** `^(.*)_Feedback$`: the stripped student name of a feedback column. */
  function FeedbackColumn(col: string): (r: Option<string>)
    ensures r.Some? ==> exists stem :: '\n' !in stem && col == stem + "_Feedback" && r.value == Strip(stem)
  {
    match SuffixStem(col, "_Feedback", 0)
    case Some(stem) => Some(Strip(stem))
    case None => None
  }

  /** `set.add`: a column already present is not added again. */
  function AddOnce(cols: seq<string>, col: string): (r: seq<string>)
    ensures col in r && forall c :: c in r <==> c in cols || c == col
    ensures NoDuplicates(cols) ==> NoDuplicates(r)
  {
    if col in cols then cols else cols + [col]
  }

  /** `metric_cols`: student -> the set of that student's rating columns,
      students in order of first appearance. */
  function MetricCols(columns: seq<string>): Dict<string, seq<string>> {
    if columns == [] then []
    else
      var d := MetricCols(columns[..|columns| - 1]);
      var col := columns[|columns| - 1];
      match RatingColumn(col)
      case Some(student) => Put(d, student, AddOnce(GetOrDefault(d, student, []), col))
      case None => d
  }

  /** The columns stored under one student after the last header. */
  lemma MetricColsStep(columns: seq<string>, student: string)
    requires columns != []
    ensures var prefix := columns[..|columns| - 1];
      var last := columns[|columns| - 1];
      GetOrDefault(MetricCols(columns), student, [])
      == if RatingColumn(last) == Some(student) then AddOnce(GetOrDefault(MetricCols(prefix), student, []), last)
         else GetOrDefault(MetricCols(prefix), student, [])
  {
    var d := MetricCols(columns[..|columns| - 1]);
    var last := columns[|columns| - 1];
    if RatingColumn(last).Some? {
      var s := RatingColumn(last).value;
      GetPut(d, s, AddOnce(GetOrDefault(d, s, []), last), student);
    }
  }

  /** One more header adds itself to the student's columns exactly when it
      is a rating column naming that student. */
  lemma MetricColsHasStep(columns: seq<string>, student: string, col: string)
    requires columns != []
    ensures col in GetOrDefault(MetricCols(columns), student, [])
      <==> col in GetOrDefault(MetricCols(columns[..|columns| - 1]), student, [])
           || (col == columns[|columns| - 1] && RatingColumn(col) == Some(student))
  {
    var last := columns[|columns| - 1];
    MetricColsStep(columns, student);
    if RatingColumn(last) == Some(student) {
      AddOnceHas(GetOrDefault(MetricCols(columns[..|columns| - 1]), student, []), last, col);
    }
  }

  /** A student's columns are exactly the rating columns naming that
      student. */
  lemma {:induction false} MetricColsHas(columns: seq<string>, student: string, col: string)
    ensures col in GetOrDefault(MetricCols(columns), student, []) <==> col in columns && RatingColumn(col) == Some(student)
  {
    if columns != [] {
      var prefix := columns[..|columns| - 1];
      var last := columns[|columns| - 1];
      MetricColsHas(prefix, student, col);
      MetricColsHasStep(columns, student, col);
      InFrontOrLast(columns, col);
    }
  }

  lemma AddOnceHas(cols: seq<string>, c: string, x: string)
    ensures x in AddOnce(cols, c) <==> x in cols || x == c
  {
  }

  /** Each of a student's columns is stored once, as in a set. */
  lemma {:induction false} MetricColsOnce(columns: seq<string>, student: string)
    ensures NoDuplicates(GetOrDefault(MetricCols(columns), student, []))
  {
    if columns != [] {
      MetricColsOnce(columns[..|columns| - 1], student);
      MetricColsStep(columns, student);
    }
  }

  /** `feedback_cols`: student -> the last feedback column naming them. */
  function FeedbackCols(columns: seq<string>): Dict<string, string> {
    Flat(columns, FeedbackColumn)
  }

  /** The header loop that fills `metric_cols` and `feedback_cols`. */
  method DetectRatingBlocks(columns: seq<string>) returns (metricCols: Dict<string, seq<string>>, feedbackCols: Dict<string, string>)
    ensures metricCols == MetricCols(columns) && feedbackCols == FeedbackCols(columns)
  {
    metricCols, feedbackCols := [], [];
    for i := 0 to |columns|
      invariant metricCols == MetricCols(columns[..i]) && feedbackCols == FeedbackCols(columns[..i])
    {
      assert columns[..i + 1][..i] == columns[..i];
      var col := columns[i];
      var student := RatingColumn(col);
      if student.Some? {
        metricCols := Put(metricCols, student.value, AddOnce(GetOrDefault(metricCols, student.value, []), col));
      }
      var fb := FeedbackColumn(col);
      if fb.Some? {
        feedbackCols := Put(feedbackCols, fb.value, col);
      }
    }
    assert columns[..|columns|] == columns;
  }

  /** `c.split("_")[-2]`, the metric a rating column is stored under. */
  function MetricName(col: string): string {
    var parts := Split(col, '_');
    if |parts| >= 2 then parts[|parts| - 2] else ""
  }

  /** A rating column is stored under its rubric name, whatever the student
      name holds. */
  lemma MetricNameOf(stem: string, metric: string)
    requires '_' !in metric
    ensures MetricName(stem + "_" + metric + "_1") == metric
  {
    SplitNoSep(metric, '_');
    SplitNoSep("1", '_');
    SplitAppend(metric, "1", '_');
    assert stem + "_" + metric + "_1" == stem + ['_'] + (metric + ['_'] + "1");
    SplitAppend(stem, metric + ['_'] + "1", '_');
  }

  /** The (metric, column) pairs of a student's columns in visiting order. */
  function Named(cols: seq<string>): (named: seq<(string, string)>)
    ensures |named| == |cols|
  {
    Map(cols, (c: string) => (MetricName(c), c))
  }

  /** One (row, student) record of `long_records`. */
  datatype GradeRecord = GradeRecord(team: string, evaluator: string, student: string, score: real,
                                     metrics: Dict<string, real>, raw: seq<real>, feedback: string, timestamp: int)

  /** `str(row.get(col, ""))` guarded by `pd.notna`: empty for a missing or
      empty cell. */
  function FeedbackText(row: Row, feedbackCols: Dict<string, string>, student: string): string {
    match Get(feedbackCols, student)
    case None => ""
    case Some(col) =>
      match CellAt(row, col)
      case Missing => ""
      case c => CellText(c)
  }

  /** The record of one student in one row: none when no rating parses,
      otherwise scored by the mean of the parsed values. */
  function StudentRecord(row: Row, team: string, evaluator: string, student: string, cols: seq<string>,
                         feedbackCols: Dict<string, string>): (r: Option<GradeRecord>)
    ensures r.None? <==> Parsed(row, Named(cols)).1 == []
    ensures r.Some? ==> r.value.raw == Parsed(row, Named(cols)).1 && r.value.raw != [] && r.value.score == Mean(r.value.raw)
  {
    var (vals, raw) := Parsed(row, Named(cols));
    if raw == [] then None
    else Some(GradeRecord(team, evaluator, student, Mean(raw), vals, raw, FeedbackText(row, feedbackCols, student), row.recorded))
  }

  /** The ratings of a student do not depend on the order the set of columns
      is visited in: the same values are parsed and the score is the same. */
  lemma StudentScoreOrderFree(row: Row, a: seq<string>, b: seq<string>)
    requires multiset(a) == multiset(b)
    ensures multiset(Parsed(row, Named(a)).1) == multiset(Parsed(row, Named(b)).1)
    ensures Parsed(row, Named(a)).1 != [] ==> Mean(Parsed(row, Named(a)).1) == Mean(Parsed(row, Named(b)).1)
  {
    MapPermutation(a, b, (c: string) => (MetricName(c), c));
    ParsedPermutation(row, Named(a), Named(b));
    if Parsed(row, Named(a)).1 != [] {
      MeanPermutation(Parsed(row, Named(a)).1, Parsed(row, Named(b)).1);
    }
  }

  /** An evaluator cell that names nobody: empty, "nan" or "none" in any
      case. */
  predicate NoEvaluator(evaluator: string) {
    evaluator == "" || ToLower(evaluator) == "nan" || ToLower(evaluator) == "none"
  }

  function EvaluatorOf(row: Row, gc: GradeColumns): string {
    Strip(CellText(CellAt(row, gc.evaluator)))
  }

  function TeamOf(row: Row, gc: GradeColumns): string {
    Strip(TextOr(row, gc.team, ""))
  }

  /** The record of a student as a list of zero or one records. */
  function RecordList(r: Option<GradeRecord>): seq<GradeRecord> {
    if r.Some? then [r.value] else []
  }

  /** The record of one student of one row, as a list of at most one. */
  function StudentRecords(row: Row, gc: GradeColumns, feedbackCols: Dict<string, string>, entry: (string, seq<string>)): seq<GradeRecord> {
    RecordList(StudentRecord(row, TeamOf(row, gc), EvaluatorOf(row, gc), entry.0, entry.1, feedbackCols))
  }

  /** The records of one row, students in dictionary order. */
  function RowGradeRecords(row: Row, gc: GradeColumns, students: Dict<string, seq<string>>,
                           feedbackCols: Dict<string, string>): seq<GradeRecord> {
    FlatMap(students, (e: (string, seq<string>)) => StudentRecords(row, gc, feedbackCols, e))
  }

  /** The records one row adds: none when it names no evaluator. */
  function RowContribution(row: Row, gc: GradeColumns, metricCols: Dict<string, seq<string>>,
                           feedbackCols: Dict<string, string>): seq<GradeRecord> {
    if NoEvaluator(EvaluatorOf(row, gc)) then [] else RowGradeRecords(row, gc, metricCols, feedbackCols)
  }

  /** `long_records` after the rows `rows`. */
  function GradeRecords(rows: seq<Row>, gc: GradeColumns, metricCols: Dict<string, seq<string>>,
                        feedbackCols: Dict<string, string>): seq<GradeRecord> {
    FlatMap(rows, (row: Row) => RowContribution(row, gc, metricCols, feedbackCols))
  }

  /** A record as built: its evaluator names somebody and its score is the
      mean of its raw values, of which there is at least one. */
  predicate WellFormed(r: GradeRecord) {
    !NoEvaluator(r.evaluator) && r.raw != [] && r.score == Mean(r.raw)
  }

  /** Every record of `long_records` is well formed. */
  lemma GradeRecordsValid(rows: seq<Row>, gc: GradeColumns, metricCols: Dict<string, seq<string>>,
                          feedbackCols: Dict<string, string>, r: GradeRecord)
    requires r in GradeRecords(rows, gc, metricCols, feedbackCols)
    ensures WellFormed(r)
  {
    var f := (row: Row) => RowContribution(row, gc, metricCols, feedbackCols);
    FlatMapFrom(rows, f, r);
    var i :| 0 <= i < |rows| && r in f(rows[i]);
    RowRecordValid(rows[i], gc, metricCols, feedbackCols, r);
  }

  lemma RowRecordValid(row: Row, gc: GradeColumns, metricCols: Dict<string, seq<string>>,
                       feedbackCols: Dict<string, string>, r: GradeRecord)
    requires r in RowContribution(row, gc, metricCols, feedbackCols)
    ensures WellFormed(r)
  {
    var g := (e: (string, seq<string>)) => StudentRecords(row, gc, feedbackCols, e);
    FlatMapFrom(metricCols, g, r);
    var k :| 0 <= k < |metricCols| && r in g(metricCols[k]);
    StudentRecordValid(row, gc, feedbackCols, metricCols[k], r);
  }

  lemma StudentRecordValid(row: Row, gc: GradeColumns, feedbackCols: Dict<string, string>, entry: (string, seq<string>), r: GradeRecord)
    requires r in StudentRecords(row, gc, feedbackCols, entry)
    ensures r.evaluator == EvaluatorOf(row, gc) && r.raw != [] && r.score == Mean(r.raw)
  {
  }

  /** One student of one row: the rubric values parsed, then averaged. */
  method ParseStudent(row: Row, team: string, evaluator: string, student: string, cols: seq<string>,
                      feedbackCols: Dict<string, string>) returns (record: Option<GradeRecord>)
    ensures record == StudentRecord(row, team, evaluator, student, cols, feedbackCols)
  {
    var metricMap, rawValues := ParseMetrics(row, Named(cols));
    assert metricMap == Parsed(row, Named(cols)).0 && rawValues == Parsed(row, Named(cols)).1;
    if rawValues == [] {
      record := None;
    } else {
      var avg := Mean(rawValues);
      record := Some(GradeRecord(team, evaluator, student, avg, metricMap, rawValues,
                                 FeedbackText(row, feedbackCols, student), row.recorded));
    }
  }

  /** The loop over the students of one row. */
  method RowRecords(row: Row, gc: GradeColumns, metricCols: Dict<string, seq<string>>,
                    feedbackCols: Dict<string, string>) returns (recs: seq<GradeRecord>)
    ensures recs == RowGradeRecords(row, gc, metricCols, feedbackCols)
  {
    assert metricCols[..|metricCols|] == metricCols;
    var evaluator := EvaluatorOf(row, gc);
    var team := TeamOf(row, gc);
    recs := [];
    for j := 0 to |metricCols|
      invariant recs == RowGradeRecords(row, gc, metricCols[..j], feedbackCols)
    {
      FlatMapNext(metricCols, (e: (string, seq<string>)) => StudentRecords(row, gc, feedbackCols, e), j);
      var record := ParseStudent(row, team, evaluator, metricCols[j].0, metricCols[j].1, feedbackCols);
      recs := recs + RecordList(record);
    }
  }

  /** The loop over the rows that builds `long_records`. */
  method BuildGradeRecords(rows: seq<Row>, gc: GradeColumns, metricCols: Dict<string, seq<string>>,
                           feedbackCols: Dict<string, string>) returns (records: seq<GradeRecord>)
    ensures records == GradeRecords(rows, gc, metricCols, feedbackCols)
  {
    records := [];
    for i := 0 to |rows|
      invariant records == GradeRecords(rows[..i], gc, metricCols, feedbackCols)
    {
      FlatMapNext(rows, (row: Row) => RowContribution(row, gc, metricCols, feedbackCols), i);
      var evaluator := EvaluatorOf(rows[i], gc);
      if !NoEvaluator(evaluator) {
        var recs := RowRecords(rows[i], gc, metricCols, feedbackCols);
        records := records + recs;
      }
    }
    assert rows[..|rows|] == rows;
  }

  /** A record in which the evaluator rates themselves, ignoring case. */
  predicate SelfEvaluation(r: GradeRecord) {
    ToLower(r.evaluator) == ToLower(r.student)
  }

  /** The mask of the self removal: the evaluator rates someone else. */
  predicate OtherStudent(r: GradeRecord) {
    !SelfEvaluation(r)
  }

  function WithoutSelf(records: seq<GradeRecord>): (kept: seq<GradeRecord>)
    ensures forall i :: 0 <= i < |kept| ==> !SelfEvaluation(kept[i])
    ensures multiset(kept) <= multiset(records)
  {
    FilterSubset(records, OtherStudent);
    Filter(records, OtherStudent)
  }

  /** Every record that is not a self evaluation is kept. */
  lemma WithoutSelfKeeps(records: seq<GradeRecord>, i: nat)
    requires i < |records| && !SelfEvaluation(records[i])
    ensures records[i] in WithoutSelf(records)
  {
    FilterKeeps(records, OtherStudent, i);
  }

  /** A record whose feedback is not blank once stripped. */
  predicate HasFeedback(r: GradeRecord) {
    Strip(r.feedback) != ""
  }

  /** Nothing is left after self removal exactly when every record is a self
      evaluation, and no kept record has feedback exactly when every record is
      a self evaluation or has none. */
  lemma WithoutSelfEmpty(records: seq<GradeRecord>)
    ensures WithoutSelf(records) == [] <==> forall i :: 0 <= i < |records| ==> SelfEvaluation(records[i])
    ensures Filter(WithoutSelf(records), HasFeedback) == []
      <==> forall i :: 0 <= i < |records| ==> SelfEvaluation(records[i]) || !HasFeedback(records[i])
  {
    var kept := WithoutSelf(records);
    FilterEmpty(records, OtherStudent);
    FilterEmpty(kept, HasFeedback);
    if Filter(kept, HasFeedback) == [] {
      forall i | 0 <= i < |records| && !SelfEvaluation(records[i]) ensures !HasFeedback(records[i]) {
        WithoutSelfKeeps(records, i);
      }
    } else {
      var k :| 0 <= k < |kept| && HasFeedback(kept[k]);
      assert kept[k] in multiset(records);
      var i :| 0 <= i < |records| && records[i] == kept[k];
      assert !(SelfEvaluation(records[i]) || !HasFeedback(records[i]));
    }
  }

  /** Ascending (evaluator, student, timestamp). */
  predicate GradeLe(a: GradeRecord, b: GradeRecord) {
    StrLt(a.evaluator, b.evaluator)
    || (a.evaluator == b.evaluator && (StrLt(a.student, b.student) || (a.student == b.student && a.timestamp <= b.timestamp)))
  }

  lemma GradeLeTotal()
    ensures TotalPreorder(GradeLe)
  {
    forall a: GradeRecord, b: GradeRecord ensures GradeLe(a, b) || GradeLe(b, a) {
      if a.evaluator != b.evaluator {
        StrLtTotal(a.evaluator, b.evaluator);
      } else if a.student != b.student {
        StrLtTotal(a.student, b.student);
      }
    }
    forall a: GradeRecord, b: GradeRecord, c: GradeRecord | GradeLe(a, b) && GradeLe(b, c) ensures GradeLe(a, c) {
      if StrLt(a.evaluator, b.evaluator) && StrLt(b.evaluator, c.evaluator) {
        StrLtTransitive(a.evaluator, b.evaluator, c.evaluator);
      }
      if a.evaluator == b.evaluator == c.evaluator && StrLt(a.student, b.student) && StrLt(b.student, c.student) {
        StrLtTransitive(a.student, b.student, c.student);
      }
    }
  }

  /** The sort key of a record. */
  function SortKey(r: GradeRecord): (string, string, int) {
    (r.evaluator, r.student, r.timestamp)
  }

  /** The submission-order tie-break: records with equal sort keys come out
      of the stable sort in their input order. */
  lemma SortKeepsSubmissionOrder(records: seq<GradeRecord>, k: (string, string, int))
    ensures Group(SortWith(records, GradeLe), SortKey, k) == Group(records, SortKey, k)
  {
    GradeLeTotal();
    GroupOfSorted(records, GradeLe, SortKey, k);
    var g := Group(records, SortKey, k);
    forall i, j | 0 <= i < j < |g| ensures GradeLe(g[i], g[j]) {
      assert SortKey(g[i]) == k == SortKey(g[j]);
    }
    SortWithOfSorted(g, GradeLe);
  }

  /** The weighting groups: (evaluator, student, team). */
  function EvalKey(r: GradeRecord): (string, string, string) {
    (r.evaluator, r.student, r.team)
  }

  function GradeScore(r: GradeRecord): real {
    r.score
  }

  /** One row of `weighted_df`. */
  datatype EvalScore = EvalScore(evaluator: string, student: string, team: string, weighted: real)

  /** `compute_weighted` of the group `k` of the sorted records. */
  function GroupWeighted(sorted: seq<GradeRecord>, k: (string, string, string), wLast: real, wPrev: real): real
    requires k in GroupKeys(sorted, EvalKey)
  {
    GroupOfKey(sorted, EvalKey, k);
    Recency(Map(Group(sorted, EvalKey, k), GradeScore), wLast, wPrev)
  }

  /** `weighted_df`: one weighted score per group, in group order. */
  function EvalScores(sorted: seq<GradeRecord>, wLast: real, wPrev: real): (ws: seq<EvalScore>)
    ensures |ws| == |GroupKeys(sorted, EvalKey)|
  {
    var keys := GroupKeys(sorted, EvalKey);
    seq(|keys|, i requires 0 <= i < |keys| =>
      EvalScore(keys[i].0, keys[i].1, keys[i].2, GroupWeighted(sorted, keys[i], wLast, wPrev)))
  }

  /** Among records of one (evaluator, student, team) the sort looks at the
      timestamp only: the record it puts last has the latest timestamp, and
      any later record of the input has an earlier one. */
  lemma LatestOfGroup(g: seq<GradeRecord>, k: (string, string, string))
    requires |g| > 0 && forall i :: 0 <= i < |g| ==> EvalKey(g[i]) == k
    ensures var j := LatestIndex(g, GradeLe);
      && (forall i :: 0 <= i < |g| ==> g[i].timestamp <= g[j].timestamp)
      && (forall i :: j < i < |g| ==> g[i].timestamp < g[j].timestamp)
  {
    GradeLeTotal();
    var j := LatestIndex(g, GradeLe);
    LatestIndexIsLatest(g, GradeLe);
    forall i | 0 <= i < |g| ensures g[i].timestamp <= g[j].timestamp {
      assert GradeLe(g[i], g[j]) && EvalKey(g[i]) == EvalKey(g[j]);
      StrLtIrreflexive(g[i].evaluator);
      StrLtIrreflexive(g[i].student);
    }
    forall i | j < i < |g| ensures g[i].timestamp < g[j].timestamp {
      assert !GradeLe(g[j], g[i]) && EvalKey(g[i]) == EvalKey(g[j]);
    }
  }

  /** The weighted score of a group: its only score, or `wLast` times the
      score of its latest record plus `wPrev` times the mean of the others,
      whatever order the records came in. */
  lemma GroupWeightedLatest(records: seq<GradeRecord>, k: (string, string, string), wLast: real, wPrev: real)
    requires k in GroupKeys(records, EvalKey)
    ensures var g := Group(records, EvalKey, k);
      && k in GroupKeys(SortWith(records, GradeLe), EvalKey) && |g| > 0
      && (|g| == 1 ==> GroupWeighted(SortWith(records, GradeLe), k, wLast, wPrev) == g[0].score)
      && (|g| > 1 ==> GroupWeighted(SortWith(records, GradeLe), k, wLast, wPrev)
                      == LastAndMean(g[LatestIndex(g, GradeLe)].score, Map(RemoveAt(g, LatestIndex(g, GradeLe)), GradeScore), wLast, wPrev))
  {
    var g := Group(records, EvalKey, k);
    GradeLeTotal();
    GroupKeysOfSorted(records, GradeLe, EvalKey, k);
    GroupOfKey(records, EvalKey, k);
    GroupOfSorted(records, GradeLe, EvalKey, k);
    if |g| == 1 {
      OneSorted(g, GradeLe);
    } else {
      RecencyOfSorted(g, GradeLe, GradeScore, wLast, wPrev);
    }
  }

  /** The aggregation groups: (team, student). */
  function SubjectKey(w: EvalScore): (string, string) {
    (w.team, w.student)
  }

  function EvalValue(w: EvalScore): real {
    w.weighted
  }

  /** The unrounded aggregates of one subject's weighted scores. */
  datatype SubjectStats = SubjectStats(avg: real, pctAbove: real, pctBelow: real)

  function StatsOf(scores: seq<real>, high: real, low: real): (st: SubjectStats)
    requires |scores| > 0
    ensures 0.0 <= st.pctAbove <= 100.0 && 0.0 <= st.pctBelow <= 100.0
  {
    SubjectStats(Mean(scores), PercentWhere(scores, AtOrAbove(high)), PercentWhere(scores, Below(low)))
  }

  /** The percentage rule on a subject's weighted scores: Bonus exactly when
      every evaluator's score is at least `high`, otherwise Attention exactly
      when at least half of them are below `low`. */
  lemma ActionOfScores(scores: seq<real>, high: real, low: real)
    requires |scores| > 0
    ensures var st := StatsOf(scores, high, low);
      var a := ClassifyByPercent(st.pctAbove, st.pctBelow);
      && (a == Bonus <==> forall i :: 0 <= i < |scores| ==> scores[i] >= high)
      && (a == Attention <==> (exists i :: 0 <= i < |scores| && scores[i] < high) && 2 * Count(scores, Below(low)) >= |scores|)
  {
    PercentWhereHalf(scores, Below(low));
  }

  /** One row of the grade table: averages and percentages rounded to two
      places after the action is decided on the unrounded ones. */
  datatype GradeRow = GradeRow(team: string, student: string, avg: real, pctAbove: real, pctBelow: real, action: Action)

  function GradeRowOf(k: (string, string), st: SubjectStats): GradeRow {
    GradeRow(k.0, k.1, Round2(st.avg), Round2(st.pctAbove), Round2(st.pctBelow),
             ClassifyByPercent(st.pctAbove, st.pctBelow))
  }

  /** The scores of one subject. */
  function SubjectScores(ws: seq<EvalScore>, k: (string, string)): seq<real> {
    Map(Group(ws, SubjectKey, k), EvalValue)
  }

  /** `grade_df` with its action column. */
  function GradeRows(ws: seq<EvalScore>, high: real, low: real): (rows: seq<GradeRow>)
    ensures |rows| == |GroupKeys(ws, SubjectKey)|
  {
    var keys := GroupKeys(ws, SubjectKey);
    seq(|keys|, i requires 0 <= i < |keys| =>
      GroupOfKey(ws, SubjectKey, keys[i]);
      GradeRowOf(keys[i], StatsOf(SubjectScores(ws, keys[i]), high, low)))
  }

  /** Each grade row is its subject's: the mean of that subject's weighted
      scores and the shares at or above `high` and below `low`, each rounded
      to two places, and the action by the percentage rule on the unrounded
      shares. */
  lemma GradeRowsAt(ws: seq<EvalScore>, high: real, low: real, i: nat)
    requires i < |GroupKeys(ws, SubjectKey)|
    ensures var k := GroupKeys(ws, SubjectKey)[i];
      var scores := SubjectScores(ws, k);
      && |scores| > 0
      && GradeRows(ws, high, low)[i].team == k.0 && GradeRows(ws, high, low)[i].student == k.1
      && GradeRows(ws, high, low)[i].avg == Round2(Mean(scores))
      && GradeRows(ws, high, low)[i].pctAbove == Round2(PercentWhere(scores, AtOrAbove(high)))
      && GradeRows(ws, high, low)[i].pctBelow == Round2(PercentWhere(scores, Below(low)))
      && (GradeRows(ws, high, low)[i].action == Bonus <==> forall n :: 0 <= n < |scores| ==> scores[n] >= high)
      && (GradeRows(ws, high, low)[i].action == Attention <==>
            (exists n :: 0 <= n < |scores| && scores[n] < high) && 2 * Count(scores, Below(low)) >= |scores|)
  {
    var k := GroupKeys(ws, SubjectKey)[i];
    GroupOfKey(ws, SubjectKey, k);
    ActionOfScores(SubjectScores(ws, k), high, low);
  }

  /** `main` after loading, as a specification. */
  function GradeOf(frame: Frame, high: real, low: real, wLast: real, wPrev: real): (r: Result<seq<GradeRow>>)
  {
    match ResolveGradeColumns(frame.columns)
    case Err(e) => Err(e)
    case Ok(gc) =>
      GradeOfRecords(GradeRecords(frame.rows, gc, MetricCols(frame.columns), FeedbackCols(frame.columns)), high, low, wLast, wPrev)
  }

  /** The steps of `main` once `long_records` is built. */
  function GradeOfRecords(records: seq<GradeRecord>, high: real, low: real, wLast: real, wPrev: real): (r: Result<seq<GradeRow>>)
  {
    if records == [] then Err(NoRatings)
    else
      var kept := WithoutSelf(records);
      if kept == [] then Err(NoEvaluations)
      else if Filter(kept, HasFeedback) == [] then Err(NoFeedback)
      else Ok(GradeRows(EvalScores(SortWith(kept, GradeLe), wLast, wPrev), high, low))
  }

  /** The steps after loading fail exactly when no record is both another
      student's and carries feedback: with `NoRatings` when there is no
      record, `NoEvaluations` when all are self evaluations, and `NoFeedback`
      when some is not but none of those has feedback. */
  lemma GradeOfRecordsFails(records: seq<GradeRecord>, high: real, low: real, wLast: real, wPrev: real)
    ensures var r := GradeOfRecords(records, high, low, wLast, wPrev);
      && (r.Err? <==> forall i :: 0 <= i < |records| ==> SelfEvaluation(records[i]) || !HasFeedback(records[i]))
      && (r == Err(NoRatings) <==> records == [])
      && (r == Err(NoEvaluations) <==> records != [] && forall i :: 0 <= i < |records| ==> SelfEvaluation(records[i]))
      && (r == Err(NoFeedback) <==>
            (exists i :: 0 <= i < |records| && !SelfEvaluation(records[i]))
            && forall i :: 0 <= i < |records| ==> SelfEvaluation(records[i]) || !HasFeedback(records[i]))
  {
    WithoutSelfEmpty(records);
  }

  /** Some student of the row has a rubric value that parses. */
  ghost predicate SomeStudentRated(row: Row, students: Dict<string, seq<string>>) {
    exists j :: 0 <= j < |students| && Parsed(row, Named(students[j].1)).1 != []
  }

  /** A row with an evaluator and a parsed rubric value. */
  ghost predicate RowRates(row: Row, gc: GradeColumns, metricCols: Dict<string, seq<string>>) {
    !NoEvaluator(EvaluatorOf(row, gc)) && SomeStudentRated(row, metricCols)
  }

  /** A row adds records exactly when it names an evaluator and some
      student has a parsed value. */
  lemma RowContributionEmpty(row: Row, gc: GradeColumns, metricCols: Dict<string, seq<string>>,
                             feedbackCols: Dict<string, string>)
    ensures RowContribution(row, gc, metricCols, feedbackCols) == [] <==> !RowRates(row, gc, metricCols)
  {
    var g := (e: (string, seq<string>)) => StudentRecords(row, gc, feedbackCols, e);
    FlatMapEmpty(metricCols, g);
  }

  /** `long_records` stays empty exactly when no row rates anybody. */
  lemma GradeRecordsEmpty(rows: seq<Row>, gc: GradeColumns, metricCols: Dict<string, seq<string>>,
                          feedbackCols: Dict<string, string>)
    ensures GradeRecords(rows, gc, metricCols, feedbackCols) == [] <==> forall i :: 0 <= i < |rows| ==> !RowRates(rows[i], gc, metricCols)
  {
    FlatMapEmpty(rows, (row: Row) => RowContribution(row, gc, metricCols, feedbackCols));
    forall i | 0 <= i < |rows|
      ensures RowContribution(rows[i], gc, metricCols, feedbackCols) == [] <==> !RowRates(rows[i], gc, metricCols)
    {
      RowContributionEmpty(rows[i], gc, metricCols, feedbackCols);
    }
  }

  /** The run fails exactly when a header cannot be resolved or when no
      record is both another student's and carries feedback; it stops with
      `NoRatings` exactly when no row has an evaluator and a parsed rubric
      value, with `NoEvaluations` exactly when there are records and all are
      self evaluations, and with `NoFeedback` exactly when some record is not
      a self evaluation but none of those has feedback. */
  lemma GradeFails(frame: Frame, high: real, low: real, wLast: real, wPrev: real)
    ensures GradeOf(frame, high, low, wLast, wPrev).Err? <==>
      ResolveGradeColumns(frame.columns).Err?
      || var records := GradeRecords(frame.rows, ResolveGradeColumns(frame.columns).value, MetricCols(frame.columns), FeedbackCols(frame.columns));
         forall i :: 0 <= i < |records| ==> SelfEvaluation(records[i]) || !HasFeedback(records[i])
    ensures ResolveGradeColumns(frame.columns).Ok? ==>
      var gc := ResolveGradeColumns(frame.columns).value;
      var records := GradeRecords(frame.rows, gc, MetricCols(frame.columns), FeedbackCols(frame.columns));
      var r := GradeOf(frame, high, low, wLast, wPrev);
      && (r == Err(NoRatings) <==> forall i :: 0 <= i < |frame.rows| ==> !RowRates(frame.rows[i], gc, MetricCols(frame.columns)))
      && (r == Err(NoEvaluations) <==> records != [] && forall i :: 0 <= i < |records| ==> SelfEvaluation(records[i]))
      && (r == Err(NoFeedback) <==>
            (exists i :: 0 <= i < |records| && !SelfEvaluation(records[i]))
            && forall i :: 0 <= i < |records| ==> SelfEvaluation(records[i]) || !HasFeedback(records[i]))
  {
    if ResolveGradeColumns(frame.columns).Ok? {
      var gc := ResolveGradeColumns(frame.columns).value;
      var records := GradeRecords(frame.rows, gc, MetricCols(frame.columns), FeedbackCols(frame.columns));
      GradeRecordsEmpty(frame.rows, gc, MetricCols(frame.columns), FeedbackCols(frame.columns));
      GradeOfRecordsFails(records, high, low, wLast, wPrev);
    }
  }

  /** `main` after loading and argument parsing. */
  method GradeMain(frame: Frame, high: real, low: real, wLast: real, wPrev: real) returns (r: Result<seq<GradeRow>>)
    ensures r == GradeOf(frame, high, low, wLast, wPrev)
  {
    var gc := ResolveGradeColumns(frame.columns);
    if gc.Err? {
      r := Err(gc.message);
      return;
    }
    var metricCols, feedbackCols := DetectRatingBlocks(frame.columns);
    var records := BuildGradeRecords(frame.rows, gc.value, metricCols, feedbackCols);
    if records == [] {
      r := Err(NoRatings);
      return;
    }
    var kept := WithoutSelf(records);
    if kept == [] {
      r := Err(NoEvaluations);
      return;
    }
    if Filter(kept, HasFeedback) == [] {
      r := Err(NoFeedback);
      return;
    }
    var sorted := SortWith(kept, GradeLe);
    r := Ok(GradeRows(EvalScores(sorted, wLast, wPrev), high, low));
  }
}
