# Peer, mentor and client evaluation reports — a Dafny model

The repository turns survey exports (one row per submitted form, one column
per question) into grade reports. Four scripts share one pipeline:

1. clean the headers and recognise the rating columns by their names;
2. expand every wide row into one record per rated subject (a team or a
   student), keeping only the values that parse as numbers and scoring the
   record with their mean;
3. drop self evaluations and weight each evaluator's submissions by recency
   (`w_last * last + w_prev * mean(the others)`);
4. aggregate per team or per student (mean, share at or above the high
   threshold, share below the low threshold) and classify the subject as
   Bonus, Attention or Normal.

* `mentor_report.py` grades teams from mentor surveys and then scores each
  student by combining the team score, the student's own rubric average, the
  action and a bonus factor.
* `grade.py` grades students from peer surveys. Its action rule is based on
  percentages.
* `client_report.py` grades teams from client surveys and adds one
  per-client block with its weighted overall score, plus the most frequent
  organization.
* `report.py` expands a legacy survey column by column and summarises each
  member.

`src/utils.py` holds the flow-identifier counter and the random-identifier
helper of the survey generator.

The model is a set of Dafny modules.

* **Shared modules:**
  * `Seqs`: map, filter, stable sort.
  * `Stats`: sums, means, counts, percentages, distinct values.
  * `Rounding`: round half to even.
  * `Weighting`: the recency rule.
  * `Actions`: the two classification rules.
  * `Text`: strip, split, lower, replace, decimal parsing, string order.
  * `Dict`: Python's insertion-ordered `dict`.
  * `Columns`: header cleaning and the regular expressions as string
    functions.
  * `Table`: cells, rows, and the parse-or-skip loop.
  * `Grouping`: `groupby`.
  * `Results` and `Wrappers`: `Option` and `Result`.
* **One or more modules per script:**
  * `MentorLong`, `MentorTeam`, `MentorReport`, `MentorStudents` and
    `MentorMain` for `mentor_report.py`;
  * `Grade` for `grade.py`;
  * `ClientReport` for `client_report.py`;
  * `Report` for `report.py`;
  * `Utils` for `src/utils.py`.

Loops that fill lists and dictionaries are methods. Each is proved equal to a
specification function, and the properties are lemmas about those functions.
`_FlowIds`, whose `next` updates a field, is a class.

Scores are `real` and timestamps are `int`. A Python `dict` is a sequence of
(key, value) pairs that keeps insertion order. The point where
`sys.exit`/`KeyError`/`TypeError` ends a run is an `Err` result carrying the
message.

## Model

| member | source | states |
|---|---|---|
| Weighting.Recency | grade.py:158-167 | a single score is returned unchanged |
| Weighting.RecencyWithinRange | client_report.py:164-172 | with non-negative weights summing to one, the weighted score lies within the range of the scores |
| Weighting.RecencyIgnoresEarlierOrder | grade.py:165-167 | only the last score is singled out; permuting the earlier ones does not change the result |
| Weighting.RecencyOfSorted | grade.py:149-167 | after a stable sort, the record the sort puts last gets `wLast` and the mean of all the others gets `wPrev`, whatever the input order |
| Weighting.RecencyOfParts | grade.py:165-167 | the weighted score depends only on the last value and the multiset of the others |
| Weighting.RecencyExample | client_report.py:170-172 | [4, 6, 10] at 0.7/0.3 gives 8.5 |
| Weighting.RecencyEqualWeightsIsNotMean | grade.py:165-167 | with 0.5/0.5 this rule is not the plain mean ([0, 0, 3] gives 1.5, the mean is 1), unlike the generic rule of the mentor report |
| Actions.ClassifyByScore | mentor_report.py:143-148 | Bonus exactly when the average rounds to 10 at six places; otherwise Attention exactly when it is at most `low`, else Normal; Bonus wins whatever `low` is |
| Actions.BonusIffRoundsToTen | client_report.py:203-208 | the Bonus case of the score rule is exactly `round(avg, 6) == 10` under half-even rounding |
| Actions.ClassifyByPercent | grade.py:257-262 | Bonus exactly when the share above is 100; otherwise Attention exactly when the share below is at least 50, else Normal |
| Rounding.RoundedUnits | grade.py:272-274 | the integer chosen lies within half a unit of the value |
| Rounding.RoundError | client_report.py:271-273 | rounding to `1/scale` moves a value by at most half a unit of the last kept digit |
| Rounding.RoundsToTenIff | mentor_report.py:144 | `round(x, 6) == 10` holds exactly for 9.9999995 <= x <= 10.0000005 |
| Stats.MeanBounds | grade.py:245 | a mean lies between the smallest and the largest value |
| Stats.MeanPermutation | client_report.py:188 | a mean depends only on the multiset of values |
| Stats.Percent | grade.py:246-249 | `100*k/n` lies in [0, 100], is 100 exactly when k == n, and is at least 50 exactly when 2k >= n |
| Stats.PercentWhere | grade.py:246-249 | the share of values meeting a mask lies in [0, 100] and is 100 exactly when every value meets it |
| Stats.PercentWhereHalf | grade.py:260 | a share of at least 50 means at least half of the values meet the mask |
| Stats.DistinctCount | client_report.py:193 | `nunique` is the size of the set of values |
| Results.MapResult | mentor_report.py:473-514 | a successful run yields one result per element |
| Results.MapResultSpec | mentor_report.py:473-514 | the run fails exactly when some element fails, with the first failure's message; otherwise each result is its element's |
| Results.ConcatResult | mentor_report.py:410 | no elements give an empty list |
| Results.ConcatResultFails | mentor_report.py:410-514 | the joined run fails exactly when some element fails |
| Dict.Put | mentor_report.py:108 | assignment keeps the key positions; a new key is appended at the end |
| Dict.GetPut | mentor_report.py:108 | reading a key just assigned gives the assigned value, and every other key keeps its value |
| Dict.AppendEachAt | mentor_report.py:267-269 | with distinct item keys, each list grows by the one item under its key, if any, and is otherwise unchanged |
| Text.ToLower | grade.py:90 | same length, every character lower-cased |
| Text.StripLeftFacts | grade.py:89 | `lstrip` drops a whitespace prefix and stops at the first other character |
| Text.StripRightFacts | grade.py:89 | `rstrip` drops a whitespace suffix and stops at the last other character |
| Text.StripIsInfix | client_report.py:90 | `strip()` is the infix between the leading and the trailing whitespace |
| Text.StripEnds | mentor_report.py:179-180 | the stripped text neither starts nor ends with whitespace |
| Text.ReplaceAllAbsent | client_report.py:246 | replacing a pattern that does not occur leaves the text unchanged |
| Text.ReplaceAllSuffix | client_report.py:78 | deleting a suffix that occurs only at its own place gives back the stem |
| Text.Split | report.py:56 | `split` never returns an empty list |
| Text.SplitJoin | report.py:56 | joining the pieces with the separator gives back the text |
| Text.SplitPiecesNoSep | report.py:56-60 | no piece contains the separator |
| Text.SplitAppend | grade.py:104 | splitting `a + sep + b` is splitting `a` and `b` separately |
| Text.SplitNoSep | report.py:56-58 | text without the separator splits into itself, one part |
| Text.NatToString | src/utils.py:9 | the decimal form is a non-empty string of digits |
| Text.NatToStringRoundTrip | src/utils.py:9 | reading the decimal form back gives the number |
| Text.NatToStringInjective | src/utils.py:7-9 | different numbers have different decimal forms |
| Text.ParseFloatOfNat | grade.py:105 | `float(str(n)) == n` |
| Text.StrLtIrreflexive | mentor_report.py:331 | no string sorts before itself |
| Text.StrLtTransitive | mentor_report.py:331 | string order is transitive |
| Text.StrLtTotal | mentor_report.py:331 | any two different strings are ordered one way or the other |
| Text.KeyLeTotal | mentor_report.py:261 | the (team, name, time) key order relates any two keys |
| Text.KeyLeTransitive | mentor_report.py:261 | the (team, name, time) key order is transitive |
| Columns.CollapseSpaces | mentor_report.py:59 | no whitespace other than a single space remains |
| Columns.CleanHeader | mentor_report.py:56-60 | a cleaned header holds no line break, so `.*` patterns see all of it |
| Columns.TeamMetricColumn | mentor_report.py:94 | a match is an upper-case letter, `_`, a metric without a line break, and `_1`, the two captured parts making up the header |
| Columns.TeamMetricColumnOf | client_report.py:57 | every header of that shape matches and captures its own letter and metric |
| Columns.NestedEmpty | mentor_report.py:110 | the nested dictionary stays empty exactly when no header matches |
| Columns.NestedHas | mentor_report.py:104-108 | an entry exists exactly for the (key, inner key) pairs some header matches |
| Columns.NestedLast | client_report.py:63-68 | an entry holds the last header that matches it |
| Columns.NestedKeys | mentor_report.py:108 | a team key exists exactly when some header matches with that key |
| Columns.FlatHas | mentor_report.py:100-102 | a flat entry exists exactly for the keys some header matches |
| Columns.FlatLast | client_report.py:70-72 | a flat entry holds the last header that matches its key |
| Table.CellAt | mentor_report.py:169 | an absent column reads as an empty cell |
| Table.TextOr | client_report.py:90 | `str(row.get(col, default))` gives the default only for an absent column and "nan" for an empty cell |
| Table.AsFloat | grade.py:102-109 | an empty cell gives no value; a numeric cell gives its value |
| Table.ParsedEmpty | grade.py:111-112 | no value is collected exactly when no column parses |
| Table.ParsedKeys | mentor_report.py:189-197 | a metric is stored exactly when one of its columns parses |
| Table.ParsedUnique | client_report.py:101-106 | the stored metric names are distinct |
| Table.ParsedPermutation | grade.py:100 | the values collected do not depend on the order the columns are visited in |
| Table.ParseMetrics | mentor_report.py:186-197 | the loop returns the parsed metric map and the list of raw values |
| Grade.FindColumn | grade.py:48-52 | the result is a header containing the part, ignoring case; the error, with its `KeyError` message, comes exactly when no header contains it |
| Grade.FindColumnFirst | grade.py:49-52 | the header found is the first that contains the part |
| Grade.ResolveColumn | grade.py:54 | an exact header wins; any result is a header |
| Grade.ResolveGradeColumns | grade.py:54-56 | the evaluator, team and timestamp headers are all headers of the frame |
| Grade.RatingColumn | grade.py:63-65 | a match is a stem without a line break followed by a rubric suffix, and the student is the stripped stem |
| Grade.RatingColumnOf | grade.py:72-76 | every rubric header names its stripped stem |
| Grade.RatingSuffixesExclusive | grade.py:72-76 | at most one of the three rubric patterns matches a header |
| Grade.FeedbackColumn | grade.py:66 | a match is a stem followed by `_Feedback`, and the student is the stripped stem |
| Grade.AddOnce | grade.py:76 | `set.add`: the result is the old set plus the column, still without duplicates |
| Grade.MetricColsHas | grade.py:71-76 | a student's columns are exactly the rating columns naming that student |
| Grade.MetricColsOnce | grade.py:76 | each of a student's columns is stored once |
| Grade.DetectRatingBlocks | grade.py:68-81 | the header loop builds the student's rating-column sets and the last feedback column per student |
| Grade.MetricNameOf | grade.py:104 | `c.split("_")[-2]` is the rubric name, whatever the student name holds |
| Grade.StudentRecord | grade.py:96-131 | no record exactly when no value parses; otherwise it keeps the parsed values and its score is their mean |
| Grade.StudentScoreOrderFree | grade.py:96-114 | the parsed values and the score do not depend on the order the column set is visited in |
| Grade.GradeRecordsValid | grade.py:88-131 | every record names an evaluator (not empty, "nan" or "none" in any case) and is scored by the mean of at least one raw value |
| Grade.ParseStudent | grade.py:97-131 | the column loop of one student builds that student's record |
| Grade.RowRecords | grade.py:96-131 | the loop over the students of a row builds the row's records |
| Grade.BuildGradeRecords | grade.py:83-131 | the loop over the rows builds `long_records` |
| Grade.RowContributionEmpty | grade.py:89-112 | a row adds records exactly when it names an evaluator and some student's value parses |
| Grade.GradeRecordsEmpty | grade.py:133-135 | no records exactly when no row rates anybody |
| Grade.WithoutSelf | grade.py:142-144 | no kept record has an evaluator equal to the student ignoring case, and only records of the input are kept |
| Grade.WithoutSelfKeeps | grade.py:142-144 | every record that is not a self evaluation is kept |
| Grade.WithoutSelfEmpty | grade.py:142-144 | nothing is kept exactly when every record is a self evaluation; no kept record passes the feedback mask of grade.py:224 exactly when every record is a self evaluation or has blank feedback |
| Grade.GradeLeTotal | grade.py:151-153 | the (evaluator, student, timestamp) order is a total preorder |
| Grade.SortKeepsSubmissionOrder | grade.py:149-153 | records with equal sort keys keep their submission order |
| Grade.EvalScores | grade.py:175-179 | one weighted score per (evaluator, student, team) group |
| Grade.LatestOfGroup | grade.py:151-153 | the record the sort puts last has the greatest timestamp, and the ones after it in the input are strictly earlier |
| Grade.GroupWeightedLatest | grade.py:158-179 | a group's weighted score is its lone score, or 0.7/0.3 between its latest record (the last submitted on ties) and the mean of the others |
| Grade.StatsOf | grade.py:242-252 | both percentages lie in [0, 100] |
| Grade.ActionOfScores | grade.py:242-264 | Bonus exactly when every weighted score is at least `high`; Attention exactly when some is below `high` and at least half are below `low` |
| Grade.GradeRows | grade.py:242-264 | one grade row per (team, student) |
| Grade.GradeRowsAt | grade.py:242-274 | each row carries its subject, `Avg_Score` as the mean of that subject's weighted scores and `Pct_Above_Threshold` and `Pct_Below_Threshold` as the shares at or above `high` and below `low`, each rounded to two places, and the action decided on the unrounded scores: Bonus exactly when every score is at least `high`, Attention exactly when some is below `high` and at least half are below `low` |
| Grade.GradeOfRecordsFails | grade.py:133-236 | after loading, the run fails exactly when no record is both another student's and carries feedback: no record stops it at `sys.exit(1)`, only self evaluations make the weighting's `reset_index` raise, and no kept feedback makes the feedback summary's `reset_index(name=...)` raise |
| Grade.GradeFails | grade.py:133-236 | the run fails exactly when a header cannot be resolved (grade.py:54-56) or no record is both another student's and carries feedback, and each of the three later exits is tied to its condition on the rows and records |
| Grade.GradeMain | grade.py:25-274 | the whole run equals its specification |
| Grouping.GroupKeys | mentor_report.py:241 | the keys are distinct and are exactly the keys of the records |
| Grouping.Group | mentor_report.py:241 | a group holds only records with its key |
| Grouping.GroupOfSorted | grade.py:151-179 | grouping a stably sorted sequence gives each group stably sorted |
| Grouping.GroupKeysOfSorted | grade.py:151-179 | sorting does not change the group keys |
| MentorLong.MentorNameColumn | mentor_report.py:93 | matches exactly the 12-character headers `<letter>_MentorName` |
| MentorLong.StudentMetricColumn | mentor_report.py:121-123 | a match is a non-empty name, `_`, one of the three rubric metrics, and `_1` |
| MentorLong.StudentMetricColumnOf | mentor_report.py:121-123 | every header of that shape matches |
| MentorLong.StudentFeedbackColumn | mentor_report.py:124 | a match is a non-empty name followed by `_Feedback` |
| MentorLong.DetectTeamStructure | mentor_report.py:92-114 | fails, with its message, exactly when no header is a team metric; otherwise returns team to metric to column and team to mentor-name column |
| MentorLong.DetectStudentMetrics | mentor_report.py:120-140 | student to metric to column, and student to feedback column |
| MentorLong.FeedbackText | mentor_report.py:176-180 | feedback is present only for a non-empty cell, and it is stripped and not blank |
| MentorLong.StudentBlocks | mentor_report.py:163-183 | a student appears in a block only with a rubric value or feedback, and only students with columns appear |
| MentorLong.MentorOf | mentor_report.py:204-209 | the stripped mentor cell, or `Mentor_<ResponseId>` when it is empty or "nan"; never empty or "nan" |
| MentorLong.TeamRecordSome | mentor_report.py:189-200 | a team has a record in a row exactly when one of its metrics parses |
| MentorLong.TeamRecordFields | mentor_report.py:202-218 | the record's score is the mean of the parsed values; it holds each parsed metric once, and the row's time, mentor and student blocks |
| MentorLong.TeamRecordsExactly | mentor_report.py:185-218 | a row's records are exactly its teams' records |
| MentorLong.LongRecordsExactly | mentor_report.py:159-220 | the long records are exactly the records of the rows |
| MentorLong.LongRecordMetrics | mentor_report.py:189-200 | every long record has distinct metric names and at least one metric |
| MentorLong.RowStudentBlocks | mentor_report.py:163-183 | the loop over a row's student columns builds `raw_student_block` |
| MentorLong.RowTeamRecords | mentor_report.py:185-218 | the loop over the team blocks builds the row's records |
| MentorLong.BuildLongDf | mentor_report.py:153-220 | the loop over the rows builds `long_records` |
| MentorTeam.NewestFirstTotal | mentor_report.py:227-230 | team and mentor ascending with time descending is a total preorder |
| MentorTeam.OldestFirstTotal | mentor_report.py:261 | (team, mentor, time) ascending is a total preorder |
| MentorTeam.WeightedRows | mentor_report.py:240-244 | one weighted row per (team, mentor) pair |
| MentorTeam.TeamScores | mentor_report.py:246-250 | one team score per team |
| MentorTeam.TeamWeighting | mentor_report.py:226-252 | fails (`KeyError` on sorting) exactly when there are no records |
| MentorTeam.WeightedRowsKeys | mentor_report.py:240-244 | the weighted rows name exactly the (team, mentor) pairs of the records |
| MentorTeam.MentorGroupSorted | mentor_report.py:227-242 | grouping the sorted records gives each pair's records sorted |
| MentorTeam.EarliestOfPair | mentor_report.py:227-236 | within one pair the record the sort puts last is the earliest submission |
| MentorTeam.MentorWeightedSingle | mentor_report.py:234-235 | a pair with a lone submission keeps its score |
| MentorTeam.PairWeightingEarliest | mentor_report.py:232-238 | 0.7 goes to the pair's earliest submission and 0.3 to the mean of the others |
| MentorTeam.MentorWeightedOfGroup | mentor_report.py:232-244 | a pair's weighted score is the recency rule on that pair's own records, newest first |
| MentorTeam.MentorWeightedWithin | mentor_report.py:232-238 | a pair's weighted score lies within the range of the record scores |
| MentorTeam.TeamMeanWithin | mentor_report.py:246-250 | a team's mean of mentor scores lies within their range |
| MentorTeam.TeamWeightingWithinRange | mentor_report.py:226-252 | with record scores in [lo, hi], every mentor score and team score lies in [lo, hi] |
| MentorTeam.MetricListsStep | mentor_report.py:265-269 | one record appends each of its metrics, rounded to three places, to its own team's list and changes no other list |
| MentorTeam.MetricListsHistory | mentor_report.py:258-270 | a team's list for a metric is the rounded values of that metric over the team's records in sorted order |
| MentorTeam.AppendRecordMetrics | mentor_report.py:267-269 | the inner loop: each metric of one record appended, rounded to three places, to its team's list for that metric, in the record's key order |
| MentorTeam.BuildMetricLists | mentor_report.py:258-270 | the two loops of `build_metric_lists` on the (team, mentor, time)-sorted records |
| MentorTeam.DimensionHistory | mentor_report.py:277-282 | a team's history for a dimension; `KeyError` exactly when no team has that dimension; a team without values has `[]` |
| MentorTeam.RawEvaluations | mentor_report.py:290-297 | at most one block per record, and a block is present exactly when some record of the team carries it. The blocks come in (team, mentor, time) order, as `build_raw_json` sorts them, and not in the pure time order that the comment at mentor_report.py:451 describes |
| MentorReport.BonusMultiplier | mentor_report.py:566 | `100*m == 100 + bonus`: at least 1 exactly for a non-negative bonus, and 1 exactly for no bonus |
| MentorReport.GenericWeightedAsWritten | mentor_report.py:308-311 | as written: NaN exactly for an empty list with equal weights, and None exactly for an empty list with unequal weights |
| MentorReport.GenericWeighted | mentor_report.py:303-317 | None exactly for an empty list; a single value is returned unchanged |
| MentorReport.GenericWeightedCorrects | mentor_report.py:308-311 | both agree on every non-empty list; on the empty list with equal weights the code gives NaN where None is meant |
| MentorReport.GenericWeightedUnequal | mentor_report.py:310-317 | with unequal weights and two or more values: `latest_w*last + prev_w*mean(the others)`, without normalising |
| MentorReport.TeamDimensionIsMean | mentor_report.py:21-22 | at the 0.5/0.5 team weights a dimension's weighting is the mean of its whole history |
| MentorReport.GenericWeightedWithin | mentor_report.py:303-317 | with weights that are non-negative and sum to one, the result lies within the range of the values |
| MentorReport.Somes | mentor_report.py:443 | the present values, empty exactly when none is present |
| MentorReport.PyMean | mentor_report.py:374-380 | `np.mean` is finite exactly for a non-empty list of finite values |
| MentorReport.DimensionAvgAsWritten | mentor_report.py:373-388 | as written: None exactly when no value is truthy (None and 0.0 are false) |
| MentorReport.DimensionAvg | mentor_report.py:443-444 | the mean of present values, None exactly when none is present |
| MentorReport.DimensionAvgWithin | mentor_report.py:443-444 | the average lies within the range of the present values |
| MentorReport.DimensionAvgAgrees | mentor_report.py:373-388 | when some present value is non-zero, the code as written gives the same average |
| MentorReport.DimensionAvgAllZero | mentor_report.py:381-386 | four dimension weightings of 0.0 give None as written and 0.0 as intended |
| MentorReport.MentorNamesSorted | mentor_report.py:331 | a team's `Mentor` names are in strictly ascending order, each once, and are exactly the team's mentors |
| MentorReport.ReviewerCount | mentor_report.py:330 | the count of the team's distinct mentors |
| MentorReport.ReviewerCountOfRecords | mentor_report.py:327-334 | `Reviewer_Count` is the number of distinct mentors among the team's records |
| MentorReport.MentorDb | mentor_report.py:336-342 | the team's mentor-map entry, "UNK" without a map or an entry |
| MentorReport.ThresholdIsShareOfOne | mentor_report.py:347-353 | each threshold column is the percentage of the team's one score meeting `>= HIGH` or `< LOW` |
| MentorReport.Histories | mentor_report.py:376-386 | a successful lookup yields one history per dimension |
| MentorReport.HistoriesErr | mentor_report.py:376-386 | the lookup fails exactly when one of the dimensions is missing |
| MentorReport.HistoriesOk | mentor_report.py:376-386 | otherwise it holds each dimension's history in place |
| MentorReport.FinalTeamRow | mentor_report.py:327-399 | fails exactly when a team dimension is missing; otherwise it carries its team and that team's weighted score |
| MentorReport.FinalTeamRowFails | mentor_report.py:373-388 | whether a row fails does not depend on the team |
| MentorReport.FinalTeamDf | mentor_report.py:323-399 | fails exactly when there are teams and a team dimension column is missing; otherwise one row per team score, in order |
| MentorReport.FinalTeamDfRow | mentor_report.py:323-399 | each row of the frame is its team's final row |
| MentorReport.TeamRowDimensionAvg | mentor_report.py:364-388 | with the corrected weightings of both findings: `Dimension_Weighted_Avg` is None exactly when every dimension history is empty, and each non-empty history is weighted to its mean |
| MentorStudents.AddSubmissionAt | mentor_report.py:453-467 | one submission appends each of its students' values to that student's series, and adds its students |
| MentorStudents.StudentMapSeries | mentor_report.py:450-467 | each student's series is that student's blocks in submission order, and the map holds exactly the students of some submission |
| MentorStudents.StudentMapUnique | mentor_report.py:455 | each student is listed once |
| MentorStudents.AddStudents | mentor_report.py:454-467 | the loop over one submission's students |
| MentorStudents.CollectStudentSeries | mentor_report.py:450-467 | the loop over the submissions builds `student_map` |
| MentorStudents.StudentAverage | mentor_report.py:480-492 | None exactly when the student has no rubric value |
| MentorStudents.StudentWeighted | mentor_report.py:480-488 | each rubric weighting is None exactly when its series is empty |
| MentorStudents.StudentAverageWithin | mentor_report.py:480-492 | with rubric values in [lo, hi] the student average lies in [lo, hi] |
| MentorStudents.FinalScore | mentor_report.py:499-514 | None exactly when the team average is None |
| MentorStudents.FinalScoreOrdering | mentor_report.py:499-514 | for a student average at most 10 and a bonus factor at least 1: Attention <= Normal <= Bonus |
| MentorStudents.FinalScoreRange | mentor_report.py:499-514 | with averages in [0, 10] the final score lies in [0, 100 * bonus] |
| MentorStudents.ShownMentor | mentor_report.py:413-417 | the mentor-map name replaces a name holding `Mentor_R_`, and only such a name |
| MentorStudents.StudentRowOf | mentor_report.py:473-550 | fails (`TypeError`) exactly when the student has no rubric value |
| MentorStudents.StudentRowFacts | mentor_report.py:494-525 | the action is the score rule on the unrounded average, the final score is None exactly without a team average, and the shown average is within half a thousandth |
| MentorStudents.StudentRows | mentor_report.py:473-550 | a successful run yields one row per student |
| MentorStudents.StudentRowsSpec | mentor_report.py:473-550 | fails exactly when some student fails; otherwise each row is its student's |
| MentorStudents.TeamPartOf | mentor_report.py:427-444 | with the corrected weightings of the first finding: the team average is the mean of the present dimension weightings |
| MentorStudents.TeamStudentRows | mentor_report.py:420-424 | a missing `OverallSatisfaction` column fails the team |
| MentorStudents.StudentLevel | mentor_report.py:405-552 | no team rows give no student rows |
| MentorStudents.StudentLevelFails | mentor_report.py:405-552 | the expansion fails exactly when one team's rows do |
| MentorStudents.StudentRowsFail | mentor_report.py:494 | a team's students fail exactly when one has no rubric value |
| MentorStudents.TeamStudentRowsFail | mentor_report.py:420-494 | a team fails exactly when its overall column is missing or a student rated only with feedback appears |
| MentorStudents.ExpandTeam | mentor_report.py:473-550 | the loop over one team's students |
| MentorStudents.ExpandToStudentLevel | mentor_report.py:405-552 | the loop over the team rows |
| MentorMain.TeamFrameOf | mentor_report.py:570-597 | without a team metric header, the detection error; with no records, the sort's `KeyError` |
| MentorMain.MentorReportOf | mentor_report.py:559-603 | the run fails exactly when the team frame does; the students fail exactly when some team does, at the factor `(100 + bonus) / 100` |
| MentorMain.TeamScoresNonEmpty | mentor_report.py:226-252 | records give at least one team score |
| MentorMain.TeamFrameFails | mentor_report.py:570-597 | the team frame fails exactly when no header is a team metric, there are no records, or a dimension has no column |
| MentorMain.BuildTeamFrame | mentor_report.py:568-597 | the steps of `main` up to the team frame |
| MentorMain.MentorMain | mentor_report.py:559-603 | the whole run equals its specification |
| ClientReport.TeamFeedbackColumn | client_report.py:58 | matches exactly the headers `<letter>_AdditionalFeedback` |
| ClientReport.CandidateColumn | client_report.py:77-81 | a candidate exactly for a header ending in `_Overall_1` |
| ClientReport.CandidateColumnOf | client_report.py:78 | a candidate name without an underscore comes back whole |
| ClientReport.CandidateColumnRepeated | client_report.py:78 | `replace` removes every occurrence: `A_Overall_1_Overall_1` names `A` |
| ClientReport.DetectClientColumns | client_report.py:60-81 | the detection loop and the candidate comprehension build the three column maps |
| ClientReport.ClientEvaluator | client_report.py:90-92 | the stripped `ClientName`, or `Reviewer_<ResponseId>` when it is empty or "nan"; never empty or "nan" |
| ClientReport.ClientFeedback | client_report.py:115-119 | empty without a feedback column or for an empty cell, otherwise the cell's text |
| ClientReport.TeamRecord | client_report.py:96-138 | no record exactly when no metric parses; otherwise it is the team's and the client's record, scored by the mean |
| ClientReport.ParseTeam | client_report.py:98-138 | the loop over a team's metrics and candidates |
| ClientReport.RowClientRecords | client_report.py:96-138 | the loop over the teams of a row |
| ClientReport.BuildClientRecords | client_report.py:86-138 | the loop over the rows builds `long_records` |
| ClientReport.RowRecordsEmpty | client_report.py:110-111 | a row adds records exactly when some team metric parses in it |
| ClientReport.ClientRecordsEmpty | client_report.py:140-142 | no records exactly when no row rates any team |
| ClientReport.ClientRecordsFromRows | client_report.py:88-138 | every record is a team of a row, rated by that row's client, which is never empty or "nan" |
| ClientReport.BestMode | client_report.py:153 | the candidate chosen is at least as frequent as every other, and the smallest among equals |
| ClientReport.Mode | client_report.py:153 | `mode().iloc[0]` is a most frequent value, the smallest among the most frequent |
| ClientReport.OrgOf | client_report.py:149-155 | no organization exactly when none of the team's records names one; otherwise their mode: a name at least as frequent as any other, and the smallest among equally frequent ones |
| ClientReport.ClientLeTotal | client_report.py:160-162 | the (team, client, time) order is a total preorder |
| ClientReport.WeightedRows | client_report.py:176-180 | one weighted row per (team, client) pair |
| ClientReport.LatestOfPair | client_report.py:160-172 | the record the sort puts last has the greatest timestamp |
| ClientReport.PairWeightedLatest | client_report.py:164-180 | a pair's weighted score is its lone score, or 0.7 on its latest record and 0.3 on the mean of the others |
| ClientReport.TeamStatsOf | client_report.py:185-196 | both percentages lie in [0, 100]; the reviewer count is the number of distinct clients |
| ClientReport.WeightedRowsPairs | client_report.py:176-180 | each (team, client) pair is named once |
| ClientReport.ReviewerCountIsRows | client_report.py:193 | `Reviewer_Count` is the number of the team's weighted rows |
| ClientReport.TimeLeTotal | client_report.py:216 | time order is a total preorder |
| ClientReport.WeightedOverall | client_report.py:219-226 | a lone score unrounded; otherwise the 0.7/0.3 value rounded to three places |
| ClientReport.ClientBlocks | client_report.py:215-243 | one block per (team, client) pair |
| ClientReport.TimeSortKeepsPairs | client_report.py:216-217 | within a pair, sorting by time gives the same order as the (team, client, time) sort |
| ClientReport.BlockMatchesWeighted | client_report.py:219-226 | a block's `weighted_overall` is the pair's weighted score, rounded to three places when there are several |
| ClientReport.ClientColumn | client_report.py:245-247 | starts with `Client_` and holds no space |
| ClientReport.ReplaceSpaces | client_report.py:246 | replacing spaces by underscores leaves no space |
| ClientReport.ClientColumnOf | client_report.py:246 | a name without whitespace keeps itself after `Client_` |
| ClientReport.TeamClients | client_report.py:249-257 | one entry per client column of the team, each once |
| ClientReport.TeamClientsFirst | client_report.py:254 | `aggfunc="first"`: the first block of a client column is kept |
| ClientReport.TeamRows | client_report.py:185-210 | one team row per team with weighted rows |
| ClientReport.ClientReportOf | client_report.py:50-52 | no `RecordedDate` column fails with `KeyError` |
| ClientReport.ClientReportFails | client_report.py:140-142 | the run fails exactly when there is no timestamp column or no row rates any team |
| ClientReport.TeamRowsAt | client_report.py:185-273 | each row is its team's: `Organization` is the mode of its records' organizations; `Avg_Score`, `Pct_Above_Threshold` and `Pct_Below_Threshold` are the mean of the clients' weighted scores and the shares at or above `high` and below `low`, each rounded to two places; the action is the score rule on the unrounded mean; every client counts once |
| ClientReport.ClientMain | client_report.py:28-278 | the whole run equals its specification |
| Report.Filled | report.py:39 | after `fillna("")` no cell is empty, and a non-empty cell is unchanged |
| Report.ExpandedSkipsFirstRows | report.py:45-47 | the records are those of the rows after the first two |
| Report.ExpandResponses | report.py:41-84 | the loop over the rows equals its specification |
| Report.ExpandRow | report.py:49-81 | the column loop of one row equals its specification |
| Report.RowMembersNames | report.py:52-81 | a row's records are the runs of consecutive kept members, named members only |
| Report.RowMembersCopyRow | report.py:64-76 | every record copies the row's reviewer, team, director comment and time |
| Report.FreshName | report.py:71 | a fresh record names its member |
| Report.FreshCopiesRow | report.py:69-76 | a fresh record copies the row's reviewer, team, director comment and time |
| Report.WithoutSelf | report.py:90 | a record is kept exactly when its reviewer differs from its name, and only records of the input are kept |
| Report.WithoutSelfIsCaseSensitive | report.py:90 | the comparison is exact: "bob" reviewing "Bob" stays |
| Report.TimeLeTotal | report.py:93 | time order is a total preorder |
| Report.SkillWeighted | report.py:102-105 | a weighted skill is missing exactly when the latest value is, or no earlier value is present |
| Report.SkillWeightedAllPresent | report.py:102-105 | with every value present this is the 0.7/0.3 recency rule |
| Report.WeightedSkill | report.py:99-100 | a lone record keeps its value |
| Report.WeightedSkillLatest | report.py:92-105 | the latest record gets 0.7 and the mean of the others 0.3, whatever the input order |
| Report.Weighted | report.py:90-113 | one row per (member, reviewer) pair, none a self evaluation |
| Report.Flatten | report.py:123-124 | three values per row |
| Report.SummarizeMember | report.py:122-128 | both shares lie in [0, 100]; the average exists exactly when every value does |
| Report.SummaryShares | report.py:127-128 | the shares above 8 and below 5 add up to at most 100 |
| Report.ThresholdsAreStrict | report.py:127-128 | exactly 8 is not above 8 and exactly 5 is not below 5 |
| Report.MissingScoresCount | report.py:126-128 | a missing value removes the average but counts in the divisor of the shares |
| Utils.FlowId | src/utils.py:9 | `FL_` followed by digits |
| Utils.FlowIdInjective | src/utils.py:9 | different counts give different identifiers |
| Utils.FlowIds.constructor | src/utils.py:5-6 | a new counter starts at 1 |
| Utils.FlowIds.Next | src/utils.py:7-9 | the count grows by exactly one and the identifier names the new count |
| Utils.NextIds | src/utils.py:7-9 | n calls name the next n counts, no two alike |
| Utils.FirstFlowIds | src/utils.py:5-9 | a fresh counter hands out `FL_2`, then `FL_3` |
| Utils.AlphabetChar | src/utils.py:14 | every position names a letter or digit |
| Utils.AlphabetIndex | src/utils.py:14 | every letter or digit has its position |
| Utils.RandomId | src/utils.py:13-14 | the prefix, `_`, then eight letters or digits |
| Utils.RandomIdCovers | src/utils.py:13-14 | every identifier of that shape can be drawn |

## Left out

- File I/O, `argparse`, printing, `sys.exit` plumbing and the CSV writers are not modelled. Each exit is an `Err` result with the printed message.
- `mentor_report.py`'s `load_csv` raises `KeyError` when there is no `RecordedDate` column (mentor_report.py:62-63). This is not modelled: the mentor model takes the frame after loading. The client script's check of the same column is modelled by ClientReport.ClientReportOf.
- The loaders' `read_csv(skiprows=[1, 2])` is not modelled. A frame is given as headers and rows.
- `load_mentor_map` is not modelled. The mentor map is a parameter.
- Datetime parsing (`to_datetime(errors="coerce")`) and NaT ordering are not modelled. Timestamps are integers. In `report.py`, a record without a parsed time sorts as time 0.
- Python floats are modelled as exact reals. `round` is half-to-even on reals, so binary representation effects are out.
- `float(text)` accepts decimal literals with optional sign and whitespace. Exponents, `inf`, `nan` and underscores are not modelled.
- Regular expressions are modelled as string functions for the specific patterns used. Headers are cleaned first, so they hold no line break.
- `str.lower` is modelled on ASCII letters only. Non-ASCII letters are left as they are. `str.strip` and `\s` use Python's full whitespace set.
- pandas `groupby` emits keys in sorted order; the model takes first-appearance order. This only affects the order of output rows, not any value.
- Single-key `sort_values` (quicksort) is modelled as a stable sort. Multi-key pandas sorts are stable in the source too.
- `grade.py` iterates a `set` of columns, whose order is unspecified. Grade.StudentScoreOrderFree shows that the values and the score do not depend on it.
- The JSON columns are not modelled:
  - `grade.py`'s `Raw_Evaluations` and `Feedback_Summary` (grade.py:182-237), and their merges on `student` (grade.py:269-270). Only the feedback summary's failure, when no kept record has feedback, is modelled;
  - `client_report.py`'s `json.dumps` of the blocks (client_report.py:259-264) and the move of the `Organization` column (client_report.py:275-278);
  - `mentor_report.py`'s `json.dumps`/`json.loads` of the histories and blocks (mentor_report.py:277-282, 295, 420-424, 539-549). The histories and blocks are used as values.
- Client blocks keep each evaluation's score and candidate scores. The string form of its timestamp is not modelled.
- Organization values are compared as text. A numeric organization cell is taken as its text.
- `report.py`'s treatment of `0` and `""` covers numeric zero and empty text. Other falsy values (`False`) are not modelled.
- `report.py:115-189` does not parse as Python: `summarize` has no return and is followed by a duplicated block. `summarize_member`'s arithmetic (report.py:122-128) is modelled on its own. The merge with `Team` (report.py:115-120), `raw_dict`, the `.1f%` formatting and the grouping of lines 147-152 are not.
- The `Plotter` class and `process_survey` (report.py:192-257) are plotting and I/O, and are not modelled.
- `random.choices` in `get_random_id` is modelled as eight given draws. Utils.RandomIdCovers shows that every identifier of the shape can be drawn.
- Weighting.Recency: its own contract states only the single-score case. The two-or-more case is stated by Weighting.RecencyOfParts and Weighting.RecencyOfSorted.
- MentorStudents.StudentLevel: its own contract states only the empty case. Failure and success are stated by MentorStudents.StudentLevelFails, MentorStudents.StudentRowsSpec and MentorStudents.TeamStudentRowsFail.
- MentorReport.TeamRowDimensionAvg, MentorReport.FinalTeamRow, MentorReport.FinalTeamDf, MentorStudents.TeamPartOf, MentorStudents.StudentLevel, MentorMain.MentorReportOf, MentorMain.TeamFrameOf, MentorMain.MentorMain: these use the corrected weightings of both findings (MentorReport.GenericWeighted and MentorReport.DimensionAvg). The source differs on two inputs. An empty dimension history gives a NaN weighting, so `Dimension_Weighted_Avg` and `Team_Avg_Score` are NaN. Four weightings of 0.0 give a `Dimension_Weighted_Avg` of None where the model gives 0.0.
- The exception texts of grade.py's two pandas failures (Grade.NoEvaluations and Grade.NoFeedback) are written as pandas 2 words them. The model promises only that the run fails and on which inputs.
- MentorMain.TeamFrameOf: its own contract names the first two errors. The third, a missing dimension column, is stated by MentorMain.TeamFrameFails.

## Findings

| source | as written | input that shows it | evidently intended | confidence | as-written member | corrected member |
|---|---|---|---|---|---|---|
| mentor_report.py:308-311 | `if latest_w == prev_w: return np.mean(values)` runs before `if not values: return None`. With the equal team weights, an empty history gives NaN instead of None. A team that lacks a dimension other teams rated has the history `[]` (mentor_report.py:277-282). Its weighting is then NaN and is counted as present, so `Team_Avg_Score` and `Final_Individual_Score` become NaN | `values = []`, `latest_w = prev_w = 0.5` | `None` for an empty list, so the dimension is skipped | not executed | MentorReport.GenericWeightedAsWritten (MentorReport.GenericWeightedCorrects shows the NaN) | MentorReport.GenericWeighted |
| mentor_report.py:381-386 | `Dimension_Weighted_Avg` is guarded by `any([...])` over the dimension weightings, which treats a weighting of `0.0` as absent. A team whose four dimension weightings are all 0 gets None instead of 0.0 | dimension weightings `[0.0, 0.0, 0.0, 0.0]` | the mean of the weightings that are not None, None only when all are None (the rule mentor_report.py:443-444 applies to the same values) | not executed | MentorReport.DimensionAvgAsWritten (MentorReport.DimensionAvgAllZero shows the input) | MentorReport.DimensionAvg |
