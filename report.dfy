/** The peer-evaluation summary: how a wide survey export becomes one record
    per (reviewer, member) run of columns, the removal of self evaluations,
    the recency weighting of each (member, reviewer), and the score shares of
    one member. */
module Report {
  import opened Wrappers
  import opened Text
  import opened Dict
  import opened Stats
  import opened Seqs
  import opened Table
  import opened Grouping
  import opened Weighting
  import opened Rounding

  const MetadataCols: seq<string> := [
    "StartDate", "EndDate", "Status", "IPAddress", "Progress",
    "Duration (in seconds)", "Finished", "RecordedDate", "ResponseId",
    "RecipientLastName", "RecipientFirstName", "RecipientEmail",
    "ExternalReference", "LocationLatitude", "LocationLongitude",
    "DistributionChannel", "UserLanguage"]

  const DetailsCols: seq<string> := ["Name", "DukeID", "Email", "Team", "DirectorComment"]

  /** The weights of `weighted_scores`. */
  const ReportLastWeight := 0.7
  const ReportPrevWeight := 0.3

  /** A field of a member record: a cell value, or the recording time. */
  datatype Field = Val(cell: Cell) | At(time: int)

  type MemberData = Dict<string, Field>

  const Blank := Val(Str(""))

  /** `MEMBER_TEMPLATE`. */
  const MemberTemplate: MemberData := [
    ("Name", Blank), ("Team", Blank), ("Communication", Blank), ("Technical", Blank),
    ("Reliability", Blank), ("Feedback", Blank), ("Reviewer", Blank),
    ("DirectorComment", Blank), ("RecordedDate", Blank)]

  /** `row[col]` and `row.get(col, "")` on the frame after `fillna("")`. */
  function Filled(row: Row, col: string): (c: Cell)
    ensures c != Missing
    ensures CellAt(row, col) != Missing ==> c == CellAt(row, col)
  {
    var c := CellAt(row, col);
    if c == Missing then Str("") else c
  }

  /** `val in [0, "", None]`: the number zero or empty text. */
  predicate Ignored(c: Cell) {
    c == Missing || c == Str("") || (c.Num? && c.value == 0.0)
  }

  /** Python truthiness of a field value. */
  predicate Truthy(f: Field) {
    match f
    case Val(c) => !Ignored(c)
    case At(_) => true
  }

  /** A metadata or details header, which never addresses a member. */
  predicate Reserved(col: string) {
    col in MetadataCols + DetailsCols
  }

  /** How a header addresses a member: the first two `_`-separated parts of a
      header that is not reserved and has at least two. */
  function Address(col: string): Option<(string, string)> {
    if Reserved(col) then None
    else
      var parts := Split(col, '_');
      if |parts| < 2 then None else Some((parts[0], parts[1]))
  }

  /** The state of the column loop of one row: the member of the open record
      (`curr_name`), the open record, and the records flushed so far. */
  datatype Scan = Scan(current: Option<string>, data: MemberData, members: seq<MemberData>)

  const Start := Scan(None, MemberTemplate, [])

  /** Assignments made in turn. */
  function PutAll(d: MemberData, updates: seq<(string, Field)>): MemberData
    decreases |updates|
  {
    if updates == [] then d else PutAll(Put(d, updates[0].0, updates[0].1), updates[1..])
  }

  /** The fields a fresh record takes from the row, in assignment order. */
  function RowUpdates(row: Row, member: string): seq<(string, Field)> {
    [("Reviewer", Val(Filled(row, "Name"))), ("Name", Val(Str(member))),
     ("Team", Val(Filled(row, "Team"))), ("DirectorComment", Val(Filled(row, "DirectorComment"))),
     ("RecordedDate", At(row.recorded))]
  }

  /** The fresh record for `member`: a copy of the template filled from the row. */
  function Fresh(row: Row, member: string): MemberData {
    PutAll(MemberTemplate, RowUpdates(row, member))
  }

  /** The records flushed when another member's value comes: the open one
      joins them when its member is not empty (`if curr_name:`). */
  function Flushed(s: Scan): seq<MemberData> {
    if s.current.Some? && s.current.value != "" then s.members + [s.data] else s.members
  }

  /** A kept value for another member than the open one flushes the open
      record and opens a fresh one. */
  function Open(row: Row, s: Scan, member: string): Scan {
    if s.current == Some(member) then s else Scan(Some(member), Fresh(row, member), Flushed(s))
  }

  /** The value is stored under its skill in the open record. */
  function Store(s: Scan, skill: string, val: Cell): Scan {
    s.(data := Put(s.data, skill, Val(val)))
  }

  /** One header of one row. */
  function Step(row: Row, s: Scan, col: string): Scan {
    match Address(col)
    case None => s
    case Some((member, skill)) =>
      if Ignored(Filled(row, col)) then s else Store(Open(row, s, member), skill, Filled(row, col))
  }

  function ScanColumns(row: Row, columns: seq<string>): Scan {
    if columns == [] then Start
    else Step(row, ScanColumns(row, columns[..|columns| - 1]), columns[|columns| - 1])
  }

  /** The open record's `Name` is truthy. */
  predicate NameTruthy(d: MemberData) {
    match Get(d, "Name")
    case Some(f) => Truthy(f)
    case None => false
  }

  /** The records of one row: those flushed, then the open one if it has a name. */
  function RowMembers(row: Row, columns: seq<string>): seq<MemberData> {
    var s := ScanColumns(row, columns);
    s.members + if NameTruthy(s.data) then [s.data] else []
  }

  /** `expand_responses` as a specification: rows 0 and 1 give nothing, every
      later row its records in turn. */
  function Expanded(rows: seq<Row>, columns: seq<string>): seq<MemberData> {
    if |rows| <= 2 then []
    else Expanded(rows[..|rows| - 1], columns) + RowMembers(rows[|rows| - 1], columns)
  }

  /** The records are those of the rows after the first two: what the first
      two rows hold does not matter. */
  lemma {:induction false} ExpandedSkipsFirstRows(rows: seq<Row>, columns: seq<string>)
    requires |rows| >= 2
    ensures Expanded(rows, columns) == FlatMap(rows[2..], (row: Row) => RowMembers(row, columns))
  {
    var f := (row: Row) => RowMembers(row, columns);
    var tail := rows[2..];
    if |rows| > 2 {
      var front := rows[..|rows| - 1];
      ExpandedSkipsFirstRows(front, columns);
      assert tail[..|tail| - 1] == front[2..];
      assert tail[|tail| - 1] == rows[|rows| - 1];
      calc {
        Expanded(rows, columns);
        Expanded(front, columns) + f(rows[|rows| - 1]);
        FlatMap(front[2..], f) + f(rows[|rows| - 1]);
        FlatMap(tail, f);
      }
    } else {
      assert tail == [];
    }
  }

  /** `expand_responses`. */
  method ExpandResponses(frame: Frame) returns (members: seq<MemberData>)
    ensures members == Expanded(frame.rows, frame.columns)
  {
    members := [];
    for i := 0 to |frame.rows|
      invariant members == Expanded(frame.rows[..i], frame.columns)
    {
      assert frame.rows[..i + 1][..i] == frame.rows[..i];
      if i < 2 {
        continue;
      }
      var found := ExpandRow(frame.rows[i], frame.columns);
      assert Expanded(frame.rows[..i + 1], frame.columns) == members + found;
      members := members + found;
    }
    assert frame.rows[..|frame.rows|] == frame.rows;
  }

  /** The column loop of `expand_responses` for one row. */
  method ExpandRow(row: Row, columns: seq<string>) returns (found: seq<MemberData>)
    ensures found == RowMembers(row, columns)
  {
    found := [];
    var currName: Option<string> := None;
    var memberData := MemberTemplate;
    for j := 0 to |columns|
      invariant Scan(currName, memberData, found) == ScanColumns(row, columns[..j])
    {
      var col := columns[j];
      ghost var s := Scan(currName, memberData, found);
      assert columns[..j + 1][..j] == columns[..j];
      if Reserved(col) {
        continue;
      }
      var parts := Split(col, '_');
      if |parts| < 2 {
        continue;
      }
      var member, skill := parts[0], parts[1];
      var val := Filled(row, col);
      if !Ignored(val) {
        if currName != Some(member) {
          if currName.Some? && currName.value != "" {
            found := found + [memberData];
          }
          currName := Some(member);
          memberData := Fresh(row, member);
        }
        assert Scan(currName, memberData, found) == Open(row, s, member);
        memberData := Put(memberData, skill, Val(val));
      }
    }
    assert columns[..|columns|] == columns;
    if NameTruthy(memberData) {
      found := found + [memberData];
    }
  }

  // ---------------------------------------------------------------------
  // What a row's records are
  // ---------------------------------------------------------------------

  /** The member a header opens or continues in a row, if its value is kept. */
  function KeptMember(row: Row, col: string): seq<string> {
    match Address(col)
    case None => []
    case Some((member, _)) => if Ignored(Filled(row, col)) then [] else [member]
  }

  /** The members of the kept values of a row, header by header. */
  function KeptMembers(row: Row, columns: seq<string>): seq<string> {
    FlatMap(columns, (col: string) => KeptMember(row, col))
  }

  /** Consecutive repeats collapsed into one. */
  function Runs(s: seq<string>): (r: seq<string>)
    ensures r == [] <==> s == []
    ensures s != [] ==> r[|r| - 1] == s[|s| - 1]
  {
    if s == [] then [] else Extend(Runs(s[..|s| - 1]), s[|s| - 1])
  }

  /** One more member: a repeat of the last run, or a new run. */
  function Extend(r: seq<string>, x: string): (r': seq<string>)
    ensures r' != [] && r'[|r'| - 1] == x
  {
    if r != [] && r[|r| - 1] == x then r else r + [x]
  }

  predicate NonEmpty(s: string) {
    s != ""
  }

  /** The `Name` text of a record. */
  function NameOf(d: MemberData): string {
    var f := Get(d, "Name");
    if f.Some? && f.value.Val? && f.value.cell.Str? then f.value.cell.s else ""
  }

  /** No kept header has one of `fields` as its skill. */
  predicate SkillsAvoid(columns: seq<string>, fields: seq<string>) {
    forall i :: 0 <= i < |columns| && Address(columns[i]).Some? ==> Address(columns[i]).value.1 !in fields
  }

  /** With distinct keys, each assignment decides its key's value. */
  lemma {:induction false} GetPutAll(d: MemberData, updates: seq<(string, Field)>, i: nat)
    requires i < |updates| && UniqueKeys(updates)
    ensures Get(PutAll(d, updates), updates[i].0) == Some(updates[i].1)
    decreases |updates|
  {
    var d' := Put(d, updates[0].0, updates[0].1);
    var rest := updates[1..];
    assert forall j :: 0 <= j < |rest| ==> rest[j] == updates[j + 1];
    if i == 0 {
      GetPut(d, updates[0].0, updates[0].1, updates[0].0);
      PutAllOther(d', rest, updates[0].0);
    } else {
      assert UniqueKeys(rest);
      GetPutAll(d', rest, i - 1);
    }
  }

  /** Assignments to other keys leave a key alone. */
  lemma {:induction false} PutAllOther(d: MemberData, updates: seq<(string, Field)>, k: string)
    requires forall j :: 0 <= j < |updates| ==> updates[j].0 != k
    ensures Get(PutAll(d, updates), k) == Get(d, k)
    decreases |updates|
  {
    if updates != [] {
      GetPut(d, updates[0].0, updates[0].1, k);
      PutAllOther(Put(d, updates[0].0, updates[0].1), updates[1..], k);
    }
  }

  lemma FreshName(row: Row, member: string)
    ensures Get(Fresh(row, member), "Name") == Some(Val(Str(member)))
  {
    RowUpdatesUnique(row, member);
    GetPutAll(MemberTemplate, RowUpdates(row, member), 1);
  }

  /** What the column loop keeps track of, stated on the kept members. */
  ghost predicate ScanMatches(s: Scan, kept: seq<string>) {
    && (s.current.None? <==> kept == [])
    && (s.current.None? ==> s.members == [] && s.data == MemberTemplate)
    && (s.current.Some? ==> s.current.value == kept[|kept| - 1] && Get(s.data, "Name") == Some(Val(Str(s.current.value))))
    && Map(s.members, NameOf) + OpenName(s) == Filter(Runs(kept), NonEmpty)
  }

  /** The name of the open record, when it will be flushed. */
  function OpenName(s: Scan): seq<string> {
    if s.current.Some? && s.current.value != "" then [s.current.value] else []
  }

  /** A repeat of the last member extends its run. */
  lemma RunsRepeat(kept: seq<string>, x: string)
    requires kept != [] && kept[|kept| - 1] == x
    ensures Runs(kept + [x]) == Runs(kept)
  {
    var s := kept + [x];
    assert s[..|s| - 1] == kept;
    assert Runs(s) == Extend(Runs(kept), x);
  }

  /** Another member starts a run. */
  lemma RunsNew(kept: seq<string>, x: string)
    requires kept == [] || kept[|kept| - 1] != x
    ensures Runs(kept + [x]) == Runs(kept) + [x]
  {
    var s := kept + [x];
    assert s[..|s| - 1] == kept;
    assert Runs(s) == Extend(Runs(kept), x);
  }

  lemma OpenNames(row: Row, s: Scan, kept: seq<string>, member: string)
    requires ScanMatches(s, kept)
    ensures ScanMatches(Open(row, s, member), kept + [member])
  {
    var kept' := kept + [member];
    if s.current == Some(member) {
      RunsRepeat(kept, member);
    } else {
      OpenOther(row, s, kept, member);
    }
  }

  lemma OpenOther(row: Row, s: Scan, kept: seq<string>, member: string)
    requires ScanMatches(s, kept) && s.current != Some(member)
    ensures ScanMatches(Open(row, s, member), kept + [member])
  {
    FreshName(row, member);
    OpenWith(s, kept, member, Fresh(row, member));
  }

  lemma OpenWith(s: Scan, kept: seq<string>, member: string, d: MemberData)
    requires ScanMatches(s, kept) && s.current != Some(member)
    requires Get(d, "Name") == Some(Val(Str(member)))
    ensures ScanMatches(Scan(Some(member), d, Flushed(s)), kept + [member])
  {
    var t := Scan(Some(member), d, Flushed(s));
    assert (kept + [member])[|kept|] == member;
    FlushedNames(s);
    RunsNew(kept, member);
    FilterSnoc(Runs(kept), member, NonEmpty);
    calc {
      Map(Flushed(s), NameOf) + OpenName(t);
      Map(s.members, NameOf) + OpenName(s) + OpenName(t);
      Filter(Runs(kept), NonEmpty) + OpenName(t);
      Filter(Runs(kept) + [member], NonEmpty);
    }
  }

  /** The flushed records name the earlier records and the open one, when it
      has a member. */
  lemma FlushedNames(s: Scan)
    requires s.current.Some? ==> Get(s.data, "Name") == Some(Val(Str(s.current.value)))
    ensures Map(Flushed(s), NameOf) == Map(s.members, NameOf) + OpenName(s)
  {
    if s.current.Some? && s.current.value != "" {
      MapAppend(s.members, [s.data], NameOf);
    }
  }

  lemma StoreNames(s: Scan, kept: seq<string>, skill: string, val: Cell)
    requires ScanMatches(s, kept) && s.current.Some? && skill != "Name"
    ensures ScanMatches(Store(s, skill, val), kept)
  {
    GetPut(s.data, skill, Val(val), "Name");
  }

  /** One header keeps the correspondence. */
  lemma StepNames(row: Row, s: Scan, kept: seq<string>, col: string)
    requires ScanMatches(s, kept)
    requires Address(col).Some? ==> Address(col).value.1 != "Name"
    ensures ScanMatches(Step(row, s, col), kept + KeptMember(row, col))
  {
    if KeptMember(row, col) == [] {
      assert Step(row, s, col) == s;
      assert kept + KeptMember(row, col) == kept;
    } else {
      var (member, skill) := Address(col).value;
      assert KeptMember(row, col) == [member];
      assert Step(row, s, col) == Store(Open(row, s, member), skill, Filled(row, col));
      OpenNames(row, s, kept, member);
      StoreNames(Open(row, s, member), kept + [member], skill, Filled(row, col));
    }
  }

  lemma {:induction false} ScanNames(row: Row, columns: seq<string>)
    requires SkillsAvoid(columns, ["Name"])
    ensures ScanMatches(ScanColumns(row, columns), KeptMembers(row, columns))
  {
    if columns != [] {
      var front := columns[..|columns| - 1];
      var col := columns[|columns| - 1];
      assert SkillsAvoid(front, ["Name"]) by {
        forall i | 0 <= i < |front| ensures front[i] == columns[i] { }
      }
      ScanNames(row, front);
      assert KeptMembers(row, columns) == KeptMembers(row, front) + KeptMember(row, col);
      StepNames(row, ScanColumns(row, front), KeptMembers(row, front), col);
    }
  }

  /** The records of a row are the runs of consecutive kept values of one
      member, in header order, except runs of the empty member name: a value
      for another member closes the record, and a member that comes back gets
      a record of its own. */
  lemma RowMembersNames(row: Row, columns: seq<string>)
    requires SkillsAvoid(columns, ["Name"])
    ensures Map(RowMembers(row, columns), NameOf) == Filter(Runs(KeptMembers(row, columns)), NonEmpty)
  {
    ScanNames(row, columns);
    FinalNames(ScanColumns(row, columns), KeptMembers(row, columns));
  }

  /** The template has no name. */
  lemma TemplateUnnamed()
    ensures !NameTruthy(MemberTemplate)
  {
    assert Get(MemberTemplate, "Name") == Some(Blank);
  }

  /** The open record is kept at the end exactly when it would be flushed. */
  lemma FinalNames(s: Scan, kept: seq<string>)
    requires ScanMatches(s, kept)
    ensures Map(s.members + if NameTruthy(s.data) then [s.data] else [], NameOf) == Filter(Runs(kept), NonEmpty)
  {
    if s.current.None? {
      TemplateUnnamed();
      assert s.members + [] == [];
    } else {
      var v := s.current.value;
      assert Get(s.data, "Name") == Some(Val(Str(v)));
      assert NameTruthy(s.data) <==> v != "";
      assert OpenName(s) == if v != "" then [v] else [];
      if v != "" {
        MapAppend(s.members, [s.data], NameOf);
        assert NameOf(s.data) == v;
      } else {
        assert s.members + [] == s.members;
      }
    }
  }

  /** The row fields a record copies. */
  ghost predicate CopiesRow(row: Row, d: MemberData) {
    && Get(d, "Reviewer") == Some(Val(Filled(row, "Name")))
    && Get(d, "Team") == Some(Val(Filled(row, "Team")))
    && Get(d, "DirectorComment") == Some(Val(Filled(row, "DirectorComment")))
    && Get(d, "RecordedDate") == Some(At(row.recorded))
  }

  const RowFields: seq<string> := ["Reviewer", "Team", "DirectorComment", "RecordedDate"]

  /** The fields of a fresh record are assigned once each. */
  lemma RowUpdatesUnique(row: Row, member: string)
    ensures UniqueKeys(RowUpdates(row, member))
  {
  }

  lemma FreshCopiesRow(row: Row, member: string)
    ensures CopiesRow(row, Fresh(row, member))
  {
    var ups := RowUpdates(row, member);
    RowUpdatesUnique(row, member);
    GetPutAll(MemberTemplate, ups, 0);
    GetPutAll(MemberTemplate, ups, 2);
    GetPutAll(MemberTemplate, ups, 3);
    GetPutAll(MemberTemplate, ups, 4);
  }

  /** Every record opened in the scan copies the row, and so does the open one. */
  ghost predicate ScanCopies(row: Row, s: Scan) {
    && (forall i :: 0 <= i < |s.members| ==> CopiesRow(row, s.members[i]))
    && (s.current.Some? ==> CopiesRow(row, s.data))
    && (s.current.None? ==> s.data == MemberTemplate)
  }

  lemma OpenCopies(row: Row, s: Scan, member: string)
    requires ScanCopies(row, s)
    ensures ScanCopies(row, Open(row, s, member))
  {
    if s.current != Some(member) {
      FreshCopiesRow(row, member);
    }
  }

  lemma StoreCopies(row: Row, s: Scan, skill: string, val: Cell)
    requires ScanCopies(row, s) && s.current.Some? && skill !in RowFields
    ensures ScanCopies(row, Store(s, skill, val))
  {
    forall f | f in RowFields ensures Get(Put(s.data, skill, Val(val)), f) == Get(s.data, f) {
      GetPut(s.data, skill, Val(val), f);
    }
    assert "Reviewer" in RowFields && "Team" in RowFields && "DirectorComment" in RowFields && "RecordedDate" in RowFields;
  }

  lemma {:induction false} ScanCopiesRow(row: Row, columns: seq<string>)
    requires SkillsAvoid(columns, RowFields)
    ensures ScanCopies(row, ScanColumns(row, columns))
  {
    if columns != [] {
      var front := columns[..|columns| - 1];
      var col := columns[|columns| - 1];
      assert SkillsAvoid(front, RowFields) by {
        forall i | 0 <= i < |front| ensures front[i] == columns[i] { }
      }
      ScanCopiesRow(row, front);
      var s := ScanColumns(row, front);
      if Address(col).Some? && !Ignored(Filled(row, col)) {
        var (member, skill) := Address(col).value;
        OpenCopies(row, s, member);
        StoreCopies(row, Open(row, s, member), skill, Filled(row, col));
      }
    }
  }

  /** Every record of a row names the row's reviewer, team, director comment
      and time. */
  lemma RowMembersCopyRow(row: Row, columns: seq<string>, i: nat)
    requires SkillsAvoid(columns, RowFields)
    requires i < |RowMembers(row, columns)|
    ensures CopiesRow(row, RowMembers(row, columns)[i])
  {
    ScanCopiesRow(row, columns);
    var s := ScanColumns(row, columns);
    if s.current.None? {
      TemplateUnnamed();
    }
  }

  // ---------------------------------------------------------------------
  // Self evaluations and the weighting
  // ---------------------------------------------------------------------

  /** `long_df["Reviewer"] != long_df["Name"]`: an exact comparison. */
  predicate NotSelf(d: MemberData) {
    Get(d, "Reviewer") != Get(d, "Name")
  }

  function WithoutSelf(members: seq<MemberData>): (kept: seq<MemberData>)
    ensures forall i :: 0 <= i < |kept| ==> Get(kept[i], "Reviewer") != Get(kept[i], "Name")
    ensures multiset(kept) <= multiset(members)
    ensures forall m :: m in members && Get(m, "Reviewer") != Get(m, "Name") ==> m in kept
  {
    FilterSubset(members, NotSelf);
    FilterKeepsAll(members, NotSelf);
    Filter(members, NotSelf)
  }

  /** A record kept only because of case: "bob" reviewing "Bob" stays. */
  lemma WithoutSelfIsCaseSensitive()
    ensures var d := [("Name", Val(Str("Bob"))), ("Reviewer", Val(Str("bob")))];
      WithoutSelf([d]) == [d]
  {
    var d := [("Name", Val(Str("Bob"))), ("Reviewer", Val(Str("bob")))];
    assert Get(d, "Name") == Some(Val(Str("Bob")));
    assert Get(d, "Reviewer") == Some(Val(Str("bob")));
    assert Filter([d], NotSelf) == Filter([d][..0], NotSelf) + [d];
  }

  /** `pd.to_numeric(..., errors="coerce")` of one skill of a record. */
  function SkillValue(d: MemberData, skill: string): Option<real> {
    var f := Get(d, skill);
    if f.Some? && f.value.Val? then AsFloat(f.value.cell) else None
  }

  /** The `RecordedDate` a record sorts by. */
  function TimeOf(d: MemberData): int {
    var f := Get(d, "RecordedDate");
    if f.Some? && f.value.At? then f.value.time else 0
  }

  predicate TimeLe(a: MemberData, b: MemberData) {
    TimeOf(a) <= TimeOf(b)
  }

  lemma TimeLeTotal()
    ensures TotalPreorder(TimeLe)
  {
  }

  /** The values that are present, in order (what `mean` skips NaN to). */
  function Present(vals: seq<Option<real>>): (r: seq<real>)
    ensures |r| <= |vals|
    ensures (forall i :: 0 <= i < |vals| ==> vals[i].Some?) ==> |r| == |vals|
  {
    if vals == [] then []
    else Present(vals[..|vals| - 1]) + if vals[|vals| - 1].Some? then [vals[|vals| - 1].value] else []
  }

  function OrZero(o: Option<real>): real {
    if o.Some? then o.value else 0.0
  }

  /** When every value is present, they are all kept. */
  lemma {:induction false} PresentAll(vals: seq<Option<real>>)
    requires forall i :: 0 <= i < |vals| ==> vals[i].Some?
    ensures Present(vals) == Map(vals, OrZero)
  {
    if vals != [] {
      var front := vals[..|vals| - 1];
      PresentAll(front);
      assert Map(vals, OrZero) == Map(front, OrZero) + [OrZero(vals[|vals| - 1])];
    }
  }

  /** One skill of `0.7 * latest + 0.3 * previous.mean()`: missing when the
      latest value is, or when no earlier value is present. */
  function SkillWeighted(vals: seq<Option<real>>): (w: Option<real>)
    requires |vals| > 1
    ensures w.Some? <==> vals[|vals| - 1].Some? && Present(vals[..|vals| - 1]) != []
  {
    var last := vals[|vals| - 1];
    var prev := Present(vals[..|vals| - 1]);
    if last.None? || prev == [] then None
    else Some(ReportLastWeight * last.value + ReportPrevWeight * Mean(prev))
  }

  /** With every value present this is the recency weighting. */
  lemma SkillWeightedAllPresent(vals: seq<Option<real>>)
    requires |vals| > 1 && forall i :: 0 <= i < |vals| ==> vals[i].Some?
    ensures SkillWeighted(vals) == Some(Recency(Map(vals, OrZero), ReportLastWeight, ReportPrevWeight))
  {
    var front := vals[..|vals| - 1];
    PresentAll(front);
    assert Map(vals, OrZero)[..|vals| - 1] == Map(front, OrZero);
  }

  /** `weighted_scores` for one skill of one (member, reviewer) group. */
  function WeightedSkill(group: seq<MemberData>, skill: string): (w: Option<real>)
    requires |group| > 0
    ensures |group| == 1 ==> w == SkillValue(group[0], skill)
  {
    var g := SortWith(group, TimeLe);
    if |g| == 1 then SkillValue(g[0], skill)
    else SkillWeighted(Map(g, (d: MemberData) => SkillValue(d, skill)))
  }

  /** With the skill present in every record, the record with the latest
      time (the later one on ties) gets 0.7 and the mean of all the others
      0.3, whatever order they came in. */
  lemma WeightedSkillLatest(group: seq<MemberData>, skill: string)
    requires |group| > 1 && forall i :: 0 <= i < |group| ==> SkillValue(group[i], skill).Some?
    ensures var j := LatestIndex(group, TimeLe);
      var others := Map(RemoveAt(group, j), (d: MemberData) => OrZero(SkillValue(d, skill)));
      |others| > 0 && WeightedSkill(group, skill) == Some(LastAndMean(SkillValue(group[j], skill).value, others, ReportLastWeight, ReportPrevWeight))
  {
    var f := (d: MemberData) => SkillValue(d, skill);
    var h := (d: MemberData) => OrZero(SkillValue(d, skill));
    var g := SortWith(group, TimeLe);
    SortKeepsPresent(group, skill);
    var vals := Map(g, f);
    SkillWeightedAllPresent(vals);
    assert Map(vals, OrZero) == Map(g, h);
    RecencyOfSorted(group, TimeLe, h, ReportLastWeight, ReportPrevWeight);
  }

  /** Sorting keeps every record, so every value stays present. */
  lemma SortKeepsPresent(group: seq<MemberData>, skill: string)
    requires forall i :: 0 <= i < |group| ==> SkillValue(group[i], skill).Some?
    ensures forall i :: 0 <= i < |group| ==> SkillValue(SortWith(group, TimeLe)[i], skill).Some?
  {
    var g := SortWith(group, TimeLe);
    SortWithPermutes(group, TimeLe);
    forall i | 0 <= i < |group| ensures SkillValue(g[i], skill).Some? {
      assert g[i] in multiset(group);
    }
  }

  /** The three weighted skills of a group. */
  datatype Skills = Skills(communication: Option<real>, technical: Option<real>, reliability: Option<real>)

  function WeightedScores(group: seq<MemberData>): Skills
    requires |group| > 0
  {
    Skills(WeightedSkill(group, "Communication"), WeightedSkill(group, "Technical"), WeightedSkill(group, "Reliability"))
  }

  /** The (member, reviewer) of a record. */
  function PairOf(d: MemberData): (Option<Field>, Option<Field>) {
    (Get(d, "Name"), Get(d, "Reviewer"))
  }

  /** One row of `weighted`. */
  datatype WeightedRow = WeightedRow(name: Option<Field>, reviewer: Option<Field>, scores: Skills)

  /** The weighting step of `summarize`: self evaluations dropped, then one
      row per (member, reviewer) in group order. */
  function Weighted(members: seq<MemberData>): (ws: seq<WeightedRow>)
    ensures |ws| == |GroupKeys(WithoutSelf(members), PairOf)|
    ensures forall i :: 0 <= i < |ws| ==> ws[i].name != ws[i].reviewer
  {
    var filtered := WithoutSelf(members);
    var keys := GroupKeys(filtered, PairOf);
    assert forall i :: 0 <= i < |keys| ==> keys[i].0 != keys[i].1 by {
      forall i | 0 <= i < |keys| ensures keys[i].0 != keys[i].1 {
        assert keys[i] in keys;
      }
    }
    seq(|keys|, i requires 0 <= i < |keys| =>
      GroupOfKey(filtered, PairOf, keys[i]);
      WeightedRow(keys[i].0, keys[i].1, WeightedScores(Group(filtered, PairOf, keys[i]))))
  }

  // ---------------------------------------------------------------------
  // The score shares of one member
  // ---------------------------------------------------------------------

  /** `to_numpy().flatten()` of the three skill columns. */
  function Flatten(rows: seq<Skills>): (vals: seq<Option<real>>)
    ensures |vals| == 3 * |rows|
  {
    if rows == [] then []
    else
      var r := rows[|rows| - 1];
      Flatten(rows[..|rows| - 1]) + [r.communication, r.technical, r.reliability]
  }

  function StrictlyAbove(t: real): real -> bool {
    x => x > t
  }

  /** What `summarize_member` computes: the mean of all the scores rounded to
      two places (missing when a score is), and the shares of scores strictly
      above 8 and strictly below 5 among all of them. */
  datatype MemberSummary = MemberSummary(avg: Option<real>, pctAbove: real, pctBelow: real)

  function SummarizeMember(rows: seq<Skills>): (s: MemberSummary)
    requires |rows| > 0
    ensures 0.0 <= s.pctAbove <= 100.0 && 0.0 <= s.pctBelow <= 100.0
    ensures s.avg.Some? <==> AllPresent(Flatten(rows))
  {
    var vals := Flatten(rows);
    var present := Present(vals);
    PresentFull(vals);
    MemberSummary(
      if |present| == |vals| then Some(Round2(Mean(present))) else None,
      Percent(Count(present, StrictlyAbove(8.0)), |vals|),
      Percent(Count(present, Below(5.0)), |vals|))
  }

  predicate AllPresent(vals: seq<Option<real>>) {
    forall i :: 0 <= i < |vals| ==> vals[i].Some?
  }

  /** Every value is kept exactly when none is missing. */
  lemma {:induction false} PresentFull(vals: seq<Option<real>>)
    ensures |Present(vals)| == |vals| <==> AllPresent(vals)
  {
    if vals != [] {
      var front := vals[..|vals| - 1];
      PresentFull(front);
      assert forall i :: 0 <= i < |front| ==> front[i] == vals[i];
    }
  }

  /** Two masks that never hold together count at most every value. */
  lemma {:induction false} CountDisjoint(s: seq<real>, p: real -> bool, q: real -> bool)
    requires forall x :: !(p(x) && q(x))
    ensures Count(s, p) + Count(s, q) <= |s|
  {
    if s != [] {
      CountDisjoint(s[..|s| - 1], p, q);
    }
  }

  /** Two shares of disjoint counts add up to at most 100. */
  lemma PercentSum(a: nat, b: nat, n: nat)
    requires 0 < n && a + b <= n
    ensures Percent(a, n) + Percent(b, n) <= 100.0
  {
    var z := n as real;
    var x, y := a as real / z, b as real / z;
    assert x * z == a as real && y * z == b as real;
    assert (x + y - 1.0) * z == (a + b) as real - z;
    ProductSign(x + y - 1.0, z);
    assert Percent(a, n) + Percent(b, n) == (x + y) * 100.0;
  }

  /** No score is both above 8 and below 5, so the two shares add up to at
      most 100. */
  lemma SummaryShares(rows: seq<Skills>)
    requires |rows| > 0
    ensures SummarizeMember(rows).pctAbove + SummarizeMember(rows).pctBelow <= 100.0
  {
    var present := Present(Flatten(rows));
    CountDisjoint(present, StrictlyAbove(8.0), Below(5.0));
    PercentSum(Count(present, StrictlyAbove(8.0)), Count(present, Below(5.0)), |Flatten(rows)|);
  }

  /** The thresholds are strict: a score of exactly 8 is not above 8 and a
      score of exactly 5 not below 5. */
  lemma ThresholdsAreStrict()
    ensures var s := SummarizeMember([Skills(Some(8.0), Some(5.0), Some(8.0))]);
      s.pctAbove == 0.0 && s.pctBelow == 0.0
  {
    var rows := [Skills(Some(8.0), Some(5.0), Some(8.0))];
    assert rows[..0] == [];
    var vals := Flatten(rows);
    assert vals == [Some(8.0), Some(5.0), Some(8.0)];
    PresentAll(vals);
    var p := Present(vals);
    assert p == [8.0, 5.0, 8.0];
    CountNone(p, StrictlyAbove(8.0));
    CountNone(p, Below(5.0));
  }

  /** A mask that holds for no value counts none. */
  lemma {:induction false} CountNone(s: seq<real>, q: real -> bool)
    requires forall i :: 0 <= i < |s| ==> !q(s[i])
    ensures Count(s, q) == 0
  {
    if s != [] {
      CountNone(s[..|s| - 1], q);
    }
  }

  /** A missing score leaves the average out but still counts in the shares:
      one 9 and two missing scores give a third above 8. */
  lemma MissingScoresCount()
    ensures var s := SummarizeMember([Skills(Some(9.0), None, None)]);
      s.avg == None && s.pctAbove == 100.0 / 3.0
  {
    var rows := [Skills(Some(9.0), None, None)];
    assert rows[..0] == [];
    var vals := Flatten(rows);
    assert vals == [Some(9.0), None, None];
    assert vals[..2] == [Some(9.0), None];
    assert vals[..2][..1] == [Some(9.0)];
    assert vals[..2][..1][..0] == [];
    assert !AllPresent(vals) by {
      assert vals[1].None?;
    }
    assert Present(vals[..2][..1]) == [9.0];
    assert Present(vals[..2]) == [9.0];
    var p := Present(vals);
    assert p == [9.0];
    assert p[..0] == [];
    assert Count(p, StrictlyAbove(8.0)) == 1;
  }
}
