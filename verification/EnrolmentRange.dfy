/** What the parsers of app/services/enrolment.py can return: which columns of a record are open, and which are closed. */
module EnrolmentRange {
  // The documentation promises that no column carries arbitrary text into the prompt. For four columns of the
  // table parser this is false, and the texts that they carry are stated exactly; the flat parser keeps it.

  import opened Text
  import opened Records
  import opened EnrolmentShapes
  import opened EnrolmentTable
  import opened EnrolmentPrinter
  import opened EnrolmentValues
  import opened EnrolmentReading
  import opened EnrolmentHeadings
  import opened EnrolmentRoundTrip
  import opened SolsRecords
  import opened SolsProjection
  import opened EnrolmentFlat
  import opened Projection

  // ---------------------------------------------------------------- records of table pastes

  // The record is what the table parser makes of some paste.
  ghost predicate ComesFromTable(r: EnrolmentRecord) {
    exists raw :: IsTablePaste(raw) && Parsed(raw, false) == Ok(r)
  }

  predicate HaveNoLevels(rows: seq<CreditRow>) {
    forall k :: 0 <= k < |rows| ==> rows[k].level.None?
  }

  lemma NoLevelsToDrop(rows: seq<CreditRow>)
    requires HaveNoLevels(rows)
    ensures WithoutLevels(rows) == rows
  {
    assert forall k :: 0 <= k < |rows| ==> WithoutLevels(rows)[k] == rows[k];
  }

  // A record of which nothing is lost in print is the record of its own printed text.
  lemma PrintedRecordComesBack(r: EnrolmentRecord)
    requires IsPrintable(r) && HaveNoMarks(r.rows) && AllSettled(r.majors) && HaveNoLevels(r.specified)
    ensures IsTablePaste(Rendered(r)) && Parsed(Rendered(r), false) == Ok(r)
    ensures Projected(Rendered(r)) == Ok(Rendered(r)) && ComesFromTable(r)
  {
    hide Rendered, IsTablePaste, TableRecord, IsPrintable, AllSettled, Readable, WithoutLevels, IsTrimmed;
    RenderedReadsBack(r);
    RenderedIsTablePaste(r);
    NoLevelsToDrop(r.specified);
    MajorsAreTrimmed(r);
    ReadableIsSameIff(r.majors);
  }

  // ---------------------------------------------------------------- the whole range

  // The text that is recorded when this value stands on a major line.
  predicate IsRecordedAs(value: string, major: string) {
    MajorFrom(value) == Some(major)
  }

  ghost predicate IsRecorded(major: string) {
    exists value :: IsRecordedAs(value, major)
  }

  ghost predicate AreRecorded(majors: seq<string>) {
    forall k :: 0 <= k < |majors| ==> IsRecorded(majors[k])
  }

  lemma AddMajorRecords(h: Header, value: string)
    requires AreRecorded(h.majors)
    ensures AreRecorded(AddMajor(h, value).majors)
  {
    hide MajorFrom;
    var major := MajorFrom(value);
    if major.Some? {
      assert IsRecordedAs(value, major.value);
    }
  }

  lemma HeaderLineRecords(line: string, h: Header)
    requires AreRecorded(h.majors)
    ensures AreRecorded(ReadHeaderLine(line, h).majors)
  {
    hide CourseOf, CampusOf, MajorOf, MajorFrom, AddMajor, Trim, Remove, AreRecorded;
    AddMajorRecords(h, Trim(Remove(line, '*')));
    if MajorOf(line).Some? {
      AddMajorRecords(h.(pending := false), MajorOf(line).value);
    }
  }

  lemma LineRecords(line: string, st: State)
    requires AreRecorded(st.header.majors)
    ensures var next := ReadLine(line, st, false); next.Ok? ==> AreRecorded(next.value.header.majors)
  {
    hide Trim, SplitRow, IsSeparator, Classify, NormAll, ReadRow, ReadCredit, ReadHeaderLine, AreRecorded;
    HeaderLineRecords(Trim(line), st.header);
  }

  lemma {:induction false} LinesRecord(lines: seq<string>, st: State)
    requires AreRecorded(st.header.majors)
    ensures var last := ReadLines(lines, st, false); last.Ok? ==> AreRecorded(last.value.header.majors)
  {
    hide ReadLine, AreRecorded;
    if lines != [] {
      LineRecords(lines[0], st);
      if ReadLine(lines[0], st, false).Ok? {
        LinesRecord(lines[1..], ReadLine(lines[0], st, false).value);
      }
    }
  }

  lemma ParsedMajorsAreRecorded(raw: string)
    requires TableRecord(raw, false).Ok?
    ensures AreRecorded(TableRecord(raw, false).value.majors)
  {
    hide ReadLines, Lines, IsRecorded;
    LinesRecord(Lines(raw), INITIAL);
  }

  // A recorded major has a source that prints on a major line.
  lemma SourceOf(major: string) returns (value: string)
    requires IsRecorded(major)
    ensures IsRecordedAs(value, major) && IsMajorText(value)
  {
    hide MajorFrom, IsMajorText;
    value :| IsRecordedAs(value, major);
    if StartsWithCode(value) {
      CodeRecordsItself(value, major);
      MajorFromIsText(value);
      value := major;
    } else {
      TitleIsText(value, major);
    }
  }

  lemma CodeRecordsItself(value: string, major: string)
    requires IsRecordedAs(value, major) && StartsWithCode(value)
    ensures IsRecordedAs(major, major)
  {
    hide IsTitle, IsUndeclared;
    assert UpperRun(major) == |major|;
    assert major[..|major|] == major;
  }

  lemma TitleIsText(value: string, major: string)
    requires IsRecordedAs(value, major) && !StartsWithCode(value)
    ensures IsMajorText(value)
  {
    hide StartsWithCode, IsUndeclared, DropHonours, Strip, Split, IsTitleChar, IsTitle;
    assert IsTitle(value);
    TitleChars(value);
    TitleEndsInWord(value);
    TitleCharIsNoSpace(value[|value| - 1]);
  }

  lemma TitleCharIsNoSpace(c: char)
    ensures IsTitleChar(c) ==> !IsSpace(c)
  {
  }

  lemma {:induction false} SplitLast(s: string, c: char)
    ensures var last := Split(s, c)[|Split(s, c)| - 1]; last == "" <==> s == "" || s[|s| - 1] == c
  {
    if |s| > 1 {
      SplitLast(s[1..], c);
      assert s[1..][|s| - 2] == s[|s| - 1];
    }
  }

  lemma TitleEndsInWord(s: string)
    requires IsTitle(s)
    ensures s != "" && s[|s| - 1] != ' '
  {
    hide Split, IsTitleChar;
    SplitLast(s, ' ');
  }

  lemma {:induction false} SourcesOf(majors: seq<string>) returns (values: seq<string>)
    requires AreRecorded(majors)
    ensures Readable(values) == majors && forall k :: 0 <= k < |values| ==> IsMajorText(values[k])
  {
    hide MajorFrom, IsMajorText, IsRecorded;
    values := [];
    if majors != [] {
      var n := |majors| - 1;
      var front := SourcesOf(majors[..n]);
      var last := SourceOf(majors[n]);
      values := front + [last];
      assert values[..|front|] == front;
      assert majors == majors[..n] + [majors[n]];
    }
  }

  // The printed header, whose majors are sources of the record's, and the tables in the layout of SOLS, which
  // has a column for the level of every credit, make a paste of the record.
  function SolsRowsOf(rows: seq<EnrolmentRow>): (r: seq<SolsRow>)
    ensures |r| == |rows| && forall k :: 0 <= k < |rows| ==> r[k] == SolsRow(rows[k], "")
  {
    seq(|rows|, k requires 0 <= k < |rows| => SolsRow(rows[k], ""))
  }

  function SolsCreditsOf(credits: seq<CreditRow>): (r: seq<SolsCredit>)
    ensures |r| == |credits| && forall k :: 0 <= k < |credits| ==> r[k] == SolsCredit(credits[k], "")
  {
    seq(|credits|, k requires 0 <= k < |credits| => SolsCredit(credits[k], ""))
  }

  lemma NoNameIsNoHeading()
    ensures IsCell("") && !IsName(Norm(""))
  {
    hide Norm, IsName;
    CodeIsNoName("");
  }

  lemma MajorLineIsFront(index: nat, major: string)
    requires IsMajorText(major)
    ensures !IsTableLine(Trim(MajorLine(index, major)))
  {
    hide Trim, MajorLine, IsTableLine;
    MajorLineIsHeader(index, major);
  }

  lemma StarLineIsFront(line: string)
    requires line != "" && (line[0] == '*' || line[0] == '#')
    ensures !IsTableLine(Trim(line))
  {
    hide StripRight;
    assert StripLeft(line, SPACES) == line;
    StripRightIsPrefix(line, SPACES);
  }

  lemma HeaderLinesAreFront(r: EnrolmentRecord)
    requires IsPrintableHeader(Header(r.course, r.campus, r.majors, false))
    ensures AreFrontLines(HeaderLines(r))
  {
    hide Trim, MajorLine, IsTableLine, IsMajorText, HasNoBreak, IsCampusName, IsCourseNumber, IsTrimmed;
    HeaderLinesHaveNoBreaks(r);
    var lines := HeaderLines(r);
    StarLineIsFront("# Enrolment Record");
    BlankIsFront();
    if r.course.Some? {
      StarLineIsFront("**Course:** " + r.course.value);
    }
    if r.campus.Some? {
      StarLineIsFront("**Campus:** " + r.campus.value);
    }
    forall k | 0 <= k < |r.majors| ensures !IsTableLine(Trim(MajorLines(r.majors)[k])) {
      MajorLineIsFront(k, r.majors[k]);
    }
  }

  lemma BlankIsFront()
    ensures !IsTableLine(Trim(""))
  {
    hide Trim;
    TrimNothing();
  }

  lemma FrontOfHeader(r: EnrolmentRecord)
    requires IsPrintableHeader(Header(r.course, r.campus, r.majors, false))
    ensures AreFrontLines(HeaderLines(r)) && FrontHeader(HeaderLines(r)) == Header(r.course, r.campus, Readable(r.majors), false)
  {
    hide ReadLines, HeaderLines, FrontHeader, Readable, AreFrontLines, IsMajorText, IsCampusName, IsCourseNumber, IsTrimmed;
    HeaderLinesAreFront(r);
    ReadFront(HeaderLines(r), false);
    ReadHeaderLines(r);
  }

  lemma RecordIsSols(r: EnrolmentRecord, front: seq<string>)
    requires IsPrintable(r) && HaveNoMarks(r.rows) && AreFrontLines(front)
    ensures IsSolsRecord(front, SolsRowsOf(r.rows), SolsCreditsOf(r.specified), r.unspecified)
  {
    hide IsPrintableRow, IsPrintableCredit, IsPrintableHeader, IsFrontLine, IsCell, IsName, Norm;
    NoNameIsNoHeading();
    assert IsDelivery("");
    hide IsDelivery;
    forall k | 0 <= k < |r.rows| ensures IsSolsRow(SolsRowsOf(r.rows)[k]) {
      assert IsPrintableRow(r.rows[k]);
    }
    forall k | 0 <= k < |r.specified| ensures IsSolsCredit(SolsCreditsOf(r.specified)[k]) {
      assert IsPrintableCredit(r.specified[k]);
    }
  }

  lemma RecordComesBack(r: EnrolmentRecord)
    requires IsPrintable(r) && HaveNoMarks(r.rows) && AreRecorded(r.majors)
    ensures ComesFromTable(r)
  {
    hide SolsText, IsTablePaste, Parsed, IsPrintableRow, IsMajorText, AreRecorded, Readable, IsPrintableCredit, FrontHeader, HeaderLines,
      AreFrontLines, IsSolsRecord;
    var values := SourcesOf(r.majors);
    var source := r.(majors := values);
    assert IsPrintableHeader(Header(source.course, source.campus, values, false));
    FrontOfHeader(source);
    var front, rows, credits := HeaderLines(source), SolsRowsOf(r.rows), SolsCreditsOf(r.specified);
    RecordIsSols(r, front);
    SolsIsTablePaste(front, rows, credits, r.unspecified);
    SolsIsParsed(front, rows, credits, r.unspecified);
    assert AllKept(rows, false) == r.rows;
    assert CreditsOf(credits) == r.specified;
    assert SolsRecord(front, rows, credits, r.unspecified, false) == r;
  }

  // The records of table pastes are exactly those with shaped values in the closed columns, cells in the open
  // ones, recorded majors and no marks.
  lemma TableRangeIff(r: EnrolmentRecord)
    ensures ComesFromTable(r) <==> IsPrintable(r) && HaveNoMarks(r.rows) && AreRecorded(r.majors)
  {
    hide IsTablePaste, TableRecord, FlatRecord, IsPrintable, HaveNoMarks, AreRecorded;
    if ComesFromTable(r) {
      ComesFromTableIsPrintable(r);
      var raw :| IsTablePaste(raw) && Parsed(raw, false) == Ok(r);
      ParsedMajorsAreRecorded(raw);
    }
    if IsPrintable(r) && HaveNoMarks(r.rows) && AreRecorded(r.majors) {
      RecordComesBack(r);
    }
  }

  // The text is the projection of some table paste.
  ghost predicate IsProjection(text: string) {
    exists raw :: IsTablePaste(raw) && Projected(raw) == Ok(text)
  }

  // The text is the print of such a record.
  ghost predicate IsPrintOf(text: string, r: EnrolmentRecord) {
    IsPrintable(r) && HaveNoMarks(r.rows) && AreRecorded(r.majors) && Rendered(r) == text
  }

  // What table pastes can send to the prompt: exactly the prints of these records.
  lemma ProjectionRangeIff(text: string)
    ensures IsProjection(text) <==> exists r :: IsPrintOf(text, r)
  {
    hide IsTablePaste, TableRecord, FlatRecord, IsPrintable, HaveNoMarks, AreRecorded, Rendered, MarksAreRead, IsClosed;
    if IsProjection(text) {
      var raw :| IsTablePaste(raw) && Projected(raw) == Ok(text);
      ParsedIsPrintable(raw, false);
      ProjectionReadsBack(raw);
      ParsedMajorsAreRecorded(raw);
      assert IsPrintOf(text, Parsed(raw, false).value);
    }
    if r :| IsPrintOf(text, r) {
      PrintIsProjection(text, r);
    }
  }

  lemma PrintIsProjection(text: string, r: EnrolmentRecord)
    requires IsPrintOf(text, r)
    ensures IsProjection(text)
  {
    hide IsTablePaste, Parsed, AreRecorded, Rendered, IsPrintable, HaveNoMarks;
    RecordComesBack(r);
    var raw :| IsTablePaste(raw) && Parsed(raw, false) == Ok(r);
    assert Projected(raw) == Ok(text);
  }

  lemma ComesFromTableIsPrintable(r: EnrolmentRecord)
    requires ComesFromTable(r)
    ensures IsPrintable(r) && HaveNoMarks(r.rows)
  {
    hide IsTablePaste, Parsed, IsPrintable, MarksAreRead;
    var raw :| IsTablePaste(raw) && Parsed(raw, false) == Ok(r);
    ParsedIsPrintable(raw, false);
    ParsedHasNoMarks(raw);
  }

  // ---------------------------------------------------------------- the open columns

  // One subject and two credits, with any texts and numbers in the columns that are not shape-checked.
  function Carrier(year: int, session: string, campus: string, course: string, level: string, cp: int): EnrolmentRecord {
    EnrolmentRecord(
      None, None, [],
      [EnrolmentRow(year, session, campus, "CSIT110", cp, None, "Complete", None)],
      [CreditRow(course, None, None, cp)],
      [CreditRow(course, None, Some(level), cp)])
  }

  lemma CarrierCode()
    ensures IsSubjectCode("CSIT110") && Upper("CSIT110") == "CSIT110" && IsCell("CSIT110")
  {
    hide IsCell, Upper;
    var code := "CSIT110";
    assert forall k :: 0 <= k < 4 ==> IsUpper(code[k]);
    assert IsCodeOf(code, 4);
    UpperAndDigits(code);
  }

  lemma UpperAndDigits(s: string)
    requires s != "" && forall k :: 0 <= k < |s| ==> IsUpper(s[k]) || IsDigit(s[k])
    ensures Upper(s) == s && IsCell(s)
  {
    assert forall k :: 0 <= k < |s| ==> !IsSpace(s[k]) && s[k] != '|' && !IsBreak(s[k]);
  }

  lemma CarrierStatus()
    ensures IsStatus("Complete") && IsCell("Complete")
  {
    assert forall c :: c in "Complete" ==> IsLetter(c);
  }

  lemma CarrierIsPrintable(year: int, session: string, campus: string, course: string, level: string, cp: int)
    requires IsCell(session) && IsCell(campus) && '/' !in campus && IsCell(course) && IsCell(level) && level != ""
    ensures var r := Carrier(year, session, campus, course, level, cp);
      IsPrintable(r) && HaveNoMarks(r.rows) && AllSettled(r.majors) && HaveNoLevels(r.specified)
  {
    hide IsCell, IsSubjectCode, IsStatus, IsGrade, Upper;
    CarrierCode();
    CarrierStatus();
  }

  // The line of the subject, as the prompt shows it.
  function CarrierLine(year: int, session: string, campus: string, cp: int): string {
    RowLine([IntText(year), session, campus, "CSIT110", IntText(cp), "", "Complete"])
  }

  lemma CarrierLineIsShown(year: int, session: string, campus: string, course: string, level: string, cp: int)
    requires IsPrintable(Carrier(year, session, campus, course, level, cp))
    ensures CarrierLine(year, session, campus, cp) in Lines(Rendered(Carrier(year, session, campus, course, level, cp)))
  {
    hide Lines, Rendered, IsPrintable, HeaderLines, SpecifiedLines, UnspecifiedLines, RowLine, IntText, Divider;
    var r := Carrier(year, session, campus, course, level, cp);
    LinesOfRendered(r);
    var line := CarrierLine(year, session, campus, cp);
    var h := HistoryLines(r.rows);
    assert h[5] == line;
    assert RenderedLines(r)[|HeaderLines(r)| + 5] == line;
  }

  // Whatever stands in those columns goes through the projection unchanged.
  lemma CellsPassThrough(year: int, session: string, campus: string, course: string, level: string, cp: int)
    requires IsCell(session) && IsCell(campus) && '/' !in campus && IsCell(course) && IsCell(level) && level != ""
    ensures var r := Carrier(year, session, campus, course, level, cp);
      ComesFromTable(r) && Parsed(Rendered(r), false) == Ok(r) && Projected(Rendered(r)) == Ok(Rendered(r))
    ensures CarrierLine(year, session, campus, cp) in Lines(Rendered(Carrier(year, session, campus, course, level, cp)))
  {
    hide IsCell, Rendered, Parsed, Projected, IsPrintable, ComesFromTable, Lines, RowLine;
    CarrierIsPrintable(year, session, campus, course, level, cp);
    PrintedRecordComesBack(Carrier(year, session, campus, course, level, cp));
    CarrierLineIsShown(year, session, campus, course, level, cp);
  }

  predicate HasSession(r: EnrolmentRecord, text: string) {
    exists k :: 0 <= k < |r.rows| && r.rows[k].session == text
  }

  predicate HasCampus(r: EnrolmentRecord, text: string) {
    exists k :: 0 <= k < |r.rows| && r.rows[k].campus == text
  }

  predicate HasCourse(rows: seq<CreditRow>, text: string) {
    exists k :: 0 <= k < |rows| && rows[k].course == text
  }

  predicate HasLevel(rows: seq<CreditRow>, text: string) {
    exists k :: 0 <= k < |rows| && rows[k].level == Some(text)
  }

  lemma ColumnsOfCarrier(session: string, campus: string, course: string, level: string)
    requires IsCell(session) && IsCell(campus) && '/' !in campus && IsCell(course) && IsCell(level) && level != ""
    ensures exists r :: ComesFromTable(r) && HasSession(r, session) && HasCampus(r, campus) &&
                        HasCourse(r.specified, course) && HasCourse(r.unspecified, course) && HasLevel(r.unspecified, level)
  {
    hide IsCell, ComesFromTable, Rendered, Parsed, Projected, CarrierLine;
    CellsPassThrough(2024, session, campus, course, level, 6);
    var r := Carrier(2024, session, campus, course, level, 6);
    assert r.rows[0].session == session && r.rows[0].campus == campus;
    assert r.specified[0].course == course && r.unspecified[0].course == course && r.unspecified[0].level == Some(level);
  }

  lemma PlainCells()
    ensures IsCell("") && IsCell("1") && '/' !in "1"
  {
    assert IsDigit("1"[0]);
  }

  // A text is the session of a row of some table paste exactly when it is any cell.
  lemma SessionIff(text: string)
    ensures (exists r :: ComesFromTable(r) && HasSession(r, text)) <==> IsCell(text)
  {
    hide IsCell, ComesFromTable;
    forall r | ComesFromTable(r) && HasSession(r, text) ensures IsCell(text) {
      ComesFromTableIsPrintable(r);
      var k :| 0 <= k < |r.rows| && r.rows[k].session == text;
      assert IsPrintableRow(r.rows[k]);
    }
    if IsCell(text) {
      PlainCells();
      ColumnsOfCarrier(text, "1", "", "1");
    }
  }

  // A text is the campus of a row exactly when it is a cell without a slash.
  lemma RowCampusIff(text: string)
    ensures (exists r :: ComesFromTable(r) && HasCampus(r, text)) <==> IsCell(text) && '/' !in text
  {
    hide IsCell, ComesFromTable;
    forall r | ComesFromTable(r) && HasCampus(r, text) ensures IsCell(text) && '/' !in text {
      ComesFromTableIsPrintable(r);
      var k :| 0 <= k < |r.rows| && r.rows[k].campus == text;
      assert IsPrintableRow(r.rows[k]);
    }
    if IsCell(text) && '/' !in text {
      PlainCells();
      ColumnsOfCarrier("", text, "", "1");
    }
  }

  // A text is the course of a credit, of either table, exactly when it is any cell.
  lemma CreditCourseIff(text: string)
    ensures (exists r :: ComesFromTable(r) && HasCourse(r.specified, text)) <==> IsCell(text)
    ensures (exists r :: ComesFromTable(r) && HasCourse(r.unspecified, text)) <==> IsCell(text)
  {
    hide IsCell, ComesFromTable;
    forall r | ComesFromTable(r) && (HasCourse(r.specified, text) || HasCourse(r.unspecified, text)) ensures IsCell(text) {
      ComesFromTableIsPrintable(r);
      assert forall k :: 0 <= k < |r.specified| ==> IsPrintableCredit(r.specified[k]);
      assert forall k :: 0 <= k < |r.unspecified| ==> IsPrintableCredit(r.unspecified[k]);
    }
    if IsCell(text) {
      PlainCells();
      ColumnsOfCarrier("", "", text, "1");
    }
  }

  // A text is the level of an unspecified credit exactly when it is a cell that is not empty.
  lemma CreditLevelIff(text: string)
    ensures (exists r :: ComesFromTable(r) && HasLevel(r.unspecified, text)) <==> IsCell(text) && text != ""
  {
    hide IsCell, ComesFromTable;
    forall r | ComesFromTable(r) && HasLevel(r.unspecified, text) ensures IsCell(text) && text != "" {
      ComesFromTableIsPrintable(r);
      var k :| 0 <= k < |r.unspecified| && r.unspecified[k].level == Some(text);
      assert IsPrintableCredit(r.unspecified[k]);
    }
    if IsCell(text) && text != "" {
      PlainCells();
      ColumnsOfCarrier("", "", "", text);
    }
  }
}
