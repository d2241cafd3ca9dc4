/**
 What the flat parser lets through, and that its rows do not depend on marks.

 Its records have the shapes of those of the table parser, so that one printer and one round trip
 serve both, and are closed besides: the row pattern leaves no column open.
 */
module EnrolmentFlatLaws {
  import opened Text
  import opened Records
  import opened EnrolmentShapes
  import opened EnrolmentTable
  import opened EnrolmentValues
  import opened EnrolmentHeadings
  import opened EnrolmentMarks
  import opened EnrolmentFlat

  // ---------------------------------------------------------------- shapes of the values

  lemma PlainIsCell(s: string)
    requires IsPlainText(s)
    ensures IsCell(s)
  {
    forall c | c in s ensures !IsBreak(c) {
      var k :| 0 <= k < |s| && s[k] == c;
    }
  }

  lemma ListedIsStatus(status: string)
    requires IsListed(status)
    ensures IsStatus(status)
  {
  }

  lemma StatusIsCell(status: string)
    requires IsStatus(status)
    ensures IsCell(status)
  {
    hide IsStatus, IsPlainText, IsCell;
    StatusIsPlain(status);
    PlainIsCell(status);
  }

  lemma SessionIsCell(session: string)
    requires IsSession(session)
    ensures IsCell(session) && IsPlainWord(session)
  {
    hide IsPlainText, IsCell, IsPlainWord;
    SessionIsWord(session);
    PlainWord(session);
    PlainIsCell(session);
  }

  lemma SessionIsWord(session: string)
    requires IsSession(session)
    ensures IsPlainWord(session)
  {
    assert IsPlainWord("Annual");
    assert IsPlainWord("Autumn");
    assert IsPlainWord("Spring");
    assert IsPlainWord("Summer");
    assert IsPlainWord("Winter");
  }

  lemma GradeIsUpper(grade: string)
    requires IsGrade(grade)
    ensures grade != "" && forall k :: 0 <= k < |grade| ==> IsUpper(grade[k])
  {
  }

  lemma UpperTextIsCell(s: string)
    requires s != "" && forall k :: 0 <= k < |s| ==> IsUpper(s[k]) || IsDigit(s[k])
    ensures IsCell(s) && Upper(s) == s && IsPlainText(s)
  {
    assert forall k :: 0 <= k < |s| ==> !IsSpace(s[k]) && s[k] != '*' && s[k] != '|' && !IsBreak(s[k]);
  }

  lemma CampusTextHasNoBreak(s: string)
    requires IsCampusText(s)
    ensures HasNoBreak(s) && '|' !in s
  {
    forall c | c in s ensures !IsBreak(c) && c != '|' {
      var k :| 0 <= k < |s| && s[k] == c;
    }
  }

  lemma CodeIsNotEmpty(code: string)
    requires IsSubjectCode(code)
    ensures code != ""
  {
  }

  lemma RowOfIsPrintable(row: FlatRow, keepMarks: bool)
    requires IsFlatRow(row)
    ensures var r := RowOf(row, keepMarks); r.Ok? ==> IsPrintableRow(r.value) && MarkIsRead(r.value, keepMarks)
  {
    hide IsGrade, IsListed, IsStatus, IsSession, IsSubjectCode, IsCell, Upper, CampusHalf, IsCampusText, AreDigits, PythonInt, HasNoBreak,
      IsYear;
    SessionIsCell(row.session);
    CampusTextHasNoBreak(row.campus);
    CampusHalfIsCell(row.campus);
    CodeIsNotEmpty(row.code);
    UpperTextIsCell(row.code);
    ListedIsStatus(row.status);
    StatusIsCell(row.status);
    if row.grade.Some? {
      GradeIsUpper(row.grade.value);
      UpperTextIsCell(row.grade.value);
    }
  }

  // What the pattern guarantees of the columns that the table parser leaves open: a year of these two
  // centuries, a known session, a campus of letters and spaces, at most two digits of credit points.
  predicate IsClosedRow(row: EnrolmentRow) {
    && 1900 <= row.year <= 2099
    && IsSession(row.session)
    && IsCampusName(row.campus) && IsTrimmed(row.campus)
    && 0 <= row.nomCp <= 99
  }

  predicate AreClosedRows(rows: seq<EnrolmentRow>) {
    forall k :: 0 <= k < |rows| ==> IsClosedRow(rows[k])
  }

  lemma NatOfLast(s: string)
    requires s != "" && AreDigits(s)
    ensures AreDigits(s[..|s| - 1]) && NatOf(s) == 10 * NatOf(s[..|s| - 1]) + DigitValue(s[|s| - 1])
  {
  }

  lemma YearValue(s: string)
    requires IsYear(s)
    ensures 1900 <= NatOf(s) <= 2099
  {
    hide NatOf;
    NatOfLast(s);
    NatOfLast(s[..3]);
    NatOfLast(s[..2]);
    NatOfLast(s[..1]);
    assert s[..3][..2] == s[..2] && s[..2][..1] == s[..1] && s[..1][..0] == "";
    NatOfNothing();
  }

  lemma NatOfNothing()
    ensures NatOf("") == 0
  {
  }

  lemma CpValue(s: string)
    requires 1 <= |s| <= 2 && AreDigits(s)
    ensures NatOf(s) <= 99
  {
    hide NatOf;
    NatOfLast(s);
    NatOfNothing();
    if |s| == 2 {
      NatOfLast(s[..1]);
    }
  }

  lemma CampusHalfIsName(s: string)
    requires IsCampusText(s)
    ensures IsCampusName(CampusHalf(s)) && IsTrimmed(CampusHalf(s))
  {
    hide Trim, Split;
    var head := Split(s, '/')[0];
    SplitHead(s, '/');
    assert head != "" && head[0] == s[0];
    assert forall k :: 0 <= k < |head| ==> head[k] == s[k] && head[k] in head;
    TrimOfStart(head);
  }

  lemma RowOfIsClosed(row: FlatRow, keepMarks: bool)
    requires IsFlatRow(row)
    ensures var r := RowOf(row, keepMarks); r.Ok? ==> IsClosedRow(r.value)
  {
    hide IsGrade, IsListed, IsSession, IsSubjectCode, Upper, CampusHalf, IsCampusText, NatOf, IsYear, IsCampusName, IsTrimmed, ReadMark;
    YearValue(row.year);
    CpValue(row.cp);
    CampusHalfIsName(row.campus);
  }

  lemma {:induction false} RowsOfArePrintable(ms: seq<Match>, keepMarks: bool)
    requires AreMatches(ms)
    ensures var r := RowsOf(ms, keepMarks);
      r.Ok? ==> |r.value| == |ms| && ArePrintableRows(r.value) && MarksAreRead(r.value, keepMarks) && AreClosedRows(r.value)
  {
    hide RowOf, IsFlatRow, IsPrintableRow, MarkIsRead, IsClosedRow;
    if ms != [] {
      RowsOfArePrintable(ms[..|ms| - 1], keepMarks);
      RowOfIsPrintable(ms[|ms| - 1].row, keepMarks);
      RowOfIsClosed(ms[|ms| - 1].row, keepMarks);
    }
  }

  lemma CourseInIsNumber(s: string)
    ensures CourseIn(s).Some? ==> IsCourseNumber(CourseIn(s).value)
  {
  }

  lemma {:induction false} FlatCourseIsNumber(s: string, at: nat)
    requires at <= |s|
    ensures FlatCourse(s, at).Some? ==> IsCourseNumber(FlatCourse(s, at).value)
    decreases |s| - at
  {
    hide CourseIn, AfterColon, AtBoundary, IsCourseNumber;
    if at < |s| {
      FlatCourseIsNumber(s, at + 1);
      var value := AfterColon(s[at..], "course");
      if value.Some? {
        CourseInIsNumber(value.value);
      }
    }
  }

  lemma CampusValueIsName(s: string)
    requires s != "" && IsLetter(s[0]) && IsCampusValue(s)
    ensures IsCampusName(Trim(s)) && IsTrimmed(Trim(s))
  {
    hide Trim;
    TrimOfStart(s);
  }

  lemma {:induction false} FlatCampusIsName(s: string, at: nat)
    requires at <= |s|
    ensures FlatCampus(s, at).Some? ==> IsCampusName(FlatCampus(s, at).value) && IsTrimmed(FlatCampus(s, at).value)
    decreases |s| - at
  {
    hide CampusAt, AtBoundary, IsCampusName, IsTrimmed, Trim, IsCampusValue;
    if at < |s| {
      FlatCampusIsName(s, at + 1);
      if CampusAt(s[at..]).Some? {
        CampusValueIsName(CampusAt(s[at..]).value);
      }
    }
  }

  lemma {:induction false} AddMajorsIsPrintable(h: Header, values: seq<string>)
    requires IsPrintableHeader(h)
    ensures IsPrintableHeader(AddMajors(h, values)) && AddMajors(h, values) == h.(majors := AddMajors(h, values).majors)
  {
    hide IsPrintableHeader, MajorFrom;
    if values != [] {
      AddMajorsIsPrintable(h, values[..|values| - 1]);
      AddMajorIsPrintable(AddMajors(h, values[..|values| - 1]), values[|values| - 1]);
    }
  }

  // What comes through the flat parser: no column of it is open, and no mark unless asked for.
  lemma FlatRecordIsPrintable(raw: string, keepMarks: bool)
    ensures var r := FlatRecord(raw, keepMarks);
      r.Ok? ==> IsPrintable(r.value) && MarksAreRead(r.value.rows, keepMarks)
    ensures var r := FlatRecord(raw, keepMarks);
      r.Ok? ==> AreClosedRows(r.value.rows) && r.value.specified == [] && r.value.unspecified == []
  {
    hide FlatText, FindAll, IsReadable, RowsOf, FlatCourse, FlatCampus, FlatMajors, AddMajors, IsPrintableRow,
      IsCourseNumber, IsCampusName, IsTrimmed, IsMajorText, MarkIsRead, IsFlatRow, IsClosedRow;
    var text := FlatText(raw);
    var ms := FindAll(text, 0);
    RowsOfArePrintable(ms, keepMarks);
    FlatCourseIsNumber(text, 0);
    FlatCampusIsName(text, 0);
    AddMajorsIsPrintable(Header(FlatCourse(text, 0), FlatCampus(text, 0), [], false), FlatMajors(text, 0));
  }

  // ---------------------------------------------------------------- marks

  lemma RowOfErases(row: FlatRow)
    requires IsFlatRow(row) && RowOf(row, true).Ok?
    ensures RowOf(row, false) == Ok(RowOf(row, true).value.(mark := None))
  {
    hide IsGrade, IsSubjectCode, Upper, CampusHalf, ReadMark, IsFlatTail, IsCampusText, IsSession;
  }

  lemma {:induction false} RowsOfErases(ms: seq<Match>)
    requires AreMatches(ms) && RowsOf(ms, true).Ok?
    ensures RowsOf(ms, false) == Ok(EraseAll(RowsOf(ms, true).value))
  {
    hide RowOf, IsFlatRow;
    if ms == [] {
      assert EraseAll([]) == [];
    } else {
      var front, last := ms[..|ms| - 1], ms[|ms| - 1];
      RowsOfErases(front);
      RowOfErases(last.row);
      var rows := RowsOf(front, true).value;
      assert EraseAll(rows + [RowOf(last.row, true).value]) == EraseAll(rows) + [RowOf(last.row, false).value];
    }
  }

  // Also in the flat parser, a parse that keeps marks is the ordinary parse with the marks added.
  lemma FlatErases(raw: string)
    requires FlatRecord(raw, true).Ok?
    ensures FlatRecord(raw, false) == Ok(Erased(FlatRecord(raw, true).value))
  {
    hide FlatText, FindAll, IsReadable, RowsOf, HeaderOf, IsFlatRow;
    RowsOfErases(FindAll(FlatText(raw), 0));
  }
}
