/**
 Parsing a printed record gives the record back.

 The proof follows the printed text: header lines, the history table, the two credit tables, each
 read from the state that the lines before it leave. Nothing is assumed of the record but the shapes
 that both parsers guarantee.
 */
module EnrolmentRoundTrip {
  import opened Text
  import opened Records
  import opened EnrolmentShapes
  import opened EnrolmentTable
  import opened EnrolmentPrinter
  import opened EnrolmentValues
  import opened EnrolmentReading
  import opened EnrolmentHeadings

  // ---------------------------------------------------------------- runs over blocks of lines

  lemma {:induction false} ReadLinesAppend(a: seq<string>, b: seq<string>, st: State, keepMarks: bool)
    requires ReadLines(a, st, keepMarks).Ok?
    ensures ReadLines(a + b, st, keepMarks) == ReadLines(b, ReadLines(a, st, keepMarks).value, keepMarks)
  {
    hide ReadLine;
    if a == [] {
      assert a + b == b;
    } else {
      assert (a + b)[1..] == a[1..] + b;
      ReadLinesAppend(a[1..], b, ReadLine(a[0], st, keepMarks).value, keepMarks);
    }
  }

  lemma ReadOneLine(line: string, st: State, keepMarks: bool)
    ensures ReadLines([line], st, keepMarks) == ReadLine(line, st, keepMarks)
  {
    hide ReadLine;
  }

  lemma ReadNextLine(lines: seq<string>, line: string, st: State, keepMarks: bool)
    requires ReadLines(lines, st, keepMarks).Ok?
    ensures ReadLines(lines + [line], st, keepMarks) == ReadLine(line, ReadLines(lines, st, keepMarks).value, keepMarks)
  {
    hide ReadLine, ReadLines;
    ReadLinesAppend(lines, [line], st, keepMarks);
    ReadOneLine(line, ReadLines(lines, st, keepMarks).value, keepMarks);
  }

  // ---------------------------------------------------------------- values by column

  lemma {:induction false} GetAt(columns: seq<string>, cells: seq<string>, name: string, i: nat)
    requires |columns| == |cells| && i < |columns| && columns[i] == name
    requires forall j :: i < j < |columns| ==> columns[j] != name
    ensures Get(columns, cells, name) == Some(cells[i])
  {
    if i < |columns| - 1 {
      GetAt(columns[..|columns| - 1], cells[..|columns| - 1], name, i);
    }
  }

  lemma GetOrAt(columns: seq<string>, cells: seq<string>, name: string, i: nat)
    requires |columns| == |cells| && i < |columns| && columns[i] == name
    requires forall j :: i < j < |columns| ==> columns[j] != name
    ensures GetOr(columns, cells, name) == cells[i]
  {
    hide Get;
    GetAt(columns, cells, name, i);
  }

  lemma GetNone(columns: seq<string>, cells: seq<string>, name: string)
    requires |columns| == |cells| && name !in columns
    ensures GetOr(columns, cells, name) == ""
  {
    GetIsNone(columns, cells, name);
  }

  lemma {:induction false} GetIsNone(columns: seq<string>, cells: seq<string>, name: string)
    requires |columns| == |cells| && name !in columns
    ensures Get(columns, cells, name).None?
  {
    if columns != [] {
      GetIsNone(columns[..|columns| - 1], cells[..|columns| - 1], name);
    }
  }

  lemma ColumnsDiffer()
    ensures forall i, j :: 0 <= i < j < 7 ==> ENROLMENT_COLUMNS[j] != ENROLMENT_COLUMNS[i]
    ensures "campus/delivery" !in ENROLMENT_COLUMNS
  {
    var c := ENROLMENT_COLUMNS;
    assert c[0][0] == 'y' && c[1][1] == 'e' && c[2][0] == 'c' && c[3][0] == 's' && c[4][0] == 'n' && c[5][0] == 'g' && c[6][0] == 's';
    assert |c[0]| == 4 && |c[1]| == 7 && |c[2]| == 6 && |c[3]| == 12 && |c[4]| == 6 && |c[5]| == 5 && |c[6]| == 6;
    assert |"campus/delivery"| == 15;
  }

  lemma EnrolmentColumnValues(cells: seq<string>)
    requires |cells| == 7
    ensures GetOr(ENROLMENT_COLUMNS, cells, "year") == cells[0]
    ensures GetOr(ENROLMENT_COLUMNS, cells, "session") == cells[1]
    ensures GetOr(ENROLMENT_COLUMNS, cells, "campus") == cells[2]
    ensures GetOr(ENROLMENT_COLUMNS, cells, "subject code") == cells[3]
    ensures GetOr(ENROLMENT_COLUMNS, cells, "nom cp") == cells[4]
    ensures GetOr(ENROLMENT_COLUMNS, cells, "grade") == cells[5]
    ensures GetOr(ENROLMENT_COLUMNS, cells, "status") == cells[6]
    ensures GetOr(ENROLMENT_COLUMNS, cells, "campus/delivery") == ""
  {
    hide GetOr;
    var c := ENROLMENT_COLUMNS;
    ColumnsDiffer();
    GetOrAt(c, cells, c[0], 0);
    GetOrAt(c, cells, c[1], 1);
    GetOrAt(c, cells, c[2], 2);
    GetOrAt(c, cells, c[3], 3);
    GetOrAt(c, cells, c[4], 4);
    GetOrAt(c, cells, c[5], 5);
    GetOrAt(c, cells, c[6], 6);
    GetNone(c, cells, "campus/delivery");
  }

  lemma CreditColumnsDiffer()
    ensures "course" != "subject code" && "course" != "nom cp" && "subject code" != "nom cp" && "course" != "level" && "level" != "nom cp"
    ensures "level" !in SPECIFIED_COLUMNS && "subject code" !in UNSPECIFIED_COLUMNS
  {
    assert "course"[0] == 'c' && "nom cp"[0] == 'n';
  }

  lemma SpecifiedColumnValues(cells: seq<string>)
    requires |cells| == 3
    ensures GetOr(SPECIFIED_COLUMNS, cells, "course") == cells[0]
    ensures GetOr(SPECIFIED_COLUMNS, cells, "subject code") == cells[1]
    ensures GetOr(SPECIFIED_COLUMNS, cells, "nom cp") == cells[2]
    ensures GetOr(SPECIFIED_COLUMNS, cells, "level") == ""
  {
    hide GetOr;
    var c := SPECIFIED_COLUMNS;
    CreditColumnsDiffer();
    GetOrAt(c, cells, c[0], 0);
    GetOrAt(c, cells, c[1], 1);
    GetOrAt(c, cells, c[2], 2);
    GetNone(c, cells, "level");
  }

  lemma UnspecifiedColumnValues(cells: seq<string>)
    requires |cells| == 3
    ensures GetOr(UNSPECIFIED_COLUMNS, cells, "course") == cells[0]
    ensures GetOr(UNSPECIFIED_COLUMNS, cells, "level") == cells[1]
    ensures GetOr(UNSPECIFIED_COLUMNS, cells, "nom cp") == cells[2]
    ensures GetOr(UNSPECIFIED_COLUMNS, cells, "subject code") == ""
  {
    hide GetOr;
    var c := UNSPECIFIED_COLUMNS;
    CreditColumnsDiffer();
    GetOrAt(c, cells, c[0], 0);
    GetOrAt(c, cells, c[1], 1);
    GetOrAt(c, cells, c[2], 2);
    GetNone(c, cells, "subject code");
  }

  // ---------------------------------------------------------------- printed rows

  lemma CampusKept(campus: string)
    requires IsTrimmed(campus) && '/' !in campus
    ensures CampusHalf(campus) == campus
  {
    hide Strip;
    SplitWhole(campus, '/');
    TrimKept(campus);
  }

  lemma GradeReads(grade: Option<string>)
    requires grade.Some? ==> IsGrade(grade.value) && Upper(grade.value) == grade.value
    ensures NonEmpty(Upper(OrBlank(grade))) == grade
  {
    hide IsGrade, Upper;
    if grade.Some? {
      GradeIsNotEmpty(grade.value);
    } else {
      assert |Upper("")| == 0;
    }
  }

  lemma GradeIsNotEmpty(grade: string)
    requires IsGrade(grade)
    ensures grade != ""
  {
  }

  lemma RowReadsBack(row: EnrolmentRow)
    requires IsPrintableRow(row) && row.mark.None?
    ensures ReadRow(ENROLMENT_COLUMNS, RowCells(row), false) == Ok(row)
  {
    hide GetOr, IsCell, IsGrade, IsStatus, IsSubjectCode, Upper, CampusHalf, IntText, PythonInt;
    EnrolmentColumnValues(RowCells(row));
    CampusIsKept(row);
    GradeReads(row.grade);
    IntReadsBack(row.year);
    IntReadsBack(row.nomCp);
  }

  lemma CampusIsKept(row: EnrolmentRow)
    requires IsPrintableRow(row)
    ensures CampusHalf(row.campus) == row.campus
  {
    hide CampusHalf, IsGrade, IsStatus, IsSubjectCode;
    CampusKept(row.campus);
  }

  lemma CodeReads(code: Option<string>)
    requires IsPrintableCode(code)
    ensures NonEmpty(Upper(OrBlank(code))) == code
  {
    hide Upper;
    if code.None? {
      assert |Upper("")| == 0;
    }
  }

  // Specified credit comes back without its level.
  lemma SpecifiedReadsBack(row: CreditRow)
    requires IsPrintableCredit(row)
    ensures ReadCredit(SPECIFIED_COLUMNS, SpecifiedCells(row)) == Ok(row.(level := None))
  {
    hide GetOr, IsCell, IsSubjectCode, Upper, IntText, PythonInt;
    SpecifiedColumnValues(SpecifiedCells(row));
    CodeReads(row.code);
    IntReadsBack(row.nomCp);
  }

  lemma UnspecifiedReadsBack(row: CreditRow)
    requires IsPrintableCredit(row) && row.code.None?
    ensures ReadCredit(UNSPECIFIED_COLUMNS, UnspecifiedCells(row)) == Ok(row)
  {
    hide GetOr, IsCell, IsSubjectCode, Upper, IntText, PythonInt;
    UnspecifiedColumnValues(UnspecifiedCells(row));
    CodeReads(None);
    IntReadsBack(row.nomCp);
  }

  lemma EmptyIsCell()
    ensures IsCell("")
  {
  }

  lemma RowCellsAreCells(row: EnrolmentRow)
    requires IsPrintableRow(row)
    ensures AreCells(RowCells(row)) && !IsSeparator(RowCells(row)) && Classify(NormAll(RowCells(row))).None?
  {
    hide IsCell, IsGrade, IsStatus, IsSubjectCode, Upper, IntText, Norm, IsName, IsDashes, Classify;
    var cells := RowCells(row);
    NumberIsNoName(row.year);
    NumberIsNoName(row.nomCp);
    CodeIsNoName(row.code);
    GradeIsNoName(OrBlank(row.grade));
    StatusIsNoName(row.status);
    EmptyIsCell();
    assert !IsDashes(cells[0]);
    var names := NormAll(cells);
    assert forall i :: 0 <= i < 7 && IsName(names[i]) ==> i == 1 || i == 2;
    TwoNamesAreTooFew(names, 1, 2);
  }

  lemma CreditCellsAreCells(a: string, b: string, n: int)
    requires IsCell(a) && IsCell(b)
    ensures var cells := [a, b, IntText(n)];
      AreCells(cells) && !IsSeparator(cells) && Classify(NormAll(cells)).None?
  {
    hide IsCell, IntText, Norm, IsName, IsDashes, Classify;
    var cells := [a, b, IntText(n)];
    NumberIsNoName(n);
    assert !IsDashes(cells[2]);
    var names := NormAll(cells);
    assert forall i :: 0 <= i < 3 && IsName(names[i]) ==> i == 0 || i == 1;
    TwoNamesAreTooFew(names, 0, 1);
  }

  // ---------------------------------------------------------------- printed tables

  lemma ReadPrintedRow(cells: seq<string>, st: State, keepMarks: bool)
    requires cells != [] && AreCells(cells) && !IsSeparator(cells) && Classify(NormAll(cells)).None?
    ensures ReadLine(RowLine(cells), st, keepMarks) == ReadBody(cells, st, keepMarks)
  {
    hide ReadBody, SplitRow, RowLine, Trim, Classify, NormAll, IsSeparator, AreCells;
    RowLineIsTableLine(cells);
    SplitRowLine(cells);
  }

  lemma ReadHeadingRow(headings: seq<string>, columns: seq<string>, st: State, keepMarks: bool)
    requires headings != [] && AreCells(headings) && !IsSeparator(headings)
    requires NormAll(headings) == columns && Classify(columns).Some?
    ensures ReadLine(RowLine(headings), st, keepMarks) == Ok(st.(table := Classify(columns), columns := columns))
  {
    hide ReadBody, SplitRow, RowLine, Trim, Classify, NormAll, IsSeparator, AreCells;
    RowLineIsTableLine(headings);
    SplitRowLine(headings);
  }

  lemma PlainIsCell(s: string)
    requires s != "" && forall c :: c in s ==> IsLetter(c) || c == ' '
    requires IsLetter(s[0]) && IsLetter(s[|s| - 1])
    ensures IsCell(s) && !IsDashes(s)
  {
  }

  lemma HeadingsAreCells()
    ensures AreCells(ENROLMENT_HEADINGS) && !IsSeparator(ENROLMENT_HEADINGS)
    ensures AreCells(SPECIFIED_HEADINGS) && !IsSeparator(SPECIFIED_HEADINGS)
    ensures AreCells(UNSPECIFIED_HEADINGS) && !IsSeparator(UNSPECIFIED_HEADINGS)
  {
    hide IsCell, IsDashes;
    PlainIsCell("Year");
    PlainIsCell("Session");
    PlainIsCell("Campus");
    PlainIsCell("Subject Code");
    PlainIsCell("Nom CP");
    PlainIsCell("Grade");
    PlainIsCell("Status");
    PlainIsCell("Course");
    PlainIsCell("Level");
    assert ENROLMENT_HEADINGS[0] == "Year" && SPECIFIED_HEADINGS[0] == "Course" && UNSPECIFIED_HEADINGS[0] == "Course";
  }

  // The heading and the divider open a table.
  lemma ReadTableTop(headings: seq<string>, columns: seq<string>, st: State, keepMarks: bool)
    requires headings != [] && AreCells(headings) && !IsSeparator(headings)
    requires NormAll(headings) == columns && Classify(columns).Some?
    ensures ReadLines([RowLine(headings), Divider(|headings|)], st, keepMarks) == Ok(st.(table := Classify(columns), columns := columns))
  {
    hide ReadLine, RowLine, Divider, Classify, NormAll, IsSeparator, AreCells, ReadLines;
    ReadHeadingRow(headings, columns, st, keepMarks);
    ReadOneLine(RowLine(headings), st, keepMarks);
    DividerIsSkipped(|headings|, st.(table := Classify(columns), columns := columns), keepMarks);
    ReadNextLine([RowLine(headings)], Divider(|headings|), st, keepMarks);
    assert [RowLine(headings)] + [Divider(|headings|)] == [RowLine(headings), Divider(|headings|)];
  }

  lemma {:induction false} ReadEnrolmentRows(rows: seq<EnrolmentRow>, st: State)
    requires ArePrintableRows(rows) && (forall k :: 0 <= k < |rows| ==> rows[k].mark.None?)
    requires st.table == Some(Enrolment) && st.columns == ENROLMENT_COLUMNS
    ensures ReadLines(RowLines(AllRowCells(rows)), st, false) == Ok(st.(rows := st.rows + rows))
  {
    hide IsPrintableRow, RowLine, RowCells, AreCells, IsSeparator, Classify, NormAll, ReadRow, ReadLine;
    if rows == [] {
      assert st.rows + rows == st.rows;
    } else {
      var n := |rows| - 1;
      var front, last := rows[..n], rows[n];
      ReadEnrolmentRows(front, st);
      assert RowLines(AllRowCells(rows)) == RowLines(AllRowCells(front)) + [RowLine(RowCells(last))];
      hide ReadLines;
      ReadNextLine(RowLines(AllRowCells(front)), RowLine(RowCells(last)), st, false);
      RowCellsAreCells(last);
      var middle := st.(rows := st.rows + front);
      RowCellsCount(last);
      ReadPrintedRow(RowCells(last), middle, false);
      RowReadsBack(last);
      assert st.rows + rows == middle.rows + [last];
    }
  }

  lemma RowCellsCount(row: EnrolmentRow)
    ensures |RowCells(row)| == 7 == |ENROLMENT_COLUMNS|
  {
  }

  function WithoutLevels(rows: seq<CreditRow>): (r: seq<CreditRow>)
    ensures |r| == |rows| && forall k :: 0 <= k < |rows| ==> r[k] == rows[k].(level := None)
  {
    seq(|rows|, k requires 0 <= k < |rows| => rows[k].(level := None))
  }

  lemma CreditCells(row: CreditRow)
    requires IsPrintableCredit(row)
    ensures IsCell(row.course) && IsCell(OrBlank(row.code)) && IsCell(OrBlank(row.level))
  {
    hide IsCell, IsSubjectCode, Upper;
    EmptyIsCell();
  }

  lemma SpecifiedLineReads(row: CreditRow, st: State)
    requires IsPrintableCredit(row) && st.table == Some(Specified) && st.columns == SPECIFIED_COLUMNS
    ensures ReadLine(RowLine(SpecifiedCells(row)), st, false) == Ok(st.(specified := st.specified + [row.(level := None)]))
  {
    hide IsPrintableCredit, RowLine, AreCells, IsSeparator, Classify, NormAll, ReadCredit, ReadLine, IsCell, OrBlank, IntText;
    CreditCells(row);
    CreditCellsAreCells(row.course, OrBlank(row.code), row.nomCp);
    ReadPrintedRow(SpecifiedCells(row), st, false);
    SpecifiedReadsBack(row);
  }

  lemma UnspecifiedLineReads(row: CreditRow, st: State, keepMarks: bool)
    requires IsPrintableCredit(row) && row.code.None? && st.table == Some(Unspecified) && st.columns == UNSPECIFIED_COLUMNS
    ensures ReadLine(RowLine(UnspecifiedCells(row)), st, keepMarks) == Ok(st.(unspecified := st.unspecified + [row]))
  {
    hide IsPrintableCredit, RowLine, AreCells, IsSeparator, Classify, NormAll, ReadCredit, ReadLine, IsCell, OrBlank, IntText;
    CreditCells(row);
    CreditCellsAreCells(row.course, OrBlank(row.level), row.nomCp);
    ReadPrintedRow(UnspecifiedCells(row), st, keepMarks);
    UnspecifiedReadsBack(row);
  }

  lemma {:induction false} ReadSpecifiedRows(rows: seq<CreditRow>, st: State)
    requires ArePrintableCredits(rows) && st.table == Some(Specified) && st.columns == SPECIFIED_COLUMNS
    ensures ReadLines(RowLines(AllSpecifiedCells(rows)), st, false) == Ok(st.(specified := st.specified + WithoutLevels(rows)))
  {
    hide IsPrintableCredit, RowLine, SpecifiedCells, ReadLine;
    if rows == [] {
      assert st.specified + WithoutLevels(rows) == st.specified;
    } else {
      var n := |rows| - 1;
      var front, last := rows[..n], rows[n];
      ReadSpecifiedRows(front, st);
      assert RowLines(AllSpecifiedCells(rows)) == RowLines(AllSpecifiedCells(front)) + [RowLine(SpecifiedCells(last))];
      hide ReadLines;
      ReadNextLine(RowLines(AllSpecifiedCells(front)), RowLine(SpecifiedCells(last)), st, false);
      var middle := st.(specified := st.specified + WithoutLevels(front));
      SpecifiedLineReads(last, middle);
      assert st.specified + WithoutLevels(rows) == middle.specified + [last.(level := None)];
    }
  }

  lemma {:induction false} ReadUnspecifiedRows(rows: seq<CreditRow>, st: State, keepMarks: bool)
    requires ArePrintableCredits(rows) && HaveNoCode(rows) && st.table == Some(Unspecified) && st.columns == UNSPECIFIED_COLUMNS
    ensures ReadLines(RowLines(AllUnspecifiedCells(rows)), st, keepMarks) == Ok(st.(unspecified := st.unspecified + rows))
  {
    hide IsPrintableCredit, RowLine, UnspecifiedCells, ReadLine;
    if rows == [] {
      assert st.unspecified + rows == st.unspecified;
    } else {
      var n := |rows| - 1;
      var front, last := rows[..n], rows[n];
      ReadUnspecifiedRows(front, st, keepMarks);
      assert RowLines(AllUnspecifiedCells(rows)) == RowLines(AllUnspecifiedCells(front)) + [RowLine(UnspecifiedCells(last))];
      hide ReadLines;
      ReadNextLine(RowLines(AllUnspecifiedCells(front)), RowLine(UnspecifiedCells(last)), st, keepMarks);
      var middle := st.(unspecified := st.unspecified + front);
      UnspecifiedLineReads(last, middle, keepMarks);
      assert st.unspecified + rows == middle.unspecified + [last];
    }
  }

  // ---------------------------------------------------------------- lines outside tables

  lemma ReadHeader(line: string, st: State, keepMarks: bool)
    requires Trim(line) == line && !IsTableLine(line)
    ensures ReadLine(line, st, keepMarks) == Ok(CloseTable(st).(header := ReadHeaderLine(line, st.header)))
  {
    hide Trim, ReadHeaderLine;
  }

  lemma ReadSilent(line: string, st: State, keepMarks: bool)
    requires IsSilent(line) && Trim(line) == line && !st.header.pending
    ensures ReadLine(line, st, keepMarks) == Ok(CloseTable(st))
  {
    hide Trim, ReadHeaderLine, ReadLine;
    ReadHeader(line, st, keepMarks);
    SilentLineIsSkipped(line, st.header);
  }

  // A section heading between two blank lines closes the table before it.
  lemma ReadSectionTop(title: string, st: State, keepMarks: bool)
    requires title != "" && title[0] == '#' && Trim(title) == title && !st.header.pending
    ensures ReadLines(["", title, ""], st, keepMarks) == Ok(CloseTable(st))
  {
    hide Trim, ReadLine, ReadLines;
    TrimNothing();
    ReadSilent("", st, keepMarks);
    ReadOneLine("", st, keepMarks);
    ReadSilent(title, CloseTable(st), keepMarks);
    ReadNextLine([""], title, st, keepMarks);
    assert [""] + [title] == ["", title];
    ReadSilent("", CloseTable(st), keepMarks);
    ReadNextLine(["", title], "", st, keepMarks);
    assert ["", title] + [""] == ["", title, ""];
  }

  lemma TrimNothing()
    ensures Trim("") == ""
  {
  }

  lemma TrimTitle(title: string)
    requires title != "" && !IsSpace(title[0]) && !IsSpace(title[|title| - 1])
    ensures Trim(title) == title
  {
    hide Strip;
  }

  // ---------------------------------------------------------------- the header

  // The majors that a second reading records.
  function Readable(majors: seq<string>): seq<string> {
    if majors == [] then []
    else
      var last := MajorFrom(majors[|majors| - 1]);
      Readable(majors[..|majors| - 1]) + if last.Some? then [last.value] else []
  }

  lemma MajorLineIsHeader(index: nat, major: string)
    requires IsMajorText(major)
    ensures Trim(MajorLine(index, major)) == MajorLine(index, major) && !IsTableLine(MajorLine(index, major))
  {
    hide Strip, Decimal;
    var line := MajorLine(index, major);
    assert line[0] == '*' && line[|line| - 1] == major[|major| - 1];
  }

  lemma ReadMajorLine(index: nat, major: string, st: State)
    requires IsMajorText(major) && !st.header.pending
    ensures ReadLine(MajorLine(index, major), st, false) == Ok(CloseTable(st).(header := AddMajor(st.header, major)))
  {
    hide Trim, ReadHeaderLine, ReadLine, MajorLine, IsMajorText, AddMajor;
    MajorLineIsHeader(index, major);
    ReadHeader(MajorLine(index, major), st, false);
    MajorLineIsRead(index, major, st.header);
  }

  lemma AddMajorAppends(h: Header, majors: seq<string>, major: string)
    requires h.majors == Readable(majors)
    ensures AddMajor(h, major) == h.(majors := Readable(majors + [major]))
  {
    hide MajorFrom;
    assert (majors + [major])[..|majors|] == majors;
    assert Readable(majors) + [] == Readable(majors);
  }

  lemma {:induction false} ReadMajorLines(majors: seq<string>, st: State)
    requires (forall k :: 0 <= k < |majors| ==> IsMajorText(majors[k]))
    requires !st.header.pending && st.header.majors == [] && CloseTable(st) == st
    ensures ReadLines(MajorLines(majors), st, false) == Ok(st.(header := st.header.(majors := Readable(majors))))
  {
    hide IsMajorText, MajorLine, ReadLine, AddMajor;
    if majors != [] {
      var n := |majors| - 1;
      var front, last := majors[..n], majors[n];
      ReadMajorLines(front, st);
      assert MajorLines(majors) == MajorLines(front) + [MajorLine(n, last)];
      assert majors == front + [last];
      hide ReadLines, Readable;
      ReadNextLine(MajorLines(front), MajorLine(n, last), st, false);
      var middle := st.(header := st.header.(majors := Readable(front)));
      ReadMajorLine(n, last, middle);
      AddMajorAppends(middle.header, front, last);
    }
  }

  lemma LabelLine(prefix: string, value: string)
    requires prefix != "" && prefix[0] == '*' && value != "" && !IsSpace(value[|value| - 1])
    ensures Trim(prefix + value) == prefix + value && !IsTableLine(prefix + value)
  {
    hide Strip;
    var line := prefix + value;
    assert line[0] == '*' && line[|line| - 1] == value[|value| - 1];
  }

  lemma ReadCourseLines(course: Option<string>, st: State)
    requires course.Some? ==> IsCourseNumber(course.value)
    requires !st.header.pending && st.header.course.None? && CloseTable(st) == st
    ensures ReadLines(CourseLines(course), st, false) == Ok(st.(header := st.header.(course := course)))
  {
    hide Trim, ReadHeaderLine, ReadLine;
    if course.Some? {
      LabelLine("**Course:** ", course.value);
      var line := "**Course:** " + course.value;
      ReadHeader(line, st, false);
      CourseLineIsRead(course.value, st.header);
      ReadOneLine(line, st, false);
    }
  }

  lemma ReadCampusLines(campus: Option<string>, st: State)
    requires campus.Some? ==> IsCampusName(campus.value) && IsTrimmed(campus.value)
    requires !st.header.pending && st.header.campus.None? && CloseTable(st) == st
    ensures ReadLines(CampusLines(campus), st, false) == Ok(st.(header := st.header.(campus := campus)))
  {
    hide Trim, ReadHeaderLine, ReadLine;
    if campus.Some? {
      LabelLine("**Campus:** ", campus.value);
      var line := "**Campus:** " + campus.value;
      ReadHeader(line, st, false);
      CampusLineIsRead(campus.value, st.header);
      ReadOneLine(line, st, false);
    }
  }

  lemma ReadTitleLines(st: State)
    requires !st.header.pending && CloseTable(st) == st
    ensures ReadLines(["# Enrolment Record", ""], st, false) == Ok(st)
  {
    hide Trim, ReadLine, ReadLines;
    TrimTitle("# Enrolment Record");
    TrimNothing();
    ReadSilent("# Enrolment Record", st, false);
    ReadOneLine("# Enrolment Record", st, false);
    ReadSilent("", st, false);
    ReadNextLine(["# Enrolment Record"], "", st, false);
    assert ["# Enrolment Record"] + [""] == ["# Enrolment Record", ""];
  }

  lemma ReadHeaderLines(r: EnrolmentRecord)
    requires IsPrintableHeader(Header(r.course, r.campus, r.majors, false))
    ensures ReadLines(HeaderLines(r), INITIAL, false) ==
      Ok(INITIAL.(header := Header(r.course, r.campus, Readable(r.majors), false)))
  {
    hide ReadLines, CourseLines, CampusLines, MajorLines, IsMajorText, IsCampusName, IsCourseNumber, IsTrimmed, Readable;
    var title := ["# Enrolment Record", ""];
    ReadTitleLines(INITIAL);
    var st1 := INITIAL.(header := INITIAL.header.(course := r.course));
    ReadCourseLines(r.course, INITIAL);
    ReadLinesAppend(title, CourseLines(r.course), INITIAL, false);
    var st2 := st1.(header := st1.header.(campus := r.campus));
    ReadCampusLines(r.campus, st1);
    ReadLinesAppend(title + CourseLines(r.course), CampusLines(r.campus), INITIAL, false);
    ReadMajorLines(r.majors, st2);
    ReadLinesAppend(title + CourseLines(r.course) + CampusLines(r.campus), MajorLines(r.majors), INITIAL, false);
  }

  // ---------------------------------------------------------------- the sections

  lemma ReadSection(title: string, headings: seq<string>, columns: seq<string>, body: seq<seq<string>>, st: State, keepMarks: bool)
    requires title != "" && title[0] == '#' && Trim(title) == title && !st.header.pending
    requires headings != [] && AreCells(headings) && !IsSeparator(headings)
    requires NormAll(headings) == columns && Classify(columns).Some?
    ensures ReadLines(["", title, ""] + TableLines(headings, body), st, keepMarks) ==
      ReadLines(RowLines(body), st.(table := Classify(columns), columns := columns), keepMarks)
  {
    hide ReadLines, Classify, NormAll, IsSeparator, AreCells, Trim, RowLine, Divider, RowLines;
    var top := [RowLine(headings), Divider(|headings|)];
    ReadSectionTop(title, st, keepMarks);
    ReadTableTop(headings, columns, CloseTable(st), keepMarks);
    ReadLinesAppend(["", title, ""], top, st, keepMarks);
    ReadLinesAppend(["", title, ""] + top, RowLines(body), st, keepMarks);
    assert ["", title, ""] + TableLines(headings, body) == ["", title, ""] + top + RowLines(body);
  }

  lemma ReadHistoryLines(rows: seq<EnrolmentRow>, st: State)
    requires ArePrintableRows(rows) && (forall k :: 0 <= k < |rows| ==> rows[k].mark.None?) && !st.header.pending
    ensures ReadLines(HistoryLines(rows), st, false) ==
      Ok(st.(rows := st.rows + rows, table := Some(Enrolment), columns := ENROLMENT_COLUMNS))
  {
    hide ReadLines, Classify, NormAll, IsSeparator, AreCells, Trim, IsPrintableRow, TableLines, RowLines, AllRowCells;
    HeadingsAreCells();
    HeadingsNormalise();
    ColumnsClassify();
    TrimTitle("## Enrolment History");
    ReadSection("## Enrolment History", ENROLMENT_HEADINGS, ENROLMENT_COLUMNS, AllRowCells(rows), st, false);
    ReadEnrolmentRows(rows, st.(table := Some(Enrolment), columns := ENROLMENT_COLUMNS));
  }

  // Some state of the table is left open after the credit sections; it no longer matters.
  lemma ReadSpecifiedLines(rows: seq<CreditRow>, st: State) returns (next: State)
    requires ArePrintableCredits(rows) && !st.header.pending
    ensures ReadLines(SpecifiedLines(rows), st, false) == Ok(next)
    ensures next == st.(specified := st.specified + WithoutLevels(rows), table := next.table, columns := next.columns)
  {
    hide Classify, NormAll, IsSeparator, AreCells, Trim, IsPrintableCredit, TableLines, RowLines, AllSpecifiedCells, ReadLine;
    if rows == [] {
      assert st.specified + WithoutLevels(rows) == st.specified;
      next := st;
    } else {
      hide ReadLines;
      HeadingsAreCells();
      HeadingsNormalise();
      ColumnsClassify();
      TrimTitle("## Specified Credit");
      ReadSection("## Specified Credit", SPECIFIED_HEADINGS, SPECIFIED_COLUMNS, AllSpecifiedCells(rows), st, false);
      next := st.(specified := st.specified + WithoutLevels(rows), table := Some(Specified), columns := SPECIFIED_COLUMNS);
      ReadSpecifiedRows(rows, st.(table := Some(Specified), columns := SPECIFIED_COLUMNS));
    }
  }

  lemma ReadUnspecifiedLines(rows: seq<CreditRow>, st: State, keepMarks: bool) returns (next: State)
    requires ArePrintableCredits(rows) && HaveNoCode(rows) && !st.header.pending
    ensures ReadLines(UnspecifiedLines(rows), st, keepMarks) == Ok(next)
    ensures next == st.(unspecified := st.unspecified + rows, table := next.table, columns := next.columns)
  {
    hide Classify, NormAll, IsSeparator, AreCells, Trim, IsPrintableCredit, TableLines, RowLines, AllUnspecifiedCells, ReadLine;
    if rows == [] {
      assert st.unspecified + rows == st.unspecified;
      next := st;
    } else {
      hide ReadLines;
      HeadingsAreCells();
      HeadingsNormalise();
      ColumnsClassify();
      TrimTitle("## Unspecified Credit");
      ReadSection("## Unspecified Credit", UNSPECIFIED_HEADINGS, UNSPECIFIED_COLUMNS, AllUnspecifiedCells(rows), st, keepMarks);
      next := st.(unspecified := st.unspecified + rows, table := Some(Unspecified), columns := UNSPECIFIED_COLUMNS);
      ReadUnspecifiedRows(rows, st.(table := Some(Unspecified), columns := UNSPECIFIED_COLUMNS), keepMarks);
    }
  }

  // ---------------------------------------------------------------- the whole text

  predicate IsPrintedLine(line: string) {
    HasNoBreak(line) && IsTableLine(line)
  }

  predicate ArePrintedLines(lines: seq<string>) {
    forall k :: 0 <= k < |lines| ==> IsPrintedLine(lines[k])
  }

  lemma RowLineIsPrinted(cells: seq<string>)
    requires AreCells(cells)
    ensures IsPrintedLine(RowLine(cells))
  {
    hide RowLine, AreCells, HasNoBreak;
    RowLineHasNoBreak(cells);
    RowLineIsTableLine(cells);
  }

  lemma RowLinesArePrinted(body: seq<seq<string>>)
    requires forall k :: 0 <= k < |body| ==> AreCells(body[k])
    ensures ArePrintedLines(RowLines(body))
  {
    hide IsPrintedLine, RowLine, AreCells;
    forall k | 0 <= k < |body| ensures IsPrintedLine(RowLines(body)[k]) {
      RowLineIsPrinted(body[k]);
    }
  }

  lemma DividerIsPrinted(n: nat)
    requires n > 0
    ensures IsPrintedLine(Divider(n))
  {
    hide Divider, ReadLine, HasNoBreak, IsTableLine;
    DividerIsSkipped(n, INITIAL, false);
    DividerIsTableLine(n);
  }

  lemma TableLinesArePrinted(headings: seq<string>, body: seq<seq<string>>)
    requires headings != [] && AreCells(headings) && forall k :: 0 <= k < |body| ==> AreCells(body[k])
    ensures ArePrintedLines(TableLines(headings, body)) && |TableLines(headings, body)| == 2 + |body|
  {
    hide IsPrintedLine, RowLine, Divider, AreCells, RowLines;
    RowLineIsPrinted(headings);
    DividerIsPrinted(|headings|);
    RowLinesArePrinted(body);
  }

  lemma TableLinesHaveNoBreaks(headings: seq<string>, body: seq<seq<string>>)
    requires headings != [] && AreCells(headings) && forall k :: 0 <= k < |body| ==> AreCells(body[k])
    ensures HaveNoBreaks(TableLines(headings, body))
    ensures |TableLines(headings, body)| >= 2 + |body|
    ensures forall k :: 0 <= k < |TableLines(headings, body)| ==> IsTableLine(TableLines(headings, body)[k])
  {
    hide TableLines, AreCells, HasNoBreak, IsTableLine;
    TableLinesArePrinted(headings, body);
  }

  lemma DividerIsTableLine(n: nat)
    ensures IsTableLine(Divider(n))
  {
    hide Join;
  }

  lemma LabelHasNoBreak(prefix: string, value: string)
    requires HasNoBreak(prefix) && forall k :: 0 <= k < |value| ==> !IsBreak(value[k])
    ensures HasNoBreak(prefix + value)
  {
  }

  lemma LiteralsHaveNoBreaks()
    ensures HasNoBreak("") && HasNoBreak("# Enrolment Record") && HasNoBreak("**Course:** ") && HasNoBreak("**Campus:** ")
    ensures HasNoBreak("**Major:** ") && HasNoBreak("**Major ") && HasNoBreak(":** ")
  {
  }

  lemma TitlesHaveNoBreaks()
    ensures HasNoBreak("") && HasNoBreak("## Enrolment History") && HasNoBreak("## Specified Credit") && HasNoBreak("## Unspecified Credit")
  {
  }

  lemma MajorLineHasNoBreak(index: nat, major: string)
    requires IsMajorText(major)
    ensures HasNoBreak(MajorLine(index, major))
  {
    hide Decimal, HasNoBreak;
    LiteralsHaveNoBreaks();
    assert forall k :: 0 <= k < |major| ==> !IsBreak(major[k]);
    LabelHasNoBreak("**Major:** ", major);
    var number := Decimal(index + 1);
    LabelHasNoBreak("**Major ", number);
    LabelHasNoBreak("**Major " + number, ":** ");
    LabelHasNoBreak("**Major " + number + ":** ", major);
  }

  lemma HeaderLinesHaveNoBreaks(r: EnrolmentRecord)
    requires IsPrintableHeader(Header(r.course, r.campus, r.majors, false))
    ensures HaveNoBreaks(HeaderLines(r))
  {
    hide HasNoBreak, IsMajorText, MajorLine;
    LiteralsHaveNoBreaks();
    if r.course.Some? {
      LabelHasNoBreak("**Course:** ", r.course.value);
    }
    if r.campus.Some? {
      LabelHasNoBreak("**Campus:** ", r.campus.value);
    }
    forall k | 0 <= k < |r.majors| ensures HasNoBreak(MajorLines(r.majors)[k]) {
      MajorLineHasNoBreak(k, r.majors[k]);
    }
  }

  lemma HistoryLinesHaveNoBreaks(rows: seq<EnrolmentRow>)
    requires ArePrintableRows(rows)
    ensures HaveNoBreaks(HistoryLines(rows)) && |HistoryLines(rows)| >= 5
    ensures forall k :: 3 <= k < |HistoryLines(rows)| ==> IsTableLine(HistoryLines(rows)[k])
  {
    hide HasNoBreak, IsPrintableRow, RowCells, AreCells, TableLines, IsSeparator;
    TitlesHaveNoBreaks();
    HeadingsAreCells();
    forall k | 0 <= k < |rows| ensures AreCells(AllRowCells(rows)[k]) {
      RowCellsAreCells(rows[k]);
    }
    TableLinesHaveNoBreaks(ENROLMENT_HEADINGS, AllRowCells(rows));
  }

  lemma SpecifiedLinesHaveNoBreaks(rows: seq<CreditRow>)
    requires ArePrintableCredits(rows)
    ensures HaveNoBreaks(SpecifiedLines(rows))
    ensures SpecifiedLines(rows) != [] ==> SpecifiedLines(rows)[|SpecifiedLines(rows)| - 1] != ""
  {
    hide HasNoBreak, IsPrintableCredit, AreCells, TableLines, IsSeparator, OrBlank, IsCell, IntText;
    TitlesHaveNoBreaks();
    HeadingsAreCells();
    forall k | 0 <= k < |rows| ensures AreCells(AllSpecifiedCells(rows)[k]) {
      CreditCells(rows[k]);
      CreditCellsAreCells(rows[k].course, OrBlank(rows[k].code), rows[k].nomCp);
    }
    TableLinesHaveNoBreaks(SPECIFIED_HEADINGS, AllSpecifiedCells(rows));
  }

  lemma UnspecifiedLinesHaveNoBreaks(rows: seq<CreditRow>)
    requires ArePrintableCredits(rows)
    ensures HaveNoBreaks(UnspecifiedLines(rows))
    ensures UnspecifiedLines(rows) != [] ==> UnspecifiedLines(rows)[|UnspecifiedLines(rows)| - 1] != ""
  {
    hide HasNoBreak, IsPrintableCredit, AreCells, TableLines, IsSeparator, OrBlank, IsCell, IntText;
    TitlesHaveNoBreaks();
    HeadingsAreCells();
    forall k | 0 <= k < |rows| ensures AreCells(AllUnspecifiedCells(rows)[k]) {
      CreditCells(rows[k]);
      CreditCellsAreCells(rows[k].course, OrBlank(rows[k].level), rows[k].nomCp);
    }
    TableLinesHaveNoBreaks(UNSPECIFIED_HEADINGS, AllUnspecifiedCells(rows));
  }

  // A printed record has the lines that were printed.
  lemma LinesOfRendered(r: EnrolmentRecord)
    requires IsPrintable(r)
    ensures Lines(Rendered(r)) == RenderedLines(r)
  {
    hide HasNoBreak, IsPrintableRow, ArePrintableRows, ArePrintableCredits, HaveNoCode, IsPrintableHeader, Lines, Join,
      HeaderLines, HistoryLines, SpecifiedLines, UnspecifiedLines;
    HeaderLinesHaveNoBreaks(r);
    HistoryLinesHaveNoBreaks(r.rows);
    SpecifiedLinesHaveNoBreaks(r.specified);
    UnspecifiedLinesHaveNoBreaks(r.unspecified);
    var lines := RenderedLines(r);
    var h := HistoryLines(r.rows);
    assert IsTableLine(h[|h| - 1]);
    assert lines[|lines| - 1] != "";
    LinesJoined(lines);
  }

  // What a second reading of a printed record gives: majors that still read as majors, and
  // specified credit without its level.
  function Reread(r: EnrolmentRecord): EnrolmentRecord {
    r.(majors := Readable(r.majors), specified := WithoutLevels(r.specified))
  }

  lemma ReadRenderedLines(r: EnrolmentRecord) returns (last: State)
    requires IsPrintable(r) && forall k :: 0 <= k < |r.rows| ==> r.rows[k].mark.None?
    ensures ReadLines(RenderedLines(r), INITIAL, false) == Ok(last)
    ensures last == State(Header(r.course, r.campus, Readable(r.majors), false), r.rows, WithoutLevels(r.specified), r.unspecified,
                          last.table, last.columns)
  {
    hide ReadLines, IsPrintableRow, ArePrintableRows, ArePrintableCredits, HaveNoCode, IsPrintableHeader,
      HeaderLines, HistoryLines, SpecifiedLines, UnspecifiedLines, Readable;
    var a, b, c, d := HeaderLines(r), HistoryLines(r.rows), SpecifiedLines(r.specified), UnspecifiedLines(r.unspecified);
    ReadHeaderLines(r);
    var st1 := INITIAL.(header := Header(r.course, r.campus, Readable(r.majors), false));
    ReadHistoryLines(r.rows, st1);
    ReadLinesAppend(a, b, INITIAL, false);
    assert st1.rows + r.rows == r.rows;
    var st2 := st1.(rows := r.rows, table := Some(Enrolment), columns := ENROLMENT_COLUMNS);
    var st3 := ReadSpecifiedLines(r.specified, st2);
    ReadLinesAppend(a + b, c, INITIAL, false);
    assert st2.specified + WithoutLevels(r.specified) == WithoutLevels(r.specified);
    last := ReadUnspecifiedLines(r.unspecified, st3, false);
    ReadLinesAppend(a + b + c, d, INITIAL, false);
    assert st3.unspecified + r.unspecified == r.unspecified;
  }

  // The table parser reads a printed record back.
  lemma RenderedReadsBack(r: EnrolmentRecord)
    requires IsPrintable(r) && forall k :: 0 <= k < |r.rows| ==> r.rows[k].mark.None?
    ensures TableRecord(Rendered(r), false) == Ok(Reread(r))
  {
    hide ReadLines, ArePrintableRows, ArePrintableCredits, HaveNoCode, IsPrintableHeader, Lines, RenderedLines, Rendered,
      Readable, WithoutLevels;
    LinesOfRendered(r);
    var last := ReadRenderedLines(r);
  }
}
