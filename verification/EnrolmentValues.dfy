/**
 What the table parser lets through. Years and credit points are integers, and codes, grades, statuses
 and the header have closed shapes; session and campus of a row and course and level of a credit are any
 text that a cell can hold, so that these four columns do carry text onward.
 */
module EnrolmentValues {
  import opened Text
  import opened Records
  import opened EnrolmentShapes
  import opened EnrolmentTable

  // ---------------------------------------------------------------- shapes

  predicate HasNoBreak(s: string) {
    forall c :: c in s ==> !IsBreak(c)
  }

  // What a cell can hold.
  predicate IsCell(s: string) {
    IsTrimmed(s) && HasNoBreak(s) && '|' !in s
  }

  predicate IsCourseNumber(s: string) {
    3 <= |s| <= 4 && forall k :: 0 <= k < |s| ==> IsDigit(s[k])
  }

  // A code or a title.
  predicate IsMajorText(s: string) {
    s != "" && IsUpper(s[0]) && IsTrimmed(s) && forall k :: 0 <= k < |s| ==> IsTitleChar(s[k]) || s[k] == ' '
  }

  predicate IsPrintableRow(row: EnrolmentRow) {
    && IsCell(row.session)
    && IsCell(row.campus) && '/' !in row.campus
    && IsSubjectCode(row.code) && Upper(row.code) == row.code && IsCell(row.code)
    && (row.grade.Some? ==> IsGrade(row.grade.value) && Upper(row.grade.value) == row.grade.value && IsCell(row.grade.value))
    && IsStatus(row.status) && IsCell(row.status)
  }

  predicate IsPrintableCode(code: Option<string>) {
    code.Some? ==> IsSubjectCode(code.value) && Upper(code.value) == code.value && IsCell(code.value)
  }

  predicate IsPrintableCredit(row: CreditRow) {
    && IsCell(row.course)
    && IsPrintableCode(row.code)
    && (row.level.Some? ==> row.level.value != "" && IsCell(row.level.value))
  }

  predicate IsPrintableHeader(h: Header) {
    && (h.course.Some? ==> IsCourseNumber(h.course.value))
    && (h.campus.Some? ==> IsCampusName(h.campus.value) && IsTrimmed(h.campus.value))
    && forall k :: 0 <= k < |h.majors| ==> IsMajorText(h.majors[k])
  }

  predicate ArePrintableRows(rows: seq<EnrolmentRow>) {
    forall k :: 0 <= k < |rows| ==> IsPrintableRow(rows[k])
  }

  predicate ArePrintableCredits(rows: seq<CreditRow>) {
    forall k :: 0 <= k < |rows| ==> IsPrintableCredit(rows[k])
  }

  predicate HaveNoCode(rows: seq<CreditRow>) {
    forall k :: 0 <= k < |rows| ==> rows[k].code.None?
  }

  // The closed columns have their shapes, and the open ones hold cells.
  predicate IsPrintable(r: EnrolmentRecord) {
    && IsPrintableHeader(Header(r.course, r.campus, r.majors, false))
    && r.rows != [] && ArePrintableRows(r.rows)
    && ArePrintableCredits(r.specified)
    && ArePrintableCredits(r.unspecified) && HaveNoCode(r.unspecified)
  }

  // ---------------------------------------------------------------- cells

  lemma TrimKeeps(s: string)
    ensures IsTrimmed(Trim(s))
    ensures forall c :: c in Trim(s) ==> c in s
  {
    var left := StripLeft(s, SPACES);
    var both := StripRight(left, SPACES);
    StripLeftIsSuffix(s, SPACES);
    StripRightIsPrefix(left, SPACES);
    hide StripLeft, StripRight;
    assert forall c :: c in left ==> c in s;
    assert forall c :: c in both ==> c in left;
  }

  lemma StripKeeps(s: string, drop: set<char>)
    ensures forall c :: c in Strip(s, drop) ==> c in s
  {
    var left := StripLeft(s, drop);
    var both := StripRight(left, drop);
    StripLeftIsSuffix(s, drop);
    StripRightIsPrefix(left, drop);
    hide StripLeft, StripRight;
    assert forall c :: c in left ==> c in s;
    assert forall c :: c in both ==> c in left;
  }

  lemma {:induction false} SplitKeeps(s: string, c: char, part: string, x: char)
    requires part in Split(s, c) && x in part
    ensures x in s
    decreases |s|
  {
    if s != "" {
      var rest := Split(s[1..], c);
      var parts := if s[0] == c then [""] + rest else [[s[0]] + rest[0]] + rest[1..];
      assert parts == Split(s, c);
      var k :| 0 <= k < |parts| && parts[k] == part;
      if k > 0 {
        assert part == rest[if s[0] == c then k - 1 else k];
        SplitKeeps(s[1..], c, part, x);
      } else if s[0] != c && x != s[0] {
        assert x in rest[0];
        SplitKeeps(s[1..], c, rest[0], x);
      }
    }
  }

  lemma UpperKeepsCell(s: string)
    requires IsCell(s)
    ensures IsCell(Upper(s)) && Upper(Upper(s)) == Upper(s)
  {
    var u := Upper(s);
    hide Upper;
    forall c | c in u ensures !IsBreak(c) && c != '|' {
      var k :| 0 <= k < |u| && u[k] == c;
      assert s[k] in s && c == UpperChar(s[k]);
    }
    if s != "" {
      assert u[0] == UpperChar(s[0]) && u[|s| - 1] == UpperChar(s[|s| - 1]);
    }
    assert forall k :: 0 <= k < |s| ==> Upper(u)[k] == UpperChar(UpperChar(s[k])) == u[k];
    assert Upper(u) == u;
  }

  lemma PartIsCell(line: string, part: string)
    requires HasNoBreak(line) && part in Split(Strip(Trim(line), {'|'}), '|')
    ensures IsCell(Trim(part))
  {
    hide Trim, Strip, Split;
    var inner := Strip(Trim(line), {'|'});
    TrimKeeps(line);
    StripKeeps(Trim(line), {'|'});
    TrimKeeps(part);
    var parts := Split(inner, '|');
    var k :| 0 <= k < |parts| && parts[k] == part;
    forall c | c in Trim(part) ensures !IsBreak(c) && c != '|' {
      SplitKeeps(inner, '|', part, c);
    }
  }

  predicate AreCells(cells: seq<string>) {
    forall k :: 0 <= k < |cells| ==> IsCell(cells[k])
  }

  lemma SplitRowGivesCells(line: string)
    requires HasNoBreak(line)
    ensures AreCells(SplitRow(line))
  {
    hide Trim, Strip, Split, IsCell;
    var parts := Split(Strip(Trim(line), {'|'}), '|');
    forall k | 0 <= k < |parts| ensures IsCell(Trim(parts[k])) {
      PartIsCell(line, parts[k]);
    }
  }

  lemma {:induction false} GetGivesCell(columns: seq<string>, cells: seq<string>, name: string)
    requires |columns| == |cells| && AreCells(cells)
    ensures Get(columns, cells, name).Some? ==> IsCell(Get(columns, cells, name).value)
    ensures name !in columns ==> Get(columns, cells, name).None?
  {
    hide IsCell;
    if columns != [] && columns[|columns| - 1] != name {
      GetGivesCell(columns[..|columns| - 1], cells[..|columns| - 1], name);
    }
  }

  lemma GetOrGivesCell(columns: seq<string>, cells: seq<string>, name: string)
    requires |columns| == |cells| && AreCells(cells)
    ensures IsCell(GetOr(columns, cells, name))
    ensures name !in columns ==> GetOr(columns, cells, name) == ""
  {
    hide Get, AreCells;
    GetGivesCell(columns, cells, name);
  }

  // ---------------------------------------------------------------- rows

  lemma CampusHalfIsCell(s: string)
    requires HasNoBreak(s) && '|' !in s
    ensures IsCell(CampusHalf(s)) && '/' !in CampusHalf(s)
  {
    hide Trim, Split;
    var part := Split(s, '/')[0];
    TrimKeeps(part);
    forall c | c in Trim(part) ensures !IsBreak(c) && c != '|' {
      SplitKeeps(s, '/', part, c);
    }
  }

  lemma CellIsPlain(s: string)
    requires IsCell(s)
    ensures HasNoBreak(s) && '|' !in s
  {
  }

  lemma RowFromIsPrintable(year: string, session: string, campus: string, rawCode: string, cp: string, rawGrade: string, status: string)
    requires IsCell(session) && IsCell(campus) && IsCell(rawCode) && IsCell(rawGrade) && IsCell(status)
    ensures var row := RowFrom(year, session, campus, rawCode, cp, rawGrade, status);
      row.Ok? ==> IsPrintableRow(row.value) && row.value.mark.None?
  {
    hide IsCell, HasNoBreak, Upper, CampusHalf, IsGrade, IsStatus, IsSubjectCode, PythonInt;
    CellIsPlain(campus);
    CampusHalfIsCell(campus);
    UpperKeepsCell(rawCode);
    UpperKeepsCell(rawGrade);
  }

  lemma ReadRowIsPrintable(columns: seq<string>, cells: seq<string>, keepMarks: bool)
    requires |columns| == |cells| && AreCells(cells)
    ensures var row := ReadRow(columns, cells, keepMarks);
      row.Ok? ==> IsPrintableRow(row.value) && MarkIsRead(row.value, keepMarks)
  {
    hide IsCell, RowFrom, GetOr, AreCells;
    GetOrGivesCell(columns, cells, "campus/delivery");
    GetOrGivesCell(columns, cells, "campus");
    GetOrGivesCell(columns, cells, "session");
    GetOrGivesCell(columns, cells, "subject code");
    GetOrGivesCell(columns, cells, "grade");
    GetOrGivesCell(columns, cells, "status");
    var delivery := GetOr(columns, cells, "campus/delivery");
    RowFromIsPrintable(
      GetOr(columns, cells, "year"), GetOr(columns, cells, "session"),
      if delivery != "" then delivery else GetOr(columns, cells, "campus"),
      GetOr(columns, cells, "subject code"), GetOr(columns, cells, "nom cp"),
      GetOr(columns, cells, "grade"), GetOr(columns, cells, "status"));
  }

  // Marks are kept only on request, and only within 0..100.
  predicate MarkIsRead(row: EnrolmentRow, keepMarks: bool) {
    row.mark.Some? ==> keepMarks && 0 <= row.mark.value <= 100
  }

  predicate MarksAreRead(rows: seq<EnrolmentRow>, keepMarks: bool) {
    forall k :: 0 <= k < |rows| ==> MarkIsRead(rows[k], keepMarks)
  }

  lemma ReadCreditIsPrintable(columns: seq<string>, cells: seq<string>)
    requires |columns| == |cells| && AreCells(cells)
    ensures var row := ReadCredit(columns, cells);
      row.Ok? ==> IsPrintableCredit(row.value) && ("subject code" !in columns ==> row.value.code.None?)
  {
    hide IsCell, GetOr, AreCells, Upper, IsSubjectCode, PythonInt;
    GetOrGivesCell(columns, cells, "course");
    GetOrGivesCell(columns, cells, "subject code");
    GetOrGivesCell(columns, cells, "level");
    UpperKeepsCell(GetOr(columns, cells, "subject code"));
    assert Upper("") == "" by {
      assert |Upper("")| == 0;
    }
  }

  // ---------------------------------------------------------------- the header

  lemma CourseOfIsNumber(line: string)
    ensures CourseOf(line).Some? ==> IsCourseNumber(CourseOf(line).value)
  {
    hide AfterLabel;
  }

  lemma CampusOfIsName(line: string)
    ensures CampusOf(line).Some? ==> IsCampusName(CampusOf(line).value) && IsTrimmed(CampusOf(line).value)
  {
    hide AfterLabel;
  }

  lemma {:induction false} SplitHead(s: string, c: char)
    ensures var head := Split(s, c)[0]; |head| <= |s| && head == s[..|head|] && (|head| < |s| ==> s[|head|] == c)
    ensures |Split(s, c)| == 1 <==> |Split(s, c)[0]| == |s|
  {
    if s != "" {
      SplitHead(s[1..], c);
    }
  }

  // Every character of a title is a letter, '&', '-' or a space.
  lemma {:induction false} WordsHaveTitleChars(s: string, k: nat)
    requires k < |s| && forall i :: 0 <= i < |Split(s, ' ')| ==> WordChars(Split(s, ' ')[i])
    ensures IsTitleChar(s[k]) || s[k] == ' '
    decreases |s|
  {
    var rest := Split(s[1..], ' ');
    var parts := if s[0] == ' ' then [""] + rest else [[s[0]] + rest[0]] + rest[1..];
    hide IsTitleChar;
    assert parts == Split(s, ' ');
    assert WordChars(parts[0]);
    if k > 0 {
      forall i | 0 <= i < |rest| ensures WordChars(rest[i]) {
        if s[0] == ' ' {
          assert rest[i] == parts[i + 1];
        } else if i > 0 {
          assert rest[i] == parts[i];
        } else {
          assert parts[0] == [s[0]] + rest[0];
          assert forall j :: 0 <= j < |rest[0]| ==> rest[0][j] == parts[0][j + 1];
        }
      }
      WordsHaveTitleChars(s[1..], k - 1);
    } else if s[0] != ' ' {
      assert parts[0][0] == s[0];
    }
  }

  predicate WordChars(s: string) {
    forall k :: 0 <= k < |s| ==> IsTitleChar(s[k])
  }

  lemma TitleChars(s: string)
    requires IsTitle(s)
    ensures s != "" && IsUpper(s[0])
    ensures forall k :: 0 <= k < |s| ==> IsTitleChar(s[k]) || s[k] == ' '
  {
    hide Split;
    SplitHead(s, ' ');
    var words := Split(s, ' ');
    assert words[0][0] == s[0];
    forall i | 0 <= i < |words| ensures WordChars(words[i]) {
    }
    hide IsTitleChar;
    forall k | 0 <= k < |s| ensures IsTitleChar(s[k]) || s[k] == ' ' {
      WordsHaveTitleChars(s, k);
    }
  }

  lemma DropHonoursIsPrefix(s: string)
    requires s != "" && IsUpper(s[0])
    ensures var r := DropHonours(s); r != "" && |r| <= |s| && r == s[..|r|]
  {
    hide StartsWithFold;
    StripRightKeepsFirst(s);
    if |s| > 7 {
      StripRightIsPrefix(s[..|s| - 7], SPACES);
    }
    if |s| > 6 {
      StripRightIsPrefix(s[..|s| - 6], SPACES);
    }
  }

  lemma StripRightKeepsFirst(s: string)
    requires s != "" && !IsSpace(s[0])
    ensures forall n: nat :: 1 <= n <= |s| ==> StripRight(s[..n], SPACES) != ""
  {
    forall n: nat | 1 <= n <= |s| ensures StripRight(s[..n], SPACES) != "" {
      assert s[..n][0] == s[0];
    }
  }

  lemma TrimOfStart(s: string)
    requires s != "" && !IsSpace(s[0])
    ensures Trim(s) != "" && |Trim(s)| <= |s| && Trim(s) == s[..|Trim(s)|] && IsTrimmed(Trim(s))
  {
    assert StripLeft(s, SPACES) == s;
    StripRightIsPrefix(s, SPACES);
    StripRightKeepsFirst(s);
    assert s[..|s|] == s;
  }

  lemma MajorFromIsText(value: string)
    ensures MajorFrom(value).Some? ==> IsMajorText(MajorFrom(value).value)
  {
    hide IsTitle, IsUndeclared, DropHonours, Trim, IsTitleChar;
    if StartsWithCode(value) {
      var code := value[..UpperRun(value)];
      assert forall k :: 0 <= k < |code| ==> IsUpper(code[k]);
      UpperIsTitleChar(code);
    } else if IsTitle(value) && !IsUndeclared(value) {
      TitleChars(value);
      DropHonoursIsPrefix(value);
      TrimOfStart(DropHonours(value));
    }
  }

  lemma UpperIsTitleChar(s: string)
    requires forall k :: 0 <= k < |s| ==> IsUpper(s[k])
    ensures forall k :: 0 <= k < |s| ==> IsTitleChar(s[k]) && !IsSpace(s[k])
  {
  }

  lemma AddMajorIsPrintable(h: Header, value: string)
    requires IsPrintableHeader(h)
    ensures IsPrintableHeader(AddMajor(h, value))
  {
    hide MajorFrom, IsMajorText, IsCampusName, IsCourseNumber, IsTrimmed;
    MajorFromIsText(value);
  }

  lemma ReadHeaderLineIsPrintable(line: string, h: Header)
    requires IsPrintableHeader(h)
    ensures IsPrintableHeader(ReadHeaderLine(line, h))
  {
    hide CourseOf, CampusOf, MajorOf, MajorFrom, AddMajor, IsMajorText, IsCampusName, IsCourseNumber, Trim, IsTrimmed, Remove;
    CourseOfIsNumber(line);
    CampusOfIsName(line);
    var value := Trim(Remove(line, '*'));
    AddMajorIsPrintable(h, value);
    var cleared := h.(pending := false);
    assert IsPrintableHeader(cleared);
    if MajorOf(line).Some? {
      AddMajorIsPrintable(cleared, MajorOf(line).value);
    }
  }

  // ---------------------------------------------------------------- whole runs

  // What every state of the parser keeps.
  predicate IsGood(st: State, keepMarks: bool) {
    && IsPrintableHeader(st.header)
    && ArePrintableRows(st.rows) && MarksAreRead(st.rows, keepMarks)
    && ArePrintableCredits(st.specified)
    && ArePrintableCredits(st.unspecified) && HaveNoCode(st.unspecified)
    && (st.table.Some? ==> Classify(st.columns) == st.table)
  }

  lemma UnspecifiedHasNoCode(columns: seq<string>)
    requires Classify(columns) == Some(Unspecified)
    ensures "subject code" !in columns
  {
  }

  lemma ReadBodyIsGood(cells: seq<string>, st: State, keepMarks: bool)
    requires IsGood(st, keepMarks) && AreCells(cells)
    ensures var next := ReadBody(cells, st, keepMarks); next.Ok? ==> IsGood(next.value, keepMarks)
  {
    hide IsPrintableHeader, IsPrintableRow, IsPrintableCredit, MarkIsRead, Classify, ReadRow, ReadCredit, AreCells;
    if st.table.Some? && |cells| == |st.columns| {
      ReadRowIsPrintable(st.columns, cells, keepMarks);
      ReadCreditIsPrintable(st.columns, cells);
      if st.table == Some(Unspecified) {
        UnspecifiedHasNoCode(st.columns);
      }
    }
  }

  lemma ReadLineIsGood(rawLine: string, st: State, keepMarks: bool)
    requires IsGood(st, keepMarks) && HasNoBreak(rawLine)
    ensures var next := ReadLine(rawLine, st, keepMarks); next.Ok? ==> IsGood(next.value, keepMarks)
  {
    hide IsPrintableHeader, IsPrintableRow, IsPrintableCredit, MarkIsRead, Classify, ReadBody, ReadHeaderLine,
      SplitRow, Trim, IsSeparator, NormAll, HasNoBreak, AreCells;
    var line := Trim(rawLine);
    TrimHasNoBreak(rawLine);
    if IsTableLine(line) {
      SplitRowGivesCells(line);
      ReadBodyIsGood(SplitRow(line), st, keepMarks);
    } else {
      ReadHeaderLineIsPrintable(line, st.header);
    }
  }

  lemma TrimHasNoBreak(s: string)
    requires HasNoBreak(s)
    ensures HasNoBreak(Trim(s))
  {
    hide Trim;
    TrimKeeps(s);
  }

  predicate HaveNoBreaks(lines: seq<string>) {
    forall k :: 0 <= k < |lines| ==> HasNoBreak(lines[k])
  }

  lemma {:induction false} LinesHaveNoBreaks(s: string)
    ensures HaveNoBreaks(Lines(s))
    decreases |s|
  {
    var n := LineRun(s);
    if s == "" {
    } else if n == |s| {
      assert HasNoBreak(s);
    } else {
      var rest := if s[n] == '\r' && n + 1 < |s| && s[n + 1] == '\n' then s[n + 2..] else s[n + 1..];
      LinesHaveNoBreaks(rest);
      assert Lines(s) == [s[..n]] + Lines(rest);
      assert HasNoBreak(s[..n]);
      hide HasNoBreak, Lines;
    }
  }

  lemma {:induction false} ReadLinesIsGood(lines: seq<string>, st: State, keepMarks: bool)
    requires IsGood(st, keepMarks) && HaveNoBreaks(lines)
    ensures var last := ReadLines(lines, st, keepMarks); last.Ok? ==> IsGood(last.value, keepMarks)
  {
    hide IsGood, HasNoBreak, ReadLine;
    if lines != [] {
      ReadLineIsGood(lines[0], st, keepMarks);
      if ReadLine(lines[0], st, keepMarks).Ok? {
        ReadLinesIsGood(lines[1..], ReadLine(lines[0], st, keepMarks).value, keepMarks);
      }
    }
  }

  // Whatever is pasted, a record that comes back holds subject codes, known grades and statuses, integers
  // and a shaped header; cells in the open columns; and no mark unless marks were asked for.
  lemma TableRecordIsPrintable(raw: string, keepMarks: bool)
    ensures var r := TableRecord(raw, keepMarks);
      r.Ok? ==> IsPrintable(r.value) && MarksAreRead(r.value.rows, keepMarks)
  {
    hide IsPrintableRow, IsPrintableCredit, Lines, ReadLines, MarkIsRead, HaveNoBreaks;
    LinesHaveNoBreaks(raw);
    assert IsGood(INITIAL, keepMarks);
    ReadLinesIsGood(Lines(raw), INITIAL, keepMarks);
  }
}
