/** Records in the layout that SOLS prints them: delivery modes, subject names and marks in columns of their own. */
module SolsRecords {
  // Reading such a paste gives the record, whatever text stands before it, with its marks if they are
  // wanted and without them if not; delivery modes and subject names are left behind.

  import opened Text
  import opened Records
  import opened EnrolmentShapes
  import opened EnrolmentTable
  import opened EnrolmentPrinter
  import opened EnrolmentValues
  import opened EnrolmentReading
  import opened EnrolmentHeadings
  import opened EnrolmentRoundTrip
  import opened EnrolmentMarks

  // ---------------------------------------------------------------- the layout

  // A row and what follows its campus: nothing, or a slash and the delivery mode.
  datatype SolsRow = SolsRow(row: EnrolmentRow, delivery: string)

  // A credit for a named subject, and the subject's name.
  datatype SolsCredit = SolsCredit(credit: CreditRow, name: string)

  const SOLS_HEADINGS := ["Year", "Session", "Campus/Delivery", "Subject Code", "Nom CP", "Mark", "Grade", "Status"]
  const SOLS_COLUMNS := ["year", "session", "campus/delivery", "subject code", "nom cp", "mark", "grade", "status"]
  const CREDIT_HEADINGS := ["Course", "Subject Code", "Name", "Level", "Nom CP"]
  const CREDIT_COLUMNS := ["course", "subject code", "name", "level", "nom cp"]

  function SolsCells(s: SolsRow): seq<string> {
    [IntText(s.row.year), s.row.session, s.row.campus + s.delivery, s.row.code, IntText(s.row.nomCp), MarkText(s.row.mark),
     OrBlank(s.row.grade), s.row.status]
  }

  function CreditCellsOf(c: SolsCredit): seq<string> {
    [c.credit.course, OrBlank(c.credit.code), c.name, OrBlank(c.credit.level), IntText(c.credit.nomCp)]
  }

  function AllSolsCells(rows: seq<SolsRow>): (r: seq<seq<string>>)
    ensures |r| == |rows| && forall k :: 0 <= k < |rows| ==> r[k] == SolsCells(rows[k])
  {
    seq(|rows|, k requires 0 <= k < |rows| => SolsCells(rows[k]))
  }

  function AllCreditCells(credits: seq<SolsCredit>): (r: seq<seq<string>>)
    ensures |r| == |credits| && forall k :: 0 <= k < |credits| ==> r[k] == CreditCellsOf(credits[k])
  {
    seq(|credits|, k requires 0 <= k < |credits| => CreditCellsOf(credits[k]))
  }

  function SolsHistory(rows: seq<SolsRow>): seq<string> {
    ["", "## Enrolment History", ""] + TableLines(SOLS_HEADINGS, AllSolsCells(rows))
  }

  function SolsSpecified(credits: seq<SolsCredit>): seq<string> {
    if credits == [] then []
    else ["", "## Specified Credit", ""] + TableLines(CREDIT_HEADINGS, AllCreditCells(credits))
  }

  function SolsLines(front: seq<string>, rows: seq<SolsRow>, credits: seq<SolsCredit>, unspecified: seq<CreditRow>): seq<string> {
    front + [""] + SolsHistory(rows) + SolsSpecified(credits) + UnspecifiedLines(unspecified)
  }

  function SolsText(front: seq<string>, rows: seq<SolsRow>, credits: seq<SolsCredit>, unspecified: seq<CreditRow>): string {
    Join(SolsLines(front, rows, credits, unspecified), "\n")
  }

  // ---------------------------------------------------------------- what may stand in it

  predicate IsDelivery(s: string) {
    s == "" || (s[0] == '/' && !IsSpace(s[|s| - 1]) && HasNoBreak(s) && '|' !in s)
  }

  predicate IsSolsRow(s: SolsRow) {
    IsPrintableRow(s.row) && HasMarkInRange(s.row) && IsDelivery(s.delivery)
  }

  // The subject's name is any cell that does not itself read as a column heading.
  predicate IsSolsCredit(c: SolsCredit) {
    IsPrintableCredit(c.credit) && IsCell(c.name) && !IsName(Norm(c.name))
  }

  predicate AreSolsRows(rows: seq<SolsRow>) {
    forall k :: 0 <= k < |rows| ==> IsSolsRow(rows[k])
  }

  predicate AreSolsCredits(credits: seq<SolsCredit>) {
    forall k :: 0 <= k < |credits| ==> IsSolsCredit(credits[k])
  }

  // A line outside the tables.
  predicate IsFrontLine(line: string) {
    HasNoBreak(line) && !IsTableLine(Trim(line))
  }

  predicate AreFrontLines(front: seq<string>) {
    forall k :: 0 <= k < |front| ==> IsFrontLine(front[k])
  }

  // What the lines before the tables say of course, campus and majors.
  function FrontHeader(front: seq<string>): Header {
    if front == [] then Header(None, None, [], false)
    else ReadHeaderLine(Trim(front[|front| - 1]), FrontHeader(front[..|front| - 1]))
  }

  // ---------------------------------------------------------------- headings

  predicate IsSlashChar(c: char) {
    IsLetter(c) || c == '(' || c == ')' || c == '/'
  }

  predicate AreSlashChars(s: string) {
    forall k :: 0 <= k < |s| ==> IsSlashChar(s[k])
  }

  lemma WordHasSlashChars(a: string)
    requires IsPlainWord(a)
    ensures AreSlashChars(a) && a != ""
  {
    assert forall k :: 0 <= k < |a| ==> a[k] in a;
  }

  lemma SlashedTogether(a: string, b: string)
    requires AreSlashChars(a) && AreSlashChars(b)
    ensures AreSlashChars(a + "/" + b)
  {
    hide IsSlashChar;
    SlashIsOne();
    assert AreSlashChars("/") by {
      assert "/"[0] == '/';
    }
  }

  lemma SlashIsOne()
    ensures IsSlashChar('/')
  {
  }

  lemma LettersArePlain(s: string)
    requires s != "" && AreSlashChars(s)
    ensures IsPlainText(s) && IsCell(s)
  {
  }

  lemma LowerAround(a: string, b: string)
    ensures Lower(a + "/" + b) == Lower(a) + "/" + Lower(b)
  {
  }

  lemma SlashWords(a: string, b: string)
    requires IsPlainWord(a) && IsPlainWord(b)
    ensures Norm(a + "/" + b) == Lower(a) + "/" + Lower(b) && IsCell(a + "/" + b)
  {
    hide Norm, Lower, IsPlainWord, AreSlashChars, IsPlainText, IsCell;
    WordHasSlashChars(a);
    WordHasSlashChars(b);
    SlashedTogether(a, b);
    LettersArePlain(a + "/" + b);
    NormPlain(a + "/" + b);
    LowerAround(a, b);
  }

  lemma PlainPair()
    ensures IsPlainWord("Campus") && IsPlainWord("Delivery")
    ensures Lower("Campus") == "campus" && Lower("Delivery") == "delivery"
  {
  }

  lemma SlashHeading()
    ensures Norm("Campus/Delivery") == "campus/delivery" && IsCell("Campus/Delivery")
  {
    hide Norm, IsPlainWord, Lower, IsCell;
    PlainPair();
    SlashWords("Campus", "Delivery");
    assert "Campus" + "/" + "Delivery" == "Campus/Delivery";
    assert "campus" + "/" + "delivery" == "campus/delivery";
  }

  lemma MarkHeadings()
    ensures Norm("Mark") == "mark" && Norm("Name") == "name"
    ensures IsCell("Mark") && IsCell("Name")
  {
    hide Norm, IsCell;
    NormWord("Mark", "mark");
    NormWord("Name", "name");
    PlainIsCell("Mark");
    PlainIsCell("Name");
  }

  lemma SolsHeadingsRead()
    ensures NormAll(SOLS_HEADINGS) == SOLS_COLUMNS && NormAll(CREDIT_HEADINGS) == CREDIT_COLUMNS
    ensures AreCells(SOLS_HEADINGS) && !IsSeparator(SOLS_HEADINGS)
    ensures AreCells(CREDIT_HEADINGS) && !IsSeparator(CREDIT_HEADINGS)
  {
    hide Norm, IsCell, IsDashes;
    NormWords();
    NormPhrases();
    SlashHeading();
    MarkHeadings();
    HeadingsAreCells();
    assert ENROLMENT_HEADINGS[0] == "Year" && ENROLMENT_HEADINGS[1] == "Session" && ENROLMENT_HEADINGS[3] == "Subject Code";
    assert ENROLMENT_HEADINGS[4] == "Nom CP" && ENROLMENT_HEADINGS[5] == "Grade" && ENROLMENT_HEADINGS[6] == "Status";
    assert SPECIFIED_HEADINGS[0] == "Course" && UNSPECIFIED_HEADINGS[1] == "Level";
    PlainIsCell("Year");
    PlainIsCell("Course");
    assert SOLS_HEADINGS[0] == "Year" && CREDIT_HEADINGS[0] == "Course";
  }

  lemma SolsColumnsClassify()
    ensures Classify(SOLS_COLUMNS) == Some(Enrolment) && Classify(CREDIT_COLUMNS) == Some(Specified)
  {
    assert SOLS_COLUMNS[0] == "year" && SOLS_COLUMNS[3] == "subject code" && SOLS_COLUMNS[7] == "status";
    assert CREDIT_COLUMNS[0] == "course" && CREDIT_COLUMNS[1] == "subject code" && CREDIT_COLUMNS[4] == "nom cp";
    assert "year" !in CREDIT_COLUMNS by {
      assert "year"[0] == 'y' && "course"[0] == 'c' && "subject code"[0] == 's' && "nom cp"[0] == 'n' && "level"[0] == 'l' && "name"[0] == 'n';
    }
  }

  // ---------------------------------------------------------------- values by column

  lemma SolsColumnsDiffer()
    ensures forall i, j :: 0 <= i < j < 8 ==> SOLS_COLUMNS[j] != SOLS_COLUMNS[i]
  {
    var c := SOLS_COLUMNS;
    assert c[0][0] == 'y' && c[1][1] == 'e' && c[2][0] == 'c' && c[3][0] == 's' && c[4][0] == 'n' && c[5][0] == 'm' && c[6][0] == 'g' && c[7][0] == 's';
    assert |c[0]| == 4 && |c[1]| == 7 && |c[2]| == 15 && |c[3]| == 12 && |c[4]| == 6 && |c[5]| == 4 && |c[6]| == 5 && |c[7]| == 6;
  }

  lemma SolsColumnValues(cells: seq<string>)
    requires |cells| == 8
    ensures GetOr(SOLS_COLUMNS, cells, "year") == cells[0]
    ensures GetOr(SOLS_COLUMNS, cells, "session") == cells[1]
    ensures GetOr(SOLS_COLUMNS, cells, "campus/delivery") == cells[2]
    ensures GetOr(SOLS_COLUMNS, cells, "subject code") == cells[3]
    ensures GetOr(SOLS_COLUMNS, cells, "nom cp") == cells[4]
    ensures GetOr(SOLS_COLUMNS, cells, "mark") == cells[5]
    ensures GetOr(SOLS_COLUMNS, cells, "grade") == cells[6]
    ensures GetOr(SOLS_COLUMNS, cells, "status") == cells[7]
  {
    hide GetOr;
    var c := SOLS_COLUMNS;
    SolsColumnsDiffer();
    GetOrAt(c, cells, c[0], 0);
    GetOrAt(c, cells, c[1], 1);
    GetOrAt(c, cells, c[2], 2);
    GetOrAt(c, cells, c[3], 3);
    GetOrAt(c, cells, c[4], 4);
    GetOrAt(c, cells, c[5], 5);
    GetOrAt(c, cells, c[6], 6);
    GetOrAt(c, cells, c[7], 7);
  }

  lemma NoPlainCampus(cells: seq<string>)
    requires |cells| == 8
    ensures GetOr(SOLS_COLUMNS, cells, "campus") == ""
  {
    hide GetOr;
    SolsColumnsDiffer();
    assert "campus" !in SOLS_COLUMNS by {
      assert |"campus"| == 6 && "campus"[0] == 'c';
    }
    GetNone(SOLS_COLUMNS, cells, "campus");
  }

  lemma CampusBeforeDelivery(campus: string, delivery: string)
    requires IsCell(campus) && '/' !in campus && IsDelivery(delivery)
    ensures CampusHalf(campus + delivery) == campus
    ensures IsCell(campus + delivery)
  {
    hide Strip, Split;
    TrimKept(campus);
    if delivery == "" {
      SplitWhole(campus, '/');
      assert campus + delivery == campus;
    } else {
      assert campus + delivery == campus + ['/'] + delivery[1..];
      SplitAtFirst(campus, delivery[1..], '/');
    }
  }

  function AllKept(rows: seq<SolsRow>, keepMarks: bool): (r: seq<EnrolmentRow>)
    ensures |r| == |rows| && forall k :: 0 <= k < |rows| ==> r[k] == Kept(rows[k].row, keepMarks)
  {
    seq(|rows|, k requires 0 <= k < |rows| => Kept(rows[k].row, keepMarks))
  }

  lemma SolsRowReads(s: SolsRow, keepMarks: bool)
    requires IsSolsRow(s)
    ensures ReadRow(SOLS_COLUMNS, SolsCells(s), keepMarks) == Ok(Kept(s.row, keepMarks))
  {
    hide GetOr, IsCell, IsGrade, IsStatus, IsSubjectCode, Upper, CampusHalf, IntText, PythonInt, ReadMark, IsDelivery, MarkText;
    SolsColumnValues(SolsCells(s));
    NoPlainCampus(SolsCells(s));
    CampusBeforeDelivery(s.row.campus, s.delivery);
    CampusOfNothing(s.row.campus, s.delivery);
    GradeReads(s.row.grade);
    IntReadsBack(s.row.year);
    IntReadsBack(s.row.nomCp);
    MarkIsReadBack(s.row);
  }

  lemma CampusOfNothing(campus: string, delivery: string)
    ensures campus + delivery == "" ==> campus == ""
  {
    if campus + delivery == "" {
      assert |campus| + |delivery| == 0;
    }
  }

  lemma SolsCellsAreCells(s: SolsRow)
    requires IsSolsRow(s)
    ensures AreCells(SolsCells(s)) && !IsSeparator(SolsCells(s)) && Classify(NormAll(SolsCells(s))).None?
  {
    hide IsCell, IsGrade, IsStatus, IsSubjectCode, Upper, IntText, Norm, IsName, IsDashes, Classify, IsDelivery;
    var cells := SolsCells(s);
    NumberIsNoName(s.row.year);
    NumberIsNoName(s.row.nomCp);
    CodeIsNoName(s.row.code);
    GradeIsNoName(OrBlank(s.row.grade));
    StatusIsNoName(s.row.status);
    CampusBeforeDelivery(s.row.campus, s.delivery);
    EmptyIsCell();
    GradeIsNoName("");
    if s.row.mark.Some? {
      NumberIsNoName(s.row.mark.value);
    }
    assert !IsDashes(cells[0]);
    var names := NormAll(cells);
    assert forall i :: 0 <= i < 8 && IsName(names[i]) ==> i == 1 || i == 2;
    TwoNamesAreTooFew(names, 1, 2);
  }

  lemma {:induction false} ReadSolsRows(rows: seq<SolsRow>, st: State, keepMarks: bool)
    requires AreSolsRows(rows) && st.table == Some(Enrolment) && st.columns == SOLS_COLUMNS
    ensures ReadLines(RowLines(AllSolsCells(rows)), st, keepMarks) == Ok(st.(rows := st.rows + AllKept(rows, keepMarks)))
  {
    hide IsSolsRow, RowLine, SolsCells, AreCells, IsSeparator, Classify, NormAll, ReadRow, ReadLine;
    if rows == [] {
      assert st.rows + AllKept(rows, keepMarks) == st.rows;
    } else {
      var n := |rows| - 1;
      var front, last := rows[..n], rows[n];
      ReadSolsRows(front, st, keepMarks);
      assert RowLines(AllSolsCells(rows)) == RowLines(AllSolsCells(front)) + [RowLine(SolsCells(last))];
      hide ReadLines;
      ReadNextLine(RowLines(AllSolsCells(front)), RowLine(SolsCells(last)), st, keepMarks);
      SolsCellsAreCells(last);
      var middle := st.(rows := st.rows + AllKept(front, keepMarks));
      SolsCellsCount(last);
      ReadPrintedRow(SolsCells(last), middle, keepMarks);
      SolsRowReads(last, keepMarks);
      assert st.rows + AllKept(rows, keepMarks) == middle.rows + [Kept(last.row, keepMarks)];
    }
  }

  lemma SolsCellsCount(s: SolsRow)
    ensures |SolsCells(s)| == 8 == |SOLS_COLUMNS|
  {
  }

  // ---------------------------------------------------------------- specified credit

  lemma CreditColumnsApart()
    ensures forall i, j :: 0 <= i < j < 5 ==> CREDIT_COLUMNS[j] != CREDIT_COLUMNS[i]
  {
    var c := CREDIT_COLUMNS;
    assert |c[0]| == 6 && |c[1]| == 12 && |c[2]| == 4 && |c[3]| == 5 && |c[4]| == 6 && c[0][0] == 'c' && c[4][0] == 'n';
  }

  lemma CreditColumnValues(cells: seq<string>)
    requires |cells| == 5
    ensures GetOr(CREDIT_COLUMNS, cells, "course") == cells[0]
    ensures GetOr(CREDIT_COLUMNS, cells, "subject code") == cells[1]
    ensures GetOr(CREDIT_COLUMNS, cells, "level") == cells[3]
    ensures GetOr(CREDIT_COLUMNS, cells, "nom cp") == cells[4]
  {
    hide GetOr;
    var c := CREDIT_COLUMNS;
    CreditColumnsApart();
    GetOrAt(c, cells, c[0], 0);
    GetOrAt(c, cells, c[1], 1);
    GetOrAt(c, cells, c[3], 3);
    GetOrAt(c, cells, c[4], 4);
  }

  lemma SolsCreditReads(c: SolsCredit)
    requires IsSolsCredit(c)
    ensures ReadCredit(CREDIT_COLUMNS, CreditCellsOf(c)) == Ok(c.credit)
  {
    hide GetOr, IsCell, IsSubjectCode, Upper, IntText, PythonInt, Norm;
    CreditColumnValues(CreditCellsOf(c));
    CodeReads(c.credit.code);
    IntReadsBack(c.credit.nomCp);
  }

  lemma SolsCreditIsNoHeading(c: SolsCredit)
    requires IsSolsCredit(c)
    ensures AreCells(CreditCellsOf(c)) && !IsSeparator(CreditCellsOf(c)) && Classify(NormAll(CreditCellsOf(c))).None?
  {
    hide IsCell, IsSubjectCode, Upper, IntText, Norm, IsName, IsDashes, Classify;
    var cells := CreditCellsOf(c);
    NumberIsNoName(c.credit.nomCp);
    CodeIsNoName(OrBlank(c.credit.code));
    EmptyIsCell();
    assert !IsDashes(cells[4]);
    var names := NormAll(cells);
    assert forall i :: 0 <= i < 5 && IsName(names[i]) ==> i == 0 || i == 3;
    TwoNamesAreTooFew(names, 0, 3);
  }

  function CreditsOf(credits: seq<SolsCredit>): (r: seq<CreditRow>)
    ensures |r| == |credits| && forall k :: 0 <= k < |credits| ==> r[k] == credits[k].credit
  {
    seq(|credits|, k requires 0 <= k < |credits| => credits[k].credit)
  }

  lemma {:induction false} ReadSolsCredits(credits: seq<SolsCredit>, st: State, keepMarks: bool)
    requires AreSolsCredits(credits) && st.table == Some(Specified) && st.columns == CREDIT_COLUMNS
    ensures ReadLines(RowLines(AllCreditCells(credits)), st, keepMarks) == Ok(st.(specified := st.specified + CreditsOf(credits)))
  {
    hide IsSolsCredit, RowLine, CreditCellsOf, AreCells, IsSeparator, Classify, NormAll, ReadCredit, ReadLine;
    if credits == [] {
      assert st.specified + CreditsOf(credits) == st.specified;
    } else {
      var n := |credits| - 1;
      var front, last := credits[..n], credits[n];
      ReadSolsCredits(front, st, keepMarks);
      assert RowLines(AllCreditCells(credits)) == RowLines(AllCreditCells(front)) + [RowLine(CreditCellsOf(last))];
      hide ReadLines;
      ReadNextLine(RowLines(AllCreditCells(front)), RowLine(CreditCellsOf(last)), st, keepMarks);
      SolsCreditIsNoHeading(last);
      var middle := st.(specified := st.specified + CreditsOf(front));
      CreditCellsCount(last);
      ReadPrintedRow(CreditCellsOf(last), middle, keepMarks);
      SolsCreditReads(last);
      assert st.specified + CreditsOf(credits) == middle.specified + [last.credit];
    }
  }

  lemma CreditCellsCount(c: SolsCredit)
    ensures |CreditCellsOf(c)| == 5 == |CREDIT_COLUMNS|
  {
  }

  // ---------------------------------------------------------------- the lines before the tables

  lemma {:induction false} ReadFront(front: seq<string>, keepMarks: bool)
    requires AreFrontLines(front)
    ensures ReadLines(front, INITIAL, keepMarks) == Ok(INITIAL.(header := FrontHeader(front)))
  {
    hide ReadLine, ReadHeaderLine, Trim, HasNoBreak;
    if front != [] {
      var n := |front| - 1;
      ReadFront(front[..n], keepMarks);
      hide ReadLines;
      assert front == front[..n] + [front[n]];
      ReadNextLine(front[..n], front[n], INITIAL, keepMarks);
      FrontLineReads(front[n], INITIAL.(header := FrontHeader(front[..n])), keepMarks);
    }
  }

  lemma FrontLineReads(line: string, st: State, keepMarks: bool)
    requires IsFrontLine(line) && st.table.None? && st.columns == []
    ensures ReadLine(line, st, keepMarks) == Ok(st.(header := ReadHeaderLine(Trim(line), st.header)))
  {
    hide ReadHeaderLine, Trim, HasNoBreak;
  }

  // A blank line ends the wait for a major on a line of its own.
  lemma BlankLineReads(st: State, keepMarks: bool)
    ensures ReadLine("", st, keepMarks) == Ok(CloseTable(st).(header := st.header.(pending := false)))
  {
    hide ReadHeaderLine, Strip;
    TrimNothing();
    BlankHeaderLine(st.header);
  }

  lemma BlankHeaderLine(h: Header)
    ensures ReadHeaderLine("", h) == h.(pending := false)
  {
    assert Remove("", '*') == "";
    assert CourseOf("").None? && CampusOf("").None? && MajorOf("").None?;
  }

  // ---------------------------------------------------------------- the whole paste

  lemma ReadSolsHistory(rows: seq<SolsRow>, st: State, keepMarks: bool)
    requires AreSolsRows(rows) && !st.header.pending
    ensures ReadLines(SolsHistory(rows), st, keepMarks) ==
      Ok(st.(rows := st.rows + AllKept(rows, keepMarks), table := Some(Enrolment), columns := SOLS_COLUMNS))
  {
    hide ReadLines, Classify, NormAll, IsSeparator, AreCells, Trim, IsSolsRow, TableLines, RowLines, AllSolsCells;
    SolsHeadingsRead();
    SolsColumnsClassify();
    TrimTitle("## Enrolment History");
    ReadSection("## Enrolment History", SOLS_HEADINGS, SOLS_COLUMNS, AllSolsCells(rows), st, keepMarks);
    ReadSolsRows(rows, st.(table := Some(Enrolment), columns := SOLS_COLUMNS), keepMarks);
  }

  lemma ReadSolsSpecified(credits: seq<SolsCredit>, st: State, keepMarks: bool) returns (next: State)
    requires AreSolsCredits(credits) && !st.header.pending
    ensures ReadLines(SolsSpecified(credits), st, keepMarks) == Ok(next)
    ensures next == st.(specified := st.specified + CreditsOf(credits), table := next.table, columns := next.columns)
  {
    hide Classify, NormAll, IsSeparator, AreCells, Trim, IsSolsCredit, TableLines, RowLines, AllCreditCells, ReadLine;
    if credits == [] {
      assert st.specified + CreditsOf(credits) == st.specified;
      next := st;
    } else {
      hide ReadLines;
      SolsHeadingsRead();
      SolsColumnsClassify();
      TrimTitle("## Specified Credit");
      ReadSection("## Specified Credit", CREDIT_HEADINGS, CREDIT_COLUMNS, AllCreditCells(credits), st, keepMarks);
      next := st.(specified := st.specified + CreditsOf(credits), table := Some(Specified), columns := CREDIT_COLUMNS);
      ReadSolsCredits(credits, st.(table := Some(Specified), columns := CREDIT_COLUMNS), keepMarks);
    }
  }

  predicate IsSolsRecord(front: seq<string>, rows: seq<SolsRow>, credits: seq<SolsCredit>, unspecified: seq<CreditRow>) {
    && AreFrontLines(front) && rows != [] && AreSolsRows(rows) && AreSolsCredits(credits)
    && ArePrintableCredits(unspecified) && HaveNoCode(unspecified)
  }

  lemma ReadSolsLines(front: seq<string>, rows: seq<SolsRow>, credits: seq<SolsCredit>, unspecified: seq<CreditRow>, keepMarks: bool)
    returns (last: State)
    requires IsSolsRecord(front, rows, credits, unspecified)
    ensures ReadLines(SolsLines(front, rows, credits, unspecified), INITIAL, keepMarks) == Ok(last)
    ensures last == State(FrontHeader(front).(pending := false), AllKept(rows, keepMarks), CreditsOf(credits), unspecified,
                          last.table, last.columns)
  {
    hide ReadLines, ReadLine, IsFrontLine, IsSolsRow, IsSolsCredit, ArePrintableCredits, HaveNoCode, SolsHistory, SolsSpecified,
      UnspecifiedLines, FrontHeader;
    ReadFront(front, keepMarks);
    var st0 := INITIAL.(header := FrontHeader(front));
    ReadNextLine(front, "", INITIAL, keepMarks);
    BlankLineReads(st0, keepMarks);
    var st1 := CloseTable(st0).(header := st0.header.(pending := false));
    var a := front + [""];
    ReadSolsHistory(rows, st1, keepMarks);
    ReadLinesAppend(a, SolsHistory(rows), INITIAL, keepMarks);
    var st2 := st1.(rows := AllKept(rows, keepMarks), table := Some(Enrolment), columns := SOLS_COLUMNS);
    assert st1.rows + AllKept(rows, keepMarks) == AllKept(rows, keepMarks);
    var st3 := ReadSolsSpecified(credits, st2, keepMarks);
    ReadLinesAppend(a + SolsHistory(rows), SolsSpecified(credits), INITIAL, keepMarks);
    assert st2.specified + CreditsOf(credits) == CreditsOf(credits);
    last := ReadUnspecifiedLines(unspecified, st3, keepMarks);
    ReadLinesAppend(a + SolsHistory(rows) + SolsSpecified(credits), UnspecifiedLines(unspecified), INITIAL, keepMarks);
    assert st3.unspecified + unspecified == unspecified;
  }

  lemma SectionHasNoBreaks(title: string, headings: seq<string>, body: seq<seq<string>>)
    requires headings != [] && AreCells(headings) && (forall k :: 0 <= k < |body| ==> AreCells(body[k])) && HasNoBreak(title)
    ensures HaveNoBreaks(["", title, ""] + TableLines(headings, body))
    ensures var lines := ["", title, ""] + TableLines(headings, body); |lines| >= 5 && IsTableLine(lines[3]) && IsTableLine(lines[4])
    ensures var lines := ["", title, ""] + TableLines(headings, body); IsTableLine(lines[|lines| - 1])
  {
    hide TableLines, AreCells, IsTableLine;
    TableLinesHaveNoBreaks(headings, body);
  }

  lemma SolsLinesHaveNoBreaks(front: seq<string>, rows: seq<SolsRow>, credits: seq<SolsCredit>, unspecified: seq<CreditRow>)
    requires IsSolsRecord(front, rows, credits, unspecified)
    ensures var lines := SolsLines(front, rows, credits, unspecified);
      HaveNoBreaks(lines) && lines[|lines| - 1] != "" && |lines| >= |front| + 6
      && IsTableLine(lines[|front| + 4]) && IsTableLine(lines[|front| + 5])
  {
    hide TableLines, AreCells, IsSolsRow, IsSolsCredit, IsFrontLine, IsPrintableCredit, AllSolsCells, AllCreditCells, HasNoBreak,
      IsSeparator, NormAll, Classify, UnspecifiedLines;
    SolsHeadingsRead();
    TitlesHaveNoBreaks();
    forall k | 0 <= k < |rows| ensures AreCells(AllSolsCells(rows)[k]) {
      SolsCellsAreCells(rows[k]);
    }
    SectionHasNoBreaks("## Enrolment History", SOLS_HEADINGS, AllSolsCells(rows));
    forall k | 0 <= k < |credits| ensures AreCells(AllCreditCells(credits)[k]) {
      SolsCreditIsNoHeading(credits[k]);
    }
    SectionHasNoBreaks("## Specified Credit", CREDIT_HEADINGS, AllCreditCells(credits));
    UnspecifiedLinesHaveNoBreaks(unspecified);
    FrontHasNoBreaks(front);
  }

  lemma FrontHasNoBreaks(front: seq<string>)
    requires AreFrontLines(front)
    ensures HaveNoBreaks(front + [""])
  {
    hide Trim;
  }

  // The table parser reads a record in this layout, whatever stands before it: with marks when they are kept,
  // without them otherwise, and never a delivery mode or a subject's name.
  lemma SolsReadsBack(front: seq<string>, rows: seq<SolsRow>, credits: seq<SolsCredit>, unspecified: seq<CreditRow>, keepMarks: bool)
    requires IsSolsRecord(front, rows, credits, unspecified)
    ensures var h := FrontHeader(front);
      TableRecord(SolsText(front, rows, credits, unspecified), keepMarks) ==
        Ok(EnrolmentRecord(h.course, h.campus, h.majors, AllKept(rows, keepMarks), CreditsOf(credits), unspecified))
  {
    hide ReadLines, Lines, SolsLines, IsFrontLine, AreSolsRows, AreSolsCredits, ArePrintableCredits, HaveNoCode, FrontHeader,
      HaveNoBreaks, Join, IsTableLine;
    SolsLinesHaveNoBreaks(front, rows, credits, unspecified);
    LinesJoined(SolsLines(front, rows, credits, unspecified));
    var last := ReadSolsLines(front, rows, credits, unspecified, keepMarks);
  }
}
