/** The text that a record is printed as, written out from its first character to its last. */
module PrintedText {
  // Lines do not occur here: every line break is where the text has it.

  import opened Text
  import opened Records
  import opened EnrolmentPrinter

  // ---------------------------------------------------------------- the text

  function Bar(cell: string, rest: string): string {
    cell + (" | " + rest)
  }

  function CourseText(course: Option<string>): string {
    if course == None || course == Some("") then "" else "\n" + ("**Course:** " + course.value)
  }

  function CampusText(campus: Option<string>): string {
    if campus == None || campus == Some("") then "" else "\n" + ("**Campus:** " + campus.value)
  }

  // The first major is not numbered, the next is number 2.
  function MajorsText(majors: seq<string>): string {
    if majors == [] then ""
    else
      var n := |majors| - 1;
      MajorsText(majors[..n])
      + ("\n" + (if n == 0 then "**Major:** " + majors[n] else "**Major " + Decimal(n + 1) + ":** " + majors[n]))
  }

  function RowText(row: EnrolmentRow): string {
    "\n" + ("| " + (Bar(IntText(row.year), Bar(row.session, Bar(row.campus, Bar(row.code, Bar(IntText(row.nomCp),
      Bar(if row.grade.None? then "" else row.grade.value, row.status)))))) + " |"))
  }

  function RowsText(rows: seq<EnrolmentRow>): string {
    if rows == [] then "" else RowText(rows[0]) + RowsText(rows[1..])
  }

  function CreditText(course: string, middle: Option<string>, cp: int): string {
    "\n" + ("| " + (Bar(course, Bar(if middle.None? then "" else middle.value, IntText(cp))) + " |"))
  }

  function SpecifiedRows(rows: seq<CreditRow>): string {
    if rows == [] then "" else CreditText(rows[0].course, rows[0].code, rows[0].nomCp) + SpecifiedRows(rows[1..])
  }

  function UnspecifiedRows(rows: seq<CreditRow>): string {
    if rows == [] then "" else CreditText(rows[0].course, rows[0].level, rows[0].nomCp) + UnspecifiedRows(rows[1..])
  }

  // So many times three dashes, between pipes.
  function Rule(columns: nat): string {
    if columns == 0 then "|" else "|---" + Rule(columns - 1)
  }

  // A blank line, a title, a blank line, the column names and the divider.
  function Opening(title: string, names: string, columns: nat): string {
    "\n" + ("\n" + (title + ("\n" + ("\n" + ("| " + (names + (" |" + ("\n" + Rule(columns)))))))))
  }

  function HistoryText(rows: seq<EnrolmentRow>): string {
    Opening("## Enrolment History",
      Bar("Year", Bar("Session", Bar("Campus", Bar("Subject Code", Bar("Nom CP", Bar("Grade", "Status")))))),
      7)
    + RowsText(rows)
  }

  function SpecifiedText(rows: seq<CreditRow>): string {
    if rows == [] then ""
    else
      Opening("## Specified Credit", Bar("Course", Bar("Subject Code", "Nom CP")), 3) + SpecifiedRows(rows)
  }

  function UnspecifiedText(rows: seq<CreditRow>): string {
    if rows == [] then ""
    else
      Opening("## Unspecified Credit", Bar("Course", Bar("Level", "Nom CP")), 3) + UnspecifiedRows(rows)
  }

  function HeaderText(r: EnrolmentRecord): string {
    ("# Enrolment Record" + ("\n" + "")) + (CourseText(r.course) + (CampusText(r.campus) + MajorsText(r.majors)))
  }

  function WholeText(r: EnrolmentRecord): string {
    HeaderText(r) + (HistoryText(r.rows) + (SpecifiedText(r.specified) + UnspecifiedText(r.unspecified)))
  }

  // ---------------------------------------------------------------- lines, one after the other

  function Flow(lines: seq<string>): string {
    if lines == [] then "" else ("\n" + lines[0]) + Flow(lines[1..])
  }

  lemma {:induction false} JoinFlows(lines: seq<string>)
    requires lines != []
    ensures Join(lines, "\n") == lines[0] + Flow(lines[1..])
  {
    if |lines| == 1 {
      assert lines[0] + "" == lines[0];
    } else {
      JoinFlows(lines[1..]);
      var t := lines[1..];
      assert lines[0] + "\n" + (t[0] + Flow(t[1..])) == lines[0] + (("\n" + t[0]) + Flow(t[1..]));
    }
  }

  lemma {:induction false} FlowsOn(a: seq<string>, b: seq<string>)
    ensures Flow(a + b) == Flow(a) + Flow(b)
  {
    if a == [] {
      assert a + b == b && "" + Flow(b) == Flow(b);
    } else {
      assert (a + b)[1..] == a[1..] + b;
      FlowsOn(a[1..], b);
      assert (("\n" + a[0]) + Flow(a[1..])) + Flow(b) == ("\n" + a[0]) + (Flow(a[1..]) + Flow(b));
    }
  }

  lemma OneFlows(line: string)
    ensures Flow([line]) == "\n" + line
  {
    assert ("\n" + line) + "" == "\n" + line;
  }

  lemma {:induction false} RowsFlow(rows: seq<EnrolmentRow>)
    ensures Flow(RowLines(AllRowCells(rows))) == RowsText(rows)
  {
    if rows != [] {
      assert RowLines(AllRowCells(rows))[1..] == RowLines(AllRowCells(rows[1..]));
      RowsFlow(rows[1..]);
      RowFlows(rows[0]);
    }
  }

  lemma RowFlows(row: EnrolmentRow)
    ensures "\n" + RowLine(RowCells(row)) == RowText(row)
  {
    hide IntText;
    var cells := RowCells(row);
    SevenJoined(cells);
    Wrap(Join(cells, " | "));
  }

  lemma Wrap(inner: string)
    ensures "| " + inner + " |" == "| " + (inner + " |")
  {
  }

  lemma Barred(cell: string, rest: string)
    ensures cell + " | " + rest == Bar(cell, rest)
  {
  }

  lemma JoinBars(cells: seq<string>)
    requires |cells| > 1
    ensures Join(cells, " | ") == Bar(cells[0], Join(cells[1..], " | "))
  {
    Barred(cells[0], Join(cells[1..], " | "));
  }

  lemma ThreeJoined(cells: seq<string>)
    requires |cells| == 3
    ensures Join(cells, " | ") == Bar(cells[0], Bar(cells[1], cells[2]))
  {
    hide Bar;
    JoinBars(cells);
    JoinBars(cells[1..]);
  }

  lemma FiveJoined(cells: seq<string>)
    requires |cells| == 5
    ensures Join(cells, " | ") == Bar(cells[0], Bar(cells[1], Bar(cells[2], Bar(cells[3], cells[4]))))
  {
    hide Bar, Join;
    JoinBars(cells);
    JoinBars(cells[1..]);
    ThreeJoined(cells[1..][1..]);
  }

  lemma SevenJoined(cells: seq<string>)
    requires |cells| == 7
    ensures Join(cells, " | ") ==
      Bar(cells[0], Bar(cells[1], Bar(cells[2], Bar(cells[3], Bar(cells[4], Bar(cells[5], cells[6]))))))
  {
    hide Bar, Join;
    JoinBars(cells);
    JoinBars(cells[1..]);
    FiveJoined(cells[1..][1..]);
  }

  lemma {:induction false} SpecifiedFlow(rows: seq<CreditRow>)
    ensures Flow(RowLines(AllSpecifiedCells(rows))) == SpecifiedRows(rows)
  {
    if rows != [] {
      assert RowLines(AllSpecifiedCells(rows))[1..] == RowLines(AllSpecifiedCells(rows[1..]));
      SpecifiedFlow(rows[1..]);
      ThreeJoined(SpecifiedCells(rows[0]));
      Wrap(Join(SpecifiedCells(rows[0]), " | "));
    }
  }

  lemma {:induction false} UnspecifiedFlow(rows: seq<CreditRow>)
    ensures Flow(RowLines(AllUnspecifiedCells(rows))) == UnspecifiedRows(rows)
  {
    if rows != [] {
      assert RowLines(AllUnspecifiedCells(rows))[1..] == RowLines(AllUnspecifiedCells(rows[1..]));
      UnspecifiedFlow(rows[1..]);
      ThreeJoined(UnspecifiedCells(rows[0]));
      Wrap(Join(UnspecifiedCells(rows[0]), " | "));
    }
  }

  // ---------------------------------------------------------------- tables

  lemma {:induction false} DividerIs(n: nat)
    requires n > 0
    ensures Divider(n) == Rule(n)
  {
    var dashes := Dashes(n);
    if n == 1 {
      assert Rule(1) == "|---" + Rule(0);
      assert Join(dashes, "|") == "---";
      assert "|" + "---" == "|---";
    } else {
      DividerIs(n - 1);
      assert dashes[1..] == Dashes(n - 1);
      var rest := Join(Dashes(n - 1), "|");
      assert Join(dashes, "|") == "---" + "|" + rest;
      assert "|" + "---" == "|---";
      assert "|" + ("---" + "|" + rest) + "|" == "|---" + ("|" + rest + "|");
    }
  }

  lemma OpeningFlows(title: string, heading: string, names: string, columns: nat, divider: string)
    requires heading == "| " + (names + " |") && divider == Rule(columns)
    ensures Flow(["", title, ""] + [heading, divider]) == Opening(title, names, columns)
  {
    hide Rule;
    var lines := ["", title, ""] + [heading, divider];
    assert lines == ["", title, "", heading, divider];
    FlowOfFive("", title, "", heading, divider);
    assert "\n" + "" == "\n";
  }

  lemma FlowOfFive(a: string, b: string, c: string, d: string, e: string)
    ensures Flow([a, b, c, d, e]) == ("\n" + a) + (("\n" + b) + (("\n" + c) + (("\n" + d) + ("\n" + e))))
  {
    hide Flow;
    FlowStep(a, [b, c, d, e]);
    FlowStep(b, [c, d, e]);
    FlowStep(c, [d, e]);
    FlowStep(d, [e]);
    OneFlows(e);
    assert [a, b, c, d, e] == [a] + [b, c, d, e] && [b, c, d, e] == [b] + [c, d, e];
    assert [c, d, e] == [c] + [d, e] && [d, e] == [d] + [e];
  }

  lemma FlowStep(line: string, rest: seq<string>)
    ensures Flow([line] + rest) == ("\n" + line) + Flow(rest)
  {
    assert ([line] + rest)[1..] == rest;
  }

  lemma TableFlows(title: string, headings: seq<string>, names: string, rows: seq<seq<string>>)
    requires headings != [] && Join(headings, " | ") == names
    ensures Flow(["", title, ""] + TableLines(headings, rows)) == Opening(title, names, |headings|) + Flow(RowLines(rows))
  {
    hide Opening, Flow, RowLines, Divider, Rule;
    Wrap(names);
    DividerIs(|headings|);
    OpeningFlows(title, RowLine(headings), names, |headings|, Divider(|headings|));
    var front := ["", title, ""] + [RowLine(headings), Divider(|headings|)];
    assert ["", title, ""] + TableLines(headings, rows) == front + RowLines(rows);
    FlowsOn(front, RowLines(rows));
  }

  lemma HistoryFlows(rows: seq<EnrolmentRow>)
    ensures Flow(HistoryLines(rows)) == HistoryText(rows)
  {
    hide Flow, Opening, Bar, RowsText, RowLines, AllRowCells;
    SevenJoined(ENROLMENT_HEADINGS);
    TableFlows("## Enrolment History", ENROLMENT_HEADINGS, Join(ENROLMENT_HEADINGS, " | "), AllRowCells(rows));
    RowsFlow(rows);
  }

  lemma SpecifiedFlows(rows: seq<CreditRow>)
    ensures Flow(SpecifiedLines(rows)) == SpecifiedText(rows)
  {
    hide Opening, Bar, SpecifiedRows, RowLines, AllSpecifiedCells;
    ThreeJoined(SPECIFIED_HEADINGS);
    TableFlows("## Specified Credit", SPECIFIED_HEADINGS, Join(SPECIFIED_HEADINGS, " | "), AllSpecifiedCells(rows));
    SpecifiedFlow(rows);
  }

  lemma UnspecifiedFlows(rows: seq<CreditRow>)
    ensures Flow(UnspecifiedLines(rows)) == UnspecifiedText(rows)
  {
    hide Opening, Bar, UnspecifiedRows, RowLines, AllUnspecifiedCells;
    ThreeJoined(UNSPECIFIED_HEADINGS);
    TableFlows("## Unspecified Credit", UNSPECIFIED_HEADINGS, Join(UNSPECIFIED_HEADINGS, " | "), AllUnspecifiedCells(rows));
    UnspecifiedFlow(rows);
  }

  // ---------------------------------------------------------------- the header

  lemma {:induction false} MajorsFlow(majors: seq<string>)
    ensures Flow(MajorLines(majors)) == MajorsText(majors)
  {
    hide Flow, MajorLine;
    if majors == [] {
      NothingFlows();
      assert MajorLines(majors) == [];
    } else {
      var n := |majors| - 1;
      MajorsFlow(majors[..n]);
      assert MajorLines(majors) == MajorLines(majors[..n]) + [MajorLine(n, majors[n])];
      FlowsOn(MajorLines(majors[..n]), [MajorLine(n, majors[n])]);
      OneFlows(MajorLine(n, majors[n]));
      NumberedLine(n, majors[n]);
    }
  }

  lemma NothingFlows()
    ensures Flow([]) == ""
  {
  }

  lemma NumberedLine(n: nat, major: string)
    ensures MajorLine(n, major) == if n == 0 then "**Major:** " + major else "**Major " + Decimal(n + 1) + ":** " + major
  {
  }

  lemma HeaderFlows(r: EnrolmentRecord)
    ensures HeaderLines(r) != [] && HeaderLines(r)[0] == "# Enrolment Record"
    ensures "# Enrolment Record" + Flow(HeaderLines(r)[1..]) == HeaderText(r)
  {
    hide MajorLines, MajorsText, Flow, CourseLines, CampusLines, CourseText, CampusText;
    var a, b, c := CourseLines(r.course), CampusLines(r.campus), MajorLines(r.majors);
    MajorsFlow(r.majors);
    CourseFlows(r.course);
    CampusFlows(r.campus);
    FlowsOn(b, c);
    FlowsOn(a, b + c);
    FlowsOn([""], a + (b + c));
    OneFlows("");
    assert HeaderLines(r)[1..] == [""] + (a + (b + c));
    assert "# Enrolment Record" + (("\n" + "") + (Flow(a) + (Flow(b) + Flow(c)))) ==
      ("# Enrolment Record" + ("\n" + "")) + (Flow(a) + (Flow(b) + Flow(c)));
  }

  lemma CourseFlows(course: Option<string>)
    ensures Flow(CourseLines(course)) == CourseText(course)
  {
    if course.Some? && course.value != "" {
      OneFlows("**Course:** " + course.value);
    }
  }

  lemma CampusFlows(campus: Option<string>)
    ensures Flow(CampusLines(campus)) == CampusText(campus)
  {
    if campus.Some? && campus.value != "" {
      OneFlows("**Campus:** " + campus.value);
    }
  }

  // The printed record is this text, whatever the record holds.
  lemma RenderedIs(r: EnrolmentRecord)
    ensures Rendered(r) == WholeText(r)
  {
    hide HeaderLines, HistoryLines, SpecifiedLines, UnspecifiedLines, HeaderText, HistoryText, SpecifiedText, UnspecifiedText, Flow, Join;
    var a, b, c, d := HeaderLines(r), HistoryLines(r.rows), SpecifiedLines(r.specified), UnspecifiedLines(r.unspecified);
    HeaderFlows(r);
    HistoryFlows(r.rows);
    SpecifiedFlows(r.specified);
    UnspecifiedFlows(r.unspecified);
    JoinFlows(RenderedLines(r));
    FlowsOn(c, d);
    FlowsOn(b, c + d);
    FlowsOn(a[1..], b + (c + d));
    assert RenderedLines(r) == a + (b + (c + d));
    assert (a + (b + (c + d)))[1..] == a[1..] + (b + (c + d));
    assert a[0] + (Flow(a[1..]) + (Flow(b) + (Flow(c) + Flow(d)))) == (a[0] + Flow(a[1..])) + (Flow(b) + (Flow(c) + Flow(d)));
  }
}
