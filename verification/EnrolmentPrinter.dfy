/** The printer of app/services/enrolment.py: a record as the text that the advisor reads. */
module EnrolmentPrinter {
  import opened Text
  import opened Records

  function OrBlank(s: Option<string>): string {
    if s.Some? then s.value else ""
  }

  // ---------------------------------------------------------------- tables

  function RowLine(cells: seq<string>): string {
    "| " + Join(cells, " | ") + " |"
  }

  function Dashes(n: nat): seq<string> {
    seq(n, k => "---")
  }

  function Divider(n: nat): string {
    "|" + Join(Dashes(n), "|") + "|"
  }

  function RowLines(rows: seq<seq<string>>): (r: seq<string>)
    ensures |r| == |rows|
    ensures forall k :: 0 <= k < |rows| ==> r[k] == RowLine(rows[k])
  {
    seq(|rows|, k requires 0 <= k < |rows| => RowLine(rows[k]))
  }

  function TableLines(headings: seq<string>, rows: seq<seq<string>>): seq<string> {
    [RowLine(headings), Divider(|headings|)] + RowLines(rows)
  }

  const ENROLMENT_HEADINGS := ["Year", "Session", "Campus", "Subject Code", "Nom CP", "Grade", "Status"]
  const SPECIFIED_HEADINGS := ["Course", "Subject Code", "Nom CP"]
  const UNSPECIFIED_HEADINGS := ["Course", "Level", "Nom CP"]

  function RowCells(row: EnrolmentRow): seq<string> {
    [IntText(row.year), row.session, row.campus, row.code, IntText(row.nomCp), OrBlank(row.grade), row.status]
  }

  function SpecifiedCells(row: CreditRow): seq<string> {
    [row.course, OrBlank(row.code), IntText(row.nomCp)]
  }

  function UnspecifiedCells(row: CreditRow): seq<string> {
    [row.course, OrBlank(row.level), IntText(row.nomCp)]
  }

  function AllRowCells(rows: seq<EnrolmentRow>): (r: seq<seq<string>>)
    ensures |r| == |rows| && forall k :: 0 <= k < |rows| ==> r[k] == RowCells(rows[k])
  {
    seq(|rows|, k requires 0 <= k < |rows| => RowCells(rows[k]))
  }

  function AllSpecifiedCells(rows: seq<CreditRow>): (r: seq<seq<string>>)
    ensures |r| == |rows| && forall k :: 0 <= k < |rows| ==> r[k] == SpecifiedCells(rows[k])
  {
    seq(|rows|, k requires 0 <= k < |rows| => SpecifiedCells(rows[k]))
  }

  function AllUnspecifiedCells(rows: seq<CreditRow>): (r: seq<seq<string>>)
    ensures |r| == |rows| && forall k :: 0 <= k < |rows| ==> r[k] == UnspecifiedCells(rows[k])
  {
    seq(|rows|, k requires 0 <= k < |rows| => UnspecifiedCells(rows[k]))
  }

  // ---------------------------------------------------------------- the header

  function CourseLines(course: Option<string>): seq<string> {
    if OrBlank(course) == "" then [] else ["**Course:** " + course.value]
  }

  function CampusLines(campus: Option<string>): seq<string> {
    if OrBlank(campus) == "" then [] else ["**Campus:** " + campus.value]
  }

  // Majors are numbered from the second on.
  function MajorLine(index: nat, major: string): string {
    if index == 0 then "**Major:** " + major else "**Major " + Decimal(index + 1) + ":** " + major
  }

  function MajorLines(majors: seq<string>): (r: seq<string>)
    ensures |r| == |majors| && forall k :: 0 <= k < |majors| ==> r[k] == MajorLine(k, majors[k])
  {
    seq(|majors|, k requires 0 <= k < |majors| => MajorLine(k, majors[k]))
  }

  function HeaderLines(record: EnrolmentRecord): seq<string> {
    ["# Enrolment Record", ""] + CourseLines(record.course) + CampusLines(record.campus) + MajorLines(record.majors)
  }

  // ---------------------------------------------------------------- the whole text

  function HistoryLines(rows: seq<EnrolmentRow>): seq<string> {
    ["", "## Enrolment History", ""] + TableLines(ENROLMENT_HEADINGS, AllRowCells(rows))
  }

  function SpecifiedLines(rows: seq<CreditRow>): seq<string> {
    if rows == [] then []
    else ["", "## Specified Credit", ""] + TableLines(SPECIFIED_HEADINGS, AllSpecifiedCells(rows))
  }

  function UnspecifiedLines(rows: seq<CreditRow>): seq<string> {
    if rows == [] then []
    else ["", "## Unspecified Credit", ""] + TableLines(UNSPECIFIED_HEADINGS, AllUnspecifiedCells(rows))
  }

  function RenderedLines(record: EnrolmentRecord): seq<string> {
    HeaderLines(record) + HistoryLines(record.rows) + SpecifiedLines(record.specified) + UnspecifiedLines(record.unspecified)
  }

  function Rendered(record: EnrolmentRecord): string {
    Join(RenderedLines(record), "\n")
  }

  // `render_for_llm`
  method Render(record: EnrolmentRecord) returns (text: string)
    ensures text == Rendered(record)
  {
    hide RowLine, TableLines, MajorLine;
    var lines := ["# Enrolment Record", ""];
    if OrBlank(record.course) != "" {
      lines := lines + ["**Course:** " + record.course.value];
    }
    if OrBlank(record.campus) != "" {
      lines := lines + ["**Campus:** " + record.campus.value];
    }
    ghost var start := lines;
    for index := 0 to |record.majors|
      invariant lines == start + MajorLines(record.majors)[..index]
    {
      lines := lines + [MajorLine(index, record.majors[index])];
    }
    assert lines == HeaderLines(record);
    lines := lines + ["", "## Enrolment History", ""];
    lines := lines + TableLines(ENROLMENT_HEADINGS, AllRowCells(record.rows));
    assert lines == HeaderLines(record) + HistoryLines(record.rows);
    if record.specified != [] {
      lines := lines + ["", "## Specified Credit", ""];
      lines := lines + TableLines(SPECIFIED_HEADINGS, AllSpecifiedCells(record.specified));
    }
    if record.unspecified != [] {
      lines := lines + ["", "## Unspecified Credit", ""];
      lines := lines + TableLines(UNSPECIFIED_HEADINGS, AllUnspecifiedCells(record.unspecified));
    }
    assert lines == RenderedLines(record);
    text := Join(lines, "\n");
  }
}
