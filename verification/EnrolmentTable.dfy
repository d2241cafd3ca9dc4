/** The table parser of app/services/enrolment.py. */
module EnrolmentTable {
  import opened Text
  import opened Records
  import opened EnrolmentShapes

  // ---------------------------------------------------------------- lines

  // Where `str.splitlines` breaks, within ASCII.
  predicate IsBreak(c: char) {
    c == '\n' || c == '\r' || c == '\U{0B}' || c == '\U{0C}' || c == '\U{1C}' || c == '\U{1D}' || c == '\U{1E}'
  }

  function LineRun(s: string): (n: nat)
    ensures n <= |s|
    ensures forall k :: 0 <= k < n ==> !IsBreak(s[k])
    ensures n < |s| ==> IsBreak(s[n])
  {
    if s != "" && !IsBreak(s[0]) then 1 + LineRun(s[1..]) else 0
  }

  // `s.splitlines()`
  function Lines(s: string): seq<string>
    decreases |s|
  {
    var n := LineRun(s);
    if s == "" then []
    else if n == |s| then [s]
    else [s[..n]] + Lines(if s[n] == '\r' && n + 1 < |s| && s[n + 1] == '\n' then s[n + 2..] else s[n + 1..])
  }

  // ---------------------------------------------------------------- cells

  function TrimAll(cells: seq<string>): (r: seq<string>)
    ensures |r| == |cells| && forall k :: 0 <= k < |cells| ==> r[k] == Trim(cells[k])
  {
    seq(|cells|, k requires 0 <= k < |cells| => Trim(cells[k]))
  }

  // The cells of a row, without the outer pipes.
  function SplitRow(line: string): (cells: seq<string>)
    ensures |cells| >= 1
  {
    TrimAll(Split(Strip(Trim(line), {'|'}), '|'))
  }

  predicate IsDashes(cell: string) {
    cell != "" && forall k :: 0 <= k < |cell| ==> cell[k] == '-' || cell[k] == ':' || cell[k] == ' '
  }

  predicate IsSeparator(cells: seq<string>) {
    forall k :: 0 <= k < |cells| ==> IsDashes(cells[k])
  }

  // `re.sub(r"\s+", " ", s)`
  function Squeeze(s: string): string
    decreases |s|
  {
    if s == "" then ""
    else if IsSpace(s[0]) then " " + Squeeze(DropSpaces(s[1..]))
    else [s[0]] + Squeeze(s[1..])
  }

  // A heading cell in the form that tables are recognised by.
  function Norm(cell: string): string {
    Lower(Squeeze(Trim(Remove(cell, '*'))))
  }

  function NormAll(cells: seq<string>): (r: seq<string>)
    ensures |r| == |cells| && forall k :: 0 <= k < |cells| ==> r[k] == Norm(cells[k])
  {
    seq(|cells|, k requires 0 <= k < |cells| => Norm(cells[k]))
  }

  datatype Table = Enrolment | Specified | Unspecified

  // The table that a heading row introduces.
  function Classify(headings: seq<string>): Option<Table> {
    if "year" in headings && "subject code" in headings && "status" in headings then Some(Enrolment)
    else if "course" in headings && "subject code" in headings && "nom cp" in headings then Some(Specified)
    else if "course" in headings && "level" in headings && "nom cp" in headings then Some(Unspecified)
    else None
  }

  // ---------------------------------------------------------------- rows

  // A row by column name; of two columns with one name the later counts.
  function Get(columns: seq<string>, cells: seq<string>, name: string): Option<string>
    requires |columns| == |cells|
  {
    if columns == [] then None
    else if columns[|columns| - 1] == name then Some(cells[|columns| - 1])
    else Get(columns[..|columns| - 1], cells[..|columns| - 1], name)
  }

  function GetOr(columns: seq<string>, cells: seq<string>, name: string): string
    requires |columns| == |cells|
  {
    var c := Get(columns, cells, name);
    if c.Some? then c.value else ""
  }

  function NonEmpty(s: string): Option<string> {
    if s == "" then None else Some(s)
  }

  function ReadMark(s: string): Result<Option<int>> {
    if s == "" then Ok(None)
    else if PythonInt(s).None? || !(0 <= PythonInt(s).value <= 100) then Unreadable
    else Ok(PythonInt(s))
  }

  // The campus half of "Campus/Delivery".
  function CampusHalf(s: string): string {
    Trim(Split(s, '/')[0])
  }

  // The values of an enrolment row, shape-checked; the mark apart.
  function RowFrom(year: string, session: string, campus: string, rawCode: string, cp: string, rawGrade: string, status: string):
    Result<EnrolmentRow>
  {
    var code, grade := Upper(rawCode), NonEmpty(Upper(rawGrade));
    if !IsSubjectCode(code) || (grade.Some? && !IsGrade(grade.value)) || !IsStatus(status) then Unreadable
    else if PythonInt(year).None? || PythonInt(cp).None? then Unreadable
    else Ok(EnrolmentRow(PythonInt(year).value, session, CampusHalf(campus), code, PythonInt(cp).value, grade, status, None))
  }

  function WithMark(row: Result<EnrolmentRow>, mark: string): Result<EnrolmentRow> {
    if row.Unreadable? || ReadMark(mark).Unreadable? then Unreadable
    else Ok(row.value.(mark := ReadMark(mark).value))
  }

  function ReadRow(columns: seq<string>, cells: seq<string>, keepMarks: bool): Result<EnrolmentRow>
    requires |columns| == |cells|
  {
    var delivery := GetOr(columns, cells, "campus/delivery");
    var row := RowFrom(
      GetOr(columns, cells, "year"), GetOr(columns, cells, "session"),
      if delivery != "" then delivery else GetOr(columns, cells, "campus"),
      GetOr(columns, cells, "subject code"), GetOr(columns, cells, "nom cp"),
      GetOr(columns, cells, "grade"), GetOr(columns, cells, "status"));
    if keepMarks then WithMark(row, GetOr(columns, cells, "mark")) else row
  }

  function CreditFrom(course: string, rawCode: string, level: string, cp: string): Result<CreditRow> {
    var code := NonEmpty(Upper(rawCode));
    if (code.Some? && !IsSubjectCode(code.value)) || PythonInt(cp).None? then Unreadable
    else Ok(CreditRow(course, code, NonEmpty(level), PythonInt(cp).value))
  }

  function ReadCredit(columns: seq<string>, cells: seq<string>): Result<CreditRow>
    requires |columns| == |cells|
  {
    CreditFrom(GetOr(columns, cells, "course"), GetOr(columns, cells, "subject code"),
               GetOr(columns, cells, "level"), GetOr(columns, cells, "nom cp"))
  }

  // ---------------------------------------------------------------- the parser

  // What the parser holds between two lines.
  datatype State = State(
    header: Header, rows: seq<EnrolmentRow>, specified: seq<CreditRow>, unspecified: seq<CreditRow>,
    table: Option<Table>, columns: seq<string>)

  const INITIAL := State(Header(None, None, [], false), [], [], [], None, [])

  function AddRow(st: State, row: Result<EnrolmentRow>): Result<State> {
    if row.Ok? then Ok(st.(rows := st.rows + [row.value])) else Unreadable
  }

  function AddSpecified(st: State, row: Result<CreditRow>): Result<State> {
    if row.Ok? then Ok(st.(specified := st.specified + [row.value])) else Unreadable
  }

  function AddUnspecified(st: State, row: Result<CreditRow>): Result<State> {
    if row.Ok? then Ok(st.(unspecified := st.unspecified + [row.value])) else Unreadable
  }

  // A row of the table that is open.
  function ReadBody(cells: seq<string>, st: State, keepMarks: bool): Result<State> {
    if st.table.None? then Ok(st)
    else if |cells| != |st.columns| then Unreadable
    else
      match st.table.value
      case Enrolment => AddRow(st, ReadRow(st.columns, cells, keepMarks))
      case Specified => AddSpecified(st, ReadCredit(st.columns, cells))
      case Unspecified => AddUnspecified(st, ReadCredit(st.columns, cells))
  }

  function ReadCells(cells: seq<string>, st: State, keepMarks: bool): Result<State> {
    if IsSeparator(cells) then Ok(st)
    else if Classify(NormAll(cells)).Some? then Ok(st.(table := Classify(NormAll(cells)), columns := NormAll(cells)))
    else ReadBody(cells, st, keepMarks)
  }

  predicate IsTableLine(line: string) {
    line != "" && line[0] == '|'
  }

  function CloseTable(st: State): State {
    st.(table := None, columns := [])
  }

  function ReadLine(rawLine: string, st: State, keepMarks: bool): Result<State> {
    var line := Trim(rawLine);
    if IsTableLine(line) then ReadCells(SplitRow(line), st, keepMarks)
    else Ok(CloseTable(st).(header := ReadHeaderLine(line, st.header)))
  }

  function ReadLines(lines: seq<string>, st: State, keepMarks: bool): Result<State> {
    if lines == [] then Ok(st)
    else
      var next := ReadLine(lines[0], st, keepMarks);
      if next.Unreadable? then Unreadable else ReadLines(lines[1..], next.value, keepMarks)
  }

  function RecordOf(st: State): Result<EnrolmentRecord> {
    if st.rows == [] then Unreadable
    else Ok(EnrolmentRecord(st.header.course, st.header.campus, st.header.majors, st.rows, st.specified, st.unspecified))
  }

  // The record that the table parser finds in a text.
  function TableRecord(raw: string, keepMarks: bool): Result<EnrolmentRecord> {
    var st := ReadLines(Lines(raw), INITIAL, keepMarks);
    if st.Ok? then RecordOf(st.value) else Unreadable
  }

  // `_parse_table`
  method ParseTable(raw: string, keepMarks: bool) returns (r: Result<EnrolmentRecord>)
    ensures r == TableRecord(raw, keepMarks)
  {
    hide Lines, Trim, SplitRow, IsSeparator, Classify, NormAll, ReadRow, ReadCredit, ReadHeaderLine;
    var header := Header(None, None, [], false);
    var rows, specified, unspecified := [], [], [];
    var table: Option<Table> := None;
    var columns: seq<string> := [];
    var lines := Lines(raw);
    for k := 0 to |lines|
      invariant ReadLines(lines, INITIAL, keepMarks) ==
        ReadLines(lines[k..], State(header, rows, specified, unspecified, table, columns), keepMarks)
    {
      assert lines[k..][0] == lines[k] && lines[k..][1..] == lines[k + 1..];
      var line := Trim(lines[k]);
      if !IsTableLine(line) {
        table, columns := None, [];
        header := ReadHeaderLine(line, header);
        continue;
      }
      var cells := SplitRow(line);
      if IsSeparator(cells) {
        continue;
      }
      var kind := Classify(NormAll(cells));
      if kind.Some? {
        table, columns := kind, NormAll(cells);
        continue;
      }
      if table.None? {
        continue;
      }
      if |cells| != |columns| {
        return Unreadable;
      }
      match table.value {
        case Enrolment =>
          var row := ReadRow(columns, cells, keepMarks);
          if row.Unreadable? {
            return Unreadable;
          }
          rows := rows + [row.value];
        case Specified =>
          var row := ReadCredit(columns, cells);
          if row.Unreadable? {
            return Unreadable;
          }
          specified := specified + [row.value];
        case Unspecified =>
          var row := ReadCredit(columns, cells);
          if row.Unreadable? {
            return Unreadable;
          }
          unspecified := unspecified + [row.value];
      }
    }
    if rows == [] {
      return Unreadable;
    }
    r := Ok(EnrolmentRecord(header.course, header.campus, header.majors, rows, specified, unspecified));
  }
}
