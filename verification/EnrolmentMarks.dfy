/**
 Marks never reach the projection: the ordinary parse does not depend on them, and a parse that
 keeps marks is the ordinary parse with the marks added.

 The relation between two pastes follows the parser's state, because which cells are marks
 depends on the heading row above them.
 */
module EnrolmentMarks {
  import opened Text
  import opened Records
  import opened EnrolmentShapes
  import opened EnrolmentTable

  // ---------------------------------------------------------------- two pastes that differ in marks

  // Two lines that are equal, or rows of the open enrolment table that differ only under "mark".
  predicate OnlyMarksDiffer(x: string, y: string, st: State) {
    x == y || (
      && IsTableLine(Trim(x)) && IsTableLine(Trim(y))
      && CellsDifferInMarks(SplitRow(Trim(x)), SplitRow(Trim(y)), st))
  }

  predicate IsBodyRow(cells: seq<string>) {
    !IsSeparator(cells) && Classify(NormAll(cells)).None?
  }

  predicate CellsDifferInMarks(a: seq<string>, b: seq<string>, st: State) {
    && IsBodyRow(a) && IsBodyRow(b) && st.table == Some(Enrolment) && |a| == |b|
    && (|a| == |st.columns| ==> forall i :: 0 <= i < |a| && st.columns[i] != "mark" ==> a[i] == b[i])
  }

  // The same, line by line over two pastes.
  predicate PastesDifferInMarks(x: seq<string>, y: seq<string>, st: State) {
    && |x| == |y|
    && (x != [] ==>
          && OnlyMarksDiffer(x[0], y[0], st)
          && (ReadLine(x[0], st, false).Ok? ==> PastesDifferInMarks(x[1..], y[1..], ReadLine(x[0], st, false).value)))
  }

  lemma {:induction false} GetIgnoresMark(columns: seq<string>, a: seq<string>, b: seq<string>, name: string)
    requires |columns| == |a| == |b| && name != "mark"
    requires forall i :: 0 <= i < |a| && columns[i] != "mark" ==> a[i] == b[i]
    ensures Get(columns, a, name) == Get(columns, b, name)
  {
    if columns != [] {
      GetIgnoresMark(columns[..|columns| - 1], a[..|a| - 1], b[..|b| - 1], name);
    }
  }

  lemma ReadRowIgnoresMark(columns: seq<string>, a: seq<string>, b: seq<string>)
    requires |columns| == |a| == |b|
    requires forall i :: 0 <= i < |a| && columns[i] != "mark" ==> a[i] == b[i]
    ensures ReadRow(columns, a, false) == ReadRow(columns, b, false)
  {
    hide RowFrom, Get;
    GetIgnoresMark(columns, a, b, "year");
    GetIgnoresMark(columns, a, b, "session");
    GetIgnoresMark(columns, a, b, "campus");
    GetIgnoresMark(columns, a, b, "campus/delivery");
    GetIgnoresMark(columns, a, b, "subject code");
    GetIgnoresMark(columns, a, b, "nom cp");
    GetIgnoresMark(columns, a, b, "grade");
    GetIgnoresMark(columns, a, b, "status");
  }

  lemma ReadLineIgnoresMark(x: string, y: string, st: State)
    requires OnlyMarksDiffer(x, y, st)
    ensures ReadLine(x, st, false) == ReadLine(y, st, false)
  {
    hide ReadRow, ReadCredit, Trim, SplitRow, IsSeparator, Classify, NormAll, ReadHeaderLine;
    if x != y {
      var a, b := SplitRow(Trim(x)), SplitRow(Trim(y));
      if |a| == |st.columns| {
        ReadRowIgnoresMark(st.columns, a, b);
      }
    }
  }

  lemma {:induction false} ReadLinesIgnoreMarks(x: seq<string>, y: seq<string>, st: State)
    requires PastesDifferInMarks(x, y, st)
    ensures ReadLines(x, st, false) == ReadLines(y, st, false)
  {
    hide ReadLine, OnlyMarksDiffer;
    if x != [] {
      ReadLineIgnoresMark(x[0], y[0], st);
      if ReadLine(x[0], st, false).Ok? {
        ReadLinesIgnoreMarks(x[1..], y[1..], ReadLine(x[0], st, false).value);
      }
    }
  }

  // Two pastes whose rows differ only in their marks give the same record, or neither gives one.
  lemma TableIgnoresMarks(x: string, y: string)
    requires PastesDifferInMarks(Lines(x), Lines(y), INITIAL)
    ensures TableRecord(x, false) == TableRecord(y, false)
  {
    hide Lines, ReadLines, PastesDifferInMarks;
    ReadLinesIgnoreMarks(Lines(x), Lines(y), INITIAL);
  }

  // ---------------------------------------------------------------- a parse that keeps marks

  function EraseAll(rows: seq<EnrolmentRow>): (r: seq<EnrolmentRow>)
    ensures |r| == |rows| && forall k :: 0 <= k < |rows| ==> r[k] == rows[k].(mark := None)
  {
    seq(|rows|, k requires 0 <= k < |rows| => rows[k].(mark := None))
  }

  // The record without its marks.
  function Erased(r: EnrolmentRecord): EnrolmentRecord {
    r.(rows := EraseAll(r.rows))
  }

  function ErasedState(st: State): State {
    st.(rows := EraseAll(st.rows))
  }

  lemma RowErases(columns: seq<string>, cells: seq<string>)
    requires |columns| == |cells|
    ensures ReadRow(columns, cells, true).Ok? ==>
      ReadRow(columns, cells, false) == Ok(ReadRow(columns, cells, true).value.(mark := None))
  {
    hide GetOr, IsSubjectCode, IsGrade, IsStatus, Upper, CampusHalf, PythonInt, ReadMark;
  }

  lemma AddRowErases(st: State, row: EnrolmentRow)
    ensures ErasedState(st.(rows := st.rows + [row])) == ErasedState(st).(rows := EraseAll(st.rows) + [row.(mark := None)])
  {
    assert EraseAll(st.rows + [row]) == EraseAll(st.rows) + [row.(mark := None)];
  }

  lemma ReadBodyErases(cells: seq<string>, st: State)
    requires ReadBody(cells, st, true).Ok?
    ensures ReadBody(cells, ErasedState(st), false) == Ok(ErasedState(ReadBody(cells, st, true).value))
  {
    hide ReadRow, ReadCredit, EraseAll;
    if st.table == Some(Enrolment) {
      RowErases(st.columns, cells);
      AddRowErases(st, ReadRow(st.columns, cells, true).value);
    }
  }

  lemma ReadLineErases(line: string, st: State)
    requires ReadLine(line, st, true).Ok?
    ensures ReadLine(line, ErasedState(st), false) == Ok(ErasedState(ReadLine(line, st, true).value))
  {
    hide ReadBody, Trim, SplitRow, IsSeparator, Classify, NormAll, ReadHeaderLine, EraseAll;
    var cells := SplitRow(Trim(line));
    if IsTableLine(Trim(line)) && !IsSeparator(cells) && Classify(NormAll(cells)).None? {
      ReadBodyErases(cells, st);
    }
  }

  lemma {:induction false} ReadLinesErase(lines: seq<string>, st: State)
    requires ReadLines(lines, st, true).Ok?
    ensures ReadLines(lines, ErasedState(st), false) == Ok(ErasedState(ReadLines(lines, st, true).value))
  {
    hide ReadLine, ErasedState;
    if lines != [] {
      ReadLineErases(lines[0], st);
      ReadLinesErase(lines[1..], ReadLine(lines[0], st, true).value);
    }
  }

  // A parse that keeps marks is the ordinary parse with the marks added.
  lemma TableErases(raw: string)
    requires TableRecord(raw, true).Ok?
    ensures TableRecord(raw, false) == Ok(Erased(TableRecord(raw, true).value))
  {
    hide Lines, ReadLines;
    assert ErasedState(INITIAL) == INITIAL;
    ReadLinesErase(Lines(raw), INITIAL);
  }

  // ---------------------------------------------------------------- marks in print

  function MarkText(mark: Option<int>): string {
    if mark.Some? then IntText(mark.value) else ""
  }

  predicate HasMarkInRange(row: EnrolmentRow) {
    row.mark.Some? ==> 0 <= row.mark.value <= 100
  }

  // A printed mark of 0 to 100 is read as that mark, and a blank cell as none.
  lemma MarkIsReadBack(row: EnrolmentRow)
    requires HasMarkInRange(row)
    ensures ReadMark(MarkText(row.mark)) == Ok(row.mark)
  {
    hide PythonInt, IntText;
    if row.mark.Some? {
      IntReadsBack(row.mark.value);
    }
  }

  // The row as it is read: with its mark, or without.
  function Kept(row: EnrolmentRow, keepMarks: bool): EnrolmentRow {
    if keepMarks then row else row.(mark := None)
  }
}
