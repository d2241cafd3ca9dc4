/** Which lines of a pasted table become rows, and what each row holds. */
module TableLayout {
  // The parser walks the lines with a table open or not. Here the same is said of the lines themselves: a body
  // line lies under the last heading before it, with nothing but table lines between.

  import opened Text
  import opened Records
  import opened EnrolmentShapes
  import opened EnrolmentTable

  // ---------------------------------------------------------------- lines

  function CellsOf(line: string): seq<string> {
    SplitRow(Trim(line))
  }

  predicate IsRowLine(line: string) {
    Trim(line) != "" && Trim(line)[0] == '|'
  }

  // Every cell is of dashes, colons and spaces, and none is blank.
  predicate IsRule(line: string) {
    IsRowLine(line) && forall k :: 0 <= k < |CellsOf(line)| ==> IsDashed(CellsOf(line)[k])
  }

  predicate IsDashed(cell: string) {
    cell != "" && forall ch :: ch in cell ==> ch == '-' || ch == ':' || ch == ' '
  }

  // The columns that tell the three tables apart; the first that fits counts.
  function KindOf(line: string): Option<Table> {
    var headings := NormAll(CellsOf(line));
    if "year" in headings && "subject code" in headings && "status" in headings then Some(Enrolment)
    else if "course" in headings && "subject code" in headings && "nom cp" in headings then Some(Specified)
    else if "course" in headings && "level" in headings && "nom cp" in headings then Some(Unspecified)
    else None
  }

  predicate IsHeading(line: string) {
    IsRowLine(line) && !IsRule(line) && KindOf(line).Some?
  }

  predicate IsBodyLine(line: string) {
    IsRowLine(line) && !IsRule(line) && KindOf(line).None?
  }

  // The table of heading h is open before line i.
  predicate IsOpen(lines: seq<string>, h: nat, i: nat)
    requires i <= |lines|
    ensures IsOpen(lines, h, i) ==> h < i
  {
    && h < i && IsHeading(lines[h])
    && forall j :: h < j < i ==> IsRowLine(lines[j]) && !IsHeading(lines[j])
  }

  // Line i is a row of the table of heading h.
  predicate IsBodyOf(lines: seq<string>, h: nat, i: nat)
    requires i < |lines|
    ensures IsBodyOf(lines, h, i) ==> h < i
  {
    IsOpen(lines, h, i) && IsBodyLine(lines[i])
  }

  lemma OneHeading(lines: seq<string>, h: nat, g: nat, i: nat)
    requires i <= |lines| && IsOpen(lines, h, i) && IsOpen(lines, g, i)
    ensures h == g
  {
    hide IsHeading, IsRowLine;
  }

  // The rows of the tables of a kind stand at these lines, in order.
  ghost predicate StandAt(lines: seq<string>, upTo: nat, kind: Table, at: seq<nat>)
    requires upTo <= |lines|
  {
    && (forall a, b :: 0 <= a < b < |at| ==> at[a] < at[b])
    && (forall k :: 0 <= k < |at| ==> at[k] < upTo)
    && (forall i: nat :: i < upTo ==> (i in at <==> IsRowOfKind(lines, i, kind)))
  }

  ghost predicate IsRowOfKind(lines: seq<string>, i: nat, kind: Table)
    requires i < |lines|
  {
    exists h: nat :: IsBodyOf(lines, h, i) && KindOf(lines[h]) == Some(kind)
  }

  // The line has as many cells as its heading, and they read as a row of its table.
  predicate IsEnrolmentRow(lines: seq<string>, h: nat, i: nat, keepMarks: bool, row: EnrolmentRow)
    requires h < |lines| && i < |lines|
  {
    |CellsOf(lines[i])| == |CellsOf(lines[h])| && ReadRow(NormAll(CellsOf(lines[h])), CellsOf(lines[i]), keepMarks) == Ok(row)
  }

  predicate IsCreditRow(lines: seq<string>, h: nat, i: nat, row: CreditRow)
    requires h < |lines| && i < |lines|
  {
    |CellsOf(lines[i])| == |CellsOf(lines[h])| && ReadCredit(NormAll(CellsOf(lines[h])), CellsOf(lines[i])) == Ok(row)
  }

  ghost predicate AreEnrolmentRows(lines: seq<string>, at: seq<nat>, keepMarks: bool, rows: seq<EnrolmentRow>) {
    && |rows| == |at|
    && forall k :: 0 <= k < |at| ==> at[k] < |lines| && IsEnrolmentRowAt(lines, at[k], keepMarks, rows[k])
  }

  ghost predicate IsEnrolmentRowAt(lines: seq<string>, i: nat, keepMarks: bool, row: EnrolmentRow)
    requires i < |lines|
  {
    exists h: nat :: IsBodyOf(lines, h, i) && IsEnrolmentRow(lines, h, i, keepMarks, row)
  }

  ghost predicate AreCreditRows(lines: seq<string>, at: seq<nat>, rows: seq<CreditRow>) {
    && |rows| == |at|
    && forall k :: 0 <= k < |at| ==> at[k] < |lines| && IsCreditRowAt(lines, at[k], rows[k])
  }

  ghost predicate IsCreditRowAt(lines: seq<string>, i: nat, row: CreditRow)
    requires i < |lines|
  {
    exists h: nat :: IsBodyOf(lines, h, i) && IsCreditRow(lines, h, i, row)
  }

  // ---------------------------------------------------------------- the walk

  lemma SameKind(line: string)
    ensures Classify(NormAll(CellsOf(line))) == KindOf(line)
    ensures IsRowLine(line) ==> (IsSeparator(CellsOf(line)) <==> IsRule(line))
  {
    hide SplitRow, NormAll, IsDashed, IsDashes;
    forall k | 0 <= k < |CellsOf(line)| ensures IsDashes(CellsOf(line)[k]) <==> IsDashed(CellsOf(line)[k]) {
      DashedIff(CellsOf(line)[k]);
    }
  }

  lemma DashedIff(cell: string)
    ensures IsDashes(cell) <==> IsDashed(cell)
  {
    if IsDashed(cell) {
      forall k | 0 <= k < |cell| ensures cell[k] == '-' || cell[k] == ':' || cell[k] == ' ' {
        assert cell[k] in cell;
      }
    }
  }

  lemma OpenAfterRow(lines: seq<string>, h: nat, i: nat)
    requires i < |lines| && IsRowLine(lines[i]) && !IsHeading(lines[i])
    ensures IsOpen(lines, h, i + 1) <==> IsOpen(lines, h, i)
  {
    hide IsHeading, IsRowLine;
    if IsOpen(lines, h, i + 1) {
      assert h < i || h == i;
    }
  }

  lemma OpenAfterHeading(lines: seq<string>, i: nat)
    requires i < |lines| && IsHeading(lines[i])
    ensures IsOpen(lines, i, i + 1)
  {
    hide IsHeading, IsRowLine;
  }

  ghost predicate NoneOpen(lines: seq<string>, i: nat)
    requires i <= |lines|
  {
    forall h: nat :: !IsOpen(lines, h, i)
  }

  lemma NoneAfterText(lines: seq<string>, i: nat)
    requires i < |lines| && !IsRowLine(lines[i])
    ensures NoneOpen(lines, i + 1)
  {
    hide IsRule, KindOf, IsRowLine;
  }

  lemma NoneAfterRow(lines: seq<string>, i: nat)
    requires i < |lines| && IsRowLine(lines[i]) && !IsHeading(lines[i]) && NoneOpen(lines, i)
    ensures NoneOpen(lines, i + 1)
  {
    hide IsHeading, IsRowLine, IsOpen;
    var next := i + 1;
    forall h: nat ensures !IsOpen(lines, h, next) {
      OpenAfterRow(lines, h, i);
    }
  }

  lemma Skip(lines: seq<string>, i: nat, kind: Table, at: seq<nat>)
    requires i < |lines| && StandAt(lines, i, kind, at) && !IsRowOfKind(lines, i, kind)
    ensures StandAt(lines, i + 1, kind, at)
  {
    hide IsRowOfKind;
  }

  lemma Take(lines: seq<string>, i: nat, kind: Table, at: seq<nat>)
    requires i < |lines| && StandAt(lines, i, kind, at) && IsRowOfKind(lines, i, kind)
    ensures StandAt(lines, i + 1, kind, at + [i])
  {
    hide IsRowOfKind;
    var more := at + [i];
    forall a, b | 0 <= a < b < |more| ensures more[a] < more[b] {
      assert a < |at|;
    }
    forall k: nat | k < i + 1 ensures k in more <==> IsRowOfKind(lines, k, kind) {
      assert k in more <==> k in at || k == i;
    }
  }

  lemma NoRowOutside(lines: seq<string>, i: nat, kind: Table)
    requires i < |lines| && !IsBodyLine(lines[i])
    ensures !IsRowOfKind(lines, i, kind)
  {
    hide IsBodyLine, KindOf, IsOpen;
  }

  lemma NoRowUnopened(lines: seq<string>, i: nat, kind: Table)
    requires i < |lines| && NoneOpen(lines, i)
    ensures !IsRowOfKind(lines, i, kind)
  {
    hide IsBodyLine, KindOf, IsOpen;
  }

  lemma RowOfItsKind(lines: seq<string>, h: nat, i: nat, kind: Table)
    requires i < |lines| && IsBodyOf(lines, h, i)
    ensures IsRowOfKind(lines, i, kind) <==> KindOf(lines[h]) == Some(kind)
  {
    hide IsBodyLine, KindOf, IsOpen;
    if IsRowOfKind(lines, i, kind) {
      var g: nat :| IsBodyOf(lines, g, i) && KindOf(lines[g]) == Some(kind);
      OneHeading(lines, h, g, i);
    }
  }

  // ---------------------------------------------------------------- one line

  ghost predicate ListsStand(lines: seq<string>, i: nat, keepMarks: bool, st: State)
    requires i <= |lines|
  {
    && (exists at :: StandAt(lines, i, Enrolment, at) && AreEnrolmentRows(lines, at, keepMarks, st.rows))
    && (exists at :: StandAt(lines, i, Specified, at) && AreCreditRows(lines, at, st.specified))
    && (exists at :: StandAt(lines, i, Unspecified, at) && AreCreditRows(lines, at, st.unspecified))
  }

  lemma SkipAll(lines: seq<string>, i: nat, keepMarks: bool, st: State, st': State)
    requires i < |lines| && ListsStand(lines, i, keepMarks, st) && forall kind :: !IsRowOfKind(lines, i, kind)
    requires st'.rows == st.rows && st'.specified == st.specified && st'.unspecified == st.unspecified
    ensures ListsStand(lines, i + 1, keepMarks, st')
  {
    hide StandAt, AreEnrolmentRows, AreCreditRows, IsRowOfKind;
    var a :| StandAt(lines, i, Enrolment, a) && AreEnrolmentRows(lines, a, keepMarks, st.rows);
    var b :| StandAt(lines, i, Specified, b) && AreCreditRows(lines, b, st.specified);
    var c :| StandAt(lines, i, Unspecified, c) && AreCreditRows(lines, c, st.unspecified);
    Skip(lines, i, Enrolment, a);
    Skip(lines, i, Specified, b);
    Skip(lines, i, Unspecified, c);
  }

  lemma TakeEnrolment(lines: seq<string>, h: nat, i: nat, keepMarks: bool, st: State, row: EnrolmentRow)
    requires i < |lines| && ListsStand(lines, i, keepMarks, st)
    requires IsBodyOf(lines, h, i) && KindOf(lines[h]) == Some(Enrolment) && IsEnrolmentRow(lines, h, i, keepMarks, row)
    ensures ListsStand(lines, i + 1, keepMarks, st.(rows := st.rows + [row]))
  {
    hide StandAt, AreCreditRows, IsRowOfKind, KindOf, IsBodyOf, IsEnrolmentRow;
    var a :| StandAt(lines, i, Enrolment, a) && AreEnrolmentRows(lines, a, keepMarks, st.rows);
    var b :| StandAt(lines, i, Specified, b) && AreCreditRows(lines, b, st.specified);
    var c :| StandAt(lines, i, Unspecified, c) && AreCreditRows(lines, c, st.unspecified);
    RowOfItsKind(lines, h, i, Enrolment);
    RowOfItsKind(lines, h, i, Specified);
    RowOfItsKind(lines, h, i, Unspecified);
    Take(lines, i, Enrolment, a);
    Skip(lines, i, Specified, b);
    Skip(lines, i, Unspecified, c);
    assert IsEnrolmentRowAt(lines, i, keepMarks, row);
    assert AreEnrolmentRows(lines, a + [i], keepMarks, st.rows + [row]);
  }

  lemma TakeCredit(lines: seq<string>, h: nat, i: nat, keepMarks: bool, st: State, row: CreditRow)
    requires i < |lines| && ListsStand(lines, i, keepMarks, st)
    requires IsBodyOf(lines, h, i) && IsCreditRow(lines, h, i, row)
    ensures KindOf(lines[h]) == Some(Specified) ==> ListsStand(lines, i + 1, keepMarks, st.(specified := st.specified + [row]))
    ensures KindOf(lines[h]) == Some(Unspecified) ==> ListsStand(lines, i + 1, keepMarks, st.(unspecified := st.unspecified + [row]))
  {
    hide StandAt, AreEnrolmentRows, IsRowOfKind, KindOf, IsBodyOf, IsCreditRow;
    var a :| StandAt(lines, i, Enrolment, a) && AreEnrolmentRows(lines, a, keepMarks, st.rows);
    var b :| StandAt(lines, i, Specified, b) && AreCreditRows(lines, b, st.specified);
    var c :| StandAt(lines, i, Unspecified, c) && AreCreditRows(lines, c, st.unspecified);
    RowOfItsKind(lines, h, i, Enrolment);
    RowOfItsKind(lines, h, i, Specified);
    RowOfItsKind(lines, h, i, Unspecified);
    assert IsCreditRowAt(lines, i, row);
    if KindOf(lines[h]) == Some(Specified) {
      Skip(lines, i, Enrolment, a);
      Take(lines, i, Specified, b);
      Skip(lines, i, Unspecified, c);
      assert AreCreditRows(lines, b + [i], st.specified + [row]);
    } else if KindOf(lines[h]) == Some(Unspecified) {
      Skip(lines, i, Enrolment, a);
      Skip(lines, i, Specified, b);
      Take(lines, i, Unspecified, c);
      assert AreCreditRows(lines, c + [i], st.unspecified + [row]);
    }
  }

  // A row of a table is readable: as many cells as columns, and values of their shapes.
  predicate IsReadable(lines: seq<string>, h: nat, i: nat, keepMarks: bool)
    requires h < |lines| && i < |lines|
  {
    var columns, cells := NormAll(CellsOf(lines[h])), CellsOf(lines[i]);
    |columns| == |cells| &&
    (if KindOf(lines[h]) == Some(Enrolment) then ReadRow(columns, cells, keepMarks).Ok? else ReadCredit(columns, cells).Ok?)
  }

  ghost predicate TableStands(lines: seq<string>, i: nat, st: State)
    requires i <= |lines|
  {
    if st.table.None? then NoneOpen(lines, i)
    else exists h: nat :: IsOpen(lines, h, i) && st.table == KindOf(lines[h]) && st.columns == NormAll(CellsOf(lines[h]))
  }

  ghost predicate ReadableAt(lines: seq<string>, i: nat, keepMarks: bool)
    requires i < |lines|
  {
    forall h: nat :: IsBodyOf(lines, h, i) ==> IsReadable(lines, h, i, keepMarks)
  }

  lemma TextLine(lines: seq<string>, i: nat, keepMarks: bool, st: State)
    requires i < |lines| && TableStands(lines, i, st) && ListsStand(lines, i, keepMarks, st) && !IsRowLine(lines[i])
    ensures ReadableAt(lines, i, keepMarks) && ReadLine(lines[i], st, keepMarks).Ok?
    ensures var t := ReadLine(lines[i], st, keepMarks).value; TableStands(lines, i + 1, t) && ListsStand(lines, i + 1, keepMarks, t)
  {
    hide IsRule, KindOf, IsOpen, ListsStand, IsReadable, ReadCells, ReadHeaderLine, Trim, NoneOpen;
    NoneAfterText(lines, i);
    forall kind ensures !IsRowOfKind(lines, i, kind) {
      NoRowOutside(lines, i, kind);
    }
    SkipAll(lines, i, keepMarks, st, ReadLine(lines[i], st, keepMarks).value);
  }

  lemma RuleLine(lines: seq<string>, i: nat, keepMarks: bool, st: State)
    requires i < |lines| && TableStands(lines, i, st) && ListsStand(lines, i, keepMarks, st) && IsRule(lines[i])
    ensures ReadableAt(lines, i, keepMarks) && ReadLine(lines[i], st, keepMarks) == Ok(st)
    ensures TableStands(lines, i + 1, st) && ListsStand(lines, i + 1, keepMarks, st)
  {
    SameKind(lines[i]);
    hide IsRule, KindOf, IsOpen, ListsStand, IsReadable, ReadHeaderLine, Trim, NoneOpen, IsSeparator, ReadBody, NormAll, SplitRow, Classify;
    RuleIsNoBody(lines[i]);
    StillOpen(lines, i, st);
    forall kind ensures !IsRowOfKind(lines, i, kind) {
      NoRowOutside(lines, i, kind);
    }
    SkipAll(lines, i, keepMarks, st, st);
  }

  lemma RuleIsNoBody(line: string)
    requires IsRule(line)
    ensures IsRowLine(line) && !IsHeading(line) && !IsBodyLine(line)
  {
  }

  lemma StillOpen(lines: seq<string>, i: nat, st: State)
    requires i < |lines| && TableStands(lines, i, st) && IsRowLine(lines[i]) && !IsHeading(lines[i])
    ensures TableStands(lines, i + 1, st)
  {
    hide IsHeading, IsRowLine, IsOpen, KindOf, NoneOpen;
    if st.table.None? {
      NoneAfterRow(lines, i);
    } else {
      var h: nat :| IsOpen(lines, h, i) && st.table == KindOf(lines[h]) && st.columns == NormAll(CellsOf(lines[h]));
      OpenAfterRow(lines, h, i);
    }
  }

  lemma HeadingLine(lines: seq<string>, i: nat, keepMarks: bool, st: State)
    requires i < |lines| && ListsStand(lines, i, keepMarks, st) && IsHeading(lines[i])
    ensures ReadableAt(lines, i, keepMarks) && ReadLine(lines[i], st, keepMarks).Ok?
    ensures var t := ReadLine(lines[i], st, keepMarks).value; TableStands(lines, i + 1, t) && ListsStand(lines, i + 1, keepMarks, t)
  {
    SameKind(lines[i]);
    hide IsRule, KindOf, IsOpen, ListsStand, IsReadable, ReadHeaderLine, Trim, NoneOpen, IsSeparator, ReadBody, NormAll, SplitRow, Classify;
    OpenAfterHeading(lines, i);
    forall kind ensures !IsRowOfKind(lines, i, kind) {
      NoRowOutside(lines, i, kind);
    }
    SkipAll(lines, i, keepMarks, st, ReadLine(lines[i], st, keepMarks).value);
  }

  lemma StrayLine(lines: seq<string>, i: nat, keepMarks: bool, st: State)
    requires i < |lines| && TableStands(lines, i, st) && ListsStand(lines, i, keepMarks, st)
    requires IsBodyLine(lines[i]) && st.table.None?
    ensures ReadableAt(lines, i, keepMarks) && ReadLine(lines[i], st, keepMarks) == Ok(st)
    ensures TableStands(lines, i + 1, st) && ListsStand(lines, i + 1, keepMarks, st)
  {
    SameKind(lines[i]);
    hide IsRule, KindOf, ListsStand, IsReadable, ReadHeaderLine, Trim, IsSeparator, NormAll, SplitRow, Classify;
    NoneAfterRow(lines, i);
    forall kind ensures !IsRowOfKind(lines, i, kind) {
      NoRowUnopened(lines, i, kind);
    }
    hide IsOpen;
    SkipAll(lines, i, keepMarks, st, st);
  }

  lemma BodyReads(lines: seq<string>, h: nat, i: nat, keepMarks: bool, st: State)
    requires i < |lines| && IsBodyOf(lines, h, i) && st.table == KindOf(lines[h]) && st.table.Some? && st.columns == NormAll(CellsOf(lines[h]))
    ensures ReadLine(lines[i], st, keepMarks) == ReadBody(CellsOf(lines[i]), st, keepMarks)
    ensures ReadableAt(lines, i, keepMarks) <==> IsReadable(lines, h, i, keepMarks)
  {
    SameKind(lines[i]);
    hide IsRule, KindOf, IsOpen, IsReadable, ReadHeaderLine, Trim, IsSeparator, NormAll, SplitRow, Classify, ReadBody;
    forall g: nat | IsBodyOf(lines, g, i) ensures g == h {
      OneHeading(lines, h, g, i);
    }
  }

  lemma BodyLine(lines: seq<string>, i: nat, keepMarks: bool, st: State)
    requires i < |lines| && TableStands(lines, i, st) && ListsStand(lines, i, keepMarks, st)
    requires IsBodyLine(lines[i]) && st.table.Some?
    ensures ReadableAt(lines, i, keepMarks) <==> ReadLine(lines[i], st, keepMarks).Ok?
    ensures var r := ReadLine(lines[i], st, keepMarks);
      r.Ok? ==> TableStands(lines, i + 1, r.value) && ListsStand(lines, i + 1, keepMarks, r.value)
  {
    hide IsRule, KindOf, IsOpen, ListsStand, ReadHeaderLine, Trim, NoneOpen, NormAll, SplitRow, Classify, ReadLine, ReadableAt, ReadRow, ReadCredit;
    var h: nat :| IsOpen(lines, h, i) && st.table == KindOf(lines[h]) && st.columns == NormAll(CellsOf(lines[h]));
    BodyReads(lines, h, i, keepMarks, st);
    BodyIsNoHeading(lines[i]);
    StillOpen(lines, i, st);
    var cells := CellsOf(lines[i]);
    if |cells| == |st.columns| {
      match st.table.value
      case Enrolment =>
        var row := ReadRow(st.columns, cells, keepMarks);
        if row.Ok? {
          TakeEnrolment(lines, h, i, keepMarks, st, row.value);
        }
      case Specified =>
        var row := ReadCredit(st.columns, cells);
        if row.Ok? {
          TakeCredit(lines, h, i, keepMarks, st, row.value);
        }
      case Unspecified =>
        var row := ReadCredit(st.columns, cells);
        if row.Ok? {
          TakeCredit(lines, h, i, keepMarks, st, row.value);
        }
    }
  }

  lemma BodyIsNoHeading(line: string)
    requires IsBodyLine(line)
    ensures IsRowLine(line) && !IsHeading(line)
  {
    hide IsRule, KindOf, IsRowLine;
  }

  lemma OneLine(lines: seq<string>, i: nat, keepMarks: bool, st: State)
    requires i < |lines| && TableStands(lines, i, st) && ListsStand(lines, i, keepMarks, st)
    ensures ReadableAt(lines, i, keepMarks) <==> ReadLine(lines[i], st, keepMarks).Ok?
    ensures var r := ReadLine(lines[i], st, keepMarks);
      r.Ok? ==> TableStands(lines, i + 1, r.value) && ListsStand(lines, i + 1, keepMarks, r.value)
  {
    hide TableStands, ListsStand, ReadLine, ReadableAt, KindOf, IsRowLine, CellsOf, IsDashed;
    if !IsRowLine(lines[i]) {
      TextLine(lines, i, keepMarks, st);
    } else if IsRule(lines[i]) {
      RuleLine(lines, i, keepMarks, st);
    } else if IsHeading(lines[i]) {
      HeadingLine(lines, i, keepMarks, st);
    } else if st.table.None? {
      StrayLine(lines, i, keepMarks, st);
    } else {
      BodyLine(lines, i, keepMarks, st);
    }
  }

  // ---------------------------------------------------------------- all lines

  ghost predicate AllReadable(lines: seq<string>, i: nat, keepMarks: bool) {
    forall j: nat :: i <= j < |lines| ==> ReadableAt(lines, j, keepMarks)
  }

  lemma {:induction false} AllLines(lines: seq<string>, i: nat, keepMarks: bool, st: State)
    requires i <= |lines| && TableStands(lines, i, st) && ListsStand(lines, i, keepMarks, st)
    ensures var r := ReadLines(lines[i..], st, keepMarks);
      && (r.Ok? <==> AllReadable(lines, i, keepMarks))
      && (r.Ok? ==> ListsStand(lines, |lines|, keepMarks, r.value))
    decreases |lines| - i
  {
    hide TableStands, ListsStand, ReadLine, ReadableAt;
    if i < |lines| {
      OneLine(lines, i, keepMarks, st);
      assert lines[i..][0] == lines[i] && lines[i..][1..] == lines[i + 1..];
      var r := ReadLine(lines[i], st, keepMarks);
      if r.Ok? {
        AllLines(lines, i + 1, keepMarks, r.value);
      }
    }
  }

  lemma NothingYet(lines: seq<string>, keepMarks: bool)
    ensures TableStands(lines, 0, INITIAL) && ListsStand(lines, 0, keepMarks, INITIAL)
  {
    forall kind ensures StandAt(lines, 0, kind, []) {
    }
    assert AreEnrolmentRows(lines, [], keepMarks, INITIAL.rows);
    assert AreCreditRows(lines, [], INITIAL.specified) && AreCreditRows(lines, [], INITIAL.unspecified);
  }

  ghost predicate HasEnrolmentRow(lines: seq<string>) {
    exists i: nat :: i < |lines| && IsRowOfKind(lines, i, Enrolment)
  }

  // A paste is read exactly if every row of its three tables is readable and there is an enrolment row, and then
  // the record holds these rows, all of them and in order.
  lemma TablesAreRead(raw: string, keepMarks: bool)
    ensures var lines := Lines(raw);
      TableRecord(raw, keepMarks).Ok? <==>
        AllReadable(lines, 0, keepMarks) && HasEnrolmentRow(lines)
    ensures TableRecord(raw, keepMarks).Ok? ==>
      var lines, r := Lines(raw), TableRecord(raw, keepMarks).value;
      && (exists at :: StandAt(lines, |lines|, Enrolment, at) && AreEnrolmentRows(lines, at, keepMarks, r.rows))
      && (exists at :: StandAt(lines, |lines|, Specified, at) && AreCreditRows(lines, at, r.specified))
      && (exists at :: StandAt(lines, |lines|, Unspecified, at) && AreCreditRows(lines, at, r.unspecified))
  {
    hide Lines, ReadLines, TableStands, ReadableAt, IsRowOfKind, IsEnrolmentRowAt, IsCreditRowAt, AllReadable, HasEnrolmentRow, StandAt;
    var lines := Lines(raw);
    NothingYet(lines, keepMarks);
    AllLines(lines, 0, keepMarks, INITIAL);
    assert lines[0..] == lines;
    var st := ReadLines(lines, INITIAL, keepMarks);
    if st.Ok? {
      var at :| StandAt(lines, |lines|, Enrolment, at) && AreEnrolmentRows(lines, at, keepMarks, st.value.rows);
      RowsStandSomewhere(lines, at);
      assert st.value.rows == [] <==> at == [];
    }
  }

  lemma RowsStandSomewhere(lines: seq<string>, at: seq<nat>)
    requires StandAt(lines, |lines|, Enrolment, at)
    ensures at != [] <==> HasEnrolmentRow(lines)
  {
    hide IsRowOfKind;
    if at != [] {
      assert at[0] in at;
    }
    if i: nat :| i < |lines| && IsRowOfKind(lines, i, Enrolment) {
      assert i in at;
    }
  }
}
