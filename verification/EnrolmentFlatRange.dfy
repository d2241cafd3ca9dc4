/** Which rows the flat parser of app/services/enrolment.py can return: exactly those whose columns are told apart without a table. */
module EnrolmentFlatRange {
  import opened Text
  import opened Records
  import opened EnrolmentShapes
  import opened EnrolmentTable
  import opened EnrolmentPrinter
  import opened EnrolmentValues
  import opened EnrolmentReading
  import opened EnrolmentFlat
  import opened EnrolmentFlatLaws
  import opened EnrolmentFlatRows
  import opened EnrolmentFlatText
  import opened EnrolmentFlatRoundTrip
  import opened Projection

  // ---------------------------------------------------------------- single spaces

  predicate IsSpacedOnce(s: string) {
    forall k :: 0 <= k < |s| - 1 ==> !(s[k] == ' ' && s[k + 1] == ' ')
  }

  lemma SliceIsSpacedOnce(s: string, i: nat, j: nat)
    requires i <= j <= |s| && IsSpacedOnce(s)
    ensures IsSpacedOnce(s[i..j])
  {
    var t := s[i..j];
    assert forall k :: 0 <= k < |t| ==> t[k] == s[i + k];
  }

  lemma WordIsSpacedOnce(word: string)
    requires IsWordText(word)
    ensures IsSpacedOnce(word) && word != "" && word[0] != ' ' && word[|word| - 1] != ' '
  {
  }

  lemma AppendIsSpacedOnce(a: string, b: string)
    requires IsSpacedOnce(a) && IsSpacedOnce(b) && a != "" && b != "" && a[|a| - 1] != ' ' && b[0] != ' '
    ensures IsSpacedOnce(a + " " + b)
  {
    var s := a + " " + b;
    forall k | 0 <= k < |s| - 1 ensures !(s[k] == ' ' && s[k + 1] == ' ') {
      if k < |a| {
        assert s[k] == a[k];
        assert k + 1 < |a| ==> s[k + 1] == a[k + 1];
      } else {
        assert s[k + 1] == b[k - |a|];
        assert k > |a| ==> s[k] == b[k - |a| - 1];
      }
    }
  }

  lemma {:induction false} JoinIsSpacedOnce(words: seq<string>)
    requires forall k :: 0 <= k < |words| ==> IsWordText(words[k])
    ensures var s := Join(words, " "); IsSpacedOnce(s) && (words != [] ==> s != "" && s[0] != ' ')
  {
    hide IsWordText, IsSpacedOnce, Join;
    if |words| == 0 {
      JoinNone();
    } else {
      WordIsSpacedOnce(words[0]);
      if |words| == 1 {
        JoinOne(words);
      } else {
        JoinStep(words, " ");
        JoinIsSpacedOnce(words[1..]);
        AppendIsSpacedOnce(words[0], Join(words[1..], " "));
      }
    }
  }

  lemma JoinNone()
    ensures Join([], " ") == "" && IsSpacedOnce("")
  {
  }

  lemma FlatTextIsSpacedOnce(raw: string)
    ensures IsSpacedOnce(FlatText(raw))
  {
    hide Words, Unmarked, Join, IsSpacedOnce, IsWordText;
    var words := Words(Unmarked(raw));
    WordsAreWords(Unmarked(raw));
    forall k | 0 <= k < |words| ensures IsWordText(words[k]) {
      assert IsWordOf(words[k], Unmarked(raw));
    }
    JoinIsSpacedOnce(words);
  }

  // ---------------------------------------------------------------- what a match captures

  lemma CampusIsSpacedOnce(s: string)
    requires IsSpacedOnce(s) && MatchCampus(s).Some?
    ensures IsSpacedOnce(MatchCampus(s).value.campus)
  {
    hide MatchTail, CampusEnd, IsFlatTail, IsSpacedOnce, IsCampusText;
    LetterIsCampus(s);
    SliceIsSpacedOnce(s, 0, CampusEnd(s, 1).value);
  }

  lemma SessionKeepsSpacing(s: string)
    requires IsSpacedOnce(s) && MatchSession(s).Some?
    ensures IsSpacedOnce(MatchSession(s).value.campus)
  {
    hide MatchCampus, IsFlatTail, FirstWord, IsSession, IsCampusText, IsSpacedOnce;
    var from := |FirstWord(s)| + 1;
    SliceIsSpacedOnce(s, from, |s|);
    assert s[from..|s|] == s[from..];
    CampusIsSpacedOnce(s[from..]);
  }

  lemma MatchKeepsSpacing(s: string)
    requires IsSpacedOnce(s) && MatchRow(s).Some?
    ensures IsSpacedOnce(MatchRow(s).value.campus)
  {
    hide MatchSession, IsFlatTail, IsSession, IsCampusText, IsYear, IsSpacedOnce;
    SliceIsSpacedOnce(s, 5, |s|);
    assert s[5..|s|] == s[5..];
    SessionKeepsSpacing(s[5..]);
  }

  predicate AreSpacedOnce(ms: seq<Match>) {
    forall k :: 0 <= k < |ms| ==> IsSpacedOnce(ms[k].row.campus)
  }

  lemma FoundAreSpacedOnce(s: string)
    requires IsSpacedOnce(s)
    ensures AreSpacedOnce(FindAll(s, 0))
  {
    hide MatchRow, AreMatchesFrom, IsSpacedOnce, IsFlatRow, FindAll;
    var ms := FindAll(s, 0);
    FoundAreMatches(s, 0);
    forall k | 0 <= k < |ms| ensures IsSpacedOnce(ms[k].row.campus) {
      assert ms[k] in ms && IsMatchOf(ms[k], s);
      SliceIsSpacedOnce(s, ms[k].start, |s|);
      assert s[ms[k].start..|s|] == s[ms[k].start..];
      MatchKeepsSpacing(s[ms[k].start..]);
    }
  }

  // ---------------------------------------------------------------- rows

  lemma NameIsAlphabetic(s: string)
    requires IsCampusName(s) && IsTrimmed(s) && IsSpacedOnce(s)
    ensures IsAlphabetic(s)
  {
    forall k | 0 <= k < |s| ensures IsAlphabeticAt(s, k) {
      if s[k] == ' ' {
        assert k < |s| - 1;
        assert s[k + 1] != ' ';
      }
    }
  }

  lemma HalfIsAlphabetic(s: string)
    requires IsCampusText(s) && IsSpacedOnce(s)
    ensures IsAlphabetic(CampusHalf(s))
  {
    hide Trim, Split, IsSpacedOnce, IsAlphabetic, IsCampusName;
    CampusHalfIsName(s);
    var head := Split(s, '/')[0];
    SplitHead(s, '/');
    assert head != "" && head[0] == s[0];
    TrimOfStart(head);
    var n := |Trim(head)|;
    assert head[..n] == s[0..n];
    SliceIsSpacedOnce(s, 0, n);
    NameIsAlphabetic(CampusHalf(s));
  }

  lemma RowOfIsReadable(row: FlatRow)
    requires IsFlatRow(row) && IsSpacedOnce(row.campus) && RowOf(row, false).Ok?
    ensures IsFlatReadable(RowOf(row, false).value)
  {
    hide IsSpacedOnce, IsAlphabetic, IsPrintableRow, IsCampusName, IsTrimmed, IsSession, CampusHalf, IsCampusText, IsYear, NatOf,
      IsGrade, IsSubjectCode, Upper;
    RowOfIsPrintable(row, false);
    RowOfIsClosed(row, false);
    HalfIsAlphabetic(row.campus);
  }

  lemma {:induction false} RowsOfAreReadable(ms: seq<Match>)
    requires AreMatches(ms) && AreSpacedOnce(ms) && RowsOf(ms, false).Ok?
    ensures AreFlatReadable(RowsOf(ms, false).value) && |RowsOf(ms, false).value| == |ms|
  {
    hide RowOf, IsFlatRow, IsSpacedOnce, IsFlatReadable;
    if ms != [] {
      RowsOfAreReadable(ms[..|ms| - 1]);
      RowOfIsReadable(ms[|ms| - 1].row);
    }
  }

  // The rows of a flat record are told apart without a table, all of them.
  lemma FlatRowsAreReadable(raw: string)
    requires FlatRecord(raw, false).Ok?
    ensures FlatRecord(raw, false).value.rows != [] && AreFlatReadable(FlatRecord(raw, false).value.rows)
  {
    hide FlatText, FindAll, IsReadable, RowsOf, HeaderOf, IsFlatReadable, AreMatchesFrom, IsFlatRow, IsSpacedOnce;
    var ms := FindAll(FlatText(raw), 0);
    FlatTextIsSpacedOnce(raw);
    FoundAreSpacedOnce(FlatText(raw));
    MatchesAreMatches(ms, FlatText(raw));
    RowsOfAreReadable(ms);
  }

  // ---------------------------------------------------------------- the range

  // The rows are what the flat parser makes of some paste.
  ghost predicate ComesFromFlat(rows: seq<EnrolmentRow>) {
    exists raw :: IsFlatPasteOf(raw, rows)
  }

  predicate IsFlatPasteOf(raw: string, rows: seq<EnrolmentRow>) {
    !IsTablePaste(raw) && Parsed(raw, false).Ok? && Parsed(raw, false).value.rows == rows
  }

  function RowsAlone(rows: seq<EnrolmentRow>): EnrolmentRecord {
    EnrolmentRecord(None, None, [], rows, [], [])
  }

  lemma ReadableRowsComeBack(rows: seq<EnrolmentRow>)
    requires rows != [] && AreFlatReadable(rows)
    ensures ComesFromFlat(rows)
  {
    hide IsTablePaste, Parsed, IsPrintableRow, IsSession, IsAlphabetic, Rendered, OnOneLine;
    var r := RowsAlone(rows);
    assert forall k :: 0 <= k < |rows| ==> IsFlatReadable(rows[k]) && IsPrintableRow(rows[k]);
    assert IsPrintable(r);
    OneLineIsNoTable(r);
    OneLineKeepsRows(r);
    assert IsFlatPasteOf(OnOneLine(Rendered(r)), rows);
  }

  // Rows come from some flat paste exactly when there are any and each has a year of 1900 to 2099, a known
  // session, a campus of words of letters, at most two digits of credit points and the checked values.
  lemma FlatRangeIff(rows: seq<EnrolmentRow>)
    ensures ComesFromFlat(rows) <==> rows != [] && AreFlatReadable(rows)
  {
    hide IsTablePaste, FlatRecord, TableRecord, IsFlatReadable;
    if ComesFromFlat(rows) {
      var raw :| IsFlatPasteOf(raw, rows);
      FlatRowsAreReadable(raw);
    }
    if rows != [] && AreFlatReadable(rows) {
      ReadableRowsComeBack(rows);
    }
  }

  // The projection of every flat paste keeps its rows and course when it, in turn, loses its table.
  lemma FlatProjectionKeepsRows(raw: string)
    requires !IsTablePaste(raw) && Projected(raw).Ok?
    ensures var again := Parsed(OnOneLine(Projected(raw).value), false);
      again.Ok? && again.value.rows == Parsed(raw, false).value.rows
    ensures var again, r := Parsed(OnOneLine(Projected(raw).value), false), Parsed(raw, false).value;
      r.course.Some? ==> again.Ok? && again.value.course == r.course
  {
    hide IsTablePaste, FlatRecord, TableRecord, IsFlatReadable, Rendered, OnOneLine, IsPrintable, MarksAreRead, AreClosedRows;
    var r := Parsed(raw, false).value;
    FlatRowsAreReadable(raw);
    FlatRecordIsPrintable(raw, false);
    OneLineKeepsRows(r);
  }
}
