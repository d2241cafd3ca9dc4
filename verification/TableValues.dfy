/** Which cells make a row of a table, and what the row holds, written out. */
module TableValues {
  // The allowed codes, grades and statuses stand here as lists.

  import opened Text
  import opened Records
  import opened EnrolmentShapes
  import opened EnrolmentTable
  import opened EnrolmentFlat
  import opened HeaderGrammar

  // ---------------------------------------------------------------- cells by name

  // The cell of the last column of that name; nothing if there is no such column.
  ghost predicate IsCell(columns: seq<string>, cells: seq<string>, name: string, text: string)
    requires |columns| == |cells|
  {
    if name in columns then exists k :: 0 <= k < |columns| && IsLastNamed(columns, name, k) && text == cells[k]
    else text == ""
  }

  predicate IsLastNamed(columns: seq<string>, name: string, k: nat)
    requires k < |columns|
  {
    columns[k] == name && forall j :: k < j < |columns| ==> columns[j] != name
  }

  lemma {:induction false} GetIs(columns: seq<string>, cells: seq<string>, name: string)
    requires |columns| == |cells|
    ensures Get(columns, cells, name).Some? <==> name in columns
    ensures name in columns ==>
      exists k :: 0 <= k < |columns| && IsLastNamed(columns, name, k) && Get(columns, cells, name) == Some(cells[k])
  {
    if columns != [] {
      var n := |columns| - 1;
      assert columns == columns[..n] + [columns[n]];
      if columns[n] == name {
        assert IsLastNamed(columns, name, n);
      } else {
        GetIs(columns[..n], cells[..n], name);
        if name in columns[..n] {
          var k :| 0 <= k < n && IsLastNamed(columns[..n], name, k) && Get(columns[..n], cells[..n], name) == Some(cells[..n][k]);
          assert forall j :: k < j < n ==> columns[j] == columns[..n][j];
          assert IsLastNamed(columns, name, k);
        }
      }
    }
  }

  lemma CellIff(columns: seq<string>, cells: seq<string>, name: string, text: string)
    requires |columns| == |cells|
    ensures IsCell(columns, cells, name, text) <==> GetOr(columns, cells, name) == text
  {
    hide Get;
    GetIs(columns, cells, name);
    if name in columns {
      var k :| 0 <= k < |columns| && IsLastNamed(columns, name, k) && Get(columns, cells, name) == Some(cells[k]);
      forall j | 0 <= j < |columns| && IsLastNamed(columns, name, j) ensures j == k {
      }
    }
  }

  // ---------------------------------------------------------------- values

  // Two to four capitals, three digits, perhaps one more capital.
  ghost predicate IsSubject(code: string) {
    exists letters, digits, suffix ::
      && 2 <= |letters| <= 4 && |digits| == 3 && |suffix| <= 1
      && AreUpper(letters) && AreDigits(digits) && AreUpper(suffix) && code == letters + (digits + suffix)
  }

  lemma PartsAreCode(letters: string, digits: string, suffix: string)
    requires 2 <= |letters| <= 4 && |digits| == 3 && |suffix| <= 1
    requires AreUpper(letters) && AreDigits(digits) && AreUpper(suffix)
    ensures IsCodeOf(letters + (digits + suffix), |letters|)
  {
    hide IsUpper, IsDigit;
    var code := letters + (digits + suffix);
    assert suffix != "" ==> code[|letters| + 3] == suffix[0];
  }

  lemma CodeHasParts(code: string, n: nat)
    requires 2 <= n <= 4 && IsCodeOf(code, n)
    ensures IsSubject(code)
  {
    hide IsUpper, IsDigit;
    var letters, digits, suffix := code[..n], code[n..n + 3], code[n + 3..];
    assert code == letters + (digits + suffix);
    assert AreUpper(letters) && AreDigits(digits) && AreUpper(suffix);
  }

  lemma SubjectIff(code: string)
    ensures IsSubjectCode(code) <==> IsSubject(code)
  {
    hide IsCodeOf, AreUpper, AreDigits;
    if IsSubject(code) {
      var letters, digits, suffix :|
        && 2 <= |letters| <= 4 && |digits| == 3 && |suffix| <= 1
        && AreUpper(letters) && AreDigits(digits) && AreUpper(suffix) && code == letters + (digits + suffix);
      PartsAreCode(letters, digits, suffix);
    }
    if IsSubjectCode(code) {
      var n: nat :| 2 <= n <= 4 && IsCodeOf(code, n);
      CodeHasParts(code, n);
    }
  }

  predicate IsKnownGrade(grade: string) {
    || grade == "HD" || grade == "D" || grade == "C" || grade == "P" || grade == "PS"
    || grade == "F" || grade == "TF" || grade == "U" || grade == "CO" || grade == "S" || grade == "E"
    || grade == "IPC" || grade == "IPR" || grade == "WH" || grade == "WD" || grade == "WS" || grade == "ND"
  }

  predicate IsKnownStatus(status: string) {
    || status == "Complete" || status == "Enrolled" || status == "Withdrawn" || status == "Approved Withdrawal"
    || status == "Withheld" || status == "Withheld Deferred" || status == "Withheld Supplementary"
    || status == "Failed" || status == "Provisional" || status == "Leave of Absence" || status == "Not Counted (Prior Course)"
  }

  // What stands before the first slash, trimmed.
  ghost predicate IsCampusOf(text: string, campus: string) {
    exists front, after :: text == front + after && '/' !in front && (after == "" || after[0] == '/') && campus == Trim(front)
  }

  lemma {:induction false} FirstPart(front: string, after: string, c: char)
    requires c !in front && (after == "" || after[0] == c)
    ensures Split(front + after, c)[0] == front
    decreases |front|
  {
    if front == "" {
      assert front + after == after;
    } else {
      assert (front + after)[1..] == front[1..] + after;
      FirstPart(front[1..], after, c);
      assert front == [front[0]] + front[1..];
    }
  }

  lemma {:induction false} PartStarts(s: string, c: char) returns (after: string)
    ensures s == Split(s, c)[0] + after && (after == "" || after[0] == c)
  {
    if s == "" || s[0] == c {
      after := s;
    } else {
      after := PartStarts(s[1..], c);
      assert s == [s[0]] + s[1..];
    }
  }

  lemma CampusHalfIff(text: string, campus: string)
    ensures CampusHalf(text) == campus <==> IsCampusOf(text, campus)
  {
    hide Trim;
    if IsCampusOf(text, campus) {
      var front, after :| text == front + after && '/' !in front && (after == "" || after[0] == '/') && campus == Trim(front);
      FirstPart(front, after, '/');
    }
    if CampusHalf(text) == campus {
      var after := PartStarts(text, '/');
    }
  }

  // The mark is kept only if asked for: none, or an integer from 0 to 100.
  predicate IsMark(keepMarks: bool, text: string, mark: Option<int>) {
    if !keepMarks || text == "" then mark == None
    else mark.Some? && PythonInt(text) == mark && 0 <= mark.value && mark.value <= 100
  }

  predicate IsGradeOf(text: string, grade: Option<string>) {
    if text == "" then grade == None else grade == Some(Upper(text)) && IsKnownGrade(Upper(text))
  }

  ghost predicate IsRowOf(year: string, session: string, place: string, code: string, cp: string, grade: string, status: string,
    mark: string, keepMarks: bool, row: EnrolmentRow)
  {
    && PythonInt(year) == Some(row.year) && row.session == session && IsCampusOf(place, row.campus)
    && row.code == Upper(code) && IsSubject(row.code) && PythonInt(cp) == Some(row.nomCp)
    && IsGradeOf(grade, row.grade) && row.status == status && IsKnownStatus(status) && IsMark(keepMarks, mark, row.mark)
  }

  lemma UpperOfNothing(s: string)
    ensures Upper(s) == "" <==> s == ""
  {
  }

  lemma MarkIff(mark: string, value: Option<int>)
    ensures ReadMark(mark) == Ok(value) <==> IsMark(true, mark, value)
  {
    hide PythonInt;
  }

  lemma GradesAndStatuses(s: string)
    ensures IsGrade(s) <==> IsKnownGrade(s)
    ensures IsStatus(s) <==> IsKnownStatus(s)
  {
  }

  lemma FieldsIff(year: string, session: string, place: string, code: string, cp: string, grade: string, status: string, row: EnrolmentRow)
    ensures RowFrom(year, session, place, code, cp, grade, status) == Ok(row) <==>
      IsRowOf(year, session, place, code, cp, grade, status, "", false, row)
  {
    hide IsSubjectCode, IsSubject, IsGrade, IsKnownGrade, IsStatus, IsKnownStatus, PythonInt, CampusHalf, IsCampusOf, Upper;
    SubjectIff(Upper(code));
    GradesAndStatuses(Upper(grade));
    GradesAndStatuses(status);
    UpperOfNothing(grade);
    CampusHalfIff(place, CampusHalf(place));
    CampusHalfIff(place, row.campus);
  }

  lemma RowFieldsIff(year: string, session: string, place: string, code: string, cp: string, grade: string, status: string,
    mark: string, keepMarks: bool, row: EnrolmentRow)
    ensures var r := RowFrom(year, session, place, code, cp, grade, status);
      (if keepMarks then WithMark(r, mark) else r) == Ok(row) <==>
      IsRowOf(year, session, place, code, cp, grade, status, mark, keepMarks, row)
  {
    hide RowFrom, ReadMark, IsSubject, IsKnownGrade, IsKnownStatus, PythonInt, IsCampusOf, Upper, IsGradeOf;
    FieldsIff(year, session, place, code, cp, grade, status, row.(mark := None));
    FieldsIff(year, session, place, code, cp, grade, status, row);
    var r := RowFrom(year, session, place, code, cp, grade, status);
    if r.Ok? {
      FieldsIff(year, session, place, code, cp, grade, status, r.value);
    }
    MarkIff(mark, row.mark);
    if ReadMark(mark).Ok? {
      MarkIff(mark, ReadMark(mark).value);
    }
  }

  // Cells are a row exactly if each has its shape: two integers, a subject code and a known grade in any case, a
  // known status, the campus before a slash, and, if it is kept, a mark from 0 to 100.
  lemma RowIff(columns: seq<string>, cells: seq<string>, keepMarks: bool, year: string, session: string, delivery: string,
    campus: string, code: string, cp: string, grade: string, status: string, mark: string, row: EnrolmentRow)
    requires |columns| == |cells|
    requires IsCell(columns, cells, "year", year) && IsCell(columns, cells, "session", session)
    requires IsCell(columns, cells, "campus/delivery", delivery) && IsCell(columns, cells, "campus", campus)
    requires IsCell(columns, cells, "subject code", code) && IsCell(columns, cells, "nom cp", cp)
    requires IsCell(columns, cells, "grade", grade) && IsCell(columns, cells, "status", status)
    requires IsCell(columns, cells, "mark", mark)
    ensures ReadRow(columns, cells, keepMarks) == Ok(row) <==>
      IsRowOf(year, session, if delivery == "" then campus else delivery, code, cp, grade, status, mark, keepMarks, row)
  {
    hide RowFrom, WithMark, GetOr, IsCell, IsRowOf;
    CellIff(columns, cells, "year", year);
    CellIff(columns, cells, "session", session);
    CellIff(columns, cells, "campus/delivery", delivery);
    CellIff(columns, cells, "campus", campus);
    CellIff(columns, cells, "subject code", code);
    CellIff(columns, cells, "nom cp", cp);
    CellIff(columns, cells, "grade", grade);
    CellIff(columns, cells, "status", status);
    CellIff(columns, cells, "mark", mark);
    RowFieldsIff(year, session, if delivery == "" then campus else delivery, code, cp, grade, status, mark, keepMarks, row);
  }

  ghost predicate IsCreditOf(course: string, code: string, level: string, cp: string, row: CreditRow) {
    && row.course == course && PythonInt(cp) == Some(row.nomCp)
    && (if code == "" then row.code == None else row.code == Some(Upper(code)) && IsSubject(Upper(code)))
    && row.level == (if level == "" then None else Some(level))
  }

  // Cells are a credit row exactly if its credit points are an integer and its subject code is one or is blank.
  lemma CreditIff(columns: seq<string>, cells: seq<string>, course: string, code: string, level: string, cp: string, row: CreditRow)
    requires |columns| == |cells|
    requires IsCell(columns, cells, "course", course) && IsCell(columns, cells, "subject code", code)
    requires IsCell(columns, cells, "level", level) && IsCell(columns, cells, "nom cp", cp)
    ensures ReadCredit(columns, cells) == Ok(row) <==> IsCreditOf(course, code, level, cp, row)
  {
    hide GetOr, IsCell, IsSubject, IsSubjectCode, PythonInt, Upper;
    CellIff(columns, cells, "course", course);
    CellIff(columns, cells, "subject code", code);
    CellIff(columns, cells, "level", level);
    CellIff(columns, cells, "nom cp", cp);
    UpperOfNothing(code);
    SubjectIff(Upper(code));
  }

  // ---------------------------------------------------------------- headings

  lemma {:induction false} SqueezeWord(w: string, rest: string)
    requires forall k :: 0 <= k < |w| ==> !IsSpace(w[k])
    ensures Squeeze(w + rest) == w + Squeeze(rest)
    decreases |w|
  {
    if w == "" {
      assert w + rest == rest;
    } else {
      assert (w + rest)[1..] == w[1..] + rest;
      SqueezeWord(w[1..], rest);
      assert w == [w[0]] + w[1..];
    }
  }

  lemma {:induction false} TrimsBehindWord(w: string, rest: string)
    requires w != "" && !IsSpace(w[|w| - 1])
    ensures StripRight(w + rest, SPACES) == w + StripRight(rest, SPACES)
    decreases |rest|
  {
    if rest == "" {
      assert w + rest == w;
    } else if rest[|rest| - 1] in SPACES {
      assert (w + rest)[..|w + rest| - 1] == w + rest[..|rest| - 1];
      TrimsBehindWord(w, rest[..|rest| - 1]);
    }
  }

  lemma SqueezeGap(gap: string, y: string)
    requires gap != "" && AreSpaces(gap) && (y == "" || !IsSpace(y[0]))
    ensures Squeeze(gap + y) == " " + Squeeze(y)
  {
    assert (gap + y)[1..] == gap[1..] + y;
    SpacesGone(gap[1..], y);
  }

  lemma StartKept(t: string)
    requires t != "" && !IsSpace(t[0])
    ensures var y := StripRight(t, SPACES); y != "" && y[0] == t[0]
  {
    TrimsBehindWord([t[0]], t[1..]);
    assert t == [t[0]] + t[1..];
  }

  lemma SpacesThenText(gap: string, t: string)
    requires gap != "" && AreSpaces(gap) && t != "" && !IsSpace(t[0])
    ensures Squeeze(StripRight(gap + t, SPACES)) == " " + Squeeze(StripRight(t, SPACES))
  {
    hide Squeeze, StripRight, IsSpace;
    KeepsFront(gap, t);
    StartKept(t);
    SqueezeGap(gap, StripRight(t, SPACES));
  }

  lemma SpacesAndText(rest: string)
    ensures var t := DropSpaces(rest);
      if t == "" then StripRight(rest, SPACES) == ""
      else rest != "" && IsSpace(rest[0]) ==> Squeeze(StripRight(rest, SPACES)) == " " + Squeeze(StripRight(t, SPACES))
  {
    hide Squeeze, StripRight;
    var t := DropSpaces(rest);
    StripLeftIsSuffix(rest, SPACES);
    if t == "" {
      OnlySpaces(rest);
    } else if rest != "" && IsSpace(rest[0]) {
      var n := |rest| - |t|;
      SpacesBefore(rest);
      assert rest == rest[..n] + t;
      SpacesThenText(rest[..n], t);
    }
  }

  lemma {:induction false} OnlySpaces(s: string)
    requires DropSpaces(s) == ""
    ensures StripRight(s, SPACES) == ""
  {
    SpacesBefore(s);
    AllStripped(s);
  }

  lemma {:induction false} AllStripped(s: string)
    requires AreSpaces(s)
    ensures StripRight(s, SPACES) == ""
  {
    if s != "" {
      AllStripped(s[..|s| - 1]);
    }
  }

  // Trimming the end leaves white space before a word alone.
  lemma KeepsFront(gap: string, t: string)
    requires t != "" && !IsSpace(t[0])
    ensures StripRight(gap + t, SPACES) == gap + StripRight(t, SPACES)
  {
    hide StripRight;
    var w, rest := gap + [t[0]], t[1..];
    assert t == [t[0]] + rest;
    assert gap + t == w + rest;
    TrimsBehindWord(w, rest);
    TrimsBehindWord([t[0]], rest);
    assert w + StripRight(rest, SPACES) == gap + ([t[0]] + StripRight(rest, SPACES));
  }

  lemma {:induction false} SqueezedIsWords(s: string)
    ensures Squeeze(Trim(s)) == Join(Words(s), " ")
    decreases |s|
  {
    var t := DropSpaces(s);
    if t != "" {
      var n := WordRun(t);
      var w, rest := t[..n], t[n..];
      assert t == w + rest;
      TrimsBehindWord(w, rest);
      SqueezeWord(w, StripRight(rest, SPACES));
      SqueezedIsWords(rest);
      SpacesAndText(rest);
      assert Words(s) == [w] + Words(rest);
      WordsOfNothing(rest);
      assert Trim(rest) == StripRight(DropSpaces(rest), SPACES);
      if DropSpaces(rest) == "" {
        assert w + "" == w;
      } else {
        assert Words(s)[1..] == Words(rest);
        assert w + " " + Join(Words(rest), " ") == w + (" " + Join(Words(rest), " "));
      }
    }
  }

  lemma WordsOfNothing(s: string)
    ensures Words(s) == [] <==> DropSpaces(s) == ""
  {
  }

  // A column's name in a heading is its words, without stars and in small letters, one space apart.
  lemma HeadingIs(cell: string)
    ensures Norm(cell) == Lower(Join(Words(Remove(cell, '*')), " "))
  {
    hide Squeeze, Trim, Words, Join, Lower;
    SqueezedIsWords(Remove(cell, '*'));
  }
}
