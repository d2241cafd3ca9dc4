/** When a paste without table markup is read, and where its rows and its header come from, written out. */
module FlatRules {
  import opened Text
  import opened Records
  import opened EnrolmentShapes
  import opened EnrolmentTable
  import opened EnrolmentFlat
  import opened EnrolmentFlatLaws
  import opened HeaderGrammar
  import opened TableValues

  // ---------------------------------------------------------------- the paste

  function Spaced(raw: string): string {
    if raw == "" then ""
    else (if raw[0] == '|' || raw[0] == '*' then " " else [raw[0]]) + Spaced(raw[1..])
  }

  lemma {:induction false} UnmarkedIsSpaced(raw: string)
    ensures Unmarked(raw) == Spaced(raw)
  {
    if raw != "" {
      UnmarkedIsSpaced(raw[1..]);
      assert Unmarked(raw) == [Unmarked(raw)[0]] + Unmarked(raw[1..]);
    }
  }

  // Pipes and stars count as spaces, and the text is the words between spaces, one space apart.
  lemma MarkupIsSpace(raw: string)
    ensures FlatText(raw) == Join(Words(Spaced(raw)), " ")
  {
    UnmarkedIsSpaced(raw);
  }

  // ---------------------------------------------------------------- rows

  function RowWords(row: FlatRow): string {
    row.year + (" " + (row.session + (" " + (row.campus + (" " + (row.code + (" " + (row.cp + (" " + EndingWords(row))))))))))
  }

  function EndingWords(row: FlatRow): string {
    (if row.mark == "" then "" else row.mark + " ")
    + ((if row.grade.None? then "" else row.grade.value + " ") + row.status)
  }

  // n characters, a space, and m characters of what follows.
  lemma Glue(s: string, n: nat, m: nat)
    requires n < |s| && s[n] == ' ' && m <= |s| - n - 1
    ensures s[..n + 1 + m] == s[..n] + (" " + s[n + 1..][..m])
    ensures n + 1 + m < |s| ==> s[n + 1 + m] == s[n + 1..][m]
  {
  }

  // The first `length` characters of s are a text, and no letter follows them.
  predicate IsAtStart(s: string, text: string, length: nat) {
    length <= |s| && (length == |s| || !IsLetter(s[length])) && s[..length] == text
  }

  lemma GradeIsThere(s: string)
    requires MatchGrade(s).Some?
    ensures var e := MatchGrade(s).value;
      IsAtStart(s, (if e.grade.None? then "" else e.grade.value + " ") + e.status, e.length)
  {
    hide StatusAt, FirstWord, IsGrade, IsListed;
    var e := MatchGrade(s).value;
    FirstWordIsPrefix(s);
    var word := FirstWord(s);
    if e.grade.Some? {
      var t := s[|word| + 1..];
      assert HasStatus(t, e.status);
      assert s[..|word| + 1] == word + " ";
      assert s[..e.length] == s[..|word| + 1] + t[..|e.status|];
      assert e.length < |s| ==> s[e.length] == t[|e.status|];
    } else {
      assert HasStatus(s, e.status);
    }
  }

  lemma MarkIsThere(s: string)
    requires MatchMark(s).Some?
    ensures var e := MatchMark(s).value;
      IsAtStart(s, (if e.mark == "" then "" else e.mark + " ") + ((if e.grade.None? then "" else e.grade.value + " ") + e.status), e.length)
  {
    hide MatchGrade, IsGrade, IsListed;
    var e := MatchMark(s).value;
    var n := DigitRun(s);
    if e.mark != "" {
      var t := s[n + 1..];
      GradeIsThere(t);
      assert s[..n + 1] == s[..n] + " ";
      assert s[..e.length] == s[..n + 1] + t[..e.length - n - 1];
      assert e.length < |s| ==> s[e.length] == t[e.length - n - 1];
    } else {
      GradeIsThere(s);
    }
  }

  lemma CpIsThere(s: string)
    requires MatchCp(s).Some?
    ensures var row := MatchCp(s).value; IsAtStart(s, row.cp + (" " + EndingWords(row)), row.length)
  {
    hide MatchMark, IsGrade, IsListed, DigitRun;
    var d := DigitRun(s);
    var t := s[d + 1..];
    MarkIsThere(t);
    Glue(s, d, MatchMark(t).value.length);
  }

  lemma TailIsThere(s: string)
    requires MatchTail(s).Some?
    ensures var row := MatchTail(s).value; IsAtStart(s, row.code + (" " + (row.cp + (" " + EndingWords(row)))), row.length)
  {
    hide MatchCp, CodeRun, IsSubjectCode, IsFlatEnding;
    var n := CodeRun(s);
    var t := s[n + 1..];
    CpIsThere(t);
    Glue(s, n, MatchCp(t).value.length);
  }

  lemma CampusEndIsSpace(u: string)
    requires u != "" && IsLetter(u[0]) && IsCampusText(u[..1]) && CampusEnd(u, 1).Some?
    ensures var k := CampusEnd(u, 1).value; k < |u| && u[k] == ' ' && MatchTail(u[k + 1..]).Some?
  {
    hide MatchTail, CampusEnd;
  }

  function TailWords(row: FlatRow): string {
    row.code + (" " + (row.cp + (" " + EndingWords(row))))
  }

  lemma CampusIsThere(s: string)
    requires MatchCampus(s).Some?
    ensures var row := MatchCampus(s).value; IsAtStart(s, row.campus + (" " + TailWords(row)), row.length)
  {
    hide MatchTail, CampusEnd, IsFlatTail;
    LetterIsCampus(s);
    CampusEndIsSpace(s);
    var k := CampusEnd(s, 1).value;
    var t := s[k + 1..];
    TailIsThere(t);
    Glue(s, k, MatchTail(t).value.length);
  }

  lemma SessionIsThere(s: string)
    requires MatchSession(s).Some?
    ensures var row := MatchSession(s).value; IsAtStart(s, row.session + (" " + (row.campus + (" " + TailWords(row)))), row.length)
  {
    hide MatchCampus, FirstWord, IsSession, IsFlatTail, IsCampusText;
    FirstWordIsPrefix(s);
    var n := |FirstWord(s)|;
    var t := s[n + 1..];
    CampusIsThere(t);
    Glue(s, n, MatchCampus(t).value.length);
  }

  // A row that the pattern matches stands in the text as it is: its fields, one space apart, and no letter behind.
  lemma RowIsThere(s: string)
    requires MatchRow(s).Some?
    ensures IsAtStart(s, RowWords(MatchRow(s).value), MatchRow(s).value.length)
  {
    hide MatchSession, IsFlatTail, IsCampusText, IsSession, IsYear;
    var t := s[5..];
    SessionIsThere(t);
    Glue(s, 4, MatchSession(t).value.length);
  }

  predicate IsKnownSession(session: string) {
    session == "Annual" || session == "Autumn" || session == "Spring" || session == "Summer" || session == "Winter"
  }

  // A row's values: a year from 1900 to 2099, one of five sessions, a campus of letters, slashes and spaces, a
  // subject code, one or two digits of credit points, at most three of a mark, a known grade if any, a known status.
  lemma RowValues(row: FlatRow)
    ensures IsFlatRow(row) <==>
      && |row.year| == 4 && (row.year[..2] == "19" || row.year[..2] == "20") && IsDigit(row.year[2]) && IsDigit(row.year[3])
      && IsKnownSession(row.session)
      && row.campus != "" && IsLetter(row.campus[0])
      && (forall k :: 0 <= k < |row.campus| ==> IsLetter(row.campus[k]) || row.campus[k] in {'/', ' '})
      && IsSubject(row.code)
      && 1 <= |row.cp| <= 2 && AreDigits(row.cp) && |row.mark| <= 3 && AreDigits(row.mark)
      && (row.grade.Some? ==> IsKnownGrade(row.grade.value)) && IsKnownStatus(row.status)
  {
    hide IsSubjectCode, IsSubject, IsGrade, IsKnownGrade, IsStatus, IsKnownStatus, IsKnownSession, IsSession, IsListed;
    SubjectIff(row.code);
    SubjectChars(row.code);
    SessionsAre(row.session);
    StatusesAre(row.status);
    if row.grade.Some? {
      GradesAndStatuses(row.grade.value);
    }
    GradesAndStatuses(row.status);
    if |row.year| == 4 {
      assert row.year[..2] == [row.year[0], row.year[1]];
    }
  }

  lemma SubjectChars(code: string)
    ensures IsSubjectCode(code) ==> forall k :: 0 <= k < |code| ==> IsUpper(code[k]) || IsDigit(code[k])
  {
  }

  lemma SessionsAre(session: string)
    ensures IsSession(session) <==> IsKnownSession(session)
  {
  }

  lemma StatusesAre(status: string)
    ensures IsListed(status) <==> IsStatus(status)
  {
  }

  // ---------------------------------------------------------------- advanced standing

  predicate EndsNoWord(front: string) {
    front == "" || !IsWord(front[|front| - 1])
  }

  // "Specified" or "unspecified", white space and "credit" as words of their own, and then a digit before any "#".
  predicate IsCreditSection(front: string, title: string, gap: string, word: string, body: string, digit: char, after: string) {
    && EndsNoWord(front) && (IsLabel(title, "specified") || IsLabel(title, "unspecified"))
    && gap != "" && AreSpaces(gap) && IsLabel(word, "credit")
    && body != "" && !IsWord(body[0]) && '#' !in body && IsDigit(digit)
  }

  function SectionText(title: string, gap: string, word: string, body: string, digit: char, after: string): string {
    title + (gap + (word + (body + ([digit] + after))))
  }

  ghost predicate HoldsCredit(s: string) {
    exists front, title, gap, word, body, digit, after ::
      IsCreditSection(front, title, gap, word, body, digit, after) && s == front + SectionText(title, gap, word, body, digit, after)
  }

  lemma {:induction false} HashEnds(s: string) returns (after: string)
    ensures s == BeforeHash(s) + after && '#' !in BeforeHash(s) && (after == "" || after[0] == '#')
  {
    if s == "" || s[0] == '#' {
      after := s;
    } else {
      after := HashEnds(s[1..]);
      var front := BeforeHash(s[1..]);
      assert s == [s[0]] + s[1..];
      assert ([s[0]] + front) + after == [s[0]] + (front + after);
    }
  }

  lemma {:induction false} HashGoes(front: string, after: string)
    requires '#' !in front
    ensures BeforeHash(front + after) == front + BeforeHash(after)
    decreases |front|
  {
    if front == "" {
      assert front + after == after;
    } else {
      assert (front + after)[1..] == front[1..] + after;
      HashGoes(front[1..], after);
      assert front == [front[0]] + front[1..];
    }
  }

  lemma SpecifiedLetters()
    ensures |"specified"| == 9 && |"unspecified"| == 11 && "specified"[0] == 's' && "unspecified"[0] == 'u' && "credit"[0] == 'c' && |"credit"| == 6
  {
  }

  lemma TitleGone(title: string, t: string)
    requires IsLabel(title, "specified") || IsLabel(title, "unspecified")
    ensures var s := title + t;
      (if StartsWithFold(s, "unspecified") then s[11..] else if StartsWithFold(s, "specified") then s[9..] else "") == t
  {
    hide IsLabel;
    SpecifiedLetters();
    var s := title + t;
    if IsLabel(title, "unspecified") {
      LabelStarts(title, t, "unspecified");
    } else {
      LabelStarts(title, t, "specified");
      assert LowerChar(s[0]) == 's';
    }
  }

  lemma SectionIsTitled(title: string, gap: string, word: string, rest: string)
    requires (IsLabel(title, "specified") || IsLabel(title, "unspecified")) && gap != "" && AreSpaces(gap) && IsLabel(word, "credit")
    requires rest == "" || !IsWord(rest[0])
    ensures AfterCreditTitle(title + (gap + (word + rest))) == Some(rest)
  {
    TitleGone(title, gap + (word + rest));
    CreditIsWord(word);
    SpacesGone(gap, word + rest);
    LabelStarts(word, rest, "credit");
    hide IsLabel, StartsWithFold, DropSpaces;
    SpecifiedLetters();
    assert (word + rest)[6..] == rest;
  }

  lemma CreditIsWord(word: string)
    requires IsLabel(word, "credit")
    ensures word != "" && !IsSpace(word[0])
  {
    SpecifiedLetters();
    assert Lower(word)[0] == LowerChar(word[0]) == 'c';
  }

  lemma TitledIsSection(s: string) returns (title: string, gap: string, word: string)
    requires AfterCreditTitle(s).Some?
    ensures (IsLabel(title, "specified") || IsLabel(title, "unspecified")) && gap != "" && AreSpaces(gap) && IsLabel(word, "credit")
    ensures var rest := AfterCreditTitle(s).value; s == title + (gap + (word + rest)) && (rest == "" || !IsWord(rest[0]))
  {
    hide IsLabel;
    SpecifiedLetters();
    var n := if StartsWithFold(s, "unspecified") then 11 else 9;
    if StartsWithFold(s, "unspecified") {
      StartIsLabel(s, "unspecified");
    } else if StartsWithFold(s, "specified") {
      StartIsLabel(s, "specified");
    }
    hide StartsWithFold;
    title := s[..n];
    var t := s[n..];
    gap := SpacesFirst(t);
    var u := DropSpaces(t);
    StartIsLabel(u, "credit");
    word := u[..6];
    assert u == word + u[6..];
    assert s == title + t;
  }

  lemma RowsAfterIff(s: string)
    ensures CreditRowsAfter(s) <==> exists title, gap, word, body, digit, after ::
      IsCreditSection("", title, gap, word, body, digit, after) && s == SectionText(title, gap, word, body, digit, after)
  {
    hide AfterCreditTitle, IsLabel, AreSpaces;
    if title, gap, word, body, digit, after :|
      IsCreditSection("", title, gap, word, body, digit, after) && s == SectionText(title, gap, word, body, digit, after)
    {
      SectionIsTitled(title, gap, word, body + ([digit] + after));
      DigitIsThere(body, digit, after);
    }
    if CreditRowsAfter(s) {
      var title, gap, word := TitledIsSection(s);
      var rest := AfterCreditTitle(s).value;
      var body, digit, after := FirstDigit(rest);
      assert IsCreditSection("", title, gap, word, body, digit, after);
    }
  }

  lemma DigitIsThere(body: string, digit: char, after: string)
    requires '#' !in body && IsDigit(digit)
    ensures HasDigit(BeforeHash(body + ([digit] + after)))
  {
    assert body + ([digit] + after) == (body + [digit]) + after;
    assert digit != '#';
    HashGoes(body + [digit], after);
    assert BeforeHash((body + [digit]) + after)[|body|] == digit;
  }

  lemma FirstDigit(rest: string) returns (body: string, digit: char, after: string)
    requires HasDigit(BeforeHash(rest)) && (rest == "" || !IsWord(rest[0]))
    ensures body != "" && !IsWord(body[0]) && '#' !in body && IsDigit(digit) && rest == body + ([digit] + after)
  {
    var tail := HashEnds(rest);
    var front := BeforeHash(rest);
    var k :| 0 <= k < |front| && IsDigit(front[k]);
    assert rest[0] == front[0] && k > 0;
    body, digit, after := front[..k], front[k], front[k + 1..] + tail;
    assert front == body + ([digit] + front[k + 1..]);
  }

  // A text lists advanced standing exactly if it has such a section.
  lemma CreditIff(s: string)
    ensures ListsCredit(s) <==> HoldsCredit(s)
  {
    hide CreditRowsAfter, IsLabel, AreSpaces, SectionText;
    if ListsCredit(s) {
      var p: nat :| p < |s| && AtBoundary(s, p) && CreditRowsAfter(s[p..]);
      RowsAfterIff(s[p..]);
      var title, gap, word, body, digit, after :|
        IsCreditSection("", title, gap, word, body, digit, after) && s[p..] == SectionText(title, gap, word, body, digit, after);
      assert s == s[..p] + s[p..];
      assert IsCreditSection(s[..p], title, gap, word, body, digit, after);
    }
    if HoldsCredit(s) {
      var front, title, gap, word, body, digit, after :|
        IsCreditSection(front, title, gap, word, body, digit, after) && s == front + SectionText(title, gap, word, body, digit, after);
      SectionIsLong(title, gap, word, body, digit, after);
      assert s[|front|..] == SectionText(title, gap, word, body, digit, after);
      assert IsCreditSection("", title, gap, word, body, digit, after);
      RowsAfterIff(s[|front|..]);
      assert AtBoundary(s, |front|);
    }
  }

  lemma SectionIsLong(title: string, gap: string, word: string, body: string, digit: char, after: string)
    ensures |SectionText(title, gap, word, body, digit, after)| > 0
  {
  }

  // ---------------------------------------------------------------- the record

  // The captured fields, read: the campus up to a slash, and the mark only if it is kept.
  ghost predicate IsRowFrom(row: FlatRow, keepMarks: bool, r: EnrolmentRow)
    requires IsFlatRow(row)
  {
    && r.year == NatOf(row.year) && r.session == row.session && IsCampusOf(row.campus, r.campus)
    && r.code == row.code && r.nomCp == NatOf(row.cp) && r.grade == row.grade && r.status == row.status
    && r.mark == (if keepMarks && row.mark != "" then Some(NatOf(row.mark)) else None)
  }

  // A kept mark is at most 100.
  predicate HasFairMark(row: FlatRow, keepMarks: bool)
    requires IsFlatRow(row)
  {
    keepMarks ==> row.mark == "" || NatOf(row.mark) <= 100
  }

  lemma {:induction false} UpperStays(s: string)
    requires forall k :: 0 <= k < |s| ==> IsUpper(s[k]) || IsDigit(s[k])
    ensures Upper(s) == s
  {
    if s != "" {
      UpperStays(s[1..]);
      assert s == [s[0]] + s[1..];
    }
  }

  lemma GradeStays(grade: string)
    requires IsGrade(grade)
    ensures Upper(grade) == grade
  {
    GradeIsUpper(grade);
    UpperStays(grade);
  }

  lemma MarkDigits(mark: string)
    requires mark != "" && AreDigits(mark)
    ensures PythonInt(mark) == Some(NatOf(mark))
  {
    PlainDigits(mark);
    assert Trim(mark) == mark;
  }

  lemma RowIsRead(row: FlatRow, keepMarks: bool)
    requires IsFlatRow(row)
    ensures RowOf(row, keepMarks).Ok? <==> HasFairMark(row, keepMarks)
    ensures RowOf(row, keepMarks).Ok? ==> IsRowFrom(row, keepMarks, RowOf(row, keepMarks).value)
  {
    hide IsSubjectCode, IsSession, IsListed, IsCampusText, IsYear, IsGrade, NatOf, PythonInt, CampusHalf, IsCampusOf;
    UpperStays(row.code);
    if row.grade.Some? {
      GradeStays(row.grade.value);
    }
    CampusHalfIff(row.campus, CampusHalf(row.campus));
    if row.mark != "" {
      MarkDigits(row.mark);
    }
  }

  lemma {:induction false} RowsAreRead(ms: seq<Match>, keepMarks: bool)
    requires AreMatches(ms)
    ensures RowsOf(ms, keepMarks).Ok? <==> forall k :: 0 <= k < |ms| ==> HasFairMark(ms[k].row, keepMarks)
    ensures RowsOf(ms, keepMarks).Ok? ==>
      var rows := RowsOf(ms, keepMarks).value;
      |rows| == |ms| && forall k :: 0 <= k < |ms| ==> IsRowFrom(ms[k].row, keepMarks, rows[k])
  {
    hide IsFlatRow, HasFairMark, IsRowFrom, RowOf;
    if ms != [] {
      var front, last := ms[..|ms| - 1], ms[|ms| - 1];
      RowsAreRead(front, keepMarks);
      RowIsRead(last.row, keepMarks);
      assert forall k :: 0 <= k < |front| ==> front[k] == ms[k];
    }
  }

  predicate IsBlankBetween(text: string, ms: seq<Match>, k: nat)
    requires k + 1 < |ms| && AreMatchesFrom(ms, 0, text)
  {
    hide IsFlatRow;
    Trim(text[ms[k].end..ms[k + 1].start]) == ""
  }

  // A paste is read exactly if a row is found in it, nothing but white space lies between two rows, no advanced
  // standing is listed behind the last, and no mark that is kept is above 100; the record's rows are then those found.
  lemma FlatIsRead(raw: string, keepMarks: bool)
    ensures var text := FlatText(raw);
      var ms := FindAll(text, 0);
      && (FlatRecord(raw, keepMarks).Ok? <==>
           && ms != []
           && (forall k: nat :: k + 1 < |ms| ==> IsBlankBetween(text, ms, k))
           && !HoldsCredit(AfterLast(text, ms))
           && forall k :: 0 <= k < |ms| ==> HasFairMark(ms[k].row, keepMarks))
      && (FlatRecord(raw, keepMarks).Ok? ==>
           var r := FlatRecord(raw, keepMarks).value;
           && |r.rows| == |ms| && (forall k :: 0 <= k < |ms| ==> IsRowFrom(ms[k].row, keepMarks, r.rows[k]))
           && r.specified == [] && r.unspecified == [])
  {
    hide FlatText, FindAll, ListsCredit, HoldsCredit, IsFlatRow, HasFairMark, IsRowFrom, AreMatchesFrom, HeaderOf, RowsOf, AfterLast;
    var text := FlatText(raw);
    var ms := FindAll(text, 0);
    MatchesAreMatches(ms, text);
    CreditIff(AfterLast(text, ms));
    RowsAreRead(ms, keepMarks);
    GaplessIff(text, ms);
  }

  lemma GaplessIff(text: string, ms: seq<Match>)
    requires AreMatchesFrom(ms, 0, text)
    ensures IsGapless(text, ms) <==> forall k: nat :: k + 1 < |ms| ==> IsBlankBetween(text, ms, k)
  {
    hide IsFlatRow, Trim;
    if forall k: nat :: k + 1 < |ms| ==> IsBlankBetween(text, ms, k) {
      forall k | 0 <= k < |ms| - 1 ensures Trim(text[ms[k].end..ms[k + 1].start]) == "" {
        assert IsBlankBetween(text, ms, k);
      }
    }
  }
}
