/**
 A row as one run of words: the flat pattern reads it back, field by field, and what follows the
 row is left for the next match.
 */
module EnrolmentFlatRows {
  import opened Text
  import opened Records
  import opened EnrolmentShapes
  import opened EnrolmentTable
  import opened EnrolmentPrinter
  import opened EnrolmentValues
  import opened EnrolmentHeadings
  import opened EnrolmentReading
  import opened EnrolmentRoundTrip
  import opened EnrolmentMarks
  import opened EnrolmentFlat
  import opened EnrolmentFlatLaws

  // ---------------------------------------------------------------- rows that survive

  // Words of letters, one space apart.
  predicate IsAlphabetic(s: string) {
    s != "" && IsLetter(s[0]) && forall k :: 0 <= k < |s| ==> IsAlphabeticAt(s, k)
  }

  predicate IsAlphabeticAt(s: string, k: nat)
    requires k < |s|
  {
    IsLetter(s[k]) || (s[k] == ' ' && k + 1 < |s| && IsLetter(s[k + 1]))
  }

  // The rows, with a mark or without, whose columns can be told apart without their table.
  predicate IsFlatMarked(row: EnrolmentRow) {
    && IsPrintableRow(row) && HasMarkInRange(row)
    && IsSession(row.session) && IsAlphabetic(row.campus)
    && 1900 <= row.year <= 2099 && 0 <= row.nomCp < 100
  }

  predicate IsFlatReadable(row: EnrolmentRow) {
    IsFlatMarked(row) && row.mark.None?
  }

  function MarkPart(mark: Option<int>): string {
    if mark.Some? then IntText(mark.value) + " " else ""
  }

  function GradePart(grade: Option<string>): string {
    if grade.Some? then grade.value + " " else ""
  }

  // The row on one line, its blank mark and grade gone.
  function EndingText(row: EnrolmentRow): string {
    IntText(row.nomCp) + " " + (MarkPart(row.mark) + (GradePart(row.grade) + row.status))
  }

  function TailText(row: EnrolmentRow): string {
    row.code + " " + EndingText(row)
  }

  function RowText(row: EnrolmentRow): string {
    IntText(row.year) + " " + (row.session + " " + (row.campus + " " + TailText(row)))
  }

  // What follows a row: nothing, or a space and the next row's year.
  predicate IsAfterRow(s: string) {
    s == "" || (|s| > 1 && s[0] == ' ' && IsDigit(s[1]))
  }

  // ---------------------------------------------------------------- status and grade

  lemma {:induction false} FirstWordIs(word: string, rest: string)
    requires ' ' !in word && (rest == "" || rest[0] == ' ')
    ensures FirstWord(word + rest) == word
  {
    if word == "" {
      assert word + rest == rest;
    } else {
      assert (word + rest)[1..] == word[1..] + rest;
      FirstWordIs(word[1..], rest);
      assert [word[0]] + word[1..] == word;
    }
  }

  lemma {:induction false} FirstStatusIs(s: string, statuses: seq<string>, j: nat)
    requires j < |statuses| && HasStatus(s, statuses[j])
    requires forall i :: 0 <= i < j ==> !HasStatus(s, statuses[i])
    ensures FirstStatus(s, statuses) == Some(statuses[j])
    decreases |statuses|
  {
    hide HasStatus;
    if j > 0 {
      FirstStatusIs(s, statuses[1..], j - 1);
    }
  }

  lemma StatusHasNoDigit(status: string)
    requires IsListed(status)
    ensures forall c :: c in status ==> !IsDigit(c)
  {
    NoDigitInWords();
    NoDigitInPhrases();
  }

  lemma NoDigitInWords()
    ensures forall c :: c in "Complete" ==> !IsDigit(c)
    ensures forall c :: c in "Enrolled" ==> !IsDigit(c)
    ensures forall c :: c in "Withdrawn" ==> !IsDigit(c)
    ensures forall c :: c in "Withheld" ==> !IsDigit(c)
    ensures forall c :: c in "Failed" ==> !IsDigit(c)
    ensures forall c :: c in "Provisional" ==> !IsDigit(c)
  {
  }

  lemma NoDigitInPhrases()
    ensures forall c :: c in "Approved Withdrawal" ==> !IsDigit(c)
    ensures forall c :: c in "Withheld Deferred" ==> !IsDigit(c)
    ensures forall c :: c in "Withheld Supplementary" ==> !IsDigit(c)
    ensures forall c :: c in "Leave of Absence" ==> !IsDigit(c)
    ensures forall c :: c in "Not Counted (Prior Course)" ==> !IsDigit(c)
  {
  }

  // A status starts with a letter and does not end in a space.
  predicate LettersAround(s: string) {
    s != "" && IsLetter(s[0]) && s[|s| - 1] != ' '
  }

  lemma LongerHasDigit(status: string, after: string, other: string)
    requires IsAfterRow(after) && other <= status + after && |other| > |status| && other[|other| - 1] != ' '
    ensures exists c :: c in other && IsDigit(c)
  {
    var s := status + after;
    assert other[|status|] == s[|status|] == after[0];
    assert other[|status| + 1] == s[|status| + 1] == after[1];
  }

  // No longer status can be read where one stands.
  lemma NoLongerStatus(status: string, other: string, after: string)
    requires IsListed(other) && IsAfterRow(after) && HasStatus(status + after, other)
    ensures |other| <= |status|
  {
    hide IsListed, LettersAround;
    StatusHasLettersAround(other);
    StatusHasNoDigit(other);
    if |other| > |status| {
      LongerHasDigit(status, after, other);
    }
  }

  lemma StatusHasLettersAround(status: string)
    requires IsListed(status)
    ensures LettersAround(status) && |status| > 1 && 'a' <= status[1] <= 'z'
  {
  }

  predicate IsBefore(a: string, b: string) {
    |a| >= |b| && a != b
  }

  lemma StatusHere(status: string, after: string)
    requires IsListed(status) && IsAfterRow(after)
    ensures HasStatus(status + after, status)
  {
    hide IsListed;
  }

  lemma StatusPosition(status: string) returns (j: nat)
    requires IsListed(status)
    ensures j < |STATUSES| && STATUSES[j] == status
  {
    j :| 0 <= j < |STATUSES| && STATUSES[j] == status;
  }

  lemma EarlierIsNotThere(i: nat, j: nat, after: string)
    requires i < j < |STATUSES| && IsAfterRow(after)
    ensures !HasStatus(STATUSES[j] + after, STATUSES[i])
  {
    EarlierStatus(STATUSES[i], STATUSES[j], after);
  }

  lemma EarlierStatus(other: string, status: string, after: string)
    requires IsBefore(other, status) && IsListed(other) && IsAfterRow(after)
    ensures !HasStatus(status + after, other)
  {
    hide IsListed;
    if HasStatus(status + after, other) {
      NoLongerStatus(status, other, after);
    }
  }

  // A printed status is read, whatever may follow a row.
  lemma StatusIsRead(status: string, after: string)
    requires IsListed(status) && IsAfterRow(after)
    ensures StatusAt(status + after) == Some(status)
  {
    hide IsListed, HasStatus, FirstStatus;
    StatusHere(status, after);
    var j := StatusPosition(status);
    forall i: nat | i < j ensures !HasStatus(status + after, STATUSES[i]) {
      EarlierIsNotThere(i, j, after);
    }
    FirstStatusIs(status + after, STATUSES, j);
  }

  lemma StatusIsListed(status: string)
    requires IsStatus(status)
    ensures IsListed(status)
  {
  }

  lemma GradeIsWord(grade: string)
    requires IsGrade(grade)
    ensures ' ' !in grade && grade != "" && IsUpper(grade[0])
  {
    hide IsGrade;
    GradeIsUpper(grade);
  }

  lemma MixedIsNoGrade(word: string)
    requires |word| > 1 && 'a' <= word[1] <= 'z'
    ensures !IsGrade(word)
  {
    hide IsGrade;
    if IsGrade(word) {
      GradeIsUpper(word);
    }
  }

  lemma {:induction false} FirstWordStarts(s: string, k: nat)
    requires k <= |s| && forall i :: 0 <= i < k ==> s[i] != ' '
    ensures |FirstWord(s)| >= k
  {
    if k > 0 {
      FirstWordStarts(s[1..], k - 1);
    }
  }

  lemma {:induction false} FirstWordStops(s: string, k: nat)
    requires k < |s| && s[k] == ' '
    ensures |FirstWord(s)| <= k
  {
    if k > 0 {
      FirstWordStops(s[1..], k - 1);
    }
  }

  lemma StatusIsNoGrade(status: string, after: string)
    requires IsListed(status)
    ensures !IsGrade(FirstWord(status + after))
  {
    hide IsListed, IsGrade, FirstWord;
    StatusHasLettersAround(status);
    var s := status + after;
    FirstWordStarts(s, 2);
    FirstWordIsPrefix(s);
    MixedIsNoGrade(FirstWord(s));
  }

  // The grade, when there is one, and the status.
  lemma GradeIsRead(grade: Option<string>, status: string, after: string)
    requires (grade.Some? ==> IsGrade(grade.value)) && IsListed(status) && IsAfterRow(after)
    ensures MatchGrade(GradePart(grade) + (status + after)) ==
      Some(Ending("", grade, status, |GradePart(grade)| + |status|))
  {
    hide IsGrade, IsListed, HasStatus, StatusAt, FirstWord, IsAfterRow;
    StatusIsRead(status, after);
    if grade.Some? {
      var s := GradePart(grade) + (status + after);
      assert s == grade.value + (" " + (status + after));
      GradeIsWord(grade.value);
      FirstWordIs(grade.value, " " + (status + after));
      assert s[|grade.value| + 1..] == status + after;
    } else {
      assert GradePart(grade) + (status + after) == status + after;
      StatusIsNoGrade(status, after);
    }
  }

  // ---------------------------------------------------------------- mark, credit points, code

  lemma EndingStartsWithLetter(grade: Option<string>, status: string, after: string)
    requires (grade.Some? ==> IsGrade(grade.value)) && IsListed(status)
    ensures var s := GradePart(grade) + (status + after); s != "" && !IsDigit(s[0])
  {
    hide IsGrade, IsListed;
    StatusHasLettersAround(status);
    if grade.Some? {
      GradeIsWord(grade.value);
    }
  }

  lemma NoMarkHere(s: string)
    requires s != "" && !IsDigit(s[0])
    ensures MatchMark(s) == MatchGrade(s)
  {
    hide MatchGrade, IsGrade, IsListed;
  }

  lemma DigitsEnd(digits: string, rest: string)
    requires AreDigits(digits) && rest != "" && !IsDigit(rest[0])
    ensures DigitRun(digits + rest) == |digits|
  {
    DigitRunIs(digits + rest, |digits|);
  }

  lemma CpIsRead(cp: string, rest: string)
    requires AreDigits(cp) && 1 <= |cp| <= 2 && MatchMark(rest).Some?
    ensures var e := MatchMark(rest).value;
      MatchCp(cp + " " + rest) == Some(FlatRow("", "", "", "", cp, e.mark, e.grade, e.status, |cp| + 1 + e.length))
  {
    hide MatchMark, DigitRun, IsGrade, IsListed, AreDigits;
    DigitsEnd(cp, " " + rest);
    assert cp + " " + rest == cp + (" " + rest);
    assert (cp + " " + rest)[|cp| + 1..] == rest;
  }

  lemma CodeIsRun(code: string, rest: string)
    requires IsSubjectCode(code) && rest != "" && rest[0] == ' '
    ensures CodeRun(code + rest) == |code|
  {
    var n: nat :| 2 <= n <= 4 && IsCodeOf(code, n);
    var s := code + rest;
    assert forall k :: 0 <= k < |code| ==> s[k] == code[k];
    UpperRunIs(s, n);
    hide UpperRun;
    assert s[|code|] == ' ';
  }

  lemma TailIsRead(code: string, rest: string)
    requires IsSubjectCode(code) && MatchCp(rest).Some?
    ensures var row := MatchCp(rest).value;
      MatchTail(code + " " + rest) == Some(row.(code := code, length := |code| + 1 + row.length))
  {
    hide MatchCp, CodeRun, IsSubjectCode, IsFlatEnding;
    CodeIsRun(code, " " + rest);
    CodeIsNotEmpty(code);
    assert code + " " + rest == code + (" " + rest);
    assert (code + " " + rest)[|code| + 1..] == rest;
  }

  lemma CpText(n: nat)
    requires n < 100
    ensures 1 <= |Decimal(n)| <= 2 && AreDigits(Decimal(n))
  {
  }

  // What the pattern captures of the tail of a row.
  function FlatTailOf(row: EnrolmentRow): FlatRow {
    FlatRow("", "", "", row.code, IntText(row.nomCp), MarkText(row.mark), row.grade, row.status, |TailText(row)|)
  }

  lemma MarkLength(n: nat)
    requires n <= 100
    ensures 1 <= |Decimal(n)| <= 3 && AreDigits(Decimal(n))
  {
    assert n >= 10 ==> n / 10 <= 10;
    assert n >= 100 ==> n / 10 / 10 == 1;
  }

  // A mark, one space, and the ending.
  lemma MarkHere(digits: string, rest: string)
    requires 1 <= |digits| <= 3 && AreDigits(digits) && MatchGrade(rest).Some?
    ensures var e := MatchGrade(rest).value;
      MatchMark(digits + " " + rest) == Some(e.(mark := digits, length := |digits| + 1 + e.length))
  {
    hide MatchGrade, IsGrade, IsListed, DigitRun, AreDigits;
    DigitsEnd(digits, " " + rest);
    assert digits + " " + rest == digits + (" " + rest);
    assert (digits + " " + rest)[|digits| + 1..] == rest;
    assert (digits + " " + rest)[..|digits|] == digits;
  }

  lemma EndingIsRead(row: EnrolmentRow, after: string)
    requires IsFlatMarked(row) && IsAfterRow(after)
    ensures MatchMark(MarkPart(row.mark) + (GradePart(row.grade) + (row.status + after))) ==
      Some(Ending(MarkText(row.mark), row.grade, row.status, |MarkPart(row.mark)| + |GradePart(row.grade)| + |row.status|))
  {
    hide IsGrade, IsListed, IsStatus, IsSubjectCode, IsSession, IsAlphabetic, MatchMark, MatchGrade, IsCell, Upper, AreDigits, Decimal,
      IsAfterRow, GradePart;
    StatusIsListed(row.status);
    GradeIsRead(row.grade, row.status, after);
    EndingStartsWithLetter(row.grade, row.status, after);
    var ending := GradePart(row.grade) + (row.status + after);
    if row.mark.Some? {
      MarkLength(row.mark.value);
      MarkHere(IntText(row.mark.value), ending);
    } else {
      NoMarkHere(ending);
      assert "" + ending == ending;
    }
  }

  lemma TailTextIsRead(row: EnrolmentRow, after: string)
    requires IsFlatMarked(row) && IsAfterRow(after)
    ensures MatchTail(TailText(row) + after) == Some(FlatTailOf(row))
  {
    hide IsGrade, IsListed, IsStatus, IsSubjectCode, IsSession, IsAlphabetic, MatchTail, MatchCp, MatchMark, MatchGrade, IsCell,
      Upper, AreDigits, Decimal, IsAfterRow, IsFlatEnding, IsFlatTail, GradePart, MarkPart, MarkText;
    EndingIsRead(row, after);
    var ending := MarkPart(row.mark) + (GradePart(row.grade) + (row.status + after));
    CpText(row.nomCp);
    var cp := IntText(row.nomCp);
    CpIsRead(cp, ending);
    TailIsRead(row.code, cp + " " + ending);
    Regrouped(row.code, cp, MarkPart(row.mark), GradePart(row.grade), row.status, after);
    assert TailText(row) + after == row.code + " " + (cp + " " + ending);
  }

  lemma Regrouped(code: string, cp: string, mark: string, grade: string, status: string, after: string)
    ensures code + " " + (cp + " " + (mark + (grade + status))) + after == code + " " + (cp + " " + (mark + (grade + (status + after))))
  {
  }

  // ---------------------------------------------------------------- campus, session, year

  lemma {:induction false} CodeRunIsWord(s: string)
    requires CodeRun(s) > 0
    ensures FirstWord(s) == s[..CodeRun(s)] && exists k :: 0 <= k < |FirstWord(s)| && IsDigit(FirstWord(s)[k])
  {
    hide FirstWord, IsUpper;
    var n := CodeRun(s);
    UpperNoSpace(s, n);
    FirstWordIs(s[..n], s[n..]);
    assert s[..n] + s[n..] == s;
    var u: nat :| 2 <= u <= 4 && IsCodeOf(s[..n], u);
    assert IsDigit(s[..n][u]);
  }

  lemma UpperNoSpace(s: string, n: nat)
    requires n <= |s| && forall k :: 0 <= k < n ==> IsUpper(s[k]) || IsDigit(s[k])
    ensures ' ' !in s[..n]
  {
  }

  // No tail starts with a word of letters.
  lemma LettersAreNoTail(s: string)
    requires forall k :: 0 <= k < |FirstWord(s)| ==> IsLetter(FirstWord(s)[k])
    ensures MatchTail(s).None?
  {
    hide FirstWord, CodeRun, MatchCp, IsFlatEnding, IsSubjectCode;
    if CodeRun(s) > 0 {
      CodeRunIsWord(s);
    }
  }

  lemma AlphabeticAt(s: string, k: nat)
    requires IsAlphabetic(s) && k < |s|
    ensures IsLetter(s[k]) || (s[k] == ' ' && k + 1 < |s|)
    ensures IsCampusChar(s[k])
  {
    assert IsAlphabeticAt(s, k);
  }

  lemma InnerWordIsLetters(campus: string, k: nat, rest: string)
    requires IsAlphabetic(campus) && k < |campus| && rest != "" && rest[0] == ' '
    ensures var w := FirstWord((campus + rest)[k..]); forall i :: 0 <= i < |w| ==> IsLetter(w[i])
  {
    hide FirstWord;
    var s := (campus + rest)[k..];
    var w := FirstWord(s);
    assert s[|campus| - k] == ' ';
    FirstWordStops(s, |campus| - k);
    FirstWordIsPrefix(s);
    forall i | 0 <= i < |w| ensures IsLetter(w[i]) {
      assert w[i] == s[i] == campus[k + i] && w[i] in w;
      AlphabeticAt(campus, k + i);
    }
  }

  lemma NoEarlierEnd(campus: string, k: nat, rest: string)
    requires IsAlphabetic(campus) && k < |campus| && rest != "" && rest[0] == ' '
    ensures !EndsCampus(campus + rest, k)
  {
    hide MatchTail, FirstWord;
    var s := campus + rest;
    if s[k] == ' ' {
      AlphabeticAt(campus, k);
      assert campus[k] == ' ';
      InnerWordIsLetters(campus, k + 1, rest);
      LettersAreNoTail(s[k + 1..]);
    }
  }

  lemma {:induction false} CampusEndIs(campus: string, k: nat, rest: string)
    requires IsAlphabetic(campus) && 0 < k <= |campus| && EndsCampus(campus + rest, |campus|) && rest != "" && rest[0] == ' '
    requires IsCampusText((campus + rest)[..k])
    ensures CampusEnd(campus + rest, k) == Some(|campus|)
    decreases |campus| - k
  {
    hide EndsCampus, IsCampusText;
    var s := campus + rest;
    if k < |campus| {
      NoEarlierEnd(campus, k, rest);
      AlphabeticAt(campus, k);
      assert s[k] == campus[k];
      CampusTextGrows(s, k);
      hide IsAlphabetic;
      CampusEndIs(campus, k + 1, rest);
    }
  }

  lemma CampusIsRead(campus: string, tail: string)
    requires IsAlphabetic(campus) && MatchTail(tail).Some?
    ensures var row := MatchTail(tail).value;
      MatchCampus(campus + " " + tail) == Some(row.(campus := campus, length := |campus| + 1 + row.length))
  {
    hide MatchTail, CampusEnd, IsFlatTail, IsCampusText;
    var s := campus + " " + tail;
    assert s == campus + (" " + tail);
    assert s[|campus| + 1..] == tail && s[|campus|] == ' ';
    assert EndsCampus(campus + (" " + tail), |campus|);
    LetterIsCampus(s);
    CampusEndIs(campus, 1, " " + tail);
    assert s[..|campus|] == campus;
  }

  lemma SessionIsRead(session: string, rest: string)
    requires IsSession(session) && MatchCampus(rest).Some?
    ensures var row := MatchCampus(rest).value;
      MatchSession(session + " " + rest) == Some(row.(session := session, length := |session| + 1 + row.length))
  {
    hide MatchCampus, IsFlatTail, FirstWord, IsSession, IsCampusText, IsPlainWord, IsCell;
    SessionIsCell(session);
    WordHasNoSpace(session);
    FirstWordIs(session, " " + rest);
    assert session + " " + rest == session + (" " + rest);
    assert (session + " " + rest)[|session| + 1..] == rest;
  }

  lemma WordHasNoSpace(s: string)
    requires IsPlainWord(s)
    ensures ' ' !in s
  {
  }

  lemma DecimalStep(n: nat)
    ensures Decimal(n) == if n < 10 then [DigitChar(n)] else Decimal(n / 10) + [DigitChar(n % 10)]
  {
  }

  lemma TwoDigits(b: nat)
    requires b == 19 || b == 20
    ensures var s := Decimal(b); |s| == 2 && ((s[0] == '1' && s[1] == '9') || (s[0] == '2' && s[1] == '0'))
  {
    hide Decimal;
    DecimalStep(b);
    DecimalStep(b / 10);
  }

  lemma YearText(n: nat)
    requires 1900 <= n <= 2099
    ensures IsYear(Decimal(n))
  {
    hide Decimal;
    var a, b := n / 10, n / 10 / 10;
    DecimalStep(n);
    DecimalStep(a);
    TwoDigits(b);
    assert Decimal(n) == Decimal(b) + [DigitChar(a % 10), DigitChar(n % 10)];
  }

  lemma YearAndRestAreRead(year: string, rest: string)
    requires IsYear(year)
    requires MatchSession(rest).Some?
    ensures var row := MatchSession(rest).value;
      MatchRow(year + " " + rest) == Some(row.(year := year, length := 5 + row.length))
  {
    hide MatchSession, IsFlatTail, IsSession, IsCampusText;
    var s := year + " " + rest;
    assert s[..4] == year && s[5..] == rest && s[4] == ' ';
    assert StartsWithYear(s);
  }

  // What the pattern captures of a row.
  function FlatRowOf(row: EnrolmentRow): FlatRow {
    FlatRow(IntText(row.year), row.session, row.campus, row.code, IntText(row.nomCp), MarkText(row.mark), row.grade, row.status,
      |RowText(row)|)
  }

  // The pattern matches a printed row, all of it and no more.
  lemma RowTextIsRead(row: EnrolmentRow, after: string)
    requires IsFlatMarked(row) && IsAfterRow(after)
    ensures MatchRow(RowText(row) + after) == Some(FlatRowOf(row))
  {
    hide IsPrintableRow, IsSession, IsAlphabetic, MatchTail, MatchCampus, MatchSession, MatchRow, TailText, MarkText,
      IsAfterRow, Decimal, IsFlatTail, IsCampusText;
    TailTextIsRead(row, after);
    var tail := TailText(row) + after;
    CampusIsRead(row.campus, tail);
    SessionIsRead(row.session, row.campus + " " + tail);
    YearText(row.year);
    YearAndRestAreRead(IntText(row.year), row.session + " " + (row.campus + " " + tail));
    assert RowText(row) + after == IntText(row.year) + " " + (row.session + " " + (row.campus + " " + tail));
  }

  // And its captures are the row.
  lemma FlatRowGivesRow(row: EnrolmentRow, keepMarks: bool)
    requires IsFlatMarked(row) && IsFlatRow(FlatRowOf(row))
    ensures RowOf(FlatRowOf(row), keepMarks) == Ok(Kept(row, keepMarks))
  {
    hide IsGrade, IsStatus, IsSubjectCode, IsSession, IsAlphabetic, IsCell, Upper, CampusHalf, Decimal, IsFlatTail, IsCampusText, RowText,
      ReadMark, MarkText;
    CampusKeptFlat(row);
    MarkIsReadBack(row);
  }

  lemma CampusKeptFlat(row: EnrolmentRow)
    requires IsFlatMarked(row)
    ensures CampusHalf(row.campus) == row.campus
  {
    hide IsSession, IsAlphabetic, IsPrintableRow, CampusHalf;
    CampusIsKept(row);
  }
}
