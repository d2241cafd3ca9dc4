/** The flat parser of app/services/enrolment.py, for a paste whose table markup did not survive. */
module EnrolmentFlat {
  // Rows are recovered by matching their known shape in one run of words.

  import opened Text
  import opened Records
  import opened EnrolmentShapes
  import opened EnrolmentTable

  // ---------------------------------------------------------------- one run of words

  function Unmarked(s: string): (r: string)
    ensures |r| == |s|
    ensures forall k :: 0 <= k < |s| ==> r[k] == if s[k] == '|' || s[k] == '*' then ' ' else s[k]
  {
    seq(|s|, k requires 0 <= k < |s| => if s[k] == '|' || s[k] == '*' then ' ' else s[k])
  }

  function WordRun(s: string): (n: nat)
    ensures n <= |s|
    ensures forall k :: 0 <= k < n ==> !IsSpace(s[k])
    ensures n < |s| ==> IsSpace(s[n])
    ensures s != "" && !IsSpace(s[0]) ==> n > 0
  {
    if s != "" && !IsSpace(s[0]) then 1 + WordRun(s[1..]) else 0
  }

  // `s.split()`
  function Words(s: string): seq<string>
    decreases |s|
  {
    var t := DropSpaces(s);
    if t == "" then [] else [t[..WordRun(t)]] + Words(t[WordRun(t)..])
  }

  // The words of a paste, one space apart.
  function FlatText(raw: string): string {
    Join(Words(Unmarked(raw)), " ")
  }

  // ---------------------------------------------------------------- the shape of a row

  // What the pattern captures, and where the match ends.
  datatype FlatRow = FlatRow(
    year: string, session: string, campus: string, code: string, cp: string,
    mark: string, grade: Option<string>, status: string, length: nat)

  predicate StartsWithYear(s: string) {
    |s| > 4 && ((s[0] == '1' && s[1] == '9') || (s[0] == '2' && s[1] == '0')) && IsDigit(s[2]) && IsDigit(s[3]) && s[4] == ' '
  }

  // Characters up to the first space.
  function FirstWord(s: string): (r: string)
    ensures |r| <= |s| && ' ' !in r
    ensures |r| < |s| ==> s[|r|] == ' '
  {
    if s == "" || s[0] == ' ' then "" else [s[0]] + FirstWord(s[1..])
  }

  lemma {:induction false} FirstWordIsPrefix(s: string)
    ensures var r := FirstWord(s); r == s[..|r|]
  {
    if s != "" && s[0] != ' ' {
      FirstWordIsPrefix(s[1..]);
    }
  }

  predicate IsCampusChar(c: char) {
    IsLetter(c) || c == '/' || c == ' '
  }

  // Statuses from the longest to the shortest, as they are tried.
  const STATUSES := [
    "Not Counted (Prior Course)", "Withheld Supplementary", "Approved Withdrawal", "Withheld Deferred", "Leave of Absence",
    "Provisional", "Withdrawn", "Complete", "Enrolled", "Withheld", "Failed"]

  // A status that does not stop inside a longer word.
  predicate HasStatus(s: string, status: string) {
    status <= s && (|status| == |s| || !IsLetter(s[|status|]))
  }

  function FirstStatus(s: string, statuses: seq<string>): (r: Option<string>)
    ensures r.Some? ==> r.value in statuses && HasStatus(s, r.value)
    decreases |statuses|
  {
    if statuses == [] then None
    else if HasStatus(s, statuses[0]) then Some(statuses[0])
    else FirstStatus(s, statuses[1..])
  }

  predicate IsListed(status: string) {
    status in STATUSES
  }

  function StatusAt(s: string): (r: Option<string>)
    ensures r.Some? ==> IsListed(r.value) && HasStatus(s, r.value) && 0 < |r.value| <= |s|
  {
    FirstStatus(s, STATUSES)
  }

  datatype Ending = Ending(mark: string, grade: Option<string>, status: string, length: nat)

  // An optional grade and the status.
  function MatchGrade(s: string): (r: Option<Ending>)
    ensures r.Some? ==> 0 < r.value.length <= |s|
    ensures r.Some? ==> IsListed(r.value.status) && r.value.mark == "" && (r.value.grade.Some? ==> IsGrade(r.value.grade.value))
  {
    hide FirstWord, StatusAt, IsGrade, IsListed, HasStatus;
    var word := FirstWord(s);
    var graded := if |word| < |s| && IsGrade(word) then StatusAt(s[|word| + 1..]) else None;
    var plain := StatusAt(s);
    if graded.Some? then Some(Ending("", Some(word), graded.value, |word| + 1 + |graded.value|))
    else if plain.Some? then Some(Ending("", None, plain.value, |plain.value|))
    else None
  }

  // An optional mark before them.
  function MatchMark(s: string): (r: Option<Ending>)
    ensures r.Some? ==> 0 < r.value.length <= |s|
    ensures r.Some? ==> IsListed(r.value.status) && (r.value.grade.Some? ==> IsGrade(r.value.grade.value))
    ensures r.Some? ==> |r.value.mark| <= 3 && AreDigits(r.value.mark)
  {
    hide IsGrade, IsListed, MatchGrade;
    var n := DigitRun(s);
    var marked := if 1 <= n <= 3 && n < |s| && s[n] == ' ' then MatchGrade(s[n + 1..]) else None;
    if marked.Some? then Some(marked.value.(mark := s[..n], length := n + 1 + marked.value.length))
    else MatchGrade(s)
  }

  // The number of characters of a subject code that a space follows.
  function CodeRun(s: string): (n: nat)
    ensures n > 0 ==> n < |s| && s[n] == ' ' && IsSubjectCode(s[..n])
    ensures forall k :: 0 <= k < n ==> IsUpper(s[k]) || IsDigit(s[k])
  {
    var u := UpperRun(s);
    if !(2 <= u <= 4) || |s| < u + 4 || !IsDigit(s[u]) || !IsDigit(s[u + 1]) || !IsDigit(s[u + 2]) then 0
    else if s[u + 3] == ' ' then
      assert IsCodeOf(s[..u + 3], u);
      u + 3
    else if IsUpper(s[u + 3]) && |s| > u + 4 && s[u + 4] == ' ' then
      assert IsCodeOf(s[..u + 4], u);
      u + 4
    else 0
  }

  predicate IsFlatEnding(row: FlatRow) {
    && 1 <= |row.cp| <= 2 && AreDigits(row.cp)
    && |row.mark| <= 3 && AreDigits(row.mark)
    && (row.grade.Some? ==> IsGrade(row.grade.value))
    && IsListed(row.status)
  }

  predicate IsFlatTail(row: FlatRow) {
    && IsSubjectCode(row.code) && (forall k :: 0 <= k < |row.code| ==> IsUpper(row.code[k]) || IsDigit(row.code[k]))
    && IsFlatEnding(row)
  }

  lemma RunIsDigits(s: string)
    ensures AreDigits(s[..DigitRun(s)])
  {
  }

  // The credit points and what follows them.
  function MatchCp(s: string): (r: Option<FlatRow>)
    ensures r.Some? ==> 0 < r.value.length <= |s| && IsFlatEnding(r.value)
  {
    hide IsGrade, IsListed, MatchMark, DigitRun, AreDigits;
    var d := DigitRun(s);
    if !(1 <= d <= 2) || d == |s| || s[d] != ' ' || MatchMark(s[d + 1..]).None? then None
    else
      var e := MatchMark(s[d + 1..]).value;
      RunIsDigits(s);
      Some(FlatRow("", "", "", "", s[..d], e.mark, e.grade, e.status, d + 1 + e.length))
  }

  // The code, the credit points and the rest of a row.
  function MatchTail(s: string): (r: Option<FlatRow>)
    ensures r.Some? ==> 0 < r.value.length <= |s| && IsFlatTail(r.value)
  {
    hide MatchCp, CodeRun, IsSubjectCode, IsFlatEnding;
    var n := CodeRun(s);
    if n == 0 || MatchCp(s[n + 1..]).None? then None
    else
      var row := MatchCp(s[n + 1..]).value;
      Some(row.(code := s[..n], length := n + 1 + row.length))
  }

  predicate IsCampusText(s: string) {
    s != "" && IsLetter(s[0]) && forall k :: 0 <= k < |s| ==> IsCampusChar(s[k])
  }

  lemma CampusTextGrows(s: string, k: nat)
    requires k < |s| && IsCampusText(s[..k]) && IsCampusChar(s[k])
    ensures IsCampusText(s[..k + 1])
  {
    hide IsCampusChar;
    assert s[..k + 1] == s[..k] + [s[k]];
  }

  // A space after which the rest of a row follows.
  predicate EndsCampus(s: string, k: nat) {
    k < |s| && s[k] == ' ' && MatchTail(s[k + 1..]).Some?
  }

  // The end of the campus: the first such space from k on.
  function CampusEnd(s: string, k: nat): (r: Option<nat>)
    requires 0 < k <= |s| && IsCampusText(s[..k])
    ensures r.Some? ==> k <= r.value <= |s| && EndsCampus(s, r.value) && IsCampusText(s[..r.value])
    decreases |s| - k
  {
    hide EndsCampus, IsCampusText, IsCampusChar;
    if EndsCampus(s, k) then Some(k)
    else if k < |s| && IsCampusChar(s[k]) then
      CampusTextGrows(s, k);
      CampusEnd(s, k + 1)
    else None
  }

  // The campus and the rest of a row.
  function MatchCampus(s: string): (r: Option<FlatRow>)
    ensures r.Some? ==> 0 < r.value.length <= |s| && IsFlatTail(r.value) && IsCampusText(r.value.campus)
  {
    hide MatchTail, CampusEnd, IsFlatTail;
    if s == "" || !IsLetter(s[0]) then None
    else
      LetterIsCampus(s);
      var k := CampusEnd(s, 1);
      if k.None? then None
      else
        var tail := MatchTail(s[k.value + 1..]).value;
        Some(tail.(campus := s[..k.value], length := k.value + 1 + tail.length))
  }

  lemma LetterIsCampus(s: string)
    requires s != "" && IsLetter(s[0])
    ensures IsCampusText(s[..1])
  {
  }

  predicate IsYear(s: string) {
    |s| == 4 && AreDigits(s) && ((s[0] == '1' && s[1] == '9') || (s[0] == '2' && s[1] == '0'))
  }

  lemma YearIsRead(s: string)
    requires StartsWithYear(s)
    ensures |s| > 4 && IsYear(s[..4])
  {
  }

  // The session, the campus and the rest of a row.
  function MatchSession(s: string): (r: Option<FlatRow>)
    ensures r.Some? ==> 0 < r.value.length <= |s| && IsFlatTail(r.value) && IsCampusText(r.value.campus) && IsSession(r.value.session)
  {
    hide MatchCampus, IsFlatTail, FirstWord, IsSession, IsCampusText;
    var session := FirstWord(s);
    if !IsSession(session) || |session| == |s| || MatchCampus(s[|session| + 1..]).None? then None
    else
      var row := MatchCampus(s[|session| + 1..]).value;
      Some(row.(session := session, length := |session| + 1 + row.length))
  }

  // A whole row at the start of s.
  function MatchRow(s: string): (r: Option<FlatRow>)
    ensures r.Some? ==> 0 < r.value.length <= |s| && IsFlatRow(r.value)
  {
    hide MatchSession, IsFlatTail, IsSession, IsCampusText, StartsWithYear, IsYear;
    if !StartsWithYear(s) then None
    else
      YearIsRead(s);
      if MatchSession(s[5..]).None? then None
      else
        var row := MatchSession(s[5..]).value;
        TailWithYear(row, s[..4], 5 + row.length);
        Some(row.(year := s[..4], length := 5 + row.length))
  }

  lemma TailWithYear(row: FlatRow, year: string, length: nat)
    requires IsFlatTail(row)
    ensures IsFlatTail(row.(year := year, length := length))
  {
    hide IsSubjectCode, IsGrade, IsListed;
  }

  predicate IsFlatRow(row: FlatRow) {
    IsYear(row.year) && IsSession(row.session) && IsCampusText(row.campus) && IsFlatTail(row)
  }

  // ---------------------------------------------------------------- all rows of a text

  datatype Match = Match(start: nat, end: nat, row: FlatRow)

  // Matches of s from a position on, none overlapping.
  predicate AreMatchesFrom(ms: seq<Match>, at: nat, s: string) {
    && (forall k :: 0 <= k < |ms| ==> at <= ms[k].start < ms[k].end <= |s| && IsFlatRow(ms[k].row))
    && (forall j, k :: 0 <= j < k < |ms| ==> ms[j].end <= ms[k].start)
  }

  lemma MatchesFromEarlier(ms: seq<Match>, at: nat, later: nat, s: string)
    requires AreMatchesFrom(ms, later, s) && at <= later
    ensures AreMatchesFrom(ms, at, s)
  {
    hide IsFlatRow;
  }

  lemma MatchesWithFirst(m: Match, ms: seq<Match>, at: nat, s: string)
    requires AreMatchesFrom(ms, m.end, s) && at <= m.start < m.end <= |s| && IsFlatRow(m.row)
    ensures AreMatchesFrom([m] + ms, at, s)
  {
    hide IsFlatRow;
    var all := [m] + ms;
    assert forall k :: 1 <= k < |all| ==> all[k] == ms[k - 1];
  }

  // `finditer`: matches from a position on.
  function FindAll(s: string, at: nat): (r: seq<Match>)
    requires at <= |s|
    ensures AreMatchesFrom(r, at, s)
    decreases |s| - at
  {
    hide IsFlatRow, MatchRow, AreMatchesFrom;
    if at == |s| then NoMatches(at, s); []
    else
      var m := MatchRow(s[at..]);
      if m.None? then
        MatchesFromEarlier(FindAll(s, at + 1), at, at + 1, s);
        FindAll(s, at + 1)
      else
        var first := Match(at, at + m.value.length, m.value);
        var rest := FindAll(s, first.end);
        MatchesWithFirst(first, rest, at, s);
        [first] + rest
  }

  // The match is what the pattern matches at its start.
  predicate IsMatchOf(m: Match, s: string) {
    m.start <= |s| && MatchRow(s[m.start..]) == Some(m.row) && m.end == m.start + m.row.length
  }

  predicate Covers(m: Match, k: nat) {
    m.start <= k < m.end
  }

  // Every match is the pattern's own, and no place where the pattern matches is left out: a match
  // starts there or reaches over it.
  lemma {:induction false} FindAllMissesNone(s: string, at: nat, k: nat)
    requires at <= k < |s|
    ensures forall m :: m in FindAll(s, at) ==> IsMatchOf(m, s)
    ensures MatchRow(s[k..]).Some? ==> exists m :: m in FindAll(s, at) && Covers(m, k)
    decreases |s| - at
  {
    hide IsFlatRow, MatchRow, AreMatchesFrom;
    var m := MatchRow(s[at..]);
    if m.None? {
      if at < k {
        FindAllMissesNone(s, at + 1, k);
      } else {
        FoundAreMatches(s, at + 1);
      }
    } else {
      var first := Match(at, at + m.value.length, m.value);
      assert FindAll(s, at) == [first] + FindAll(s, first.end);
      if first.end <= k {
        FindAllMissesNone(s, first.end, k);
      } else {
        assert Covers(first, k) && first in FindAll(s, at);
        FoundAreMatches(s, first.end);
      }
    }
  }

  lemma {:induction false} FoundAreMatches(s: string, at: nat)
    requires at <= |s|
    ensures forall m :: m in FindAll(s, at) ==> IsMatchOf(m, s)
    decreases |s| - at
  {
    hide IsFlatRow, MatchRow, AreMatchesFrom;
    if at < |s| {
      var m := MatchRow(s[at..]);
      FoundAreMatches(s, if m.None? then at + 1 else at + m.value.length);
    }
  }

  lemma NoMatches(at: nat, s: string)
    ensures AreMatchesFrom([], at, s)
  {
  }

  // Nothing but white space between two rows.
  predicate IsGapless(s: string, ms: seq<Match>)
    requires AreMatchesFrom(ms, 0, s)
  {
    hide IsFlatRow;
    forall k :: 0 <= k < |ms| - 1 ==> Trim(s[ms[k].end..ms[k + 1].start]) == ""
  }

  // ---------------------------------------------------------------- advanced standing

  predicate AtBoundary(s: string, p: nat)
    requires p <= |s|
  {
    p == 0 || !IsWord(s[p - 1])
  }

  function BeforeHash(s: string): string {
    if s == "" || s[0] == '#' then "" else [s[0]] + BeforeHash(s[1..])
  }

  predicate HasDigit(s: string) {
    exists k :: 0 <= k < |s| && IsDigit(s[k])
  }

  function AfterCreditTitle(s: string): Option<string> {
    var t := if StartsWithFold(s, "unspecified") then s[11..] else if StartsWithFold(s, "specified") then s[9..] else "";
    var u := DropSpaces(t);
    if |u| < |t| && StartsWithFold(u, "credit") && (|u| == 6 || !IsWord(u[6])) then Some(u[6..]) else None
  }

  // A credit section that lists something.
  predicate ListsCredit(s: string) {
    exists p: nat :: p < |s| && AtBoundary(s, p) && CreditRowsAfter(s[p..])
  }

  predicate CreditRowsAfter(s: string) {
    AfterCreditTitle(s).Some? && HasDigit(BeforeHash(AfterCreditTitle(s).value))
  }

  // ---------------------------------------------------------------- header values

  // What follows `name :` at the start of s.
  function AfterColon(s: string, name: string): Option<string> {
    if !StartsWithFold(s, name) then None else Value(s[|name|..])
  }

  // What follows a colon, white space around it ignored.
  function Value(s: string): (r: Option<string>)
    ensures r.Some? ==> |r.value| < |s|
  {
    var t := DropSpaces(s);
    if t != "" && t[0] == ':' then Some(DropSpaces(t[1..])) else None
  }

  function FlatCourse(s: string, at: nat): Option<string>
    requires at <= |s|
    decreases |s| - at
  {
    if at == |s| then None
    else
      var value := if AtBoundary(s, at) then AfterColon(s[at..], "course") else None;
      if value.Some? && CourseIn(value.value).Some? then CourseIn(value.value) else FlatCourse(s, at + 1)
  }

  // After the optional number of a major label.
  function AfterNumberedMajor(s: string): (r: Option<string>)
    ensures r.Some? ==> |r.value| < |s|
  {
    hide StripLeft, DigitRun;
    if StartsWithFold(s, "major") then Value(DropNumber(s[5..])) else None
  }

  // The same, with the word "second" in front or not.
  function AfterMajor(s: string): (r: Option<string>)
    ensures r.Some? ==> |r.value| < |s|
  {
    hide StripLeft, AfterNumberedMajor;
    AfterNumberedMajor(DropSecond(s))
  }

  predicate IsFlatLabel(s: string) {
    || AfterColon(s, "student").Some? || AfterColon(s, "effective date").Some? || AfterColon(s, "course").Some?
    || AfterColon(s, "instance").Some? || AfterColon(s, "campus").Some? || AfterColon(s, "delivery").Some?
    || AfterColon(s, "status").Some? || AfterColon(s, "second major").Some? || AfterColon(s, "note").Some?
    || AfterColon(s, "notes").Some? || AfterColon(s, "supervisor").Some? || AfterColon(s, "honours gpa").Some?
    || AfterColon(s, "gpa").Some? || AfterColon(s, "wam").Some? || AfterNumberedMajor(s).Some?
  }

  predicate IsColumnHeadings(s: string) {
    && StartsWithFold(s, "year")
    && var t := DropSpaces(s[4..]);
       |t| < |s| - 4 && StartsWithFold(t, "session") && (|t| == 7 || !IsWord(t[7]))
  }

  predicate IsYearThenSpace(s: string) {
    |s| > 4 && ((s[0] == '1' && s[1] == '9') || (s[0] == '2' && s[1] == '0')) && IsDigit(s[2]) && IsDigit(s[3]) && IsSpace(s[4])
  }

  // Where a header value may end.
  predicate AtValueEnd(s: string) {
    var t := DropSpaces(s);
    t == "" || (|t| < |s| && (IsFlatLabel(t) || IsColumnHeadings(t) || IsYearThenSpace(t)))
  }

  predicate IsCampusLetter(c: char) {
    IsLetter(c) || c == ' '
  }

  predicate IsMajorChar(c: char) {
    IsLetter(c) || IsDigit(c) || c == ' ' || c == '&' || c == '-'
  }

  predicate IsCampusValue(s: string) {
    forall k :: 0 <= k < |s| ==> IsCampusLetter(s[k])
  }

  lemma CampusValueGrows(s: string, k: nat)
    requires k < |s| && IsCampusValue(s[..k]) && IsCampusLetter(s[k])
    ensures IsCampusValue(s[..k + 1])
  {
    hide IsCampusLetter;
    assert s[..k + 1] == s[..k] + [s[k]];
  }

  // The shortest campus of up to `most` characters that may end there.
  function CampusValue(s: string, k: nat, most: nat): (r: Option<string>)
    requires 0 < k <= |s| && IsCampusValue(s[..k])
    ensures r.Some? ==> 0 < |r.value| <= |s| && r.value[0] == s[0] && IsCampusValue(r.value)
    decreases |s| - k
  {
    hide AtValueEnd, IsCampusLetter, IsCampusValue;
    if k > most then None
    else if AtValueEnd(s[k..]) then Some(s[..k])
    else if k < |s| && IsCampusLetter(s[k]) then
      CampusValueGrows(s, k);
      CampusValue(s, k + 1, most)
    else None
  }

  function MajorValue(s: string, k: nat, most: nat): (r: Option<string>)
    requires 0 < k <= |s|
    ensures r.Some? ==> 0 < |r.value| <= |s|
    decreases |s| - k
  {
    hide AtValueEnd, IsMajorChar;
    if k > most then None
    else if AtValueEnd(s[k..]) then Some(s[..k])
    else if k < |s| && IsMajorChar(s[k]) then MajorValue(s, k + 1, most)
    else None
  }

  function CampusAt(s: string): (r: Option<string>)
    ensures r.Some? ==> r.value != "" && IsLetter(r.value[0]) && IsCampusValue(r.value)
  {
    hide CampusValue, AfterColon;
    var value := AfterColon(s, "campus");
    if value.Some? && value.value != "" && IsLetter(value.value[0]) then
      assert IsCampusValue(value.value[..1]);
      CampusValue(value.value, 1, 41)
    else None
  }

  function FlatCampus(s: string, at: nat): Option<string>
    requires at <= |s|
    decreases |s| - at
  {
    hide CampusAt;
    if at == |s| then None
    else if AtBoundary(s, at) && CampusAt(s[at..]).Some? then Some(Trim(CampusAt(s[at..]).value))
    else FlatCampus(s, at + 1)
  }

  // A major at the start of s, and the text after it.
  function MajorAt(s: string): (r: Option<(string, string)>)
    ensures r.Some? ==> |r.value.1| < |s|
  {
    hide MajorValue, AfterMajor;
    var value := AfterMajor(s);
    if value.Some? && value.value != "" && IsLetter(value.value[0]) then
      var major := MajorValue(value.value, 1, 61);
      if major.Some? then Some((major.value, value.value[|major.value|..])) else None
    else None
  }

  // `finditer` for majors.
  function FlatMajors(s: string, at: nat): seq<string>
    requires at <= |s|
    decreases |s| - at
  {
    hide MajorAt;
    if at == |s| then []
    else
      var found := if AtBoundary(s, at) then MajorAt(s[at..]) else None;
      if found.None? then FlatMajors(s, at + 1)
      else [Trim(found.value.0)] + FlatMajors(s, |s| - |found.value.1|)
  }

  function AddMajors(h: Header, values: seq<string>): Header
    decreases |values|
  {
    if values == [] then h else AddMajor(AddMajors(h, values[..|values| - 1]), values[|values| - 1])
  }

  // ---------------------------------------------------------------- the record

  function RowOf(row: FlatRow, keepMarks: bool): Result<EnrolmentRow>
    requires IsFlatRow(row)
  {
    var code := Upper(row.code);
    var grade := if row.grade.Some? then Some(Upper(row.grade.value)) else None;
    if !IsSubjectCode(code) || (grade.Some? && !IsGrade(grade.value)) then Unreadable
    else
      var plain := EnrolmentRow(NatOf(row.year), row.session, CampusHalf(row.campus), code, NatOf(row.cp), grade, row.status, None);
      if keepMarks then WithMark(Ok(plain), row.mark) else Ok(plain)
  }

  predicate AreMatches(ms: seq<Match>) {
    forall k :: 0 <= k < |ms| ==> IsFlatRow(ms[k].row)
  }

  function RowsOf(ms: seq<Match>, keepMarks: bool): Result<seq<EnrolmentRow>>
    requires AreMatches(ms)
  {
    if ms == [] then Ok([])
    else
      var front := RowsOf(ms[..|ms| - 1], keepMarks);
      var last := RowOf(ms[|ms| - 1].row, keepMarks);
      if front.Ok? && last.Ok? then Ok(front.value + [last.value]) else Unreadable
  }

  function HeaderOf(text: string): Header {
    AddMajors(Header(FlatCourse(text, 0), FlatCampus(text, 0), [], false), FlatMajors(text, 0))
  }

  function AfterLast(s: string, ms: seq<Match>): string
    requires AreMatchesFrom(ms, 0, s)
  {
    hide IsFlatRow;
    if ms == [] then s else s[ms[|ms| - 1].end..]
  }

  // Rows were found, with nothing between them and no advanced standing after them.
  predicate IsReadable(text: string, ms: seq<Match>)
    requires AreMatchesFrom(ms, 0, text)
    ensures IsReadable(text, ms) ==> ms != []
  {
    ms != [] && IsGapless(text, ms) && !ListsCredit(AfterLast(text, ms))
  }

  lemma MatchesAreMatches(ms: seq<Match>, s: string)
    requires AreMatchesFrom(ms, 0, s)
    ensures AreMatches(ms)
  {
    hide IsFlatRow;
  }

  function RecordWith(h: Header, rows: Result<seq<EnrolmentRow>>): Result<EnrolmentRecord> {
    if rows.Ok? then Ok(EnrolmentRecord(h.course, h.campus, h.majors, rows.value, [], [])) else Unreadable
  }

  // The record that the flat parser finds in a text.
  function FlatRecord(raw: string, keepMarks: bool): Result<EnrolmentRecord> {
    hide AreMatchesFrom;
    var text := FlatText(raw);
    var ms := FindAll(text, 0);
    MatchesAreMatches(ms, text);
    if IsReadable(text, ms) then RecordWith(HeaderOf(text), RowsOf(ms, keepMarks)) else Unreadable
  }

  // `_parse_flat`
  method ParseFlat(raw: string, keepMarks: bool) returns (r: Result<EnrolmentRecord>)
    ensures r == FlatRecord(raw, keepMarks)
  {
    hide FlatText, FindAll, IsFlatRow, ListsCredit, FlatCourse, FlatCampus, FlatMajors, RowOf, Trim, AddMajor;
    var text := FlatText(raw);
    var matches := FindAll(text, 0);
    if matches == [] {
      return Unreadable;
    }
    for k := 0 to |matches| - 1
      invariant forall j :: 0 <= j < k ==> Trim(text[matches[j].end..matches[j + 1].start]) == ""
    {
      if Trim(text[matches[k].end..matches[k + 1].start]) != "" {
        return Unreadable;
      }
    }
    if ListsCredit(text[matches[|matches| - 1].end..]) {
      return Unreadable;
    }
    var header := Header(FlatCourse(text, 0), FlatCampus(text, 0), [], false);
    ghost var empty := header;
    var values := FlatMajors(text, 0);
    for k := 0 to |values|
      invariant header == AddMajors(empty, values[..k])
    {
      header := AddMajor(header, values[k]);
      AddMajorsNext(empty, values[..k], values[k]);
      assert values[..k + 1] == values[..k] + [values[k]];
    }
    assert values[..|values|] == values;
    var rows := [];
    for k := 0 to |matches|
      invariant RowsOf(matches[..k], keepMarks) == Ok(rows)
    {
      var row := RowOf(matches[k].row, keepMarks);
      RowsOfNext(matches[..k], matches[k], keepMarks);
      assert matches[..k + 1] == matches[..k] + [matches[k]];
      if row.Unreadable? {
        RowsOfFails(matches, k + 1, keepMarks);
        return Unreadable;
      }
      rows := rows + [row.value];
    }
    assert matches[..|matches|] == matches;
    r := Ok(EnrolmentRecord(header.course, header.campus, header.majors, rows, [], []));
  }

  lemma AddMajorsNext(h: Header, values: seq<string>, value: string)
    ensures AddMajors(h, values + [value]) == AddMajor(AddMajors(h, values), value)
  {
    hide AddMajor;
    assert (values + [value])[..|values|] == values;
  }

  lemma RowsOfNext(ms: seq<Match>, m: Match, keepMarks: bool)
    requires AreMatches(ms + [m])
    ensures AreMatches(ms) && IsFlatRow(m.row)
    ensures RowsOf(ms + [m], keepMarks) ==
      if RowsOf(ms, keepMarks).Ok? && RowOf(m.row, keepMarks).Ok?
      then Ok(RowsOf(ms, keepMarks).value + [RowOf(m.row, keepMarks).value]) else Unreadable
  {
    hide RowOf, IsFlatRow;
    var all := ms + [m];
    assert all[..|ms|] == ms && all[|ms|] == m;
    assert forall k :: 0 <= k < |ms| ==> ms[k] == all[k];
  }

  lemma {:induction false} RowsOfFails(ms: seq<Match>, k: nat, keepMarks: bool)
    requires k <= |ms| && AreMatches(ms) && RowsOf(ms[..k], keepMarks).Unreadable?
    ensures RowsOf(ms, keepMarks).Unreadable?
  {
    hide RowOf, IsFlatRow;
    if k == |ms| {
      assert ms[..k] == ms;
    } else {
      var front := ms[..|ms| - 1];
      assert front[..k] == ms[..k];
      RowsOfFails(front, k, keepMarks);
    }
  }
}
