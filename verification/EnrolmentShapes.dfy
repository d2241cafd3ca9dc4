/** The shapes that app/services/enrolment.py accepts for its values. */
module EnrolmentShapes {
  // Subject codes, the header lines for course, campus and major, and what a major is recorded as.

  import opened Text

  // ---------------------------------------------------------------- subject codes

  // Two to four capital letters, three digits, perhaps one more capital letter.
  predicate IsSubjectCode(s: string) {
    exists n: nat :: 2 <= n <= 4 && IsCodeOf(s, n)
  }

  predicate IsCodeOf(s: string, n: nat) {
    && (|s| == n + 3 || (|s| == n + 4 && IsUpper(s[n + 3])))
    && (forall k :: 0 <= k < n ==> IsUpper(s[k]))
    && (forall k :: n <= k < n + 3 ==> IsDigit(s[k]))
  }

  // ---------------------------------------------------------------- header lines

  // Up to two stars.
  function DropStars(s: string): string {
    if |s| >= 2 && s[0] == '*' && s[1] == '*' then s[2..]
    else if |s| >= 1 && s[0] == '*' then s[1..]
    else s
  }

  function DropColon(s: string): string {
    if s != "" && s[0] == ':' then s[1..] else s
  }

  function DropSpaces(s: string): string {
    StripLeft(s, SPACES)
  }

  // What follows a label, which may be bold and may have a colon.
  function AfterLabel(line: string, name: string): Option<string> {
    var s := DropStars(line);
    if StartsWithFold(s, name) then Some(DropSpaces(DropStars(DropColon(s[|name|..])))) else None
  }

  // A whole number of three or four digits.
  function CourseIn(s: string): Option<string> {
    var n := DigitRun(s);
    if (n == 3 || n == 4) && (n == |s| || !IsWord(s[n])) then Some(s[..n]) else None
  }

  function BeforePipe(s: string): (r: string)
    ensures |r| <= |s| && '|' !in r
    ensures '|' !in s ==> r == s
  {
    if s == "" || s[0] == '|' then "" else [s[0]] + BeforePipe(s[1..])
  }

  predicate IsCampusName(s: string) {
    s != "" && IsLetter(s[0]) && forall k :: 0 <= k < |s| ==> IsLetter(s[k]) || s[k] == ' '
  }

  function CampusIn(s: string): Option<string> {
    var v := StripRight(BeforePipe(s), SPACES);
    if IsCampusName(v) then Some(v) else None
  }

  function CourseOf(line: string): Option<string> {
    var rest := AfterLabel(line, "course");
    if rest.Some? then CourseIn(rest.value) else None
  }

  function CampusOf(line: string): Option<string> {
    var rest := AfterLabel(line, "campus");
    if rest.Some? then CampusIn(rest.value) else None
  }

  function DropSecond(s: string): string {
    if StartsWithFold(s, "second") && |s| > 6 && IsSpace(s[6]) then DropSpaces(s[6..]) else s
  }

  function DropNumber(s: string): string {
    var t := DropSpaces(s);
    if |t| < |s| && DigitRun(t) > 0 then t[DigitRun(t)..] else s
  }

  // The value on a major line, "" when the label stands alone.
  function MajorOf(line: string): Option<string> {
    var s := DropSecond(DropStars(line));
    if StartsWithFold(s, "major") then Some(MajorIn(s[5..])) else None
  }

  function MajorIn(s: string): string {
    Trim(DropStars(DropColon(DropSpaces(DropNumber(s)))))
  }

  // ---------------------------------------------------------------- majors

  function UpperRun(s: string): (n: nat)
    ensures n <= |s|
    ensures forall k :: 0 <= k < n ==> IsUpper(s[k])
    ensures n < |s| ==> !IsUpper(s[n])
  {
    if s != "" && IsUpper(s[0]) then 1 + UpperRun(s[1..]) else 0
  }

  lemma {:induction false} UpperRunIs(s: string, n: nat)
    requires n <= |s| && (forall k :: 0 <= k < n ==> IsUpper(s[k])) && (n < |s| ==> !IsUpper(s[n]))
    ensures UpperRun(s) == n
  {
    if n > 0 {
      UpperRunIs(s[1..], n - 1);
    }
  }

  predicate StartsWithCode(s: string) {
    var n := UpperRun(s);
    2 <= n <= 6 && (n == |s| || !IsWord(s[n]))
  }

  predicate IsTitleChar(c: char) {
    IsLetter(c) || c == '&' || c == '-'
  }

  predicate IsTitleWord(s: string) {
    s != "" && forall k :: 0 <= k < |s| ==> IsTitleChar(s[k])
  }

  // Two to eight words, the first a capitalised word of letters.
  predicate IsTitle(s: string) {
    var words := Split(s, ' ');
    && 2 <= |words| <= 8
    && words[0] != "" && IsUpper(words[0][0]) && (forall k :: 0 <= k < |words[0]| ==> IsLetter(words[0][k]))
    && forall k :: 1 <= k < |words| ==> IsTitleWord(words[k])
  }

  predicate EqualsFold(s: string, p: string) {
    |s| == |p| && StartsWithFold(s, p)
  }

  predicate IsUndeclared(s: string) {
    || EqualsFold(s, "not yet declared") || EqualsFold(s, "undeclared") || EqualsFold(s, "none")
    || EqualsFold(s, "n/a") || EqualsFold(s, "na") || EqualsFold(s, "tbd")
  }

  // s ends in white space and then p, letter case ignored.
  predicate EndsInWord(s: string, p: string) {
    |p| < |s| && IsSpace(s[|s| - |p| - 1]) && StartsWithFold(s[|s| - |p|..], p)
  }

  function DropHonours(s: string): string {
    if EndsInWord(s, "honours") then StripRight(s[..|s| - 7], SPACES)
    else if EndsInWord(s, "honour") then StripRight(s[..|s| - 6], SPACES)
    else s
  }

  // What a major value is recorded as, if at all.
  function MajorFrom(value: string): Option<string> {
    if StartsWithCode(value) then Some(value[..UpperRun(value)])
    else if IsTitle(value) && !IsUndeclared(value) then Some(Trim(DropHonours(value)))
    else None
  }

  // ---------------------------------------------------------------- the header

  datatype Header = Header(course: Option<string>, campus: Option<string>, majors: seq<string>, pending: bool)

  function AddMajor(h: Header, value: string): Header {
    match MajorFrom(value)
    case Some(major) => h.(majors := h.majors + [major])
    case None => h
  }

  predicate IsHeaderLine(line: string) {
    CourseOf(line).Some? || CampusOf(line).Some? || MajorOf(line).Some?
  }

  // Read one line that is no table row.
  function ReadHeaderLine(line: string, h: Header): Header {
    var value := Trim(Remove(line, '*'));
    if h.pending && value != "" && !IsHeaderLine(line) && MajorFrom(value).Some? then
      AddMajor(h, value).(pending := false)
    else
      ReadLabel(line, h.(pending := false))
  }

  function ReadLabel(line: string, h: Header): Header {
    if CourseOf(line).Some? && h.course.None? then h.(course := CourseOf(line))
    else if CampusOf(line).Some? && h.campus.None? then h.(campus := CampusOf(line))
    else
      match MajorOf(line)
      case None => h
      case Some(value) => if value != "" then AddMajor(h, value) else h.(pending := true)
  }
}
