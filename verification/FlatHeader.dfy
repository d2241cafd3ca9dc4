/** Where the course, the campus and the majors of a paste without table markup come from, written out. */
module FlatHeader {
  // A value stands behind its label and a colon, and ends before another label, the column headings or a year.

  import opened Text
  import opened Records
  import opened EnrolmentShapes
  import opened EnrolmentFlat
  import opened HeaderGrammar

  // ---------------------------------------------------------------- labels

  // The label, white space, a colon, and what follows.
  predicate IsColoned(s: string, name: string, word: string, gap: string, rest: string) {
    IsLabel(word, name) && AreSpaces(gap) && s == word + (gap + (":" + rest))
  }

  lemma ColonIsRead(s: string, name: string, word: string, gap: string, rest: string)
    requires IsColoned(s, name, word, gap, rest)
    ensures AfterColon(s, name) == Some(DropSpaces(rest))
  {
    LabelStarts(word, gap + (":" + rest), name);
    hide IsLabel, StartsWithFold;
    assert !IsSpace(':');
    SpacesGone(gap, ":" + rest);
    assert (":" + rest)[1..] == rest;
  }

  lemma ValueColon(t: string) returns (gap: string, rest: string)
    requires Value(t).Some?
    ensures AreSpaces(gap) && t == gap + (":" + rest) && Value(t) == Some(DropSpaces(rest))
  {
    hide DropSpaces;
    gap := SpacesFirst(t);
    var u := DropSpaces(t);
    rest := u[1..];
    assert u == ":" + rest;
  }

  lemma ReadIsColoned(s: string, name: string) returns (word: string, gap: string, rest: string)
    requires AfterColon(s, name).Some?
    ensures IsColoned(s, name, word, gap, rest) && AfterColon(s, name) == Some(DropSpaces(rest))
  {
    StartIsLabel(s, name);
    hide IsLabel, StartsWithFold, DropSpaces, AreSpaces, Value;
    word := s[..|name|];
    gap, rest := ValueColon(s[|name|..]);
    assert s == word + s[|name|..];
  }

  ghost predicate StartsLabelled(s: string, name: string) {
    exists word, gap, rest :: IsColoned(s, name, word, gap, rest)
  }

  lemma ColonIff(s: string, name: string)
    ensures AfterColon(s, name).Some? <==> StartsLabelled(s, name)
  {
    hide AfterColon, IsColoned;
    if word, gap, rest :| IsColoned(s, name, word, gap, rest) {
      ColonIsRead(s, name, word, gap, rest);
    }
    if AfterColon(s, name).Some? {
      var word, gap, rest := ReadIsColoned(s, name);
    }
  }

  // "Major", perhaps a number, and a colon.
  ghost predicate StartsMajor(s: string) {
    exists word, number, gap, rest ::
      IsLabel(word, "major") && IsNumber(number) && AreSpaces(gap) && s == word + (number + (gap + (":" + rest)))
  }

  lemma ColonStarts(gap: string, rest: string)
    requires AreSpaces(gap)
    ensures var y := gap + (":" + rest);
      DropSpaces(y) == ":" + rest && DigitRun(DropSpaces(y)) == 0 && y != "" && !IsDigit(y[0])
  {
    assert !IsSpace(':');
    SpacesGone(gap, ":" + rest);
    assert gap == "" ==> gap + (":" + rest) == ":" + rest;
  }

  lemma NumberFirst(s: string) returns (number: string)
    ensures IsNumber(number) && s == number + DropNumber(s)
  {
    var gap := SpacesFirst(s);
    var t := DropSpaces(s);
    if |t| < |s| && DigitRun(t) > 0 {
      var digits := t[..DigitRun(t)];
      number := gap + digits;
      assert IsNumber(number) by {
        assert gap != "" && digits != "" && AreDigits(digits);
      }
      assert t == digits + t[DigitRun(t)..];
    } else {
      number := "";
    }
  }

  lemma MajorIff(s: string)
    ensures AfterNumberedMajor(s).Some? <==> StartsMajor(s)
  {
    hide IsLabel, IsNumber, DropNumber, StartsWithFold;
    if word, number, gap, rest :|
      IsLabel(word, "major") && IsNumber(number) && AreSpaces(gap) && s == word + (number + (gap + (":" + rest)))
    {
      LabelStarts(word, number + (gap + (":" + rest)), "major");
      ColonStarts(gap, rest);
      NumberGone(number, gap + (":" + rest));
    }
    if AfterNumberedMajor(s).Some? {
      StartIsLabel(s, "major");
      var word := s[..5];
      var number := NumberFirst(s[5..]);
      var v := DropNumber(s[5..]);
      var gap := SpacesFirst(v);
      var t := DropSpaces(v);
      assert t == ":" + t[1..];
      assert s == word + s[5..];
    }
  }

  // ---------------------------------------------------------------- where a value ends

  predicate IsHeaderLabel(name: string) {
    || name == "student" || name == "effective date" || name == "course" || name == "instance" || name == "campus"
    || name == "delivery" || name == "status" || name == "second major" || name == "note" || name == "notes"
    || name == "supervisor" || name == "honours gpa" || name == "gpa" || name == "wam"
  }

  ghost predicate StartsHeader(s: string) {
    StartsMajor(s) || exists name :: IsHeaderLabel(name) && StartsLabelled(s, name)
  }

  lemma HeaderIff(s: string)
    ensures IsFlatLabel(s) <==> StartsHeader(s)
  {
    hide AfterColon, AfterNumberedMajor, StartsLabelled, StartsMajor;
    MajorIff(s);
    forall name: string ensures AfterColon(s, name).Some? <==> StartsLabelled(s, name) {
      ColonIff(s, name);
    }
    if name :| IsHeaderLabel(name) && StartsLabelled(s, name) {
      assert AfterColon(s, name).Some?;
    }
    if IsFlatLabel(s) && !StartsMajor(s) {
      LabelOf(s);
    }
  }

  lemma LabelOf(s: string)
    requires IsFlatLabel(s) && AfterNumberedMajor(s).None?
    ensures exists name :: IsHeaderLabel(name) && AfterColon(s, name).Some?
  {
    hide AfterColon, AfterNumberedMajor;
    ByName(s, "student");
    ByName(s, "effective date");
    ByName(s, "course");
    ByName(s, "instance");
    ByName(s, "campus");
    ByName(s, "delivery");
    ByName(s, "status");
    ByName(s, "second major");
    ByName(s, "note");
    ByName(s, "notes");
    ByName(s, "supervisor");
    ByName(s, "honours gpa");
    ByName(s, "gpa");
    ByName(s, "wam");
  }

  lemma ByName(s: string, name: string)
    requires IsHeaderLabel(name)
    ensures AfterColon(s, name).Some? ==> exists other :: IsHeaderLabel(other) && AfterColon(s, other).Some?
  {
  }

  // "Year" and "session" with white space between, the last as a whole word.
  ghost predicate StartsHeadings(s: string) {
    exists year, gap, session, rest ::
      && IsLabel(year, "year") && gap != "" && AreSpaces(gap) && IsLabel(session, "session") && EndsWord(rest)
      && s == year + (gap + (session + rest))
  }

  lemma SessionStarts(session: string)
    requires IsLabel(session, "session")
    ensures |session| == 7 && !IsSpace(session[0])
  {
    assert |"session"| == 7 && "session"[0] == 's';
    assert Lower(session)[0] == LowerChar(session[0]);
  }

  lemma HeadingsIff(s: string)
    ensures IsColumnHeadings(s) <==> StartsHeadings(s)
  {
    hide IsLabel, StartsWithFold;
    if year, gap, session, rest :|
      && IsLabel(year, "year") && gap != "" && AreSpaces(gap) && IsLabel(session, "session") && EndsWord(rest)
      && s == year + (gap + (session + rest))
    {
      SessionStarts(session);
      LabelStarts(year, gap + (session + rest), "year");
      SpacesGone(gap, session + rest);
      LabelStarts(session, rest, "session");
      assert (session + rest)[7..] == rest;
    }
    if IsColumnHeadings(s) {
      StartIsLabel(s, "year");
      var gap := SpacesFirst(s[4..]);
      var t := DropSpaces(s[4..]);
      StartIsLabel(t, "session");
      assert t == t[..7] + t[7..];
      assert s == s[..4] + s[4..];
      assert EndsWord(t[7..]);
    }
  }

  // A year from 1900 to 2099, and white space.
  ghost predicate StartsYear(s: string) {
    exists year, space, rest :: IsYear(year) && IsSpace(space) && s == year + ([space] + rest)
  }

  lemma YearIff(s: string)
    ensures IsYearThenSpace(s) <==> StartsYear(s)
  {
    if year, space, rest :| IsYear(year) && IsSpace(space) && s == year + ([space] + rest) {
      assert s[4] == space;
    }
    if IsYearThenSpace(s) {
      var year, space, rest := s[..4], s[4], s[5..];
      assert s == year + ([space] + rest);
      assert IsYear(year);
    }
  }

  // White space to the end of the text, or white space and then a label, the column headings or a year.
  ghost predicate IsEnd(s: string) {
    || AreSpaces(s)
    || exists gap, t :: gap != "" && AreSpaces(gap) && s == gap + t && (StartsHeader(t) || StartsHeadings(t) || StartsYear(t))
  }

  lemma NoSpaceStarts(t: string)
    requires IsFlatLabel(t) || IsColumnHeadings(t) || IsYearThenSpace(t)
    ensures t != "" && !IsSpace(t[0])
  {
    if IsColumnHeadings(t) {
      assert LowerChar(t[0]) == "year"[0];
    } else if IsFlatLabel(t) {
      LabelStartsWord(t);
    }
  }

  lemma LabelStartsWord(t: string)
    requires IsFlatLabel(t)
    ensures t != "" && !IsSpace(t[0])
  {
    if AfterNumberedMajor(t).Some? {
      assert LowerChar(t[0]) == "major"[0];
    } else {
      LabelOf(t);
      var name :| IsHeaderLabel(name) && AfterColon(t, name).Some?;
      NameStarts(name);
      assert LowerChar(t[0]) == name[0];
    }
  }

  lemma NameStarts(name: string)
    requires IsHeaderLabel(name)
    ensures name != "" && 'a' <= name[0] <= 'z'
  {
  }

  lemma EndIff(s: string)
    ensures AtValueEnd(s) <==> IsEnd(s)
  {
    hide IsFlatLabel, IsColumnHeadings, IsYearThenSpace, StartsHeader, StartsHeadings, StartsYear;
    var t := DropSpaces(s);
    var gap := SpacesFirst(s);
    HeaderIff(t);
    HeadingsIff(t);
    YearIff(t);
    if IsEnd(s) && !AreSpaces(s) {
      var g, u :| g != "" && AreSpaces(g) && s == g + u && (StartsHeader(u) || StartsHeadings(u) || StartsYear(u));
      HeaderIff(u);
      HeadingsIff(u);
      YearIff(u);
      NoSpaceStarts(u);
      SpacesGone(g, u);
    }
    if AreSpaces(s) {
      SpacesGone(s, "");
      assert s + "" == s;
    }
    if t == "" {
      assert s == gap;
    }
  }

  // ---------------------------------------------------------------- the course

  // The label, a colon, and a number of three or four digits.
  ghost predicate CourseHere(s: string, code: string) {
    IsCourseCode(code) && exists word, gap, space, rest ::
      AreSpaces(space) && EndsWord(rest) && IsColoned(s, "course", word, gap, space + (code + rest))
  }

  function CourseRead(s: string): Option<string> {
    var value := AfterColon(s, "course");
    if value.Some? then CourseIn(value.value) else None
  }

  lemma CodeIsRead(code: string, rest: string)
    requires IsCourseCode(code) && EndsWord(rest)
    ensures CourseIn(code + rest) == Some(code) && !IsSpace((code + rest)[0])
  {
    DigitRunIs(code + rest, |code|);
    assert (code + rest)[..|code|] == code;
    assert IsDigit(code[0]);
  }

  lemma ReadIsCode(v: string, code: string) returns (rest: string)
    requires CourseIn(v) == Some(code)
    ensures IsCourseCode(code) && EndsWord(rest) && v == code + rest
  {
    rest := v[|code|..];
  }

  lemma CourseHereIff(s: string, code: string)
    ensures CourseHere(s, code) <==> CourseRead(s) == Some(code)
  {
    hide AfterColon, IsColoned, CourseIn, IsCourseCode, EndsWord, DropSpaces, AreSpaces;
    if CourseHere(s, code) {
      var word, gap, space, rest :|
        AreSpaces(space) && EndsWord(rest) && IsColoned(s, "course", word, gap, space + (code + rest));
      CodeIsRead(code, rest);
      ColonIsRead(s, "course", word, gap, space + (code + rest));
      SpacesGone(space, code + rest);
    }
    if CourseRead(s) == Some(code) {
      var word, gap, more := ReadIsColoned(s, "course");
      var space := SpacesFirst(more);
      var rest := ReadIsCode(DropSpaces(more), code);
    }
  }

  // At a position that starts a word.
  ghost predicate CourseAt(text: string, p: nat, code: string)
    requires p <= |text|
  {
    EndsWordBefore(text, p) && CourseHere(text[p..], code)
  }

  predicate EndsWordBefore(text: string, p: nat)
    requires p <= |text|
  {
    p == 0 || !IsWord(text[p - 1])
  }

  ghost predicate IsFirstCourse(text: string, from: nat, code: string) {
    exists p: nat :: from <= p < |text| && CourseAt(text, p, code) && forall q: nat, c :: from <= q < p ==> !CourseAt(text, q, c)
  }

  // The course of a paste is the first that stands behind its label.
  lemma {:induction false} CourseFrom(text: string, at: nat, code: string)
    requires at <= |text|
    ensures FlatCourse(text, at) == Some(code) <==> IsFirstCourse(text, at, code)
    decreases |text| - at
  {
    hide CourseHere, AfterColon, CourseIn, AtBoundary;
    if at < |text| {
      CourseFrom(text, at + 1, code);
      forall c ensures CourseHere(text[at..], c) <==> CourseRead(text[at..]) == Some(c) {
        CourseHereIff(text[at..], c);
      }
      assert AtBoundary(text, at) <==> EndsWordBefore(text, at) by {
        SameBoundary(text, at);
      }
      if EndsWordBefore(text, at) && CourseRead(text[at..]).Some? {
        assert CourseAt(text, at, CourseRead(text[at..]).value);
      }
    }
  }

  lemma SameBoundary(text: string, p: nat)
    requires p <= |text|
    ensures AtBoundary(text, p) <==> EndsWordBefore(text, p)
  {
  }

  // ---------------------------------------------------------------- campus and majors

  predicate IsCampusShape(campus: string) {
    1 <= |campus| <= 41 && IsLetter(campus[0]) && forall k :: 0 <= k < |campus| ==> IsLetter(campus[k]) || campus[k] == ' '
  }

  predicate IsMajorShape(major: string) {
    && 1 <= |major| <= 61 && IsLetter(major[0])
    && forall k :: 0 <= k < |major| ==> IsLetter(major[k]) || IsDigit(major[k]) || major[k] in {' ', '&', '-'}
  }

  // The value ends here, and at no earlier place.
  ghost predicate EndsFirst(value: string, rest: string) {
    IsEnd(rest) && forall n: nat :: 1 <= n < |value| ==> !IsEnd(value[n..] + rest)
  }

  lemma {:induction false} CampusValueIs(s: string, k: nat)
    requires 0 < k <= |s| && IsCampusValue(s[..k])
    requires forall n: nat :: 1 <= n < k ==> !IsEnd(s[n..])
    ensures var r := CampusValue(s, k, 41);
      r.Some? ==> r.value <= s && |r.value| <= 41 && EndsFirst(r.value, s[|r.value|..])
    decreases |s| - k
  {
    hide AtValueEnd, IsEnd, IsCampusValue, IsCampusLetter;
    EndIff(s[k..]);
    if k <= 41 {
      if IsEnd(s[k..]) {
        forall n: nat | 1 <= n < k ensures !IsEnd(s[..k][n..] + s[k..]) {
          assert s[..k][n..] + s[k..] == s[n..];
        }
      } else if k < |s| && IsCampusLetter(s[k]) {
        CampusValueGrows(s, k);
        CampusValueIs(s, k + 1);
      }
    }
  }

  lemma {:induction false} CampusValueFinds(s: string, k: nat, campus: string)
    requires 0 < k <= |campus| <= 41 && campus <= s && IsCampusValue(campus) && EndsFirst(campus, s[|campus|..])
    requires IsCampusValue(s[..k])
    ensures CampusValue(s, k, 41) == Some(campus)
    decreases |s| - k
  {
    hide AtValueEnd, IsEnd, IsCampusLetter;
    EndIff(s[k..]);
    assert campus[k..] + s[|campus|..] == s[k..];
    if k < |campus| {
      assert IsCampusLetter(campus[k]);
      CampusValueGrows(s, k);
      CampusValueFinds(s, k + 1, campus);
    } else {
      assert s[..k] == campus;
    }
  }

  // The label, a colon and the campus, up to the first place where a value ends.
  ghost predicate CampusHere(s: string, campus: string) {
    IsCampusShape(campus) && exists word, gap, space, rest ::
      AreSpaces(space) && EndsFirst(campus, rest) && IsColoned(s, "campus", word, gap, space + (campus + rest))
  }

  lemma CampusShapeIs(campus: string)
    ensures IsCampusShape(campus) <==> 1 <= |campus| <= 41 && IsLetter(campus[0]) && IsCampusValue(campus)
  {
  }

  lemma CampusHereIff(s: string, campus: string)
    ensures CampusHere(s, campus) <==> CampusAt(s) == Some(campus)
  {
    hide AfterColon, IsColoned, EndsFirst, IsCampusShape, CampusValue, IsCampusValue;
    CampusShapeIs(campus);
    if CampusHere(s, campus) {
      var word, gap, space, rest :|
        AreSpaces(space) && EndsFirst(campus, rest) && IsColoned(s, "campus", word, gap, space + (campus + rest));
      var v := campus + rest;
      ColonIsRead(s, "campus", word, gap, space + v);
      assert !IsSpace(campus[0]);
      SpacesGone(space, v);
      assert v[|campus|..] == rest;
      OneLetter(v);
      CampusValueFinds(v, 1, campus);
    }
    if CampusAt(s) == Some(campus) {
      var word, gap, more := ReadIsColoned(s, "campus");
      var space := SpacesFirst(more);
      var v := DropSpaces(more);
      OneLetter(v);
      CampusValueIs(v, 1);
      assert v == campus + v[|campus|..];
    }
  }

  lemma OneLetter(v: string)
    requires v != "" && IsLetter(v[0])
    ensures IsCampusValue(v[..1])
  {
  }

  ghost predicate CampusFound(text: string, p: nat, campus: string)
    requires p <= |text|
  {
    EndsWordBefore(text, p) && CampusHere(text[p..], campus)
  }

  ghost predicate IsFirstCampus(text: string, from: nat, campus: string) {
    exists p: nat, value :: from <= p < |text| && CampusFound(text, p, value) && campus == Trim(value) &&
      forall q: nat, c :: from <= q < p ==> !CampusFound(text, q, c)
  }

  // The campus of a paste is the first that stands behind its label.
  lemma {:induction false} CampusFrom(text: string, at: nat, campus: string)
    requires at <= |text|
    ensures FlatCampus(text, at) == Some(campus) <==> IsFirstCampus(text, at, campus)
    decreases |text| - at
  {
    hide CampusHere, EnrolmentFlat.CampusAt, AtBoundary, Trim;
    if at < |text| {
      CampusFrom(text, at + 1, campus);
      forall c ensures CampusHere(text[at..], c) <==> EnrolmentFlat.CampusAt(text[at..]) == Some(c) {
        CampusHereIff(text[at..], c);
      }
      SameBoundary(text, at);
      if EndsWordBefore(text, at) && EnrolmentFlat.CampusAt(text[at..]).Some? {
        assert CampusFound(text, at, EnrolmentFlat.CampusAt(text[at..]).value);
      }
    }
  }

  lemma {:induction false} MajorValueIs(s: string, k: nat)
    requires 0 < k <= |s| && IsLetter(s[0]) && (forall j :: 0 <= j < k ==> IsMajorChar(s[j]))
    requires forall n: nat :: 1 <= n < k ==> !IsEnd(s[n..])
    ensures var r := MajorValue(s, k, 61);
      r.Some? ==> r.value <= s && IsMajorShape(r.value) && EndsFirst(r.value, s[|r.value|..])
    decreases |s| - k
  {
    hide AtValueEnd, IsEnd, IsMajorChar, IsLetter;
    EndIff(s[k..]);
    if k <= 61 {
      if IsEnd(s[k..]) {
        forall n: nat | 1 <= n < k ensures !IsEnd(s[..k][n..] + s[k..]) {
          assert s[..k][n..] + s[k..] == s[n..];
        }
        MajorShapeIs(s[..k]);
      } else if k < |s| && IsMajorChar(s[k]) {
        MajorValueIs(s, k + 1);
      }
    }
  }

  lemma MajorShapeIs(major: string)
    ensures IsMajorShape(major) <==>
      1 <= |major| <= 61 && IsLetter(major[0]) && forall k :: 0 <= k < |major| ==> IsMajorChar(major[k])
  {
  }

  lemma {:induction false} MajorValueFinds(s: string, k: nat, major: string)
    requires 0 < k <= |major| <= 61 && major <= s && (forall j :: 0 <= j < |major| ==> IsMajorChar(major[j]))
    requires EndsFirst(major, s[|major|..])
    ensures MajorValue(s, k, 61) == Some(major)
    decreases |s| - k
  {
    hide AtValueEnd, IsEnd, IsMajorChar;
    EndIff(s[k..]);
    assert major[k..] + s[|major|..] == s[k..];
    if k < |major| {
      assert IsMajorChar(major[k]);
      MajorValueFinds(s, k + 1, major);
    } else {
      assert s[..k] == major;
    }
  }

  // Perhaps "second", the label, perhaps a number, a colon and the major, up to the first place where a value ends.
  ghost predicate MajorHere(s: string, major: string, rest: string) {
    IsMajorShape(major) && EndsFirst(major, rest) && exists ordinal, word, number, gap, space ::
      && IsOrdinal(ordinal) && IsLabel(word, "major") && IsNumber(number) && AreSpaces(gap) && AreSpaces(space)
      && s == ordinal + (word + (number + (gap + (":" + (space + (major + rest))))))
  }

  lemma MajorIsRead(ordinal: string, word: string, number: string, gap: string, rest: string)
    requires IsOrdinal(ordinal) && IsLabel(word, "major") && IsNumber(number) && AreSpaces(gap)
    ensures AfterMajor(ordinal + (word + (number + (gap + (":" + rest))))) == Some(DropSpaces(rest))
  {
    hide IsLabel, IsNumber, IsOrdinal, DropNumber, StartsWithFold, DropSecond, DropSpaces;
    var y := gap + (":" + rest);
    OrdinalGone(ordinal, word, number + y);
    LabelStarts(word, number + y, "major");
    ColonStarts(gap, rest);
    NumberGone(number, y);
    assert (":" + rest)[1..] == rest;
  }

  lemma ReadIsMajor(s: string) returns (ordinal: string, word: string, number: string, gap: string, rest: string)
    requires AfterMajor(s).Some?
    ensures IsOrdinal(ordinal) && IsLabel(word, "major") && IsNumber(number) && AreSpaces(gap)
    ensures s == ordinal + (word + (number + (gap + (":" + rest)))) && AfterMajor(s) == Some(DropSpaces(rest))
  {
    hide IsLabel, IsNumber, IsOrdinal, DropNumber, StartsWithFold, DropSecond;
    ordinal := OrdinalFirst(s);
    var u := DropSecond(s);
    StartIsLabel(u, "major");
    word := u[..5];
    number := NumberFirst(u[5..]);
    var v := DropNumber(u[5..]);
    gap := SpacesFirst(v);
    var t := DropSpaces(v);
    rest := t[1..];
    assert t == ":" + rest;
    assert u == word + u[5..];
  }

  lemma MajorHereIff(s: string, major: string, rest: string)
    ensures MajorHere(s, major, rest) <==> EnrolmentFlat.MajorAt(s) == Some((major, rest))
  {
    hide AfterMajor, EndsFirst, IsMajorShape, MajorValue, IsLabel, IsNumber, IsOrdinal, AreSpaces;
    MajorShapeIs(major);
    if MajorHere(s, major, rest) {
      var ordinal, word, number, gap, space :|
        && IsOrdinal(ordinal) && IsLabel(word, "major") && IsNumber(number) && AreSpaces(gap) && AreSpaces(space)
        && s == ordinal + (word + (number + (gap + (":" + (space + (major + rest))))));
      var v := major + rest;
      MajorIsRead(ordinal, word, number, gap, space + v);
      assert !IsSpace(major[0]);
      SpacesGone(space, v);
      assert v[|major|..] == rest;
      MajorValueFinds(v, 1, major);
    }
    if EnrolmentFlat.MajorAt(s) == Some((major, rest)) {
      var ordinal, word, number, gap, more := ReadIsMajor(s);
      var space := SpacesFirst(more);
      var v := DropSpaces(more);
      MajorValueIs(v, 1);
      assert v == major + rest;
    }
  }

  ghost predicate MajorFound(text: string, p: nat, major: string, rest: string)
    requires p <= |text|
  {
    EndsWordBefore(text, p) && MajorHere(text[p..], major, rest)
  }

  ghost predicate IsNextMajor(text: string, from: nat, p: nat, major: string, rest: string)
    requires from <= |text|
  {
    from <= p < |text| && MajorFound(text, p, major, rest) && forall q: nat, m, r :: from <= q < p ==> !MajorFound(text, q, m, r)
  }

  // Each major is the next one behind the end of the last, and none follows the last.
  ghost predicate AreMajors(text: string, from: nat, majors: seq<string>)
    requires from <= |text|
    decreases |majors|
  {
    if majors == [] then forall q: nat, m, r :: from <= q < |text| ==> !MajorFound(text, q, m, r)
    else exists p: nat, major, rest ::
      IsNextMajor(text, from, p, major, rest) && majors[0] == Trim(major) && |rest| <= |text| &&
      AreMajors(text, |text| - |rest|, majors[1..])
  }

  lemma MajorFoundIff(text: string, p: nat, major: string, rest: string)
    requires p < |text|
    ensures MajorFound(text, p, major, rest) <==>
      AtBoundary(text, p) && EnrolmentFlat.MajorAt(text[p..]) == Some((major, rest))
  {
    hide MajorHere, EnrolmentFlat.MajorAt;
    MajorHereIff(text[p..], major, rest);
  }

  lemma MajorsLater(text: string, at: nat, majors: seq<string>)
    requires at < |text| && (forall m, r :: !MajorFound(text, at, m, r)) && AreMajors(text, at + 1, majors)
    ensures AreMajors(text, at, majors)
  {
    hide MajorFound, Trim;
    if majors != [] {
      var p: nat, major, rest :|
        IsNextMajor(text, at + 1, p, major, rest) && majors[0] == Trim(major) && |rest| <= |text| &&
        AreMajors(text, |text| - |rest|, majors[1..]);
      assert IsNextMajor(text, at, p, major, rest);
    }
  }

  // The majors of a paste are all that stand behind their labels, in order.
  lemma {:induction false} MajorsFrom(text: string, at: nat)
    requires at <= |text|
    ensures AreMajors(text, at, FlatMajors(text, at))
    decreases |text| - at
  {
    hide MajorHere, EnrolmentFlat.MajorAt, AtBoundary, Trim, MajorFound, AreMajors;
    if at == |text| {
      NoMajorsLeft(text);
    } else {
      forall m, r ensures MajorFound(text, at, m, r) <==>
        AtBoundary(text, at) && EnrolmentFlat.MajorAt(text[at..]) == Some((m, r))
      {
        MajorFoundIff(text, at, m, r);
      }
      if AtBoundary(text, at) && EnrolmentFlat.MajorAt(text[at..]).Some? {
        var found := EnrolmentFlat.MajorAt(text[at..]).value;
        MajorsFrom(text, |text| - |found.1|);
        MajorFirst(text, at, found.0, found.1, FlatMajors(text, |text| - |found.1|));
      } else {
        MajorsFrom(text, at + 1);
        MajorsLater(text, at, FlatMajors(text, at + 1));
      }
    }
  }

  lemma NoMajorsLeft(text: string)
    ensures AreMajors(text, |text|, [])
  {
  }

  lemma MajorFirst(text: string, at: nat, major: string, rest: string, more: seq<string>)
    requires at < |text| && |rest| <= |text| && MajorFound(text, at, major, rest) && AreMajors(text, |text| - |rest|, more)
    ensures AreMajors(text, at, [Trim(major)] + more)
  {
    hide MajorFound, Trim;
    assert IsNextMajor(text, at, at, major, rest);
    assert ([Trim(major)] + more)[1..] == more;
  }

  // What the values are recorded as, those left out that are no major.
  function Recorded(values: seq<string>): seq<string> {
    if values == [] then []
    else
      Recorded(values[..|values| - 1])
      + (if MajorFrom(values[|values| - 1]).Some? then [MajorFrom(values[|values| - 1]).value] else [])
  }

  lemma {:induction false} AddsRecorded(h: Header, values: seq<string>)
    ensures AddMajors(h, values) == h.(majors := h.majors + Recorded(values))
  {
    hide MajorFrom;
    if values != [] {
      AddsRecorded(h, values[..|values| - 1]);
    }
  }

  // The header of a paste without table markup: the first course, the first campus, and every major that is one.
  lemma FlatHeaderIs(raw: string, keepMarks: bool)
    requires FlatRecord(raw, keepMarks).Ok?
    ensures var text, r := FlatText(raw), FlatRecord(raw, keepMarks).value;
      && (forall code :: r.course == Some(code) <==> IsFirstCourse(text, 0, code))
      && (forall campus :: r.campus == Some(campus) <==> IsFirstCampus(text, 0, campus))
      && exists values :: AreMajors(text, 0, values) && r.majors == Recorded(values)
  {
    hide FlatText, FindAll, IsReadable, RowsOf, FlatCourse, FlatCampus, FlatMajors, IsFirstCourse, IsFirstCampus, AreMajors, Recorded, AddMajors;
    var text := FlatText(raw);
    forall code ensures FlatCourse(text, 0) == Some(code) <==> IsFirstCourse(text, 0, code) {
      CourseFrom(text, 0, code);
    }
    forall campus ensures FlatCampus(text, 0) == Some(campus) <==> IsFirstCampus(text, 0, campus) {
      CampusFrom(text, 0, campus);
    }
    MajorsFrom(text, 0);
    AddsRecorded(Header(FlatCourse(text, 0), FlatCampus(text, 0), [], false), FlatMajors(text, 0));
  }
}
