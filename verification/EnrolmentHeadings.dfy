/**
 Heading rows: the printed headings introduce their tables.

 No printed row is mistaken for a heading: numbers, codes, grades and statuses are never column
 names, and the cells that are left are too few to name the columns that any table needs.
 Sessions, campuses and course names may be anything at all.
 */
module EnrolmentHeadings {
  import opened Text
  import opened Records
  import opened EnrolmentShapes
  import opened EnrolmentTable
  import opened EnrolmentPrinter
  import opened EnrolmentValues
  import opened EnrolmentReading

  // ---------------------------------------------------------------- normalised headings

  // No stars or pipes, and white space only as single inner spaces.
  predicate IsPlainText(s: string) {
    && '*' !in s && '|' !in s && IsTrimmed(s)
    && forall k :: 0 <= k < |s| && IsSpace(s[k]) ==> s[k] == ' ' && k + 1 < |s| && !IsSpace(s[k + 1])
  }

  lemma {:induction false} SqueezePlain(s: string)
    requires forall k :: 0 <= k < |s| && IsSpace(s[k]) ==> s[k] == ' ' && k + 1 < |s| && !IsSpace(s[k + 1])
    ensures Squeeze(s) == s
    decreases |s|
  {
    hide IsSpace;
    if s != "" {
      SqueezePlain(s[1..]);
      if IsSpace(s[0]) {
        assert s[1..][0] == s[1] && !IsSpace(s[1]);
        assert DropSpaces(s[1..]) == s[1..] by {
          SpacesKept(s[1..]);
        }
      }
      assert [s[0]] + s[1..] == s;
    }
  }

  lemma SpacesKept(s: string)
    requires s != "" && !IsSpace(s[0])
    ensures DropSpaces(s) == s
  {
  }

  lemma NormPlain(s: string)
    requires IsPlainText(s)
    ensures Norm(s) == Lower(s)
  {
    hide Strip, Squeeze, Lower;
    assert Remove(s, '*') == s;
    assert Trim(s) == s by {
      TrimKept(s);
    }
    SqueezePlain(s);
  }

  lemma TrimKept(s: string)
    requires IsTrimmed(s)
    ensures Trim(s) == s
  {
  }

  lemma {:induction false} SqueezeShortens(s: string)
    ensures |Squeeze(s)| <= |s|
    decreases |s|
  {
    if s != "" {
      SqueezeShortens(if IsSpace(s[0]) then DropSpaces(s[1..]) else s[1..]);
    }
  }

  lemma {:induction false} RemoveShortens(s: string, c: char)
    ensures |Remove(s, c)| <= |s|
  {
    if s != "" {
      RemoveShortens(s[1..], c);
    }
  }

  lemma NormShortens(s: string)
    ensures |Norm(s)| <= |s|
  {
    hide Squeeze, Strip;
    RemoveShortens(s, '*');
    SqueezeShortens(Trim(Remove(s, '*')));
  }

  const ENROLMENT_COLUMNS := ["year", "session", "campus", "subject code", "nom cp", "grade", "status"]
  const SPECIFIED_COLUMNS := ["course", "subject code", "nom cp"]
  const UNSPECIFIED_COLUMNS := ["course", "level", "nom cp"]

  predicate IsPlainWord(s: string) {
    s != "" && forall c :: c in s ==> IsLetter(c) || c == '(' || c == ')'
  }

  lemma PlainWord(s: string)
    requires IsPlainWord(s)
    ensures IsPlainText(s)
  {
    assert forall k :: 0 <= k < |s| ==> s[k] in s;
  }

  lemma PlainPhrase(a: string, b: string)
    requires IsPlainText(a) && a != "" && IsPlainWord(b)
    ensures IsPlainText(a + " " + b)
  {
    var s := a + " " + b;
    assert forall k :: 0 <= k < |b| ==> b[k] in b;
    assert s[|a|] == ' ' && s[|a| + 1] == b[0];
    assert forall k :: |a| < k < |s| ==> s[k] == b[k - |a| - 1] && !IsSpace(s[k]);
    forall k | 0 <= k < |s| && IsSpace(s[k]) ensures s[k] == ' ' && k + 1 < |s| && !IsSpace(s[k + 1]) {
      if k < |a| {
        assert s[k] == a[k] && s[k + 1] == a[k + 1];
      }
    }
  }

  lemma NormHeading(s: string, norm: string)
    requires IsPlainText(s) && |s| == |norm| && forall k :: 0 <= k < |s| ==> LowerChar(s[k]) == norm[k]
    ensures Norm(s) == norm
  {
    NormPlain(s);
    hide Norm;
    assert Lower(s) == norm;
  }

  lemma NormWord(s: string, norm: string)
    requires IsPlainWord(s) && |s| == |norm| && forall k :: 0 <= k < |s| ==> LowerChar(s[k]) == norm[k]
    ensures Norm(s) == norm
  {
    hide Norm, IsPlainText, IsPlainWord;
    PlainWord(s);
    NormHeading(s, norm);
  }

  lemma NormWords()
    ensures Norm("Year") == "year" && Norm("Session") == "session" && Norm("Campus") == "campus"
    ensures Norm("Grade") == "grade" && Norm("Status") == "status"
    ensures Norm("Course") == "course" && Norm("Level") == "level"
  {
    hide Norm;
    NormWord("Year", "year");
    NormWord("Session", "session");
    NormWord("Campus", "campus");
    NormWord("Grade", "grade");
    NormWord("Status", "status");
    NormWord("Course", "course");
    NormWord("Level", "level");
  }

  lemma NormPhrases()
    ensures Norm("Subject Code") == "subject code" && Norm("Nom CP") == "nom cp"
  {
    hide Norm, IsPlainText;
    PlainWord("Subject");
    PlainPhrase("Subject", "Code");
    assert "Subject" + " " + "Code" == "Subject Code";
    NormHeading("Subject Code", "subject code");
    PlainWord("Nom");
    PlainPhrase("Nom", "CP");
    assert "Nom" + " " + "CP" == "Nom CP";
    NormHeading("Nom CP", "nom cp");
  }

  lemma HeadingsNormalise()
    ensures NormAll(ENROLMENT_HEADINGS) == ENROLMENT_COLUMNS
    ensures NormAll(SPECIFIED_HEADINGS) == SPECIFIED_COLUMNS
    ensures NormAll(UNSPECIFIED_HEADINGS) == UNSPECIFIED_COLUMNS
  {
    hide Norm;
    NormWords();
    NormPhrases();
  }

  lemma ColumnsClassify()
    ensures Classify(ENROLMENT_COLUMNS) == Some(Enrolment)
    ensures Classify(SPECIFIED_COLUMNS) == Some(Specified)
    ensures Classify(UNSPECIFIED_COLUMNS) == Some(Unspecified)
  {
    assert ENROLMENT_COLUMNS[0] == "year" && ENROLMENT_COLUMNS[3] == "subject code" && ENROLMENT_COLUMNS[6] == "status";
    assert SPECIFIED_COLUMNS[0] == "course" && SPECIFIED_COLUMNS[1] == "subject code" && SPECIFIED_COLUMNS[2] == "nom cp";
    assert UNSPECIFIED_COLUMNS[0] == "course" && UNSPECIFIED_COLUMNS[1] == "level" && UNSPECIFIED_COLUMNS[2] == "nom cp";
    NotAColumn("year");
    NotAColumn("subject code");
  }

  lemma NotAColumn(name: string)
    ensures name == "year" ==> name !in SPECIFIED_COLUMNS && name !in UNSPECIFIED_COLUMNS
    ensures name == "subject code" ==> name !in UNSPECIFIED_COLUMNS
  {
    assert "year"[0] == 'y' && "course"[0] == 'c' && "subject code"[0] == 's' && "nom cp"[0] == 'n' && "level"[0] == 'l';
  }

  // ---------------------------------------------------------------- rows are not headings

  predicate IsName(s: string) {
    s == "year" || s == "subject code" || s == "status" || s == "course" || s == "nom cp" || s == "level"
  }

  // With at most two cells that could be names, a row is no heading.
  lemma TwoNamesAreTooFew(headings: seq<string>, a: int, b: int)
    requires forall i :: 0 <= i < |headings| && IsName(headings[i]) ==> i == a || i == b
    ensures Classify(headings).None?
  {
    if Classify(headings).Some? {
      if "year" in headings && "subject code" in headings && "status" in headings {
        ThreeNames(headings, a, b, "year", "subject code", "status");
      } else if "course" in headings && "subject code" in headings && "nom cp" in headings {
        ThreeNames(headings, a, b, "course", "subject code", "nom cp");
      } else {
        ThreeNames(headings, a, b, "course", "level", "nom cp");
      }
    }
  }

  lemma ThreeNames(headings: seq<string>, a: int, b: int, x: string, y: string, z: string)
    requires forall i :: 0 <= i < |headings| && IsName(headings[i]) ==> i == a || i == b
    requires IsName(x) && IsName(y) && IsName(z) && x in headings && y in headings && z in headings
    ensures x == y || x == z || y == z
  {
    hide IsName;
    var i :| 0 <= i < |headings| && headings[i] == x;
    var j :| 0 <= j < |headings| && headings[j] == y;
    var k :| 0 <= k < |headings| && headings[k] == z;
  }

  // Names have no digits.
  lemma DigitIsNoName(s: string, k: nat)
    requires k < |s| && IsDigit(s[k])
    ensures !IsName(s)
  {
    assert forall c :: c in "year" ==> !IsDigit(c);
    assert forall c :: c in "subject code" ==> !IsDigit(c);
    assert forall c :: c in "status" ==> !IsDigit(c);
    assert forall c :: c in "course" ==> !IsDigit(c);
    assert forall c :: c in "nom cp" ==> !IsDigit(c);
    assert forall c :: c in "level" ==> !IsDigit(c);
    assert s[k] in s;
  }

  lemma NumberIsNoName(n: int)
    ensures !IsName(Norm(IntText(n))) && !IsDashes(IntText(n)) && IsCell(IntText(n))
  {
    hide Norm, IsName, Decimal;
    var s := IntText(n);
    var digits := Decimal(if n < 0 then -n else n);
    assert s[|s| - 1] == digits[|digits| - 1] && IsDigit(s[|s| - 1]);
    assert forall k :: 0 <= k < |s| ==> IsDigit(s[k]) || s[k] == '-';
    NumberIsPlain(s);
    DigitIsNoName(Norm(s), |s| - 1);
  }

  lemma NumberIsPlain(s: string)
    requires s != "" && IsDigit(s[|s| - 1]) && forall k :: 0 <= k < |s| ==> IsDigit(s[k]) || s[k] == '-'
    ensures Norm(s) == Lower(s) && IsDigit(Lower(s)[|s| - 1]) && IsCell(s) && !IsDashes(s)
  {
    hide Norm;
    NormPlain(s);
  }

  lemma CodeIsNoName(code: string)
    requires code == "" || IsSubjectCode(code)
    ensures !IsName(Norm(code))
  {
    hide Norm, IsName;
    if code == "" {
      NormShortens(code);
      ShortIsNoName(Norm(code));
    } else {
      var n: nat :| 2 <= n <= 4 && IsCodeOf(code, n);
      CodeIsPlain(code, n);
      DigitIsNoName(Norm(code), n);
    }
  }

  lemma CodeIsPlain(code: string, n: nat)
    requires 2 <= n <= 4 && IsCodeOf(code, n)
    ensures Norm(code) == Lower(code) && IsDigit(Lower(code)[n])
  {
    hide Norm;
    assert forall k :: 0 <= k < |code| ==> IsUpper(code[k]) || IsDigit(code[k]);
    NormPlain(code);
  }

  lemma ShortIsNoName(s: string)
    requires |s| <= 3
    ensures !IsName(s)
  {
  }

  lemma GradeIsNoName(grade: string)
    requires grade == "" || IsGrade(grade)
    ensures !IsName(Norm(grade)) && |grade| <= 3
  {
    hide Norm, IsName;
    NormShortens(grade);
    ShortIsNoName(Norm(grade));
  }

  // A status of one or more plain words.
  lemma StatusIsPlain(status: string)
    requires IsStatus(status)
    ensures IsPlainText(status)
  {
    hide IsPlainText, IsPlainWord;
    PlainWords();
    PlainPairs();
    PlainLeave();
    PlainNotCounted();
  }

  lemma PlainWords()
    ensures IsPlainText("Complete") && IsPlainText("Enrolled") && IsPlainText("Withdrawn") && IsPlainText("Withheld")
    ensures IsPlainText("Failed") && IsPlainText("Provisional") && IsPlainText("Approved")
  {
    hide IsPlainText;
    PlainWord("Complete");
    PlainWord("Enrolled");
    PlainWord("Withdrawn");
    PlainWord("Withheld");
    PlainWord("Failed");
    PlainWord("Provisional");
    PlainWord("Approved");
  }

  lemma PlainPairs()
    ensures IsPlainText("Approved Withdrawal") && IsPlainText("Withheld Deferred") && IsPlainText("Withheld Supplementary")
  {
    hide IsPlainText;
    PlainWords();
    PlainPhrase("Approved", "Withdrawal");
    PlainPhrase("Withheld", "Deferred");
    PlainPhrase("Withheld", "Supplementary");
    assert "Approved" + " " + "Withdrawal" == "Approved Withdrawal";
    assert "Withheld" + " " + "Deferred" == "Withheld Deferred";
    assert "Withheld" + " " + "Supplementary" == "Withheld Supplementary";
  }

  lemma PlainThree(a: string, b: string, c: string)
    requires IsPlainWord(a) && IsPlainWord(b) && IsPlainWord(c)
    ensures IsPlainText(a + " " + b + " " + c)
  {
    hide IsPlainText, IsPlainWord;
    PlainWord(a);
    WordIsNotEmpty(a);
    PlainPhrase(a, b);
    PlainPhrase(a + " " + b, c);
  }

  lemma WordIsNotEmpty(s: string)
    requires IsPlainWord(s)
    ensures s != ""
  {
  }

  lemma PlainLeave()
    ensures IsPlainText("Leave of Absence")
  {
    hide IsPlainText;
    PlainThree("Leave", "of", "Absence");
    assert "Leave" + " " + "of" + " " + "Absence" == "Leave of Absence";
  }

  lemma PlainNotCounted()
    ensures IsPlainText("Not Counted (Prior Course)")
  {
    hide IsPlainText;
    PlainThree("Not", "Counted", "(Prior");
    PlainPhrase("Not" + " " + "Counted" + " " + "(Prior", "Course)");
    NotCountedText();
  }

  lemma NotCountedText()
    ensures "Not" + " " + "Counted" + " " + "(Prior" + " " + "Course)" == "Not Counted (Prior Course)"
  {
  }

  // The first letter and the length of a status tell it from every name.
  lemma StatusShape(status: string)
    requires IsStatus(status)
    ensures |status| >= 6 && |status| != 12
    ensures |status| == 6 ==> status[0] == 'F'
  {
  }

  lemma StatusIsNoName(status: string)
    requires IsStatus(status)
    ensures !IsName(Norm(status))
  {
    hide Norm, IsStatus;
    StatusIsPlain(status);
    NormPlain(status);
    StatusShape(status);
    NameShape(Lower(status));
  }

  lemma NameShape(s: string)
    requires |s| >= 6 && |s| != 12 && (|s| == 6 ==> s[0] == 'f')
    ensures !IsName(s)
  {
    assert "status"[0] == 's' && "course"[0] == 'c' && "nom cp"[0] == 'n';
  }
}
