/**
 How the leaf recognisers read printed leaves and lists of codes.

 A code is found where it stands and no threshold is read into it; a threshold is found whole and
 no code is read into it; and the exact reading of every threshold decides which of them are read
 as they were meant.
 */
module RequirementReading {
  import opened Text
  import opened PrerequisiteParser
  import opened RequirementLeaves
  import opened RequirementEvaluator
  import opened RequirementLaws
  import opened RequirementTrees

  // ---------------------------------------------------------------- subject codes

  lemma CodeChars(c: string)
    requires IsCode(c)
    ensures |c| >= 5 && forall k :: 0 <= k < |c| ==> IsLetter(c[k]) || IsDigit(c[k])
    ensures IsLetter(c[0]) && IsDigit(c[|c| - 1])
  {
  }

  lemma {:induction false} NothingRemoved(s: string, c: char)
    requires c !in s
    ensures Remove(s, c) == s
  {
    if s != "" {
      NothingRemoved(s[1..], c);
    }
  }

  lemma CodeIsNormal(code: string)
    requires IsCode(code)
    ensures NormalizeCode(code) == code
  {
    hide Remove;
    assert Upper(code) == code;
    NothingRemoved(code, ' ');
  }

  lemma CodeIsSolid(c: string, sep: string)
    requires IsCode(c) && IsSeparator(sep)
    ensures Solid(c, sep)
  {
    hide IsCode, Passes;
    CodeChars(c);
    forall tail | Continues(tail) ensures Passes(c, tail, sep, 0, 0) {
      PassesSepFree(c, tail, sep, 0);
    }
  }

  lemma CodeLengthOfCode(c: string, rest: string)
    requires IsCode(c) && (rest == "" || !IsWord(rest[0]))
    ensures CodeLength(c + rest) == |c|
  {
    var n := LetterRun(c);
    LetterRunIs(c + rest, n);
    assert (c + rest)[n..] == c[n..] + rest;
    DigitRunIs(c[n..] + rest, |c| - n);
  }

  lemma CodeFound(c: string, rest: string)
    requires IsCode(c) && (rest == "" || !IsWord(rest[0]))
    ensures FindCodes(false, c + rest) == [c] + FindCodes(true, rest)
  {
    CodeLengthOfCode(c, rest);
    hide CodeLength;
    assert (c + rest)[..|c|] == c && (c + rest)[|c|..] == rest;
  }

  // What can follow a code in a printed list or at the end of a group.
  predicate AfterCode(rest: string) {
    rest == "" || rest[0] in {')', ',', '/', '+'} || (|rest| >= 2 && rest[0] == ' ' && rest[1] in {'a', 'p', '+'})
  }

  lemma NoThresholdAtLetter(u: string, n: nat)
    requires 0 < n < 7 && n < |u| && IsLetter(u[0]) && IsDigit(u[n])
    ensures ThresholdAt(u).None?
  {
    assert forall ch :: ch in "another" ==> !IsDigit(ch);
    assert "another"[n] in "another";
    assert LowerChar(u[n]) == u[n];
    assert DigitRun(u) == 0;
  }

  lemma NoNumberBeforeAnd(u: string, d: nat)
    requires 0 < d <= |u| && (forall k :: 0 <= k < d ==> IsDigit(u[k])) && AfterCode(u[d..])
    ensures NumberAt(u, false).None?
  {
    DigitRunIs(u, d);
    var rest := u[d..];
    assert SpaceRun(rest) <= 1;
    assert u[d + SpaceRun(rest)..] == rest[SpaceRun(rest)..];
    assert "cp"[0] == 'c' && "credit point"[0] == 'c';
  }

  lemma NoLevelBeforeAnd(u: string, d: nat)
    requires 0 < d <= |u| && (forall k :: 0 <= k < d ==> IsDigit(u[k])) && AfterCode(u[d..])
    ensures LevelAt(u).None?
  {
    var rest := u[d..];
    assert "level"[0] == 'l';
    if |u| >= 3 && '1' <= u[0] <= '3' && u[1] == '0' && u[2] == '0' {
      assert d >= 3;
      assert d > 3 ==> IsDigit(u[3..][0]);
      assert d == 3 ==> u[3..] == rest;
    }
  }

  lemma NoThresholdAtDigits(u: string, d: nat)
    requires 0 < d <= |u| && (forall k :: 0 <= k < d ==> IsDigit(u[k])) && AfterCode(u[d..])
    ensures ThresholdAt(u).None?
  {
    hide NumberAt, LevelAt;
    NoNumberBeforeAnd(u, d);
    NoLevelBeforeAnd(u, d);
    assert "another"[0] == 'a';
  }

  lemma NoThresholdInCode(c: string, k: nat, rest: string)
    requires IsCode(c) && k < |c| && AfterCode(rest)
    ensures ThresholdAt(c[k..] + rest).None?
  {
    hide ThresholdAt;
    var n := LetterRun(c);
    if k < n {
      NoThresholdAtLetter(c[k..] + rest, n - k);
    } else {
      assert (c[k..] + rest)[|c| - k..] == rest;
      NoThresholdAtDigits(c[k..] + rest, |c| - k);
    }
  }

  lemma {:induction false} ThresholdSkips(p: string, rest: string)
    requires forall k :: 0 <= k < |p| ==> ThresholdAt(p[k..] + rest).None?
    ensures FindThreshold(p + rest) == FindThreshold(rest)
    decreases |p|
  {
    hide ThresholdAt;
    if p == "" {
      assert p + rest == rest;
    } else {
      assert p[0..] == p;
      assert (p + rest)[1..] == p[1..] + rest;
      forall k | 0 <= k < |p[1..]| ensures ThresholdAt(p[1..][k..] + rest).None? {
        assert p[1..][k..] == p[k + 1..];
      }
      ThresholdSkips(p[1..], rest);
    }
  }

  // A threshold starts with a digit or with "another".
  lemma NoThresholdStarts(u: string)
    requires u != "" && !IsDigit(u[0]) && (u[0] in {'A', 'a'} ==> |u| > 2 && u[2] == 'd')
    ensures ThresholdAt(u).None?
  {
    assert "another"[0] == 'a' && "another"[2] == 'o';
    assert DigitRun(u) == 0;
    hide FirstLevel, HasNumber;
  }

  lemma NoThresholdInAnd(t: string)
    ensures FindThreshold(" and " + t) == FindThreshold(t)
  {
    hide FindThreshold, ThresholdAt;
    var p := " and ";
    forall k | 0 <= k < |p| ensures ThresholdAt(p[k..] + t).None? {
      var u := p[k..] + t;
      assert u[0] == p[k];
      assert k == 1 ==> u[2] == 'd';
      NoThresholdStarts(u);
    }
    ThresholdSkips(p, t);
  }

  lemma {:induction false} CodesListReading(codes: seq<string>)
    requires codes != [] && AllCodes(codes)
    ensures var text := Join(codes, " and ");
      && text != "" && IsLetter(text[0])
      && FindThreshold(text) == None
      && FindCodes(false, text) == codes
      && PlusFree(text)
  {
    hide IsCode, FindThreshold, FindCodes, HasWord;
    var c := codes[0];
    var rest := if |codes| == 1 then "" else " and " + Join(codes[1..], " and ");
    CodeChars(c);
    assert Join(codes, " and ") == c + rest;
    if |codes| > 1 {
      CodesListReading(codes[1..]);
      var t := Join(codes[1..], " and ");
      NoThresholdInAnd(t);
      NoCodeInAnd(t);
      StepOverAnd(true, t);
    } else {
      EmptyReadings();
    }
    forall k | 0 <= k < |c| ensures ThresholdAt(c[k..] + rest).None? {
      NoThresholdInCode(c, k, rest);
    }
    ThresholdSkips(c, rest);
    CodeFound(c, rest);
    CodeIsNotPlus(c, rest);
    assert codes == [c] + codes[1..];
  }

  lemma EmptyReadings()
    ensures FindThreshold("") == None && FindCodes(true, "") == [] && !HasWord(true, "", "plus")
  {
  }

  lemma NoCodeInAnd(t: string)
    requires t != "" && IsLetter(t[0])
    ensures FindCodes(true, " and " + t) == FindCodes(false, t)
  {
    hide CodeLength, FindCodes;
    var y := " " + t;
    var x := "and" + y;
    assert " and " + t == " " + x;
    AndIsNoCode(t);
    TailOf(" ", x);
    StepPastNoCode(true, " " + x);
    TailOf("and", y);
    StepPastNoCode(false, x);
    CodesInsideWord("nd", y);
    TailOf(" ", t);
    StepPastNoCode(true, y);
  }

  lemma TailOf(p: string, t: string)
    requires p != ""
    ensures (p + t)[0] == p[0] && (p + t)[1..] == p[1..] + t
    ensures |p| == 1 ==> (p + t)[1..] == t
  {
  }

  lemma AndIsNoCode(t: string)
    requires t != "" && IsLetter(t[0])
    ensures CodeLength("and" + (" " + t)) == 0
  {
    var x := "and" + (" " + t);
    LetterRunIs(x, 3);
    assert x[4..] == t;
  }

  lemma {:induction false} CodesInsideWord(w: string, rest: string)
    requires forall k :: 0 <= k < |w| ==> IsWord(w[k])
    ensures FindCodes(true, w + rest) == FindCodes(true, rest)
    decreases |w|
  {
    hide FindCodes;
    if w == "" {
      assert w + rest == rest;
    } else {
      StepPastNoCode(true, w + rest);
      assert (w + rest)[1..] == w[1..] + rest;
      CodesInsideWord(w[1..], rest);
    }
  }

  lemma StepPastNoCode(inWord: bool, s: string)
    requires s != "" && (inWord || CodeLength(s) == 0)
    ensures FindCodes(inWord, s) == FindCodes(IsWord(s[0]), s[1..])
  {
  }

  lemma CodeIsNotPlus(c: string, rest: string)
    requires IsCode(c) && (rest == "" || !IsWord(rest[0])) && !HasWord(true, rest, "plus")
    ensures !HasWord(false, c + rest, "plus")
  {
    var n := LetterRun(c);
    var s := c + rest;
    assert !WordHere(s, "plus") by {
      assert "plus"[3] == 's';
      assert LowerChar(s[n]) == s[n] && IsDigit(s[n]);
    }
    assert s[1..] == c[1..] + rest;
    InsideWord(c[1..], rest);
  }

  lemma {:induction false} InsideWord(w: string, rest: string)
    requires (forall k :: 0 <= k < |w| ==> IsWord(w[k])) && !HasWord(true, rest, "plus")
    ensures !HasWord(true, w + rest, "plus")
    decreases |w|
  {
    hide WordHere;
    if w == "" {
      assert w + rest == rest;
    } else {
      assert (w + rest)[1..] == w[1..] + rest;
      InsideWord(w[1..], rest);
    }
  }

  // ---------------------------------------------------------------- thresholds

  lemma {:induction false} NoDigitsNoCodes(inWord: bool, s: string)
    requires forall ch :: ch in s ==> !IsDigit(ch)
    ensures FindCodes(inWord, s) == []
    decreases |s|
  {
    if s != "" {
      assert CodeLength(s) == 0 by {
        NoDigitsNoCodeHere(s);
      }
      hide CodeLength;
      NoDigitsNoCodes(IsWord(s[0]), s[1..]);
    }
  }

  lemma NoDigitsNoCodeHere(s: string)
    requires forall ch :: ch in s ==> !IsDigit(ch)
    ensures CodeLength(s) == 0
  {
    if CodeLength(s) > 0 {
      var k := FirstDigitOfCode(s);
      assert false;
    }
  }

  // A code holds a digit.
  lemma FirstDigitOfCode(s: string) returns (k: nat)
    requires CodeLength(s) > 0
    ensures k < |s| && IsDigit(s[k]) && s[k] in s
  {
    var letters := LetterRun(s);
    k := if letters < |s| && IsSpace(s[letters]) then letters + 1 else letters;
    assert s[k..][0] == s[k];
  }

  lemma {:induction false} CodesAfterDigits(inWord: bool, digits: string, rest: string)
    requires digits != "" && forall k :: 0 <= k < |digits| ==> IsDigit(digits[k])
    ensures FindCodes(inWord, digits + rest) == FindCodes(true, rest)
    decreases |digits|
  {
    var s := digits + rest;
    assert s[1..] == digits[1..] + rest;
    assert LetterRun(s) == 0;
    hide FindCodes;
    StepPastNoCode(inWord, s);
    if |digits| > 1 {
      CodesAfterDigits(true, digits[1..], rest);
    } else {
      assert digits[1..] + rest == rest;
    }
  }

  predicate ThreeLetters(s: string, k: nat) {
    k + 2 < |s| && IsLetter(s[k]) && IsLetter(s[k + 1]) && IsLetter(s[k + 2])
  }

  lemma CodeStartsWithLetters(s: string)
    requires CodeLength(s) > 0
    ensures ThreeLetters(s, 0)
  {
  }

  // A code starts with three letters.
  lemma {:induction false} CodesSkip(inWord: bool, p: string, rest: string)
    requires forall k :: 0 <= k < |p| ==> !ThreeLetters(p + rest, k)
    ensures FindCodes(inWord, p + rest) == FindCodes(if p == "" then inWord else IsWord(p[|p| - 1]), rest)
    decreases |p|
  {
    hide FindCodes, CodeLength;
    var s := p + rest;
    if p == "" {
      assert s == rest;
    } else {
      if CodeLength(s) > 0 {
        CodeStartsWithLetters(s);
        assert false;
      }
      StepPastNoCode(inWord, s);
      assert s[1..] == p[1..] + rest;
      forall k | 0 <= k < |p[1..]| ensures !ThreeLetters(p[1..] + rest, k) {
        assert !ThreeLetters(s, k + 1);
      }
      CodesSkip(IsWord(p[0]), p[1..], rest);
      assert p[1..] == "" ==> p[|p| - 1] == p[0];
    }
  }

  lemma NoCodesInThreshold(minCp: nat, level: nat, subjects: Subjects)
    ensures FindCodes(false, PrintThreshold(minCp, level, subjects)) == []
  {
    hide FindCodes, LevelText, SubjectsText, Decimal;
    var end := " level" + SubjectsText(subjects);
    var w := LevelText(level) + end;
    LevelIsDigits(level);
    SuffixHasNoDigit(subjects);
    assert PrintThreshold(minCp, level, subjects) == Decimal(minCp) + ("cp at " + w);
    CodesAfterDigits(false, Decimal(minCp), "cp at " + w);
    NoCodeInCpAt(w);
    CodesAfterDigits(false, LevelText(level), end);
    NoDigitsNoCodes(true, end);
  }

  lemma LevelIsDigits(level: nat)
    ensures LevelText(level) != "" && forall k :: 0 <= k < |LevelText(level)| ==> IsDigit(LevelText(level)[k])
  {
  }

  lemma SuffixHasNoDigit(subjects: Subjects)
    ensures forall ch :: ch in " level" + SubjectsText(subjects) ==> !IsDigit(ch)
  {
    assert forall ch :: ch in " level" ==> !IsDigit(ch);
    assert forall ch :: ch in SubjectsText(subjects) ==> !IsDigit(ch);
  }

  lemma NoCodeInCpAt(w: string)
    ensures FindCodes(true, "cp at " + w) == FindCodes(false, w)
  {
    hide FindCodes;
    var s := "cp at " + w;
    assert s[2] == ' ' && s[5] == ' ';
    CodesSkip(true, "cp at ", w);
  }

  lemma LevelRead(level: nat, subjects: Subjects)
    requires level in {100, 200, 300}
    ensures LevelAt(LevelText(level) + " level" + SubjectsText(subjects)) == Some(Found(LevelText(level), 9))
  {
    var w := LevelText(level) + " level" + SubjectsText(subjects);
    assert w[..3] == LevelText(level);
    assert SpaceRun(w[3..]) == 1 by {
      assert w[3] == ' ' && w[4] == 'l';
    }
    assert SpaceRun(w[4..]) == 0;
    assert w[4..] == "level" + SubjectsText(subjects);
  }

  lemma {:induction false} LevelSkips(p: string, rest: string)
    requires forall ch :: ch in p ==> ch != '\n' && !IsDigit(ch)
    ensures FirstLevel(p + rest) == FirstLevel(rest)
    decreases |p|
  {
    if p == "" {
      assert p + rest == rest;
    } else {
      assert p[0] in p && forall ch :: ch in p[1..] ==> ch in p;
      assert (p + rest)[1..] == p[1..] + rest;
      LevelSkips(p[1..], rest);
    }
  }

  lemma NumberRead(minCp: nat, w: string)
    ensures NumberAt(Decimal(minCp) + ("cp" + w), false) == Some(Found(Decimal(minCp), |Decimal(minCp)| + 2))
  {
    var d := Decimal(minCp);
    var t := d + ("cp" + w);
    DigitRunIs(t, |d|);
    assert t[..|d|] == d && t[|d|..] == "cp" + w;
    assert SpaceRun("cp" + w) == 0;
    assert StartsWithFold("cp" + w, "cp");
  }

  lemma ThresholdReadBefore(minCp: nat, v: string)
    requires FirstLevel(v).Some?
    ensures FindThreshold(Decimal(minCp) + ("cp" + (" at " + v))) == Some(CountFirst(Decimal(minCp), FirstLevel(v).value))
  {
    hide FindThreshold, ThresholdAt, NumberAt, FirstLevel, Decimal;
    var d := Decimal(minCp);
    var w := " at " + v;
    LevelSkips(" at ", v);
    NumberRead(minCp, w);
    DropCount(d, w);
    ThresholdHere(d + ("cp" + w));
  }

  lemma DropCount(d: string, w: string)
    ensures (d + ("cp" + w))[|d| + 2..] == w
  {
  }

  lemma ThresholdRead(minCp: nat, level: nat, subjects: Subjects)
    requires level in {100, 200, 300}
    ensures FindThreshold(PrintThreshold(minCp, level, subjects)) == Some(CountFirst(Decimal(minCp), LevelText(level)))
  {
    hide FindThreshold, FirstLevel, Decimal;
    var v := LevelText(level) + " level" + SubjectsText(subjects);
    FirstLevelRead(level, subjects);
    ThresholdReadBefore(minCp, v);
    Regroup(Decimal(minCp), LevelText(level), " level", SubjectsText(subjects));
  }

  lemma Regroup(a: string, b: string, c: string, d: string)
    ensures a + "cp at " + b + c + d == a + ("cp" + (" at " + (b + c + d)))
  {
    assert "cp at " == "cp" + " at ";
  }

  lemma ThresholdHere(t: string)
    requires NumberAt(t, false).Some? && FirstLevel(t[NumberAt(t, false).value.end..]).Some?
    ensures FindThreshold(t) ==
      Some(CountFirst(NumberAt(t, false).value.text, FirstLevel(t[NumberAt(t, false).value.end..]).value))
  {
    hide NumberAt, FirstLevel, LevelAt, AnotherAt;
  }

  lemma FirstLevelRead(level: nat, subjects: Subjects)
    requires level in {100, 200, 300}
    ensures FirstLevel(LevelText(level) + " level" + SubjectsText(subjects)) == Some(LevelText(level))
  {
    LevelRead(level, subjects);
  }

  // ---------------------------------------------------------------- prefixes

  // A pattern whose second character does not occur in `base` is only found behind it.
  lemma {:induction false} ContainsBehind(base: string, suffix: string, pattern: string)
    requires |pattern| >= 2 && (forall ch :: ch in base ==> LowerChar(ch) != pattern[1])
    requires suffix == "" || LowerChar(suffix[0]) != pattern[1]
    ensures ContainsFold(base + suffix, pattern) <==> ContainsFold(suffix, pattern)
  {
    var s := base + suffix;
    hide StartsWithFold;
    if ContainsFold(s, pattern) {
      var k :| 0 <= k <= |s| && StartsWithFold(s[k..], pattern);
      NotInsideBase(base, suffix, pattern, k);
      assert s[k..] == suffix[k - |base|..];
    }
    if ContainsFold(suffix, pattern) {
      var k :| 0 <= k <= |suffix| && StartsWithFold(suffix[k..], pattern);
      assert s[k + |base|..] == suffix[k..];
    }
  }

  lemma NotInsideBase(base: string, suffix: string, pattern: string, k: nat)
    requires |pattern| >= 2 && (forall ch :: ch in base ==> LowerChar(ch) != pattern[1])
    requires suffix == "" || LowerChar(suffix[0]) != pattern[1]
    requires k <= |base + suffix| && StartsWithFold((base + suffix)[k..], pattern)
    ensures k >= |base|
  {
    var s := base + suffix;
    SecondChar(s[k..], pattern);
    assert s[k..][1] == s[k + 1];
    if k < |base| {
      assert false;
    }
  }

  lemma SecondChar(s: string, pattern: string)
    requires |pattern| >= 2 && StartsWithFold(s, pattern)
    ensures |s| >= 2 && LowerChar(s[1]) == pattern[1]
  {
  }

  lemma {:induction false} WordBehind(inWord: bool, base: string, suffix: string, w: string)
    requires |w| >= 2 && base != "" && (forall ch :: ch in base ==> LowerChar(ch) != w[1])
    requires suffix == "" || LowerChar(suffix[0]) != w[1]
    ensures HasWord(inWord, base + suffix, w) <==> HasWord(IsWord(base[|base| - 1]), suffix, w)
    decreases |base|
  {
    var s := base + suffix;
    assert s[1..] == base[1..] + suffix;
    if StartsWithFold(s, w) {
      SecondChar(s, w);
      assert false;
    }
    hide WordHere;
    if |base| > 1 {
      assert forall ch :: ch in base[1..] ==> ch in base;
      WordBehind(IsWord(base[0]), base[1..], suffix, w);
    } else {
      assert base[1..] + suffix == suffix;
    }
  }

  lemma LongerNotContained(s: string, pattern: string)
    requires |s| < |pattern|
    ensures !ContainsFold(s, pattern)
  {
  }

  lemma ContainedAt(s: string, k: nat, pattern: string)
    requires k <= |s| && StartsWithFold(s[k..], pattern)
    ensures ContainsFold(s, pattern)
  {
  }

  lemma InsideOneWord(w: string, pattern: string)
    requires forall k :: 0 <= k < |w| ==> IsWord(w[k])
    ensures !HasWord(true, w, pattern)
  {
  }

  // A suffix of one word holds that word and no other of the same length.
  lemma OneWordSuffix(suffix: string, name: string, w: string)
    requires |name| == |w| == 4 && (forall k :: 0 <= k < 4 ==> IsLetter(name[k]))
    requires suffix == " " + name
    ensures HasWord(true, suffix, w) <==> StartsWithFold(name, w)
  {
    assert suffix[1..] == name;
    assert HasWord(true, suffix, w) == HasWord(false, name, w);
    InsideOneWord(name[1..], w);
  }

  lemma LongPatterns(suffix: string)
    requires |suffix| <= 5
    ensures !ContainsFold(suffix, "csci/csit/isit") && !ContainsFold(suffix, "csci/csit") && !ContainsFold(suffix, "csci/isit")
  {
  }

  lemma PrefixesOfSuffix(subjects: Subjects)
    ensures var t := SubjectsText(subjects);
      && (subjects.AllComputing? <==> ContainsFold(t, "csci/csit/isit"))
      && (!subjects.AllComputing? ==> (subjects.CsciCsit? <==> ContainsFold(t, "csci/csit")))
      && (!subjects.AllComputing? && !subjects.CsciCsit? ==> (subjects.CsciIsit? <==> ContainsFold(t, "csci/isit")))
  {
    hide ContainsFold;
    var t := SubjectsText(subjects);
    match subjects
    case AllComputing => ThreeNamed();
    case CsciCsit =>
      LongerNotContained(t, "csci/csit/isit");
      CsitNamed();
    case CsciIsit =>
      LongerNotContained(t, "csci/csit/isit");
      NotCsit(t);
      IsitNamed();
    case _ =>
      LongPatterns(t);
  }

  lemma ThreeNamed()
    ensures ContainsFold(" CSCI/CSIT/ISIT", "csci/csit/isit")
  {
    var t := " CSCI/CSIT/ISIT";
    assert t[1..] == "CSCI/CSIT/ISIT";
    ContainedAt(t, 1, "csci/csit/isit");
  }

  lemma CsitNamed()
    ensures ContainsFold(" CSCI/CSIT", "csci/csit")
  {
    var t := " CSCI/CSIT";
    assert t[1..] == "CSCI/CSIT";
    ContainedAt(t, 1, "csci/csit");
  }

  lemma IsitNamed()
    ensures ContainsFold(" CSCI/ISIT", "csci/isit")
  {
    var t := " CSCI/ISIT";
    assert t[1..] == "CSCI/ISIT";
    ContainedAt(t, 1, "csci/isit");
  }

  lemma NotCsit(t: string)
    requires t == " CSCI/ISIT"
    ensures !ContainsFold(t, "csci/csit")
  {
    if ContainsFold(t, "csci/csit") {
      var k :| 0 <= k <= |t| && StartsWithFold(t[k..], "csci/csit");
      SixthChar(t[k..]);
      assert false;
    }
  }

  lemma SixthChar(s: string)
    requires StartsWithFold(s, "csci/csit")
    ensures |s| >= 9 && LowerChar(s[5]) == 'c' && LowerChar(s[0]) == 'c'
  {
    assert "csci/csit"[5] == 'c' && "csci/csit"[0] == 'c';
  }

  lemma WordsOfSuffix(subjects: Subjects)
    requires !subjects.AllComputing? && !subjects.CsciCsit? && !subjects.CsciIsit?
    ensures var t := SubjectsText(subjects);
      && (HasWord(true, t, "csci") <==> subjects.Csci?)
      && (HasWord(true, t, "csit") <==> subjects.Csit?)
      && (HasWord(true, t, "isit") <==> subjects.Isit?)
  {
    hide HasWord;
    match subjects
    case AnySubjects =>
      InsideOneWord("", "csci");
      InsideOneWord("", "csit");
      InsideOneWord("", "isit");
    case Csci =>
      assert " CSCI" == " " + "CSCI";
      OneWordFor("CSCI");
    case Csit =>
      assert " CSIT" == " " + "CSIT";
      OneWordFor("CSIT");
    case Isit =>
      assert " ISIT" == " " + "ISIT";
      OneWordFor("ISIT");
  }

  lemma OneWordFor(name: string)
    requires name in {"CSCI", "CSIT", "ISIT"}
    ensures HasWord(true, " " + name, "csci") <==> name == "CSCI"
    ensures HasWord(true, " " + name, "csit") <==> name == "CSIT"
    ensures HasWord(true, " " + name, "isit") <==> name == "ISIT"
  {
    hide HasWord;
    OneWordSuffix(" " + name, name, "csci");
    OneWordSuffix(" " + name, name, "csit");
    OneWordSuffix(" " + name, name, "isit");
  }

  lemma ThresholdBase(minCp: nat, level: nat)
    ensures var base := Decimal(minCp) + "cp at " + LevelText(level) + " level";
      && base != "" && IsWord(base[|base| - 1])
      && forall ch :: ch in base ==> LowerChar(ch) != 's'
  {
    var base := Decimal(minCp) + "cp at " + LevelText(level) + " level";
    assert base[|base| - 1] == 'l';
  }

  lemma PrefixesRead(minCp: nat, level: nat, subjects: Subjects)
    ensures Prefixes(PrintThreshold(minCp, level, subjects)) == SubjectPrefixes(subjects)
  {
    hide ContainsFold, HasWord, Decimal;
    var base := Decimal(minCp) + "cp at " + LevelText(level) + " level";
    var suffix := SubjectsText(subjects);
    ThresholdBase(minCp, level);
    assert suffix == "" || suffix[0] == ' ';
    ContainsBehind(base, suffix, "csci/csit/isit");
    ContainsBehind(base, suffix, "csci/csit");
    ContainsBehind(base, suffix, "csci/isit");
    WordBehind(false, base, suffix, "csci");
    WordBehind(false, base, suffix, "csit");
    WordBehind(false, base, suffix, "isit");
    PrefixesOfSuffix(subjects);
    if !subjects.AllComputing? && !subjects.CsciCsit? && !subjects.CsciIsit? {
      WordsOfSuffix(subjects);
    }
  }

  // ---------------------------------------------------------------- the threshold, read back

  lemma DigitsDecide(m: nat, n: nat)
    requires n in {100, 200, 300}
    ensures Decimal(m) == LevelText(n) <==> m == n
  {
    LevelNumbers();
    LevelDecimals(n);
    hide NatOf;
  }

  lemma LevelNumbers()
    ensures NatOf("100") == 100 && NatOf("200") == 200 && NatOf("300") == 300
  {
    assert "100"[..2] == "10" && "10"[..1] == "1" && "1"[..0] == "";
    assert "200"[..2] == "20" && "20"[..1] == "2" && "2"[..0] == "";
    assert "300"[..2] == "30" && "30"[..1] == "3" && "3"[..0] == "";
    assert NatOf("") == 0;
    assert NatOf("1") == 1 && NatOf("2") == 2 && NatOf("3") == 3;
    assert NatOf("10") == 10 && NatOf("20") == 20 && NatOf("30") == 30;
  }

  lemma LevelDecimals(n: nat)
    requires n in {100, 200, 300}
    ensures Decimal(n) == LevelText(n)
  {
    assert Decimal(n / 100) == [DigitChar(n / 100)];
    assert Decimal(n / 10) == Decimal(n / 100) + [DigitChar(0)];
    assert Decimal(n) == Decimal(n / 10) + [DigitChar(0)];
  }

  // How a printed threshold is read, whatever its count: a count below six becomes the level,
  // and a count of 100, 200 or 300 also becomes the level.
  lemma ThresholdReading(minCp: nat, level: nat, subjects: Subjects)
    requires level in {100, 200, 300}
    ensures ParseCpLevel(PrintThreshold(minCp, level, subjects)) ==
      Some(CpRequirement(
        if minCp >= 6 then minCp else level,
        if minCp in {100, 200, 300} then minCp else level,
        SubjectPrefixes(subjects)))
  {
    hide FindThreshold, Prefixes;
    ThresholdRead(minCp, level, subjects);
    PrefixesRead(minCp, level, subjects);
    DigitsDecide(minCp, 100);
    DigitsDecide(minCp, 200);
    DigitsDecide(minCp, 300);
  }

  // A printed threshold is read as it was meant exactly when its count is readable.
  lemma ThresholdReadableIff(minCp: nat, level: nat, subjects: Subjects)
    requires level in {100, 200, 300}
    ensures ReadableCount(minCp, level) <==>
      ParseCpLevel(PrintThreshold(minCp, level, subjects)) == Some(CpRequirement(minCp, level, SubjectPrefixes(subjects)))
  {
    hide ParseCpLevel;
    ThresholdReading(minCp, level, subjects);
  }
}
