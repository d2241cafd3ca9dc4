/** The shapes that the leaf matchers accept, written out: each matcher accepts exactly its shape. */
module RequirementGrammar {
  // A shape says which characters stand where; it names no matcher.

  import opened Text
  import opened PrerequisiteParser
  import opened RequirementLeaves

  // ---------------------------------------------------------------- subject codes

  // Three to five letters, at most one space, two or three digits, and then no further word character.
  predicate IsCodeHere(s: string, letters: nat, gap: nat, digits: nat) {
    && 3 <= letters <= 5 && gap <= 1 && 2 <= digits <= 3 && letters + gap + digits <= |s|
    && (forall k :: 0 <= k < letters ==> IsLetter(s[k]))
    && (gap == 1 ==> IsSpace(s[letters]))
    && (forall k :: letters + gap <= k < letters + gap + digits ==> IsDigit(s[k]))
    && (letters + gap + digits == |s| || !IsWord(s[letters + gap + digits]))
  }

  lemma CodeIsMeasured(s: string, letters: nat, gap: nat, digits: nat)
    requires IsCodeHere(s, letters, gap, digits)
    ensures CodeLength(s) == letters + gap + digits
  {
    assert IsDigit(s[letters + gap]);
    NoLetterThere(s, letters, gap);
    LetterRunIs(s, letters);
    var t := s[letters + gap..];
    assert forall k :: 0 <= k < |t| ==> t[k] == s[letters + gap + k];
    DigitRunIs(t, digits);
    hide IsLetter, IsDigit, IsWord, IsSpace;
  }

  lemma NoLetterThere(s: string, letters: nat, gap: nat)
    requires letters + gap < |s| && gap <= 1 && (gap == 1 ==> IsSpace(s[letters])) && IsDigit(s[letters + gap])
    ensures !IsLetter(s[letters]) && (gap == 1 <==> IsSpace(s[letters]))
  {
  }

  lemma MeasuredIsCode(s: string) returns (letters: nat, gap: nat, digits: nat)
    requires CodeLength(s) > 0
    ensures IsCodeHere(s, letters, gap, digits) && CodeLength(s) == letters + gap + digits
  {
    hide IsLetter, IsDigit, IsSpace, IsWord, LetterRun, DigitRun;
    letters := LetterRun(s);
    gap := if letters < |s| && IsSpace(s[letters]) then 1 else 0;
    digits := DigitRun(s[letters + gap..]);
    DigitsHere(s, letters + gap);
  }

  lemma DigitsHere(s: string, i: nat)
    requires i <= |s|
    ensures var n := DigitRun(s[i..]); i + n <= |s| && forall k :: i <= k < i + n ==> IsDigit(s[k])
  {
    hide IsDigit;
    var t := s[i..];
    forall k | i <= k < i + DigitRun(t) ensures IsDigit(s[k]) {
      assert s[k] == t[k - i];
    }
  }

  // A code of n characters starts at position k: the character before is no word character.
  ghost predicate CodeAt(s: string, k: nat, n: nat) {
    && k < |s| && (k == 0 || !IsWord(s[k - 1]))
    && exists letters: nat, gap: nat, digits: nat ::
         IsCodeHere(s[k..], letters, gap, digits) && n == letters + gap + digits
  }

  ghost predicate HasCodeFrom(s: string, from: nat, code: string) {
    exists k: nat, n: nat :: from <= k && CodeAt(s, k, n) && k + n <= |s| && code == s[k..k + n]
  }

  lemma CodeAtIff(s: string, k: nat, n: nat)
    requires k < |s| && n > 0
    ensures CodeAt(s, k, n) <==> (k == 0 || !IsWord(s[k - 1])) && CodeLength(s[k..]) == n
  {
    hide IsCodeHere, CodeLength;
    if CodeAt(s, k, n) {
      var letters: nat, gap: nat, digits: nat :| IsCodeHere(s[k..], letters, gap, digits) && n == letters + gap + digits;
      CodeIsMeasured(s[k..], letters, gap, digits);
    }
    if CodeLength(s[k..]) == n {
      var letters, gap, digits := MeasuredIsCode(s[k..]);
    }
  }

  function BehindWord(s: string, k: nat): bool
    requires k <= |s|
  {
    k > 0 && IsWord(s[k - 1])
  }

  // Inside a code no other one starts.
  lemma NoCodeInside(s: string, k: nat, n: nat, j: nat, m: nat)
    requires CodeAt(s, k, n) && k < j < k + n
    ensures !CodeAt(s, j, m)
  {
    var letters: nat, gap: nat, digits: nat :| IsCodeHere(s[k..], letters, gap, digits) && n == letters + gap + digits;
    assert s[j - 1] == s[k..][j - 1 - k] && s[j] == s[k..][j - k] == s[j..][0];
  }

  lemma {:induction false} FoundFrom(s: string, k: nat, code: string)
    requires k <= |s|
    ensures code in FindCodes(BehindWord(s, k), s[k..]) <==> HasCodeFrom(s, k, code)
    decreases |s| - k
  {
    hide CodeLength, CodeAt, IsCodeHere;
    if k < |s| {
      var t := s[k..];
      var n := CodeLength(t);
      assert t[0] == s[k];
      if !BehindWord(s, k) && n > 0 {
        CodeAtIff(s, k, n);
        assert t[n..] == s[k + n..] && t[..n] == s[k..k + n];
        CodeEndsInWord(s, k, n);
        FoundFrom(s, k + n, code);
        SkipCode(s, k, n, code);
      } else {
        assert t[1..] == s[k + 1..];
        FoundFrom(s, k + 1, code);
        SkipNoCode(s, k, code);
      }
    } else {
      NothingAtEnd(s, code);
    }
  }

  lemma NothingAtEnd(s: string, code: string)
    ensures !HasCodeFrom(s, |s|, code)
  {
  }

  lemma CodeEndsInWord(s: string, k: nat, n: nat)
    requires CodeAt(s, k, n)
    ensures n > 0 && k + n <= |s| && IsWord(s[k + n - 1])
  {
    var letters: nat, gap: nat, digits: nat :| IsCodeHere(s[k..], letters, gap, digits) && n == letters + gap + digits;
    assert s[k + n - 1] == s[k..][n - 1];
  }

  lemma SkipCode(s: string, k: nat, n: nat, code: string)
    requires CodeAt(s, k, n) && k + n <= |s|
    ensures HasCodeFrom(s, k, code) <==> code == s[k..k + n] || HasCodeFrom(s, k + n, code)
  {
    hide CodeAt, IsCodeHere, CodeLength;
    if HasCodeFrom(s, k, code) && code != s[k..k + n] {
      var j: nat, m: nat :| k <= j && CodeAt(s, j, m) && j + m <= |s| && code == s[j..j + m];
      if j < k + n {
        if k < j {
          NoCodeInside(s, k, n, j, m);
        } else {
          SameStart(s, k, n, m);
        }
      }
    }
  }

  lemma SameStart(s: string, k: nat, n: nat, m: nat)
    requires CodeAt(s, k, n) && CodeAt(s, k, m)
    ensures n == m
  {
    hide IsCodeHere;
    CodeIsShort(s, k, n);
    CodeIsShort(s, k, m);
    CodeAtIff(s, k, n);
    CodeAtIff(s, k, m);
  }

  lemma CodeIsShort(s: string, k: nat, n: nat)
    requires CodeAt(s, k, n)
    ensures n > 0
  {
  }

  lemma SkipNoCode(s: string, k: nat, code: string)
    requires k < |s| && (BehindWord(s, k) || CodeLength(s[k..]) == 0)
    ensures HasCodeFrom(s, k, code) <==> HasCodeFrom(s, k + 1, code)
  {
    hide IsCodeHere, CodeLength;
    if HasCodeFrom(s, k, code) {
      var j: nat, m: nat :| k <= j && CodeAt(s, j, m) && j + m <= |s| && code == s[j..j + m];
      if j == k {
        CodeIsShort(s, k, m);
        CodeAtIff(s, k, m);
      }
    }
  }

  // The codes of a text are exactly the substrings of that shape that start at no word.
  lemma CodesIff(s: string, code: string)
    ensures code in FindCodes(false, s) <==> HasCodeFrom(s, 0, code)
  {
    assert s[0..] == s;
    FoundFrom(s, 0, code);
  }

  // ---------------------------------------------------------------- credit points and levels

  predicate AllSpaces(s: string, i: nat, j: nat) {
    i <= j <= |s| && forall k :: i <= k < j ==> IsSpace(s[k])
  }

  predicate StartsInDigits(s: string, n: nat) {
    0 < n <= |s| && forall k :: 0 <= k < n ==> IsDigit(s[k])
  }

  // Digits, any space, and "cp" or "credit point".
  predicate IsCountHere(s: string, digits: nat, gap: nat, unit: string)
    ensures IsCountHere(s, digits, gap, unit) ==> digits <= |s|
  {
    && unit in {"cp", "credit point"}
    && StartsInDigits(s, digits) && AllSpaces(s, digits, digits + gap) && StartsWithFold(s[digits + gap..], unit)
  }

  // The word "another", some space, digits, any space, and "cp".
  predicate IsAnotherHere(s: string, space: nat, digits: nat, gap: nat)
    ensures IsAnotherHere(s, space, digits, gap) ==> 7 + space + digits <= |s|
  {
    && StartsWithFold(s, "another") && space > 0 && AllSpaces(s, 7, 7 + space)
    && IsCountHere(s[7 + space..], digits, gap, "cp")
  }

  // 100, 200 or 300, any space, perhaps a dash and any space, and "level".
  predicate IsLevelHere(s: string, space: nat, dash: nat, gap: nat) {
    && |s| >= 3 && s[..3] in {"100", "200", "300"}
    && AllSpaces(s, 3, 3 + space) && dash <= 1 && AllSpaces(s, 3 + space + dash, 3 + space + dash + gap)
    && (dash == 0 ==> gap == 0) && (dash == 1 ==> s[3 + space] == '-')
    && StartsWithFold(s[3 + space + dash + gap..], "level")
  }

  lemma SpaceRunFrom(s: string, i: nat, n: nat)
    requires AllSpaces(s, i, i + n) && (i + n < |s| ==> !IsSpace(s[i + n]))
    ensures SpaceRun(s[i..]) == n
  {
    var t := s[i..];
    assert forall k :: 0 <= k < |t| ==> t[k] == s[i + k];
    SpaceRunIs(t, n);
  }

  lemma FirstLetter(s: string, i: nat, w: string)
    requires i <= |s| && StartsWithFold(s[i..], w) && w != "" && IsLetter(w[0])
    ensures i < |s| && IsLetter(s[i]) && !IsSpace(s[i]) && !IsDigit(s[i]) && s[i] != '-'
  {
    assert s[i..][0] == s[i];
  }

  lemma UnitLetters()
    ensures "cp"[0] == 'c' && "cp"[1] == 'p' && "credit point"[0] == 'c' && "credit point"[1] == 'r' && "level"[0] == 'l'
    ensures |"cp"| == 2 && |"credit point"| == 12 && |"level"| == 5
  {
  }

  lemma OneUnit(s: string)
    ensures !(StartsWithFold(s, "cp") && StartsWithFold(s, "credit point"))
  {
    UnitLetters();
    assert StartsWithFold(s, "cp") ==> LowerChar(s[1]) == 'p';
    assert StartsWithFold(s, "credit point") ==> LowerChar(s[1]) == 'r';
  }

  lemma SpacesHere(s: string, i: nat)
    requires i <= |s|
    ensures var n := SpaceRun(s[i..]); AllSpaces(s, i, i + n)
  {
    var t := s[i..];
    forall k | i <= k < i + SpaceRun(t) ensures IsSpace(s[k]) {
      assert s[k] == t[k - i];
    }
  }

  lemma CountIsRead(s: string, digits: nat, gap: nat, unit: string)
    requires IsCountHere(s, digits, gap, unit)
    ensures NumberAt(s, false) == Some(Found(s[..digits], digits + gap + |unit|))
    ensures unit == "cp" ==> NumberAt(s, true) == NumberAt(s, false)
  {
    hide StartsWithFold, IsDigit, IsSpace, DigitRun, SpaceRun;
    CountRuns(s, digits, gap, unit);
    assert s[digits..][gap..] == s[digits + gap..];
    UnitsAreLong();
    OneUnit(s[digits + gap..]);
  }

  lemma UnitsAreLong()
    ensures |"cp"| == 2 && |"credit point"| == 12
  {
  }

  lemma CountRuns(s: string, digits: nat, gap: nat, unit: string)
    requires IsCountHere(s, digits, gap, unit)
    ensures digits <= |s| && DigitRun(s) == digits && SpaceRun(s[digits..]) == gap
  {
    UnitLetters();
    FirstLetter(s, digits + gap, unit);
    hide StartsWithFold;
    assert digits < |s| && !IsDigit(s[digits]) by {
      assert gap > 0 ==> IsSpace(s[digits]);
    }
    DigitRunIs(s, digits);
    SpaceRunFrom(s, digits, gap);
  }

  lemma ReadIsCount(s: string, cpOnly: bool) returns (digits: nat, gap: nat, unit: string)
    requires NumberAt(s, cpOnly).Some?
    ensures IsCountHere(s, digits, gap, unit) && (cpOnly ==> unit == "cp")
    ensures NumberAt(s, cpOnly) == Some(Found(s[..digits], digits + gap + |unit|))
  {
    hide StartsWithFold, IsDigit, IsSpace, DigitRun, SpaceRun;
    UnitsAreLong();
    digits := DigitRun(s);
    gap := SpaceRun(s[digits..]);
    SpacesHere(s, digits);
    unit := if StartsWithFold(s[digits + gap..], "cp") then "cp" else "credit point";
  }

  lemma LevelIsRead(s: string, space: nat, dash: nat, gap: nat)
    requires IsLevelHere(s, space, dash, gap)
    ensures LevelAt(s) == Some(Found(s[..3], 8 + space + dash + gap))
  {
    hide StartsWithFold, IsSpace;
    var b := 3 + space + dash;
    LevelSpaces(s, space, dash, gap);
    LevelDigits(s);
    assert s[b..][gap..] == s[b + gap..];
  }

  lemma LevelSpaces(s: string, space: nat, dash: nat, gap: nat)
    requires IsLevelHere(s, space, dash, gap)
    ensures var b := 3 + space + dash;
      && SpaceRun(s[3..]) == space && SpaceRun(s[b..]) == gap && (dash == 0 ==> b == |s| || s[b] != '-')
  {
    hide StartsWithFold;
    UnitLetters();
    var b := 3 + space + dash;
    FirstLetter(s, b + gap, "level");
    assert !IsSpace('-');
    SpaceRunFrom(s, 3, space);
    SpaceRunFrom(s, b, gap);
  }

  lemma LevelDigits(s: string)
    requires |s| >= 3
    ensures s[..3] in {"100", "200", "300"} <==> '1' <= s[0] <= '3' && s[1] == '0' && s[2] == '0'
  {
    assert s[..3] == [s[0], s[1], s[2]];
  }

  lemma ReadIsLevel(s: string) returns (space: nat, dash: nat, gap: nat)
    requires LevelAt(s).Some?
    ensures IsLevelHere(s, space, dash, gap) && LevelAt(s) == Some(Found(s[..3], 8 + space + dash + gap))
  {
    hide StartsWithFold, IsSpace, AllSpaces;
    LevelDigits(s);
    space := SpaceRun(s[3..]);
    var a := 3 + space;
    dash := if a < |s| && s[a] == '-' then 1 else 0;
    gap := SpaceRun(s[a + dash..]);
    SpacesHere(s, 3);
    SpacesHere(s, a + dash);
    if dash == 0 {
      NoSpaceAfter(s, 3);
    }
  }

  lemma NoSpaceAfter(s: string, i: nat)
    requires i <= |s|
    ensures SpaceRun(s[i + SpaceRun(s[i..])..]) == 0
  {
    var t := s[i..];
    var n := SpaceRun(t);
    assert i + n < |s| ==> s[i + n..][0] == t[n];
  }

  // ---------------------------------------------------------------- thresholds

  // Which digits count the credit points at the start of s, and where that wording ends.
  ghost predicate CountEnds(s: string, count: string, end: nat) {
    || (exists digits: nat, gap: nat, unit: string ::
          IsCountHere(s, digits, gap, unit) && count == s[..digits] && end == digits + gap + |unit|)
    || (exists space: nat, digits: nat, gap: nat ::
          IsAnotherHere(s, space, digits, gap) && count == s[7 + space..7 + space + digits] && end == 9 + space + digits + gap)
  }

  ghost predicate LevelEnds(s: string, level: string, end: nat) {
    exists space: nat, dash: nat, gap: nat ::
      IsLevelHere(s, space, dash, gap) && level == s[..3] && end == 8 + space + dash + gap
  }

  lemma CountIff(s: string, count: string, end: nat)
    ensures CountEnds(s, count, end) <==>
      (NumberAt(s, false) == Some(Found(count, end)) || AnotherAt(s) == Some(Found(count, end)))
  {
    if CountEnds(s, count, end) {
      CountIsFound(s, count, end);
    }
    if NumberAt(s, false) == Some(Found(count, end)) {
      var digits, gap, unit := ReadIsCount(s, false);
    } else if AnotherAt(s) == Some(Found(count, end)) {
      AnotherIsThere(s, count, end);
    }
  }

  lemma CountIsFound(s: string, count: string, end: nat)
    requires CountEnds(s, count, end)
    ensures NumberAt(s, false) == Some(Found(count, end)) || AnotherAt(s) == Some(Found(count, end))
  {
    hide AllSpaces, StartsWithFold, IsDigit, NumberAt, AnotherAt;
    if digits: nat, gap: nat, unit: string :|
      IsCountHere(s, digits, gap, unit) && count == s[..digits] && end == digits + gap + |unit|
    {
      CountIsRead(s, digits, gap, unit);
    } else {
      var space: nat, digits: nat, gap: nat :|
        IsAnotherHere(s, space, digits, gap) && count == s[7 + space..7 + space + digits] && end == 9 + space + digits + gap;
      AnotherIsRead(s, space, digits, gap);
    }
  }

  lemma AnotherIsRead(s: string, space: nat, digits: nat, gap: nat)
    requires IsAnotherHere(s, space, digits, gap)
    ensures 7 + space + digits <= |s|
    ensures AnotherAt(s) == Some(Found(s[7 + space..7 + space + digits], 9 + space + digits + gap))
  {
    hide NumberAt, IsCountHere, StartsWithFold;
    var t := s[7 + space..];
    CountIsRead(t, digits, gap, "cp");
    CountStarts(t, digits, gap, "cp");
    assert t[0] == s[7 + space];
    SpaceRunFrom(s, 7, space);
    assert t[..digits] == s[7 + space..7 + space + digits];
    UnitLetters();
  }

  lemma CountStarts(s: string, digits: nat, gap: nat, unit: string)
    requires IsCountHere(s, digits, gap, unit)
    ensures digits <= |s| && s != "" && !IsSpace(s[0])
  {
    assert IsDigit(s[0]);
  }

  lemma AnotherIsThere(s: string, count: string, end: nat)
    requires AnotherAt(s) == Some(Found(count, end))
    ensures CountEnds(s, count, end)
  {
    hide NumberAt, IsCountHere, StartsWithFold, IsSpace;
    SpacesHere(s, 7);
    var space := SpaceRun(s[7..]);
    var t := s[7 + space..];
    var digits, gap, unit := ReadIsCount(t, true);
    UnitLetters();
    CountStarts(t, digits, gap, unit);
    assert t[..digits] == s[7 + space..7 + space + digits];
    assert IsAnotherHere(s, space, digits, gap);
  }

  lemma LevelIff(s: string, level: string, end: nat)
    ensures LevelEnds(s, level, end) <==> LevelAt(s) == Some(Found(level, end))
  {
    hide AllSpaces, StartsWithFold, LevelAt;
    if LevelEnds(s, level, end) {
      var space: nat, dash: nat, gap: nat :|
        IsLevelHere(s, space, dash, gap) && level == s[..3] && end == 8 + space + dash + gap;
      LevelIsRead(s, space, dash, gap);
    }
    if LevelAt(s) == Some(Found(level, end)) {
      var space, dash, gap := ReadIsLevel(s);
    }
  }

  predicate OnOneLine(s: string, k: nat)
    ensures OnOneLine(s, k) ==> k <= |s|
  {
    k <= |s| && forall j :: 0 <= j < k ==> s[j] != '\n'
  }

  // The first level that s states before its line ends.
  ghost predicate LevelFollows(s: string, level: string) {
    exists k: nat, end: nat ::
      OnOneLine(s, k) && LevelEnds(s[k..], level, end) && forall j: nat, l, e :: j < k ==> !LevelEnds(s[j..], l, e)
  }

  // Some count that s states before its line ends.
  ghost predicate CountFollows(s: string) {
    exists k: nat, digits: nat, gap: nat, unit: string :: OnOneLine(s, k) && IsCountHere(s[k..], digits, gap, unit)
  }

  lemma {:induction false} FirstLevelIff(s: string, level: string)
    ensures FirstLevel(s) == Some(level) <==> LevelFollows(s, level)
  {
    hide LevelAt, LevelEnds;
    assert s[0..] == s;
    if LevelAt(s).Some? {
      LevelHere(s, level);
    } else if s == "" || s[0] == '\n' {
      NoLevelOnLine(s, level);
    } else {
      FirstLevelIff(s[1..], level);
      LevelLater(s, level);
    }
  }

  lemma LevelHere(s: string, level: string)
    requires LevelAt(s).Some?
    ensures LevelFollows(s, level) <==> LevelAt(s).value.text == level
  {
    hide LevelAt, LevelEnds;
    var found := LevelAt(s).value;
    assert s[0..] == s;
    LevelIff(s, found.text, found.end);
    if LevelFollows(s, level) {
      var k: nat, end: nat :|
        OnOneLine(s, k) && LevelEnds(s[k..], level, end) && forall j: nat, l, e :: j < k ==> !LevelEnds(s[j..], l, e);
      assert k == 0 by {
        assert LevelEnds(s[0..], found.text, found.end);
      }
      LevelIff(s, level, end);
    }
    assert OnOneLine(s, 0);
  }

  lemma NoLevelOnLine(s: string, level: string)
    requires LevelAt(s).None? && (s == "" || s[0] == '\n')
    ensures !LevelFollows(s, level)
  {
    hide LevelAt, LevelEnds;
    assert s[0..] == s;
    forall k: nat, end: nat | OnOneLine(s, k) ensures !LevelEnds(s[k..], level, end) {
      LevelIff(s, level, end);
    }
  }

  lemma OneLineLater(s: string, k: nat)
    requires k < |s| && s[0] != '\n'
    ensures OnOneLine(s[1..], k) <==> OnOneLine(s, k + 1)
  {
    if OnOneLine(s[1..], k) {
      forall j | 0 <= j < k + 1 ensures s[j] != '\n' {
        assert j > 0 ==> s[j] == s[1..][j - 1];
      }
    }
  }

  lemma LevelLater(s: string, level: string)
    requires LevelAt(s).None? && s != "" && s[0] != '\n'
    ensures LevelFollows(s, level) <==> LevelFollows(s[1..], level)
  {
    hide LevelAt, LevelEnds;
    var t := s[1..];
    forall l, e: nat ensures !LevelEnds(s[0..], l, e) {
      assert s[0..] == s;
      LevelIff(s, l, e);
    }
    assert forall k: nat :: k <= |t| ==> t[k..] == s[k + 1..];
    forall k: nat | k <= |t| ensures OnOneLine(t, k) <==> OnOneLine(s, k + 1) {
      OneLineLater(s, k);
    }
    if LevelFollows(s, level) {
      var k: nat, end: nat :|
        OnOneLine(s, k) && LevelEnds(s[k..], level, end) && forall j: nat, l, e :: j < k ==> !LevelEnds(s[j..], l, e);
      assert k > 0;
      assert OnOneLine(t, k - 1) && LevelEnds(t[k - 1..], level, end);
      forall j: nat, l, e | j < k - 1 ensures !LevelEnds(t[j..], l, e) {
        assert t[j..] == s[j + 1..];
      }
    }
    if LevelFollows(t, level) {
      var k: nat, end: nat :|
        OnOneLine(t, k) && LevelEnds(t[k..], level, end) && forall j: nat, l, e :: j < k ==> !LevelEnds(t[j..], l, e);
      assert OnOneLine(s, k + 1) && LevelEnds(s[k + 1..], level, end);
      forall j: nat, l, e | j < k + 1 ensures !LevelEnds(s[j..], l, e) {
        if j > 0 {
          assert t[j - 1..] == s[j..];
        }
      }
    }
  }

  ghost predicate CountThenLevel(s: string, count: string, level: string) {
    exists end: nat :: end <= |s| && CountEnds(s, count, end) && LevelFollows(s[end..], level)
  }

  ghost predicate LevelThenCount(s: string, level: string) {
    exists end: nat :: end <= |s| && LevelEnds(s, level, end) && CountFollows(s[end..])
  }

  // Credit points first and then a level, or else a level first and then credit points.
  ghost predicate Reads(s: string, raw: RawThreshold) {
    match raw
    case CountFirst(count, level) => CountThenLevel(s, count, level)
    case LevelFirst(level) => LevelThenCount(s, level) && forall count, l :: !CountThenLevel(s, count, l)
  }

  // The reading of a text is the reading at the first position that has one.
  ghost predicate FirstReading(s: string, k: nat, raw: RawThreshold) {
    k <= |s| && Reads(s[k..], raw) && forall j: nat, r :: j < k ==> !Reads(s[j..], r)
  }

  lemma OneCount(s: string)
    ensures NumberAt(s, false).Some? ==> AnotherAt(s).None?
  {
    if StartsWithFold(s, "another") {
      assert LowerChar(s[0]) == 'a';
      assert DigitRun(s) == 0;
    }
  }

  lemma {:induction false} HasNumberIff(s: string)
    ensures HasNumber(s) <==> CountFollows(s)
  {
    hide NumberAt, IsCountHere;
    assert s[0..] == s;
    if NumberAt(s, false).Some? {
      var digits, gap, unit := ReadIsCount(s, false);
      assert OnOneLine(s, 0);
    } else if s == "" || s[0] == '\n' {
      NoCountOnLine(s);
    } else {
      HasNumberIff(s[1..]);
      CountLater(s);
    }
  }

  lemma NoCountOnLine(s: string)
    requires NumberAt(s, false).None? && (s == "" || s[0] == '\n')
    ensures !CountFollows(s)
  {
    hide NumberAt, IsCountHere;
    assert s[0..] == s;
    NoCountHere(s);
  }

  lemma NoCountHere(s: string)
    requires NumberAt(s, false).None?
    ensures forall digits: nat, gap: nat, unit: string :: !IsCountHere(s, digits, gap, unit)
  {
    hide NumberAt, IsCountHere;
    forall digits: nat, gap: nat, unit: string | IsCountHere(s, digits, gap, unit) ensures false {
      CountIsRead(s, digits, gap, unit);
    }
  }

  lemma CountLater(s: string)
    requires NumberAt(s, false).None? && s != "" && s[0] != '\n'
    ensures CountFollows(s) <==> CountFollows(s[1..])
  {
    hide NumberAt, IsCountHere, OnOneLine;
    var t := s[1..];
    assert s[0..] == s;
    NoCountHere(s);
    if CountFollows(s) {
      var k: nat, digits: nat, gap: nat, unit: string :| OnOneLine(s, k) && IsCountHere(s[k..], digits, gap, unit);
      assert k > 0 && t[k - 1..] == s[k..];
      OneLineLater(s, k - 1);
    }
    if CountFollows(t) {
      var k: nat, digits: nat, gap: nat, unit: string :| OnOneLine(t, k) && IsCountHere(t[k..], digits, gap, unit);
      assert s[k + 1..] == t[k..];
      OneLineLater(s, k);
    }
  }

  lemma CountThenLevelIff(s: string, count: string, level: string)
    ensures CountThenLevel(s, count, level) <==> ThresholdAt(s) == Some(CountFirst(count, level))
  {
    hide NumberAt, AnotherAt, LevelAt, FirstLevel, HasNumber, CountEnds, LevelFollows;
    OneCount(s);
    if CountThenLevel(s, count, level) {
      var end: nat :| end <= |s| && CountEnds(s, count, end) && LevelFollows(s[end..], level);
      CountIff(s, count, end);
      FirstLevelIff(s[end..], level);
    }
    if ThresholdAt(s) == Some(CountFirst(count, level)) {
      var found := if NumberAt(s, false).Some? then NumberAt(s, false).value else AnotherAt(s).value;
      CountIff(s, count, found.end);
      FirstLevelIff(s[found.end..], level);
    }
  }

  lemma LevelThenCountIff(s: string, level: string)
    ensures LevelThenCount(s, level) <==> LevelAt(s).Some? && LevelAt(s).value.text == level && HasNumber(s[LevelAt(s).value.end..])
  {
    hide LevelAt, HasNumber, LevelEnds, CountFollows;
    if LevelThenCount(s, level) {
      var end: nat :| end <= |s| && LevelEnds(s, level, end) && CountFollows(s[end..]);
      LevelIff(s, level, end);
      HasNumberIff(s[end..]);
    }
    if LevelAt(s).Some? && LevelAt(s).value.text == level {
      var end := LevelAt(s).value.end;
      LevelIff(s, level, end);
      HasNumberIff(s[end..]);
    }
  }

  lemma ThresholdHereIff(s: string, raw: RawThreshold)
    ensures ThresholdAt(s) == Some(raw) <==> Reads(s, raw)
  {
    hide CountThenLevel, LevelThenCount, ThresholdAt;
    match raw
    case CountFirst(count, level) =>
      CountThenLevelIff(s, count, level);
    case LevelFirst(level) =>
      LevelThenCountIff(s, level);
      forall count, l ensures CountThenLevel(s, count, l) <==> ThresholdAt(s) == Some(CountFirst(count, l)) {
        CountThenLevelIff(s, count, l);
      }
      LevelFirstIff(s, level);
  }

  lemma LevelFirstIff(s: string, level: string)
    ensures ThresholdAt(s) == Some(LevelFirst(level)) <==>
      && LevelAt(s).Some? && LevelAt(s).value.text == level && HasNumber(s[LevelAt(s).value.end..])
      && forall count, l :: ThresholdAt(s) != Some(CountFirst(count, l))
  {
    hide NumberAt, AnotherAt, LevelAt, FirstLevel, HasNumber;
  }

  lemma NoReading(s: string)
    ensures ThresholdAt(s).None? <==> forall r :: !Reads(s, r)
  {
    hide Reads, ThresholdAt;
    forall r ensures ThresholdAt(s) == Some(r) <==> Reads(s, r) {
      ThresholdHereIff(s, r);
    }
    if ThresholdAt(s).Some? {
      assert Reads(s, ThresholdAt(s).value);
    }
  }

  // A text's threshold is the first that stands in it, in one of the two orders.
  lemma {:induction false} ThresholdIff(s: string, raw: RawThreshold)
    ensures FindThreshold(s) == Some(raw) <==> exists k: nat :: FirstReading(s, k, raw)
  {
    hide Reads, ThresholdAt;
    assert s[0..] == s;
    NoReading(s);
    ThresholdHereIff(s, raw);
    if ThresholdAt(s).Some? {
      ThresholdHereIff(s, ThresholdAt(s).value);
      FirstAtStart(s, raw);
    } else if s == "" {
      assert forall k: nat :: !FirstReading(s, k, raw);
    } else {
      ThresholdIff(s[1..], raw);
      FirstLater(s, raw);
    }
  }

  lemma FirstAtStart(s: string, raw: RawThreshold)
    requires ThresholdAt(s).Some? && Reads(s, ThresholdAt(s).value) && (ThresholdAt(s) == Some(raw) <==> Reads(s, raw))
    ensures (exists k: nat :: FirstReading(s, k, raw)) <==> ThresholdAt(s) == Some(raw)
  {
    hide Reads, ThresholdAt;
    assert s[0..] == s;
    if Reads(s, raw) {
      assert FirstReading(s, 0, raw);
    }
    if k: nat :| FirstReading(s, k, raw) {
      assert k == 0 by {
        assert Reads(s[0..], ThresholdAt(s).value);
      }
    }
  }

  lemma FirstLater(s: string, raw: RawThreshold)
    requires s != "" && forall r :: !Reads(s, r)
    ensures (exists k: nat :: FirstReading(s, k, raw)) <==> (exists k: nat :: FirstReading(s[1..], k, raw))
  {
    hide Reads;
    var t := s[1..];
    assert s[0..] == s;
    if k: nat :| FirstReading(s, k, raw) {
      assert k > 0 && t[k - 1..] == s[k..];
      forall j: nat, r | j < k - 1 ensures !Reads(t[j..], r) {
        assert t[j..] == s[j + 1..];
      }
      assert FirstReading(t, k - 1, raw);
    }
    if k: nat :| FirstReading(t, k, raw) {
      assert s[k + 1..] == t[k..];
      forall j: nat, r | j < k + 1 ensures !Reads(s[j..], r) {
        assert j > 0 ==> s[j..] == t[j - 1..];
      }
      assert FirstReading(s, k + 1, raw);
    }
  }
}
