/** How codes, levels and placeholders are read, told in the words of the handbook. */
module SubjectReadings {
  // Normal codes, the two readings of a subject's level, the level that a placeholder asks for, and which
  // codes are placeholders: for every text, what is read from it and when nothing is.

  import opened Text
  import opened PrerequisiteParser
  import opened RequirementLeaves
  import opened Catalogue
  import opened ElectiveService

  // ---------------------------------------------------------------- codes

  lemma {:induction false} RemoveConcat(a: string, b: string, c: char)
    ensures Remove(a + b, c) == Remove(a, c) + Remove(b, c)
  {
    if a == "" {
      assert a + b == b;
    } else {
      assert (a + b)[1..] == a[1..] + b;
      RemoveConcat(a[1..], b, c);
    }
  }

  lemma UpperConcat(a: string, b: string)
    ensures Upper(a + b) == Upper(a) + Upper(b)
  {
  }

  lemma OneSpaceGone()
    ensures Upper(" ") == " " && Remove(" ", ' ') == ""
  {
    assert Upper(" ")[0] == ' ';
    assert " "[1..] == "";
  }

  lemma UpperHasNoSpace(a: string)
    requires ' ' !in a
    ensures ' ' !in Upper(a)
  {
    forall k | 0 <= k < |a| ensures Upper(a)[k] != ' ' {
      assert a[k] in a;
    }
  }

  // A normal code is the capitalised text without its spaces.
  lemma NormalCodes(a: string, b: string)
    ensures NormalizeCode(a + " " + b) == NormalizeCode(a) + NormalizeCode(b)
    ensures ' ' !in a ==> NormalizeCode(a) == Upper(a)
  {
    hide Upper, Remove;
    UpperConcat(a + " ", b);
    UpperConcat(a, " ");
    RemoveConcat(Upper(a) + Upper(" "), Upper(b), ' ');
    RemoveConcat(Upper(a), Upper(" "), ' ');
    OneSpaceGone();
    assert Remove(Upper(a), ' ') + "" == Remove(Upper(a), ' ');
    if ' ' !in a {
      UpperHasNoSpace(a);
    }
  }

  // The first digit of s is at k.
  predicate FirstDigitAt(s: string, k: nat) {
    k < |s| && IsDigit(s[k]) && forall i :: 0 <= i < k ==> !IsDigit(s[i])
  }

  lemma {:induction false} FirstDigitDecides(s: string)
    ensures forall k: nat :: FirstDigitAt(s, k) ==> FirstDigitLevel(s) == Some(100 * DigitValue(s[k]))
    ensures (forall k :: 0 <= k < |s| ==> !IsDigit(s[k])) ==> FirstDigitLevel(s).None?
  {
    if s != "" && !IsDigit(s[0]) {
      FirstDigitDecides(s[1..]);
      forall k: nat | FirstDigitAt(s, k) ensures FirstDigitLevel(s) == Some(100 * DigitValue(s[k])) {
        assert FirstDigitAt(s[1..], k - 1);
      }
    }
  }

  // A code's level is its first digit, in hundreds.
  lemma LevelOfCode(code: string)
    ensures forall k: nat :: FirstDigitAt(NormalizeCode(code), k) ==> LevelFromCode(code) == Some(100 * DigitValue(NormalizeCode(code)[k]))
    ensures (forall k :: 0 <= k < |NormalizeCode(code)| ==> !IsDigit(NormalizeCode(code)[k])) ==> LevelFromCode(code).None?
  {
    hide NormalizeCode, FirstDigitLevel;
    FirstDigitDecides(NormalizeCode(code));
  }

  // ---------------------------------------------------------------- the level of a subject

  function LevelWords(s: Subject): string {
    Trim(if s.levelText.Some? then s.levelText.value else "")
  }

  // The handbook says "200-level", with these digits.
  predicate StatesLevel(s: Subject, digits: string) {
    digits != "" && (forall k :: 0 <= k < |digits| ==> IsDigit(digits[k])) && LevelWords(s) == digits + "-level"
  }

  lemma StatedLevel(s: Subject, digits: string)
    requires StatesLevel(s, digits)
    ensures LevelValue(s) == Some(NatOf(digits))
  {
    hide Strip, LevelFromCode, NatOf;
    var level := LevelWords(s);
    assert level[|digits|..] == "-level" && level[..|digits|] == digits;
    DigitRunIs(digits, |digits|);
  }

  lemma UnstatedLevel(s: Subject)
    requires forall digits :: !StatesLevel(s, digits)
    ensures LevelValue(s) == LevelFromCode(s.code)
  {
    hide Strip, LevelFromCode, NatOf, StatesLevel;
    var level := LevelWords(s);
    var n := |level| - 6;
    if n > 0 && level[n..] == "-level" && DigitRun(level[..n]) == n {
      assert level == level[..n] + level[n..];
      LevelIsStated(s, level[..n]);
    }
  }

  lemma LevelIsStated(s: Subject, digits: string)
    requires digits != "" && DigitRun(digits) == |digits| && LevelWords(s) == digits + "-level"
    ensures StatesLevel(s, digits)
  {
  }

  // ---------------------------------------------------------------- the level for pools

  predicate IsLevelWord(word: string) {
    Lower(word) == "level" || Lower(word) == "lv"
  }

  // Nothing, or perhaps a dash and one of the words, with white space before and between.
  ghost predicate IsLevelTail(tail: string) {
    AreSpaces(tail) || exists gap, dash, between, word :: IsSpelled(tail, gap, dash, between, word)
  }

  predicate IsSpelled(tail: string, gap: string, dash: string, between: string, word: string) {
    tail == gap + dash + between + word && AreSpaces(gap) && (dash == "" || dash == "-") && AreSpaces(between) && IsLevelWord(word)
  }

  // "300", "300 level", "300-Level", "300 - lv" and the like.
  ghost predicate NamesHundreds(text: string, d: char) {
    '1' <= d <= '9' && |text| >= 3 && text[..3] == [d, '0', '0'] && IsLevelTail(text[3..])
  }

  lemma {:induction false} StripSpaces(gap: string, s: string)
    requires AreSpaces(gap)
    ensures StripLeft(gap + s, SPACES) == StripLeft(s, SPACES)
  {
    if gap == "" {
      assert gap + s == s;
    } else {
      assert (gap + s)[1..] == gap[1..] + s;
      StripSpaces(gap[1..], s);
    }
  }

  lemma LevelWordShape(word: string)
    requires IsLevelWord(word)
    ensures word != "" && IsLetter(word[0]) && IsLetter(word[|word| - 1])
  {
    assert IsLetter("level"[0]) && IsLetter("level"[4]) && IsLetter("lv"[0]) && IsLetter("lv"[1]);
    assert LowerChar(word[0]) == Lower(word)[0] && LowerChar(word[|word| - 1]) == Lower(word)[|word| - 1];
  }

  lemma TrimBefore(gap: string, s: string)
    requires AreSpaces(gap) && s != "" && !IsSpace(s[0]) && !IsSpace(s[|s| - 1])
    ensures Trim(gap + s) == s
  {
    hide StripLeft, StripRight;
    StripSpaces(gap, s);
  }

  lemma TrimOfSpaces(s: string)
    requires AreSpaces(s)
    ensures Trim(s) == ""
  {
    hide StripRight;
    StripSpaces(s, "");
    assert s + "" == s;
    assert StripRight("", SPACES) == "";
  }

  function WordIn(tail: string): string {
    var rest := Trim(tail);
    if rest != "" && rest[0] == '-' then Trim(rest[1..]) else rest
  }

  lemma SpelledIsRead(tail: string, gap: string, dash: string, between: string, word: string)
    requires IsSpelled(tail, gap, dash, between, word)
    ensures WordIn(tail) == word && Trim(tail) != ""
  {
    hide Strip, IsLevelWord;
    LevelWordShape(word);
    if dash == "" {
      assert tail == (gap + between) + word;
      TrimBefore(gap + between, word);
    } else {
      var rest := dash + between + word;
      assert tail == gap + rest;
      TrimBefore(gap, rest);
      assert rest[1..] == between + word;
      TrimBefore(between, word);
    }
  }

  // What is trimmed on the left is white space; a text that ends in no space keeps its end.
  lemma TrimmedApart(s: string) returns (gap: string)
    requires s != "" && !IsSpace(s[|s| - 1])
    ensures AreSpaces(gap) && s == gap + Trim(s) && Trim(s) != "" && Trim(s)[|Trim(s)| - 1] == s[|s| - 1]
  {
    hide StripLeft, StripRight;
    var left := StripLeft(s, SPACES);
    StripLeftIsSuffix(s, SPACES);
    gap := s[..|s| - |left|];
    assert forall k :: 0 <= k < |s| - |left| ==> IsSpace(s[k]);
    assert left[|left| - 1] == s[|s| - 1];
    assert StripRight(left, SPACES) == left;
  }

  lemma ReadIsSpelled(tail: string)
    requires tail != "" && !IsSpace(tail[|tail| - 1]) && IsLevelWord(WordIn(tail))
    ensures IsLevelTail(tail)
  {
    hide Strip, IsLevelWord;
    var gap := TrimmedApart(tail);
    var rest := Trim(tail);
    if rest[0] == '-' {
      LevelWordShape(WordIn(tail));
      assert rest[1..] != "" by {
        TrimOfNothing();
      }
      var between := TrimmedApart(rest[1..]);
      assert tail == gap + "-" + between + WordIn(tail);
      assert IsSpelled(tail, gap, "-", between, WordIn(tail));
    } else {
      assert tail == gap + "" + "" + rest;
      assert IsSpelled(tail, gap, "", "", rest);
    }
  }

  lemma TrimOfNothing()
    ensures Trim("") == ""
  {
  }

  // The text is read as so many hundreds exactly when it names them.
  lemma HundredsIff(text: string, d: char)
    requires IsTrimmed(text) && '1' <= d <= '9'
    ensures ReadLevelText(text) == Some(100 * DigitValue(d)) <==> NamesHundreds(text, d)
  {
    hide Strip, IsLevelWord, IsLevelTail;
    if |text| >= 3 {
      assert text[..3] == [d, '0', '0'] <==> text[0] == d && text[1] == '0' && text[2] == '0';
      assert '1' <= text[0] <= '9' ==> (DigitValue(text[0]) == DigitValue(d) <==> text[0] == d);
      var tail := text[3..];
      TailIff(tail);
      assert Lower(WordIn(tail)) == "level" || Lower(WordIn(tail)) == "lv" <==> IsLevelWord(WordIn(tail)) by {
        WordsAre(WordIn(tail));
      }
    }
  }

  lemma WordsAre(word: string)
    ensures Lower(word) == "level" || Lower(word) == "lv" <==> IsLevelWord(word)
  {
  }

  lemma TailIff(tail: string)
    requires tail == "" || !IsSpace(tail[|tail| - 1])
    ensures IsLevelTail(tail) <==> Trim(tail) == "" || IsLevelWord(WordIn(tail))
  {
    hide Strip, IsLevelWord;
    if tail == "" {
      TrimOfNothing();
    } else {
      if Trim(tail) == "" {
        var gap := TrimmedApart(tail);
      }
      if IsLevelWord(WordIn(tail)) {
        ReadIsSpelled(tail);
      }
      if AreSpaces(tail) {
        TrimOfSpaces(tail);
      } else if IsLevelTail(tail) {
        var gap, dash, between, word :| IsSpelled(tail, gap, dash, between, word);
        SpelledIsRead(tail, gap, dash, between, word);
      }
    }
  }

  // Letters, digits, and perhaps one more letter.
  predicate IsConventional(code: string, letters: nat, digits: nat) {
    && 2 <= letters <= 8 && 3 <= digits <= 4 && letters + digits <= |code| <= letters + digits + 1
    && (forall k :: 0 <= k < letters ==> IsUpper(code[k]))
    && (forall k :: letters <= k < letters + digits ==> IsDigit(code[k]))
    && (|code| > letters + digits ==> IsUpper(code[letters + digits]))
  }

  lemma ConventionalIsRead(norm: string, letters: nat, digits: nat)
    requires IsConventional(norm, letters, digits)
    ensures ReadLevelCode(norm) == if norm[letters] == '0' then None else Some(100 * DigitValue(norm[letters]))
  {
    hide LetterRun, DigitRun;
    LetterRunIs(norm, letters);
    DigitRunIs(norm[letters..], digits);
  }

  lemma UnconventionalIsNot(norm: string)
    requires (forall k :: 0 <= k < |norm| ==> !('a' <= norm[k] <= 'z'))
    requires forall letters, digits :: !IsConventional(norm, letters, digits)
    ensures ReadLevelCode(norm).None?
  {
    hide IsConventional;
    var n := LetterRun(norm);
    var d := DigitRun(norm[n..]);
    if ReadLevelCode(norm).Some? {
      ReadIsConventional(norm);
    }
  }

  lemma LettersOfRun(norm: string)
    requires forall k :: 0 <= k < |norm| ==> !('a' <= norm[k] <= 'z')
    ensures forall k :: 0 <= k < LetterRun(norm) ==> IsUpper(norm[k])
  {
    hide LetterRun;
  }

  lemma DigitsOfRun(norm: string, n: nat)
    requires n <= |norm|
    ensures forall k :: n <= k < n + DigitRun(norm[n..]) ==> IsDigit(norm[k])
  {
    hide DigitRun, IsDigit;
    assert forall k :: n <= k < n + DigitRun(norm[n..]) ==> norm[k] == norm[n..][k - n];
  }

  lemma ReadIsConventional(norm: string)
    requires (forall k :: 0 <= k < |norm| ==> !('a' <= norm[k] <= 'z')) && ReadLevelCode(norm).Some?
    ensures IsConventional(norm, LetterRun(norm), DigitRun(norm[LetterRun(norm)..]))
  {
    hide LetterRun, DigitRun, IsUpper, IsDigit;
    LettersOfRun(norm);
    DigitsOfRun(norm, LetterRun(norm));
  }

  lemma NormalHasNoLower(code: string)
    ensures forall k :: 0 <= k < |NormalizeCode(code)| ==> !('a' <= NormalizeCode(code)[k] <= 'z')
  {
    var norm := NormalizeCode(code);
    hide Remove;
    forall k | 0 <= k < |norm| ensures !('a' <= norm[k] <= 'z') {
      assert norm[k] in Upper(code);
      var i :| 0 <= i < |code| && Upper(code)[i] == norm[k];
      assert norm[k] == UpperChar(code[i]);
    }
  }

  // A pool reads a subject's level off the handbook's words when there are any, and otherwise off a
  // conventional code whose first digit is not 0.
  ghost predicate PoolReads(s: Subject, d: char) {
    if LevelWords(s) != "" then NamesHundreds(LevelWords(s), d)
    else exists letters: nat, digits: nat :: IsConventional(NormalizeCode(s.code), letters, digits) && NormalizeCode(s.code)[letters] == d
  }

  lemma PoolLevelIff(s: Subject, d: char)
    requires '1' <= d <= '9'
    ensures PoolLevel(s) == Some(100 * DigitValue(d)) <==> PoolReads(s, d)
  {
    hide Strip, NormalizeCode, ReadLevelText, ReadLevelCode, NamesHundreds, IsConventional;
    if LevelWords(s) != "" {
      HundredsIff(LevelWords(s), d);
    } else {
      CodeLevelIff(NormalizeCode(s.code), d) by {
        NormalHasNoLower(s.code);
      }
    }
  }

  lemma CodeLevelIff(norm: string, d: char)
    requires '1' <= d <= '9' && forall k :: 0 <= k < |norm| ==> !('a' <= norm[k] <= 'z')
    ensures ReadLevelCode(norm) == Some(100 * DigitValue(d)) <==>
      exists letters: nat, digits: nat :: IsConventional(norm, letters, digits) && norm[letters] == d
  {
    hide ReadLevelCode;
    if letters: nat, digits: nat :| IsConventional(norm, letters, digits) {
      forall l: nat, m: nat | IsConventional(norm, l, m) ensures l == letters {
        assert l < letters ==> IsDigit(norm[l]);
        assert letters < l ==> IsDigit(norm[letters]);
      }
      ConventionalIsRead(norm, letters, digits);
      hide IsConventional;
      assert norm[letters] != '0' ==> (DigitValue(norm[letters]) == DigitValue(d) <==> norm[letters] == d);
    } else {
      UnconventionalIsNot(norm);
    }
  }

  // ---------------------------------------------------------------- placeholders

  // The text starts with the word, in any case, and nothing of a longer word follows it.
  ghost predicate StartsWithWord(text: string, word: string) {
    exists rest :: Lower(text) == word + rest && (rest == "" || !IsWord(rest[0]))
  }

  lemma LowerKeepsWord(c: char)
    ensures IsWord(LowerChar(c)) <==> IsWord(c)
  {
  }

  lemma WordStarts(text: string, word: string)
    ensures WordHere(text, word) <==> StartsWithWord(text, word)
  {
    hide Lower, IsWord;
    var low := Lower(text);
    if WordHere(text, word) {
      assert low[..|word|] == word;
      var rest := low[|word|..];
      assert low == word + rest;
      if rest != "" {
        LowerKeepsWord(text[|word|]);
      }
    }
    if rest :| low == word + rest && (rest == "" || !IsWord(rest[0])) {
      assert forall k :: 0 <= k < |word| ==> low[k] == word[k];
      if rest != "" {
        assert low[|word|] == rest[0];
        LowerKeepsWord(text[|word|]);
      }
    }
  }

  // A code is a placeholder exactly when it starts, after white space, with the word "elective" or "tbd".
  lemma PlaceholderIff(code: string)
    ensures IsPlaceholder(code) <==> StartsWithWord(Trim(code), "elective") || StartsWithWord(Trim(code), "tbd")
  {
    hide WordHere, StartsWithWord, Strip;
    WordStarts(Trim(code), "elective");
    WordStarts(Trim(code), "tbd");
  }

  // ---------------------------------------------------------------- the level a placeholder asks for

  // "200 level", "200-lv" and the like, and then no more of a word.
  predicate IsLevelPhrase(s: string, d: char, gap: string, dash: string, between: string, word: string, after: string) {
    && '1' <= d <= '3' && AreSpaces(gap) && (dash == "" || dash == "-") && AreSpaces(between) && IsLevelWord(word)
    && (after == "" || !IsWord(after[0]))
    && s == [d, '0', '0'] + (gap + (dash + (between + (word + after))))
  }

  lemma {:induction false} SpacesCounted(gap: string, rest: string)
    requires AreSpaces(gap) && (rest == "" || !IsSpace(rest[0]))
    ensures SpaceRun(gap + rest) == |gap|
  {
    if gap == "" {
      assert gap + rest == rest;
    } else {
      assert (gap + rest)[1..] == gap[1..] + rest;
      SpacesCounted(gap[1..], rest);
    }
  }

  lemma LevelWordHere(word: string, after: string)
    requires IsLevelWord(word) && (after == "" || !IsWord(after[0]))
    ensures WordHere(word + after, "level") || WordHere(word + after, "lv")
  {
    hide IsWord;
    assert forall k :: 0 <= k < |word| ==> LowerChar((word + after)[k]) == Lower(word)[k];
  }

  lemma LevelWordSteps(s: string, a: nat, b: nat, c: nat)
    requires |s| >= 3 && '1' <= s[0] <= '3' && s[1] == '0' && s[2] == '0'
    requires a == 3 + SpaceRun(s[3..]) && b == (if a < |s| && s[a] == '-' then a + 1 else a) && c == b + SpaceRun(s[b..])
    requires WordHere(s[c..], "level") || WordHere(s[c..], "lv")
    ensures LevelWordAt(s) == Some(100 * DigitValue(s[0]))
  {
    hide SpaceRun, WordHere;
  }

  lemma PhraseWithoutDash(s: string, gap: string, t: string)
    requires |s| >= 3 && s[3..] == gap + t && AreSpaces(gap) && t != "" && IsLetter(t[0])
    ensures 3 + SpaceRun(s[3..]) == 3 + |gap| <= |s| && s[3 + |gap|..] == t && t[0] != '-' && SpaceRun(t) == 0
  {
    hide SpaceRun;
    SpacesCounted(gap, t);
    SpacesCounted("", t);
    assert "" + t == t;
    assert s[3..][|gap|..] == s[3 + |gap|..];
  }

  lemma PhraseWithDash(s: string, gap: string, between: string, t: string)
    requires |s| >= 3 && s[3..] == gap + ("-" + (between + t)) && AreSpaces(gap) && AreSpaces(between) && t != "" && IsLetter(t[0])
    ensures 3 + SpaceRun(s[3..]) == 3 + |gap| < |s| && s[3 + |gap|] == '-'
    ensures SpaceRun(s[4 + |gap|..]) == |between| && s[4 + |gap| + |between|..] == t
  {
    hide SpaceRun, AreSpaces;
    SpacesCounted(gap, "-" + (between + t));
    assert s[3..][|gap|..] == s[3 + |gap|..] == "-" + (between + t);
    assert s[3 + |gap|..][1..] == s[4 + |gap|..] == between + t;
    SpacesCounted(between, t);
    assert s[4 + |gap|..][|between|..] == s[4 + |gap| + |between|..];
  }

  lemma SkipNoDash(gap: string, between: string, t: string)
    ensures gap + ("" + (between + t)) == (gap + between) + t
    ensures AreSpaces(gap) && AreSpaces(between) ==> AreSpaces(gap + between)
  {
  }

  predicate StartsInHundreds(s: string) {
    |s| >= 3 && '1' <= s[0] <= '3' && s[1] == '0' && s[2] == '0'
  }

  predicate EndsInLevel(t: string) {
    t != "" && IsLetter(t[0]) && (WordHere(t, "level") || WordHere(t, "lv"))
  }

  lemma DashlessIsRead(s: string, gap: string, t: string)
    requires StartsInHundreds(s) && s[3..] == gap + t && AreSpaces(gap) && EndsInLevel(t)
    ensures LevelWordAt(s) == Some(100 * DigitValue(s[0]))
  {
    hide SpaceRun, WordHere, LevelWordAt, AreSpaces;
    PhraseWithoutDash(s, gap, t);
    var a := 3 + |gap|;
    assert s[a..][0] == s[a];
    LevelWordSteps(s, a, a, a);
  }

  lemma DashIsRead(s: string, gap: string, between: string, t: string)
    requires StartsInHundreds(s) && s[3..] == gap + ("-" + (between + t)) && AreSpaces(gap) && AreSpaces(between) && EndsInLevel(t)
    ensures LevelWordAt(s) == Some(100 * DigitValue(s[0]))
  {
    hide SpaceRun, WordHere, LevelWordAt, AreSpaces;
    PhraseWithDash(s, gap, between, t);
    LevelWordSteps(s, 3 + |gap|, 4 + |gap|, 4 + |gap| + |between|);
  }

  lemma PhraseStarts(s: string, d: char, tail: string)
    requires '1' <= d <= '3' && s == [d, '0', '0'] + tail
    ensures StartsInHundreds(s) && s[0] == d && s[3..] == tail
  {
  }

  lemma PhraseIsRead(s: string, d: char, gap: string, dash: string, between: string, word: string, after: string)
    requires IsLevelPhrase(s, d, gap, dash, between, word, after)
    ensures LevelWordAt(s) == Some(100 * DigitValue(d))
  {
    hide SpaceRun, WordHere, IsLevelWord, IsWord, LevelWordAt, AreSpaces, StartsInHundreds;
    LevelWordShape(word);
    var t := word + after;
    LevelWordHere(word, after);
    assert t[0] == word[0];
    assert EndsInLevel(t);
    hide EndsInLevel;
    PhraseStarts(s, d, gap + (dash + (between + t)));
    if dash == "" {
      SkipNoDash(gap, between, t);
      DashlessIsRead(s, gap + between, t);
    } else {
      DashIsRead(s, gap, between, t);
    }
  }

  lemma {:induction false} NoLevelBeforeDigits(inWord: bool, before: string, s: string)
    requires forall k :: 0 <= k < |before| ==> !IsDigit(before[k])
    ensures FindLevelWord(inWord, before + s) == FindLevelWord(if before == "" then inWord else IsWord(before[|before| - 1]), s)
    decreases |before|
  {
    hide LevelWordAt, IsWord;
    if before == "" {
      assert before + s == s;
    } else {
      NoLevelHere(before + s);
      assert (before + s)[1..] == before[1..] + s;
      NoLevelBeforeDigits(IsWord(before[0]), before[1..], s);
    }
  }

  lemma NoLevelHere(s: string)
    requires s != "" && !IsDigit(s[0])
    ensures LevelWordAt(s).None?
  {
    hide SpaceRun, WordHere;
  }

  // A placeholder asks for the level that its code and name spell, when no digit and no letter stands
  // right before it, and for none when they have no digit.
  lemma SlotLevelIs(slot: PlanSlot, before: string, s: string, d: char, gap: string, dash: string, between: string, word: string,
    after: string)
    requires slot.code + " " + slot.name == before + s && IsLevelPhrase(s, d, gap, dash, between, word, after)
    requires forall k :: 0 <= k < |before| ==> !IsDigit(before[k])
    requires before == "" || !IsWord(before[|before| - 1])
    ensures SlotLevel(slot) == Some(100 * DigitValue(d))
  {
    hide LevelWordAt, IsWord;
    NoLevelBeforeDigits(false, before, s);
    PhraseIsRead(s, d, gap, dash, between, word, after);
    assert s[0] == d;
  }

  lemma NoLevelAsked(slot: PlanSlot)
    requires forall c :: c in slot.code || c in slot.name ==> !IsDigit(c)
    ensures SlotLevel(slot).None?
  {
    hide FindLevelWord;
    var text := slot.code + " " + slot.name;
    assert text + "" == text;
    NoLevelBeforeDigits(false, text, "");
    NothingFound(if text == "" then false else IsWord(text[|text| - 1]));
  }

  lemma NothingFound(inWord: bool)
    ensures FindLevelWord(inWord, "").None?
  {
  }
}
