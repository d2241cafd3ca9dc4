/**
 Where the evaluator departs from what a reader would expect, with the exact condition for each:
 nested groups, and texts with a word "plus" that no cut takes away.
 */
module RequirementDepartures {
  import opened Text
  import opened PrerequisiteParser
  import opened RequirementLeaves
  import opened RequirementEvaluator
  import opened RequirementLaws
  import opened RequirementTrees
  import opened RequirementReading
  import opened RequirementMeaning
  import opened PlusWords

  // ---------------------------------------------------------------- nested groups

  // Text without the letter p in front of a text cannot complete the word "plus".
  lemma {:induction false} SkipWithoutP(inWord: bool, p: string, rest: string)
    requires (forall ch :: ch in p ==> LowerChar(ch) != 'p') && p != ""
    requires !HasWord(IsWord(p[|p| - 1]), rest, "plus")
    ensures !HasWord(inWord, p + rest, "plus")
    decreases |p|
  {
    hide HasWord;
    assert (p + rest)[1..] == p[1..] + rest;
    assert p[0] in p && forall ch :: ch in p[1..] ==> ch in p;
    if |p| > 1 {
      SkipWithoutP(IsWord(p[0]), p[1..], rest);
    } else {
      assert p[1..] + rest == rest;
    }
    StepOver(inWord, p + rest);
  }

  // What is left between the two inner groups once the outer parentheses are gone.
  function Middle(b: string, c: string): string {
    b + (") and (" + c)
  }

  lemma MiddleThreshold(b: string, c: string)
    requires IsCode(b) && IsCode(c)
    ensures FindThreshold(Middle(b, c)) == None
  {
    hide IsCode, FindThreshold, ThresholdAt;
    var joint := ") and (";
    forall k | 0 <= k < |joint| ensures ThresholdAt(joint[k..] + c).None? {
      NoThresholdInJoint(c, k);
    }
    ThresholdSkips(joint, c);
    CodesListReading([c]);
    assert Join([c], " and ") == c;
    forall k | 0 <= k < |b| ensures ThresholdAt(b[k..] + (joint + c)).None? {
      NoThresholdInCode(b, k, joint + c);
    }
    ThresholdSkips(b, joint + c);
  }

  lemma NoThresholdInJoint(c: string, k: nat)
    requires k < 7
    ensures ThresholdAt(") and ("[k..] + c).None?
  {
    hide ThresholdAt;
    var p := ") and (";
    var u := p[k..] + c;
    assert u[0] == p[k];
    assert k == 2 ==> u[2] == 'd';
    NoThresholdStarts(u);
  }

  lemma MiddleCodes(b: string, c: string)
    requires IsCode(b) && IsCode(c)
    ensures FindCodes(false, Middle(b, c)) == [b, c]
  {
    hide IsCode, FindCodes, CodeLength;
    var z := "(" + c;
    var y := " " + z;
    var x := "and" + y;
    var w := " " + x;
    assert ") and (" + c == ")" + w;
    TailOf(")", w);
    TailOf(" ", x);
    TailOf("and", y);
    TailOf(" ", z);
    TailOf("(", c);
    NoCodeWithoutLetter(w);
    NoCodeWithoutLetter(z);
    GroupWordIsNoCode(c);
    CodeFound(b, ")" + w);
    StepPastNoCode(true, ")" + w);
    StepPastNoCode(false, w);
    StepPastNoCode(false, x);
    CodesInsideWord("nd", y);
    StepPastNoCode(true, y);
    StepPastNoCode(false, z);
    CodeFound(c, "");
    EmptyReadings();
    assert c + "" == c && [b] + [c] == [b, c];
  }

  lemma NoCodeWithoutLetter(s: string)
    requires s != "" && !IsLetter(s[0])
    ensures CodeLength(s) == 0
  {
  }

  lemma GroupWordIsNoCode(c: string)
    ensures CodeLength("and" + (" " + ("(" + c))) == 0
  {
    var x := "and" + (" " + ("(" + c));
    LetterRunIs(x, 3);
    assert x[4] == '(' && x[4..][0] == '(';
  }

  lemma MiddleIsPlain(b: string, c: string)
    requires IsCode(b) && IsCode(c)
    ensures PlusFree(Middle(b, c)) && ',' !in Middle(b, c) && '+' !in Middle(b, c) && Bare(Middle(b, c))
  {
    hide IsCode, HasWord;
    EmptyReadings();
    CodeIsNotPlus(c, "");
    assert c + "" == c;
    SkipWithoutP(true, ") and (", c);
    CodeIsNotPlus(b, ") and (" + c);
    LeafShape(Code(b));
    LeafShape(Code(c));
    CodeChars(b);
    CodeChars(c);
    OnlyWord(b);
    OnlyWord(c);
  }

  lemma MiddleIsSolid(b: string, c: string, sep: string)
    requires IsCode(b) && IsCode(c) && IsSeparator(sep)
    ensures Solid(Middle(b, c), sep)
  {
    hide IsCode, Passes, IsSeparator;
    CodeChars(b);
    CodeChars(c);
    CodeIsSolid(c, sep);
    forall tail | Continues(tail) ensures Passes(Middle(b, c), tail, sep, 0, 0) {
      CloseOpenPasses(c + tail, sep);
      PassesConcat(") and (", c, tail, sep, 0, 0, 0);
      PassesWord(b, (") and (" + c) + tail, sep);
      PassesConcat(b, ") and (" + c, tail, sep, 0, 0, 0);
    }
  }

  lemma CloseOpenPasses(tail: string, sep: string)
    ensures Passes(") and (", tail, sep, 0, 0)
  {
    hide StartsWithFold;
    PassesInside(" and ", "(" + tail, sep, -1);
    assert Passes("(", tail, sep, -1, 0) by { assert "("[1..] == ""; }
    PassesConcat(" and ", "(", tail, sep, -1, -1, 0);
    var w := ") and (";
    assert w[1..] == " and " + "(";
  }

  lemma UnsplitCodesEvaluate(s: string, p: Progress)
    requires Bare(s) && |SplitTop(s, " or ")| <= 1 && |SplitTop(CommasToAnd(s), " and ")| <= 1
    requires ParseCpLevel(s).None? && '+' !in s && !HasPlus(s)
    ensures EvaluateTerm(s, p) == Answer(HoldsAll(FindCodes(false, s), p))
  {
    hide Clean, SplitTop, PlusPieces, DropBlank, CommasToAnd, ParseCpLevel, FindCodes, HasPlus, HoldsCode,
      ThresholdMet, AnyTerm, AllTerms;
    BareIsClean(s);
  }

  // The two inner codes are asked for together.
  lemma MiddleEvaluates(b: string, c: string, p: Progress)
    requires IsCode(b) && IsCode(c)
    ensures EvaluateTerm(Middle(b, c), p) == Answer(HoldsCode(b, p) && HoldsCode(c, p))
  {
    hide EvaluateTerm, IsCode, HasWord, FindThreshold, FindCodes, SplitTop, Solid, Middle, HoldsCode, Bare;
    var s := Middle(b, c);
    MiddleThreshold(b, c);
    MiddleCodes(b, c);
    MiddleIsPlain(b, c);
    MiddleIsSolid(b, c, " or ");
    MiddleIsSolid(b, c, " and ");
    SplitLast(s, " or ");
    SplitLast(s, " and ");
    NoCommasKept(s);
    UnsplitCodesEvaluate(s, p);
    var codes := [b, c];
    assert HoldsAll(codes, p) <==> HoldsCode(b, p) && HoldsCode(c, p) by {
      assert codes[0] == b && codes[1] == c;
    }
  }

  lemma {:induction false} PassesWord(w: string, tail: string, sep: string)
    requires IsSeparator(sep) && forall k :: 0 <= k < |w| ==> IsLetter(w[k]) || IsDigit(w[k])
    ensures Passes(w, tail, sep, 0, 0)
  {
    if w != "" {
      assert !StartsWithFold(w + tail, sep) by {
        if StartsWithFold(w + tail, sep) {
          SeparatorMeans(w + tail, sep);
          assert false;
        }
      }
      hide StartsWithFold;
      PassesWord(w[1..], tail, sep);
    }
  }

  // Two groups joined by "and" inside another pair of parentheses.
  function Nested(a: string, b: string, c: string, d: string): string {
    "((" + (a + " or " + (Middle(b, c) + " or " + d)) + "))"
  }

  lemma NestedSplits(a: string, b: string, c: string, d: string)
    requires IsCode(a) && IsCode(b) && IsCode(c) && IsCode(d)
    ensures SplitTop(a + " or " + (Middle(b, c) + " or " + d), " or ") == [a, Middle(b, c), d]
  {
    hide IsCode, Solid, SplitTop, Middle;
    CodeIsSolid(a, " or ");
    MiddleIsSolid(b, c, " or ");
    CodeIsSolid(d, " or ");
    var parts := [a, Middle(b, c), d];
    assert parts[1..] == [Middle(b, c), d] && parts[1..][1..] == [d];
    assert Join([d], " or ") == d && Join(parts[1..], " or ") == Middle(b, c) + " or " + d;
    assert Join(parts, " or ") == a + " or " + (Middle(b, c) + " or " + d);
    SplitJoin(parts, " or ");
  }

  lemma NestedIsClean(a: string, b: string, c: string, d: string)
    requires IsCode(a) && IsCode(d)
    ensures var y := a + " or " + (Middle(b, c) + " or " + d); Clean(Nested(a, b, c, d)) == y && Bare(y)
  {
    hide IsCode, Clean, Middle;
    LeafShape(Code(a));
    LeafShape(Code(d));
    var y := a + " or " + (Middle(b, c) + " or " + d);
    assert y[0] == a[0] && y[|y| - 1] == d[|d| - 1];
    DoubleGroupIsClean(y);
  }

  lemma {:induction false} StripLeftAll(p: string, y: string, drop: set<char>)
    requires (forall ch :: ch in p ==> ch in drop) && y != "" && y[0] !in drop
    ensures StripLeft(p + y, drop) == y
  {
    if p == "" {
      assert p + y == y;
    } else {
      assert p[0] in p && (p + y)[1..] == p[1..] + y;
      StripLeftAll(p[1..], y, drop);
    }
  }

  lemma {:induction false} StripRightAll(y: string, q: string, drop: set<char>)
    requires (forall ch :: ch in q ==> ch in drop) && y != "" && y[|y| - 1] !in drop
    ensures StripRight(y + q, drop) == y
  {
    if q == "" {
      assert y + q == y;
    } else {
      assert q[|q| - 1] in q && (y + q)[..|y + q| - 1] == y + q[..|q| - 1];
      StripRightAll(y, q[..|q| - 1], drop);
    }
  }

  lemma DoubleGroupIsClean(y: string)
    requires Bare(y)
    ensures Clean("((" + y + "))") == y
  {
    hide StripLeft, StripRight;
    var s := "((" + y + "))";
    assert s[0] == '(' && s[|s| - 1] == ')';
    assert Trim(s) == s;
    assert s == "((" + (y + "))");
    StripLeftAll("((", y + "))", PARENS);
    StripRightAll(y, "))", PARENS);
  }

  lemma ThreeAlternatives(a: string, b: string, c: string, p: Progress)
    ensures AnyTerm([a, b, c], p) ==
      if EvaluateTerm(a, p) != Answer(false) then EvaluateTerm(a, p)
      else if EvaluateTerm(b, p) != Answer(false) then EvaluateTerm(b, p)
      else EvaluateTerm(c, p)
  {
    hide EvaluateTerm;
    assert [a, b, c][1..] == [b, c] && [b, c][1..] == [c] && [c][1..] == [];
    assert AnyTerm([], p) == Answer(false);
    assert AnyTerm([c], p) == EvaluateTerm(c, p);
  }

  // Every outer parenthesis is dropped at once, so "a or b, and c or d" is read as "a, or b and c, or d".
  lemma NestedGroupsEvaluate(a: string, b: string, c: string, d: string, p: Progress)
    requires IsCode(a) && IsCode(b) && IsCode(c) && IsCode(d)
    ensures EvaluateTerm(Nested(a, b, c, d), p) ==
      Answer(HoldsCode(a, p) || (HoldsCode(b, p) && HoldsCode(c, p)) || HoldsCode(d, p))
  {
    hide IsCode, SplitTop, Clean, Nested, EvaluateTerm, HoldsCode, AnyTerm;
    var y := a + " or " + (Middle(b, c) + " or " + d);
    NestedIsClean(a, b, c, d);
    NestedSplits(a, b, c, d);
    BareIsClean(y);
    SameWhenCleaned(Nested(a, b, c, d), y, p);
    ManyAlternatives(y, p);
    CodeEvaluates(a, p);
    MiddleEvaluates(b, c, p);
    CodeEvaluates(d, p);
    ThreeAlternatives(a, Middle(b, c), d, p);
  }

  // What the two groups ask for.
  predicate NestedHolds(a: string, b: string, c: string, d: string, p: Progress) {
    (HoldsCode(a, p) || HoldsCode(b, p)) && (HoldsCode(c, p) || HoldsCode(d, p))
  }

  // The text is read as it is meant exactly when neither of its outer codes stands in for a whole
  // group: not `a` with none of the second group, and not `d` with none of the first.
  lemma NestedGroupsReadIff(a: string, b: string, c: string, d: string, p: Progress)
    requires IsCode(a) && IsCode(b) && IsCode(c) && IsCode(d)
    ensures EvaluateTerm(Nested(a, b, c, d), p) == Answer(NestedHolds(a, b, c, d, p)) <==>
      && !(HoldsCode(a, p) && !HoldsCode(c, p) && !HoldsCode(d, p))
      && !(HoldsCode(d, p) && !HoldsCode(a, p) && !HoldsCode(b, p))
  {
    hide IsCode, EvaluateTerm, HoldsCode, Nested;
    NestedGroupsEvaluate(a, b, c, d, p);
  }

  function HoldingOnly(code: string): Progress {
    Progress({code}, map[], map[], [])
  }

  lemma HeldAlone(code: string, other: string)
    requires IsCode(code) && IsCode(other)
    ensures HoldsCode(other, HoldingOnly(code)) <==> other == code
  {
    hide IsCode, NormalizeCode;
    CodeIsNormal(code);
    CodeIsNormal(other);
    assert Normalized({code}) == {code};
    assert Expand([], {code}) == {code};
  }

  // A student with the last code alone satisfies the text and not what it asks for.
  lemma NestedGroupsMisread(a: string, b: string, c: string, d: string)
    requires IsCode(a) && IsCode(b) && IsCode(c) && IsCode(d) && d != a && d != b
    ensures EvaluateTerm(Nested(a, b, c, d), HoldingOnly(d)) == Answer(true) && !NestedHolds(a, b, c, d, HoldingOnly(d))
  {
    hide IsCode, EvaluateTerm, HoldsCode, Nested, HoldingOnly;
    NestedGroupsEvaluate(a, b, c, d, HoldingOnly(d));
    HeldAlone(d, a);
    HeldAlone(d, b);
    HeldAlone(d, d);
  }

  // ---------------------------------------------------------------- a word "plus" that is never cut

  lemma {:induction false} NoDigitsNoThreshold(s: string)
    requires forall ch :: ch in s ==> !IsDigit(ch)
    ensures FindThreshold(s) == None
    decreases |s|
  {
    if s != "" {
      NoDigitsNoNumber(s);
      NoDigitsNoAnother(s);
      assert s[0] in s && forall ch :: ch in s[1..] ==> ch in s;
      assert LevelAt(s).None?;
      hide NumberAt, AnotherAt, LevelAt, FirstLevel;
      NoDigitsNoThreshold(s[1..]);
    }
  }

  lemma NoDigitsNoNumber(s: string)
    requires forall ch :: ch in s ==> !IsDigit(ch)
    ensures NumberAt(s, false).None? && NumberAt(s, true).None?
  {
    if DigitRun(s) > 0 {
      assert false;
    }
  }

  lemma NoDigitsNoAnother(s: string)
    requires forall ch :: ch in s ==> !IsDigit(ch)
    ensures AnotherAt(s).None?
  {
    if StartsWithFold(s, "another") {
      var a := 7 + SpaceRun(s[7..]);
      assert forall ch :: ch in s[a..] ==> ch in s;
      NoDigitsNoNumber(s[a..]);
    }
    hide NumberAt;
  }

  // Words only: no digit, so that no code and no threshold can be read; no parenthesis, comma or separator.
  ghost predicate PlainWords(s: string) {
    && (forall ch :: ch in s ==> !IsDigit(ch) && ch !in PARENS && ch != ',')
    && (forall k: nat :: !SpelledAt(s, k, " or ") && !SpelledAt(s, k, " and "))
  }

  lemma PlainSlice(s: string, i: nat, j: nat)
    requires PlainWords(s) && i <= j <= |s|
    ensures PlainWords(s[i..j])
  {
    hide SpelledAt;
    assert forall ch :: ch in s[i..j] ==> ch in s;
    forall k: nat ensures !SpelledAt(s[i..j], k, " or ") && !SpelledAt(s[i..j], k, " and ") {
      NotSpelledInSlice(s, i, j, k, " or ");
      NotSpelledInSlice(s, i, j, k, " and ");
    }
  }

  lemma {:induction false} Unsplit(s: string, b: nat, sep: string, depth: int)
    requires sep != "" && b <= |s| && forall k: nat :: !SpelledAt(s, k, sep)
    ensures |SplitRest(s[b..], sep, depth, s[..b])| <= 1
    decreases |s| - b
  {
    hide StartsWithFold, SpelledAt, Trim;
    if b < |s| {
      var rest := s[b..];
      SpelledIsStart(s, b, sep);
      assert rest[1..] == s[b + 1..] && s[..b] + [s[b]] == s[..b + 1];
      Unsplit(s, b + 1, sep, if rest[0] == '(' then depth + 1 else if rest[0] == ')' then depth - 1 else depth);
    }
  }

  lemma PlainIsUnsplit(s: string)
    requires PlainWords(s)
    ensures |SplitTop(s, " or ")| <= 1 && |SplitTop(s, " and ")| <= 1
  {
    hide SplitRest, SpelledAt;
    assert s[0..] == s && s[..0] == "";
    Unsplit(s, 0, " or ", 0);
    Unsplit(s, 0, " and ", 0);
  }

  lemma PlainReads(s: string)
    requires PlainWords(s)
    ensures ParseCpLevel(s).None? && FindCodes(false, s) == [] && CommasToAnd(s) == s
  {
    hide FindThreshold, FindCodes, SpelledAt;
    NoDigitsNoThreshold(s);
    NoDigitsNoCodes(false, s);
    NoCommasKept(s);
  }

  // A cut inside a part would have been a cut of the whole.
  lemma CutInPrefix(s: string, n: nat)
    requires n <= |s| && PlusLength(s[..n]) > 0
    ensures PlusLength(s) > 0
  {
    var t := s[..n];
    var a := SpaceRun(t);
    SpaceRunIs(s, a);
    assert t[a] == s[a];
    if t[a] != '+' {
      assert forall k :: 0 <= k < 4 ==> s[a..][k] == t[a..][k];
      assert t[a + 4..][0] == s[a + 4..][0];
    }
  }

  lemma UncutSlice(s: string, i: nat, j: nat)
    requires i <= j <= |s| && NoCut(s, i, j)
    ensures NoCut(s[i..j], 0, j - i)
  {
    hide PlusLength;
    forall q | 0 <= q < j - i ensures PlusLength(s[i..j][q..]) == 0 {
      assert s[i..j][q..] == s[i + q..][..j - i - q];
      if PlusLength(s[i..j][q..]) > 0 {
        CutInPrefix(s[i + q..], j - i - q);
      }
    }
  }

  // Pieces are never cut again.
  lemma {:induction false} PiecesAreUncut(s: string, a: nat, b: nat)
    requires PlainWords(s) && a <= b <= |s| && NoCut(s, a, b)
    ensures forall piece :: piece in PlusPieces(s[b..], s[a..b]) ==> PlainWords(piece) && NoCut(piece, 0, |piece|)
    decreases |s| - b
  {
    hide PlainWords, PlusLength;
    var rest := s[b..];
    PlainSlice(s, a, b);
    UncutSlice(s, a, b);
    if rest == "" {
    } else if PlusLength(rest) > 0 {
      var c := b + PlusLength(rest);
      assert rest[PlusLength(rest)..] == s[c..] && s[c..c] == "";
      PiecesAreUncut(s, c, c);
    } else {
      assert rest[1..] == s[b + 1..] && s[a..b] + [s[b]] == s[a..b + 1];
      PiecesAreUncut(s, a, b + 1);
    }
  }

  lemma {:induction false} UncutIsOnePiece(s: string, b: nat)
    requires b <= |s| && NoCut(s, b, |s|)
    ensures PlusPieces(s[b..], s[..b]) == [s]
    decreases |s| - b
  {
    hide PlusLength;
    if b < |s| {
      assert s[b..][1..] == s[b + 1..] && s[..b] + [s[b]] == s[..b + 1];
      UncutIsOnePiece(s, b + 1);
    } else {
      assert s[..b] == s;
    }
  }

  // Cleaning words only takes spaces away, and no letter of a word.
  lemma CleanedWords(s: string) returns (i: nat, j: nat)
    requires PlainWords(s)
    ensures i <= j <= |s| && Clean(s) == Trim(s) == s[i..j] && (Clean(s) != "" ==> Bare(Clean(s)))
    ensures HasPlus(s) <==> HasPlus(s[i..j])
  {
    hide PlusAt, HasWord, StripLeft, StripRight;
    i, j := StripSlice(s, SPACES);
    var t := s[i..j];
    assert forall ch :: ch in t ==> ch in s;
    assert t != "" ==> t[0] in t && t[|t| - 1] in t;
    HasPlusIff(s);
    HasPlusIff(t);
    if HasPlus(s) {
      var k: nat :| k <= |s| && PlusAt(s, k);
      PlusKeptByTrim(s, i, j, k);
    }
    if HasPlus(t) {
      var k: nat :| k <= |t| && PlusAt(t, k);
      PlusInSlice(s, i, j, k);
    }
  }

  lemma PlusKeptByTrim(s: string, i: nat, j: nat, k: nat)
    requires i <= j <= |s| && PlusAt(s, k) && forall q :: 0 <= q < i || j <= q < |s| ==> IsSpace(s[q])
    ensures i <= k && k + 4 <= j && PlusAt(s[i..j], k - i)
  {
    hide SpelledAt, IsSpace, IsWord, PlusAt;
    LetterOf(s, k, 0);
    LetterOf(s, k, 3);
    FirmIsNoSpace(s[k]);
    FirmIsNoSpace(s[k + 3]);
    assert s[i..j] + s[j..] == s[i..] && s == s[..i] + s[i..];
    PlusTail(s, i, k);
    assert s[i..][..j - i] == s[i..j];
    PlusInPrefix(s[i..j], s[j..], k - i);
  }

  lemma PlusTail(s: string, i: nat, k: nat)
    requires i <= k && PlusAt(s, k) && i <= |s|
    ensures PlusAt(s[i..], k - i)
  {
    assert forall m :: 0 <= m < |s| - i ==> s[i..][m] == s[i + m];
    forall m | 0 <= m < 4 ensures LowerChar(s[i..][k - i + m]) == "plus"[m] {
      assert s[i..][k - i + m] == s[k + m];
    }
  }

  // A piece of words either keeps the word and overflows, or asks for nothing.
  lemma PieceEvaluates(piece: string, p: Progress)
    requires PlainWords(piece) && NoCut(piece, 0, |piece|)
    ensures EvaluateTerm(piece, p) == if HasPlus(piece) then Overflow else Answer(true)
  {
    hide Clean, Trim, SplitTop, PlusPieces, CommasToAnd, ParseCpLevel, FindCodes, HasPlus, EvaluateTerm, Bare, PlainWords,
      PlusLength;
    var i, j := CleanedWords(piece);
    var c := piece[i..j];
    if c == "" {
      EmptyAsksNothing(piece, p);
      NoWordInNothing();
    } else {
      PlainSlice(piece, i, j);
      PlainIsUnsplit(c);
      PlainReads(c);
      UncutPart(piece, i, j);
      assert c[0..] == c && c[..0] == "";
      UncutIsOnePiece(c, 0);
      BareIsClean(c);
      SameWhenCleaned(piece, c, p);
      OnePieceEvaluates(c, p);
    }
  }

  lemma UncutPart(s: string, i: nat, j: nat)
    requires i <= j <= |s| && NoCut(s, 0, |s|)
    ensures NoCut(s[i..j], 0, j - i)
  {
    UncutSlice(s, i, j);
  }

  lemma EmptyAsksNothing(term: string, p: Progress)
    requires Clean(term) == ""
    ensures EvaluateTerm(term, p) == Answer(true)
  {
    hide Clean, SplitTop, PlusPieces, DropBlank, CommasToAnd, ParseCpLevel, FindCodes, HasPlus, HoldsCode, HoldsAll,
      ThresholdMet, AnyTerm, AllTerms;
  }

  lemma NoWordInNothing()
    ensures !HasPlus("")
  {
  }

  lemma OnePieceEvaluates(c: string, p: Progress)
    requires Bare(c) && |SplitTop(c, " or ")| <= 1 && |SplitTop(CommasToAnd(c), " and ")| <= 1
    requires ParseCpLevel(c).None? && FindCodes(false, c) == [] && PlusPieces(c, "") == [c]
    ensures EvaluateTerm(c, p) == if HasPlus(c) then Overflow else Answer(true)
  {
    hide Clean, SplitTop, PlusPieces, DropBlank, CommasToAnd, ParseCpLevel, FindCodes, HasPlus, HoldsCode,
      ThresholdMet, AnyTerm, AllTerms;
    BareIsClean(c);
    if '+' in c {
      PlusSignSplits(c, "");
    }
  }

  ghost predicate KeepsWord(pieces: seq<string>) {
    exists k :: 0 <= k < |pieces| && HasPlus(pieces[k])
  }

  lemma NothingKept()
    ensures !KeepsWord([])
  {
  }

  lemma {:induction false} PiecesEvaluate(pieces: seq<string>, p: Progress)
    requires forall piece :: piece in pieces ==> PlainWords(piece) && NoCut(piece, 0, |piece|)
    ensures AllTerms(DropBlank(pieces), p) == if KeepsWord(pieces) then Overflow else Answer(true)
  {
    hide EvaluateTerm, PlainWords, NoCut, HasPlus, Trim, KeepsWord, AllTerms;
    if pieces == [] {
      NothingKept();
      AllOfNothing(p);
    } else {
      var rest := pieces[1..];
      PiecesEvaluate(rest, p);
      PieceEvaluates(pieces[0], p);
      KeepsSplits(pieces[0], rest);
      assert pieces == [pieces[0]] + rest;
      if Trim(pieces[0]) == "" {
        BlankHasNoWord(pieces[0]);
        assert DropBlank(pieces) == DropBlank(rest);
      } else {
        AllOfMore(pieces[0], DropBlank(rest), p);
      }
    }
  }

  lemma AllOfNothing(p: Progress)
    ensures AllTerms([], p) == Answer(true)
  {
  }

  lemma AllOfMore(term: string, rest: seq<string>, p: Progress)
    ensures AllTerms([term] + rest, p) == if EvaluateTerm(term, p) == Answer(true) then AllTerms(rest, p) else EvaluateTerm(term, p)
  {
    hide EvaluateTerm;
    assert ([term] + rest)[1..] == rest;
  }

  lemma BlankHasNoWord(s: string)
    requires PlainWords(s) && Trim(s) == ""
    ensures !HasPlus(s)
  {
    hide PlainWords, HasPlus, Trim;
    var i, j := CleanedWords(s);
    NoWordInNothing();
  }

  lemma KeepsSplits(piece: string, rest: seq<string>)
    ensures KeepsWord([piece] + rest) <==> HasPlus(piece) || KeepsWord(rest)
  {
    hide HasPlus;
    var all := [piece] + rest;
    if HasPlus(piece) {
      assert HasPlus(all[0]);
    }
    if KeepsWord(rest) {
      var k :| 0 <= k < |rest| && HasPlus(rest[k]);
      assert HasPlus(all[k + 1]);
    }
  }

  // Where the evaluator cuts there is a plus sign or the word.
  lemma CutMeansPlus(s: string, q: nat)
    requires q < |s| && PlusLength(s[q..]) > 0
    ensures '+' in s || HasPlus(s)
  {
    hide HasWord, SpelledAt;
    var t := s[q..];
    var a := SpaceRun(t);
    if t[a] == '+' {
      assert s[q + a] == '+';
    } else {
      HasPlusIff(s);
      assert t[a..] == s[q + a..] && t[a + 4..] == s[q + a + 4..];
      SpelledIsStart(s, q + a, "plus");
      assert t[a - 1] == s[q + a - 1] && t[a + 4..][0] == s[q + a + 4];
      FirmIsNoSpace(s[q + a - 1]);
      FirmIsNoSpace(s[q + a + 4]);
      assert PlusAt(s, q + a);
    }
  }

  lemma CutIntoPieces(t: string)
    requires |PlusPieces(t, "")| > 1
    ensures '+' in t || HasPlus(t)
  {
    hide PlusPieces, PlusLength, HasPlus;
    if NoCut(t, 0, |t|) {
      assert t[0..] == t && t[..0] == "";
      UncutIsOnePiece(t, 0);
    } else {
      var q :| 0 <= q < |t| && PlusLength(t[q..]) != 0;
      CutMeansPlus(t, q);
    }
  }

  lemma ManyPiecesEvaluate(t: string, p: Progress)
    requires Bare(t) && |SplitTop(t, " or ")| <= 1 && ParseCpLevel(t).None? && FindCodes(false, t) == []
    requires ('+' in t || HasPlus(t)) && |PlusPieces(t, "")| > 1
    ensures EvaluateTerm(t, p) == AllTerms(DropBlank(PlusPieces(t, "")), p)
  {
    hide Clean, SplitTop, PlusPieces, DropBlank, CommasToAnd, ParseCpLevel, FindCodes, HasPlus, HoldsCode,
      ThresholdMet, AnyTerm, AllTerms;
    BareIsClean(t);
  }

  lemma WordsEvaluate(t: string, p: Progress)
    requires PlainWords(t) && Bare(t)
    ensures EvaluateTerm(t, p) == if KeepsWord(PlusPieces(t, "")) then Overflow else Answer(true)
  {
    hide SplitTop, CommasToAnd, ParseCpLevel, FindCodes, HasPlus, EvaluateTerm, PlainWords, Bare, PlusPieces, KeepsWord, PlusLength,
      DropBlank, AllTerms, NoCut;
    var pieces := PlusPieces(t, "");
    PlainIsUnsplit(t);
    PlainReads(t);
    PlusWeight(t, "");
    assert "" + t == t;
    if |pieces| == 1 {
      OnePieceEvaluates(t, p);
      KeepsSplits(t, []);
      assert [t] + [] == [t];
      NothingKept();
    } else {
      CutIntoPieces(t);
      ManyPiecesEvaluate(t, p);
      WordPiecesEvaluate(t, p);
    }
  }

  lemma WordPiecesEvaluate(t: string, p: Progress)
    requires PlainWords(t)
    ensures AllTerms(DropBlank(PlusPieces(t, "")), p) == if KeepsWord(PlusPieces(t, "")) then Overflow else Answer(true)
  {
    hide PlainWords, PlusPieces, PlusLength, DropBlank, AllTerms, KeepsWord;
    assert t[0..] == t && t[0..0] == "";
    PiecesAreUncut(t, 0, 0);
    PiecesEvaluate(PlusPieces(t, ""), p);
  }

  lemma OnePart(text: string, p: Progress)
    requires |SplitTop(Trim(text), " or ")| <= 1 && |SplitTop(Trim(text), " and ")| <= 1
    ensures EvaluateExpression(text, p) ==
      if Trim(text) == "" || Lower(Trim(text)) == "none" then Answer(true) else EvaluateTerm(Trim(text), p)
  {
    hide SplitTop, EvaluateTerm, AnyExpression, AllTerms, Trim;
  }

  lemma NoWordKept(t: string)
    requires t == "" || Lower(t) == "none"
    ensures !KeepsWord(PlusPieces(t, ""))
  {
    hide PlusPieces, Guarded;
    assert forall ch :: ch in "none" ==> ch != 'p';
    assert "plus"[0] == 'p';
    if t != "" {
      assert forall k :: 0 <= k < |t| ==> LowerChar(t[k]) == Lower(t)[k] && Lower(t)[k] in "none";
    }
    LacksLetter(t, 0, 'p');
    PlusFreeIsGuarded(t);
    GuardedTextPieces(t);
  }

  // A text of words overflows exactly when cutting it at its separated words "plus" leaves one in a
  // piece; otherwise it asks for nothing.
  lemma WordsOverflowIff(text: string, p: Progress)
    requires PlainWords(text)
    ensures EvaluateExpression(text, p) ==
      if KeepsWord(PlusPieces(Trim(text), "")) then Overflow else Answer(true)
  {
    hide SplitTop, HasPlus, EvaluateTerm, EvaluateExpression, PlainWords, Bare, Clean, Trim, PlusPieces, Lower, KeepsWord;
    var i, j := CleanedWords(text);
    var t := Trim(text);
    PlainSlice(text, i, j);
    PlainIsUnsplit(t);
    OnePart(text, p);
    if t == "" || Lower(t) == "none" {
      NoWordKept(t);
    } else {
      WordsEvaluate(t, p);
    }
  }

  // Digits or not: a bare text that is cut nowhere and holds no code and no threshold overflows
  // exactly when it has the word.
  lemma OnePieceOverflowsIff(t: string, p: Progress)
    requires Bare(t) && |SplitTop(t, " or ")| <= 1 && ParseCpLevel(t).None? && FindCodes(false, t) == []
    requires |PlusPieces(t, "")| == 1
    ensures EvaluateTerm(t, p) == Overflow <==> HasPlus(t)
  {
    hide Clean, SplitTop, PlusPieces, DropBlank, CommasToAnd, ParseCpLevel, FindCodes, HasPlus, HoldsCode,
      ThresholdMet, AnyTerm, AllTerms;
    BareIsClean(t);
    if !HasPlus(t) {
      TermAnswers(t, p);
    }
  }

  // The bare word never gets an answer, whatever is held.
  lemma BarePlusOverflows(p: Progress)
    ensures EvaluateExpression("plus", p) == Overflow
  {
    hide EvaluateExpression, HasPlus, PlusPieces, Trim, PlainWords;
    PlusIsPlain();
    OnePlusPiece("plus", "");
    assert "" + "plus" == "plus";
    PlusAtStart();
    HasPlusIff("plus");
    WordsOverflowIff("plus", p);
    assert HasPlus(PlusPieces("plus", "")[0]);
  }

  lemma PlusAtStart()
    ensures PlusAt("plus", 0) && Trim("plus") == "plus"
  {
    WordItself();
    assert "plus"[0] == 'p' && "plus"[3] == 's';
  }

  lemma PlusIsPlain()
    ensures PlainWords("plus")
  {
    hide SpelledAt;
    assert "plus"[0] == 'p' && "plus"[1] == 'l' && "plus"[2] == 'u' && "plus"[3] == 's';
    forall k: nat ensures !SpelledAt("plus", k, " or ") && !SpelledAt("plus", k, " and ") {
      SpelledLetters("plus", k);
    }
  }

  lemma {:induction false} OnePlusPiece(s: string, current: string)
    requires forall k :: 0 <= k < |s| ==> IsLetter(s[k])
    ensures PlusPieces(s, current) == [current + s]
    decreases |s|
  {
    hide IsLetter;
    if s == "" {
      assert current + s == current;
    } else {
      LettersAreNotCut(s);
      hide PlusLength;
      assert current + [s[0]] + s[1..] == current + s;
      OnePlusPiece(s[1..], current + [s[0]]);
    }
  }

  lemma LettersAreNotCut(s: string)
    requires s != "" && IsLetter(s[0])
    ensures PlusLength(s) == 0
  {
  }
}
