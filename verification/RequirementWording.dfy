/** Other wordings of requirements than the printed tree, and what each of them asks for. */
module RequirementWording {
  // Lists of codes with plus signs, commas or slashes, a code beside a threshold, and texts that ask for nothing.

  import opened Text
  import opened PrerequisiteParser
  import opened RequirementLeaves
  import opened RequirementEvaluator
  import opened RequirementLaws
  import opened RequirementTrees
  import opened RequirementReading
  import opened RequirementMeaning

  // ---------------------------------------------------------------- pieces

  predicate NoneBlank(parts: seq<string>) {
    forall k :: 0 <= k < |parts| ==> parts[k] != "" && Trim(parts[k]) == parts[k]
  }

  lemma {:induction false} RestHasNoBlank(rest: string, sep: string, depth: int, current: string)
    requires sep != ""
    ensures NoneBlank(SplitRest(rest, sep, depth, current))
    decreases |rest|
  {
    hide StartsWithFold, Trim;
    ChunkHasNoBlank(current);
    if rest != "" {
      if rest[0] != '(' && rest[0] != ')' && depth == 0 && StartsWithFold(rest, sep) {
        RestHasNoBlank(rest[|sep|..], sep, 0, "");
      } else {
        var depth' := if rest[0] == '(' then depth + 1 else if rest[0] == ')' then depth - 1 else depth;
        RestHasNoBlank(rest[1..], sep, depth', current + [rest[0]]);
      }
    }
  }

  lemma ChunkHasNoBlank(current: string)
    ensures NoneBlank(Chunk(current))
  {
    TrimmedIsTrimmed(current);
  }

  lemma TrimmedIsTrimmed(s: string)
    ensures Trim(Trim(s)) == Trim(s)
  {
  }

  // Splitting yields trimmed pieces, and drops those that are blank.
  lemma PiecesAreNotBlank(text: string, sep: string)
    requires sep != ""
    ensures NoneBlank(SplitTop(text, sep))
  {
    RestHasNoBlank(text, sep, 0, "");
  }

  // ---------------------------------------------------------------- nothing asked

  lemma NothingAsked(text: string, p: Progress)
    requires Lower(Trim(text)) in {"", "none"}
    ensures EvaluateExpression(text, p) == Answer(true)
  {
    hide SplitTop, EvaluateTerm, AnyExpression, AllTerms, Trim;
    assert Trim(text) != "" ==> |Lower(Trim(text))| > 0;
  }

  // ---------------------------------------------------------------- lists of codes

  // A joint between codes; slashes stand without space.
  predicate IsJoint(w: string) {
    w in {" plus ", " + ", "+", ", ", "/"}
  }

  lemma JointChars(w: string)
    requires IsJoint(w)
    ensures 1 <= |w| <= 6 && !IsWord(w[0]) && !IsWord(w[|w| - 1]) && AfterCode(w)
    ensures forall k :: 0 <= k < |w| ==> !IsDigit(w[k]) && w[k] !in {'A', 'a', '(', ')', 'o', 'O'}
  {
  }

  lemma NoThresholdInJoint(w: string, t: string)
    requires IsJoint(w)
    ensures FindThreshold(w + t) == FindThreshold(t)
  {
    hide FindThreshold, ThresholdAt;
    JointChars(w);
    forall k | 0 <= k < |w| ensures ThresholdAt(w[k..] + t).None? {
      var u := w[k..] + t;
      assert u[0] == w[k];
      NoThresholdStarts(u);
    }
    ThresholdSkips(w, t);
  }

  lemma PlusIsNoCode(t: string)
    requires t != "" && IsLetter(t[0])
    ensures FindCodes(true, " plus " + t) == FindCodes(false, t)
  {
    hide CodeLength, FindCodes;
    var y := " " + t;
    var x := "plus" + y;
    assert " plus " + t == " " + x;
    FourLettersAreNoCode(t);
    TailOf(" ", x);
    StepPastNoCode(true, " " + x);
    TailOf("plus", y);
    StepPastNoCode(false, x);
    CodesInsideWord("lus", y);
    TailOf(" ", t);
    StepPastNoCode(true, y);
  }

  lemma FourLettersAreNoCode(t: string)
    requires t != "" && IsLetter(t[0])
    ensures CodeLength("plus" + (" " + t)) == 0
  {
    var x := "plus" + (" " + t);
    LetterRunIs(x, 4);
    assert x[5..] == t;
  }

  lemma NoCodeInJoint(w: string, t: string)
    requires IsJoint(w) && t != "" && IsLetter(t[0])
    ensures FindCodes(true, w + t) == FindCodes(false, t)
  {
    hide FindCodes, CodeLength;
    if w == " plus " {
      PlusIsNoCode(t);
    } else {
      var s := w + t;
      forall k | 0 <= k < |w| ensures !ThreeLetters(s, k) {
        assert s[k] == w[k];
      }
      CodesSkip(true, w, t);
    }
  }

  lemma {:induction false} JoinedReading(codes: seq<string>, w: string)
    requires codes != [] && AllCodes(codes) && IsJoint(w)
    ensures var text := Join(codes, w);
      text != "" && IsLetter(text[0]) && FindThreshold(text) == None && FindCodes(false, text) == codes
  {
    hide IsCode, FindThreshold, FindCodes, AfterCode, IsJoint;
    var c := codes[0];
    var rest := if |codes| == 1 then "" else w + Join(codes[1..], w);
    CodeChars(c);
    JointChars(w);
    assert Join(codes, w) == c + rest;
    if |codes| > 1 {
      JoinedReading(codes[1..], w);
      var t := Join(codes[1..], w);
      NoThresholdInJoint(w, t);
      NoCodeInJoint(w, t);
      AfterJoint(w, t);
    } else {
      EmptyReadings();
      NothingBehind();
    }
    forall k | 0 <= k < |c| ensures ThresholdAt(c[k..] + rest).None? {
      NoThresholdInCode(c, k, rest);
    }
    ThresholdSkips(c, rest);
    CodeFound(c, rest);
    assert codes == [c] + codes[1..];
  }

  lemma NothingBehind()
    ensures AfterCode("")
  {
  }

  lemma AfterJoint(w: string, t: string)
    requires IsJoint(w)
    ensures AfterCode(w + t) && !IsWord((w + t)[0])
  {
  }

  // ---------------------------------------------------------------- such a list is not split

  lemma LongWord(t: string, sep: string)
    requires IsSeparator(sep) && |t| >= 5 && forall k :: 0 <= k < 5 ==> IsWord(t[k])
    ensures !StartsWithFold(" " + t, sep)
  {
    var u := " " + t;
    assert u[3] == t[2] && u[4] == t[3];
    assert " or "[3] == ' ' && " and "[4] == ' ';
    assert forall k :: 0 <= k < 5 ==> LowerChar(t[k]) != ' ';
  }

  lemma NotAtChar(u: string, sep: string)
    requires IsSeparator(sep) && u != "" && (u[0] != ' ' || (|u| > 1 && u[1] in {'p', '+'}))
    ensures !StartsWithFold(u, sep)
  {
    if StartsWithFold(u, sep) {
      SeparatorMeans(u, sep);
      assert false;
    }
  }

  lemma JointSuffixes(w: string, t: string, sep: string, k: nat)
    requires IsJoint(w) && k < |w| && IsSeparator(sep)
    requires |t| >= 5 && forall j :: 0 <= j < 5 ==> IsWord(t[j])
    ensures !StartsWithFold(w[k..] + t, sep)
  {
    var u := w[k..] + t;
    assert u[0] == w[k];
    if w[k] == ' ' && k + 1 == |w| {
      assert u == " " + t;
      LongWord(t, sep);
    } else {
      assert k + 1 < |w| ==> u[1] == w[k + 1];
      NotAtChar(u, sep);
    }
  }

  lemma {:induction false} SuffixPasses(w: string, tail: string, sep: string)
    requires '(' !in w && ')' !in w && forall k :: 0 <= k < |w| ==> !StartsWithFold(w[k..] + tail, sep)
    ensures Passes(w, tail, sep, 0, 0)
  {
    hide StartsWithFold;
    if w != "" {
      assert w[0..] == w;
      forall k | 0 <= k < |w[1..]| ensures !StartsWithFold(w[1..][k..] + tail, sep) {
        assert w[1..][k..] == w[k + 1..];
      }
      SuffixPasses(w[1..], tail, sep);
    }
  }

  lemma JointPasses(w: string, t: string, sep: string)
    requires IsJoint(w) && IsSeparator(sep) && |t| >= 5 && forall j :: 0 <= j < 5 ==> IsWord(t[j])
    ensures Passes(w, t, sep, 0, 0)
  {
    hide StartsWithFold, IsJoint;
    JointChars(w);
    forall k | 0 <= k < |w| ensures !StartsWithFold(w[k..] + t, sep) {
      JointSuffixes(w, t, sep, k);
    }
    SuffixPasses(w, t, sep);
  }

  lemma JoinedStarts(codes: seq<string>, w: string)
    requires codes != [] && AllCodes(codes)
    ensures var t := Join(codes, w); |t| >= 5 && forall j :: 0 <= j < 5 ==> IsWord(t[j])
  {
    hide IsCode;
    CodeChars(codes[0]);
  }

  lemma {:induction false} JoinedPasses(codes: seq<string>, w: string, tail: string, sep: string)
    requires codes != [] && AllCodes(codes) && IsJoint(w) && IsSeparator(sep) && Continues(tail)
    ensures Passes(Join(codes, w), tail, sep, 0, 0)
    decreases |codes|
  {
    hide IsCode, Passes, IsJoint, IsSeparator, Continues;
    var c := codes[0];
    CodeIsSolid(c, sep);
    if |codes| > 1 {
      var t := Join(codes[1..], w);
      JoinedPasses(codes[1..], w, tail, sep);
      JoinedStarts(codes[1..], w);
      JointPasses(w, t + tail, sep);
      PassesConcat(w, t, tail, sep, 0, 0, 0);
      WordPasses(c, (w + t) + tail, sep);
      PassesConcat(c, w + t, tail, sep, 0, 0, 0);
      assert Join(codes, w) == c + (w + t);
    } else {
      SolidPasses(c, tail, sep);
    }
  }

  lemma SolidPasses(c: string, tail: string, sep: string)
    requires Solid(c, sep) && Continues(tail)
    ensures Passes(c, tail, sep, 0, 0)
  {
  }

  lemma WordPasses(c: string, tail: string, sep: string)
    requires IsCode(c) && IsSeparator(sep)
    ensures Passes(c, tail, sep, 0, 0)
  {
    hide StartsWithFold, Passes;
    CodeChars(c);
    hide IsCode;
    forall k | 0 <= k < |c| ensures !StartsWithFold(c[k..] + tail, sep) {
      assert (c[k..] + tail)[0] == c[k];
      NotAtChar(c[k..] + tail, sep);
    }
    SuffixPasses(c, tail, sep);
  }

  lemma JoinedEnds(codes: seq<string>, w: string)
    requires codes != [] && AllCodes(codes)
    ensures var t := Join(codes, w); |t| >= 5 && IsDigit(t[|t| - 1]) && IsLetter(t[0])
    decreases |codes|
  {
    hide IsCode;
    CodeChars(codes[0]);
    if |codes| > 1 {
      JoinedEnds(codes[1..], w);
    }
  }

  lemma JoinedIsWhole(codes: seq<string>, w: string)
    requires codes != [] && AllCodes(codes) && IsJoint(w)
    ensures var t := Join(codes, w); Bare(t) && |t| >= 5 && SplitTop(t, " or ") == [t] && SplitTop(t, " and ") == [t]
  {
    hide IsCode, IsJoint, Passes, SplitRest;
    var t := Join(codes, w);
    JoinedEnds(codes, w);
    BareIsClean(t);
    forall tail, sep | Continues(tail) && sep in {" or ", " and "} ensures Passes(t, tail, sep, 0, 0) {
      JoinedPasses(codes, w, tail, sep);
    }
    SplitLast(t, " or ");
    SplitLast(t, " and ");
  }

  // ---------------------------------------------------------------- plus signs

  lemma {:induction false} PlusPastCode(c: string, rest: string, current: string)
    requires forall k :: 0 <= k < |c| ==> IsWord(c[k])
    ensures PlusPieces(c + rest, current) == PlusPieces(rest, current + c)
    decreases |c|
  {
    hide PlusPieces, PlusLength;
    if c == "" {
      assert c + rest == rest && current + c == current;
    } else {
      var s := c + rest;
      NoPlusAtWord(s);
      StepPlus(s, current);
      assert s[1..] == c[1..] + rest;
      PlusPastCode(c[1..], rest, current + [c[0]]);
      assert (current + [c[0]]) + c[1..] == current + c;
    }
  }

  lemma NoPlusAtWord(s: string)
    requires s != "" && IsWord(s[0])
    ensures PlusLength(s) == 0
  {
    assert SpaceRun(s) == 0;
  }

  lemma StepPlus(s: string, current: string)
    requires s != "" && PlusLength(s) == 0
    ensures PlusPieces(s, current) == PlusPieces(s[1..], current + [s[0]])
  {
    hide PlusLength;
  }

  lemma CutPlus(s: string, current: string)
    requires s != "" && PlusLength(s) > 0
    ensures PlusPieces(s, current) == [current] + PlusPieces(s[PlusLength(s)..], "")
  {
    hide PlusLength;
  }

  predicate IsPlusJoint(w: string) {
    w in {" plus ", " + ", "+"}
  }

  lemma PlusJointLength(w: string, t: string)
    requires IsPlusJoint(w) && t != "" && !IsSpace(t[0])
    ensures |w| > 0 && PlusLength(w + t) == |w| && (w + t)[|w|..] == t
  {
    var s := w + t;
    assert SpaceRun(t) == 0;
    if w == "+" {
      assert s[1..] == t;
    } else if w == " + " {
      assert s[1] == '+' && SpaceRun(s) == 1 && s[2..] == " " + t;
      OneSpace(t);
    } else {
      PlusWordLength(t);
    }
  }

  lemma OneSpace(t: string)
    requires t != "" && !IsSpace(t[0])
    ensures SpaceRun(" " + t) == 1
  {
    assert (" " + t)[1..] == t;
  }

  lemma PlusWordLength(t: string)
    requires t != "" && !IsSpace(t[0])
    ensures PlusLength(" plus " + t) == 6
  {
    var s := " plus " + t;
    assert s == " " + ("plus " + t);
    OneSpace("plus " + t);
    assert StartsWithFold(s[1..], "plus");
    assert s[5..] == " " + t;
    OneSpace(t);
  }

  lemma PlusPiecesStep(c: string, w: string, t: string)
    requires IsCode(c) && IsPlusJoint(w) && t != "" && IsLetter(t[0])
    ensures PlusPieces(c + (w + t), "") == [c] + PlusPieces(t, "")
  {
    hide IsCode, PlusPieces, PlusLength, IsPlusJoint;
    CodeChars(c);
    PlusJointLength(w, t);
    PlusPastCode(c, w + t, "");
    assert "" + c == c;
    CutPlus(w + t, c);
  }

  lemma {:induction false} PlusPiecesOfCodes(codes: seq<string>, w: string)
    requires codes != [] && AllCodes(codes) && IsPlusJoint(w)
    ensures PlusPieces(Join(codes, w), "") == codes
  {
    hide IsCode, PlusPieces, IsPlusJoint, IsLetter, IsDigit;
    var c := codes[0];
    if |codes| == 1 {
      OnePlusPiece(c);
    } else {
      PlusPiecesOfCodes(codes[1..], w);
      JoinedEnds(codes[1..], w);
      PlusPiecesStep(c, w, Join(codes[1..], w));
      assert Join(codes, w) == c + (w + Join(codes[1..], w));
    }
  }

  lemma OnePlusPiece(c: string)
    requires IsCode(c)
    ensures PlusPieces(c, "") == [c]
  {
    hide IsCode, PlusPieces;
    CodeChars(c);
    PlusPastCode(c, "", "");
    assert c + "" == c && "" + c == c;
    LastPiece(c);
  }

  lemma LastPiece(c: string)
    ensures PlusPieces("", c) == [c]
  {
  }

  lemma {:induction false} CodesAreNotBlank(codes: seq<string>)
    requires AllCodes(codes)
    ensures DropBlank(codes) == codes
  {
    hide IsCode, Trim;
    if codes != [] {
      CodeIsTrimmed(codes[0]);
      CodesAreNotBlank(codes[1..]);
    }
  }

  lemma CodeIsTrimmed(c: string)
    requires IsCode(c)
    ensures Trim(c) == c && c != ""
  {
    hide IsCode;
    LeafShape(Code(c));
    BareIsClean(c);
  }

  lemma PlusTextEvaluates(t: string, codes: seq<string>, p: Progress)
    requires Bare(t) && SplitTop(t, " or ") == [t] && ParseCpLevel(t).None? && FindCodes(false, t) == codes && |codes| > 1
    requires PlusPieces(t, "") == codes && DropBlank(codes) == codes && AllTerms(codes, p) == Answer(HoldsAll(codes, p))
    requires ('+' in t || HasPlus(t)) || SplitTop(CommasToAnd(t), " and ") == [t]
    ensures EvaluateTerm(t, p) == Answer(HoldsAll(codes, p))
  {
    hide Clean, SplitTop, PlusPieces, DropBlank, CommasToAnd, ParseCpLevel, FindCodes, HasPlus, HoldsCode,
      ThresholdMet, AnyTerm, AllTerms, HoldsAll;
    BareIsClean(t);
  }

  lemma WholeExpression(t: string, p: Progress)
    requires Bare(t) && |t| >= 5 && SplitTop(t, " or ") == [t] && SplitTop(t, " and ") == [t]
    ensures EvaluateExpression(t, p) == EvaluateTerm(t, p)
  {
    hide SplitTop, EvaluateTerm, AnyExpression, AllTerms, Bare;
    BareIsClean(t);
    TextIsNotNone(t);
  }

  lemma OneJoined(codes: seq<string>, w: string, p: Progress)
    requires |codes| == 1 && AllCodes(codes)
    ensures EvaluateTerm(Join(codes, w), p) == Answer(HoldsAll(codes, p))
  {
    hide IsCode, EvaluateTerm, HoldsCode;
    CodeEvaluates(codes[0], p);
  }

  lemma {:induction false} NoCommas(codes: seq<string>, w: string)
    requires codes != [] && AllCodes(codes) && ',' !in w
    ensures ',' !in Join(codes, w)
  {
    hide IsCode;
    CodeChars(codes[0]);
    if |codes| > 1 {
      NoCommas(codes[1..], w);
    }
  }

  // Codes between plus signs or words "plus" are all asked for.
  lemma PlusAsksForAll(codes: seq<string>, w: string, p: Progress)
    requires codes != [] && AllCodes(codes) && IsPlusJoint(w)
    ensures EvaluateExpression(Join(codes, w), p) == Answer(HoldsAll(codes, p))
  {
    hide IsCode, FindThreshold, FindCodes, SplitRest, EvaluateTerm, EvaluateExpression, HoldsAll, Bare, PlusPieces, DropBlank,
      CommasToAnd, HasPlus;
    var t := Join(codes, w);
    JoinedIsWhole(codes, w);
    WholeExpression(t, p);
    if |codes| == 1 {
      OneJoined(codes, w, p);
    } else {
      JoinedReading(codes, w);
      PlusPiecesOfCodes(codes, w);
      CodesAreNotBlank(codes);
      AllTermsOfCodes(codes, p);
      NoCommas(codes, w);
      NoCommasKept(t);
      PlusTextEvaluates(t, codes, p);
    }
  }

  // ---------------------------------------------------------------- commas and slashes

  lemma {:induction false} NoPlusInJoined(codes: seq<string>, w: string)
    requires codes != [] && AllCodes(codes) && w in {", ", "/"}
    ensures '+' !in Join(codes, w) && !HasWord(false, Join(codes, w), "plus")
  {
    hide IsCode, HasWord;
    var c := codes[0];
    CodeChars(c);
    var rest := if |codes| == 1 then "" else w + Join(codes[1..], w);
    assert Join(codes, w) == c + rest;
    if |codes| > 1 {
      NoPlusInJoined(codes[1..], w);
      NoPlusInJoint(w, Join(codes[1..], w));
    } else {
      EmptyReadings();
    }
    CodeIsNotPlus(c, rest);
  }

  lemma NoPlusInJoint(w: string, t: string)
    requires w in {", ", "/"} && !HasWord(false, t, "plus")
    ensures !HasWord(true, w + t, "plus") && '+' !in w && !IsWord((w + t)[0])
  {
    assert "plus"[0] == 'p';
    var s := w + t;
    if w == ", " {
      assert s[1..] == " " + t && (" " + t)[1..] == t;
      assert !WordHere(" " + t, "plus");
    } else {
      assert s[1..] == t;
    }
  }

  lemma SideBySide(codes: seq<string>, p: Progress)
    requires codes != [] && AllCodes(codes)
    ensures EvaluateExpression(Join(codes, "/"), p) == Answer(HoldsAll(codes, p))
  {
    hide IsCode, FindThreshold, FindCodes, SplitRest, EvaluateTerm, EvaluateExpression, HoldsAll, Bare, CommasToAnd, HasWord;
    var t := Join(codes, "/");
    JoinedIsWhole(codes, "/");
    WholeExpression(t, p);
    if |codes| == 1 {
      OneJoined(codes, "/", p);
    } else {
      JoinedReading(codes, "/");
      NoPlusInJoined(codes, "/");
      NoCommas(codes, "/");
      NoCommasKept(t);
      UnsplitCodes(t, codes, p);
    }
  }

  lemma UnsplitCodes(t: string, codes: seq<string>, p: Progress)
    requires Bare(t) && SplitTop(t, " or ") == [t] && ParseCpLevel(t).None? && FindCodes(false, t) == codes && |codes| > 1
    requires '+' !in t && !HasPlus(t) && SplitTop(CommasToAnd(t), " and ") == [t]
    ensures EvaluateTerm(t, p) == Answer(HoldsAll(codes, p))
  {
    hide Clean, SplitTop, PlusPieces, DropBlank, CommasToAnd, ParseCpLevel, FindCodes, HasPlus, HoldsCode,
      ThresholdMet, AnyTerm, AllTerms, HoldsAll;
    BareIsClean(t);
  }

  lemma CommaTextEvaluates(t: string, codes: seq<string>, p: Progress)
    requires Bare(t) && SplitTop(t, " or ") == [t] && ParseCpLevel(t).None? && FindCodes(false, t) == codes && |codes| > 1
    requires '+' !in t && !HasPlus(t) && SplitTop(CommasToAnd(t), " and ") == codes
    requires AllTerms(codes, p) == Answer(HoldsAll(codes, p))
    ensures EvaluateTerm(t, p) == Answer(HoldsAll(codes, p))
  {
    hide Clean, SplitTop, PlusPieces, DropBlank, CommasToAnd, ParseCpLevel, FindCodes, HasPlus, HoldsCode,
      ThresholdMet, AnyTerm, AllTerms, HoldsAll;
    BareIsClean(t);
  }

  lemma {:induction false} CommasInCode(c: string, rest: string)
    requires ',' !in c
    ensures CommasToAnd(c + rest) == c + CommasToAnd(rest)
    decreases |c|
  {
    if c == "" {
      assert c + rest == rest;
    } else {
      assert (c + rest)[1..] == c[1..] + rest;
      CommasInCode(c[1..], rest);
    }
  }

  lemma CommaBecomesAnd(t: string)
    ensures CommasToAnd(", " + t) == " and " + (" " + CommasToAnd(t))
  {
    var s := ", " + t;
    assert s[1..] == " " + t && (" " + t)[1..] == t;
  }

  lemma {:induction false} CommaPieces(codes: seq<string>, current: string)
    requires codes != [] && AllCodes(codes) && current in {"", " "}
    ensures SplitRest(CommasToAnd(Join(codes, ", ")), " and ", 0, current) == codes
  {
    hide IsCode, SplitRest, Chunk, CommasToAnd;
    var c := codes[0];
    CodeChars(c);
    SpacedChunk(c, current);
    if |codes| == 1 {
      CommasInCode(c, "");
      NoCommasKept("");
      assert c + "" == c;
      WordPasses(c, "", " and ");
      PassThrough(c, "", " and ", 0, 0, current);
      EndOfText(current + c);
    } else {
      var t := Join(codes[1..], ", ");
      var u := CommasToAnd(t);
      assert Join(codes, ", ") == c + (", " + t);
      CommasInCode(c, ", " + t);
      CommaBecomesAnd(t);
      WordPasses(c, " and " + (" " + u), " and ");
      PassThrough(c, " and " + (" " + u), " and ", 0, 0, current);
      CutAnd(u, current + c);
      CommasStart(codes[1..]);
      LongWord(u, " and ");
      StepSpace(u);
      CommaPieces(codes[1..], " ");
      assert codes == [c] + codes[1..];
    }
  }

  lemma SpacedChunk(c: string, current: string)
    requires IsCode(c) && current in {"", " "}
    ensures Chunk(current + c) == [c]
  {
    CodeChars(c);
    hide IsCode;
    var s := current + c;
    StripLeftCode(current, c);
    assert !IsSpace(c[|c| - 1]);
  }

  lemma StripLeftCode(current: string, c: string)
    requires current in {"", " "} && c != "" && c[0] !in SPACES
    ensures StripLeft(current + c, SPACES) == c
  {
    if current == " " {
      assert (current + c)[1..] == c;
    } else {
      assert current + c == c;
    }
  }

  lemma EndOfText(current: string)
    ensures SplitRest("", " and ", 0, current) == Chunk(current)
  {
    hide Chunk;
  }

  lemma CutAnd(u: string, current: string)
    ensures SplitRest(" and " + (" " + u), " and ", 0, current) == Chunk(current) + SplitRest(" " + u, " and ", 0, "")
  {
    hide Chunk;
    var s := " and " + (" " + u);
    assert StartsWithFold(s, " and ") && s[5..] == " " + u;
  }

  lemma StepSpace(u: string)
    requires !StartsWithFold(" " + u, " and ")
    ensures SplitRest(" " + u, " and ", 0, "") == SplitRest(u, " and ", 0, " ")
  {
    hide StartsWithFold, Chunk;
    assert (" " + u)[1..] == u && "" + [' '] == " ";
  }

  lemma CommasStart(codes: seq<string>)
    requires codes != [] && AllCodes(codes)
    ensures var u := CommasToAnd(Join(codes, ", ")); |u| >= 5 && forall j :: 0 <= j < 5 ==> IsWord(u[j])
  {
    hide IsCode, CommasToAnd;
    var c := codes[0];
    CodeChars(c);
    var rest := if |codes| == 1 then "" else ", " + Join(codes[1..], ", ");
    assert Join(codes, ", ") == c + rest;
    CommasInCode(c, rest);
  }

  // Codes between commas are all asked for.
  lemma CommasAskForAll(codes: seq<string>, p: Progress)
    requires codes != [] && AllCodes(codes)
    ensures EvaluateExpression(Join(codes, ", "), p) == Answer(HoldsAll(codes, p))
  {
    hide IsCode, FindThreshold, FindCodes, SplitRest, EvaluateTerm, EvaluateExpression, HoldsAll, Bare, CommasToAnd, HasWord;
    var t := Join(codes, ", ");
    JoinedIsWhole(codes, ", ");
    WholeExpression(t, p);
    if |codes| == 1 {
      OneJoined(codes, ", ", p);
    } else {
      JoinedReading(codes, ", ");
      NoPlusInJoined(codes, ", ");
      CommaPieces(codes, "");
      AllTermsOfCodes(codes, p);
      CommaTextEvaluates(t, codes, p);
    }
  }

  // ---------------------------------------------------------------- a level before its credit points

  lemma LevelTextLength(level: nat)
    requires level in {100, 200, 300}
    ensures LevelText(level) in {"100", "200", "300"} && |LevelText(level)| == 3 && LevelNumber(LevelText(level)) == level
  {
  }

  lemma Regrouped(a: string, d: string)
    ensures a + " level " + d + "cp" == a + (" level" + (" " + (d + "cp")))
  {
    assert " level " == " level" + " ";
  }

  lemma DropLevel(a: string, rest: string)
    requires |a| == 3
    ensures (a + (" level" + rest))[9..] == rest
  {
  }

  lemma LevelFirstText(a: string, d: string)
    requires a in {"100", "200", "300"} && |a| == 3 && NumberAt(d + "cp", false).Some?
    ensures FindThreshold(a + (" level" + (" " + (d + "cp")))) == Some(LevelFirst(a))
  {
    hide LevelAt, NumberAt, AnotherAt, HasNumber, FindThreshold;
    var rest := " " + (d + "cp");
    LevelWordText(a, rest);
    DropLevel(a, rest);
    NumberBehindSpace(d + "cp");
    LevelFirstHere(a + (" level" + rest));
  }

  // A threshold that states its level first asks for as many credit points as the level's number, whatever
  // count it states.
  lemma LevelBeforeCount(count: nat, level: nat)
    requires level in {100, 200, 300}
    ensures var req := ParseCpLevel(LevelText(level) + " level " + Decimal(count) + "cp");
      req.Some? && req.value.level == level && req.value.minCp == level
  {
    hide LevelText, FindThreshold, Prefixes, Decimal, NumberAt;
    LevelTextLength(level);
    Regrouped(LevelText(level), Decimal(count));
    NumberRead(count, "");
    assert "cp" + "" == "cp";
    LevelFirstText(LevelText(level), Decimal(count));
  }

  lemma LevelWordText(a: string, rest: string)
    requires a in {"100", "200", "300"} && |a| == 3
    ensures var w := a + (" level" + rest); LevelAt(w) == Some(Found(a, 9)) && NumberAt(w, false).None? && AnotherAt(w).None?
  {
    hide LevelAt, NumberAt, AnotherAt;
    var w := a + (" level" + rest);
    assert w[..3] == a;
    assert w[3..] == " " + ("level" + rest);
    LevelWordRead(w, rest);
    NoNumberAtLevel(w, rest);
  }

  lemma LevelWordRead(w: string, rest: string)
    requires |w| >= 3 && w[..3] in {"100", "200", "300"} && w[3..] == " " + ("level" + rest)
    ensures LevelAt(w) == Some(Found(w[..3], 9))
  {
    assert w[..3] == [w[0], w[1], w[2]];
    assert w[3] == w[3..][0] && w[4] == w[3..][1];
    OneSpace("level" + rest);
    assert w[4..] == w[3..][1..] == "level" + rest;
    assert SpaceRun(w[4..]) == 0;
  }

  lemma NoNumberAtLevel(w: string, rest: string)
    requires |w| >= 3 && w[..3] in {"100", "200", "300"} && w[3..] == " " + ("level" + rest)
    ensures NumberAt(w, false).None? && AnotherAt(w).None?
  {
    assert w[..3] == [w[0], w[1], w[2]];
    assert w[3] == w[3..][0];
    DigitRunIs(w, 3);
    OneSpace("level" + rest);
    assert w[4..] == w[3..][1..] == "level" + rest;
    assert "cp"[0] == 'c' && "credit point"[0] == 'c' && "another"[0] == 'a';
    assert LowerChar(w[0]) == w[0];
  }

  lemma NumberBehindSpace(v: string)
    requires NumberAt(v, false).Some?
    ensures HasNumber(" " + v)
  {
    hide NumberAt;
    assert (" " + v)[1..] == v;
    NoNumberAtSpace(" " + v);
  }

  lemma NoNumberAtSpace(s: string)
    requires s != "" && s[0] == ' '
    ensures NumberAt(s, false).None?
  {
    assert DigitRun(s) == 0;
  }

  lemma LevelFirstHere(t: string)
    requires NumberAt(t, false).None? && AnotherAt(t).None?
    requires LevelAt(t).Some? && HasNumber(t[LevelAt(t).value.end..])
    ensures FindThreshold(t) == Some(LevelFirst(LevelAt(t).value.text))
  {
    hide NumberAt, AnotherAt, FirstLevel, LevelAt, HasNumber;
  }
}
