/**
 Requirement texts with the word "plus" that get an answer all the same.

 The evaluator cuts at `\s+plus\s+` only. A word "plus" that a cut, a trim or a lost parenthesis has
 left at the edge of a piece is never cut again, so the condition is on what stands beside the word.
 */
module PlusWords {
  import opened Text
  import opened PrerequisiteParser
  import opened RequirementLeaves
  import opened RequirementEvaluator
  import opened RequirementLaws

  // ---------------------------------------------------------------- words by position

  // The lower-case text w stands in s at k, letter case ignored.
  predicate SpelledAt(s: string, k: nat, w: string) {
    k + |w| <= |s| && forall m :: 0 <= m < |w| ==> LowerChar(s[k + m]) == w[m]
  }

  predicate PlusAt(s: string, k: nat) {
    SpelledAt(s, k, "plus") && (k == 0 || !IsWord(s[k - 1])) && (k + 4 == |s| || !IsWord(s[k + 4]))
  }

  lemma SpelledIsStart(s: string, k: nat, w: string)
    requires k <= |s|
    ensures SpelledAt(s, k, w) <==> StartsWithFold(s[k..], w)
  {
    if StartsWithFold(s[k..], w) {
      forall m | 0 <= m < |w| ensures LowerChar(s[k + m]) == w[m] {
        assert s[k..][m] == s[k + m];
      }
    }
  }

  lemma {:induction false} WordFromHere(s: string, k: nat)
    requires k <= |s|
    ensures HasWord(k > 0 && IsWord(s[k - 1]), s[k..], "plus") <==> exists q: nat :: k <= q <= |s| && PlusAt(s, q)
    decreases |s| - k
  {
    hide StartsWithFold, SpelledAt, IsWord;
    if k < |s| {
      assert s[k..][1..] == s[k + 1..];
      WordFromHere(s, k + 1);
      SpelledIsStart(s, k, "plus");
      assert |s[k..]| > 4 ==> s[k..][4] == s[k + 4];
      assert PlusAt(s, k) <==> !(k > 0 && IsWord(s[k - 1])) && WordHere(s[k..], "plus") by {
        SpelledIsShort(s, k);
      }
    } else {
      SpelledIsShort(s, |s|);
    }
  }

  lemma SpelledIsShort(s: string, k: nat)
    ensures SpelledAt(s, k, "plus") ==> k + 4 <= |s|
  {
  }

  lemma HasPlusIff(s: string)
    ensures HasPlus(s) <==> exists k: nat :: k <= |s| && PlusAt(s, k)
  {
    hide PlusAt, HasWord;
    WordFromHere(s, 0);
    assert s[0..] == s;
  }

  // A text in a part of which the word stands has it too, if the part ends where words end.
  lemma SpelledInSlice(s: string, i: nat, j: nat, k: nat, w: string)
    requires i <= j <= |s| && SpelledAt(s[i..j], k, w)
    ensures SpelledAt(s, i + k, w)
  {
    forall m | 0 <= m < |w| ensures LowerChar(s[i + k + m]) == w[m] {
      assert s[i..j][k + m] == s[i + k + m];
    }
  }

  lemma NotSpelledInSlice(s: string, i: nat, j: nat, k: nat, w: string)
    requires i <= j <= |s| && !SpelledAt(s, i + k, w)
    ensures !SpelledAt(s[i..j], k, w)
  {
    if SpelledAt(s[i..j], k, w) {
      SpelledInSlice(s, i, j, k, w);
    }
  }

  lemma PlusInSlice(s: string, i: nat, j: nat, k: nat)
    requires i <= j <= |s| && PlusAt(s[i..j], k)
    requires i > 0 ==> !IsWord(s[i - 1])
    requires j < |s| ==> !IsWord(s[j])
    ensures PlusAt(s, i + k) && i + k + 4 <= j
  {
    hide SpelledAt, IsWord;
    SpelledIsShort(s[i..j], k);
    SpelledInSlice(s, i, j, k, "plus");
  }

  // ---------------------------------------------------------------- what stands beside the word

  // A character that no trimming and no cutting takes away.
  predicate Firm(c: char) {
    !IsSpace(c) && c !in PARENS && c != '+'
  }

  // One space before the word, before it something firm or a parenthesis that closes on something
  // firm, and no "or", "and" or "plus" that a cut could end at.
  predicate FirmBefore(s: string, k: nat)
    requires k <= |s|
  {
    && k >= 2 && IsSpace(s[k - 1])
    && (Firm(s[k - 2]) || (s[k - 2] == ')' && k >= 3 && Firm(s[k - 3])))
    && (k >= 4 ==> !SpelledAt(s, k - 4, " or "))
    && (k >= 5 ==> !SpelledAt(s, k - 5, " and "))
    && (k >= 6 && IsSpace(s[k - 6]) ==> !SpelledAt(s, k - 5, "plus"))
  }

  predicate FirmAfter(s: string, e: nat) {
    && e + 1 < |s| && IsSpace(s[e])
    && (Firm(s[e + 1]) || (s[e + 1] == '(' && e + 2 < |s| && Firm(s[e + 2])))
    && !SpelledAt(s, e, " or ")
    && !SpelledAt(s, e, " and ")
  }

  // Every word "plus" of the text stands between two operands.
  ghost predicate Guarded(s: string) {
    forall k: nat :: PlusAt(s, k) ==> k + 4 <= |s| && FirmBefore(s, k) && FirmAfter(s, k + 4)
  }

  ghost predicate AllGuarded(parts: seq<string>) {
    forall k :: 0 <= k < |parts| ==> Guarded(parts[k])
  }

  lemma PlusFreeIsGuarded(s: string)
    requires PlusFree(s)
    ensures Guarded(s)
  {
    hide HasPlus, FirmBefore, FirmAfter;
    HasPlusIff(s);
  }

  // What stands beside the word in a text stands beside it in a part that kept it.
  lemma BeforeInSlice(s: string, i: nat, j: nat, k: nat)
    requires i <= j <= |s| && i + k <= j && FirmBefore(s, i + k)
    requires k >= 2 && (k >= 3 || s[i + k - 2] != ')')
    ensures FirmBefore(s[i..j], k)
  {
    hide SpelledAt, Firm, IsSpace;
    var t := s[i..j];
    if k >= 4 {
      NotSpelledInSlice(s, i, j, k - 4, " or ");
    }
    if k >= 5 {
      NotSpelledInSlice(s, i, j, k - 5, " and ");
    }
    if k >= 6 {
      assert t[k - 6] == s[i + k - 6];
      if IsSpace(s[i + k - 6]) {
        NotSpelledInSlice(s, i, j, k - 5, "plus");
      }
    }
    assert t[k - 1] == s[i + k - 1] && t[k - 2] == s[i + k - 2] && (k >= 3 ==> t[k - 3] == s[i + k - 3]);
  }

  lemma AfterInSlice(s: string, i: nat, j: nat, e: nat)
    requires i <= j <= |s| && FirmAfter(s, i + e)
    requires i + e + 1 < j && (i + e + 2 < j || s[i + e + 1] != '(')
    ensures FirmAfter(s[i..j], e)
  {
    hide SpelledAt, Firm, IsSpace;
    NotSpelledInSlice(s, i, j, e, " or ");
    NotSpelledInSlice(s, i, j, e, " and ");
    var t := s[i..j];
    assert t[e] == s[i + e] && t[e + 1] == s[i + e + 1];
    assert i + e + 2 < j ==> t[e + 2] == s[i + e + 2];
  }

  // ---------------------------------------------------------------- cuts that keep the guard

  // The part begins where the text does, or right after a separator; likewise at its end.
  predicate BeginsPart(s: string, i: nat, sep: string) {
    i == 0 || (|sep| <= i && SpelledAt(s, i - |sep|, sep))
  }

  predicate EndsPart(s: string, j: nat, sep: string) {
    j == |s| || SpelledAt(s, j, sep)
  }

  lemma SeparatorAt(s: string, k: nat, sep: string)
    requires sep in {" or ", " and "} && SpelledAt(s, k, sep)
    ensures |sep| >= 4 && k + |sep| <= |s|
    ensures s[k] == ' ' && IsLetter(s[k + 1]) && IsLetter(s[k + |sep| - 2]) && s[k + |sep| - 1] == ' '
  {
    assert LowerChar(s[k + 0]) == sep[0] && LowerChar(s[k + 1]) == sep[1];
    assert LowerChar(s[k + (|sep| - 1)]) == sep[|sep| - 1] && LowerChar(s[k + (|sep| - 2)]) == sep[|sep| - 2];
  }

  lemma FirmIsNoSpace(c: char)
    ensures Firm(c) ==> !IsSpace(c) && c != ' ' && c != '(' && c != ')' && c != '+'
    ensures IsLetter(c) ==> c != ' ' && c != '(' && c != ')' && !IsSpace(c)
    ensures c == ' ' ==> IsSpace(c) && !IsWord(c)
    ensures IsSpace(c) || c in PARENS ==> !IsWord(c)
  {
  }

  // A plus that begins behind a separator keeps what stands before it.
  lemma BeforeBehindSeparator(s: string, i: nat, sep: string, k: nat)
    requires sep in {" or ", " and "} && BeginsPart(s, i, sep) && i <= k <= |s| && FirmBefore(s, k)
    ensures i + 2 <= k && (s[k - 2] == ')' ==> i + 3 <= k)
  {
    if i > 0 {
      hide SpelledAt, IsSpace, Firm;
      SeparatorAt(s, i - |sep|, sep);
      FirmIsNoSpace(s[i - 1]);
      FirmIsNoSpace(s[i - 2]);
      FirmIsNoSpace(s[k - 2]);
      if s[k - 2] == ')' {
        FirmIsNoSpace(s[k - 3]);
      }
    }
  }

  lemma AfterBeforeSeparator(s: string, j: nat, sep: string, e: nat)
    requires sep in {" or ", " and "} && EndsPart(s, j, sep) && e <= j <= |s| && FirmAfter(s, e)
    ensures e + 1 < j && (s[e + 1] == '(' ==> e + 2 < j)
  {
    if j < |s| {
      hide SpelledAt, IsSpace, Firm;
      SeparatorAt(s, j, sep);
      FirmIsNoSpace(s[j]);
      FirmIsNoSpace(s[j + 1]);
      FirmIsNoSpace(s[e + 1]);
      if s[e + 1] == '(' {
        FirmIsNoSpace(s[e + 2]);
      }
    }
  }

  lemma GuardedPart(s: string, i: nat, j: nat, sep: string)
    requires Guarded(s) && i <= j <= |s| && sep in {" or ", " and "} && BeginsPart(s, i, sep) && EndsPart(s, j, sep)
    ensures Guarded(s[i..j])
  {
    hide PlusAt, FirmBefore, FirmAfter, IsWord, SpelledAt;
    SeparatorsEndWords(s, i, j, sep);
    forall k: nat | PlusAt(s[i..j], k)
      ensures k + 4 <= |s[i..j]| && FirmBefore(s[i..j], k) && FirmAfter(s[i..j], k + 4)
    {
      PlusInSlice(s, i, j, k);
      BeforeBehindSeparator(s, i, sep, i + k);
      AfterBeforeSeparator(s, j, sep, i + k + 4);
      BeforeInSlice(s, i, j, k);
      AfterInSlice(s, i, j, k + 4);
    }
  }

  lemma SeparatorsEndWords(s: string, i: nat, j: nat, sep: string)
    requires i <= j <= |s| && sep in {" or ", " and "} && BeginsPart(s, i, sep) && EndsPart(s, j, sep)
    ensures i > 0 ==> !IsWord(s[i - 1])
    ensures j < |s| ==> !IsWord(s[j])
  {
    hide SpelledAt;
    if i > 0 {
      SeparatorAt(s, i - |sep|, sep);
    }
    if j < |s| {
      SeparatorAt(s, j, sep);
    }
  }

  // Stripping spaces or parentheses stops short of what stands beside a word.
  lemma GuardedTrimmed(s: string, i: nat, j: nat)
    requires Guarded(s) && i <= j <= |s|
    requires forall k :: 0 <= k < i || j <= k < |s| ==> IsSpace(s[k]) || s[k] in PARENS
    ensures Guarded(s[i..j])
  {
    hide PlusAt, FirmBefore, FirmAfter, IsWord, SpelledAt, IsSpace;
    if i > 0 {
      FirmIsNoSpace(s[i - 1]);
    }
    if j < |s| {
      FirmIsNoSpace(s[j]);
    }
    forall k: nat | PlusAt(s[i..j], k)
      ensures k + 4 <= |s[i..j]| && FirmBefore(s[i..j], k) && FirmAfter(s[i..j], k + 4)
    {
      PlusInSlice(s, i, j, k);
      BesideIsKept(s, i, j, i + k);
      BeforeInSlice(s, i, j, k);
      AfterInSlice(s, i, j, k + 4);
    }
  }

  lemma BesideIsKept(s: string, i: nat, j: nat, k: nat)
    requires i <= k && k + 4 <= j <= |s| && FirmBefore(s, k) && FirmAfter(s, k + 4)
    requires forall q :: 0 <= q < i || j <= q < |s| ==> IsSpace(s[q]) || s[q] in PARENS
    ensures i + 2 <= k && (s[k - 2] == ')' ==> i + 3 <= k)
    ensures k + 5 < j && (s[k + 5] == '(' ==> k + 6 < j)
  {
    hide SpelledAt, IsSpace;
    var before := if s[k - 2] == ')' then k - 3 else k - 2;
    var after := if s[k + 5] == '(' then k + 6 else k + 5;
    assert Firm(s[before]) && Firm(s[after]);
    assert !(before < i) && !(after >= j);
  }

  lemma GuardedStrip(s: string, drop: set<char>)
    requires Guarded(s) && forall c :: c in drop ==> IsSpace(c) || c in PARENS
    ensures Guarded(Strip(s, drop))
  {
    hide Guarded, IsSpace, Strip;
    var i, j := StripSlice(s, drop);
    GuardedTrimmed(s, i, j);
  }

  lemma GuardedTrim(s: string)
    requires Guarded(s)
    ensures Guarded(Trim(s))
  {
    hide Guarded, Strip;
    GuardedStrip(s, SPACES);
  }

  lemma GuardedClean(s: string)
    requires Guarded(s)
    ensures Guarded(Clean(s))
  {
    hide Guarded, Strip;
    GuardedTrim(s);
    GuardedStrip(Trim(s), PARENS);
    GuardedTrim(Strip(Trim(s), PARENS));
  }

  lemma GuardedUnwrapped(s: string)
    requires Guarded(s) && |s| > 1 && s[0] == '(' && s[|s| - 1] == ')'
    ensures Guarded(s[1..|s| - 1])
  {
    hide Guarded;
    GuardedTrimmed(s, 1, |s| - 1);
  }

  lemma GuardedChunk(current: string)
    requires Guarded(current)
    ensures AllGuarded(Chunk(current))
  {
    hide Guarded, Trim;
    GuardedTrim(current);
  }

  // The part of s from a on, read up to b.
  lemma {:induction false} GuardedSplit(s: string, a: nat, b: nat, sep: string, depth: int)
    requires Guarded(s) && sep in {" or ", " and "} && a <= b <= |s| && BeginsPart(s, a, sep)
    ensures AllGuarded(SplitRest(s[b..], sep, depth, s[a..b]))
    decreases |s| - b
  {
    hide Guarded, Chunk, StartsWithFold, BeginsPart, EndsPart;
    var rest := s[b..];
    if rest == "" {
      AtEnd(s, sep);
      GuardedPart(s, a, b, sep);
      GuardedChunk(s[a..b]);
    } else {
      assert rest[0] == s[b] && rest[1..] == s[b + 1..] && s[a..b] + [s[b]] == s[a..b + 1];
      if rest[0] != '(' && rest[0] != ')' && depth == 0 && StartsWithFold(rest, sep) {
        AtSeparator(s, b, sep);
        GuardedPart(s, a, b, sep);
        GuardedChunk(s[a..b]);
        var c := b + |sep|;
        assert rest[|sep|..] == s[c..] && s[c..c] == "";
        GuardedSplit(s, c, c, sep, 0);
      } else {
        GuardedSplit(s, a, b + 1, sep, if rest[0] == '(' then depth + 1 else if rest[0] == ')' then depth - 1 else depth);
      }
    }
  }

  lemma AtEnd(s: string, sep: string)
    ensures EndsPart(s, |s|, sep)
  {
  }

  lemma AtSeparator(s: string, b: nat, sep: string)
    requires b <= |s| && StartsWithFold(s[b..], sep)
    ensures EndsPart(s, b, sep) && b + |sep| <= |s| && BeginsPart(s, b + |sep|, sep)
  {
    SpelledIsStart(s, b, sep);
  }

  lemma GuardedParts(s: string, sep: string)
    requires Guarded(s) && sep in {" or ", " and "}
    ensures AllGuarded(SplitTop(s, sep))
  {
    hide Guarded, SplitRest;
    assert s[0..] == s && s[0..0] == "";
    GuardedSplit(s, 0, 0, sep, 0);
  }

  // ---------------------------------------------------------------- cutting at the word itself

  // A word "plus" between spaces is cut where its space begins.
  lemma CutBefore(s: string, k: nat)
    requires 0 < k && k + 4 < |s| && SpelledAt(s, k, "plus") && IsSpace(s[k - 1]) && IsSpace(s[k + 4])
    ensures PlusLength(s[k - 1..]) > 0
  {
    var t := s[k - 1..];
    assert LowerChar(s[k + 0]) == "plus"[0] == 'p';
    assert t[0] == s[k - 1] && t[1] == s[k] && !IsSpace(t[1]);
    SpaceRunIs(t, 1);
    assert t[1..] == s[k..] && t[5..] == s[k + 4..];
    SpelledIsStart(s, k, "plus");
    assert t[5..][0] == s[k + 4];
  }

  // What a cut at position m takes up: its core and the spaces after it.
  predicate CoreEndsAt(s: string, c: nat) {
    && 0 < c <= |s|
    && (s[c - 1] == '+' || (c >= 5 && IsSpace(s[c - 5]) && SpelledAt(s, c - 4, "plus")))
  }

  predicate EndsCut(s: string, i: nat) {
    exists c :: 0 < c <= i <= |s| && CoreEndsAt(s, c) && forall k :: c <= k < i ==> IsSpace(s[k])
  }

  lemma CutEnds(s: string, m: nat)
    requires m <= |s| && PlusLength(s[m..]) > 0
    ensures EndsCut(s, m + PlusLength(s[m..]))
  {
    var t := s[m..];
    var a := SpaceRun(t);
    var c := if t[a] == '+' then a + 1 else a + 4;
    var i := PlusLength(t);
    assert t[c..] == s[m + c..];
    forall k | m + c <= k < m + i ensures IsSpace(s[k]) {
      assert s[k] == t[c..][k - m - c];
    }
    if t[a] != '+' {
      assert t[a..] == s[m + a..];
      SpelledIsStart(s, m + a, "plus");
    }
    assert CoreEndsAt(s, m + c);
  }

  // Right behind a cut no guarded word begins.
  lemma NoWordBehindCut(s: string, i: nat)
    requires EndsCut(s, i)
    ensures !FirmBefore(s, i)
  {
    hide SpelledAt;
    var c :| 0 < c <= i <= |s| && CoreEndsAt(s, c) && forall k :: c <= k < i ==> IsSpace(s[k]);
    CoreIsNoSpace(s, c);
    if i >= 2 && IsSpace(s[i - 1]) && !IsSpace(s[i - 2]) {
      assert c == i - 1;
    }
  }

  lemma CoreIsNoSpace(s: string, c: nat)
    requires CoreEndsAt(s, c)
    ensures !IsSpace(s[c - 1]) && s[c - 1] != ')'
  {
    if s[c - 1] != '+' {
      assert LowerChar(s[c - 4 + 3]) == "plus"[3] == 's';
    }
  }

  // No cut begins in s between a and b.
  ghost predicate NoCut(s: string, a: nat, b: nat)
    requires b <= |s|
  {
    forall q :: a <= q < b ==> PlusLength(s[q..]) == 0
  }

  // A guarded word is cut where the space before it begins.
  lemma GuardedIsCut(s: string, k: nat)
    requires Guarded(s) && PlusAt(s, k)
    ensures 0 < k <= |s| && FirmBefore(s, k) && PlusLength(s[k - 1..]) > 0
  {
    hide SpelledAt, PlusLength;
    CutBefore(s, k);
  }

  lemma PieceHasNoWord(s: string, a: nat, b: nat, k: nat)
    requires Guarded(s) && a <= b <= |s| && NoCut(s, a, b)
    requires a == 0 || (EndsCut(s, a) && !IsWord(s[a - 1]))
    requires b < |s| ==> !IsWord(s[b])
    ensures !PlusAt(s[a..b], k)
  {
    hide Guarded, FirmBefore, PlusLength, EndsCut, IsWord, PlusAt;
    if PlusAt(s[a..b], k) {
      PlusInSlice(s, a, b, k);
      GuardedIsCut(s, a + k);
      if a > 0 {
        NoWordBehindCut(s, a);
      }
    }
  }

  lemma PieceIsPlusFree(s: string, a: nat, b: nat)
    requires Guarded(s) && a <= b <= |s| && NoCut(s, a, b)
    requires a == 0 || (EndsCut(s, a) && !IsWord(s[a - 1]))
    requires b < |s| ==> PlusLength(s[b..]) > 0
    ensures PlusFree(s[a..b])
  {
    hide Guarded, NoCut, HasPlus, PlusLength, EndsCut, IsWord, PlusAt;
    if b < |s| {
      PlusEnds(s[b..]);
      assert s[b..][0] == s[b];
    }
    HasPlusIff(s[a..b]);
    forall k: nat | k <= |s[a..b]| ensures !PlusAt(s[a..b], k) {
      PieceHasNoWord(s, a, b, k);
    }
  }

  lemma {:induction false} GuardedPieces(s: string, a: nat, b: nat)
    requires Guarded(s) && a <= b <= |s| && NoCut(s, a, b)
    requires a == 0 || (EndsCut(s, a) && !IsWord(s[a - 1]))
    ensures AllPlusFree(PlusPieces(s[b..], s[a..b]))
    decreases |s| - b
  {
    hide Guarded, PlusFree, PlusLength, EndsCut, IsWord;
    var rest := s[b..];
    if rest == "" {
      PieceIsPlusFree(s, a, b);
    } else if PlusLength(rest) > 0 {
      PieceIsPlusFree(s, a, b);
      var c := b + PlusLength(rest);
      CutEnds(s, b);
      PlusEnds(rest);
      assert rest[PlusLength(rest) - 1] == s[c - 1];
      assert rest[PlusLength(rest)..] == s[c..] && s[c..c] == "";
      GuardedPieces(s, c, c);
    } else {
      assert rest[1..] == s[b + 1..] && s[a..b] + [s[b]] == s[a..b + 1];
      GuardedPieces(s, a, b + 1);
    }
  }

  lemma GuardedTextPieces(s: string)
    requires Guarded(s)
    ensures AllPlusFree(PlusPieces(s, ""))
  {
    hide Guarded, PlusPieces, AllPlusFree, PlusLength;
    assert s[0..] == s && s[0..0] == "";
    GuardedPieces(s, 0, 0);
  }

  lemma {:induction false} CutSplits(s: string, k: nat, current: string)
    requires k < |s| && PlusLength(s[k..]) > 0
    ensures |PlusPieces(s, current)| > 1
    decreases |s|
  {
    hide PlusLength;
    if PlusLength(s) > 0 {
      PlusWeight(s[PlusLength(s)..], "");
    } else {
      assert k > 0 by { assert s[0..] == s; }
      assert s[1..][k - 1..] == s[k..];
      CutSplits(s[1..], k - 1, current + [s[0]]);
    }
  }

  lemma GuardedWordSplits(s: string)
    requires Guarded(s) && HasPlus(s)
    ensures |PlusPieces(s, "")| > 1
  {
    hide HasPlus, PlusPieces, PlusLength;
    HasPlusIff(s);
    var k: nat :| k <= |s| && PlusAt(s, k);
    CutBefore(s, k);
    CutSplits(s, k - 1, "");
  }

  // ---------------------------------------------------------------- guarded texts answer

  lemma {:induction false} GuardedTermAnswers(term: string, p: Progress)
    requires Guarded(term)
    ensures EvaluateTerm(term, p).Answer?
    decreases Weight(term), 1, 0
  {
    hide SplitTop, PlusPieces, CommasToAnd, ParseCpLevel, FindCodes, Clean, Weight, TotalWeight, HasPlus, DropBlank,
      ThresholdMet, AnyTerm, AllTerms, Guarded, HoldsCode, HoldsAll;
    TermPieces(term);
    var cleaned := Clean(term);
    var orParts := SplitTop(cleaned, " or ");
    var plusParts := PlusPieces(cleaned, "");
    GuardedClean(term);
    if cleaned == "" {
    } else if |cleaned| > 1 && cleaned[0] == '(' && cleaned[|cleaned| - 1] == ')' {
      GuardedUnwrapped(cleaned);
      GuardedTermAnswers(cleaned[1..|cleaned| - 1], p);
    } else if |orParts| > 1 {
      GuardedParts(cleaned, " or ");
      GuardedAnyAnswers(orParts, p);
    } else if ParseCpLevel(cleaned).Some? || |FindCodes(false, cleaned)| == 1 {
    } else if '+' in cleaned || HasPlus(cleaned) {
      if '+' in cleaned {
        PlusSignSplits(cleaned, "");
      } else {
        GuardedWordSplits(cleaned);
      }
      GuardedTextPieces(cleaned);
      PlusFreeBlank(plusParts);
      AllTermsAnswer(DropBlank(plusParts), p);
    } else {
      CommaPartsAnswer(cleaned, p);
    }
  }

  lemma CommaPartsAnswer(cleaned: string, p: Progress)
    requires PlusFree(cleaned)
    ensures AllTerms(SplitTop(CommasToAnd(cleaned), " and "), p).Answer?
  {
    hide SplitTop, CommasToAnd, AllTerms, HasWord;
    PlusFreeCommas(false, cleaned);
    PlusFreeParts(CommasToAnd(cleaned), " and ");
    AllTermsAnswer(SplitTop(CommasToAnd(cleaned), " and "), p);
  }

  lemma {:induction false} GuardedAnyAnswers(terms: seq<string>, p: Progress)
    requires AllGuarded(terms)
    ensures AnyTerm(terms, p).Answer?
    decreases TotalWeight(terms), 2, |terms|
  {
    hide EvaluateTerm, Weight, Guarded;
    if terms != [] {
      GuardedTermAnswers(terms[0], p);
      GuardedAnyAnswers(terms[1..], p);
    }
  }

  lemma {:induction false} GuardedAllAnswer(terms: seq<string>, p: Progress)
    requires AllGuarded(terms)
    ensures AllTerms(terms, p).Answer?
    decreases |terms|
  {
    hide EvaluateTerm, Guarded;
    if terms != [] {
      GuardedTermAnswers(terms[0], p);
      GuardedAllAnswer(terms[1..], p);
    }
  }

  // Every text in which each word "plus" stands between two operands gets an answer.
  lemma {:induction false} GuardedAnswers(expression: string, p: Progress)
    requires Guarded(expression)
    ensures EvaluateExpression(expression, p).Answer?
    decreases Weight(expression), 3, 0
  {
    hide SplitTop, Weight, TotalWeight, EvaluateTerm, AnyExpression, AllTerms, Guarded;
    ExpressionPieces(expression);
    var expr := Trim(expression);
    var orParts := SplitTop(expr, " or ");
    var andParts := SplitTop(expr, " and ");
    GuardedTrim(expression);
    if expr == "" || Lower(expr) == "none" {
    } else if |orParts| > 1 {
      GuardedParts(expr, " or ");
      GuardedAnyExpressionAnswers(orParts, p);
    } else if |andParts| > 1 {
      GuardedParts(expr, " and ");
      GuardedAllAnswer(andParts, p);
    } else {
      GuardedTermAnswers(expr, p);
    }
  }

  lemma GuardedAlwaysAnswers(text: string)
    requires Guarded(text)
    ensures Answers(text)
  {
    hide Guarded, EvaluateExpression;
    forall p ensures EvaluateExpression(text, p).Answer? {
      GuardedAnswers(text, p);
    }
  }

  // A catalogue of such texts meets what the scheduling laws ask of its requirements.
  lemma GuardedTextsAnswer(texts: seq<string>)
    requires AllGuarded(texts)
    ensures AllAnswer(texts)
  {
    hide Guarded, Answers;
    forall k | 0 <= k < |texts| ensures Answers(texts[k]) {
      GuardedAlwaysAnswers(texts[k]);
    }
  }

  lemma {:induction false} GuardedAnyExpressionAnswers(parts: seq<string>, p: Progress)
    requires AllGuarded(parts)
    ensures AnyExpression(parts, p).Answer?
    decreases TotalWeight(parts), 4, |parts|
  {
    hide EvaluateExpression, Weight, Guarded;
    if parts != [] {
      GuardedAnswers(parts[0], p);
      GuardedAnyExpressionAnswers(parts[1..], p);
    }
  }

  // ---------------------------------------------------------------- texts of that form

  lemma LetterOf(s: string, k: nat, m: nat)
    requires PlusAt(s, k) && m < 4
    ensures k + 4 <= |s| && LowerChar(s[k + m]) == "plus"[m] && s[k + m] in s && IsWord(s[k + m])
  {
    assert "plus"[0] == 'p' && "plus"[1] == 'l' && "plus"[2] == 'u' && "plus"[3] == 's';
  }

  // A text that lacks one of the word's letters lacks the word.
  lemma LacksLetter(s: string, m: nat, c: char)
    requires m < 4 && "plus"[m] == c && forall ch :: ch in s ==> LowerChar(ch) != c
    ensures PlusFree(s)
  {
    hide PlusAt, HasPlus;
    HasPlusIff(s);
    if HasPlus(s) {
      var k: nat :| k <= |s| && PlusAt(s, k);
      LetterOf(s, k, m);
    }
  }

  lemma PlusInPrefix(a: string, t: string, k: nat)
    requires PlusAt(a + t, k) && k + 4 <= |a|
    ensures PlusAt(a, k)
  {
    assert forall m :: 0 <= m < |a| ==> (a + t)[m] == a[m];
  }

  lemma PlusInSuffix(a: string, t: string, k: nat)
    requires PlusAt(a + t, |a| + k) && (k == 0 ==> a == "" || !IsWord(a[|a| - 1]))
    ensures PlusAt(t, k)
  {
    assert forall m :: 0 <= m < |t| ==> (a + t)[|a| + m] == t[m];
  }

  // The word does not reach over the end of another word.
  lemma PlusOfJoin(a: string, t: string, k: nat)
    requires PlusAt(a + t, k) && a != "" && !IsWord(a[|a| - 1])
    ensures if k < |a| then PlusAt(a, k) else PlusAt(t, k - |a|)
  {
    hide SpelledAt, IsWord;
    LetterOf(a + t, k, 0);
    if k + 4 <= |a| {
      PlusInPrefix(a, t, k);
    } else if k >= |a| {
      PlusInSuffix(a, t, k - |a|);
    } else {
      LetterOf(a + t, k, |a| - 1 - k);
    }
  }

  // ---------------------------------------------------------------- two operands and the word between them

  // The first operand ends in something firm that is not the end of "or", "and" or "plus".
  predicate EndsFirmly(a: string) {
    var n := |a|;
    && n >= 2 && Firm(a[n - 1])
    && !(LowerChar(a[n - 2]) == 'o' && LowerChar(a[n - 1]) == 'r')
    && !(LowerChar(a[n - 2]) == 'n' && LowerChar(a[n - 1]) == 'd')
    && !(LowerChar(a[n - 2]) == 'u' && LowerChar(a[n - 1]) == 's')
  }

  // The second one begins with something firm, perhaps in a parenthesis, that is no "or" and no "and".
  predicate BeginsFirmly(b: string) {
    && |b| >= 2 && (Firm(b[0]) || (b[0] == '(' && Firm(b[1])))
    && !(LowerChar(b[0]) == 'o' && LowerChar(b[1]) == 'r')
    && !(LowerChar(b[0]) == 'a' && LowerChar(b[1]) == 'n')
  }

  lemma SpelledLetters(s: string, k: nat)
    ensures SpelledAt(s, k, " or ") ==> k + 4 <= |s| && s[k] == ' ' && LowerChar(s[k + 1]) == 'o' && LowerChar(s[k + 2]) == 'r'
    ensures SpelledAt(s, k, " and ") ==> k + 5 <= |s| && s[k] == ' ' && LowerChar(s[k + 1]) == 'a' && LowerChar(s[k + 2]) == 'n'
    ensures SpelledAt(s, k, " and ") ==> LowerChar(s[k + 3]) == 'd'
    ensures SpelledAt(s, k, "plus") ==> k + 4 <= |s| && LowerChar(s[k]) == 'p' && LowerChar(s[k + 2]) == 'u' && LowerChar(s[k + 3]) == 's'
  {
    assert " or "[0] == ' ' && " or "[1] == 'o' && " or "[2] == 'r';
    assert " and "[0] == ' ' && " and "[1] == 'a' && " and "[2] == 'n' && " and "[3] == 'd';
    assert "plus"[0] == 'p' && "plus"[2] == 'u' && "plus"[3] == 's';
    if SpelledAt(s, k, " or ") {
      assert LowerChar(s[k + 0]) == ' ';
    }
    if SpelledAt(s, k, " and ") {
      assert LowerChar(s[k + 0]) == ' ';
    }
    if SpelledAt(s, k, "plus") {
      assert LowerChar(s[k + 0]) == 'p';
    }
  }

  // The word between the operands is guarded.
  lemma BetweenIsGuarded(a: string, w: string, b: string)
    requires EndsFirmly(a) && BeginsFirmly(b) && |w| == 4
    ensures var t := a + " " + w + " " + b;
      FirmBefore(t, |a| + 1) && FirmAfter(t, |a| + 5)
  {
    hide SpelledAt, IsSpace;
    var t := a + " " + w + " " + b;
    var n := |a|;
    assert t[n - 2] == a[n - 2] && t[n - 1] == a[n - 1] && t[n] == ' ' && t[n + 5] == ' ' && t[n + 6] == b[0] && t[n + 7] == b[1];
    FirmIsNoSpace(t[n]);
    if n >= 3 {
      SpelledLetters(t, n - 3);
    }
    if n >= 4 {
      SpelledLetters(t, n - 4);
    }
    SpelledLetters(t, n + 5);
  }

  lemma SpelledInSuffix(h: string, b: string, k: nat, w: string)
    requires SpelledAt(h + b, |h| + k, w)
    ensures SpelledAt(b, k, w)
  {
    forall m | 0 <= m < |w| ensures LowerChar(b[k + m]) == w[m] {
      assert (h + b)[|h| + k + m] == b[k + m];
    }
  }

  lemma NotSpelledInSuffix(h: string, b: string, k: nat, w: string)
    requires !SpelledAt(b, k, w)
    ensures !SpelledAt(h + b, |h| + k, w)
  {
    if SpelledAt(h + b, |h| + k, w) {
      SpelledInSuffix(h, b, k, w);
    }
  }

  lemma AfterInWhole(h: string, b: string, e: nat)
    requires FirmAfter(b, e)
    ensures FirmAfter(h + b, |h| + e)
  {
    hide SpelledAt, Firm, IsSpace;
    NotSpelledInSuffix(h, b, e, " or ");
    NotSpelledInSuffix(h, b, e, " and ");
    assert forall m :: 0 <= m < |b| ==> (h + b)[|h| + m] == b[m];
  }

  // What ends in the word and a space, as far as a word behind it can see.
  predicate EndsInPlus(h: string) {
    var n := |h|;
    n >= 4 && h[n - 1] == ' ' && LowerChar(h[n - 2]) == 's' && LowerChar(h[n - 3]) == 'u' && LowerChar(h[n - 4]) == 'l'
  }

  lemma BeforeInWhole(h: string, b: string, k: nat)
    requires EndsInPlus(h) && BeginsFirmly(b) && k <= |b| && FirmBefore(b, k) && (k == 5 ==> !SpelledAt(b, 0, "plus"))
    ensures FirmBefore(h + b, |h| + k)
  {
    hide SpelledAt, Firm, IsSpace;
    var t := h + b;
    var q := |h| + k;
    assert forall m :: 0 <= m < |b| ==> t[|h| + m] == b[m];
    if k >= 4 {
      NotSpelledInSuffix(h, b, k - 4, " or ");
    } else {
      SpelledLetters(t, q - 4);
    }
    if k >= 5 {
      NotSpelledInSuffix(h, b, k - 5, " and ");
      if k == 5 || IsSpace(b[k - 6]) {
        NotSpelledInSuffix(h, b, k - 5, "plus");
      }
    } else if q >= 5 {
      SpelledLetters(t, q - 5);
    }
  }

  lemma NoPlusAtStart(b: string)
    requires Guarded(b) && |b| > 4 && IsSpace(b[4])
    ensures !SpelledAt(b, 0, "plus")
  {
    hide SpelledAt, FirmAfter;
    StandsAtStart(b);
  }

  lemma StandsAtStart(b: string)
    requires |b| > 4 && IsSpace(b[4])
    ensures SpelledAt(b, 0, "plus") ==> PlusAt(b, 0)
  {
  }

  // An operand without the word, the word, and a guarded operand.
  lemma PlusBetween(a: string, w: string, b: string)
    requires PlusFree(a) && EndsFirmly(a) && SpelledAt(w, 0, "plus") && |w| == 4 && Guarded(b) && BeginsFirmly(b)
    ensures Guarded(a + " " + w + " " + b)
  {
    hide FirmBefore, FirmAfter, EndsFirmly, BeginsFirmly, HasPlus;
    var t := a + " " + w + " " + b;
    var h := a + " " + w + " ";
    HasPlusIff(a);
    assert t == (a + " ") + (w + " " + b) && w + " " + b == (w + " ") + b && t == h + b;
    assert forall m :: 0 <= m < 4 ==> h[|a| + 1 + m] == w[m];
    WordLetters(w);
    assert EndsInPlus(h);
    forall k: nat | PlusAt(t, k) ensures k + 4 <= |t| && FirmBefore(t, k) && FirmAfter(t, k + 4) {
      PlusOfJoin(a + " ", w + " " + b, k);
      if k < |a + " "| {
        PlusBeforeSpace(a, k);
      } else if k == |a| + 1 {
        BetweenIsGuarded(a, w, b);
      } else {
        PlusOfJoin(w + " ", b, k - |a| - 1);
        PlusOfWord(w, k - |a| - 1);
        var q := k - |h|;
        assert PlusAt(b, q);
        FirmBeforeHasSpace(b, q);
        if q == 5 {
          NoPlusAtStart(b);
        }
        BeforeInWhole(h, b, q);
        AfterInWhole(h, b, q + 4);
      }
    }
  }

  lemma FirmBeforeHasSpace(s: string, k: nat)
    requires k <= |s| && FirmBefore(s, k)
    ensures k >= 2 && IsSpace(s[k - 1])
  {
  }

  lemma WordLetters(w: string)
    requires SpelledAt(w, 0, "plus")
    ensures |w| >= 4 && LowerChar(w[1]) == 'l' && LowerChar(w[2]) == 'u' && LowerChar(w[3]) == 's'
  {
    assert "plus"[1] == 'l' && "plus"[2] == 'u' && "plus"[3] == 's';
    assert LowerChar(w[0 + 1]) == 'l' && LowerChar(w[0 + 2]) == 'u' && LowerChar(w[0 + 3]) == 's';
  }

  // In the word and the space behind it the word stands at the start only.
  lemma PlusOfWord(w: string, k: nat)
    requires SpelledAt(w, 0, "plus") && |w| == 4
    ensures k < 5 && PlusAt(w + " ", k) ==> k == 0
  {
    WordLetters(w);
    if k < 5 && PlusAt(w + " ", k) {
      LetterOf(w + " ", k, 0);
    }
  }

  lemma PlusBeforeSpace(a: string, k: nat)
    requires PlusAt(a + " ", k)
    ensures PlusAt(a, k) && k + 4 <= |a|
  {
    hide SpelledAt;
    LetterOf(a + " ", k, 3);
    PlusInPrefix(a, " ", k);
  }

  // ---------------------------------------------------------------- the catalogue's own texts

  lemma OperandPair(a: string, b: string, m: nat, c: char)
    requires EndsFirmly(a) && BeginsFirmly(b)
    requires m < 4 && "plus"[m] == c
    requires forall ch :: ch in a ==> LowerChar(ch) != c
    requires forall ch :: ch in b ==> LowerChar(ch) != c
    ensures Guarded(a + " " + "plus" + " " + b)
  {
    hide Guarded, EndsFirmly, BeginsFirmly, PlusFree;
    LacksLetter(a, m, c);
    LacksLetter(b, m, c);
    PlusFreeIsGuarded(b);
    WordItself();
    PlusBetween(a, "plus", b);
  }

  lemma WordItself()
    ensures SpelledAt("plus", 0, "plus")
  {
    assert forall ch :: ch in "plus" ==> LowerChar(ch) == ch;
    assert forall m :: 0 <= m < 4 ==> "plus"[m] in "plus";
  }

  // Requirement texts with the word, as subjects of the 2026 catalogue carry them.
  lemma ComputingText()
    ensures Guarded("CSIT127" + " " + "plus" + " " + "18 credit points at 200 level")
  {
    hide Guarded;
    assert "plus"[2] == 'u';
    OperandPair("CSIT127", "18 credit points at 200 level", 2, 'u');
  }

  lemma EconomicsText()
    ensures Guarded("66 Credit Points" + " " + "plus" + " " + "(ECON339 or ECON253)")
  {
    hide Guarded;
    assert "plus"[2] == 'u';
    OperandPair("66 Credit Points", "(ECON339 or ECON253)", 2, 'u');
  }

  lemma OperationsText()
    ensures Guarded("(MGNT110" + " " + "plus" + " " + "BUS 121) or OPS 157")
  {
    hide Guarded;
    assert "plus"[1] == 'l';
    OperandPair("(MGNT110", "BUS 121) or OPS 157", 1, 'l');
  }
}
