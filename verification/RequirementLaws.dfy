/** Laws of requirement evaluation that hold for every text. */
module RequirementLaws {
  // Holding more never turns a satisfied requirement into an unsatisfied one, and only a bare word
  // "plus" can make an evaluation overflow.

  import opened Text
  import opened Sums
  import opened PrerequisiteParser
  import opened RequirementLeaves
  import opened RequirementEvaluator

  // ---------------------------------------------------------------- holding more

  // q holds everything p holds, reads it the same way, and counts no credit points below zero.
  ghost predicate Extends(p: Progress, q: Progress) {
    && p.held <= q.held
    && p.table == q.table
    && (forall c :: c in p.held ==> CpOf(c, p) == CpOf(c, q) && LevelOf(NormalizeCode(c), p) == LevelOf(NormalizeCode(c), q))
    && (forall c :: c in q.held ==> 0 <= CpOf(c, q))
  }

  lemma ThresholdMonotone(req: CpRequirement, p: Progress, q: Progress)
    requires Extends(p, q) && ThresholdMet(req, p)
    ensures ThresholdMet(req, q)
  {
    SumAgree(p.held, Weighs(req, p), Weighs(req, q));
    SumMonotone(p.held, q.held, Weighs(req, q));
  }

  lemma CodesMonotone(codes: seq<string>, p: Progress, q: Progress)
    requires Extends(p, q) && HoldsAll(codes, p)
    ensures HoldsAll(codes, q)
  {
    ExpandIsMonotoneAndIdempotent(p.table, Normalized(p.held), Normalized(q.held));
  }

  lemma CodeMonotone(code: string, p: Progress, q: Progress)
    requires Extends(p, q) && HoldsCode(code, p)
    ensures HoldsCode(code, q)
  {
    ExpandIsMonotoneAndIdempotent(p.table, Normalized(p.held), Normalized(q.held));
  }

  lemma {:induction false} TermMonotone(term: string, p: Progress, q: Progress)
    requires Extends(p, q) && EvaluateTerm(term, p) == Answer(true)
    ensures EvaluateTerm(term, q) != Answer(false)
    decreases Weight(term), 1, 0
  {
    hide SplitTop, PlusPieces, CommasToAnd, ParseCpLevel, FindCodes, Clean, Weight, TotalWeight, HasWord, DropBlank, HoldsAll, ThresholdMet, AnyTerm, AllTerms;
    TermPieces(term);
    var cleaned := Clean(term);
    var orParts := SplitTop(cleaned, " or ");
    var plusParts := PlusPieces(cleaned, "");
    var commaParts := SplitTop(CommasToAnd(cleaned), " and ");
    var threshold := ParseCpLevel(cleaned);
    var codes := FindCodes(false, cleaned);
    if cleaned == "" {
    } else if |cleaned| > 1 && cleaned[0] == '(' && cleaned[|cleaned| - 1] == ')' {
      TermMonotone(cleaned[1..|cleaned| - 1], p, q);
    } else if |orParts| > 1 {
      AnyTermMonotone(orParts, p, q);
    } else if threshold.Some? {
      CodesMonotone(codes, p, q);
      ThresholdMonotone(threshold.value, p, q);
    } else if |codes| == 1 {
      CodeMonotone(codes[0], p, q);
    } else if '+' in cleaned || HasPlus(cleaned) {
      if |plusParts| > 1 {
        AllTermsMonotone(DropBlank(plusParts), p, q);
      } else if Clean(cleaned) != cleaned {
        TermMonotone(cleaned, p, q);
      }
    } else if |commaParts| > 1 {
      AllTermsMonotone(commaParts, p, q);
    } else {
      CodesMonotone(codes, p, q);
    }
  }

  lemma {:induction false} AnyTermMonotone(terms: seq<string>, p: Progress, q: Progress)
    requires Extends(p, q) && AnyTerm(terms, p) == Answer(true)
    ensures AnyTerm(terms, q) != Answer(false)
    decreases TotalWeight(terms), 2, |terms|
  {
    hide EvaluateTerm, Weight;
    if EvaluateTerm(terms[0], p) == Answer(true) {
      TermMonotone(terms[0], p, q);
    } else {
      AnyTermMonotone(terms[1..], p, q);
    }
  }

  lemma {:induction false} AllTermsMonotone(terms: seq<string>, p: Progress, q: Progress)
    requires Extends(p, q) && AllTerms(terms, p) == Answer(true)
    ensures AllTerms(terms, q) != Answer(false)
    decreases TotalWeight(terms), 2, |terms|
  {
    hide EvaluateTerm, Weight;
    if terms != [] {
      TermMonotone(terms[0], p, q);
      AllTermsMonotone(terms[1..], p, q);
    }
  }

  lemma {:induction false} ExpressionMonotone(expression: string, p: Progress, q: Progress)
    requires Extends(p, q) && EvaluateExpression(expression, p) == Answer(true)
    ensures EvaluateExpression(expression, q) != Answer(false)
    decreases Weight(expression), 3, 0
  {
    hide SplitTop, Weight, TotalWeight, EvaluateTerm, AnyExpression, AllTerms;
    ExpressionPieces(expression);
    var expr := Trim(expression);
    var orParts := SplitTop(expr, " or ");
    var andParts := SplitTop(expr, " and ");
    if expr == "" || Lower(expr) == "none" {
    } else if |orParts| > 1 {
      AnyExpressionMonotone(orParts, p, q);
    } else if |andParts| > 1 {
      AllTermsMonotone(andParts, p, q);
    } else {
      TermMonotone(expr, p, q);
    }
  }

  lemma {:induction false} AnyExpressionMonotone(parts: seq<string>, p: Progress, q: Progress)
    requires Extends(p, q) && AnyExpression(parts, p) == Answer(true)
    ensures AnyExpression(parts, q) != Answer(false)
    decreases TotalWeight(parts), 4, |parts|
  {
    hide EvaluateExpression, Weight;
    if EvaluateExpression(parts[0], p) == Answer(true) {
      ExpressionMonotone(parts[0], p, q);
    } else {
      AnyExpressionMonotone(parts[1..], p, q);
    }
  }

  // ---------------------------------------------------------------- texts without "plus"

  predicate PlusFree(s: string) {
    !HasPlus(s)
  }

  predicate AllPlusFree(parts: seq<string>) {
    forall k :: 0 <= k < |parts| ==> PlusFree(parts[k])
  }

  // A word cut out between two non-word characters was already a word of the whole text.
  lemma {:induction false} WordOfPrefix(inWord: bool, a: string, t: string, w: string)
    requires w != "" && !HasWord(inWord, a + t, w)
    requires t != "" ==> !IsWord(t[0])
    ensures !HasWord(inWord, a, w)
    decreases |a|
  {
    if a != "" {
      assert (a + t)[1..] == a[1..] + t;
      WordOfPrefix(IsWord(a[0]), a[1..], t, w);
      assert WordHere(a, w) ==> WordHere(a + t, w);
    }
  }

  lemma {:induction false} WordOfSuffix(inWord: bool, a: string, t: string, w: string)
    requires !HasWord(inWord, a + t, w)
    ensures !HasWord(if a == "" then inWord else IsWord(a[|a| - 1]), t, w)
    decreases |a|
  {
    if a == "" {
      assert a + t == t;
    } else {
      assert (a + t)[1..] == a[1..] + t;
      WordOfSuffix(IsWord(a[0]), a[1..], t, w);
    }
  }

  lemma PlusFreeSlice(s: string, i: nat, j: nat)
    requires PlusFree(s) && i <= j <= |s|
    requires i > 0 ==> !IsWord(s[i - 1])
    requires j < |s| ==> !IsWord(s[j])
    ensures PlusFree(s[i..j])
  {
    assert s == s[..i] + s[i..];
    WordOfSuffix(false, s[..i], s[i..], "plus");
    assert s[i..] == s[i..j] + s[j..];
    WordOfPrefix(false, s[i..j], s[j..], "plus");
  }

  lemma PlusFreeStrip(s: string, drop: set<char>)
    requires PlusFree(s) && forall c :: c in drop ==> !IsWord(c)
    ensures PlusFree(Strip(s, drop))
  {
    var i, j := StripSlice(s, drop);
    PlusFreeSlice(s, i, j);
  }

  lemma PlusFreeClean(s: string)
    requires PlusFree(s)
    ensures PlusFree(Clean(s))
  {
    PlusFreeStrip(s, SPACES);
    PlusFreeStrip(Trim(s), PARENS);
    PlusFreeStrip(Strip(Trim(s), PARENS), SPACES);
  }

  lemma SeparatorEnds(rest: string, sep: string)
    requires sep != "" && sep[0] == ' ' && sep[|sep| - 1] == ' '
    requires StartsWithFold(rest, sep)
    ensures rest[0] == ' ' && rest[|sep| - 1] == ' '
  {
    assert LowerChar(rest[0]) == sep[0] && LowerChar(rest[|sep| - 1]) == sep[|sep| - 1];
  }

  lemma PlusFreeChunk(current: string)
    requires PlusFree(current)
    ensures AllPlusFree(Chunk(current))
  {
    hide PlusFree;
    PlusFreeStrip(current, SPACES);
  }

  lemma PlusFreeAround(current: string, rest: string, sep: string)
    requires sep != "" && sep[0] == ' ' && sep[|sep| - 1] == ' '
    requires StartsWithFold(rest, sep) && PlusFree(current + rest)
    ensures PlusFree(current) && PlusFree("" + rest[|sep|..])
  {
    hide PlusFree, StartsWithFold;
    var n := |current|;
    SeparatorEnds(rest, sep);
    PlusFreeSlice(current + rest, 0, n);
    assert (current + rest)[0..n] == current;
    PlusFreeSlice(current + rest, n + |sep|, n + |rest|);
    assert (current + rest)[n + |sep|..n + |rest|] == "" + rest[|sep|..];
  }

  // Cutting at a separator that begins and ends with a space leaves whole words.
  lemma {:induction false} PlusFreeSplit(rest: string, sep: string, depth: int, current: string)
    requires sep != "" && sep[0] == ' ' && sep[|sep| - 1] == ' '
    requires PlusFree(current + rest)
    ensures AllPlusFree(SplitRest(rest, sep, depth, current))
    decreases |rest|
  {
    hide PlusFree, Trim, StartsWithFold;
    if rest == "" {
      assert current + rest == current;
      PlusFreeChunk(current);
    } else if rest[0] != '(' && rest[0] != ')' && depth == 0 && StartsWithFold(rest, sep) {
      PlusFreeAround(current, rest, sep);
      PlusFreeChunk(current);
      PlusFreeSplit(rest[|sep|..], sep, 0, "");
      var tail := SplitRest(rest[|sep|..], sep, 0, "");
      assert SplitRest(rest, sep, depth, current) == Chunk(current) + tail;
    } else {
      var depth' := if rest[0] == '(' then depth + 1 else if rest[0] == ')' then depth - 1 else depth;
      assert (current + [rest[0]]) + rest[1..] == current + rest;
      PlusFreeSplit(rest[1..], sep, depth', current + [rest[0]]);
    }
  }

  lemma PlusFreeParts(s: string, sep: string)
    requires sep != "" && sep[0] == ' ' && sep[|sep| - 1] == ' '
    requires PlusFree(s)
    ensures AllPlusFree(SplitTop(s, sep))
  {
    hide PlusFree, SplitRest;
    assert "" + s == s;
    PlusFreeSplit(s, sep, 0, "");
  }

  lemma PlusEnds(s: string)
    requires PlusLength(s) > 0
    ensures !IsWord(s[0]) && !IsWord(s[PlusLength(s) - 1])
  {
  }

  lemma {:induction false} PlusFreePieces(s: string, current: string)
    requires PlusFree(current + s)
    ensures AllPlusFree(PlusPieces(s, current))
    decreases |s|
  {
    hide PlusFree, PlusLength;
    var n := |current|;
    if s == "" {
      assert current + s == current;
    } else if PlusLength(s) > 0 {
      var m := PlusLength(s);
      PlusEnds(s);
      PlusFreeSlice(current + s, 0, n);
      assert (current + s)[0..n] == current;
      PlusFreeSlice(current + s, n + m, n + |s|);
      assert (current + s)[n + m..n + |s|] == "" + s[m..];
      PlusFreePieces(s[m..], "");
    } else {
      assert (current + [s[0]]) + s[1..] == current + s;
      PlusFreePieces(s[1..], current + [s[0]]);
    }
  }

  // A plus sign always splits its text.
  lemma {:induction false} PlusSignSplits(s: string, current: string)
    requires '+' in s
    ensures |PlusPieces(s, current)| > 1
    decreases |s|
  {
    if PlusLength(s) > 0 {
      PlusWeight(s[PlusLength(s)..], "");
    } else {
      assert s[0] != '+';
      PlusSignSplits(s[1..], current + [s[0]]);
    }
  }

  lemma {:induction false} PlusFreeBlank(pieces: seq<string>)
    requires AllPlusFree(pieces)
    ensures AllPlusFree(DropBlank(pieces))
  {
    if pieces != [] {
      PlusFreeBlank(pieces[1..]);
    }
  }

  lemma CommasHead(s: string)
    requires s != ""
    ensures CommasToAnd(s) != "" && CommasToAnd(s)[0] == if s[0] == ',' then ' ' else s[0]
  {
  }

  lemma {:induction false} CommasKeepPrefix(s: string, n: nat)
    requires n <= |CommasToAnd(s)| && forall k :: 0 <= k < n ==> IsLetter(CommasToAnd(s)[k])
    ensures n <= |s| && forall k :: 0 <= k < n ==> s[k] == CommasToAnd(s)[k]
    ensures n == |CommasToAnd(s)| ==> n == |s|
    ensures n < |CommasToAnd(s)| && n < |s| && IsWord(s[n]) ==> CommasToAnd(s)[n] == s[n]
    decreases |s|
  {
    if s != "" && n > 0 {
      CommasHead(s);
      assert CommasToAnd(s)[1..] == CommasToAnd(s[1..]);
      assert forall k :: 0 <= k < n - 1 ==> CommasToAnd(s[1..])[k] == CommasToAnd(s)[k + 1];
      CommasKeepPrefix(s[1..], n - 1);
    }
  }

  lemma StepOver(inWord: bool, s: string)
    requires s != "" && LowerChar(s[0]) != 'p' && !HasWord(IsWord(s[0]), s[1..], "plus")
    ensures !HasWord(inWord, s, "plus")
  {
    assert "plus"[0] == 'p';
  }

  lemma StepOverAnd(inWord: bool, t: string)
    requires !HasWord(false, t, "plus")
    ensures !HasWord(inWord, " and " + t, "plus")
  {
    hide HasWord;
    var r := " and " + t;
    assert r[1..] == "and " + t && r[1..][1..] == "nd " + t && r[1..][1..][1..] == "d " + t;
    assert ("d " + t)[1..] == " " + t && (" " + t)[1..] == t;
    StepOver(true, " " + t);
    StepOver(true, "d " + t);
    StepOver(true, "nd " + t);
    StepOver(false, "and " + t);
    StepOver(inWord, r);
  }

  lemma {:induction false} PlusFreeCommas(inWord: bool, s: string)
    requires !HasWord(inWord, s, "plus")
    ensures !HasWord(inWord, CommasToAnd(s), "plus")
    decreases |s|
  {
    if s != "" {
      var t := CommasToAnd(s[1..]);
      PlusFreeCommas(IsWord(s[0]), s[1..]);
      if s[0] == ',' {
        StepOverAnd(inWord, t);
      } else {
        assert CommasToAnd(s) == [s[0]] + t;
        if !inWord && WordHere(CommasToAnd(s), "plus") {
          CommasKeepPrefix(s, 4);
          assert false;
        }
      }
    }
  }

  lemma {:induction false} TermAnswers(term: string, p: Progress)
    requires PlusFree(term)
    ensures EvaluateTerm(term, p).Answer?
    decreases Weight(term), 1, 0
  {
    hide SplitTop, PlusPieces, CommasToAnd, ParseCpLevel, FindCodes, Clean, Weight, TotalWeight, HasWord, DropBlank, ThresholdMet, AnyTerm, AllTerms;
    TermPieces(term);
    var cleaned := Clean(term);
    var orParts := SplitTop(cleaned, " or ");
    var plusParts := PlusPieces(cleaned, "");
    var commaParts := SplitTop(CommasToAnd(cleaned), " and ");
    PlusFreeClean(term);
    assert "" + cleaned == cleaned && "" + CommasToAnd(cleaned) == CommasToAnd(cleaned);
    if cleaned == "" {
    } else if |cleaned| > 1 && cleaned[0] == '(' && cleaned[|cleaned| - 1] == ')' {
      PlusFreeSlice(cleaned, 1, |cleaned| - 1);
      TermAnswers(cleaned[1..|cleaned| - 1], p);
    } else if |orParts| > 1 {
      PlusFreeParts(cleaned, " or ");
      AnyTermAnswers(orParts, p);
    } else if ParseCpLevel(cleaned).Some? || |FindCodes(false, cleaned)| == 1 {
    } else if '+' in cleaned {
      PlusSignSplits(cleaned, "");
      PlusFreePieces(cleaned, "");
      PlusFreeBlank(plusParts);
      AllTermsAnswer(DropBlank(plusParts), p);
    } else if |commaParts| > 1 {
      PlusFreeCommas(false, cleaned);
      PlusFreeParts(CommasToAnd(cleaned), " and ");
      AllTermsAnswer(commaParts, p);
    }
  }

  lemma {:induction false} AnyTermAnswers(terms: seq<string>, p: Progress)
    requires AllPlusFree(terms)
    ensures AnyTerm(terms, p).Answer?
    decreases TotalWeight(terms), 2, |terms|
  {
    hide EvaluateTerm, Weight;
    if terms != [] {
      TermAnswers(terms[0], p);
      AnyTermAnswers(terms[1..], p);
    }
  }

  lemma {:induction false} AllTermsAnswer(terms: seq<string>, p: Progress)
    requires AllPlusFree(terms)
    ensures AllTerms(terms, p).Answer?
    decreases TotalWeight(terms), 2, |terms|
  {
    hide EvaluateTerm, Weight;
    if terms != [] {
      TermAnswers(terms[0], p);
      AllTermsAnswer(terms[1..], p);
    }
  }

  // Any parenthesisation, commas and plus signs included.
  lemma {:induction false} ExpressionAnswers(expression: string, p: Progress)
    requires PlusFree(expression)
    ensures EvaluateExpression(expression, p).Answer?
    decreases Weight(expression), 3, 0
  {
    hide SplitTop, Weight, TotalWeight, EvaluateTerm, AnyExpression, AllTerms, PlusFree;
    ExpressionPieces(expression);
    var expr := Trim(expression);
    var orParts := SplitTop(expr, " or ");
    var andParts := SplitTop(expr, " and ");
    PlusFreeStrip(expression, SPACES);
    PlusFreeParts(expr, " or ");
    PlusFreeParts(expr, " and ");
    if expr == "" || Lower(expr) == "none" {
    } else if |orParts| > 1 {
      AnyExpressionAnswers(orParts, p);
    } else if |andParts| > 1 {
      AllTermsAnswer(andParts, p);
    } else {
      TermAnswers(expr, p);
    }
  }

  lemma {:induction false} AnyExpressionAnswers(parts: seq<string>, p: Progress)
    requires AllPlusFree(parts)
    ensures AnyExpression(parts, p).Answer?
    decreases TotalWeight(parts), 4, |parts|
  {
    hide EvaluateExpression, Weight;
    if parts != [] {
      ExpressionAnswers(parts[0], p);
      AnyExpressionAnswers(parts[1..], p);
    }
  }

  // ---------------------------------------------------------------- texts that always answer

  // The text gets an answer whatever is held.
  ghost predicate Answers(text: string) {
    forall p :: EvaluateExpression(text, p).Answer?
  }

  ghost predicate AllAnswer(texts: seq<string>) {
    forall k :: 0 <= k < |texts| ==> Answers(texts[k])
  }

  // A list of such texts gets an answer, and a growing record keeps satisfying it.
  lemma {:induction false} SatisfiedMonotone(expressions: seq<string>, p: Progress, q: Progress)
    requires AllAnswer(expressions) && Extends(p, q)
    ensures ExpressionsSatisfied(expressions, p).Answer?
    ensures ExpressionsSatisfied(expressions, p) == Answer(true) ==> ExpressionsSatisfied(expressions, q) == Answer(true)
  {
    hide EvaluateExpression, Weight, Extends;
    if expressions != [] {
      assert Answers(expressions[0]);
      assert EvaluateExpression(expressions[0], q).Answer?;
      SatisfiedMonotone(expressions[1..], p, q);
      if EvaluateExpression(expressions[0], p) == Answer(true) {
        ExpressionMonotone(expressions[0], p, q);
      }
    }
  }
}
