/** When a requirement text is satisfied: the evaluator of app/services/prerequisite_parser.py. */
module RequirementEvaluator {
  // `evaluate_expression`, `_evaluate_term` and `expressions_satisfied`. The recursion of the source
  // does not end on every text, so an evaluation either answers or overflows the call stack.

  import opened Text
  import opened Sums
  import opened PrerequisiteParser
  import opened RequirementLeaves

  // What a student holds: the codes, and what is known of their credit points and levels.
  datatype Progress = Progress(
    held: set<string>,
    cp: map<string, int>,
    level: map<string, Option<int>>,
    table: seq<Equivalence>)

  datatype Outcome = Answer(value: bool) | Overflow

  // ---------------------------------------------------------------- leaves

  // A level that is missing, unknown or zero is read off the code.
  function LevelOf(norm: string, p: Progress): Option<int> {
    if norm in p.level && p.level[norm].Some? && p.level[norm].value != 0 then p.level[norm]
    else LevelFromCode(norm)
  }

  predicate Counts(req: CpRequirement, code: string, p: Progress) {
    var norm := NormalizeCode(code);
    && LevelOf(norm, p) == Some(req.level)
    && (req.prefixes == {} || exists prefix :: prefix in req.prefixes && prefix <= norm)
  }

  function CpOf(code: string, p: Progress): int {
    var norm := NormalizeCode(code);
    if norm in p.cp then p.cp[norm] else 6
  }

  // What one held code adds towards a threshold.
  function Weighs(req: CpRequirement, p: Progress): string -> int {
    code => if Counts(req, code, p) then CpOf(code, p) else 0
  }

  predicate ThresholdMet(req: CpRequirement, p: Progress) {
    SumOver(p.held, Weighs(req, p)) >= req.minCp
  }

  method CpAtLevelSatisfied(req: CpRequirement, p: Progress) returns (met: bool)
    ensures met <==> ThresholdMet(req, p)
  {
    var total := 0;
    var pending := p.held;
    while pending != {}
      invariant pending <= p.held
      invariant total + SumOver(pending, Weighs(req, p)) == SumOver(p.held, Weighs(req, p))
      decreases |pending|
    {
      var code :| code in pending;
      SumRemove(pending, Weighs(req, p), code);
      pending := pending - {code};
      if Counts(req, code, p) {
        total := total + CpOf(code, p);
      }
    }
    met := total >= req.minCp;
  }

  predicate HoldsCode(code: string, p: Progress) {
    NormalizeCode(code) in Expand(p.table, Normalized(p.held))
  }

  predicate HoldsAll(codes: seq<string>, p: Progress) {
    forall k :: 0 <= k < |codes| ==> HoldsCode(codes[k], p)
  }

  // ---------------------------------------------------------------- rewriting steps

  const PARENS: set<char> := {'(', ')'}

  // Trim, drop every outer parenthesis, trim again.
  function Clean(term: string): string {
    Trim(Strip(Trim(term), PARENS))
  }

  // How much of s a plus sign or the word "plus" with its surrounding space takes up, or 0.
  function PlusLength(s: string): (n: nat)
    ensures n <= |s|
  {
    var a := SpaceRun(s);
    if a < |s| && s[a] == '+' then a + 1 + SpaceRun(s[a + 1..])
    else if a > 0 && StartsWithFold(s[a..], "plus") && SpaceRun(s[a + 4..]) > 0 then
      a + 4 + SpaceRun(s[a + 4..])
    else 0
  }

  function PlusPieces(s: string, current: string): seq<string>
    decreases |s|
  {
    if s == "" then [current]
    else if PlusLength(s) > 0 then [current] + PlusPieces(s[PlusLength(s)..], "")
    else PlusPieces(s[1..], current + [s[0]])
  }

  function DropBlank(pieces: seq<string>): seq<string> {
    if pieces == [] then []
    else (if Trim(pieces[0]) == "" then [] else [pieces[0]]) + DropBlank(pieces[1..])
  }

  // The word "plus" somewhere in s, standing between word boundaries.
  predicate HasPlus(s: string) {
    HasWord(false, s, "plus")
  }

  function CommasToAnd(s: string): string {
    if s == "" then "" else (if s[0] == ',' then " and " else [s[0]]) + CommasToAnd(s[1..])
  }

  // ---------------------------------------------------------------- the measure

  // A comma counts for the five characters it is rewritten to.
  function Weight(s: string): (w: nat)
    ensures w >= |s|
  {
    if s == "" then 0 else (if s[0] == ',' then 5 else 1) + Weight(s[1..])
  }

  function TotalWeight(parts: seq<string>): nat {
    if parts == [] then 0 else Weight(parts[0]) + TotalWeight(parts[1..])
  }

  lemma {:induction false} WeightConcat(a: string, b: string)
    ensures Weight(a + b) == Weight(a) + Weight(b)
  {
    if a == "" {
      assert a + b == b;
    } else {
      assert (a + b)[1..] == a[1..] + b;
      WeightConcat(a[1..], b);
    }
  }

  lemma {:induction false} WeightSlice(s: string, i: nat, j: nat)
    requires i <= j <= |s|
    ensures Weight(s[i..j]) + i + (|s| - j) <= Weight(s)
  {
    assert s == s[..i] + (s[i..j] + s[j..]);
    WeightConcat(s[..i], s[i..j] + s[j..]);
    WeightConcat(s[i..j], s[j..]);
  }

  // Stripping yields a slice, and only dropped characters lie beside it.
  lemma StripSlice(s: string, drop: set<char>) returns (i: nat, j: nat)
    ensures i <= j <= |s| && Strip(s, drop) == s[i..j]
    ensures forall k :: 0 <= k < i || j <= k < |s| ==> s[k] in drop
  {
    var left := StripLeft(s, drop);
    i := |s| - |left|;
    j := i + |StripRight(left, drop)|;
    StripLeftIsSuffix(s, drop);
    StripRightIsPrefix(left, drop);
    assert left[..j - i] == s[i..j];
  }

  lemma StripWeight(s: string, drop: set<char>)
    ensures Weight(Strip(s, drop)) <= Weight(s)
    ensures Strip(s, drop) != s ==> Weight(Strip(s, drop)) < Weight(s)
  {
    var i, j := StripSlice(s, drop);
    WeightSlice(s, i, j);
    assert s[0..|s|] == s;
  }

  lemma CleanWeight(s: string)
    ensures Weight(Clean(s)) <= Weight(s)
    ensures Clean(s) != s ==> Weight(Clean(s)) < Weight(s)
  {
    StripWeight(s, SPACES);
    StripWeight(Trim(s), PARENS);
    StripWeight(Strip(Trim(s), PARENS), SPACES);
  }

  lemma TotalWeightConcat(a: seq<string>, b: seq<string>)
    ensures TotalWeight(a + b) == TotalWeight(a) + TotalWeight(b)
  {
    if a == [] {
      assert a + b == b;
    } else {
      assert (a + b)[1..] == a[1..] + b;
    }
  }

  lemma ChunkWeight(current: string)
    ensures |Chunk(current)| <= 1
    ensures TotalWeight(Chunk(current)) <= Weight(current)
  {
    StripWeight(current, SPACES);
  }

  // Two or more pieces weigh less than the whole, because a separator went missing.
  lemma {:induction false} SplitWeight(rest: string, sep: string, depth: int, current: string)
    requires sep != ""
    ensures var parts := SplitRest(rest, sep, depth, current);
      && TotalWeight(parts) <= Weight(current) + Weight(rest)
      && (|parts| > 1 ==> TotalWeight(parts) < Weight(current) + Weight(rest))
    decreases |rest|
  {
    hide StartsWithFold, Chunk;
    ChunkWeight(current);
    if rest != "" {
      if rest[0] != '(' && rest[0] != ')' && depth == 0 && StartsWithFold(rest, sep) {
        var tail := SplitRest(rest[|sep|..], sep, 0, "");
        SplitWeight(rest[|sep|..], sep, 0, "");
        WeightSlice(rest, |sep|, |rest|);
        assert rest[|sep|..|rest|] == rest[|sep|..];
        TotalWeightConcat(Chunk(current), tail);
      } else {
        var depth' := if rest[0] == '(' then depth + 1 else if rest[0] == ')' then depth - 1 else depth;
        SplitWeight(rest[1..], sep, depth', current + [rest[0]]);
        WeightConcat(current, [rest[0]]);
      }
    }
  }

  lemma {:induction false} PlusWeight(s: string, current: string)
    ensures var parts := PlusPieces(s, current);
      && |parts| > 0
      && TotalWeight(parts) <= Weight(current) + Weight(s)
      && (|parts| > 1 ==> TotalWeight(parts) < Weight(current) + Weight(s))
      && (|parts| == 1 ==> parts == [current + s])
    decreases |s|
  {
    if s == "" {
      assert current + s == current;
    } else if PlusLength(s) > 0 {
      PlusWeight(s[PlusLength(s)..], "");
      WeightSlice(s, PlusLength(s), |s|);
      assert s[PlusLength(s)..|s|] == s[PlusLength(s)..];
    } else {
      assert current + [s[0]] + s[1..] == current + s;
      PlusWeight(s[1..], current + [s[0]]);
      WeightConcat(current, [s[0]]);
    }
  }

  lemma {:induction false} BlankWeight(pieces: seq<string>)
    ensures TotalWeight(DropBlank(pieces)) <= TotalWeight(pieces)
  {
    if pieces != [] {
      BlankWeight(pieces[1..]);
      TotalWeightConcat(if Trim(pieces[0]) == "" then [] else [pieces[0]], DropBlank(pieces[1..]));
    }
  }

  lemma CommaWeight(s: string)
    ensures Weight(CommasToAnd(s)) == Weight(s)
  {
    if s != "" {
      var head := if s[0] == ',' then " and " else [s[0]];
      WeightConcat(head, CommasToAnd(s[1..]));
      assert Weight(" and ") == 5;
    }
  }

  // Everything a term is split into weighs less than the term.
  lemma TermPieces(term: string)
    ensures var cleaned := Clean(term);
      && Weight(cleaned) <= Weight(term)
      && (cleaned != term ==> Weight(cleaned) < Weight(term))
      && (|cleaned| > 1 ==> Weight(cleaned[1..|cleaned| - 1]) < Weight(term))
      && (|SplitTop(cleaned, " or ")| > 1 ==> TotalWeight(SplitTop(cleaned, " or ")) < Weight(term))
      && (|PlusPieces(cleaned, "")| > 1 ==> TotalWeight(DropBlank(PlusPieces(cleaned, ""))) < Weight(term))
      && (|SplitTop(CommasToAnd(cleaned), " and ")| > 1 ==>
            TotalWeight(SplitTop(CommasToAnd(cleaned), " and ")) < Weight(term))
  {
    var cleaned := Clean(term);
    hide Clean, Weight, SplitRest, PlusPieces, DropBlank, CommasToAnd, TotalWeight;
    CleanWeight(term);
    if |cleaned| > 1 {
      WeightSlice(cleaned, 1, |cleaned| - 1);
    }
    assert Weight("") == 0 by { EmptyWeighsNothing(); }
    SplitWeight(cleaned, " or ", 0, "");
    PlusWeight(cleaned, "");
    BlankWeight(PlusPieces(cleaned, ""));
    SplitWeight(CommasToAnd(cleaned), " and ", 0, "");
    CommaWeight(cleaned);
  }

  lemma EmptyWeighsNothing()
    ensures Weight("") == 0
  {
  }

  lemma ExpressionPieces(expression: string)
    ensures var expr := Trim(expression);
      && Weight(expr) <= Weight(expression)
      && (|SplitTop(expr, " or ")| > 1 ==> TotalWeight(SplitTop(expr, " or ")) < Weight(expression))
      && (|SplitTop(expr, " and ")| > 1 ==> TotalWeight(SplitTop(expr, " and ")) < Weight(expression))
  {
    var expr := Trim(expression);
    hide Weight, SplitRest, TotalWeight;
    StripWeight(expression, SPACES);
    EmptyWeighsNothing();
    SplitWeight(expr, " or ", 0, "");
    SplitWeight(expr, " and ", 0, "");
  }

  // ---------------------------------------------------------------- evaluation

  function EvaluateTerm(term: string, p: Progress): Outcome
    decreases Weight(term), 1, 0
  {
    hide Clean, SplitTop, PlusPieces, DropBlank, CommasToAnd, ParseCpLevel, FindCodes, Weight, TotalWeight;
    TermPieces(term);
    var cleaned := Clean(term);
    var orParts := SplitTop(cleaned, " or ");
    var plusParts := PlusPieces(cleaned, "");
    var commaParts := SplitTop(CommasToAnd(cleaned), " and ");
    var threshold := ParseCpLevel(cleaned);
    var codes := FindCodes(false, cleaned);
    if cleaned == "" then Answer(true)
    else if |cleaned| > 1 && cleaned[0] == '(' && cleaned[|cleaned| - 1] == ')' then
      EvaluateTerm(cleaned[1..|cleaned| - 1], p)
    else if |orParts| > 1 then AnyTerm(orParts, p)
    else if threshold.Some? then
      Answer(HoldsAll(codes, p) && ThresholdMet(threshold.value, p))
    else if |codes| == 1 then Answer(HoldsCode(codes[0], p))
    else if '+' in cleaned || HasPlus(cleaned) then
      if |plusParts| > 1 then AllTerms(DropBlank(plusParts), p)
      // The only piece is `cleaned` again: the next call peels it further, or is the same call.
      else if Clean(cleaned) != cleaned then EvaluateTerm(cleaned, p)
      else Overflow
    else if |commaParts| > 1 then AllTerms(commaParts, p)
    else Answer(HoldsAll(codes, p))
  }

  function AnyTerm(terms: seq<string>, p: Progress): Outcome
    decreases TotalWeight(terms), 2, |terms|
  {
    hide EvaluateTerm, Weight;
    if terms == [] then Answer(false)
    else
      var first := EvaluateTerm(terms[0], p);
      if first == Answer(false) then AnyTerm(terms[1..], p) else first
  }

  function AllTerms(terms: seq<string>, p: Progress): Outcome
    decreases TotalWeight(terms), 2, |terms|
  {
    hide EvaluateTerm, Weight;
    if terms == [] then Answer(true)
    else
      var first := EvaluateTerm(terms[0], p);
      if first == Answer(true) then AllTerms(terms[1..], p) else first
  }

  function EvaluateExpression(expression: string, p: Progress): Outcome
    decreases Weight(expression), 3, 0
  {
    hide SplitTop, Weight, TotalWeight, EvaluateTerm;
    ExpressionPieces(expression);
    var expr := Trim(expression);
    var orParts := SplitTop(expr, " or ");
    var andParts := SplitTop(expr, " and ");
    if expr == "" || Lower(expr) == "none" then Answer(true)
    else if |orParts| > 1 then AnyExpression(orParts, p)
    else if |andParts| > 1 then AllTerms(andParts, p)
    else EvaluateTerm(expr, p)
  }

  function AnyExpression(parts: seq<string>, p: Progress): Outcome
    decreases TotalWeight(parts), 4, |parts|
  {
    hide EvaluateExpression, Weight;
    if parts == [] then Answer(false)
    else
      var first := EvaluateExpression(parts[0], p);
      if first == Answer(false) then AnyExpression(parts[1..], p) else first
  }

  // A list of requirement texts, all of which must be satisfied.
  function ExpressionsSatisfied(expressions: seq<string>, p: Progress): Outcome {
    if expressions == [] then Answer(true)
    else
      var first := EvaluateExpression(expressions[0], p);
      if first == Answer(true) then ExpressionsSatisfied(expressions[1..], p) else first
  }
}
