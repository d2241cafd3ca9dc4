/** Evaluating a printed requirement tree gives the tree's meaning, leaf by leaf and group by group. */
module RequirementMeaning {
  import opened Text
  import opened PrerequisiteParser
  import opened RequirementLeaves
  import opened RequirementEvaluator
  import opened RequirementLaws
  import opened RequirementTrees
  import opened RequirementReading

  // ---------------------------------------------------------------- leaves

  // A text whose first and last characters are neither white space nor parentheses.
  predicate Bare(s: string) {
    && s != ""
    && s[0] !in SPACES && s[0] !in PARENS
    && s[|s| - 1] !in SPACES && s[|s| - 1] !in PARENS
  }

  lemma BareIsClean(s: string)
    requires Bare(s)
    ensures Clean(s) == s && IsTrimmed(s)
  {
    hide Strip;
    assert Trim(s) == s && Strip(s, PARENS) == s;
  }

  // Safe characters make neither a parenthesis nor the third letter of a separator.
  predicate Quiet(s: string) {
    '(' !in s && ')' !in s && forall ch :: ch in s ==> LowerChar(ch) != 'r' && LowerChar(ch) != 'n'
  }

  lemma QuietJoin(a: string, b: string)
    requires Quiet(a) && Quiet(b)
    ensures Quiet(a + b)
  {
  }

  lemma QuietPieces(minCp: nat, level: nat, subjects: Subjects)
    ensures Quiet(Decimal(minCp)) && Quiet("cp at ") && Quiet(LevelText(level)) && Quiet(" level") && Quiet(SubjectsText(subjects))
  {
    hide Quiet;
    DigitsAreQuiet(Decimal(minCp));
    QuietWords();
    QuietLevels(level);
    QuietSubjects(subjects);
  }

  lemma DigitsAreQuiet(s: string)
    requires forall k :: 0 <= k < |s| ==> IsDigit(s[k])
    ensures Quiet(s)
  {
  }

  lemma QuietWords()
    ensures Quiet("cp at ") && Quiet(" level")
  {
  }

  lemma QuietLevels(level: nat)
    ensures Quiet(LevelText(level))
  {
  }

  lemma QuietSubjects(subjects: Subjects)
    ensures Quiet(SubjectsText(subjects))
  {
  }

  lemma SubjectsEnd(subjects: Subjects)
    ensures var t := " level" + SubjectsText(subjects); t[|t| - 1] in {'l', 'I', 'T'}
  {
  }

  lemma ThresholdChars(minCp: nat, level: nat, subjects: Subjects)
    ensures var t := PrintThreshold(minCp, level, subjects);
      && Bare(t) && |t| >= 5 && IsDigit(t[0]) && Quiet(t)
  {
    hide Quiet, Decimal;
    var d := Decimal(minCp);
    var a := d + "cp at ";
    var b := a + LevelText(level);
    var c := b + " level";
    var t := c + SubjectsText(subjects);
    QuietPieces(minCp, level, subjects);
    QuietJoin(d, "cp at ");
    QuietJoin(a, LevelText(level));
    QuietJoin(b, " level");
    QuietJoin(c, SubjectsText(subjects));
    SubjectsEnd(subjects);
    var end := " level" + SubjectsText(subjects);
    assert t == b + end;
    assert t[0] == d[0] && t[|t| - 1] == end[|end| - 1];
    assert IsDigit(t[0]);
  }

  lemma SeparatorFreeByChars(s: string, sep: string)
    requires IsSeparator(sep) && Bare(s) && Quiet(s)
    ensures SepFree(s, sep)
  {
    forall k | 0 <= k < |s| ensures NoSeparatorAt(s, k, sep) {
      assert k + 2 < |s| ==> s[k + 2] in s;
    }
  }

  lemma LeafIsSolid(leaf: Leaf, sep: string)
    requires WellFormedLeaf(leaf) && IsSeparator(sep)
    ensures Solid(PrintLeaf(leaf), sep)
  {
    hide Passes, IsCode, PrintThreshold;
    match leaf
    case Code(code) => CodeIsSolid(code, sep);
    case Threshold(minCp, level, subjects) =>
      var t := PrintThreshold(minCp, level, subjects);
      ThresholdChars(minCp, level, subjects);
      SeparatorFreeByChars(t, sep);
      BareIsClean(t);
      forall tail | Continues(tail) ensures Passes(t, tail, sep, 0, 0) {
        PassesSepFree(t, tail, sep, 0);
      }
  }

  // Bare, free of parentheses, and longer than the word "none".
  predicate Piece(s: string) {
    Bare(s) && |s| >= 5 && '(' !in s && ')' !in s
  }

  // What every printed leaf looks like from outside.
  lemma LeafShape(leaf: Leaf)
    requires WellFormedLeaf(leaf)
    ensures Piece(PrintLeaf(leaf))
    ensures var t := PrintLeaf(leaf); IsDigit(t[0]) || (IsLetter(t[0]) && IsLetter(t[2]))
  {
    match leaf
    case Code(code) =>
      CodeChars(code);
      assert IsUpper(code[2]);
    case Threshold(minCp, level, subjects) =>
      ThresholdChars(minCp, level, subjects);
  }

  lemma LeavesShape(leaves: seq<Leaf>)
    requires forall k :: 0 <= k < |leaves| ==> WellFormedLeaf(leaves[k])
    ensures forall k :: 0 <= k < |leaves| ==> Piece(PrintLeaves(leaves)[k])
  {
    hide WellFormedLeaf, PrintLeaf, Piece;
    forall k | 0 <= k < |leaves| ensures Piece(PrintLeaves(leaves)[k]) {
      LeafShape(leaves[k]);
    }
  }

  lemma CodesShape(codes: seq<string>)
    requires AllCodes(codes)
    ensures forall k :: 0 <= k < |codes| ==> Piece(codes[k])
  {
    hide IsCode, Piece;
    forall k | 0 <= k < |codes| ensures Piece(codes[k]) {
      LeafShape(Code(codes[k]));
    }
  }

  lemma OneCodeReading(c: string)
    requires IsCode(c)
    ensures ParseCpLevel(c).None? && FindCodes(false, c) == [c]
  {
    hide IsCode, FindThreshold, FindCodes;
    CodesListReading([c]);
    assert Join([c], " and ") == c;
  }

  lemma OneCodeEvaluates(s: string, p: Progress)
    requires Bare(s) && SplitTop(s, " or ") == [s]
    requires ParseCpLevel(s).None? && |FindCodes(false, s)| == 1
    ensures EvaluateTerm(s, p) == Answer(HoldsCode(FindCodes(false, s)[0], p))
  {
    hide Clean, SplitTop, PlusPieces, DropBlank, CommasToAnd, ParseCpLevel, FindCodes, HasPlus, HoldsAll, HoldsCode,
      ThresholdMet, AnyTerm, AllTerms;
    BareIsClean(s);
  }

  lemma OneThresholdEvaluates(s: string, p: Progress)
    requires Bare(s) && SplitTop(s, " or ") == [s]
    requires ParseCpLevel(s).Some? && FindCodes(false, s) == []
    ensures EvaluateTerm(s, p) == Answer(ThresholdMet(ParseCpLevel(s).value, p))
  {
    hide Clean, SplitTop, PlusPieces, DropBlank, CommasToAnd, ParseCpLevel, FindCodes, HasPlus, HoldsCode,
      ThresholdMet, AnyTerm, AllTerms;
    BareIsClean(s);
  }

  lemma CodeEvaluates(c: string, p: Progress)
    requires IsCode(c)
    ensures EvaluateTerm(c, p) == Answer(HoldsCode(c, p))
  {
    hide IsCode, Bare, Solid, ParseCpLevel, FindCodes, HasWord, SplitTop, EvaluateTerm, IsTrimmed, Clean;
    LeafShape(Code(c));
    CodeIsSolid(c, " or ");
    BareIsClean(c);
    SplitLast(c, " or ");
    OneCodeReading(c);
    OneCodeEvaluates(c, p);
  }

  lemma ThresholdEvaluates(minCp: nat, level: nat, subjects: Subjects, p: Progress)
    requires level in {100, 200, 300} && ReadableCount(minCp, level)
    ensures EvaluateTerm(PrintThreshold(minCp, level, subjects), p) ==
      Answer(ThresholdMet(CpRequirement(minCp, level, SubjectPrefixes(subjects)), p))
  {
    hide Passes, ParseCpLevel, FindCodes, HasWord, SplitRest, ThresholdMet, PrintThreshold, EvaluateTerm;
    var t := PrintThreshold(minCp, level, subjects);
    ThresholdChars(minCp, level, subjects);
    LeafIsSolid(Threshold(minCp, level, subjects), " or ");
    SplitLast(t, " or ");
    ThresholdReadableIff(minCp, level, subjects);
    NoCodesInThreshold(minCp, level, subjects);
    OneThresholdEvaluates(t, p);
  }

  lemma LeafEvaluates(leaf: Leaf, p: Progress)
    requires WellFormedLeaf(leaf)
    ensures EvaluateTerm(PrintLeaf(leaf), p) == Answer(LeafHolds(leaf, p))
  {
    hide EvaluateTerm, IsCode, PrintThreshold;
    match leaf
    case Code(code) => CodeEvaluates(code, p);
    case Threshold(minCp, level, subjects) => ThresholdEvaluates(minCp, level, subjects, p);
  }

  // ---------------------------------------------------------------- groups

  lemma GroupIsClean(inner: string)
    requires Bare(inner)
    ensures Clean("(" + inner + ")") == inner
  {
    var s := "(" + inner + ")";
    assert s[0] == '(' && s[|s| - 1] == ')';
    assert Trim(s) == s;
    assert s[1..] == inner + ")";
    assert StripLeft(s, PARENS) == inner + ")";
    assert (inner + ")")[..|inner|] == inner;
    assert StripRight(inner + ")", PARENS) == inner;
  }

  // A term is judged by what is left once it is cleaned.
  lemma SameWhenCleaned(a: string, b: string, p: Progress)
    requires Clean(a) == Clean(b)
    ensures EvaluateTerm(a, p) == EvaluateTerm(b, p)
  {
    hide Clean, SplitTop, PlusPieces, DropBlank, CommasToAnd, ParseCpLevel, FindCodes, HasPlus, HoldsAll, HoldsCode,
      ThresholdMet, AnyTerm, AllTerms;
  }

  lemma {:induction false} JoinShape(parts: seq<string>, sep: string)
    requires parts != [] && IsSeparator(sep)
    requires forall k :: 0 <= k < |parts| ==> Piece(parts[k])
    ensures var t := Join(parts, sep);
      && Piece(t) && Piece(parts[0]) && t[..5] == parts[0][..5]
  {
    if |parts| > 1 {
      JoinShape(parts[1..], sep);
      assert '(' !in " and " && ')' !in " and " && '(' !in " or " && ')' !in " or ";
    }
  }

  lemma {:induction false} AnyTermOfLeaves(leaves: seq<Leaf>, p: Progress)
    requires forall k :: 0 <= k < |leaves| ==> WellFormedLeaf(leaves[k])
    ensures AnyTerm(PrintLeaves(leaves), p) == Answer(exists k :: 0 <= k < |leaves| && LeafHolds(leaves[k], p))
  {
    hide EvaluateTerm, LeafHolds, WellFormedLeaf, PrintLeaf;
    if leaves != [] {
      assert PrintLeaves(leaves)[1..] == PrintLeaves(leaves[1..]);
      LeafEvaluates(leaves[0], p);
      AnyTermOfLeaves(leaves[1..], p);
      assert (exists k :: 0 <= k < |leaves[1..]| && LeafHolds(leaves[1..][k], p)) ==>
          exists k :: 0 <= k < |leaves| && LeafHolds(leaves[k], p) by {
        if k :| 0 <= k < |leaves[1..]| && LeafHolds(leaves[1..][k], p) {
          assert LeafHolds(leaves[k + 1], p);
        }
      }
      if !LeafHolds(leaves[0], p) {
        forall k | 0 <= k < |leaves| && LeafHolds(leaves[k], p)
          ensures exists j :: 0 <= j < |leaves[1..]| && LeafHolds(leaves[1..][j], p)
        {
          assert LeafHolds(leaves[1..][k - 1], p);
        }
      }
    }
  }

  lemma AnyGroupEvaluates(leaves: seq<Leaf>, p: Progress)
    requires leaves != [] && forall k :: 0 <= k < |leaves| ==> WellFormedLeaf(leaves[k])
    ensures EvaluateTerm(PrintItem(AnyOf(leaves)), p) == Answer(ItemHolds(AnyOf(leaves), p))
  {
    hide WellFormedLeaf, PrintLeaf, LeafHolds, SplitRest, Clean;
    var parts := PrintLeaves(leaves);
    var inner := Join(parts, " or ");
    LeavesShape(leaves);
    forall k | 0 <= k < |parts| ensures Solid(parts[k], " or ") {
      LeafIsSolid(leaves[k], " or ");
    }
    JoinShape(parts, " or ");
    GroupIsClean(inner);
    BareIsClean(inner);
    SplitJoin(parts, " or ");
    AnyTermOfLeaves(leaves, p);
    SameWhenCleaned("(" + inner + ")", inner, p);
    if |leaves| == 1 {
      assert inner == PrintLeaf(leaves[0]);
      LeafEvaluates(leaves[0], p);
      assert LeafHolds(leaves[0], p) <==> exists k :: 0 <= k < |leaves| && LeafHolds(leaves[k], p);
    } else {
      ManyAlternatives(inner, p);
    }
  }

  lemma ManyAlternatives(inner: string, p: Progress)
    requires Bare(inner) && |SplitTop(inner, " or ")| > 1
    ensures EvaluateTerm(inner, p) == AnyTerm(SplitTop(inner, " or "), p)
  {
    BareIsClean(inner);
    hide Clean, SplitTop, PlusPieces, DropBlank, CommasToAnd, ParseCpLevel, FindCodes, HasPlus, HoldsAll, HoldsCode,
      ThresholdMet, AnyTerm, AllTerms;
  }

  lemma {:induction false} AllTermsOfCodes(codes: seq<string>, p: Progress)
    requires AllCodes(codes)
    ensures AllTerms(codes, p) == Answer(HoldsAll(codes, p))
  {
    hide EvaluateTerm, HoldsCode, IsCode;
    if codes != [] {
      CodeEvaluates(codes[0], p);
      AllTermsOfCodes(codes[1..], p);
      assert HoldsAll(codes, p) <==> HoldsCode(codes[0], p) && HoldsAll(codes[1..], p) by {
        if HoldsCode(codes[0], p) && HoldsAll(codes[1..], p) {
          forall k | 0 <= k < |codes| ensures HoldsCode(codes[k], p) {
            assert k > 0 ==> codes[k] == codes[1..][k - 1];
          }
        }
        if HoldsAll(codes, p) {
          assert forall k :: 0 <= k < |codes[1..]| ==> codes[1..][k] == codes[k + 1];
        }
      }
    }
  }

  lemma {:induction false} NoCommasKept(s: string)
    requires ',' !in s
    ensures CommasToAnd(s) == s
  {
    if s != "" {
      NoCommasKept(s[1..]);
    }
  }

  lemma {:induction false} CodesListChars(codes: seq<string>)
    requires codes != [] && AllCodes(codes)
    ensures var t := Join(codes, " and "); ',' !in t && '+' !in t && SepFree(t, " or ")
  {
    var c := codes[0];
    CodeChars(c);
    assert ',' !in " and " && '+' !in " and ";
    if |codes| == 1 {
      OnlyWord(c);
    } else {
      CodesListChars(codes[1..]);
      var t := Join(codes[1..], " and ");
      CodeChars(codes[1]);
      assert IsUpper(codes[1][0]) && IsUpper(codes[1][1]) && IsUpper(codes[1][2]);
      assert t[0] == codes[1][0] && t[1] == codes[1][1] && t[2] == codes[1][2];
      AndBeforeCodes(c, t);
    }
  }

  lemma OnlyWord(c: string)
    requires forall k :: 0 <= k < |c| ==> IsLetter(c[k]) || IsDigit(c[k])
    ensures SepFree(c, " or ") && ',' !in c && '+' !in c
  {
  }

  lemma AndBeforeCodes(c: string, t: string)
    requires forall k :: 0 <= k < |c| ==> IsLetter(c[k]) || IsDigit(c[k])
    requires |t| >= 5 && IsLetter(t[0]) && IsLetter(t[1]) && IsLetter(t[2]) && SepFree(t, " or ")
    ensures SepFree(c + " and " + t, " or ")
  {
    var s := c + " and " + t;
    var n := |c|;
    assert s[n] == ' ' && s[n + 1] == 'a' && s[n + 2] == 'n' && s[n + 3] == 'd' && s[n + 4] == ' ';
    assert " or "[1] == 'o' && " or "[3] == ' ';
    OnlyWord(c);
    forall k | 0 <= k < |s| ensures NoSeparatorAt(s, k, " or ") {
      if k >= n + 5 {
        assert NoSeparatorAt(t, k - n - 5, " or ");
        assert forall j :: k <= j < |s| ==> s[j] == t[j - n - 5];
      } else if k == n + 4 {
        assert s[k + 3] == t[2];
      }
    }
  }

  lemma AllGroupEvaluates(codes: seq<string>, p: Progress)
    requires codes != [] && AllCodes(codes)
    ensures EvaluateTerm(PrintItem(AllOf(codes)), p) == Answer(ItemHolds(AllOf(codes), p))
  {
    hide IsCode, SplitRest, Clean, HoldsCode, FindThreshold, FindCodes, HasWord, Passes;
    var inner := Join(codes, " and ");
    CodesShape(codes);
    forall k | 0 <= k < |codes| ensures Solid(codes[k], " and ") {
      CodeIsSolid(codes[k], " and ");
    }
    JoinShape(codes, " and ");
    GroupIsClean(inner);
    BareIsClean(inner);
    SplitJoin(codes, " and ");
    AllTermsOfCodes(codes, p);
    CodesListReading(codes);
    CodesListChars(codes);
    NoCommasKept(inner);
    BareIsClean(inner);
    forall tail | Continues(tail) ensures Passes(inner, tail, " or ", 0, 0) {
      PassesSepFree(inner, tail, " or ", 0);
    }
    SplitLast(inner, " or ");
    SameWhenCleaned("(" + inner + ")", inner, p);
    CodesListEvaluates(codes, inner, p);
  }

  lemma CodesListEvaluates(codes: seq<string>, inner: string, p: Progress)
    requires codes != [] && Bare(inner)
    requires SplitTop(inner, " or ") == [inner] && SplitTop(CommasToAnd(inner), " and ") == codes
    requires ParseCpLevel(inner).None? && FindCodes(false, inner) == codes && '+' !in inner && !HasPlus(inner)
    requires AllTerms(codes, p) == Answer(HoldsAll(codes, p))
    ensures EvaluateTerm(inner, p) == Answer(HoldsAll(codes, p))
  {
    hide Clean, SplitTop, PlusPieces, DropBlank, CommasToAnd, ParseCpLevel, FindCodes, HasPlus, HoldsCode,
      ThresholdMet, AnyTerm, AllTerms;
    if |codes| == 1 {
      OneCodeEvaluates(inner, p);
    } else {
      BareIsClean(inner);
    }
  }

  // ---------------------------------------------------------------- items

  lemma ItemEvaluates(item: Item, p: Progress)
    requires WellFormedItem(item)
    ensures EvaluateTerm(PrintItem(item), p) == Answer(ItemHolds(item, p))
  {
    hide EvaluateTerm, WellFormedLeaf, IsCode;
    match item
    case One(leaf) => LeafEvaluates(leaf, p);
    case AnyOf(leaves) => AnyGroupEvaluates(leaves, p);
    case AllOf(codes) => AllGroupEvaluates(codes, p);
  }

  // How an item's text begins: never so that " or " could be read across its first letters.
  predicate StartsPlainly(t: string) {
    |t| >= 3 && (IsDigit(t[0]) || t[0] == '(' || (IsLetter(t[0]) && IsLetter(t[2])))
  }

  lemma ItemShape(item: Item)
    requires WellFormedItem(item)
    ensures var t := PrintItem(item); |t| >= 5 && IsTrimmed(t) && StartsPlainly(t)
  {
    hide WellFormedLeaf, IsCode, PrintLeaf;
    match item
    case One(leaf) =>
      LeafShape(leaf);
    case AnyOf(leaves) =>
      var parts := PrintLeaves(leaves);
      LeavesShape(leaves);
      JoinShape(parts, " or ");
      ParenShape(Join(parts, " or "));
    case AllOf(codes) =>
      CodesShape(codes);
      JoinShape(codes, " and ");
      ParenShape(Join(codes, " and "));
  }

  lemma ParenShape(inner: string)
    requires |inner| >= 5
    ensures var t := "(" + inner + ")"; |t| >= 5 && IsTrimmed(t) && StartsPlainly(t)
  {
    var t := "(" + inner + ")";
    assert t[0] == '(' && t[|t| - 1] == ')';
  }

  lemma GroupIsSolid(inner: string, sep: string)
    requires IsSeparator(sep) && |inner| >= 5 && '(' !in inner && ')' !in inner
    ensures Solid("(" + inner + ")", sep)
  {
    var t := "(" + inner + ")";
    ParenShape(inner);
    forall tail | Continues(tail) ensures Passes(t, tail, sep, 0, 0) {
      GroupPasses(inner, tail, sep);
    }
  }

  lemma GroupPasses(inner: string, tail: string, sep: string)
    requires '(' !in inner && ')' !in inner
    ensures Passes("(" + inner + ")", tail, sep, 0, 0)
  {
    hide StartsWithFold;
    var t := "(" + inner + ")";
    assert t[1..] == inner + ")";
    PassesInside(inner, ")" + tail, sep, 1);
    assert Passes(")", tail, sep, 1, 0) by {
      assert ")"[1..] == "";
    }
    PassesConcat(inner, ")", tail, sep, 1, 1, 0);
  }

  lemma ItemIsSolid(item: Item, sep: string)
    requires WellFormedItem(item) && IsSeparator(sep)
    ensures Solid(PrintItem(item), sep)
  {
    hide WellFormedLeaf, IsCode, PrintLeaf, Solid;
    match item
    case One(leaf) =>
      LeafIsSolid(leaf, sep);
    case AnyOf(leaves) =>
      var parts := PrintLeaves(leaves);
      LeavesShape(leaves);
      JoinShape(parts, " or ");
      GroupIsSolid(Join(parts, " or "), sep);
    case AllOf(codes) =>
      CodesShape(codes);
      JoinShape(codes, " and ");
      GroupIsSolid(Join(codes, " and "), sep);
  }

  // ---------------------------------------------------------------- clauses

  lemma AndPassesOr(t: string)
    requires StartsPlainly(t)
    ensures Passes(" and ", t, " or ", 0, 0)
  {
    var sep := " or ";
    assert sep[1] == 'o' && sep[3] == ' ';
    var w := " and ";
    assert w[1..] == "and " && w[1..][1..] == "nd " && w[1..][1..][1..] == "d " && w[1..][1..][1..][1..] == " ";
    assert !StartsWithFold(" and " + t, sep) by { assert (" and " + t)[1] == 'a'; }
    assert !StartsWithFold("and " + t, sep) by { assert ("and " + t)[0] == 'a'; }
    assert !StartsWithFold("nd " + t, sep) by { assert ("nd " + t)[0] == 'n'; }
    assert !StartsWithFold("d " + t, sep) by { assert ("d " + t)[0] == 'd'; }
    assert !StartsWithFold(" " + t, sep) by { assert (" " + t)[3] == t[2] && (" " + t)[1] == t[0]; }
    hide StartsWithFold;
    assert Passes(" ", t, sep, 0, 0) by { assert " "[1..] == ""; }
    assert Passes("d ", t, sep, 0, 0);
    assert Passes("nd ", t, sep, 0, 0);
    assert Passes("and ", t, sep, 0, 0);
  }

  lemma {:induction false} ClausePasses(parts: seq<string>, tail: string)
    requires parts != [] && Continues(tail)
    requires forall k :: 0 <= k < |parts| ==> Solid(parts[k], " or ") && |parts[k]| >= 5 && StartsPlainly(parts[k])
    ensures var t := Join(parts, " and ");
      && Passes(t, tail, " or ", 0, 0) && IsTrimmed(t) && |t| >= 5 && StartsPlainly(t)
    decreases |parts|
  {
    hide Passes, IsSeparator;
    assert Solid(parts[0], " or ");
    if |parts| > 1 {
      var t := Join(parts[1..], " and ");
      ClausePasses(parts[1..], tail);
      AndPassesOr(t + tail);
      PassesConcat(" and ", t, tail, " or ", 0, 0, 0);
      assert Continues((" and " + t) + tail);
      PassesConcat(parts[0], " and " + t, tail, " or ", 0, 0, 0);
      assert parts[0] + " and " + t == parts[0] + (" and " + t);
    }
  }

  lemma ClauseIsSolid(clause: Clause)
    requires WellFormedClause(clause)
    ensures Solid(PrintClause(clause), " or ") && |PrintClause(clause)| >= 5
  {
    hide WellFormedItem, PrintItem, StartsPlainly, Passes;
    var parts := PrintItems(clause);
    forall k | 0 <= k < |parts| ensures Solid(parts[k], " or ") && |parts[k]| >= 5 && StartsPlainly(parts[k]) {
      ItemShape(clause[k]);
      ItemIsSolid(clause[k], " or ");
    }
    forall tail | Continues(tail) ensures Passes(PrintClause(clause), tail, " or ", 0, 0) {
      ClausePasses(parts, tail);
    }
    ClausePasses(parts, "");
  }

  lemma {:induction false} AllTermsOfItems(clause: Clause, p: Progress)
    requires forall k :: 0 <= k < |clause| ==> WellFormedItem(clause[k])
    ensures AllTerms(PrintItems(clause), p) == Answer(ClauseHolds(clause, p))
  {
    hide EvaluateTerm, ItemHolds, WellFormedItem, PrintItem;
    if clause != [] {
      assert PrintItems(clause)[1..] == PrintItems(clause[1..]);
      ItemEvaluates(clause[0], p);
      AllTermsOfItems(clause[1..], p);
      assert clause == [clause[0]] + clause[1..];
      ClauseSplits(clause[0], clause[1..], p);
    }
  }

  lemma ClauseSplits(item: Item, rest: Clause, p: Progress)
    ensures ClauseHolds([item] + rest, p) <==> ItemHolds(item, p) && ClauseHolds(rest, p)
  {
    hide ItemHolds;
    var clause := [item] + rest;
    if ClauseHolds(clause, p) {
      assert ItemHolds(clause[0], p);
      assert forall k :: 0 <= k < |rest| ==> rest[k] == clause[k + 1];
    }
  }

  lemma TextIsNotNone(t: string)
    requires |t| >= 5 && IsTrimmed(t)
    ensures Trim(t) == t && Lower(t) != "none"
  {
    assert |Lower(t)| == |t|;
  }

  lemma ClauseEvaluates(clause: Clause, p: Progress)
    requires WellFormedClause(clause)
    ensures EvaluateExpression(PrintClause(clause), p) == Answer(ClauseHolds(clause, p))
  {
    hide WellFormedItem, PrintItem, Passes, SplitRest, EvaluateTerm, AnyExpression, AllTerms, ItemHolds;
    var t := PrintClause(clause);
    var parts := PrintItems(clause);
    ClauseIsSolid(clause);
    TextIsNotNone(t);
    SplitLast(t, " or ");
    forall k | 0 <= k < |parts| ensures Solid(parts[k], " and ") {
      ItemIsSolid(clause[k], " and ");
    }
    SplitJoin(parts, " and ");
    AllTermsOfItems(clause, p);
    if |clause| == 1 {
      ItemEvaluates(clause[0], p);
      assert ClauseHolds(clause, p) <==> ItemHolds(clause[0], p);
    } else {
    }
  }

  lemma ManyDisjuncts(t: string, p: Progress)
    requires t != "" && Trim(t) == t && Lower(t) != "none" && |SplitTop(t, " or ")| > 1
    ensures EvaluateExpression(t, p) == AnyExpression(SplitTop(t, " or "), p)
  {
    hide SplitTop, EvaluateTerm, AnyExpression, AllTerms, Trim;
  }

  // ---------------------------------------------------------------- trees

  lemma {:induction false} AnyExpressionOfClauses(tree: Tree, p: Progress)
    requires forall k :: 0 <= k < |tree| ==> WellFormedClause(tree[k])
    ensures AnyExpression(PrintClauses(tree), p) == Answer(TreeHolds(tree, p))
  {
    hide EvaluateExpression, ClauseHolds, WellFormedClause, PrintClause;
    if tree != [] {
      assert PrintClauses(tree)[1..] == PrintClauses(tree[1..]);
      ClauseEvaluates(tree[0], p);
      AnyExpressionOfClauses(tree[1..], p);
      assert tree == [tree[0]] + tree[1..];
      TreeSplits(tree[0], tree[1..], p);
    }
  }

  lemma TreeSplits(clause: Clause, rest: Tree, p: Progress)
    ensures TreeHolds([clause] + rest, p) <==> ClauseHolds(clause, p) || TreeHolds(rest, p)
  {
    hide ClauseHolds;
    var tree := [clause] + rest;
    if ClauseHolds(clause, p) {
      assert ClauseHolds(tree[0], p);
    }
    if TreeHolds(rest, p) {
      var k :| 0 <= k < |rest| && ClauseHolds(rest[k], p);
      assert ClauseHolds(tree[k + 1], p);
    }
    if TreeHolds(tree, p) {
      var k :| 0 <= k < |tree| && ClauseHolds(tree[k], p);
      assert k > 0 ==> tree[k] == rest[k - 1];
    }
  }

  lemma {:induction false} ClausesJoined(parts: seq<string>)
    requires parts != [] && forall k :: 0 <= k < |parts| ==> IsTrimmed(parts[k]) && |parts[k]| >= 5
    ensures var t := Join(parts, " or "); IsTrimmed(t) && |t| >= 5
  {
    if |parts| > 1 {
      ClausesJoined(parts[1..]);
    }
  }

  // The meaning of a requirement tree is what its text evaluates to, whatever is held.
  lemma PrintedTreeMeansTree(tree: Tree, p: Progress)
    requires WellFormed(tree)
    ensures EvaluateExpression(Print(tree), p) == Answer(TreeHolds(tree, p))
  {
    hide WellFormedClause, PrintClause, Passes, SplitRest, EvaluateExpression, AnyExpression, ClauseHolds;
    var parts := PrintClauses(tree);
    forall k | 0 <= k < |parts| ensures Solid(parts[k], " or ") && |parts[k]| >= 5 {
      ClauseIsSolid(tree[k]);
    }
    SplitJoin(parts, " or ");
    ClausesJoined(parts);
    TextIsNotNone(Print(tree));
    AnyExpressionOfClauses(tree, p);
    if |tree| == 1 {
      ClauseEvaluates(tree[0], p);
      assert TreeHolds(tree, p) <==> ClauseHolds(tree[0], p);
    } else {
      ManyDisjuncts(Print(tree), p);
    }
  }
}
