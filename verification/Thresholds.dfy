/** What a credit-point threshold counts: the held codes of a level, one after the other. */
module Thresholds {
  // The total is taken over any list of the held codes, and a printed threshold asks for at least so much.

  import opened Text
  import opened Sums
  import opened PrerequisiteParser
  import opened RequirementLeaves
  import opened RequirementEvaluator
  import opened RequirementTrees
  import opened RequirementMeaning
  import opened Catalogue
  import opened Eligibility
  import opened EquivalentSubjects

  // ---------------------------------------------------------------- one code

  // The credit points that the catalogue gives the code; 6 when it gives none.
  function CreditOf(catalog: Catalog, code: string): int {
    var norm := NormalizeCode(code);
    if norm !in catalog || catalog[norm].cpField.None? || catalog[norm].cpField.value == 0 then 6
    else catalog[norm].cpField.value
  }

  // The catalogue's level if it has one for the code, and otherwise the level in the code itself.
  predicate IsAtLevel(catalog: Catalog, code: string, level: int) {
    var norm := NormalizeCode(code);
    var stated := if norm in catalog then LevelValue(catalog[norm]) else None;
    if stated == None || stated == Some(0) then LevelFromCode(norm) == Some(level) else stated == Some(level)
  }

  predicate HasPrefix(prefixes: set<string>, code: string) {
    prefixes == {} || exists prefix :: prefix in prefixes && prefix <= NormalizeCode(code)
  }

  predicate IsCounted(catalog: Catalog, level: int, prefixes: set<string>, code: string) {
    IsAtLevel(catalog, code, level) && HasPrefix(prefixes, code)
  }

  function CountedTotal(list: seq<string>, catalog: Catalog, level: int, prefixes: set<string>): int {
    if list == [] then 0
    else
      (if IsCounted(catalog, level, prefixes, list[0]) then CreditOf(catalog, list[0]) else 0)
      + CountedTotal(list[1..], catalog, level, prefixes)
  }

  lemma WeighsAsCounted(catalog: Catalog, held: set<string>, table: seq<Equivalence>, req: CpRequirement, code: string)
    requires code in held
    ensures Weighs(req, Known(catalog, held, table))(code) ==
      if IsCounted(catalog, req.level, req.prefixes, code) then CreditOf(catalog, code) else 0
  {
    hide LevelValue, LevelFromCode;
    NormalTwice(code);
    hide NormalizeCode;
    assert NormalizeCode(code) in Normalized(held);
  }

  lemma NormalTwice(code: string)
    ensures NormalizeCode(NormalizeCode(code)) == NormalizeCode(code)
  {
    NormalizeTwice(code);
  }

  lemma {:induction false} TotalIsCounted(list: seq<string>, catalog: Catalog, held: set<string>, table: seq<Equivalence>, req: CpRequirement)
    requires forall c :: c in list ==> c in held
    ensures TotalOf(list, Weighs(req, Known(catalog, held, table))) == CountedTotal(list, catalog, req.level, req.prefixes)
  {
    hide Weighs, Known, IsCounted, CreditOf;
    if list != [] {
      WeighsAsCounted(catalog, held, table, req, list[0]);
      TotalIsCounted(list[1..], catalog, held, table, req);
    }
  }

  // ---------------------------------------------------------------- printed thresholds

  lemma LeafAlone(leaf: Leaf, p: Progress)
    ensures Print([[One(leaf)]]) == PrintLeaf(leaf) && (TreeHolds([[One(leaf)]], p) <==> LeafHolds(leaf, p))
  {
    hide LeafHolds, PrintLeaf;
    var tree := [[One(leaf)]];
    assert PrintClauses(tree) == [PrintClause(tree[0])] && PrintItems(tree[0]) == [PrintItem(tree[0][0])];
    assert ClauseHolds(tree[0], p) <==> ItemHolds(tree[0][0], p);
    assert TreeHolds(tree, p) <==> ClauseHolds(tree[0], p);
  }

  // A printed threshold holds exactly when the held codes of its level and prefixes, listed once each, give
  // at least so many credit points.
  lemma ThresholdMeans(list: seq<string>, minCp: nat, level: nat, subjects: Subjects, catalog: Catalog, held: set<string>,
    table: seq<Equivalence>)
    requires Lists(list, held) && level in {100, 200, 300} && ReadableCount(minCp, level)
    ensures EvaluateExpression(PrintThreshold(minCp, level, subjects), Known(catalog, held, table)) ==
      Answer(CountedTotal(list, catalog, level, SubjectPrefixes(subjects)) >= minCp)
  {
    hide EvaluateExpression, Weighs, Known, PrintThreshold, Print, TreeHolds, CountedTotal, SubjectPrefixes;
    var p := Known(catalog, held, table);
    var leaf := Leaf.Threshold(minCp, level, subjects);
    var tree := [[One(leaf)]];
    assert WellFormedItem(tree[0][0]);
    LeafAlone(leaf, p);
    PrintedTreeMeansTree(tree, p);
    var req := CpRequirement(minCp, level, SubjectPrefixes(subjects));
    KnownHolds(catalog, held, table);
    TotalOfList(list, held, Weighs(req, p));
    TotalIsCounted(list, catalog, held, table, req);
  }

  lemma KnownHolds(catalog: Catalog, held: set<string>, table: seq<Equivalence>)
    ensures Known(catalog, held, table).held == held
  {
  }

  function CountOf(list: seq<string>, catalog: Catalog, level: int, prefixes: set<string>): nat {
    if list == [] then 0
    else (if IsCounted(catalog, level, prefixes, list[0]) then 1 else 0) + CountOf(list[1..], catalog, level, prefixes)
  }

  lemma {:induction false} SixEach(list: seq<string>, catalog: Catalog, level: int, prefixes: set<string>)
    requires forall c :: c in list && IsCounted(catalog, level, prefixes, c) ==> CreditOf(catalog, c) == 6
    ensures CountedTotal(list, catalog, level, prefixes) == 6 * CountOf(list, catalog, level, prefixes)
  {
    hide IsCounted, CreditOf;
    if list != [] {
      SixEach(list[1..], catalog, level, prefixes);
    }
  }

  // With 6-point subjects, "24cp at 200 level" asks for four of them; one fewer does not do.
  lemma SubjectsNeeded(list: seq<string>, subjectsNeeded: nat, level: nat, subjects: Subjects, catalog: Catalog, held: set<string>,
    table: seq<Equivalence>)
    requires Lists(list, held) && level in {100, 200, 300} && ReadableCount(6 * subjectsNeeded, level)
    requires forall c :: c in held && IsCounted(catalog, level, SubjectPrefixes(subjects), c) ==> CreditOf(catalog, c) == 6
    ensures EvaluateExpression(PrintThreshold(6 * subjectsNeeded, level, subjects), Known(catalog, held, table)) ==
      Answer(CountOf(list, catalog, level, SubjectPrefixes(subjects)) >= subjectsNeeded)
  {
    hide EvaluateExpression, Known, PrintThreshold, CountedTotal, CountOf, SubjectPrefixes, IsCounted, CreditOf;
    ThresholdMeans(list, 6 * subjectsNeeded, level, subjects, catalog, held, table);
    SixEach(list, catalog, level, SubjectPrefixes(subjects));
  }

  // ---------------------------------------------------------------- any record of credit points and levels

  // What a record says of a code: 6 credit points when it says nothing, and the code's own level when it
  // states none.
  function TotalIn(list: seq<string>, p: Progress, level: int, prefixes: set<string>): int {
    if list == [] then 0
    else
      (if IsCountedIn(p, level, prefixes, list[0]) then CreditIn(p, list[0]) else 0) + TotalIn(list[1..], p, level, prefixes)
  }

  predicate IsCountedIn(p: Progress, level: int, prefixes: set<string>, code: string) {
    var norm := NormalizeCode(code);
    var stated := if norm in p.level then p.level[norm] else None;
    && (if stated == None || stated == Some(0) then LevelFromCode(norm) == Some(level) else stated == Some(level))
    && HasPrefix(prefixes, code)
  }

  function CreditIn(p: Progress, code: string): int {
    var norm := NormalizeCode(code);
    if norm !in p.cp then 6 else p.cp[norm]
  }

  lemma WeighsAsRecorded(p: Progress, req: CpRequirement, code: string)
    ensures Weighs(req, p)(code) == if IsCountedIn(p, req.level, req.prefixes, code) then CreditIn(p, code) else 0
  {
    hide LevelFromCode, NormalizeCode;
  }

  lemma {:induction false} TotalIsRecorded(list: seq<string>, p: Progress, req: CpRequirement)
    ensures TotalOf(list, Weighs(req, p)) == TotalIn(list, p, req.level, req.prefixes)
  {
    hide Weighs, IsCountedIn, CreditIn;
    if list != [] {
      WeighsAsRecorded(p, req, list[0]);
      TotalIsRecorded(list[1..], p, req);
    }
  }

  lemma ThresholdCounts(list: seq<string>, minCp: nat, level: nat, subjects: Subjects, p: Progress)
    requires Lists(list, p.held) && level in {100, 200, 300} && ReadableCount(minCp, level)
    ensures EvaluateExpression(PrintThreshold(minCp, level, subjects), p) ==
      Answer(TotalIn(list, p, level, SubjectPrefixes(subjects)) >= minCp)
  {
    hide EvaluateExpression, Weighs, PrintThreshold, Print, TreeHolds, TotalIn, SubjectPrefixes;
    var leaf := Leaf.Threshold(minCp, level, subjects);
    var tree := [[One(leaf)]];
    assert WellFormedItem(tree[0][0]);
    LeafAlone(leaf, p);
    PrintedTreeMeansTree(tree, p);
    var req := CpRequirement(minCp, level, SubjectPrefixes(subjects));
    TotalOfList(list, p.held, Weighs(req, p));
    TotalIsRecorded(list, p, req);
  }
}
