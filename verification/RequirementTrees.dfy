/** Requirement trees, their printed form and what they mean. */
module RequirementTrees {
  // A tree is an "or" of "and"s of leaves and of one-level parenthesised groups; evaluating its text
  // gives exactly what the tree means.

  import opened Text
  import opened PrerequisiteParser
  import opened RequirementLeaves
  import opened RequirementEvaluator
  import opened RequirementLaws

  // Three to five capitals followed by two or three digits.
  predicate IsCode(c: string) {
    var n := LetterRun(c);
    && 3 <= n <= 5 && 2 <= |c| - n <= 3
    && (forall k :: 0 <= k < n ==> IsUpper(c[k]))
    && (forall k :: n <= k < |c| ==> IsDigit(c[k]))
  }

  // Which computing prefixes a threshold is limited to, as the handbook writes them.
  datatype Subjects = AnySubjects | Csci | Csit | Isit | CsciCsit | CsciIsit | AllComputing

  datatype Leaf =
    | Code(code: string)
    | Threshold(minCp: nat, level: nat, subjects: Subjects)

  datatype Item =
    | One(leaf: Leaf)
    | AnyOf(leaves: seq<Leaf>)
    | AllOf(codes: seq<string>)

  type Clause = seq<Item>
  type Tree = seq<Clause>

  // ---------------------------------------------------------------- printing

  function LevelText(level: nat): string {
    if level == 100 then "100" else if level == 200 then "200" else "300"
  }

  function SubjectsText(s: Subjects): string {
    match s
    case AnySubjects => ""
    case Csci => " CSCI"
    case Csit => " CSIT"
    case Isit => " ISIT"
    case CsciCsit => " CSCI/CSIT"
    case CsciIsit => " CSCI/ISIT"
    case AllComputing => " CSCI/CSIT/ISIT"
  }

  function PrintThreshold(minCp: nat, level: nat, subjects: Subjects): string {
    Decimal(minCp) + "cp at " + LevelText(level) + " level" + SubjectsText(subjects)
  }

  function PrintLeaf(leaf: Leaf): string {
    match leaf
    case Code(code) => code
    case Threshold(minCp, level, subjects) => PrintThreshold(minCp, level, subjects)
  }

  function PrintLeaves(leaves: seq<Leaf>): seq<string> {
    seq(|leaves|, k requires 0 <= k < |leaves| => PrintLeaf(leaves[k]))
  }

  function PrintItem(item: Item): string {
    match item
    case One(leaf) => PrintLeaf(leaf)
    case AnyOf(leaves) => "(" + Join(PrintLeaves(leaves), " or ") + ")"
    case AllOf(codes) => "(" + Join(codes, " and ") + ")"
  }

  function PrintItems(clause: Clause): seq<string> {
    seq(|clause|, k requires 0 <= k < |clause| => PrintItem(clause[k]))
  }

  function PrintClause(clause: Clause): string {
    Join(PrintItems(clause), " and ")
  }

  function PrintClauses(tree: Tree): seq<string> {
    seq(|tree|, k requires 0 <= k < |tree| => PrintClause(tree[k]))
  }

  function Print(tree: Tree): string {
    Join(PrintClauses(tree), " or ")
  }

  // ---------------------------------------------------------------- meaning

  function SubjectPrefixes(s: Subjects): set<string> {
    match s
    case AnySubjects => {}
    case Csci => {"CSCI"}
    case Csit => {"CSIT"}
    case Isit => {"ISIT"}
    case CsciCsit => {"CSCI", "CSIT"}
    case CsciIsit => {"CSCI", "ISIT"}
    case AllComputing => {"CSCI", "CSIT", "ISIT"}
  }

  ghost predicate LeafHolds(leaf: Leaf, p: Progress) {
    match leaf
    case Code(code) => HoldsCode(code, p)
    case Threshold(minCp, level, subjects) => ThresholdMet(CpRequirement(minCp, level, SubjectPrefixes(subjects)), p)
  }

  ghost predicate ItemHolds(item: Item, p: Progress) {
    match item
    case One(leaf) => LeafHolds(leaf, p)
    case AnyOf(leaves) => exists k :: 0 <= k < |leaves| && LeafHolds(leaves[k], p)
    case AllOf(codes) => HoldsAll(codes, p)
  }

  ghost predicate ClauseHolds(clause: Clause, p: Progress) {
    forall k :: 0 <= k < |clause| ==> ItemHolds(clause[k], p)
  }

  ghost predicate TreeHolds(tree: Tree, p: Progress) {
    exists k :: 0 <= k < |tree| && ClauseHolds(tree[k], p)
  }

  // ---------------------------------------------------------------- well-formed trees

  // A count the threshold reader takes for itself: large enough, and not another level.
  predicate ReadableCount(minCp: nat, level: nat) {
    minCp >= 6 && (minCp in {100, 200, 300} ==> minCp == level)
  }

  predicate WellFormedLeaf(leaf: Leaf) {
    match leaf
    case Code(code) => IsCode(code)
    case Threshold(minCp, level, _) => level in {100, 200, 300} && ReadableCount(minCp, level)
  }

  predicate AllCodes(codes: seq<string>) {
    forall k :: 0 <= k < |codes| ==> IsCode(codes[k])
  }

  predicate WellFormedItem(item: Item) {
    match item
    case One(leaf) => WellFormedLeaf(leaf)
    case AnyOf(leaves) => leaves != [] && forall k :: 0 <= k < |leaves| ==> WellFormedLeaf(leaves[k])
    case AllOf(codes) => codes != [] && AllCodes(codes)
  }

  predicate WellFormedClause(clause: Clause) {
    clause != [] && forall k :: 0 <= k < |clause| ==> WellFormedItem(clause[k])
  }

  predicate WellFormed(tree: Tree) {
    tree != [] && forall k :: 0 <= k < |tree| ==> WellFormedClause(tree[k])
  }

  // ---------------------------------------------------------------- splitting undoes joining

  // Reading p, with `tail` behind it, meets no separator at depth 0 and goes from one depth to another.
  predicate Passes(p: string, tail: string, sep: string, depth: int, depth': int) {
    if p == "" then depth == depth'
    else if p[0] == '(' then Passes(p[1..], tail, sep, depth + 1, depth')
    else if p[0] == ')' then Passes(p[1..], tail, sep, depth - 1, depth')
    else !(depth == 0 && StartsWithFold(p + tail, sep)) && Passes(p[1..], tail, sep, depth, depth')
  }

  lemma {:induction false} PassThrough(p: string, tail: string, sep: string, depth: int, depth': int, current: string)
    requires sep != "" && Passes(p, tail, sep, depth, depth')
    ensures SplitRest(p + tail, sep, depth, current) == SplitRest(tail, sep, depth', current + p)
    decreases |p|
  {
    hide StartsWithFold, Chunk;
    if p == "" {
      assert p + tail == tail && current + p == current;
    } else {
      var next := if p[0] == '(' then depth + 1 else if p[0] == ')' then depth - 1 else depth;
      assert (p + tail)[1..] == p[1..] + tail;
      assert current + [p[0]] + p[1..] == current + p;
      PassThrough(p[1..], tail, sep, next, depth', current + [p[0]]);
    }
  }

  lemma {:induction false} PassesConcat(a: string, b: string, tail: string, sep: string, d: int, d': int, d'': int)
    requires Passes(a, b + tail, sep, d, d') && Passes(b, tail, sep, d', d'')
    ensures Passes(a + b, tail, sep, d, d'')
    decreases |a|
  {
    hide StartsWithFold;
    if a == "" {
      assert a + b == b;
    } else {
      var next := if a[0] == '(' then d + 1 else if a[0] == ')' then d - 1 else d;
      assert (a + b)[1..] == a[1..] + b;
      assert (a + b) + tail == a + (b + tail);
      PassesConcat(a[1..], b, tail, sep, next, d', d'');
    }
  }

  // Inside parentheses no separator counts.
  lemma {:induction false} PassesInside(p: string, tail: string, sep: string, depth: int)
    requires depth != 0 && '(' !in p && ')' !in p
    ensures Passes(p, tail, sep, depth, depth)
  {
    hide StartsWithFold;
    if p != "" {
      assert '(' !in p[1..] && ')' !in p[1..];
      PassesInside(p[1..], tail, sep, depth);
    }
  }

  // The separators of the language, and what their third character tells apart.
  predicate IsSeparator(sep: string) {
    sep == " or " || sep == " and "
  }

  predicate Continues(tail: string) {
    tail == "" || tail[0] == ' '
  }

  // The separator does not start here: a space is followed by something else than its second,
  // third or fourth character.
  predicate NoSeparatorAt(p: string, k: nat, sep: string)
    requires IsSeparator(sep) && k < |p|
  {
    p[k] == ' ' ==>
      && k + 1 < |p|
      && (|| LowerChar(p[k + 1]) != sep[1]
          || k + 2 == |p|
          || LowerChar(p[k + 2]) != sep[2]
          || (k + 3 < |p| && LowerChar(p[k + 3]) != sep[3]))
  }

  predicate SepFree(p: string, sep: string)
    requires IsSeparator(sep)
  {
    '(' !in p && ')' !in p && forall k :: 0 <= k < |p| ==> NoSeparatorAt(p, k, sep)
  }

  lemma NoSeparatorHere(p: string, tail: string, sep: string)
    requires IsSeparator(sep) && Continues(tail) && p != "" && NoSeparatorAt(p, 0, sep)
    ensures !StartsWithFold(p + tail, sep)
  {
    if StartsWithFold(p + tail, sep) {
      SeparatorMeans(p + tail, sep);
      assert false;
    }
  }

  lemma SeparatorMeans(s: string, sep: string)
    requires IsSeparator(sep) && StartsWithFold(s, sep)
    ensures |s| >= 4 && s[0] == ' '
    ensures LowerChar(s[1]) == sep[1] && LowerChar(s[2]) == sep[2] && LowerChar(s[3]) == sep[3]
    ensures s[1] != ' ' && s[2] != ' '
  {
    assert LowerChar(s[0]) == sep[0];
  }

  lemma {:induction false} PassesSepFree(p: string, tail: string, sep: string, depth: int)
    requires IsSeparator(sep) && Continues(tail) && SepFree(p, sep)
    ensures Passes(p, tail, sep, depth, depth)
    decreases |p|
  {
    hide StartsWithFold, IsSeparator, Continues;
    if p != "" {
      NoSeparatorHere(p, tail, sep);
      forall k | 0 <= k < |p[1..]| ensures NoSeparatorAt(p[1..], k, sep) {
        assert NoSeparatorAt(p, k + 1, sep);
      }
      PassesSepFree(p[1..], tail, sep, depth);
    }
  }

  // A piece that survives splitting wherever it stands in a joined text.
  ghost predicate Solid(part: string, sep: string) {
    && part != "" && IsTrimmed(part)
    && forall tail :: Continues(tail) ==> Passes(part, tail, sep, 0, 0)
  }

  lemma {:induction false} SplitJoin(parts: seq<string>, sep: string)
    requires IsSeparator(sep) && parts != []
    requires forall k :: 0 <= k < |parts| ==> Solid(parts[k], sep)
    ensures SplitTop(Join(parts, sep), sep) == parts
    decreases |parts|
  {
    hide SplitRest, Passes;
    var first := parts[0];
    assert Solid(first, sep);
    if |parts| == 1 {
      SplitLast(first, sep);
    } else {
      var rest := Join(parts[1..], sep);
      SplitFirst(first, sep, rest);
      assert first + sep + rest == first + (sep + rest);
      SplitJoin(parts[1..], sep);
      assert parts == [first] + parts[1..];
    }
  }

  lemma SplitLast(first: string, sep: string)
    requires IsSeparator(sep) && Solid(first, sep)
    ensures SplitTop(first, sep) == [first]
  {
    hide Passes, SplitRest;
    assert Continues("");
    PassThrough(first, "", sep, 0, 0, "");
    assert first + "" == first && "" + first == first;
    SplitNothing(sep, first);
  }

  lemma SplitNothing(sep: string, part: string)
    requires sep != "" && part != "" && IsTrimmed(part)
    ensures SplitRest("", sep, 0, part) == [part]
  {
  }

  lemma SplitFirst(first: string, sep: string, rest: string)
    requires IsSeparator(sep) && Solid(first, sep)
    ensures SplitTop(first + (sep + rest), sep) == [first] + SplitTop(rest, sep)
  {
    hide Passes, SplitRest;
    var tail := sep + rest;
    assert Continues(tail);
    PassThrough(first, tail, sep, 0, 0, "");
    assert "" + first == first;
    SplitAtSeparator(sep, rest, first);
  }

  lemma SplitAtSeparator(sep: string, rest: string, part: string)
    requires IsSeparator(sep) && part != "" && IsTrimmed(part)
    ensures SplitRest(sep + rest, sep, 0, part) == [part] + SplitRest(rest, sep, 0, "")
  {
    StartsWithSeparator(sep, rest);
    hide StartsWithFold;
    assert (sep + rest)[|sep|..] == rest;
  }

  lemma StartsWithSeparator(sep: string, rest: string)
    requires IsSeparator(sep)
    ensures StartsWithFold(sep + rest, sep)
  {
    assert forall k :: 0 <= k < |sep| ==> (sep + rest)[k] == sep[k];
    if sep == " or " {
      assert forall c :: c in " or " ==> LowerChar(c) == c;
      assert forall k :: 0 <= k < |sep| ==> sep[k] in sep;
    } else {
      assert forall c :: c in " and " ==> LowerChar(c) == c;
      assert forall k :: 0 <= k < |sep| ==> sep[k] in sep;
    }
  }
}
