/** Which subjects a student may take: app/services/eligibility_service.py and the pool rules beside it. */
module Eligibility {
  // The pool rules are those of app/services/elective_pools.py.

  import opened Text
  import opened Sums
  import opened PrerequisiteParser
  import opened RequirementEvaluator
  import opened RequirementLaws
  import opened Catalogue
  import opened PlusWords

  // The part of a course's rules that decides eligibility.
  datatype Rules = Rules(
    table: seq<Equivalence>,
    replacementFor: map<string, string>,
    maxCp100: int)

  // ---------------------------------------------------------------- what is known of held codes

  function KnownCp(catalog: Catalog, norm: string): int {
    if norm in catalog then SubjectCp(catalog[norm]) else 6
  }

  function KnownLevel(catalog: Catalog, norm: string): Option<int> {
    if norm in catalog then LevelValue(catalog[norm]) else LevelFromCode(norm)
  }

  function Known(catalog: Catalog, held: set<string>, table: seq<Equivalence>): Progress {
    Progress(
      held,
      map norm | norm in Normalized(held) :: KnownCp(catalog, norm),
      map norm | norm in Normalized(held) :: KnownLevel(catalog, norm),
      table)
  }

  lemma NormalizedInsert(codes: set<string>, code: string)
    ensures Normalized(codes + {code}) == Normalized(codes) + {NormalizeCode(code)}
  {
    hide NormalizeCode;
    assert forall c :: c in codes ==> c in codes + {code};
  }

  // The maps record exactly the codes seen so far, each with what the catalogue says of it.
  ghost predicate Records(catalog: Catalog, seen: set<string>, cp: map<string, int>, level: map<string, Option<int>>) {
    && cp.Keys == Normalized(seen)
    && level.Keys == Normalized(seen)
    && (forall norm :: norm in cp ==> cp[norm] == KnownCp(catalog, norm))
    && (forall norm :: norm in level ==> level[norm] == KnownLevel(catalog, norm))
  }

  lemma RecordsOneMore(catalog: Catalog, seen: set<string>, cp: map<string, int>, level: map<string, Option<int>>, code: string)
    requires Records(catalog, seen, cp, level)
    ensures var norm := NormalizeCode(code);
      Records(catalog, seen + {code}, cp[norm := KnownCp(catalog, norm)], level[norm := KnownLevel(catalog, norm)])
  {
    hide KnownCp, KnownLevel, NormalizeCode, Normalized;
    NormalizedInsert(seen, code);
  }

  lemma RecordsAll(catalog: Catalog, held: set<string>, cp: map<string, int>, level: map<string, Option<int>>, table: seq<Equivalence>)
    requires Records(catalog, held, cp, level)
    ensures Progress(held, cp, level, table) == Known(catalog, held, table)
  {
    hide KnownCp, KnownLevel, Normalized;
    var q := Known(catalog, held, table);
    assert cp == q.cp && level == q.level;
  }

  method RequirementMaps(catalog: Catalog, codes: set<string>, table: seq<Equivalence>) returns (p: Progress)
    requires Indexed(catalog)
    ensures p == Known(catalog, codes, table)
  {
    var cp: map<string, int>, level: map<string, Option<int>> := map[], map[];
    assert Records(catalog, {}, cp, level);
    hide *;
    var pending := codes;
    ghost var seen: set<string> := {};
    while pending != {}
      invariant seen + pending == codes && Records(catalog, seen, cp, level)
      decreases |pending|
    {
      var code :| code in pending;
      RecordsOneMore(catalog, seen, cp, level, code);
      seen, pending := seen + {code}, pending - {code};
      var norm := NormalizeCode(code);
      cp, level := cp[norm := KnownCp(catalog, norm)], level[norm := KnownLevel(catalog, norm)];
    }
    assert seen == codes;
    RecordsAll(catalog, codes, cp, level, table);
    p := Progress(codes, cp, level, table);
  }

  // No entry of the catalogue counts negative credit points or has a requirement without an answer.
  ghost predicate Sound(catalog: Catalog) {
    Indexed(catalog) && forall key :: key in catalog ==> Judgeable(catalog[key])
  }

  // A subject all of whose requirement texts keep the word "plus", where they have it, between operands.
  ghost predicate WellWritten(s: Subject) {
    AllGuarded(s.prerequisites) && AllGuarded(s.corequisites) && SubjectCp(s) >= 0
  }

  // A catalogue of such subjects is sound: the word's neighbours can be checked text by text.
  lemma WellWrittenIsSound(catalog: Catalog)
    requires Indexed(catalog) && forall key :: key in catalog ==> WellWritten(catalog[key])
    ensures Sound(catalog)
  {
    hide Indexed, AllGuarded, AllAnswer, SubjectCp;
    forall key | key in catalog ensures Judgeable(catalog[key]) {
      assert WellWritten(catalog[key]);
      GuardedTextsAnswer(catalog[key].prerequisites);
      GuardedTextsAnswer(catalog[key].corequisites);
    }
  }

  lemma KnownExtends(catalog: Catalog, a: set<string>, b: set<string>, table: seq<Equivalence>)
    requires Sound(catalog) && a <= b
    ensures Extends(Known(catalog, a, table), Known(catalog, b, table))
  {
    hide NormalizeCode, AllAnswer;
  }

  predicate Satisfied(texts: seq<string>, catalog: Catalog, held: set<string>, table: seq<Equivalence>) {
    ExpressionsSatisfied(texts, Known(catalog, held, table)) == Answer(true)
  }

  // Requirements met once stay met, whatever is added to the record.
  lemma SatisfiedGrows(texts: seq<string>, catalog: Catalog, a: set<string>, b: set<string>, table: seq<Equivalence>)
    requires Sound(catalog) && AllAnswer(texts) && a <= b && Satisfied(texts, catalog, a, table)
    ensures Satisfied(texts, catalog, b, table)
  {
    hide AllAnswer, Extends, ExpressionsSatisfied, Known;
    KnownExtends(catalog, a, b, table);
    SatisfiedMonotone(texts, Known(catalog, a, table), Known(catalog, b, table));
  }

  // ---------------------------------------------------------------- single checks

  // `needle in text` for strings.
  predicate Occurs(needle: string, text: string) {
    exists k :: 0 <= k <= |text| && needle <= text[k..]
  }

  predicate OfferedIn(off: Offering, campus: string, session: string) {
    var offSession := Lower(Trim(off.session));
    var wanted := Lower(Trim(session));
    && Lower(Trim(off.campus)) == Lower(Trim(campus))
    && (offSession == wanted || offSession == "annual" || Occurs(wanted, offSession))
  }

  predicate OfferedInSession(s: Subject, campus: string, session: string) {
    exists k :: 0 <= k < |s.offerings| && OfferedIn(s.offerings[k], campus, session)
  }

  predicate ExclusionBlocked(s: Subject, held: set<string>, rules: Rules) {
    exists k :: 0 <= k < |s.exclusions| && NormalizeCode(s.exclusions[k]) in Expand(rules.table, Normalized(held))
  }

  predicate ReplacementBlocked(code: string, held: set<string>, rules: Rules) {
    exists r :: r in rules.replacementFor && NormalizeCode(r) == NormalizeCode(code)
      && NormalizeCode(rules.replacementFor[r]) in Expand(rules.table, Normalized(held))
  }

  // What one code adds to the 100-level total.
  function Cp100(catalog: Catalog): string -> int {
    code =>
      var norm := NormalizeCode(code);
      if norm in catalog then (if Is100Level(catalog[norm]) then SubjectCp(catalog[norm]) else 0)
      else if LevelFromCode(norm) == Some(100) then 6 else 0
  }

  function Total100(catalog: Catalog, codes: set<string>): int {
    SumOver(codes, Cp100(catalog))
  }

  method Total100LevelCp(codes: set<string>, catalog: Catalog, extra: string) returns (total: int)
    requires Indexed(catalog)
    ensures total == Total100(catalog, if extra == "" then codes else codes + {NormalizeCode(extra)})
  {
    hide Indexed;
    var all := codes;
    if extra != "" {
      all := all + {NormalizeCode(extra)};
    }
    total := 0;
    var pending := all;
    while pending != {}
      invariant pending <= all
      invariant total + Total100(catalog, pending) == Total100(catalog, all)
      decreases |pending|
    {
      var code :| code in pending;
      SumRemove(pending, Cp100(catalog), code);
      pending := pending - {code};
      var norm := NormalizeCode(code);
      if norm in catalog {
        if Is100Level(catalog[norm]) {
          total := total + SubjectCp(catalog[norm]);
        }
      } else if LevelFromCode(norm) == Some(100) {
        total := total + 6;
      }
    }
  }

  lemma ExclusionGrows(s: Subject, a: set<string>, b: set<string>, rules: Rules)
    requires a <= b && ExclusionBlocked(s, a, rules)
    ensures ExclusionBlocked(s, b, rules)
  {
    ExpandIsMonotoneAndIdempotent(rules.table, Normalized(a), Normalized(b));
  }

  lemma ReplacementGrows(code: string, a: set<string>, b: set<string>, rules: Rules)
    requires a <= b && ReplacementBlocked(code, a, rules)
    ensures ReplacementBlocked(code, b, rules)
  {
    ExpandIsMonotoneAndIdempotent(rules.table, Normalized(a), Normalized(b));
  }

  lemma Total100Grows(catalog: Catalog, a: set<string>, b: set<string>)
    requires Sound(catalog) && a <= b
    ensures Total100(catalog, a) <= Total100(catalog, b)
  {
    hide NormalizeCode, AllAnswer;
    SumMonotone(a, b, Cp100(catalog));
  }

  // ---------------------------------------------------------------- the rules together

  predicate WithinCap(s: Subject, code: string, held: set<string>, catalog: Catalog, rules: Rules) {
    Is100Level(s) ==> Total100(catalog, held + {NormalizeCode(code)}) <= rules.maxCp100
  }

  // `held` decides exclusions, replacements and the cap; prerequisites and corequisites have
  // records of their own.
  predicate RulesAllow(s: Subject, code: string, held: set<string>, prereqHeld: set<string>, coreqHeld: set<string>,
    catalog: Catalog, rules: Rules)
  {
    && Satisfied(s.prerequisites, catalog, prereqHeld, rules.table)
    && Satisfied(s.corequisites, catalog, coreqHeld, rules.table)
    && !ExclusionBlocked(s, held, rules)
    && !ReplacementBlocked(code, held, rules)
    && WithinCap(s, code, held, catalog, rules)
  }

  // `_normalize_set`: blank codes are dropped.
  function NormalizeSet(codes: set<string>): set<string> {
    set c | c in codes && Trim(c) != "" :: NormalizeCode(c)
  }

  // ---------------------------------------------------------------- pools

  datatype Pool =
    | NamedList(codes: seq<string>)
    | ByLevel(prefixes: seq<string>, includeGeneral: bool, levels: set<int>)
    | Unknown

  predicate MatchesPrefixes(norm: string, prefixes: seq<string>) {
    exists k :: 0 <= k < |prefixes| && prefixes[k] != "" && NormalizeCode(prefixes[k]) <= norm
  }

  predicate IsGeneralSchedule(s: Subject) {
    exists k :: 0 <= k < |s.tags| && Lower(Trim(s.tags[k])) == "general schedule"
  }

  // Configured levels narrow the allowed levels and never widen them.
  predicate LevelInPool(level: Option<int>, pool: Pool) {
    && level in ALLOWED_LEVELS
    && (pool.ByLevel? && pool.levels != {} ==> level.value in pool.levels)
  }

  predicate InPool(code: string, s: Subject, pool: Pool) {
    && LevelInPool(PoolLevel(s), pool)
    && match pool
       case NamedList(codes) => exists k :: 0 <= k < |codes| && NormalizeCode(codes[k]) == code
       case ByLevel(prefixes, includeGeneral, _) =>
         || prefixes == [] || MatchesPrefixes(code, prefixes)
         || (includeGeneral && IsGeneralSchedule(s))
       case Unknown => false
  }

  function PoolCandidates(pool: Pool, catalog: Catalog, forbidden: set<string>): set<string> {
    set code | code in catalog && code !in Normalized(forbidden) && InPool(code, catalog[code], pool)
  }

  method ResolvePoolCandidates(pool: Pool, catalog: Catalog, forbidden: set<string>) returns (candidates: set<string>)
    requires Indexed(catalog)
    ensures candidates == PoolCandidates(pool, catalog, forbidden)
  {
    hide PoolLevel, NormalizeCode;
    var blocked := set c | c in forbidden && c != "" :: NormalizeCode(c);
    BlankForbidsNothing(forbidden, catalog);
    candidates := {};
    match pool
    case NamedList(codes) => candidates := ListedCandidates(codes, catalog, blocked);
    case Unknown =>
    case ByLevel(_, _, _) => candidates := CandidatesByLevel(pool, catalog, blocked);
  }

  method ListedCandidates(codes: seq<string>, catalog: Catalog, blocked: set<string>) returns (candidates: set<string>)
    requires Indexed(catalog)
    ensures candidates == Listed(codes, catalog, blocked)
  {
    hide PoolLevel, NormalizeCode, Listed;
    candidates := {};
    NothingListed(catalog, blocked);
    for i := 0 to |codes|
      invariant candidates == Listed(codes[..i], catalog, blocked)
    {
      var norm := NormalizeCode(codes[i]);
      GrowNamedList(codes, i, catalog, blocked);
      if norm == "" || norm in blocked || norm !in catalog || PoolLevel(catalog[norm]) !in ALLOWED_LEVELS {
        continue;
      }
      candidates := candidates + {norm};
    }
    assert codes[..|codes|] == codes;
  }

  lemma NothingListed(catalog: Catalog, blocked: set<string>)
    ensures Listed([], catalog, blocked) == {}
  {
  }

  method CandidatesByLevel(pool: Pool, catalog: Catalog, blocked: set<string>) returns (candidates: set<string>)
    requires pool.ByLevel?
    ensures candidates == set code | code in catalog && code !in blocked && InPool(code, catalog[code], pool)
  {
    hide PoolLevel, NormalizeCode, LevelInPool, MatchesPrefixes, IsGeneralSchedule;
    candidates := {};
    var pending := catalog.Keys;
    while pending != {}
      invariant pending <= catalog.Keys && candidates <= catalog.Keys - pending
      invariant forall code :: code in catalog.Keys - pending ==>
        (code in candidates <==> code !in blocked && InPool(code, catalog[code], pool))
      decreases |pending|
    {
      var code :| code in pending;
      pending := pending - {code};
      if code in blocked || !LevelInPool(PoolLevel(catalog[code]), pool) {
        continue;
      }
      var prefixMatch := pool.prefixes == [] || MatchesPrefixes(code, pool.prefixes);
      if !prefixMatch && !(pool.includeGeneral && IsGeneralSchedule(catalog[code])) {
        continue;
      }
      candidates := candidates + {code};
    }
  }

  lemma BlankForbidsNothing(forbidden: set<string>, catalog: Catalog)
    requires Indexed(catalog)
    ensures var blocked := set c | c in forbidden && c != "" :: NormalizeCode(c);
      forall code :: code in catalog ==> (code in blocked <==> code in Normalized(forbidden))
  {
    assert NormalizeCode("") == "";
    hide NormalizeCode;
  }

  // The candidates of a named list.
  function Listed(codes: seq<string>, catalog: Catalog, blocked: set<string>): set<string> {
    set code | code in catalog && code !in blocked && InPool(code, catalog[code], NamedList(codes))
  }

  lemma GrowNamedList(codes: seq<string>, i: nat, catalog: Catalog, blocked: set<string>)
    requires i < |codes|
    ensures var norm := NormalizeCode(codes[i]);
      Listed(codes[..i + 1], catalog, blocked) == Listed(codes[..i], catalog, blocked) +
        if norm in catalog && norm !in blocked && PoolLevel(catalog[norm]) in ALLOWED_LEVELS then {norm} else {}
  {
    hide PoolLevel, NormalizeCode;
    forall code | code in catalog
      ensures InPool(code, catalog[code], NamedList(codes[..i + 1])) <==>
        InPool(code, catalog[code], NamedList(codes[..i]))
        || (NormalizeCode(codes[i]) == code && PoolLevel(catalog[code]) in ALLOWED_LEVELS)
    {
      assert forall k :: 0 <= k < i ==> codes[..i + 1][k] == codes[..i][k];
      assert codes[..i + 1][i] == codes[i];
    }
  }

  // ---------------------------------------------------------------- the two eligibility lists

  // What a student has finished and what they plan, as the two implementations read it.
  datatype Student = Student(completed: set<string>, planned: set<string>, campus: string)

  predicate MayTake(catalog: Catalog, code: string, st: Student, session: Option<string>, held: set<string>,
    barring: set<string>, rules: Rules)
    requires code in catalog
  {
    var s := catalog[code];
    && (session.Some? ==> OfferedInSession(s, st.campus, session.value))
    && Satisfied(s.prerequisites, catalog, held, rules.table)
    && Satisfied(s.corequisites, catalog, held, rules.table)
    && !ExclusionBlocked(s, barring, rules)
    && !ReplacementBlocked(code, barring, rules)
    && WithinCap(s, code, held, catalog, rules)
  }

  // `build_eligible_elective_pool`: exclusions and replacements look at planned subjects too.
  function ElectivePool(catalog: Catalog, pool: Pool, forbidden: set<string>, st: Student, session: Option<string>,
    rules: Rules): set<string>
  {
    var held := NormalizeSet(st.completed + st.planned);
    var blocked := NormalizeSet(forbidden + st.completed + st.planned);
    set code | code in catalog && code in PoolCandidates(pool, catalog, blocked)
      && MayTake(catalog, code, st, session, held, held, rules)
  }

  // `get_eligible_subjects`: exclusions and replacements look at completed subjects only.
  function EligibleSubjects(catalog: Catalog, st: Student, session: string, rules: Rules): set<string> {
    var completed := NormalizeSet(st.completed);
    var held := completed + NormalizeSet(st.planned);
    set code | code in catalog && code !in held
      && MayTake(catalog, code, st, Some(session), held, completed, rules)
  }

  method BuildEligibleElectivePool(catalog: Catalog, pool: Pool, forbidden: set<string>, st: Student,
    session: Option<string>, rules: Rules) returns (eligible: set<string>)
    requires Indexed(catalog)
    ensures eligible == ElectivePool(catalog, pool, forbidden, st, session, rules)
  {
    hide Indexed, RulesAllow, MayTake, OfferedInSession, PoolCandidates, NormalizeSet, PoolLevel, SubjectCp, NormalizeCode;
    var blocked := NormalizeSet(forbidden + st.completed + st.planned);
    var held := NormalizeSet(st.completed + st.planned);
    CandidatesAreListed(pool, catalog, blocked);
    eligible := {};
    var candidates := ResolvePoolCandidates(pool, catalog, blocked);
    var pending := candidates;
    while pending != {}
      invariant pending <= candidates && eligible <= candidates - pending
      invariant forall code :: code in candidates - pending ==>
        (code in eligible <==> MayTake(catalog, code, st, session, held, held, rules))
      decreases |pending|
    {
      var code :| code in pending;
      pending := pending - {code};
      var s := catalog[code];
      AllowedIsMayTake(catalog, code, st, session, held, rules);
      if PoolLevel(s) !in ALLOWED_LEVELS {
        assert false;
      }
      if session.Some? && !OfferedInSession(s, st.campus, session.value) {
        continue;
      }
      if !RulesAllow(s, code, held, held, held, catalog, rules) {
        continue;
      }
      eligible := eligible + {code};
    }
  }

  lemma CandidatesAreListed(pool: Pool, catalog: Catalog, blocked: set<string>)
    ensures forall code :: code in PoolCandidates(pool, catalog, blocked) ==>
      code in catalog && PoolLevel(catalog[code]) in ALLOWED_LEVELS
  {
  }

  lemma AllowedIsMayTake(catalog: Catalog, code: string, st: Student, session: Option<string>, held: set<string>, rules: Rules)
    requires code in catalog
    ensures MayTake(catalog, code, st, session, held, held, rules) <==>
      && (session.Some? ==> OfferedInSession(catalog[code], st.campus, session.value))
      && RulesAllow(catalog[code], code, held, held, held, catalog, rules)
  {
    hide Satisfied, ExclusionBlocked, ReplacementBlocked, WithinCap, OfferedInSession;
  }

  method GetEligibleSubjects(catalog: Catalog, st: Student, session: string, rules: Rules) returns (eligible: set<string>)
    requires Indexed(catalog)
    ensures eligible == EligibleSubjects(catalog, st, session, rules)
  {
    hide Indexed, Satisfied, ExclusionBlocked, ReplacementBlocked, WithinCap, OfferedInSession, NormalizeCode;
    var completed := NormalizeSet(st.completed);
    var planned := NormalizeSet(st.planned);
    var held := completed + planned;
    eligible := {};
    var pending := catalog.Keys;
    while pending != {}
      invariant pending <= catalog.Keys && eligible <= catalog.Keys - pending
      invariant forall code :: code in catalog.Keys - pending ==>
        (code in eligible <==> code !in held && MayTake(catalog, code, st, Some(session), held, completed, rules))
      decreases |pending|
    {
      var code :| code in pending;
      pending := pending - {code};
      var s := catalog[code];
      if code in completed || code in planned {
        continue;
      }
      if !OfferedInSession(s, st.campus, session) {
        continue;
      }
      if !Satisfied(s.prerequisites, catalog, held, rules.table) || !Satisfied(s.corequisites, catalog, held, rules.table) {
        continue;
      }
      if ExclusionBlocked(s, completed, rules) || ReplacementBlocked(code, completed, rules) {
        continue;
      }
      if !WithinCap(s, code, held, catalog, rules) {
        continue;
      }
      eligible := eligible + {code};
    }
  }

  lemma NormalizeSetUnion(a: set<string>, b: set<string>)
    ensures NormalizeSet(a + b) == NormalizeSet(a) + NormalizeSet(b)
  {
    hide NormalizeCode, Trim;
    assert forall c :: c in a || c in b ==> c in a + b;
  }

  lemma {:induction false} NormalSetsStay(s: set<string>)
    ensures Normalized(NormalizeSet(s)) == NormalizeSet(s)
  {
    hide NormalizeCode, Trim;
    forall c | c in s ensures NormalizeCode(NormalizeCode(c)) == NormalizeCode(c) {
      NormalizeTwice(c);
    }
    assert forall c :: c in NormalizeSet(s) ==> NormalizeCode(c) == c;
  }

  // The elective pool never offers a subject the eligibility list refuses.
  lemma PoolIsEligible(catalog: Catalog, pool: Pool, forbidden: set<string>, st: Student, session: string, rules: Rules)
    requires Indexed(catalog)
    ensures ElectivePool(catalog, pool, forbidden, st, Some(session), rules) <= EligibleSubjects(catalog, st, session, rules)
  {
    hide Indexed, Satisfied, ExclusionBlocked, ReplacementBlocked, WithinCap, OfferedInSession, InPool, NormalizeCode,
      NormalizeSet;
    var completed := NormalizeSet(st.completed);
    var held := NormalizeSet(st.completed + st.planned);
    NormalizeSetUnion(st.completed, st.planned);
    NormalizeSetUnion(forbidden + st.completed, st.planned);
    NormalizeSetUnion(forbidden, st.completed);
    var blocked := NormalizeSet(forbidden + st.completed + st.planned);
    NormalSetsStay(forbidden + st.completed + st.planned);
    forall code | code in ElectivePool(catalog, pool, forbidden, st, Some(session), rules)
      ensures code in EligibleSubjects(catalog, st, session, rules)
    {
      var s := catalog[code];
      assert code !in Normalized(blocked) && held <= blocked;
      if ExclusionBlocked(s, completed, rules) {
        ExclusionGrows(s, completed, held, rules);
      }
      if ReplacementBlocked(code, completed, rules) {
        ReplacementGrows(code, completed, held, rules);
      }
    }
  }

  // With nothing planned the two implementations agree on every candidate of the pool.
  lemma PoolAgreesWhenNothingPlanned(catalog: Catalog, pool: Pool, forbidden: set<string>, st: Student, session: string, rules: Rules)
    requires Indexed(catalog) && st.planned == {}
    ensures ElectivePool(catalog, pool, forbidden, st, Some(session), rules) ==
      EligibleSubjects(catalog, st, session, rules) * PoolCandidates(pool, catalog, NormalizeSet(forbidden + st.completed))
  {
    hide Indexed, MayTake, PoolCandidates;
    PoolIsEligible(catalog, pool, forbidden, st, session, rules);
    assert st.completed + st.planned == st.completed;
    assert forbidden + st.completed + st.planned == forbidden + st.completed;
    assert NormalizeSet(st.planned) == {};
    hide NormalizeSet;
    var held := NormalizeSet(st.completed);
    assert held + {} == held;
    forall code | code in EligibleSubjects(catalog, st, session, rules)
        && code in PoolCandidates(pool, catalog, NormalizeSet(forbidden + st.completed))
      ensures code in ElectivePool(catalog, pool, forbidden, st, Some(session), rules)
    {
      assert MayTake(catalog, code, st, Some(session), held, held, rules);
    }
  }
}
