/** Who may take what: the two eligibility lists, spelled out check by check. */
module EligibilityRules {
  // Every check is told in words of its own: offerings, requirement texts, chains of equivalents, and
  // credit-point totals over lists of codes.

  import opened Text
  import opened Sums
  import opened PrerequisiteParser
  import opened RequirementEvaluator
  import opened RequirementLaws
  import opened Catalogue
  import opened Eligibility
  import opened EquivalentSubjects
  import opened Thresholds

  // ---------------------------------------------------------------- single checks

  // The same text but for letter case and outer white space.
  predicate ReadsSame(a: string, b: string) {
    Lower(Trim(a)) == Lower(Trim(b))
  }

  ghost predicate HasPart(text: string, part: string) {
    exists before, after :: text == before + part + after
  }

  lemma OccursIff(part: string, text: string)
    ensures Occurs(part, text) <==> HasPart(text, part)
  {
    if k :| 0 <= k <= |text| && part <= text[k..] {
      assert text == text[..k] + part + text[k + |part|..];
    }
    if before, after :| text == before + part + after {
      assert text[|before|..] == part + after;
    }
  }

  // Offered on the campus, in that session, all year, or in a session whose name contains the wanted one.
  ghost predicate IsOffered(s: Subject, campus: string, session: string) {
    exists k :: 0 <= k < |s.offerings| && IsOffering(s.offerings[k], campus, session)
  }

  ghost predicate IsOffering(off: Offering, campus: string, session: string) {
    && ReadsSame(off.campus, campus)
    && (ReadsSame(off.session, session) || ReadsSame(off.session, "annual") || HasPart(Lower(Trim(off.session)), Lower(Trim(session))))
  }

  lemma AnnualReads()
    ensures Lower(Trim("annual")) == "annual"
  {
    assert Trim("annual") == "annual";
  }

  lemma OfferedIff(s: Subject, campus: string, session: string)
    ensures OfferedInSession(s, campus, session) <==> IsOffered(s, campus, session)
  {
    hide Trim, Lower, Occurs, HasPart;
    forall k | 0 <= k < |s.offerings|
      ensures OfferedIn(s.offerings[k], campus, session) <==> IsOffering(s.offerings[k], campus, session)
    {
      AnnualReads();
      OccursIff(Lower(Trim(session)), Lower(Trim(s.offerings[k].session)));
    }
  }

  // Every text evaluates to true on the held codes.
  predicate AllHold(texts: seq<string>, catalog: Catalog, held: set<string>, table: seq<Equivalence>) {
    forall k :: 0 <= k < |texts| ==> EvaluateExpression(texts[k], Known(catalog, held, table)) == Answer(true)
  }

  lemma {:induction false} SatisfiedIff(texts: seq<string>, catalog: Catalog, held: set<string>, table: seq<Equivalence>)
    ensures Satisfied(texts, catalog, held, table) <==> AllHold(texts, catalog, held, table)
  {
    hide EvaluateExpression, Known;
    if texts != [] {
      SatisfiedIff(texts[1..], catalog, held, table);
      assert forall k :: 1 <= k < |texts| ==> texts[k] == texts[1..][k - 1];
    }
  }

  // Some excluded subject, or an equivalent of it, is held.
  ghost predicate IsExcluded(s: Subject, held: set<string>, table: seq<Equivalence>) {
    exists e :: e in s.exclusions && CountsAsHeld(table, held, e)
  }

  lemma ExcludedIff(s: Subject, held: set<string>, rules: Rules)
    ensures ExclusionBlocked(s, held, rules) <==> IsExcluded(s, held, rules.table)
  {
    hide NormalizeCode, Reaches, Expand;
    forall k | 0 <= k < |s.exclusions|
      ensures NormalizeCode(s.exclusions[k]) in Expand(rules.table, Normalized(held)) <==> CountsAsHeld(rules.table, held, s.exclusions[k])
    {
      ExpandIffReached(rules.table, Normalized(held), NormalizeCode(s.exclusions[k]));
    }
    assert forall k :: 0 <= k < |s.exclusions| ==> s.exclusions[k] in s.exclusions;
  }

  // The entry says that the code replaces a core subject.
  predicate Replaces(rules: Rules, r: string, code: string) {
    r in rules.replacementFor && NormalizeCode(r) == NormalizeCode(code)
  }

  // The core subject that the code replaces, or an equivalent of it, is held.
  ghost predicate IsReplaced(code: string, held: set<string>, rules: Rules) {
    exists r :: Replaces(rules, r, code) && CountsAsHeld(rules.table, held, rules.replacementFor[r])
  }

  lemma ReplacedIff(code: string, held: set<string>, rules: Rules)
    ensures ReplacementBlocked(code, held, rules) <==> IsReplaced(code, held, rules)
  {
    hide NormalizeCode, Reaches, Expand;
    forall r | r in rules.replacementFor
      ensures NormalizeCode(rules.replacementFor[r]) in Expand(rules.table, Normalized(held))
        <==> CountsAsHeld(rules.table, held, rules.replacementFor[r])
    {
      ExpandIffReached(rules.table, Normalized(held), NormalizeCode(rules.replacementFor[r]));
    }
  }

  // ---------------------------------------------------------------- the 100-level cap

  // A subject of the catalogue that is at level 100, or an unknown one whose code says so.
  function HundredPoints(catalog: Catalog, code: string): int {
    var norm := NormalizeCode(code);
    if norm in catalog then (if LevelValue(catalog[norm]) == Some(100) then CreditOf(catalog, code) else 0)
    else if LevelFromCode(norm) == Some(100) then 6 else 0
  }

  function HundredTotal(list: seq<string>, catalog: Catalog): int {
    if list == [] then 0 else HundredPoints(catalog, list[0]) + HundredTotal(list[1..], catalog)
  }

  lemma {:induction false} HundredTotalIs(list: seq<string>, catalog: Catalog)
    ensures TotalOf(list, Cp100(catalog)) == HundredTotal(list, catalog)
  {
    hide LevelValue, LevelFromCode, NormalizeCode;
    if list != [] {
      HundredTotalIs(list[1..], catalog);
    }
  }

  // With the subject, the 100-level total stays within the cap; other subjects are free of it.
  predicate IsWithinCap(catalog: Catalog, code: string, list: seq<string>, rules: Rules)
    requires code in catalog
  {
    LevelValue(catalog[code]) == Some(100) ==> HundredTotal(list, catalog) <= rules.maxCp100
  }

  lemma WithinCapIff(catalog: Catalog, code: string, held: set<string>, list: seq<string>, rules: Rules)
    requires code in catalog && Lists(list, held + {NormalizeCode(code)})
    ensures WithinCap(catalog[code], code, held, catalog, rules) <==> IsWithinCap(catalog, code, list, rules)
  {
    hide LevelValue, NormalizeCode, Cp100;
    TotalOfList(list, held + {NormalizeCode(code)}, Cp100(catalog));
    HundredTotalIs(list, catalog);
  }

  // ---------------------------------------------------------------- the eligibility list

  // Some code of the set, no blank one, reads as this.
  predicate Names(codes: set<string>, code: string) {
    exists c :: c in codes && Trim(c) != "" && NormalizeCode(c) == code
  }

  lemma NamesIff(codes: set<string>, code: string)
    ensures code in NormalizeSet(codes) <==> Names(codes, code)
  {
    hide NormalizeCode, Trim;
  }

  // Completed and planned codes in their normal form.
  ghost predicate IsRecord(held: set<string>, codes: set<string>) {
    forall code :: code in held <==> Names(codes, code)
  }

  // Offered, required subjects held, not excluded, replacing nothing, within the cap.
  ghost predicate PassesRules(catalog: Catalog, code: string, held: set<string>, barring: set<string>, list: seq<string>, rules: Rules)
    requires code in catalog
  {
    && AllHold(catalog[code].prerequisites, catalog, held, rules.table)
    && AllHold(catalog[code].corequisites, catalog, held, rules.table)
    && !IsExcluded(catalog[code], barring, rules.table)
    && !IsReplaced(code, barring, rules)
    && IsWithinCap(catalog, code, list, rules)
  }

  lemma MayTakeIff(catalog: Catalog, code: string, st: Student, session: Option<string>, held: set<string>, barring: set<string>,
    list: seq<string>, rules: Rules)
    requires code in catalog && Lists(list, held + {NormalizeCode(code)})
    ensures MayTake(catalog, code, st, session, held, barring, rules) <==>
      (session.Some? ==> IsOffered(catalog[code], st.campus, session.value)) && PassesRules(catalog, code, held, barring, list, rules)
  {
    hide Satisfied, AllHold, ExclusionBlocked, IsExcluded, ReplacementBlocked, IsReplaced, WithinCap, IsWithinCap, OfferedInSession,
      IsOffered, NormalizeCode;
    var s := catalog[code];
    SatisfiedIff(s.prerequisites, catalog, held, rules.table);
    SatisfiedIff(s.corequisites, catalog, held, rules.table);
    ExcludedIff(s, barring, rules);
    ReplacedIff(code, barring, rules);
    WithinCapIff(catalog, code, held, list, rules);
    if session.Some? {
      OfferedIff(s, st.campus, session.value);
    }
  }

  // The eligibility list holds exactly the subjects of the catalogue that are neither completed nor
  // planned, are offered, and pass the rules on what is completed and planned; exclusions and
  // replacements look at completed subjects only.
  lemma EligibleIff(catalog: Catalog, st: Student, session: string, rules: Rules, code: string, held: set<string>, done: set<string>,
    list: seq<string>)
    requires IsRecord(held, st.completed + st.planned) && IsRecord(done, st.completed) && Lists(list, held + {NormalizeCode(code)})
    ensures code in EligibleSubjects(catalog, st, session, rules) <==>
      && code in catalog && !Names(st.completed, code) && !Names(st.planned, code)
      && IsOffered(catalog[code], st.campus, session)
      && PassesRules(catalog, code, held, done, list, rules)
  {
    hide MayTake, PassesRules, IsOffered, NormalizeCode, Names, NormalizeSet;
    RecordIs(held, st.completed + st.planned);
    RecordIs(done, st.completed);
    NormalizeSetUnion(st.completed, st.planned);
    NamesIff(st.completed, code);
    NamesIff(st.planned, code);
    if code in catalog {
      MayTakeIff(catalog, code, st, Some(session), held, done, list, rules);
    }
  }

  lemma RecordIs(held: set<string>, codes: set<string>)
    requires IsRecord(held, codes)
    ensures held == NormalizeSet(codes)
  {
    hide Names, NormalizeSet;
    forall code ensures code in held <==> code in NormalizeSet(codes) {
      NamesIff(codes, code);
    }
  }

  // ---------------------------------------------------------------- the pool

  // The subject's level, as pools read it, is 100, 200 or 300, and is among the pool's levels if it has any.
  predicate HasPoolLevel(s: Subject, pool: Pool) {
    var level := PoolLevel(s);
    && (level == Some(100) || level == Some(200) || level == Some(300))
    && (pool.ByLevel? && pool.levels != {} ==> level.value in pool.levels)
  }

  predicate IsTaggedGeneral(s: Subject) {
    exists k :: 0 <= k < |s.tags| && ReadsSame(s.tags[k], "general schedule")
  }

  lemma GeneralReads()
    ensures Lower(Trim("general schedule")) == "general schedule"
  {
    assert Trim("general schedule") == "general schedule";
  }

  // A named list lists it; an open pool has no prefixes, or one of them starts the code, or the subject is
  // on the general schedule and the pool includes that.
  predicate IsDescribed(code: string, s: Subject, pool: Pool) {
    match pool
    case NamedList(codes) => exists k :: 0 <= k < |codes| && NormalizeCode(codes[k]) == code
    case ByLevel(prefixes, includeGeneral, _) =>
      || |prefixes| == 0
      || (exists k :: 0 <= k < |prefixes| && prefixes[k] != "" && NormalizeCode(prefixes[k]) <= code)
      || (includeGeneral && IsTaggedGeneral(s))
    case Unknown => false
  }

  predicate IsForbidden(forbidden: set<string>, code: string) {
    exists c :: c in forbidden && NormalizeCode(c) == code
  }

  // What a pool offers.
  lemma CandidateIff(pool: Pool, catalog: Catalog, forbidden: set<string>, code: string)
    ensures code in PoolCandidates(pool, catalog, forbidden) <==>
      code in catalog && !IsForbidden(forbidden, code) && HasPoolLevel(catalog[code], pool) && IsDescribed(code, catalog[code], pool)
  {
    hide PoolLevel, NormalizeCode, Trim, Lower;
    GeneralReads();
  }

  // The elective pool holds exactly the pool's candidates that are not forbidden, completed or planned, are
  // offered if a session is given, and pass the rules, with completed and planned subjects barring alike.
  lemma ElectiveIff(catalog: Catalog, pool: Pool, forbidden: set<string>, st: Student, session: Option<string>, rules: Rules,
    code: string, held: set<string>, list: seq<string>)
    requires Indexed(catalog) && IsRecord(held, st.completed + st.planned) && Lists(list, held + {NormalizeCode(code)})
    ensures code in ElectivePool(catalog, pool, forbidden, st, session, rules) <==>
      && code in catalog
      && !Names(forbidden, code) && !Names(st.completed, code) && !Names(st.planned, code)
      && HasPoolLevel(catalog[code], pool) && IsDescribed(code, catalog[code], pool)
      && (session.Some? ==> IsOffered(catalog[code], st.campus, session.value))
      && PassesRules(catalog, code, held, held, list, rules)
  {
    hide MayTake, PassesRules, IsOffered, NormalizeCode, Names, NormalizeSet, PoolCandidates, HasPoolLevel, IsDescribed, IsForbidden;
    RecordIs(held, st.completed + st.planned);
    var blocked := NormalizeSet(forbidden + st.completed + st.planned);
    CandidateIff(pool, catalog, blocked, code);
    BlockedIff(forbidden, st, code);
    if code in catalog {
      MayTakeIff(catalog, code, st, session, held, held, list, rules);
    }
  }

  lemma BlockedIff(forbidden: set<string>, st: Student, code: string)
    ensures IsForbidden(NormalizeSet(forbidden + st.completed + st.planned), code) <==>
      Names(forbidden, code) || Names(st.completed, code) || Names(st.planned, code)
  {
    hide NormalizeCode, NormalizeSet, Names;
    NormalSetsStay(forbidden + st.completed + st.planned);
    NormalizeSetUnion(forbidden + st.completed, st.planned);
    NormalizeSetUnion(forbidden, st.completed);
    NamesIff(forbidden, code);
    NamesIff(st.completed, code);
    NamesIff(st.planned, code);
    ForbiddenIff(NormalizeSet(forbidden + st.completed + st.planned), code);
  }

  lemma ForbiddenIff(codes: set<string>, code: string)
    ensures IsForbidden(codes, code) <==> code in Normalized(codes)
  {
    hide NormalizeCode;
  }

  // ---------------------------------------------------------------- replaced subjects

  lemma RecordOf(codes: set<string>) returns (held: set<string>, list: seq<string>)
    ensures IsRecord(held, codes) && Lists(list, held)
  {
    hide Names, NormalizeSet;
    held := NormalizeSet(codes);
    forall code ensures code in held <==> Names(codes, code) {
      NamesIff(codes, code);
    }
    list := ListExists(held);
  }

  lemma {:induction false} ListExists(s: set<string>) returns (list: seq<string>)
    ensures Lists(list, s)
    decreases |s|
  {
    list := [];
    if s != {} {
      var c :| c in s;
      var rest := ListExists(s - {c});
      list := [c] + rest;
    }
  }

  // The replacement of a core subject is on neither list once the core subject, or an equivalent, is
  // completed; and for the elective pool, once it is planned.
  lemma ReplacementIsRefused(catalog: Catalog, pool: Pool, forbidden: set<string>, st: Student, session: string, rules: Rules,
    code: string, r: string)
    requires Indexed(catalog) && Replaces(rules, r, code)
    ensures CountsAsHeld(rules.table, NormalizeSet(st.completed), rules.replacementFor[r]) ==>
      code !in EligibleSubjects(catalog, st, session, rules)
    ensures CountsAsHeld(rules.table, NormalizeSet(st.completed + st.planned), rules.replacementFor[r]) ==>
      code !in ElectivePool(catalog, pool, forbidden, st, Some(session), rules)
  {
    hide NormalizeCode, NormalizeSet, IsOffered, AllHold, IsExcluded, IsWithinCap, HasPoolLevel, IsDescribed, CountsAsHeld, Names,
      EligibleSubjects, ElectivePool, Replaces;
    var held, some := RecordOf(st.completed + st.planned);
    var done, other := RecordOf(st.completed);
    var list := ListExists(held + {NormalizeCode(code)});
    RecordIs(held, st.completed + st.planned);
    RecordIs(done, st.completed);
    EligibleIff(catalog, st, session, rules, code, held, done, list);
    ElectiveIff(catalog, pool, forbidden, st, Some(session), rules, code, held, list);
    EntryReplaces(rules, r, code);
  }

  lemma EntryReplaces(rules: Rules, r: string, code: string)
    requires Replaces(rules, r, code)
    ensures forall held :: CountsAsHeld(rules.table, held, rules.replacementFor[r]) ==> IsReplaced(code, held, rules)
  {
    hide CountsAsHeld, NormalizeCode;
  }
}
