/** A filled study plan, spelled out: which rows come first, what a slot can count on, and what a filled row is. */
module PlanRules {
  // Autumn, spring, summer, then every other session, within a year.

  import opened Text
  import opened PrerequisiteParser
  import opened Catalogue
  import opened Eligibility
  import opened ElectiveService
  import opened FilledPlans
  import opened EquivalentSubjects
  import opened Thresholds
  import opened EligibilityRules

  // ---------------------------------------------------------------- the calendar

  predicate Reads(session: string, name: string) {
    Lower(Trim(session)) == name
  }

  predicate IsNamed(session: string) {
    Reads(session, "autumn") || Reads(session, "spring") || Reads(session, "summer")
  }

  predicate IsSoonerSession(x: string, y: string) {
    || (Reads(x, "autumn") && !Reads(y, "autumn"))
    || (Reads(x, "spring") && !Reads(y, "autumn") && !Reads(y, "spring"))
    || (Reads(x, "summer") && !IsNamed(y))
  }

  predicate IsSameSession(x: string, y: string) {
    || (Reads(x, "autumn") && Reads(y, "autumn"))
    || (Reads(x, "spring") && Reads(y, "spring"))
    || (Reads(x, "summer") && Reads(y, "summer"))
    || (!IsNamed(x) && !IsNamed(y))
  }

  predicate ComesFirst(a: PlanSlot, b: PlanSlot) {
    a.year < b.year || (a.year == b.year && IsSoonerSession(a.session, b.session))
  }

  predicate ComesTogether(a: PlanSlot, b: PlanSlot) {
    a.year == b.year && IsSameSession(a.session, b.session)
  }

  lemma NamesDiffer()
    ensures "autumn" != "spring" && "autumn" != "summer" && "spring" != "summer"
  {
    assert "autumn"[0] == 'a' && "spring"[0] == 's' && "summer"[0] == 's' && "spring"[1] == 'p' && "summer"[1] == 'u';
  }

  // One row is earlier than another exactly when its year is, or in one year its session comes first.
  lemma CalendarIff(a: PlanSlot, b: PlanSlot)
    ensures Earlier(a, b) <==> ComesFirst(a, b)
    ensures SameTime(a, b) <==> ComesTogether(a, b)
  {
    hide Lower, Trim;
    NamesDiffer();
  }

  // The slots are visited in calendar order, and within a session in the order of the plan.
  lemma VisitedInOrder(slots: seq<PlanSlot>, a: nat, b: nat)
    requires a < b < |Order(slots)|
    ensures var i, j := Order(slots)[a], Order(slots)[b];
      ComesFirst(slots[i], slots[j]) || (ComesTogether(slots[i], slots[j]) && i < j)
  {
    hide Earlier, SameTime, ComesFirst, ComesTogether, OrderOf;
    OrderVisitsAll(slots, |slots|);
    var i, j := Order(slots)[a], Order(slots)[b];
    assert Before(slots, i, j);
    CalendarIff(slots[i], slots[j]);
  }

  // ---------------------------------------------------------------- what a slot can count on

  // Row k of the plan carries the subject.
  predicate IsRowOf(plan: seq<PlanSlot>, k: nat, code: string) {
    k < |plan| && !IsPlaceholder(plan[k].code) && NormalizeCode(plan[k].code) == code
  }

  predicate IsDone(env: Setting, code: string) {
    Names(env.completed, code) || Names(env.planned, code)
  }

  // Completed, planned, or in a row before slot i.
  ghost predicate IsTakenBefore(env: Setting, plan: seq<PlanSlot>, i: nat, code: string)
    requires i < |plan|
  {
    IsDone(env, code) || exists k: nat :: IsRowOf(plan, k, code) && ComesFirst(plan[k], plan[i])
  }

  // Completed, planned, or in another row no later than slot i.
  ghost predicate IsTakenBy(env: Setting, plan: seq<PlanSlot>, i: nat, code: string)
    requires i < |plan|
  {
    IsDone(env, code) || exists k: nat :: k != i && IsRowOf(plan, k, code) && (ComesFirst(plan[k], plan[i]) || ComesTogether(plan[k], plan[i]))
  }

  ghost predicate IsOnPlan(env: Setting, plan: seq<PlanSlot>, code: string) {
    IsDone(env, code) || exists k: nat :: IsRowOf(plan, k, code)
  }

  lemma DoneIff(env: Setting, code: string)
    ensures code in NormalizeSet(env.completed + env.planned) <==> IsDone(env, code)
  {
    hide Names, NormalizeSet;
    NormalizeSetUnion(env.completed, env.planned);
    NamesIff(env.completed, code);
    NamesIff(env.planned, code);
  }

  lemma FirstIsOther(a: PlanSlot)
    ensures !ComesFirst(a, a)
  {
    hide Lower, Trim;
  }

  lemma HeldIff(env: Setting, plan: seq<PlanSlot>, i: nat, code: string)
    requires i < |plan|
    ensures code in Held(env, plan, i, false) <==> IsTakenBefore(env, plan, i, code)
    ensures code in Held(env, plan, i, true) <==> IsTakenBy(env, plan, i, code)
  {
    hide IsPlaceholder, NormalizeCode, NormalizeSet, Earlier, SameTime, ComesFirst, ComesTogether, IsDone;
    DoneIff(env, code);
    forall k | 0 <= k < |plan|
      ensures Earlier(plan[k], plan[i]) <==> ComesFirst(plan[k], plan[i])
      ensures SameTime(plan[k], plan[i]) <==> ComesTogether(plan[k], plan[i])
    {
      CalendarIff(plan[k], plan[i]);
    }
    FirstIsOther(plan[i]);
  }

  lemma ScheduledIff(env: Setting, plan: seq<PlanSlot>, code: string)
    ensures code in Scheduled(env, plan) <==> IsOnPlan(env, plan, code)
  {
    hide IsPlaceholder, NormalizeCode, NormalizeSet, IsDone;
    DoneIff(env, code);
    if k: nat :| IsRowOf(plan, k, code) {
      assert NormalizeCode(plan[k].code) in Scheduled(env, plan);
    }
    if code in Scheduled(env, plan) && code !in NormalizeSet(env.completed + env.planned) {
      var k: nat :| k < |plan| && !IsPlaceholder(plan[k].code) && NormalizeCode(plan[k].code) == code;
      assert IsRowOf(plan, k, code);
    }
  }

  // The sets of codes that a slot of the plan is judged by.
  datatype Record = Record(before: set<string>, through: set<string>, all: set<string>)

  ghost predicate IsRecordAt(env: Setting, plan: seq<PlanSlot>, i: nat, r: Record)
    requires i < |plan|
  {
    && (forall code :: code in r.before <==> IsTakenBefore(env, plan, i, code))
    && (forall code :: code in r.through <==> IsTakenBy(env, plan, i, code))
    && (forall code :: code in r.all <==> IsOnPlan(env, plan, code))
  }

  lemma RecordAt(env: Setting, plan: seq<PlanSlot>, i: nat, r: Record)
    requires i < |plan| && IsRecordAt(env, plan, i, r)
    ensures r == Record(Held(env, plan, i, false), Held(env, plan, i, true), Scheduled(env, plan))
  {
    hide Held, Scheduled, IsTakenBefore, IsTakenBy, IsOnPlan;
    forall code ensures code in Held(env, plan, i, false) <==> IsTakenBefore(env, plan, i, code) {
      HeldIff(env, plan, i, code);
    }
    forall code ensures code in Held(env, plan, i, true) <==> IsTakenBy(env, plan, i, code) {
      HeldIff(env, plan, i, code);
    }
    forall code ensures code in Scheduled(env, plan) <==> IsOnPlan(env, plan, code) {
      ScheduledIff(env, plan, code);
    }
    assert r.before == Held(env, plan, i, false);
    assert r.through == Held(env, plan, i, true);
    assert r.all == Scheduled(env, plan);
  }

  // ---------------------------------------------------------------- what fits a slot

  predicate HasAllowedLevel(s: Subject) {
    PoolLevel(s) == Some(100) || PoolLevel(s) == Some(200) || PoolLevel(s) == Some(300)
  }

  // New on the plan, of an allowed level and the level asked for, offered then; its prerequisites hold
  // before the slot and its corequisites by then; nothing on the plan excludes it or is replaced by it; and
  // the 100-level total stays within the cap.
  ghost predicate IsFit(env: Setting, slot: PlanSlot, code: string, r: Record, list: seq<string>)
    requires code in env.catalog
  {
    var s := env.catalog[code];
    && HasAllowedLevel(s)
    && code !in r.all
    && (SlotLevel(slot).Some? ==> LevelValue(s) == SlotLevel(slot))
    && IsOffered(s, env.campus, slot.session)
    && AllHold(s.prerequisites, env.catalog, r.before, env.rules.table)
    && AllHold(s.corequisites, env.catalog, r.through, env.rules.table)
    && !IsExcluded(s, r.all, env.rules.table)
    && !IsReplaced(code, r.all, env.rules)
    && IsWithinCap(env.catalog, code, list, env.rules)
  }

  // A ranked code is accepted by a slot, on the plan as it stands, exactly when it fits.
  lemma FitsIff(env: Setting, plan: seq<PlanSlot>, i: nat, ranked: string, r: Record, list: seq<string>)
    requires i < |plan| && IsRecordAt(env, plan, i, r) && Lists(list, r.all + {NormalizeCode(ranked)})
    ensures Fits(env, plan, i, ranked) <==>
      NormalizeCode(ranked) in env.catalog && IsFit(env, plan[i], NormalizeCode(ranked), r, list)
  {
    hide Satisfied, AllHold, ExclusionBlocked, IsExcluded, ReplacementBlocked, IsReplaced, WithinCap, IsWithinCap, OfferedInSession,
      IsOffered, NormalizeCode, Held, Scheduled, IsRecordAt, PoolLevel, LevelValue, SlotLevel;
    RecordAt(env, plan, i, r);
    var code := NormalizeCode(ranked);
    NormalCodeStays(ranked);
    if code in env.catalog {
      var s := env.catalog[code];
      SatisfiedIff(s.prerequisites, env.catalog, r.before, env.rules.table);
      SatisfiedIff(s.corequisites, env.catalog, r.through, env.rules.table);
      ExcludedIff(s, r.all, env.rules);
      ReplacedIff(code, r.all, env.rules);
      WithinCapIff(env.catalog, code, r.all, list, env.rules);
      OfferedIff(s, env.campus, plan[i].session);
    }
  }

  lemma NormalCodeStays(code: string)
    ensures NormalizeCode(NormalizeCode(code)) == NormalizeCode(code)
  {
    NormalizeTwice(code);
  }

  // ---------------------------------------------------------------- the finished plan

  // The row that a subject makes of a slot.
  predicate IsRowFor(row: PlanSlot, slot: PlanSlot, s: Subject, code: string, catalog: Catalog) {
    && row.year == slot.year && row.session == slot.session && row.code == code
    && row.cp == CreditOf(catalog, code)
    && row.name == Trim(if s.title != "" then s.title else if slot.name != "" then slot.name else code)
  }

  lemma PlacedIsRow(env: Setting, slot: PlanSlot, code: string)
    requires Ready(env) && code in env.catalog
    ensures IsRowFor(Place(env, slot, code), slot, env.catalog[code], code, env.catalog)
  {
    hide IsPlaceholder, NormalizeCode, Trim, Judgeable;
    PlacedCode(env, slot, code);
    assert Indexed(env.catalog);
    assert env.catalog[code].code == code && code != "";
  }

  // Completed, planned, fixed on the plan, or filled before slot i.
  ghost predicate IsSeenAt(env: Setting, slots: seq<PlanSlot>, filled: seq<PlanSlot>, i: nat, code: string)
    requires i < |slots| == |filled|
  {
    IsDone(env, code) || exists k: nat :: IsRowOf(filled, k, code) && IsFixedOrBefore(slots, k, i)
  }

  predicate IsFixedOrBefore(slots: seq<PlanSlot>, k: nat, i: nat)
    requires i < |slots|
  {
    k < |slots| && (!IsPlaceholder(slots[k].code) || ComesFirst(slots[k], slots[i]) || (ComesTogether(slots[k], slots[i]) && k < i))
  }

  lemma SeenIff(env: Setting, slots: seq<PlanSlot>, filled: seq<PlanSlot>, i: nat, code: string)
    requires i < |slots| == |filled|
    requires forall k :: 0 <= k < |slots| && !IsPlaceholder(slots[k].code) ==> filled[k] == slots[k]
    ensures code in Barring(env, slots, filled, i) <==> IsSeenAt(env, slots, filled, i, code)
  {
    hide IsPlaceholder, NormalizeCode, NormalizeSet, Earlier, SameTime, ComesFirst, ComesTogether, IsDone;
    DoneIff(env, code);
    forall k: nat | k < |slots| ensures SeenAtTurn(slots, filled, i, k) <==> IsFixedOrBefore(slots, k, i) && !IsPlaceholder(filled[k].code) {
      CalendarIff(slots[k], slots[i]);
    }
  }

  ghost predicate IsSeenSet(env: Setting, slots: seq<PlanSlot>, filled: seq<PlanSlot>, i: nat, seen: set<string>)
    requires i < |slots| == |filled|
  {
    forall code :: code in seen <==> IsSeenAt(env, slots, filled, i, code)
  }

  lemma SeenSetIs(env: Setting, slots: seq<PlanSlot>, filled: seq<PlanSlot>, i: nat, seen: set<string>)
    requires i < |slots| == |filled| && IsSeenSet(env, slots, filled, i, seen)
    requires forall k :: 0 <= k < |slots| && !IsPlaceholder(slots[k].code) ==> filled[k] == slots[k]
    ensures seen == Barring(env, slots, filled, i)
  {
    hide IsPlaceholder, Barring, IsSeenAt;
    forall code {
      SeenIff(env, slots, filled, i, code);
    }
  }

  // A filled row of the finished plan is a ranked subject's, of an allowed level and the level asked for and
  // offered then; its prerequisites hold in the finished plan before the row and its corequisites by then;
  // and nothing completed, planned, fixed or filled before excludes it or is a core subject that it replaces.
  lemma FilledRowObeys(env: Setting, ranked: seq<string>, slots: seq<PlanSlot>, i: nat, r: Record, seen: set<string>)
    requires Ready(env) && i < |slots| && Fill(env, ranked, slots)[i] != slots[i]
    requires IsRecordAt(env, Fill(env, ranked, slots), i, r) && IsSeenSet(env, slots, Fill(env, ranked, slots), i, seen)
    ensures var row := Fill(env, ranked, slots)[i];
      && row.code in env.catalog && (exists k :: 0 <= k < |ranked| && NormalizeCode(ranked[k]) == row.code)
      && var s := env.catalog[row.code];
      && IsRowFor(row, slots[i], s, row.code, env.catalog)
      && HasAllowedLevel(s)
      && (SlotLevel(slots[i]).Some? ==> LevelValue(s) == SlotLevel(slots[i]))
      && IsOffered(s, env.campus, row.session)
      && AllHold(s.prerequisites, env.catalog, r.before, env.rules.table)
      && AllHold(s.corequisites, env.catalog, r.through, env.rules.table)
      && !IsExcluded(s, seen, env.rules.table)
      && !IsReplaced(row.code, seen, env.rules)
  {
    hide Satisfied, AllHold, ExclusionBlocked, IsExcluded, ReplacementBlocked, IsReplaced, OfferedInSession, IsRecordAt, IsSeenSet,
      IsOffered, NormalizeCode, Held, Scheduled, PoolLevel, LevelValue, SlotLevel, Fill, IsPlaceholder, Ready, Barring, Place, IsRowFor;
    var filled := Fill(env, ranked, slots);
    FilledPlanIsValid(env, ranked, slots, i);
    ExclusionsRespected(env, ranked, slots, i);
    RecordAt(env, filled, i, r);
    FixedRowsStay(env, ranked, slots);
    SeenSetIs(env, slots, filled, i, seen);
    var code := filled[i].code;
    var s := env.catalog[code];
    PlacedIsRow(env, slots[i], code);
    PlacedKeepsSession(env, slots[i], code);
    SatisfiedIff(s.prerequisites, env.catalog, r.before, env.rules.table);
    SatisfiedIff(s.corequisites, env.catalog, r.through, env.rules.table);
    ExcludedIff(s, seen, env.rules);
    ReplacedIff(code, seen, env.rules);
    OfferedIff(s, env.campus, slots[i].session);
  }

  lemma PlacedKeepsSession(env: Setting, slot: PlanSlot, code: string)
    requires code in env.catalog
    ensures Place(env, slot, code).session == slot.session
  {
  }

  lemma FixedRowsStay(env: Setting, ranked: seq<string>, slots: seq<PlanSlot>)
    requires Ready(env)
    ensures forall k :: 0 <= k < |slots| && !IsPlaceholder(slots[k].code) ==> Fill(env, ranked, slots)[k] == slots[k]
  {
    hide IsPlaceholder, Ready, Fill;
    PlanIsConserved(env, ranked, slots);
  }

  // The replacement of a core subject is in no filled slot once the core subject, or an equivalent of it,
  // is completed or planned.
  lemma ReplacementIsNotFilled(env: Setting, ranked: seq<string>, slots: seq<PlanSlot>, i: nat, replacement: string)
    requires Ready(env) && i < |slots| && Fill(env, ranked, slots)[i] != slots[i]
    requires replacement in env.rules.replacementFor
    requires CountsAsHeld(env.rules.table, NormalizeSet(env.completed + env.planned), env.rules.replacementFor[replacement])
    ensures Fill(env, ranked, slots)[i].code != NormalizeCode(replacement)
  {
    hide Satisfied, ExclusionBlocked, ReplacementBlocked, IsReplaced, OfferedInSession, NormalizeCode, NormalizeSet, Fill, Ready, Barring,
      CountsAsHeld;
    var filled := Fill(env, ranked, slots);
    ExclusionsRespected(env, ranked, slots, i);
    var code := filled[i].code;
    var done := NormalizeSet(env.completed + env.planned);
    NormalCodeStays(replacement);
    if code == NormalizeCode(replacement) {
      EntryReplaces(env.rules, replacement, code);
      ReplacedIff(code, done, env.rules);
      DoneIsBarring(env, slots, filled, i);
      ReplacementGrows(code, done, Barring(env, slots, filled, i), env.rules);
    }
  }

  lemma DoneIsBarring(env: Setting, slots: seq<PlanSlot>, filled: seq<PlanSlot>, i: nat)
    requires i < |slots| == |filled|
    ensures NormalizeSet(env.completed + env.planned) <= Barring(env, slots, filled, i)
  {
    hide NormalizeSet, SeenAtTurn, NormalizeCode;
  }
}
