/** Why idempotence of filling needs its condition. */
module RerunFillsMore {
  // Two open slots of one session and one subject with a corequisite are enough for a second run to
  // fill a slot that the first run had to skip.

  import opened Text
  import opened PrerequisiteParser
  import opened RequirementEvaluator
  import opened RequirementLaws
  import opened RequirementTrees
  import opened RequirementMeaning
  import opened Catalogue
  import opened Eligibility
  import opened ElectiveService
  import opened FilledPlans

  // A requirement that is a single code, judged without equivalents.
  lemma OneCodeRequirement(code: string, catalog: Catalog, held: set<string>)
    requires IsCode(code) && NormalizeCode(code) == code && Normalized(held) == held
    ensures Satisfied([code], catalog, held, []) <==> code in held
  {
    hide EvaluateExpression, ExpressionsSatisfied, IsCode, NormalizeCode, Known, HoldsCode;
    var p := Known(catalog, held, []);
    OneCodeTree(code, p);
    OneText(code, p);
    HeldByCode(code, catalog, held);
  }

  lemma HeldByCode(code: string, catalog: Catalog, held: set<string>)
    requires NormalizeCode(code) == code && Normalized(held) == held
    ensures HoldsCode(code, Known(catalog, held, [])) <==> code in held
  {
    hide NormalizeCode, KnownCp, KnownLevel;
    assert Expand([], held) == held;
  }

  lemma OneCodeTree(code: string, p: Progress)
    requires IsCode(code)
    ensures EvaluateExpression(code, p) == Answer(HoldsCode(code, p))
  {
    hide EvaluateExpression, IsCode, HoldsCode;
    var item := One(Code(code));
    var tree := [[item]];
    assert PrintItems([item]) == [code];
    assert PrintClauses(tree) == [code];
    PrintedTreeMeansTree(tree, p);
    assert ClauseHolds(tree[0], p) <==> ItemHolds(item, p);
  }

  lemma OneText(code: string, p: Progress)
    ensures ExpressionsSatisfied([code], p) == Answer(true) <==> EvaluateExpression(code, p) == Answer(true)
  {
    hide EvaluateExpression;
    assert [code][1..] == [];
    assert ExpressionsSatisfied([], p) == Answer(true);
  }

  // The early slot only takes `late`, the other slot only takes `first`, and `late` asks for
  // `first` in the same session.
  ghost predicate Entangled(env: Setting, first: string, late: string, slots: seq<PlanSlot>) {
    && Ready(env)
    && env.completed == env.planned == {} && env.rules.table == [] && env.rules.replacementFor == map[]
    && first != late && IsCode(first) && first in env.catalog && late in env.catalog
    && var a := env.catalog[first];
    && var b := env.catalog[late];
    && a.prerequisites == a.corequisites == a.exclusions == []
    && b.prerequisites == b.exclusions == [] && b.corequisites == [first]
    && PoolLevel(a) in ALLOWED_LEVELS && PoolLevel(b) in ALLOWED_LEVELS
    && |slots| == 2 && IsPlaceholder(slots[0].code) && IsPlaceholder(slots[1].code) && SameTime(slots[0], slots[1])
    && SlotLevel(slots[0]) == LevelValue(b) && SlotLevel(slots[1]) == LevelValue(a)
    && SlotLevel(slots[0]).Some? && SlotLevel(slots[1]).Some? && SlotLevel(slots[0]) != SlotLevel(slots[1])
    && OfferedInSession(a, env.campus, slots[1].session) && OfferedInSession(b, env.campus, slots[0].session)
    && (forall held :: held <= {first, late} ==> Total100(env.catalog, held) <= env.rules.maxCp100)
  }

  lemma EntangledOrder(slots: seq<PlanSlot>)
    requires |slots| == 2 && SameTime(slots[0], slots[1])
    ensures Order(slots) == [0, 1]
  {
    hide SessionRank;
    assert OrderOf(slots, 0) == [];
    assert OrderOf(slots, 1) == [0];
    assert !Before(slots, 1, 0);
    assert Insert(slots, 1, [0]) == [0] + Insert(slots, 1, []);
    assert OrderOf(slots, 2) == [0, 1];
  }

  // Without exclusions and replacements, and under the cap, only the requirements decide.
  lemma OnlyRequirements(env: Setting, s: Subject, norm: string, held: set<string>, prior: set<string>, through: set<string>)
    requires s.exclusions == [] && s.prerequisites == [] && env.rules.replacementFor == map[]
    requires Total100(env.catalog, held + {NormalizeCode(norm)}) <= env.rules.maxCp100
    ensures RulesAllow(s, norm, held, prior, through, env.catalog, env.rules) <==>
      Satisfied(s.corequisites, env.catalog, through, env.rules.table)
  {
    hide Satisfied, Total100, NormalizeCode, Is100Level;
    NoTextsSatisfied(env.catalog, prior, env.rules.table);
  }

  lemma CodesAreKeys(env: Setting, code: string)
    requires Ready(env) && code in env.catalog
    ensures NormalizeCode(code) == code
  {
    hide NormalizeCode, Judgeable, IsPlaceholder;
  }

  lemma NothingScheduledYet(env: Setting, slots: seq<PlanSlot>)
    requires env.completed == env.planned == {} && forall k :: 0 <= k < |slots| ==> IsPlaceholder(slots[k].code)
    ensures Scheduled(env, slots) == {}
  {
    hide IsPlaceholder, NormalizeCode;
    assert NormalizeSet(env.completed + env.planned) == {};
  }

  lemma NothingHeldAt(env: Setting, slots: seq<PlanSlot>, i: nat, same: bool)
    requires env.completed == env.planned == {} && i < |slots| && forall k :: 0 <= k < |slots| ==> IsPlaceholder(slots[k].code)
    ensures Held(env, slots, i, same) == {}
  {
    hide IsPlaceholder, NormalizeCode, Earlier, SameTime;
    assert NormalizeSet(env.completed + env.planned) == {};
  }

  lemma NothingHeldYet(env: Setting, slots: seq<PlanSlot>)
    requires env.completed == env.planned == {} && |slots| == 2
    requires IsPlaceholder(slots[0].code) && IsPlaceholder(slots[1].code)
    ensures Scheduled(env, slots) == {}
    ensures Held(env, slots, 0, true) == {} && Held(env, slots, 0, false) == {}
    ensures Held(env, slots, 1, true) == {} && Held(env, slots, 1, false) == {}
  {
    hide IsPlaceholder, Held, Scheduled;
    NothingScheduledYet(env, slots);
    NothingHeldAt(env, slots, 0, true);
    NothingHeldAt(env, slots, 0, false);
    NothingHeldAt(env, slots, 1, true);
    NothingHeldAt(env, slots, 1, false);
  }

  // The first walk skips slot 0 and fills slot 1.
  lemma FirstWalk(env: Setting, first: string, late: string, slots: seq<PlanSlot>)
    requires Entangled(env, first, late, slots)
    ensures !Fits(env, slots, 0, late) && !Fits(env, slots, 0, first)
    ensures !Fits(env, slots, 1, late) && Fits(env, slots, 1, first)
    ensures Scheduled(env, slots) == {}
  {
    hide IsPlaceholder, NormalizeCode, SlotLevel, PoolLevel, LevelValue, OfferedInSession, Satisfied, IsCode, SameTime, Total100,
      RulesAllow, Ready, Scheduled, Held;
    CodesAreKeys(env, first);
    CodesAreKeys(env, late);
    NothingHeldYet(env, slots);
    assert {} + {first} == {first} && {} + {late} == {late};
    OneCodeRequirement(first, env.catalog, {});
    NoTextsSatisfied(env.catalog, {}, env.rules.table);
    OnlyRequirements(env, env.catalog[late], late, {}, {}, {});
    OnlyRequirements(env, env.catalog[first], first, {}, {}, {});
  }

  lemma FirstIsHeldThen(env: Setting, first: string, slots: seq<PlanSlot>, filled: seq<PlanSlot>)
    requires Ready(env) && first in env.catalog && env.completed == env.planned == {} && |slots| == 2
    requires IsPlaceholder(slots[0].code) && IsPlaceholder(slots[1].code) && SameTime(slots[0], slots[1])
    requires filled == slots[1 := Place(env, slots[1], first)]
    ensures Scheduled(env, filled) == {first}
    ensures Held(env, filled, 0, true) == {first}
  {
    hide IsPlaceholder, NormalizeCode, SessionRank, Place, Ready;
    PlacedCode(env, slots[1], first);
    PlacedTime(env, slots[1], first);
    NothingHeldYet(env, slots);
    ScheduledGrowsByOne(env, slots, 1, first);
    assert CountsAt(filled, 1, 0, true);
    assert NormalizeCode(filled[1].code) == first;
  }

  // With slot 1 filled, slot 0 takes the subject it had to refuse.
  lemma SecondWalk(env: Setting, first: string, late: string, slots: seq<PlanSlot>, filled: seq<PlanSlot>)
    requires Entangled(env, first, late, slots)
    requires filled == slots[1 := Place(env, slots[1], first)]
    ensures Fits(env, filled, 0, late)
  {
    hide IsPlaceholder, NormalizeCode, SlotLevel, PoolLevel, LevelValue, OfferedInSession, Satisfied, IsCode, SameTime, Total100,
      RulesAllow, Ready, Place, Scheduled, Held;
    CodesAreKeys(env, first);
    CodesAreKeys(env, late);
    FirstIsHeldThen(env, first, slots, filled);
    OneCodeRequirement(first, env.catalog, {first});
    assert {first} + {late} == {first, late};
    OnlyRequirements(env, env.catalog[late], late, {first}, Held(env, filled, 0, false), {first});
  }

  lemma PlacedTime(env: Setting, slot: PlanSlot, norm: string)
    requires norm in env.catalog
    ensures SameTime(slot, Place(env, slot, norm)) && SameTime(Place(env, slot, norm), slot)
    ensures forall other :: SameTime(slot, other) ==> SameTime(Place(env, slot, norm), other)
  {
  }

  // The second run fills a slot the first run left open.
  lemma RerunFillsSkippedSlot(env: Setting, first: string, late: string, slots: seq<PlanSlot>)
    requires Entangled(env, first, late, slots)
    ensures var ranked := [late, first];
      var once := Fill(env, ranked, slots);
      && once == slots[1 := Place(env, slots[1], first)]
      && Fill(env, ranked, once)[0] == Place(env, slots[0], late)
      && Fill(env, ranked, once) != once
  {
    hide Fits, Place, IsPlaceholder, SameTime, Before, FirstFit, NormalizeCode, SlotLevel, PoolLevel, LevelValue,
      OfferedInSession, IsCode, Total100, Ready, FillAt, Fill;
    var ranked := [late, first];
    var once := slots[1 := Place(env, slots[1], first)];
    FirstWalk(env, first, late, slots);
    EntangledOrder(slots);
    CodesAreKeys(env, first);
    CodesAreKeys(env, late);
    TurnOf(env, late, first, slots, 0);
    TurnOf(env, late, first, slots, 1);
    TwoTurns(env, ranked, slots);
    SecondWalk(env, first, late, slots, once);
    TimeKept(env, slots, first);
    EntangledOrder(once);
    PlacedCode(env, slots[1], first);
    PlacedCode(env, slots[0], late);
    TurnOf(env, late, first, once, 0);
    var twice := once[0 := Place(env, slots[0], late)];
    TurnOf(env, late, first, twice, 1);
    TwoTurns(env, ranked, once);
  }

  // One slot's turn with two ranked codes.
  lemma TurnOf(env: Setting, a: string, b: string, slots: seq<PlanSlot>, i: nat)
    requires i < |slots| && a in env.catalog && b in env.catalog && NormalizeCode(a) == a && NormalizeCode(b) == b
    ensures FillAt(env, [a, b], slots, i) ==
      if !IsPlaceholder(slots[i].code) then slots
      else if Fits(env, slots, i, a) then slots[i := Place(env, slots[i], a)]
      else if Fits(env, slots, i, b) then slots[i := Place(env, slots[i], b)]
      else slots
  {
    hide Fits, Place, IsPlaceholder, NormalizeCode;
    assert [a, b][1..] == [b] && [b][1..] == [];
    assert FirstFit(env, [], slots, i) == None;
    assert FirstFit(env, [b], slots, i) == if Fits(env, slots, i, b) then Some(b) else None;
  }

  lemma TimeKept(env: Setting, slots: seq<PlanSlot>, norm: string)
    requires |slots| == 2 && norm in env.catalog && SameTime(slots[0], slots[1])
    ensures SameTime(slots[0], Place(env, slots[1], norm))
  {
  }

  lemma TwoTurns(env: Setting, ranked: seq<string>, slots: seq<PlanSlot>)
    requires |slots| == 2 && Order(slots) == [0, 1]
    ensures Fill(env, ranked, slots) == FillAt(env, ranked, FillAt(env, ranked, slots, 0), 1)
  {
    hide FillAt, Order;
    assert [0, 1][1..] == [1] && [1][1..] == [];
  }
}
