/**
 What a filled plan satisfies, although every slot was checked only against the partial
 plan of its moment: validity, conservation, the 100-level cap, and maximality.
 */
module FilledPlans {
  import opened Text
  import opened Sums
  import opened PrerequisiteParser
  import opened RequirementLaws
  import opened Catalogue
  import opened Eligibility
  import opened ElectiveService

  // ---------------------------------------------------------------- calendar order

  lemma BeforeIsStrict(slots: seq<PlanSlot>, i: nat, j: nat, k: nat)
    requires i < |slots| && j < |slots| && k < |slots|
    ensures i != j ==> Before(slots, i, j) != Before(slots, j, i)
    ensures Before(slots, i, j) && Before(slots, j, k) ==> Before(slots, i, k)
  {
    hide SessionRank;
  }

  predicate Ordered(slots: seq<PlanSlot>, order: seq<nat>)
    requires Indices(slots, order)
  {
    forall a, b :: 0 <= a < b < |order| ==> Before(slots, order[a], order[b])
  }

  lemma {:induction false} InsertOrdered(slots: seq<PlanSlot>, i: nat, order: seq<nat>)
    requires i < |slots| && Indices(slots, order) && Ordered(slots, order) && i !in order
    ensures Ordered(slots, Insert(slots, i, order))
    ensures forall k :: k in Insert(slots, i, order) <==> k == i || k in order
  {
    hide Before;
    if order != [] {
      var rest := order[1..];
      if Before(slots, i, order[0]) {
        forall b | 0 <= b < |order| ensures Before(slots, i, order[b]) {
          BeforeIsStrict(slots, i, order[0], order[b]);
        }
      } else {
        InsertOrdered(slots, i, rest);
        BeforeIsStrict(slots, i, order[0], order[0]);
        var r := Insert(slots, i, rest);
        assert forall k :: k in r <==> k == i || k in rest;
        forall b | 0 <= b < |r| ensures Before(slots, order[0], r[b]) {
          assert r[b] in r;
          if r[b] != i {
            var c :| 0 <= c < |rest| && rest[c] == r[b];
            assert order[c + 1] == r[b];
          }
        }
      }
    }
  }

  // The walk visits every slot once, in calendar order.
  lemma {:induction false} OrderVisitsAll(slots: seq<PlanSlot>, n: nat)
    requires n <= |slots|
    ensures Ordered(slots, OrderOf(slots, n))
    ensures forall k :: k in OrderOf(slots, n) <==> 0 <= k < n
  {
    hide Before;
    if n > 0 {
      OrderVisitsAll(slots, n - 1);
      InsertOrdered(slots, n - 1, OrderOf(slots, n - 1));
    }
  }

  // ---------------------------------------------------------------- growing plans

  // b is a with some placeholders filled.
  predicate Grows(a: seq<PlanSlot>, b: seq<PlanSlot>) {
    && |a| == |b|
    && forall k :: 0 <= k < |a| ==> b[k] == a[k] || FilledFrom(a[k], b[k])
  }

  predicate FilledFrom(a: PlanSlot, b: PlanSlot) {
    IsPlaceholder(a.code) && !IsPlaceholder(b.code) && b.year == a.year && b.session == a.session
  }

  lemma GrowsTransitive(a: seq<PlanSlot>, b: seq<PlanSlot>, c: seq<PlanSlot>)
    requires Grows(a, b) && Grows(b, c)
    ensures Grows(a, c)
  {
    hide IsPlaceholder;
  }

  lemma TimesStay(a: seq<PlanSlot>, b: seq<PlanSlot>)
    requires Grows(a, b)
    ensures forall i, j :: 0 <= i < |a| && 0 <= j < |a| ==>
      && Earlier(a[i], a[j]) == Earlier(b[i], b[j])
      && SameTime(a[i], a[j]) == SameTime(b[i], b[j])
      && Before(a, i, j) == Before(b, i, j)
  {
    hide IsPlaceholder, SessionRank;
  }

  lemma {:induction false} InsertStays(a: seq<PlanSlot>, b: seq<PlanSlot>, i: nat, order: seq<nat>)
    requires Grows(a, b) && i < |a| && Indices(a, order)
    ensures Insert(a, i, order) == Insert(b, i, order)
  {
    hide Before, Grows;
    assert |a| == |b| by { assert Grows(a, b); SameLength(a, b); }
    if order != [] {
      TimesStay(a, b);
      InsertStays(a, b, i, order[1..]);
    }
  }

  lemma SameLength(a: seq<PlanSlot>, b: seq<PlanSlot>)
    requires Grows(a, b)
    ensures |a| == |b|
  {
  }

  lemma {:induction false} OrderStays(a: seq<PlanSlot>, b: seq<PlanSlot>, n: nat)
    requires Grows(a, b) && n <= |a|
    ensures OrderOf(a, n) == OrderOf(b, n)
  {
    hide IsPlaceholder, Insert;
    if n > 0 {
      OrderStays(a, b, n - 1);
      InsertStays(a, b, n - 1, OrderOf(a, n - 1));
    }
  }

  lemma HeldGrows(env: Setting, a: seq<PlanSlot>, b: seq<PlanSlot>, i: nat, sameSession: bool)
    requires Grows(a, b) && i < |a|
    ensures Held(env, a, i, sameSession) <= Held(env, b, i, sameSession)
    ensures Scheduled(env, a) <= Scheduled(env, b)
  {
    hide IsPlaceholder, NormalizeCode, NormalizeSet, SessionRank;
    forall k | 0 <= k < |a| && CountsAt(a, k, i, sameSession)
      ensures CountsAt(b, k, i, sameSession) && b[k].code == a[k].code
    {
    }
    assert forall k :: 0 <= k < |a| && !IsPlaceholder(a[k].code) ==> !IsPlaceholder(b[k].code) && b[k].code == a[k].code;
  }

  lemma FillAtGrows(env: Setting, ranked: seq<string>, slots: seq<PlanSlot>, i: nat)
    requires Ready(env) && i < |slots|
    ensures Grows(slots, FillAt(env, ranked, slots, i))
    ensures forall k :: 0 <= k < |slots| && k != i ==> FillAt(env, ranked, slots, i)[k] == slots[k]
  {
    hide IsPlaceholder, NormalizeCode, FirstFit, Ready;
    if IsPlaceholder(slots[i].code) && FirstFit(env, ranked, slots, i).Some? {
      ChosenIsKnown(env, ranked, slots, i);
      PlacedCode(env, slots[i], FirstFit(env, ranked, slots, i).value);
    }
  }

  lemma {:induction false} FillFromGrows(env: Setting, ranked: seq<string>, slots: seq<PlanSlot>, order: seq<nat>)
    requires Ready(env) && Indices(slots, order)
    ensures Grows(slots, FillFrom(env, ranked, slots, order))
    ensures forall k :: 0 <= k < |slots| && k !in order ==> FillFrom(env, ranked, slots, order)[k] == slots[k]
    decreases |order|
  {
    hide IsPlaceholder, FillAt, Ready, FilledFrom;
    if order == [] {
      assert Grows(slots, slots);
    } else {
      var next := FillAt(env, ranked, slots, order[0]);
      FillAtGrows(env, ranked, slots, order[0]);
      FillFromGrows(env, ranked, next, order[1..]);
      GrowsTransitive(slots, next, FillFrom(env, ranked, slots, order));
    }
  }

  // ---------------------------------------------------------------- the moment of a slot

  // The plan p that slot i saw at its turn: slots before i in the calendar never change afterwards.
  ghost predicate Moment(env: Setting, ranked: seq<string>, slots: seq<PlanSlot>, i: nat, p: seq<PlanSlot>, done: seq<PlanSlot>) {
    && |slots| == |p| == |done| && i < |p|
    && Grows(slots, p)
    && p[i] == slots[i]
    && Grows(FillAt(env, ranked, p, i), done)
    && done[i] == FillAt(env, ranked, p, i)[i]
    && forall k :: 0 <= k < |p| && Before(slots, k, i) ==> done[k] == p[k]
  }

  lemma LastTurn(env: Setting, ranked: seq<string>, slots: seq<PlanSlot>, order: seq<nat>)
    requires Ready(env) && Indices(slots, order) && Ordered(slots, order) && order != []
    ensures Moment(env, ranked, slots, order[0], slots, FillFrom(env, ranked, slots, order))
  {
    hide FillAt, Ready, FilledFrom, Before;
    var i := order[0];
    var next := FillAt(env, ranked, slots, i);
    FillAtGrows(env, ranked, slots, i);
    FillFromGrows(env, ranked, next, order[1..]);
    assert Grows(slots, slots);
    forall k | k in order[1..] ensures Before(slots, i, k) {
      var b :| 0 <= b < |order[1..]| && order[1..][b] == k;
      assert Before(slots, order[0], order[b + 1]);
    }
    BeforeIsStrict(slots, i, i, i);
    assert i !in order[1..] by {
      NotBeforeItself(slots, i);
    }
    forall k | 0 <= k < |slots| && Before(slots, k, i)
      ensures FillFrom(env, ranked, slots, order)[k] == slots[k]
    {
      NotBeforeItself(slots, i);
      BeforeIsStrict(slots, k, i, i);
    }
  }

  lemma NotBeforeItself(slots: seq<PlanSlot>, i: nat)
    requires i < |slots|
    ensures !Before(slots, i, i)
  {
  }

  lemma {:induction false} MomentExists(env: Setting, ranked: seq<string>, slots: seq<PlanSlot>, order: seq<nat>, i: nat)
    returns (p: seq<PlanSlot>)
    requires Ready(env) && Indices(slots, order) && Ordered(slots, order) && i in order
    ensures Moment(env, ranked, slots, i, p, FillFrom(env, ranked, slots, order))
    decreases |order|
  {
    hide FillAt, Ready, FilledFrom, Before;
    if order[0] == i {
      LastTurn(env, ranked, slots, order);
      p := slots;
    } else {
      var next := FillAt(env, ranked, slots, order[0]);
      FillAtGrows(env, ranked, slots, order[0]);
      TimesStay(slots, next);
      assert i in order[1..];
      p := MomentExists(env, ranked, next, order[1..], i);
      GrowsTransitive(slots, next, p);
    }
  }

  lemma MomentOfSlot(env: Setting, ranked: seq<string>, slots: seq<PlanSlot>, i: nat) returns (p: seq<PlanSlot>)
    requires Ready(env) && i < |slots|
    ensures Moment(env, ranked, slots, i, p, Fill(env, ranked, slots))
  {
    hide Moment, Ready, FillFrom, Ordered;
    OrderVisitsAll(slots, |slots|);
    p := MomentExists(env, ranked, slots, Order(slots), i);
  }

  // What a slot holds from strictly earlier sessions is already final at its turn.
  lemma PriorIsFinal(env: Setting, ranked: seq<string>, slots: seq<PlanSlot>, i: nat, p: seq<PlanSlot>, done: seq<PlanSlot>)
    requires Ready(env) && Moment(env, ranked, slots, i, p, done)
    ensures Grows(p, done)
    ensures Held(env, done, i, false) == Held(env, p, i, false)
    ensures Held(env, p, i, true) <= Held(env, done, i, true)
    ensures Scheduled(env, p) <= Scheduled(env, done)
  {
    hide IsPlaceholder, FillAt, Ready, NormalizeSet, NormalizeCode, SessionRank;
    FillAtGrows(env, ranked, p, i);
    GrowsTransitive(p, FillAt(env, ranked, p, i), done);
    HeldGrows(env, p, done, i, false);
    HeldGrows(env, p, done, i, true);
    TimesStay(slots, p);
    TimesStay(p, done);
    forall k | 0 <= k < |p| && CountsAt(done, k, i, false)
      ensures CountsAt(p, k, i, false) && p[k].code == done[k].code
    {
      assert Before(slots, k, i);
    }
  }

  // ---------------------------------------------------------------- validity

  // What decided about a filled slot, seen from the plan of its moment.
  ghost predicate Chosen(env: Setting, ranked: seq<string>, p: seq<PlanSlot>, i: nat, row: PlanSlot, k: nat)
    requires i < |p|
  {
    && k < |ranked|
    && row.code in env.catalog
    && NormalizeCode(ranked[k]) == row.code
    && row == Place(env, p[i], row.code)
    && Fits(env, p, i, ranked[k])
    && forall j :: 0 <= j < k ==> !Fits(env, p, i, ranked[j])
  }

  lemma FilledWasChosen(env: Setting, ranked: seq<string>, slots: seq<PlanSlot>, i: nat)
    returns (p: seq<PlanSlot>, k: nat)
    requires Ready(env) && i < |slots| && Fill(env, ranked, slots)[i] != slots[i]
    ensures Moment(env, ranked, slots, i, p, Fill(env, ranked, slots))
    ensures Chosen(env, ranked, p, i, Fill(env, ranked, slots)[i], k)
    ensures IsPlaceholder(slots[i].code) && !IsPlaceholder(Fill(env, ranked, slots)[i].code)
  {
    hide IsPlaceholder, NormalizeCode, Ready, Fits, FirstFit, Place, Fill, Grows;
    p := MomentOfSlot(env, ranked, slots, i);
    k := FirstFitIsFirst(env, ranked, p, i);
    if k < |ranked| {
      ChosenIsKnown(env, ranked, p, i);
      PlacedCode(env, p[i], NormalizeCode(ranked[k]));
    }
  }

  // Every slot that was filled is valid in the finished plan: its subject is an undergraduate
  // subject from the ranked list, offered in that session and of the level the slot asked for;
  // its prerequisites hold from completed, planned and strictly earlier rows of the finished
  // plan, and its corequisites from rows of the same or an earlier session.
  lemma FilledPlanIsValid(env: Setting, ranked: seq<string>, slots: seq<PlanSlot>, i: nat)
    requires Ready(env) && i < |slots| && Fill(env, ranked, slots)[i] != slots[i]
    ensures var filled := Fill(env, ranked, slots);
      var code := filled[i].code;
      && code in env.catalog
      && (exists k :: 0 <= k < |ranked| && NormalizeCode(ranked[k]) == code)
      && filled[i] == Place(env, slots[i], code)
      && var s := env.catalog[code];
      && PoolLevel(s) in ALLOWED_LEVELS
      && (SlotLevel(slots[i]).Some? ==> LevelValue(s) == SlotLevel(slots[i]))
      && OfferedInSession(s, env.campus, slots[i].session)
      && Satisfied(s.prerequisites, env.catalog, Held(env, filled, i, false), env.rules.table)
      && Satisfied(s.corequisites, env.catalog, Held(env, filled, i, true), env.rules.table)
  {
    hide IsPlaceholder, NormalizeCode, Fill, Held, Scheduled, SlotLevel, PoolLevel, LevelValue, OfferedInSession, Satisfied, Place,
      ExclusionBlocked, ReplacementBlocked, WithinCap, Grows, FillAt, AllAnswer, SubjectCp;
    var filled := Fill(env, ranked, slots);
    var p, k := FilledWasChosen(env, ranked, slots, i);
    PriorIsFinal(env, ranked, slots, i, p, filled);
    var s := env.catalog[filled[i].code];
    assert NormalizeCode(ranked[k]) == filled[i].code;
    SatisfiedGrows(s.corequisites, env.catalog, Held(env, p, i, true), Held(env, filled, i, true), env.rules.table);
  }

  // A row that was on the plan when slot i had its turn.
  predicate SeenAtTurn(slots: seq<PlanSlot>, filled: seq<PlanSlot>, i: nat, j: nat)
    requires i < |slots| == |filled| && j < |slots|
  {
    !IsPlaceholder(slots[j].code) || (Before(slots, j, i) && !IsPlaceholder(filled[j].code))
  }

  // What slot i was checked against, read off the finished plan.
  function Barring(env: Setting, slots: seq<PlanSlot>, filled: seq<PlanSlot>, i: nat): set<string>
    requires i < |slots| == |filled|
  {
    NormalizeSet(env.completed + env.planned)
    + set j: nat | j < |slots| && SeenAtTurn(slots, filled, i, j) :: NormalizeCode(filled[j].code)
  }

  lemma BarringWasScheduled(env: Setting, ranked: seq<string>, slots: seq<PlanSlot>, i: nat, p: seq<PlanSlot>)
    requires Ready(env) && i < |slots| && Moment(env, ranked, slots, i, p, Fill(env, ranked, slots))
    ensures Barring(env, slots, Fill(env, ranked, slots), i) <= Scheduled(env, p)
  {
    hide IsPlaceholder, NormalizeCode, NormalizeSet, Fill, FillAt, Ready, Before;
    var filled := Fill(env, ranked, slots);
    PriorIsFinal(env, ranked, slots, i, p, filled);
    forall j: nat | j < |slots| && SeenAtTurn(slots, filled, i, j)
      ensures p[j].code == filled[j].code && !IsPlaceholder(p[j].code)
    {
    }
  }

  // A filled slot's subject is barred by nothing that is completed, planned, fixed on the plan or
  // placed before it: no such subject or equivalent of it is excluded, and the subject replaces none.
  lemma ExclusionsRespected(env: Setting, ranked: seq<string>, slots: seq<PlanSlot>, i: nat)
    requires Ready(env) && i < |slots| && Fill(env, ranked, slots)[i] != slots[i]
    ensures var filled := Fill(env, ranked, slots);
      && filled[i].code in env.catalog
      && !ExclusionBlocked(env.catalog[filled[i].code], Barring(env, slots, filled, i), env.rules)
      && !ReplacementBlocked(filled[i].code, Barring(env, slots, filled, i), env.rules)
  {
    hide IsPlaceholder, NormalizeCode, Fill, Held, SlotLevel, PoolLevel, LevelValue, OfferedInSession, Satisfied, Place, Ready,
      ExclusionBlocked, ReplacementBlocked, WithinCap, Moment, Scheduled, Barring;
    var filled := Fill(env, ranked, slots);
    var p, k := FilledWasChosen(env, ranked, slots, i);
    BarringWasScheduled(env, ranked, slots, i, p);
    var code := filled[i].code;
    var before := Barring(env, slots, filled, i);
    if ExclusionBlocked(env.catalog[code], before, env.rules) {
      ExclusionGrows(env.catalog[code], before, Scheduled(env, p), env.rules);
    }
    if ReplacementBlocked(code, before, env.rules) {
      ReplacementGrows(code, before, Scheduled(env, p), env.rules);
    }
  }

  // ---------------------------------------------------------------- exclusions of the finished plan

  // Subject a excludes b or an equivalent of b.
  predicate Excludes(env: Setting, a: string, b: string) {
    a in env.catalog && ExclusionBlocked(env.catalog[a], {b}, env.rules)
  }

  // Of two subjects of the catalogue either both exclude each other or neither does.
  predicate MutualExclusions(env: Setting) {
    forall a, b :: a in env.catalog && b in env.catalog ==> (Excludes(env, a, b) <==> Excludes(env, b, a))
  }

  lemma SeenIsNotExcluded(env: Setting, ranked: seq<string>, slots: seq<PlanSlot>, i: nat, j: nat)
    requires Ready(env) && i < |slots| && j < |slots| && Fill(env, ranked, slots)[i] != slots[i]
    requires SeenAtTurn(slots, Fill(env, ranked, slots), i, j)
    ensures var filled := Fill(env, ranked, slots);
      filled[i].code in env.catalog && !Excludes(env, filled[i].code, NormalizeCode(filled[j].code))
  {
    hide IsPlaceholder, NormalizeCode, Fill, Ready, ExclusionBlocked, ReplacementBlocked, SeenAtTurn, NormalizeSet;
    var filled := Fill(env, ranked, slots);
    ExclusionsRespected(env, ranked, slots, i);
    var code := NormalizeCode(filled[j].code);
    assert {code} <= Barring(env, slots, filled, i);
    if ExclusionBlocked(env.catalog[filled[i].code], {code}, env.rules) {
      ExclusionGrows(env.catalog[filled[i].code], {code}, Barring(env, slots, filled, i), env.rules);
    }
  }

  // With mutual exclusions no filled slot and other row of the finished plan exclude each other.
  lemma NoRowExcludesAnother(env: Setting, ranked: seq<string>, slots: seq<PlanSlot>, i: nat, j: nat)
    requires Ready(env) && MutualExclusions(env) && i < |slots| && j < |slots| && i != j
    requires Fill(env, ranked, slots)[i] != slots[i] && !IsPlaceholder(Fill(env, ranked, slots)[j].code)
    ensures var filled := Fill(env, ranked, slots);
      && !Excludes(env, filled[i].code, NormalizeCode(filled[j].code))
      && !Excludes(env, NormalizeCode(filled[j].code), filled[i].code)
  {
    hide IsPlaceholder, NormalizeCode, Fill, Ready, ExclusionBlocked, Before;
    var filled := Fill(env, ranked, slots);
    BeforeIsStrict(slots, i, j, i);
    if SeenAtTurn(slots, filled, i, j) {
      SeenIsNotExcluded(env, ranked, slots, i, j);
    } else {
      assert filled[j] != slots[j];
      var p, k := FilledWasChosen(env, ranked, slots, i);
      assert !IsPlaceholder(filled[i].code) && SeenAtTurn(slots, filled, j, i);
      SeenIsNotExcluded(env, ranked, slots, j, i);
      FilledCodeIsKey(env, ranked, slots, i);
      FilledCodeIsKey(env, ranked, slots, j);
    }
  }

  lemma FilledCodeIsKey(env: Setting, ranked: seq<string>, slots: seq<PlanSlot>, i: nat)
    requires Ready(env) && i < |slots| && Fill(env, ranked, slots)[i] != slots[i]
    ensures var code := Fill(env, ranked, slots)[i].code; code in env.catalog && NormalizeCode(code) == code
  {
    hide NormalizeCode, Fill, Judgeable, IsPlaceholder, Moment, Fits, Place;
    var p, k := FilledWasChosen(env, ranked, slots, i);
  }

  // ---------------------------------------------------------------- conservation

  // Filling keeps every row's time and every row that was no placeholder; a slot with no match is unchanged.
  lemma PlanIsConserved(env: Setting, ranked: seq<string>, slots: seq<PlanSlot>)
    requires Ready(env)
    ensures Grows(slots, Fill(env, ranked, slots))
  {
    FillFromGrows(env, ranked, slots, Order(slots));
  }

  lemma PlacedIsNew(env: Setting, ranked: seq<string>, slots: seq<PlanSlot>, i: nat, p: seq<PlanSlot>, k: nat)
    requires i < |p| && Moment(env, ranked, slots, i, p, Fill(env, ranked, slots))
    requires Chosen(env, ranked, p, i, Fill(env, ranked, slots)[i], k)
    ensures Fill(env, ranked, slots)[i].code !in Scheduled(env, p)
  {
    hide IsPlaceholder, NormalizeCode, Fill, Scheduled, RulesAllow, SlotLevel, PoolLevel, LevelValue, OfferedInSession, Place, Moment;
  }

  // Placed codes are new: not completed, not planned, and different from the code of every other row.
  lemma PlacedCodesAreDistinct(env: Setting, ranked: seq<string>, slots: seq<PlanSlot>, i: nat, j: nat)
    requires Ready(env) && i < |slots| && j < |slots| && i != j
    requires Fill(env, ranked, slots)[i] != slots[i] && !IsPlaceholder(Fill(env, ranked, slots)[j].code)
    ensures Fill(env, ranked, slots)[i].code !in NormalizeSet(env.completed + env.planned)
    ensures Fill(env, ranked, slots)[i].code != NormalizeCode(Fill(env, ranked, slots)[j].code)
  {
    hide IsPlaceholder, NormalizeCode, Fill, Chosen, Ready, Before, NormalizeSet, FillAt;
    var filled := Fill(env, ranked, slots);
    var p, k := FilledWasChosen(env, ranked, slots, i);
    PlacedIsNew(env, ranked, slots, i, p, k);
    assert NormalizeSet(env.completed + env.planned) <= Scheduled(env, p);
    BeforeIsStrict(slots, i, j, i);
    if Before(slots, j, i) || filled[j] == slots[j] {
      OnTheList(env, p, j, filled[j]) by {
        PriorIsFinal(env, ranked, slots, i, p, filled);
      }
    } else {
      var q, m := FilledWasChosen(env, ranked, slots, j);
      PlacedIsNew(env, ranked, slots, j, q, m);
      PlacedIsNormal(env, ranked, q, j, filled[j], m);
      PlacedIsNormal(env, ranked, p, i, filled[i], k);
      OnTheList(env, q, i, filled[i]);
    }
  }

  lemma OnTheList(env: Setting, p: seq<PlanSlot>, j: nat, row: PlanSlot)
    requires j < |p| && p[j] == row && !IsPlaceholder(row.code)
    ensures NormalizeCode(row.code) in Scheduled(env, p)
  {
    hide IsPlaceholder, NormalizeCode, NormalizeSet;
  }

  lemma PlacedIsNormal(env: Setting, ranked: seq<string>, p: seq<PlanSlot>, i: nat, row: PlanSlot, k: nat)
    requires i < |p| && Chosen(env, ranked, p, i, row, k)
    ensures NormalizeCode(row.code) == row.code
  {
    hide NormalizeCode, Fits, Place;
    NormalizeTwice(ranked[k]);
  }

  // ---------------------------------------------------------------- the 100-level cap

  function Max(a: int, b: int): int {
    if a < b then b else a
  }

  lemma FillAtKeepsCap(env: Setting, ranked: seq<string>, slots: seq<PlanSlot>, i: nat, bound: int)
    requires Ready(env) && i < |slots| && env.rules.maxCp100 <= bound
    requires Total100(env.catalog, Scheduled(env, slots)) <= bound
    ensures Total100(env.catalog, Scheduled(env, FillAt(env, ranked, slots, i))) <= bound
  {
    hide IsPlaceholder, NormalizeCode, FirstFit, Place, Scheduled, SlotLevel, PoolLevel, LevelValue, OfferedInSession, Satisfied,
      ExclusionBlocked, ReplacementBlocked, Held, Total100, Is100Level;
    if IsPlaceholder(slots[i].code) && FirstFit(env, ranked, slots, i).Some? {
      var k := FirstFitIsFirst(env, ranked, slots, i);
      var norm := FirstFit(env, ranked, slots, i).value;
      ChosenIsKnown(env, ranked, slots, i);
      ScheduledGrowsByOne(env, slots, i, norm);
      PlacedCode(env, slots[i], norm);
      if !Is100Level(env.catalog[norm]) {
        OtherLevelsAddNothing(env.catalog, Scheduled(env, slots), norm);
      }
    }
  }

  lemma OtherLevelsAddNothing(catalog: Catalog, held: set<string>, norm: string)
    requires norm in catalog && NormalizeCode(norm) == norm && !Is100Level(catalog[norm]) && norm !in held
    ensures Total100(catalog, held + {norm}) == Total100(catalog, held)
  {
    hide NormalizeCode;
    SumInsert(held, Cp100(catalog), norm);
  }

  lemma {:induction false} FillFromKeepsCap(env: Setting, ranked: seq<string>, slots: seq<PlanSlot>, order: seq<nat>, bound: int)
    requires Ready(env) && Indices(slots, order) && env.rules.maxCp100 <= bound
    requires Total100(env.catalog, Scheduled(env, slots)) <= bound
    ensures Total100(env.catalog, Scheduled(env, FillFrom(env, ranked, slots, order))) <= bound
    decreases |order|
  {
    hide FillAt, Scheduled, Total100, Ready;
    if order != [] {
      FillAtKeepsCap(env, ranked, slots, order[0], bound);
      FillFromKeepsCap(env, ranked, FillAt(env, ranked, slots, order[0]), order[1..], bound);
    }
  }

  // Filling never takes the 100-level total past the cap, unless it was already there.
  lemma CapIsKept(env: Setting, ranked: seq<string>, slots: seq<PlanSlot>)
    requires Ready(env)
    ensures Total100(env.catalog, Scheduled(env, Fill(env, ranked, slots))) <=
      Max(env.rules.maxCp100, Total100(env.catalog, Scheduled(env, slots)))
  {
    hide FillFrom, Scheduled, Total100, Ready, Order;
    FillFromKeepsCap(env, ranked, slots, Order(slots), Max(env.rules.maxCp100, Total100(env.catalog, Scheduled(env, slots))));
  }

  // ---------------------------------------------------------------- maximality

  // Slot j comes later in the walk, in the same session as slot i, and was filled.
  predicate FilledLater(slots: seq<PlanSlot>, filled: seq<PlanSlot>, i: nat, j: nat)
    requires i < |slots| == |filled| && j < |slots|
  {
    Before(slots, i, j) && SameTime(slots[j], slots[i]) && filled[j] != slots[j]
  }

  // If a later rerun could still use slot i, then for a subject with corequisites, and because
  // of a slot of the same session that was filled after slot i had its turn.
  lemma LeftoverNeedsCorequisite(env: Setting, ranked: seq<string>, slots: seq<PlanSlot>, i: nat, k: nat)
    requires Ready(env) && i < |slots| && k < |ranked|
    requires IsPlaceholder(Fill(env, ranked, slots)[i].code)
    requires Fits(env, Fill(env, ranked, slots), i, ranked[k])
    ensures env.catalog[NormalizeCode(ranked[k])].corequisites != []
    ensures exists j :: 0 <= j < |slots| && FilledLater(slots, Fill(env, ranked, slots), i, j)
  {
    hide IsPlaceholder, NormalizeCode, Fill, Held, Scheduled, SlotLevel, PoolLevel, LevelValue, OfferedInSession, Satisfied, Place,
      ExclusionBlocked, ReplacementBlocked, WithinCap, FirstFit, Grows, FilledLater, Ready;
    var filled := Fill(env, ranked, slots);
    var p := MomentOfSlot(env, ranked, slots, i);
    PriorIsFinal(env, ranked, slots, i, p, filled);
    NothingFittedLeftover(env, ranked, slots, i, p, filled);
    assert !Fits(env, p, i, ranked[k]);
    var norm := NormalizeCode(ranked[k]);
    var s := env.catalog[norm];
    ChecksOnlyTighten(env, s, norm, Scheduled(env, p), Scheduled(env, filled));
    assert !Satisfied(s.corequisites, env.catalog, Held(env, p, i, true), env.rules.table);
    if s.corequisites == [] {
      NoTextsSatisfied(env.catalog, Held(env, p, i, true), env.rules.table);
    }
    assert Held(env, p, i, true) != Held(env, filled, i, true);
    SomethingFilledLater(env, ranked, slots, i, p, filled);
  }

  lemma NoTextsSatisfied(catalog: Catalog, held: set<string>, table: seq<Equivalence>)
    ensures Satisfied([], catalog, held, table)
  {
  }

  lemma NothingFittedLeftover(env: Setting, ranked: seq<string>, slots: seq<PlanSlot>, i: nat, p: seq<PlanSlot>, done: seq<PlanSlot>)
    requires Ready(env) && Moment(env, ranked, slots, i, p, done) && IsPlaceholder(done[i].code)
    ensures forall k :: 0 <= k < |ranked| ==> !Fits(env, p, i, ranked[k])
    ensures done[i] == p[i] == slots[i]
  {
    hide IsPlaceholder, NormalizeCode, Fits, FirstFit, Place, Ready, Before, Grows;
    FillAtGrows(env, ranked, p, i);
    assert Grows(slots, p) && IsPlaceholder(slots[i].code) by { LeftoverWasPlaceholder(env, ranked, slots, i, p, done); }
    var k := FirstFitIsFirst(env, ranked, p, i);
    if k < |ranked| {
      ChosenIsKnown(env, ranked, p, i);
      PlacedCode(env, p[i], FirstFit(env, ranked, p, i).value);
      assert false;
    }
  }

  lemma LeftoverWasPlaceholder(env: Setting, ranked: seq<string>, slots: seq<PlanSlot>, i: nat, p: seq<PlanSlot>, done: seq<PlanSlot>)
    requires Ready(env) && Moment(env, ranked, slots, i, p, done) && IsPlaceholder(done[i].code)
    ensures IsPlaceholder(slots[i].code)
  {
    hide IsPlaceholder, FillAt, Before, Ready;
    FillAtGrows(env, ranked, p, i);
    GrowsTransitive(p, FillAt(env, ranked, p, i), done);
  }

  // Exclusions, replacements and the cap that a longer plan passes, a shorter plan passes.
  lemma ChecksOnlyTighten(env: Setting, s: Subject, norm: string, a: set<string>, b: set<string>)
    requires Ready(env) && a <= b
    ensures !ExclusionBlocked(s, b, env.rules) ==> !ExclusionBlocked(s, a, env.rules)
    ensures !ReplacementBlocked(norm, b, env.rules) ==> !ReplacementBlocked(norm, a, env.rules)
    ensures WithinCap(s, norm, b, env.catalog, env.rules) ==> WithinCap(s, norm, a, env.catalog, env.rules)
  {
    hide ExclusionBlocked, ReplacementBlocked, Total100, NormalizeCode, IsPlaceholder, Is100Level;
    if ExclusionBlocked(s, a, env.rules) {
      ExclusionGrows(s, a, b, env.rules);
    }
    if ReplacementBlocked(norm, a, env.rules) {
      ReplacementGrows(norm, a, b, env.rules);
    }
    Total100Grows(env.catalog, a + {NormalizeCode(norm)}, b + {NormalizeCode(norm)});
  }

  lemma SomethingFilledLater(env: Setting, ranked: seq<string>, slots: seq<PlanSlot>, i: nat, p: seq<PlanSlot>, done: seq<PlanSlot>)
    requires Ready(env) && Moment(env, ranked, slots, i, p, done) && Grows(p, done)
    requires Held(env, p, i, true) != Held(env, done, i, true)
    ensures exists j :: 0 <= j < |slots| && FilledLater(slots, done, i, j)
  {
    hide IsPlaceholder, NormalizeCode, NormalizeSet, FillAt, SessionRank, Ready;
    HeldGrows(env, p, done, i, true);
    TimesStay(slots, p);
    TimesStay(p, done);
    var code :| code in Held(env, done, i, true) && code !in Held(env, p, i, true);
    var j: nat :| j < |done| && CountsAt(done, j, i, true) && NormalizeCode(done[j].code) == code;
    assert done[j] != p[j];
    assert FilledLater(slots, done, i, j);
  }

  // ---------------------------------------------------------------- idempotence

  // A caller can check this before filling: either no ranked subject has corequisites, or no
  // session has two open slots.
  predicate Steady(env: Setting, ranked: seq<string>, slots: seq<PlanSlot>) {
    || (forall k :: 0 <= k < |ranked| && NormalizeCode(ranked[k]) in env.catalog ==>
          env.catalog[NormalizeCode(ranked[k])].corequisites == [])
    || OneOpenPerSession(slots)
  }

  predicate OneOpenPerSession(slots: seq<PlanSlot>) {
    forall i, j :: 0 <= i < |slots| && 0 <= j < |slots| && i != j && IsPlaceholder(slots[i].code) && IsPlaceholder(slots[j].code) ==>
      !SameTime(slots[j], slots[i])
  }

  lemma NoneFilledLater(slots: seq<PlanSlot>, filled: seq<PlanSlot>, i: nat)
    requires OneOpenPerSession(slots) && Grows(slots, filled) && i < |slots| && IsPlaceholder(slots[i].code)
    ensures forall j :: 0 <= j < |slots| ==> !FilledLater(slots, filled, i, j)
  {
    hide IsPlaceholder, SameTime, Earlier;
    NotBeforeItself(slots, i);
  }

  lemma NothingLeftFits(env: Setting, ranked: seq<string>, slots: seq<PlanSlot>, i: nat)
    requires Ready(env) && Steady(env, ranked, slots) && i < |slots|
    requires IsPlaceholder(Fill(env, ranked, slots)[i].code)
    ensures forall k :: 0 <= k < |ranked| ==> !Fits(env, Fill(env, ranked, slots), i, ranked[k])
  {
    hide IsPlaceholder, NormalizeCode, Fill, Ready, SameTime;
    var filled := Fill(env, ranked, slots);
    PlanIsConserved(env, ranked, slots);
    assert IsPlaceholder(slots[i].code);
    if OneOpenPerSession(slots) {
      NoneFilledLater(slots, filled, i);
    }
    hide OneOpenPerSession, FilledLater, Grows;
    forall k | 0 <= k < |ranked| ensures !Fits(env, filled, i, ranked[k]) {
      if Fits(env, filled, i, ranked[k]) {
        LeftoverNeedsCorequisite(env, ranked, slots, i, k);
        assert false;
      }
    }
  }

  lemma {:induction false} NothingChanges(env: Setting, ranked: seq<string>, slots: seq<PlanSlot>, order: seq<nat>)
    requires Indices(slots, order)
    requires forall i :: 0 <= i < |slots| && IsPlaceholder(slots[i].code) ==> FirstFit(env, ranked, slots, i).None?
    ensures FillFrom(env, ranked, slots, order) == slots
    decreases |order|
  {
    hide IsPlaceholder, FirstFit, Place;
    if order != [] {
      NothingChanges(env, ranked, slots, order[1..]);
    }
  }

  // A plan that only grew and came back did not change.
  lemma GrowsBack(a: seq<PlanSlot>, p: seq<PlanSlot>)
    requires Grows(a, p) && Grows(p, a)
    ensures p == a
  {
    hide IsPlaceholder;
  }

  // If filling a plan changes nothing, none of its open slots fits a ranked subject.
  lemma UnchangedFitsNothing(env: Setting, ranked: seq<string>, slots: seq<PlanSlot>, i: nat, k: nat)
    requires Ready(env) && i < |slots| && k < |ranked| && IsPlaceholder(slots[i].code)
    requires Fill(env, ranked, slots) == slots
    ensures !Fits(env, slots, i, ranked[k])
  {
    hide IsPlaceholder, Fits, FillAt, Fill, Ready, Before, FilledFrom;
    var p := MomentOfSlot(env, ranked, slots, i);
    FillAtGrows(env, ranked, p, i);
    GrowsTransitive(p, FillAt(env, ranked, p, i), slots);
    GrowsBack(slots, p);
    NothingFittedLeftover(env, ranked, slots, i, p, slots);
  }

  // An open slot of the finished plan passes every check for a ranked subject there.
  predicate FitsAfterAll(env: Setting, ranked: seq<string>, filled: seq<PlanSlot>, i: nat, k: nat)
    requires i < |filled| && k < |ranked|
  {
    IsPlaceholder(filled[i].code) && Fits(env, filled, i, ranked[k])
  }

  // A second run, from the same ranking, changes nothing exactly when no open slot of the finished plan
  // fits a ranked subject after all; by `LeftoverNeedsCorequisite` only one with corequisites can.
  lemma FillingIsIdempotentIff(env: Setting, ranked: seq<string>, slots: seq<PlanSlot>)
    requires Ready(env)
    ensures var filled := Fill(env, ranked, slots);
      Fill(env, ranked, filled) == filled <==>
        forall i, k :: 0 <= i < |filled| && 0 <= k < |ranked| ==> !FitsAfterAll(env, ranked, filled, i, k)
  {
    hide IsPlaceholder, FirstFit, Fits, FillFrom, Ready;
    var filled := Fill(env, ranked, slots);
    if Fill(env, ranked, filled) == filled {
      forall i, k | 0 <= i < |filled| && 0 <= k < |ranked| ensures !FitsAfterAll(env, ranked, filled, i, k) {
        if IsPlaceholder(filled[i].code) {
          UnchangedFitsNothing(env, ranked, filled, i, k);
        }
      }
    } else if forall i, k :: 0 <= i < |filled| && 0 <= k < |ranked| ==> !FitsAfterAll(env, ranked, filled, i, k) {
      NothingMore(env, ranked, filled);
    }
  }

  lemma NothingMore(env: Setting, ranked: seq<string>, filled: seq<PlanSlot>)
    requires forall i, k :: 0 <= i < |filled| && 0 <= k < |ranked| ==> !FitsAfterAll(env, ranked, filled, i, k)
    ensures Fill(env, ranked, filled) == filled
  {
    hide IsPlaceholder, FirstFit, Fits, FillFrom;
    forall i | 0 <= i < |filled| && IsPlaceholder(filled[i].code)
      ensures FirstFit(env, ranked, filled, i).None?
    {
      forall k | 0 <= k < |ranked| ensures !Fits(env, filled, i, ranked[k]) {
        assert !FitsAfterAll(env, ranked, filled, i, k);
      }
      var k := FirstFitIsFirst(env, ranked, filled, i);
    }
    NothingChanges(env, ranked, filled, Order(filled));
  }

  // Filling a filled plan again, from the same steady ranking, changes nothing.
  lemma FillingIsIdempotent(env: Setting, ranked: seq<string>, slots: seq<PlanSlot>)
    requires Ready(env) && Steady(env, ranked, slots)
    ensures Fill(env, ranked, Fill(env, ranked, slots)) == Fill(env, ranked, slots)
  {
    hide IsPlaceholder, Fits, Fill, Steady, Ready;
    var filled := Fill(env, ranked, slots);
    forall i, k | 0 <= i < |filled| && 0 <= k < |ranked| ensures !FitsAfterAll(env, ranked, filled, i, k) {
      if IsPlaceholder(filled[i].code) {
        NothingLeftFits(env, ranked, slots, i);
      }
    }
    NothingMore(env, ranked, filled);
  }
}
