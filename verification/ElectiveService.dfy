/**
 Filling the elective placeholders of a study plan: `fill_elective_slots` of
 app/services/elective_service.py and the steps it is made of.

 The plan changes under the walk; every check of a slot sees the plan as it stands.
 */
module ElectiveService {
  import opened Text
  import opened PrerequisiteParser
  import opened RequirementLeaves
  import opened Catalogue
  import opened Eligibility
  import opened PlusWords

  // One row of a study plan.
  datatype PlanSlot = PlanSlot(year: int, session: string, code: string, cp: int, name: string)

  // What stays fixed while a plan is filled.
  datatype Setting = Setting(
    catalog: Catalog,
    completed: set<string>,
    planned: set<string>,
    campus: string,
    rules: Rules)

  // ---------------------------------------------------------------- rows

  // `^(?:elective|tbd)\b`, letter case ignored.
  predicate IsPlaceholder(code: string) {
    WordHere(Trim(code), "elective") || WordHere(Trim(code), "tbd")
  }

  function SessionRank(session: string): nat {
    var s := Lower(Trim(session));
    if s == "autumn" then 0 else if s == "spring" then 1 else if s == "summer" then 2 else 9
  }

  predicate Earlier(a: PlanSlot, b: PlanSlot) {
    a.year < b.year || (a.year == b.year && SessionRank(a.session) < SessionRank(b.session))
  }

  predicate SameTime(a: PlanSlot, b: PlanSlot) {
    a.year == b.year && SessionRank(a.session) == SessionRank(b.session)
  }

  // `(100|200|300)\s*-?\s*(level|lv)\b` at the start of s.
  function LevelWordAt(s: string): Option<int> {
    if |s| >= 3 && '1' <= s[0] <= '3' && s[1] == '0' && s[2] == '0' then
      var a := 3 + SpaceRun(s[3..]);
      var b := if a < |s| && s[a] == '-' then a + 1 else a;
      var c := b + SpaceRun(s[b..]);
      if WordHere(s[c..], "level") || WordHere(s[c..], "lv") then Some(100 * DigitValue(s[0])) else None
    else None
  }

  function FindLevelWord(inWord: bool, s: string): Option<int>
    decreases |s|
  {
    if s == "" then None
    else if !inWord && LevelWordAt(s).Some? then LevelWordAt(s)
    else FindLevelWord(IsWord(s[0]), s[1..])
  }

  // The level a placeholder asks for.
  function SlotLevel(slot: PlanSlot): Option<int> {
    FindLevelWord(false, slot.code + " " + slot.name)
  }

  // ---------------------------------------------------------------- calendar order

  predicate Before(slots: seq<PlanSlot>, i: nat, j: nat)
    requires i < |slots| && j < |slots|
  {
    Earlier(slots[i], slots[j]) || (SameTime(slots[i], slots[j]) && i < j)
  }

  predicate Indices(slots: seq<PlanSlot>, order: seq<nat>) {
    forall k :: 0 <= k < |order| ==> order[k] < |slots|
  }

  function Insert(slots: seq<PlanSlot>, i: nat, order: seq<nat>): (r: seq<nat>)
    requires i < |slots| && Indices(slots, order)
    ensures Indices(slots, r) && |r| == |order| + 1
  {
    if order == [] then [i]
    else if Before(slots, i, order[0]) then [i] + order
    else [order[0]] + Insert(slots, i, order[1..])
  }

  function OrderOf(slots: seq<PlanSlot>, n: nat): (r: seq<nat>)
    requires n <= |slots|
    ensures Indices(slots, r)
  {
    if n == 0 then [] else Insert(slots, n - 1, OrderOf(slots, n - 1))
  }

  // `sorted(range(len(filled)), key=(when, index))`.
  function Order(slots: seq<PlanSlot>): (r: seq<nat>)
    ensures Indices(slots, r)
  {
    OrderOf(slots, |slots|)
  }

  // ---------------------------------------------------------------- what a slot can count on

  predicate CountsAt(slots: seq<PlanSlot>, k: nat, i: nat, sameSession: bool)
    requires k < |slots| && i < |slots|
  {
    && k != i
    && !IsPlaceholder(slots[k].code)
    && (Earlier(slots[k], slots[i]) || (sameSession && SameTime(slots[k], slots[i])))
  }

  function Held(env: Setting, slots: seq<PlanSlot>, i: nat, sameSession: bool): set<string>
    requires i < |slots|
  {
    NormalizeSet(env.completed + env.planned)
    + set k: nat | k < |slots| && CountsAt(slots, k, i, sameSession) :: NormalizeCode(slots[k].code)
  }

  method HeldAt(env: Setting, slots: seq<PlanSlot>, i: nat, sameSession: bool) returns (held: set<string>)
    requires i < |slots|
    ensures held == Held(env, slots, i, sameSession)
  {
    hide IsPlaceholder, NormalizeCode, NormalizeSet, Earlier, SameTime;
    held := NormalizeSet(env.completed + env.planned);
    for position := 0 to |slots|
      invariant held == NormalizeSet(env.completed + env.planned)
        + set k: nat | k < position && CountsAt(slots, k, i, sameSession) :: NormalizeCode(slots[k].code)
    {
      var slot := slots[position];
      if position == i || IsPlaceholder(slot.code) {
        continue;
      }
      if Earlier(slot, slots[i]) || (sameSession && SameTime(slot, slots[i])) {
        held := held + {NormalizeCode(slot.code)};
      }
    }
  }

  // Everything the student has or will have: completed, planned and on the plan.
  function Scheduled(env: Setting, slots: seq<PlanSlot>): set<string> {
    NormalizeSet(env.completed + env.planned)
    + set k: nat | k < |slots| && !IsPlaceholder(slots[k].code) :: NormalizeCode(slots[k].code)
  }

  method ScheduledCodes(env: Setting, slots: seq<PlanSlot>) returns (codes: set<string>)
    ensures codes == Scheduled(env, slots)
  {
    hide IsPlaceholder, NormalizeCode, NormalizeSet;
    codes := NormalizeSet(env.completed + env.planned);
    for position := 0 to |slots|
      invariant codes == NormalizeSet(env.completed + env.planned)
        + set k: nat | k < position && !IsPlaceholder(slots[k].code) :: NormalizeCode(slots[k].code)
    {
      if !IsPlaceholder(slots[position].code) {
        codes := codes + {NormalizeCode(slots[position].code)};
      }
    }
  }

  // ---------------------------------------------------------------- first fit

  // A ranked code passes every check of slot i on the plan as it stands.
  predicate Fits(env: Setting, slots: seq<PlanSlot>, i: nat, code: string)
    requires i < |slots|
  {
    var norm := NormalizeCode(code);
    && norm in env.catalog
    && var s := env.catalog[norm];
    && PoolLevel(s) in ALLOWED_LEVELS
    && norm !in Scheduled(env, slots)
    && (SlotLevel(slots[i]).Some? ==> LevelValue(s) == SlotLevel(slots[i]))
    && OfferedInSession(s, env.campus, slots[i].session)
    && RulesAllow(s, norm, Scheduled(env, slots), Held(env, slots, i, false), Held(env, slots, i, true), env.catalog, env.rules)
  }

  function FirstFit(env: Setting, ranked: seq<string>, slots: seq<PlanSlot>, i: nat): Option<string>
    requires i < |slots|
  {
    if ranked == [] then None
    else if Fits(env, slots, i, ranked[0]) then Some(NormalizeCode(ranked[0]))
    else FirstFit(env, ranked[1..], slots, i)
  }

  // Rank is a preference: the chosen subject fits, and every higher-ranked one is rejected by the slot.
  lemma {:induction false} FirstFitIsFirst(env: Setting, ranked: seq<string>, slots: seq<PlanSlot>, i: nat) returns (k: nat)
    requires i < |slots|
    ensures k <= |ranked|
    ensures forall j :: 0 <= j < k ==> !Fits(env, slots, i, ranked[j])
    ensures k == |ranked| <==> FirstFit(env, ranked, slots, i).None?
    ensures k < |ranked| ==>
      Fits(env, slots, i, ranked[k]) && FirstFit(env, ranked, slots, i) == Some(NormalizeCode(ranked[k]))
  {
    hide Fits, NormalizeCode;
    if ranked == [] || Fits(env, slots, i, ranked[0]) {
      k := 0;
    } else {
      var m := FirstFitIsFirst(env, ranked[1..], slots, i);
      k := m + 1;
      assert forall j :: 0 < j < |ranked| ==> ranked[j] == ranked[1..][j - 1];
    }
  }

  // The ranked list is walked once and the first subject that passes wins.
  method FindFirstFit(env: Setting, ranked: seq<string>, slots: seq<PlanSlot>, i: nat, used: set<string>)
    returns (chosen: Option<string>)
    requires i < |slots| && used == Scheduled(env, slots)
    ensures chosen == FirstFit(env, ranked, slots, i)
  {
    hide SlotLevel, OfferedInSession, RulesAllow, Held, Scheduled, PoolLevel, LevelValue, NormalizeCode;
    var wanted := SlotLevel(slots[i]);
    var prior := HeldAt(env, slots, i, false);
    var through := HeldAt(env, slots, i, true);
    var scheduled := ScheduledCodes(env, slots);
    for k := 0 to |ranked|
      invariant FirstFit(env, ranked[k..], slots, i) == FirstFit(env, ranked, slots, i)
    {
      assert ranked[k..][1..] == ranked[k + 1..];
      var norm := NormalizeCode(ranked[k]);
      if norm !in env.catalog {
        continue;
      }
      var s := env.catalog[norm];
      if PoolLevel(s) !in ALLOWED_LEVELS {
        continue;
      }
      if norm in used {
        continue;
      }
      if wanted.Some? && LevelValue(s) != wanted {
        continue;
      }
      if !OfferedInSession(s, env.campus, slots[i].session) {
        continue;
      }
      if !RulesAllow(s, norm, scheduled, prior, through, env.catalog, env.rules) {
        continue;
      }
      return Some(norm);
    }
    return None;
  }

  // ---------------------------------------------------------------- filling

  // The row a chosen subject makes of a placeholder.
  function Place(env: Setting, slot: PlanSlot, norm: string): PlanSlot
    requires norm in env.catalog
  {
    var s := env.catalog[norm];
    PlanSlot(
      slot.year,
      slot.session,
      if s.code != "" then s.code else norm,
      SubjectCp(s),
      Trim(if s.title != "" then s.title else if slot.name != "" then slot.name else norm))
  }

  // The catalogue is sound and none of its codes reads as a placeholder.
  ghost predicate Ready(env: Setting) {
    Sound(env.catalog) && forall key :: key in env.catalog ==> !IsPlaceholder(key)
  }

  lemma {:induction false} FirstRecordIsRecord(records: seq<Subject>, code: string)
    requires FirstRecord(records, code).Some?
    ensures FirstRecord(records, code).value in records && NormalizeCode(FirstRecord(records, code).value.code) == code
  {
    hide NormalizeCode;
    if NormalizeCode(records[0].code) != code {
      FirstRecordIsRecord(records[1..], code);
    }
  }

  // Records whose requirement texts are well written and whose codes read as no placeholder make a
  // catalogue that plans can be filled from.
  lemma WellWrittenRecordsAreReady(records: seq<Subject>, completed: set<string>, planned: set<string>, campus: string, rules: Rules)
    requires forall record :: record in records ==> WellWritten(record) && !IsPlaceholder(NormalizeCode(record.code))
    ensures Ready(Setting(Ingested(records), completed, planned, campus, rules))
  {
    hide NormalizeCode, IsPlaceholder, Ingested, FirstRecord, Indexed, AllGuarded, Sound;
    var catalog := Ingested(records);
    IngestedIsIndexed(records);
    forall key | key in catalog ensures WellWritten(catalog[key]) && !IsPlaceholder(key) {
      IngestedKeepsFirst(records, key);
      FirstRecordIsRecord(records, key);
    }
    WellWrittenIsSound(catalog);
  }

  lemma PlacedCode(env: Setting, slot: PlanSlot, norm: string)
    requires Ready(env) && norm in env.catalog
    ensures Place(env, slot, norm).code == norm && NormalizeCode(norm) == norm && !IsPlaceholder(norm)
  {
    hide IsPlaceholder, NormalizeCode, Judgeable;
  }

  // One slot's turn.
  function FillAt(env: Setting, ranked: seq<string>, slots: seq<PlanSlot>, i: nat): (r: seq<PlanSlot>)
    requires i < |slots|
    ensures |r| == |slots|
  {
    if IsPlaceholder(slots[i].code) && FirstFit(env, ranked, slots, i).Some? then
      ChosenIsKnown(env, ranked, slots, i);
      slots[i := Place(env, slots[i], FirstFit(env, ranked, slots, i).value)]
    else slots
  }

  function FillFrom(env: Setting, ranked: seq<string>, slots: seq<PlanSlot>, order: seq<nat>): (r: seq<PlanSlot>)
    requires Indices(slots, order)
    ensures |r| == |slots|
    decreases |order|
  {
    if order == [] then slots else FillFrom(env, ranked, FillAt(env, ranked, slots, order[0]), order[1..])
  }

  function Fill(env: Setting, ranked: seq<string>, slots: seq<PlanSlot>): (r: seq<PlanSlot>)
    ensures |r| == |slots|
  {
    FillFrom(env, ranked, slots, Order(slots))
  }

  // Filling a placeholder adds exactly its new code to what is scheduled.
  lemma ScheduledGrowsByOne(env: Setting, slots: seq<PlanSlot>, i: nat, norm: string)
    requires Ready(env) && i < |slots| && IsPlaceholder(slots[i].code) && norm in env.catalog
    ensures Scheduled(env, slots[i := Place(env, slots[i], norm)]) == Scheduled(env, slots) + {norm}
  {
    hide IsPlaceholder, NormalizeCode, NormalizeSet, Place, Ready;
    PlacedCode(env, slots[i], norm);
    var after := slots[i := Place(env, slots[i], norm)];
    assert after[i].code == norm;
    assert forall k :: 0 <= k < |slots| && k != i ==> after[k] == slots[k];
  }

  method FillElectiveSlots(env: Setting, ranked: seq<string>, slots: seq<PlanSlot>) returns (filled: seq<PlanSlot>)
    requires Ready(env)
    ensures filled == Fill(env, ranked, slots)
  {
    hide IsPlaceholder, NormalizeCode, Place, Scheduled, FirstFit, Ready, Order;
    filled := slots;
    var used := ScheduledCodes(env, slots);
    var order := Order(slots);
    for k := 0 to |order|
      invariant |filled| == |slots|
      invariant used == Scheduled(env, filled)
      invariant FillFrom(env, ranked, filled, order[k..]) == Fill(env, ranked, slots)
    {
      assert order[k..][1..] == order[k + 1..];
      var i := order[k];
      if !IsPlaceholder(filled[i].code) {
        continue;
      }
      var chosen := FindFirstFit(env, ranked, filled, i, used);
      if chosen.None? {
        continue;
      }
      ChosenIsKnown(env, ranked, filled, i);
      ScheduledGrowsByOne(env, filled, i, chosen.value);
      filled := filled[i := Place(env, filled[i], chosen.value)];
      used := used + {chosen.value};
    }
  }

  lemma ChosenIsKnown(env: Setting, ranked: seq<string>, slots: seq<PlanSlot>, i: nat)
    requires i < |slots| && FirstFit(env, ranked, slots, i).Some?
    ensures FirstFit(env, ranked, slots, i).value in env.catalog
  {
    hide FirstFit, Scheduled, RulesAllow, OfferedInSession, SlotLevel, PoolLevel, NormalizeCode;
    var k := FirstFitIsFirst(env, ranked, slots, i);
  }
}
