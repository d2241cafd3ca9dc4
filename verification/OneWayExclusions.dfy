/** Why the finished plan needs mutual exclusions, and concrete settings for the plans that surprise. */
module OneWayExclusions {
  // A subject placed first is not looked at again when a later slot takes a subject that it excludes.

  import opened Text
  import opened Sums
  import opened PrerequisiteParser
  import opened RequirementLeaves
  import opened RequirementEvaluator
  import opened RequirementLaws
  import opened RequirementTrees
  import opened RequirementReading
  import opened PlusWords
  import opened Catalogue
  import opened Eligibility
  import opened ElectiveService
  import opened FilledPlans
  import opened RerunFillsMore

  // `strict` excludes `other`, which excludes nothing; both are free to take, and two slots are open.
  ghost predicate OneWay(env: Setting, strict: string, other: string, slots: seq<PlanSlot>) {
    && Ready(env)
    && env.completed == env.planned == {} && env.rules.table == [] && env.rules.replacementFor == map[]
    && strict != other && strict in env.catalog && other in env.catalog
    && var a := env.catalog[strict];
    && var b := env.catalog[other];
    && a.prerequisites == a.corequisites == [] && a.exclusions == [other]
    && b.prerequisites == b.corequisites == b.exclusions == []
    && PoolLevel(a) in ALLOWED_LEVELS && PoolLevel(b) in ALLOWED_LEVELS
    && |slots| == 2 && IsPlaceholder(slots[0].code) && IsPlaceholder(slots[1].code) && SameTime(slots[0], slots[1])
    && SlotLevel(slots[0]).None? && SlotLevel(slots[1]).None?
    && OfferedInSession(a, env.campus, slots[0].session) && OfferedInSession(b, env.campus, slots[1].session)
    && (forall held :: held <= {strict, other} ==> Total100(env.catalog, held) <= env.rules.maxCp100)
  }

  lemma NothingExcludesNothing(s: Subject, rules: Rules)
    requires rules.table == []
    ensures !ExclusionBlocked(s, {}, rules)
  {
    assert Normalized({}) == {} && Expand([], {}) == {};
  }

  lemma StrictFits(env: Setting, strict: string, other: string, slots: seq<PlanSlot>)
    requires OneWay(env, strict, other, slots)
    ensures Fits(env, slots, 0, strict)
  {
    hide IsPlaceholder, NormalizeCode, SlotLevel, PoolLevel, LevelValue, OfferedInSession, Satisfied, Ready, SameTime, Total100,
      Is100Level, Scheduled, Held, ExclusionBlocked;
    CodesAreKeys(env, strict);
    NothingHeldYet(env, slots);
    NoTextsSatisfied(env.catalog, {}, env.rules.table);
    NothingExcludesNothing(env.catalog[strict], env.rules);
    assert {} + {strict} == {strict};
  }

  lemma OtherFitsThen(env: Setting, strict: string, other: string, slots: seq<PlanSlot>, filled: seq<PlanSlot>)
    requires OneWay(env, strict, other, slots) && filled == slots[0 := Place(env, slots[0], strict)]
    ensures !Fits(env, filled, 1, strict) && Fits(env, filled, 1, other)
  {
    hide IsPlaceholder, NormalizeCode, SlotLevel, PoolLevel, LevelValue, OfferedInSession, Satisfied, Ready, SameTime, Total100,
      Place, RulesAllow, Scheduled, Held;
    CodesAreKeys(env, strict);
    CodesAreKeys(env, other);
    NothingHeldYet(env, slots);
    ScheduledGrowsByOne(env, slots, 0, strict);
    assert {} + {strict} == {strict} && {strict} + {other} == {strict, other};
    NoTextsSatisfied(env.catalog, Held(env, filled, 1, true), env.rules.table);
    OnlyRequirements(env, env.catalog[other], other, {strict}, Held(env, filled, 1, false), Held(env, filled, 1, true));
  }

  // The plan comes out with both subjects, although the first excludes the second.
  lemma OneWayExclusionIsFilled(env: Setting, strict: string, other: string, slots: seq<PlanSlot>)
    requires OneWay(env, strict, other, slots)
    ensures var filled := Fill(env, [strict, other], slots);
      && filled == [Place(env, slots[0], strict), Place(env, slots[1], other)]
      && Excludes(env, strict, other)
  {
    hide Fits, Place, IsPlaceholder, SameTime, Before, FirstFit, NormalizeCode, SlotLevel, PoolLevel, LevelValue,
      OfferedInSession, Total100, Ready, FillAt, Fill, ExclusionBlocked;
    CodesAreKeys(env, strict);
    CodesAreKeys(env, other);
    EntangledOrder(slots);
    StrictFits(env, strict, other, slots);
    TurnOf(env, strict, other, slots, 0);
    var once := slots[0 := Place(env, slots[0], strict)];
    OtherFitsThen(env, strict, other, slots, once);
    TurnOf(env, strict, other, once, 1);
    TwoTurns(env, [strict, other], slots);
    var twice := once[1 := Place(env, slots[1], other)];
    assert twice == [Place(env, slots[0], strict), Place(env, slots[1], other)];
    OneExclusion(env.catalog[strict], other, env.rules);
  }

  lemma OneExclusion(s: Subject, other: string, rules: Rules)
    requires s.exclusions == [other] && rules.table == []
    ensures ExclusionBlocked(s, {other}, rules)
  {
    hide NormalizeCode;
    assert NormalizeCode(s.exclusions[0]) in Normalized({other});
  }

  // ---------------------------------------------------------------- a concrete catalogue

  function Plain(code: string, corequisites: seq<string>, exclusions: seq<string>): Subject {
    Subject(code, "", None, None, [], corequisites, exclusions, [Offering("Wollongong", "Autumn")], [])
  }

  const EARLY := "ABC100"
  const LATE := "ABC200"

  // Two subjects, one of which names the other as a corequisite or an exclusion.
  function Pair(corequisites: seq<string>, exclusions: seq<string>): Catalog {
    map[EARLY := Plain(EARLY, [], exclusions), LATE := Plain(LATE, corequisites, [])]
  }

  function Example(corequisites: seq<string>, exclusions: seq<string>): Setting {
    Setting(Pair(corequisites, exclusions), {}, {}, "Wollongong", Rules([], map[], 60))
  }

  function Open(name: string): PlanSlot {
    PlanSlot(1, "Autumn", "TBD", 6, name)
  }

  // Three capitals, a level digit and two more digits.
  predicate IsLevelCode(code: string, digit: char) {
    && |code| == 6 && IsUpper(code[0]) && IsUpper(code[1]) && IsUpper(code[2])
    && '1' <= digit <= '3' && code[3] == digit && IsDigit(code[4]) && IsDigit(code[5])
  }

  lemma LevelCodeIsCode(code: string, digit: char)
    requires IsLevelCode(code, digit)
    ensures IsCode(code) && LetterRun(code) == 3 && NormalizeCode(code) == code
  {
    hide NormalizeCode;
    LetterRunIs(code, 3);
    CodeIsNormal(code);
  }

  lemma LevelCodeIsNoPlaceholder(code: string, digit: char)
    requires IsLevelCode(code, digit)
    ensures !IsPlaceholder(code)
  {
    assert Trim(code) == code;
    assert forall ch :: ch in "elective" ==> !IsDigit(ch);
    assert "elective"[3] in "elective";
    assert LowerChar(code[3]) == digit;
  }

  lemma FirstDigitOf(code: string, digit: char)
    requires IsLevelCode(code, digit)
    ensures FirstDigitLevel(code) == Some(100 * DigitValue(digit))
  {
    var t := code[1..];
    var u := t[1..];
    assert u[1..][0] == digit && u[0] == code[2] && t[0] == code[1];
    assert FirstDigitLevel(u[1..]) == Some(100 * DigitValue(digit));
    assert FirstDigitLevel(u) == FirstDigitLevel(u[1..]);
    assert FirstDigitLevel(t) == FirstDigitLevel(u);
  }

  lemma LevelOfCode(s: Subject, digit: char)
    requires IsLevelCode(s.code, digit) && s.levelText.None?
    ensures PoolLevel(s) == Some(100 * DigitValue(digit)) && LevelValue(s) == Some(100 * DigitValue(digit))
  {
    hide Remove, Upper, FirstDigitLevel;
    LevelCodeIsCode(s.code, digit);
    DigitRunIs(s.code[3..], 3);
    FirstDigitOf(s.code, digit);
  }

  lemma CodeIsGuarded(code: string)
    requires IsCode(code)
    ensures AllGuarded([code])
  {
    hide IsCode, PlusFree, Guarded;
    CodesListReading([code]);
    assert Join([code], " and ") == code;
    PlusFreeIsGuarded(code);
  }

  lemma ExampleCodes()
    ensures IsLevelCode(EARLY, '1') && IsLevelCode(LATE, '2') && EARLY != LATE
  {
  }

  // No two codes total more than twelve credit points.
  lemma ExampleTotal(catalog: Catalog, held: set<string>, a: string, b: string)
    requires held <= {a, b} && a != b && a in catalog && b in catalog && SubjectCp(catalog[a]) == SubjectCp(catalog[b]) == 6
    requires NormalizeCode(a) == a && NormalizeCode(b) == b
    ensures Total100(catalog, held) <= 12
  {
    hide Cp100, SumOver, NormalizeCode, SubjectCp;
    EntryAddsAtMostSix(catalog, a);
    EntryAddsAtMostSix(catalog, b);
    SumMonotone(held, {a, b}, Cp100(catalog));
    SumOfTwo(Cp100(catalog), a, b);
  }

  lemma EntryAddsAtMostSix(catalog: Catalog, code: string)
    requires code in catalog && SubjectCp(catalog[code]) == 6 && NormalizeCode(code) == code
    ensures 0 <= Cp100(catalog)(code) <= 6
  {
    hide NormalizeCode, SubjectCp, Is100Level;
  }

  lemma SumOfTwo(f: string -> int, a: string, b: string)
    requires a != b
    ensures SumOver({a, b}, f) == f(a) + f(b)
  {
    SumInsert({}, f, a);
    SumInsert({a}, f, b);
    assert SumOver({}, f) == 0;
    hide SumOver;
    assert {} + {a} == {a} && {a} + {b} == {a, b};
  }

  lemma ExampleIsReady(corequisites: seq<string>, exclusions: seq<string>)
    requires AllGuarded(corequisites)
    ensures Ready(Example(corequisites, exclusions))
  {
    hide NormalizeCode, IsPlaceholder, Answers, Guarded, Sound, IsLevelCode, IsCode;
    ExampleCodes();
    LevelCodeIsCode(EARLY, '1');
    LevelCodeIsCode(LATE, '2');
    LevelCodeIsNoPlaceholder(EARLY, '1');
    LevelCodeIsNoPlaceholder(LATE, '2');
    WellWrittenIsSound(Pair(corequisites, exclusions));
  }

  lemma ExampleOffers(s: Subject)
    requires s.offerings == [Offering("Wollongong", "Autumn")]
    ensures OfferedInSession(s, "Wollongong", "Autumn")
  {
    assert OfferedIn(s.offerings[0], "Wollongong", "Autumn");
  }

  lemma OpenIsPlaceholder(name: string)
    ensures IsPlaceholder(Open(name).code)
  {
    assert Trim("TBD") == "TBD";
    assert "tbd"[0] == 't' && "tbd"[1] == 'b' && "tbd"[2] == 'd';
  }

  // A placeholder without a level in its name asks for none; one whose name is a level asks for it.
  lemma OpenLevel(digit: char)
    requires '1' <= digit <= '3'
    ensures SlotLevel(Open("")).None?
    ensures SlotLevel(Open([digit] + "00 level")) == Some(100 * DigitValue(digit))
  {
    hide LevelWordAt;
    NoLevelBefore([digit] + "00 level");
    LevelTail(digit);
    EmptySlotText();
  }

  lemma EmptySlotText()
    ensures FindLevelWord(false, "TBD" + " " + "").None?
  {
    NoLevelBefore("");
    assert FindLevelWord(false, "").None?;
  }

  lemma WordIsHere(w: string)
    requires forall ch :: ch in w ==> LowerChar(ch) == ch
    ensures WordHere(w, w)
  {
    assert forall k :: 0 <= k < |w| ==> w[k] in w;
  }

  lemma LevelTail(digit: char)
    requires '1' <= digit <= '3'
    ensures LevelWordAt([digit] + "00 level") == Some(100 * DigitValue(digit))
  {
    hide WordHere;
    var s := [digit] + "00 level";
    var w := "level";
    WordIsHere(w);
    assert w[0] == 'l';
    SpaceBefore(w);
    assert s[3..] == " " + w && s[4..] == w && s[4] == w[0];
  }

  lemma SpaceBefore(w: string)
    requires w != "" && !IsSpace(w[0])
    ensures SpaceRun(" " + w) == 1 && SpaceRun(w) == 0
  {
    assert (" " + w)[1..] == w;
  }

  lemma NoLevelWithoutDigit(s: string)
    requires s != "" && !IsDigit(s[0])
    ensures LevelWordAt(s).None?
  {
  }

  // In front of a text the word "TBD" and its space hide no level.
  lemma NoLevelBefore(tail: string)
    ensures FindLevelWord(false, "TBD" + " " + tail) == FindLevelWord(false, tail)
  {
    var s := "TBD" + " " + tail;
    assert s[1..] == "BD" + " " + tail && s[1..][1..] == "D" + " " + tail && s[1..][1..][1..] == " " + tail;
    assert s[1..][1..][1..][1..] == tail;
    hide LevelWordAt;
    NoLevelWithoutDigit(s);
    NoLevelWithoutDigit(" " + tail);
    assert FindLevelWord(true, " " + tail) == FindLevelWord(false, tail);
    assert FindLevelWord(true, "D" + " " + tail) == FindLevelWord(true, " " + tail);
    assert FindLevelWord(true, "BD" + " " + tail) == FindLevelWord(true, "D" + " " + tail);
  }

  // There is a plan that a second run fills further.
  lemma EntangledExample()
    ensures Entangled(Example([EARLY], []), EARLY, LATE, [Open("200 level"), Open("100 level")])
  {
    hide NormalizeCode, IsCode, IsPlaceholder, Ready, SlotLevel, PoolLevel, LevelValue, OfferedInSession, Total100, AllGuarded;
    var env := Example([EARLY], []);
    ExampleFacts(env, [EARLY], []);
    OpenLevels();
  }

  // There is a plan that comes out with a subject and one that it excludes.
  lemma OneWayExample()
    ensures OneWay(Example([], [LATE]), EARLY, LATE, [Open(""), Open("")])
  {
    hide NormalizeCode, IsCode, IsPlaceholder, Ready, SlotLevel, PoolLevel, LevelValue, OfferedInSession, Total100, AllGuarded;
    var env := Example([], [LATE]);
    ExampleFacts(env, [], [LATE]);
    OpenIsPlaceholder("");
    OpenLevel('1');
  }

  lemma OpenLevels()
    ensures IsPlaceholder(Open("200 level").code) && IsPlaceholder(Open("100 level").code)
    ensures SlotLevel(Open("200 level")) == Some(200) && SlotLevel(Open("100 level")) == Some(100)
  {
    hide IsPlaceholder, SlotLevel;
    OpenIsPlaceholder("200 level");
    OpenIsPlaceholder("100 level");
    OpenLevel('1');
    OpenLevel('2');
    assert ['1'] + "00 level" == "100 level" && ['2'] + "00 level" == "200 level";
  }

  lemma ExampleFacts(env: Setting, corequisites: seq<string>, exclusions: seq<string>)
    requires env == Example(corequisites, exclusions) && (corequisites == [] || corequisites == [EARLY])
    ensures Ready(env) && EARLY != LATE && EARLY in env.catalog && LATE in env.catalog && IsCode(EARLY)
    ensures var a := env.catalog[EARLY]; var b := env.catalog[LATE];
      && PoolLevel(a) == LevelValue(a) == Some(100) && PoolLevel(b) == LevelValue(b) == Some(200)
      && OfferedInSession(a, env.campus, "Autumn") && OfferedInSession(b, env.campus, "Autumn")
    ensures forall held :: held <= {EARLY, LATE} ==> Total100(env.catalog, held) <= 60
  {
    hide NormalizeCode, IsCode, Ready, PoolLevel, LevelValue, OfferedInSession, Total100, Answers;
    ExampleCodes();
    LevelCodeIsCode(EARLY, '1');
    LevelCodeIsCode(LATE, '2');
    CodeIsGuarded(EARLY);
    ExampleIsReady(corequisites, exclusions);
    LevelOfCode(env.catalog[EARLY], '1');
    LevelOfCode(env.catalog[LATE], '2');
    ExampleOffers(env.catalog[EARLY]);
    ExampleOffers(env.catalog[LATE]);
    forall held | held <= {EARLY, LATE} ensures Total100(env.catalog, held) <= 60 {
      ExampleTotal(env.catalog, held, EARLY, LATE);
    }
  }
}
