/** Ranking candidates by relevance: app/services/elective_ranking.py. */
module ElectiveRanking {
  // And filling a plan from ranked candidates: `fill_plan_from_subjects` of
  // app/services/elective_service.py. The relevance of a subject is an arbitrary number here.

  import opened Text
  import opened Sums
  import opened PrerequisiteParser
  import opened Catalogue
  import opened Eligibility
  import opened ElectiveService
  import opened FilledPlans

  const MIN_SCORE := 0.15

  type Scored = (string, real)

  // The sort key (-score, code).
  predicate Ahead(a: Scored, b: Scored) {
    a.1 > b.1 || (a.1 == b.1 && a.0 != b.0 && AtMost(a.0, b.0))
  }

  lemma AheadIsStrict(a: Scored, b: Scored, c: Scored)
    ensures !(Ahead(a, b) && Ahead(b, a))
    ensures a.0 != b.0 ==> Ahead(a, b) || Ahead(b, a)
    ensures Ahead(a, b) && Ahead(b, c) ==> Ahead(a, c)
  {
    AtMostTotal(a.0, b.0);
    AtMostTotal(b.0, c.0);
    if AtMost(a.0, b.0) && AtMost(b.0, c.0) {
      AtMostTransitive(a.0, b.0, c.0);
    }
  }

  predicate Qualifies(catalog: Catalog, score: string -> real, code: string) {
    code in catalog && PoolLevel(catalog[code]) in ALLOWED_LEVELS && score(code) >= MIN_SCORE
  }

  ghost predicate IsSorted(ranked: seq<Scored>) {
    forall i, j :: 0 <= i < j < |ranked| ==> Ahead(ranked[i], ranked[j])
  }

  // Each entry a qualifying candidate with its score.
  ghost predicate AreRanked(catalog: Catalog, codes: set<string>, score: string -> real, ranked: seq<Scored>) {
    forall k :: 0 <= k < |ranked| ==>
      ranked[k].0 in codes && Qualifies(catalog, score, ranked[k].0) && ranked[k].1 == score(ranked[k].0)
  }

  ghost predicate IsMissing(code: string, ranked: seq<Scored>) {
    forall k :: 0 <= k < |ranked| ==> ranked[k].0 != code
  }

  // The best `limit` qualifying candidates in order: whoever is missing ranks behind a full list.
  ghost predicate IsRanking(catalog: Catalog, codes: set<string>, score: string -> real, limit: nat, ranked: seq<Scored>) {
    && IsSorted(ranked) && AreRanked(catalog, codes, score, ranked) && |ranked| <= limit
    && forall code :: code in codes && Qualifies(catalog, score, code) && IsMissing(code, ranked) ==>
         |ranked| == limit && forall k :: 0 <= k < |ranked| ==> Ahead(ranked[k], (code, score(code)))
  }

  // ---------------------------------------------------------------- sorting

  function Insert(e: Scored, sorted: seq<Scored>): seq<Scored> {
    if sorted == [] || Ahead(e, sorted[0]) then [e] + sorted else [sorted[0]] + Insert(e, sorted[1..])
  }

  // `scored.sort(key=...)`
  function SortedByRank(scored: seq<Scored>): seq<Scored> {
    if scored == [] then [] else Insert(scored[|scored| - 1], SortedByRank(scored[..|scored| - 1]))
  }

  lemma {:induction false} InsertKeeps(e: Scored, sorted: seq<Scored>, x: Scored)
    ensures x in Insert(e, sorted) <==> x == e || x in sorted
  {
    hide Ahead;
    if sorted != [] && !Ahead(e, sorted[0]) {
      InsertKeeps(e, sorted[1..], x);
      assert sorted == [sorted[0]] + sorted[1..];
    }
  }

  lemma {:induction false} SortKeeps(scored: seq<Scored>, x: Scored)
    ensures x in SortedByRank(scored) <==> x in scored
  {
    hide Insert;
    if scored != [] {
      var n := |scored| - 1;
      SortKeeps(scored[..n], x);
      InsertKeeps(scored[n], SortedByRank(scored[..n]), x);
      assert scored == scored[..n] + [scored[n]];
    }
  }

  lemma {:induction false} InsertSorts(e: Scored, sorted: seq<Scored>)
    requires IsSorted(sorted) && forall k :: 0 <= k < |sorted| ==> sorted[k].0 != e.0
    ensures IsSorted(Insert(e, sorted)) && |Insert(e, sorted)| == |sorted| + 1
  {
    hide Ahead;
    if sorted != [] {
      var rest := sorted[1..];
      if Ahead(e, sorted[0]) {
        forall k | 0 <= k < |sorted| ensures Ahead(e, sorted[k]) {
          AheadIsStrict(e, sorted[0], sorted[k]);
        }
      } else {
        InsertSorts(e, rest);
        var r := Insert(e, rest);
        AheadIsStrict(e, sorted[0], e);
        forall k | 0 <= k < |r| ensures Ahead(sorted[0], r[k]) {
          InsertKeeps(e, rest, r[k]);
          if r[k] != e {
            var j :| 0 <= j < |rest| && rest[j] == r[k];
            assert sorted[j + 1] == r[k];
          }
        }
      }
    }
  }

  ghost predicate HasDistinctCodes(scored: seq<Scored>) {
    forall i, j :: 0 <= i < j < |scored| ==> scored[i].0 != scored[j].0
  }

  lemma {:induction false} SortSorts(scored: seq<Scored>)
    requires HasDistinctCodes(scored)
    ensures IsSorted(SortedByRank(scored)) && |SortedByRank(scored)| == |scored|
  {
    if scored != [] {
      var n := |scored| - 1;
      var front := SortedByRank(scored[..n]);
      SortSorts(scored[..n]);
      hide Insert, SortedByRank, IsSorted;
      forall k | 0 <= k < |front| ensures front[k].0 != scored[n].0 {
        SortKeeps(scored[..n], front[k]);
        var j :| 0 <= j < n && scored[..n][j] == front[k];
        assert scored[j].0 != scored[n].0;
      }
      InsertSorts(scored[n], front);
    }
  }

  // ---------------------------------------------------------------- ranking

  // Scored entries of exactly the qualifying codes of a set.
  ghost predicate Scores(catalog: Catalog, codes: set<string>, score: string -> real, scored: seq<Scored>) {
    && HasDistinctCodes(scored) && AreRanked(catalog, codes, score, scored)
    && forall code :: code in codes && Qualifies(catalog, score, code) ==> (code, score(code)) in scored
  }

  lemma ScoresMore(catalog: Catalog, codes: set<string>, score: string -> real, scored: seq<Scored>, code: string)
    requires Scores(catalog, codes, score, scored) && code !in codes
    ensures Scores(catalog, codes + {code}, score,
      if Qualifies(catalog, score, code) then scored + [(code, score(code))] else scored)
  {
    hide Qualifies;
    if Qualifies(catalog, score, code) {
      var more := scored + [(code, score(code))];
      assert more[|scored|] == (code, score(code));
      assert forall e :: e in scored ==> e in more;
    }
  }

  // The sorted list cut to the limit is the ranking.
  lemma CutIsRanking(catalog: Catalog, codes: set<string>, score: string -> real, limit: nat, scored: seq<Scored>)
    requires Scores(catalog, codes, score, scored)
    ensures var sorted := SortedByRank(scored);
      IsRanking(catalog, codes, score, limit, sorted[..if |sorted| < limit then |sorted| else limit])
  {
    hide SortedByRank, Qualifies, Ahead;
    SortSorts(scored);
    var sorted := SortedByRank(scored);
    var n := if |sorted| < limit then |sorted| else limit;
    var ranked := sorted[..n];
    forall k | 0 <= k < |sorted|
      ensures sorted[k].0 in codes && Qualifies(catalog, score, sorted[k].0) && sorted[k].1 == score(sorted[k].0)
    {
      SortKeeps(scored, sorted[k]);
      var j :| 0 <= j < |scored| && scored[j] == sorted[k];
    }
    forall code | code in codes && Qualifies(catalog, score, code) && IsMissing(code, ranked)
      ensures |ranked| == limit && forall k :: 0 <= k < |ranked| ==> Ahead(ranked[k], (code, score(code)))
    {
      SortKeeps(scored, (code, score(code)));
      var j :| 0 <= j < |sorted| && sorted[j] == (code, score(code));
      assert j >= n;
    }
  }

  // `rank_subjects_by_keywords`, for codes in their normal form.
  method RankSubjects(catalog: Catalog, codes: set<string>, blankQuery: bool, score: string -> real, limit: int)
    returns (ranked: seq<Scored>)
    ensures blankQuery || limit <= 0 ==> ranked == []
    ensures !blankQuery && limit > 0 ==> IsRanking(catalog, codes, score, limit, ranked)
  {
    if blankQuery || limit <= 0 {
      return [];
    }
    hide Qualifies, Scores, IsRanking, PoolLevel;
    var scored: seq<Scored> := [];
    var pending := codes;
    while pending != {}
      invariant pending <= codes && Scores(catalog, codes - pending, score, scored)
      decreases |pending|
    {
      var code :| code in pending;
      ScoresMore(catalog, codes - pending, score, scored, code);
      assert codes - pending + {code} == codes - (pending - {code});
      pending := pending - {code};
      if code !in catalog {
        continue;
      }
      if PoolLevel(catalog[code]) !in ALLOWED_LEVELS {
        continue;
      }
      if score(code) < MIN_SCORE {
        continue;
      }
      scored := scored + [(code, score(code))];
    }
    assert codes - pending == codes;
    CutIsRanking(catalog, codes, score, limit, scored);
    var sorted := SortedByRank(scored);
    ranked := sorted[..if |sorted| < limit then |sorted| else limit];
  }

  // ---------------------------------------------------------------- one ranking only

  lemma MissingOrAt(code: string, ranked: seq<Scored>) returns (k: nat)
    ensures IsMissing(code, ranked) || (k < |ranked| && ranked[k].0 == code)
  {
    k := 0;
    if !IsMissing(code, ranked) {
      k :| 0 <= k < |ranked| && ranked[k].0 == code;
    }
  }

  // Rankings that agree up to a position agree there.
  lemma RankingsAgreeAt(catalog: Catalog, codes: set<string>, score: string -> real, limit: nat, a: seq<Scored>, b: seq<Scored>, i: nat)
    requires IsRanking(catalog, codes, score, limit, a) && IsRanking(catalog, codes, score, limit, b)
    requires i < |a| && i <= |b| && a[..i] == b[..i]
    ensures i < |b| && a[i] == b[i]
  {
    hide Qualifies, Ahead;
    var c := a[i];
    var j := MissingOrAt(c.0, b);
    if IsMissing(c.0, b) {
      assert |b| == limit && Ahead(b[i], c);
      NothingAheadIn(catalog, codes, score, limit, a, b, i);
    } else {
      assert b[j] == c;
      EarlierDiffers(a, i, b, j);
      if j > i {
        assert Ahead(b[i], c);
        NothingAheadIn(catalog, codes, score, limit, a, b, i);
      }
    }
  }

  lemma EarlierDiffers(a: seq<Scored>, i: nat, b: seq<Scored>, j: nat)
    requires IsSorted(a) && i < |a| && i <= |b| && a[..i] == b[..i] && j < |b| && b[j] == a[i]
    ensures j >= i
  {
    hide Ahead;
    if j < i {
      assert a[..i][j] == b[..i][j];
      AheadIsStrict(a[j], a[i], a[j]);
    }
  }

  // The entry of b at the first difference cannot come before that of a.
  lemma NothingAheadIn(catalog: Catalog, codes: set<string>, score: string -> real, limit: nat, a: seq<Scored>, b: seq<Scored>, i: nat)
    requires IsRanking(catalog, codes, score, limit, a) && IsRanking(catalog, codes, score, limit, b)
    requires i < |a| && i < |b| && a[..i] == b[..i]
    ensures !Ahead(b[i], a[i])
  {
    hide Qualifies, Ahead;
    var d := b[i];
    AheadIsStrict(d, a[i], d);
    var j := MissingOrAt(d.0, a);
    if !IsMissing(d.0, a) {
      assert a[j] == d;
      EarlierDiffers(b, i, a, j);
    }
  }

  lemma {:induction false} RankingsAgreeUpTo(catalog: Catalog, codes: set<string>, score: string -> real, limit: nat,
    a: seq<Scored>, b: seq<Scored>, i: nat)
    requires IsRanking(catalog, codes, score, limit, a) && IsRanking(catalog, codes, score, limit, b) && i <= |a|
    ensures i <= |b| && a[..i] == b[..i]
  {
    hide IsRanking;
    if i > 0 {
      RankingsAgreeUpTo(catalog, codes, score, limit, a, b, i - 1);
      RankingsAgreeAt(catalog, codes, score, limit, a, b, i - 1);
      assert a[..i] == a[..i - 1] + [a[i - 1]] && b[..i] == b[..i - 1] + [b[i - 1]];
    }
  }

  // The order in which a set of candidates is walked leaves no trace: there is one ranking.
  lemma RankingIsUnique(catalog: Catalog, codes: set<string>, score: string -> real, limit: nat, a: seq<Scored>, b: seq<Scored>)
    requires IsRanking(catalog, codes, score, limit, a) && IsRanking(catalog, codes, score, limit, b)
    ensures a == b
  {
    hide IsRanking;
    RankingsAgreeUpTo(catalog, codes, score, limit, a, b, |a|);
    RankingsAgreeUpTo(catalog, codes, score, limit, b, a, |b|);
    assert a[..|a|] == a && b[..|b|] == b;
  }

  // ---------------------------------------------------------------- filling from subjects

  function CodesOf(ranked: seq<Scored>): (r: seq<string>)
    ensures |r| == |ranked| && forall k :: 0 <= k < |ranked| ==> r[k] == ranked[k].0
  {
    seq(|ranked|, k requires 0 <= k < |ranked| => ranked[k].0)
  }

  // What may not be ranked: forbidden, done, planned and already on the plan.
  function Blocked(env: Setting, forbidden: set<string>, slots: seq<PlanSlot>): set<string> {
    NormalizeSet(forbidden + env.completed + env.planned)
    + set k: nat | k < |slots| && !IsPlaceholder(slots[k].code) :: NormalizeCode(slots[k].code)
  }

  function PlanCandidates(env: Setting, pool: Pool, forbidden: set<string>, slots: seq<PlanSlot>): set<string> {
    PoolCandidates(pool, env.catalog, Blocked(env, forbidden, slots))
  }

  method BlockedCodes(env: Setting, forbidden: set<string>, slots: seq<PlanSlot>) returns (blocked: set<string>)
    ensures blocked == Blocked(env, forbidden, slots)
  {
    hide IsPlaceholder, NormalizeCode, NormalizeSet;
    blocked := NormalizeSet(forbidden + env.completed + env.planned);
    for k := 0 to |slots|
      invariant blocked == NormalizeSet(forbidden + env.completed + env.planned)
        + set j: nat | j < k && !IsPlaceholder(slots[j].code) :: NormalizeCode(slots[j].code)
    {
      if !IsPlaceholder(slots[k].code) {
        blocked := blocked + {NormalizeCode(slots[k].code)};
      }
    }
  }

  ghost predicate IsRankingOrNothing(env: Setting, codes: set<string>, blankQuery: bool, score: string -> real, limit: int, ranked: seq<Scored>) {
    if blankQuery || limit <= 0 then ranked == [] else IsRanking(env.catalog, codes, score, limit, ranked)
  }

  // `fill_plan_from_subjects`: pool membership ignores the plan's timeline, slot checks do not.
  method FillPlanFromSubjects(records: seq<Subject>, pool: Pool, slots: seq<PlanSlot>, completed: set<string>, planned: set<string>,
    forbidden: set<string>, campus: string, blankQuery: bool, score: string -> real, rules: Rules, limit: int)
    returns (filled: seq<PlanSlot>)
    requires Ready(Setting(Ingested(records), completed, planned, campus, rules))
    ensures var env := Setting(Ingested(records), completed, planned, campus, rules);
      exists ranked ::
        && IsRankingOrNothing(env, PlanCandidates(env, pool, forbidden, slots), blankQuery, score, limit, ranked)
        && filled == Fill(env, CodesOf(ranked), slots)
  {
    hide Ingested, PoolCandidates, Blocked, IsRanking, Ready;
    var catalog := IngestSubjects(records);
    IngestedIsIndexed(records);
    var env := Setting(catalog, completed, planned, campus, rules);
    var blocked := BlockedCodes(env, forbidden, slots);
    var candidates := ResolvePoolCandidates(pool, catalog, blocked);
    var ranked := RankSubjects(catalog, candidates, blankQuery, score, limit);
    filled := FillElectiveSlots(env, CodesOf(ranked), slots);
    assert IsRankingOrNothing(env, PlanCandidates(env, pool, forbidden, slots), blankQuery, score, limit, ranked);
  }

  lemma RankedAreCandidates(env: Setting, codes: set<string>, blankQuery: bool, score: string -> real, limit: int, ranked: seq<Scored>, k: nat)
    requires IsRankingOrNothing(env, codes, blankQuery, score, limit, ranked) && k < |ranked|
    ensures ranked[k].0 in codes && Qualifies(env.catalog, score, ranked[k].0)
  {
    hide Qualifies, Ahead, IsSorted;
  }

  // Every subject placed is a relevant candidate of the pool, so none that was forbidden.
  lemma FilledFromPool(env: Setting, pool: Pool, forbidden: set<string>, slots: seq<PlanSlot>, blankQuery: bool, score: string -> real,
    limit: int, ranked: seq<Scored>, i: nat)
    requires Ready(env) && i < |slots|
    requires IsRankingOrNothing(env, PlanCandidates(env, pool, forbidden, slots), blankQuery, score, limit, ranked)
    requires Fill(env, CodesOf(ranked), slots)[i] != slots[i]
    ensures var code := Fill(env, CodesOf(ranked), slots)[i].code;
      && code in env.catalog && InPool(code, env.catalog[code], pool)
      && score(code) >= MIN_SCORE
      && code !in NormalizeSet(forbidden)
  {
    hide Fill, IsRankingOrNothing, Fits, Held, Satisfied, OfferedInSession, SlotLevel, PoolLevel, LevelValue, Place, InPool,
      NormalizeCode, NormalizeSet, IsPlaceholder;
    FilledPlanIsValid(env, CodesOf(ranked), slots, i);
    var code := Fill(env, CodesOf(ranked), slots)[i].code;
    var k :| 0 <= k < |CodesOf(ranked)| && NormalizeCode(CodesOf(ranked)[k]) == code;
    RankedAreCandidates(env, PlanCandidates(env, pool, forbidden, slots), blankQuery, score, limit, ranked, k);
    KeyIsNormal(env, ranked[k].0);
    ForbiddenIsBlocked(env, forbidden, slots, code);
  }

  lemma KeyIsNormal(env: Setting, code: string)
    requires Ready(env) && code in env.catalog
    ensures NormalizeCode(code) == code
  {
    hide NormalizeCode, IsPlaceholder, Judgeable;
  }

  lemma ForbiddenIsBlocked(env: Setting, forbidden: set<string>, slots: seq<PlanSlot>, code: string)
    requires NormalizeCode(code) == code
    ensures code in NormalizeSet(forbidden) ==> code in Normalized(Blocked(env, forbidden, slots))
  {
    hide NormalizeCode, IsPlaceholder;
    NormalizeSetUnion(forbidden, env.completed + env.planned);
    assert forbidden + env.completed + env.planned == forbidden + (env.completed + env.planned);
  }
}
