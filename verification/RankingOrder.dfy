/** The order of ranked electives, spelled out: best score first, and equal scores by code. */
module RankingOrder {
  import opened Text
  import opened Sums
  import opened PrerequisiteParser
  import opened Catalogue
  import opened Eligibility
  import opened ElectiveService
  import opened ElectiveRanking
  import opened SubjectReadings
  import opened EligibilityRules

  // Where the two texts first differ, a ends or has the smaller character.
  predicate IsSmaller(a: string, b: string) {
    exists k :: 0 <= k <= |a| && DiffersAt(a, b, k)
  }

  predicate DiffersAt(a: string, b: string, k: nat)
    requires k <= |a|
  {
    k < |b| && a[..k] == b[..k] && (k == |a| || a[k] < b[k])
  }

  lemma {:induction false} AtMostIff(a: string, b: string)
    ensures AtMost(a, b) <==> a == b || IsSmaller(a, b)
  {
    if a == "" {
      assert b != "" ==> DiffersAt(a, b, 0);
    } else if b == "" {
    } else if a[0] != b[0] {
      assert a[0] < b[0] ==> DiffersAt(a, b, 0);
      assert forall k :: 1 <= k <= |a| && k < |b| ==> a[..k][0] != b[..k][0];
    } else {
      AtMostIff(a[1..], b[1..]);
      assert a == [a[0]] + a[1..] && b == [b[0]] + b[1..];
      SmallerIsSmallerBehind(a, b);
    }
  }

  lemma SmallerIsSmallerBehind(a: string, b: string)
    requires a != "" && b != "" && a[0] == b[0]
    ensures IsSmaller(a, b) <==> IsSmaller(a[1..], b[1..])
  {
    if k :| 0 <= k <= |a| && DiffersAt(a, b, k) {
      assert k > 0;
      assert a[1..][..k - 1] == a[..k][1..] && b[1..][..k - 1] == b[..k][1..];
      assert DiffersAt(a[1..], b[1..], k - 1);
    }
    if k :| 0 <= k <= |a[1..]| && DiffersAt(a[1..], b[1..], k) {
      assert a[..k + 1] == [a[0]] + a[1..][..k] && b[..k + 1] == [b[0]] + b[1..][..k];
      assert DiffersAt(a, b, k + 1);
    }
  }

  // In the catalogue, of level 100, 200 or 300 for pools, and scored at least 0.15.
  predicate IsRelevant(catalog: Catalog, score: string -> real, code: string) {
    && code in catalog
    && (PoolLevel(catalog[code]) == Some(100) || PoolLevel(catalog[code]) == Some(200) || PoolLevel(catalog[code]) == Some(300))
    && score(code) >= 0.15
  }

  // Best score first; equal scores by code.
  predicate IsByScore(ranked: seq<Scored>) {
    forall i, j :: 0 <= i < j < |ranked| ==>
      ranked[i].1 >= ranked[j].1 && (ranked[i].1 == ranked[j].1 ==> IsSmaller(ranked[i].0, ranked[j].0))
  }

  lemma AheadIff(a: Scored, b: Scored)
    ensures Ahead(a, b) <==> a.1 > b.1 || (a.1 == b.1 && IsSmaller(a.0, b.0))
  {
    AtMostIff(a.0, b.0);
    NoneIsSmallerThanItself(a.0);
  }

  lemma NoneIsSmallerThanItself(a: string)
    ensures !IsSmaller(a, a)
  {
  }

  // A ranking holds relevant candidates with their scores, best score first and equal ones by code, and
  // whoever is missing from it scores no better than any entry, with a later code where it scores as well.
  lemma RankingIsByScore(catalog: Catalog, codes: set<string>, score: string -> real, limit: nat, ranked: seq<Scored>)
    requires IsRanking(catalog, codes, score, limit, ranked)
    ensures IsByScore(ranked) && |ranked| <= limit
    ensures forall k :: 0 <= k < |ranked| ==>
      ranked[k].0 in codes && IsRelevant(catalog, score, ranked[k].0) && ranked[k].1 == score(ranked[k].0)
    ensures forall code :: code in codes && IsRelevant(catalog, score, code) && IsMissing(code, ranked) ==>
      && |ranked| == limit
      && forall k :: 0 <= k < |ranked| ==>
           ranked[k].1 >= score(code) && (ranked[k].1 == score(code) ==> IsSmaller(ranked[k].0, code))
  {
    hide Ahead, IsSmaller, PoolLevel;
    forall i, j | 0 <= i < j < |ranked|
      ensures ranked[i].1 >= ranked[j].1 && (ranked[i].1 == ranked[j].1 ==> IsSmaller(ranked[i].0, ranked[j].0))
    {
      AheadIff(ranked[i], ranked[j]);
    }
    forall code | code in codes && IsRelevant(catalog, score, code) && IsMissing(code, ranked)
      ensures |ranked| == limit
      ensures forall k :: 0 <= k < |ranked| ==>
        ranked[k].1 >= score(code) && (ranked[k].1 == score(code) ==> IsSmaller(ranked[k].0, code))
    {
      assert Qualifies(catalog, score, code);
      forall k | 0 <= k < |ranked|
        ensures ranked[k].1 >= score(code) && (ranked[k].1 == score(code) ==> IsSmaller(ranked[k].0, code))
      {
        AheadIff(ranked[k], (code, score(code)));
      }
    }
  }

  // ---------------------------------------------------------------- what may be ranked

  // A row of the plan that is no placeholder reads as the code.
  ghost predicate IsOnPlan(slots: seq<PlanSlot>, code: string) {
    exists k :: 0 <= k < |slots| && IsTaken(slots[k]) && NormalizeCode(slots[k].code) == code
  }

  ghost predicate IsTaken(slot: PlanSlot) {
    !StartsWithWord(Trim(slot.code), "elective") && !StartsWithWord(Trim(slot.code), "tbd")
  }

  lemma BlockedOnPlan(env: Setting, forbidden: set<string>, slots: seq<PlanSlot>, code: string)
    ensures IsForbidden(Blocked(env, forbidden, slots), code) <==>
      Names(forbidden, code) || Names(env.completed, code) || Names(env.planned, code) || IsOnPlan(slots, code)
  {
    hide NormalizeCode, NormalizeSet, Names, IsPlaceholder, IsTaken, IsForbidden;
    var listed := NormalizeSet(forbidden + env.completed + env.planned);
    var onPlan := set k: nat | k < |slots| && !IsPlaceholder(slots[k].code) :: NormalizeCode(slots[k].code);
    BlockedIff(forbidden, Student(env.completed, env.planned, ""), code);
    ForbiddenInEither(listed, onPlan, code);
    assert IsForbidden(onPlan, code) <==> IsOnPlan(slots, code) by {
      OnPlanIff(slots, code);
    }
  }

  lemma ForbiddenInEither(a: set<string>, b: set<string>, code: string)
    ensures IsForbidden(a + b, code) <==> IsForbidden(a, code) || IsForbidden(b, code)
  {
    hide NormalizeCode;
    if c :| c in a && NormalizeCode(c) == code {
      assert c in a + b;
    }
    if c :| c in b && NormalizeCode(c) == code {
      assert c in a + b;
    }
  }

  lemma OnPlanIff(slots: seq<PlanSlot>, code: string)
    ensures IsForbidden(set k: nat | k < |slots| && !IsPlaceholder(slots[k].code) :: NormalizeCode(slots[k].code), code) <==>
      IsOnPlan(slots, code)
  {
    hide NormalizeCode, IsPlaceholder, StartsWithWord, Trim;
    var codes := set k: nat | k < |slots| && !IsPlaceholder(slots[k].code) :: NormalizeCode(slots[k].code);
    forall k: nat | k < |slots| ensures IsPlaceholder(slots[k].code) <==> !IsTaken(slots[k]) {
      PlaceholderIff(slots[k].code);
    }
    if c :| c in codes && NormalizeCode(c) == code {
      var k: nat :| k < |slots| && !IsPlaceholder(slots[k].code) && c == NormalizeCode(slots[k].code);
      NormalizeTwice(slots[k].code);
      assert IsTaken(slots[k]);
    }
    if k :| 0 <= k < |slots| && IsTaken(slots[k]) && NormalizeCode(slots[k].code) == code {
      NormalizeTwice(slots[k].code);
      assert code in codes;
    }
  }

  // What is ranked for a plan: the pool's candidates that are not forbidden, completed, planned, or already on
  // the plan.
  lemma RankableIff(env: Setting, pool: Pool, forbidden: set<string>, slots: seq<PlanSlot>, code: string)
    ensures code in PlanCandidates(env, pool, forbidden, slots) <==>
      && code in env.catalog
      && !Names(forbidden, code) && !Names(env.completed, code) && !Names(env.planned, code) && !IsOnPlan(slots, code)
      && HasPoolLevel(env.catalog[code], pool) && IsDescribed(code, env.catalog[code], pool)
  {
    hide PoolCandidates, Blocked, IsForbidden, Names, IsOnPlan, HasPoolLevel, IsDescribed;
    CandidateIff(pool, env.catalog, Blocked(env, forbidden, slots), code);
    BlockedOnPlan(env, forbidden, slots, code);
  }
}
