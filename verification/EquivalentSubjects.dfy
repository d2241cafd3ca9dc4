/** When one subject counts as another: chains of equivalents, and totals over lists of codes. */
module EquivalentSubjects {
  // The dictionary of equivalents links a base with each of its alternates, both ways. What is held is
  // what a chain of such links reaches.

  import opened Text
  import opened Sums
  import opened PrerequisiteParser

  // ---------------------------------------------------------------- chains

  // The entry has one of the codes as its base and the other among its alternates.
  predicate Pairs(e: Equivalence, a: string, b: string) {
    exists alt :: alt in e.alternates && (
      (NormalizeCode(e.base) == a && NormalizeCode(alt) == b) || (NormalizeCode(alt) == a && NormalizeCode(e.base) == b))
  }

  predicate Linked(table: seq<Equivalence>, a: string, b: string) {
    exists k :: 0 <= k < |table| && Pairs(table[k], a, b)
  }

  predicate IsChain(table: seq<Equivalence>, chain: seq<string>) {
    forall i :: 0 <= i < |chain| - 1 ==> Linked(table, chain[i], chain[i + 1])
  }

  predicate LeadsTo(table: seq<Equivalence>, s: set<string>, chain: seq<string>, code: string) {
    chain != [] && chain[0] in s && chain[|chain| - 1] == code && IsChain(table, chain)
  }

  ghost predicate Reaches(table: seq<Equivalence>, s: set<string>, code: string) {
    exists chain :: LeadsTo(table, s, chain, code)
  }

  lemma ReachesItself(table: seq<Equivalence>, s: set<string>, code: string)
    requires code in s
    ensures Reaches(table, s, code)
  {
    assert LeadsTo(table, s, [code], code);
  }

  lemma ReachesNext(table: seq<Equivalence>, s: set<string>, a: string, b: string)
    requires Reaches(table, s, a) && Linked(table, a, b)
    ensures Reaches(table, s, b)
  {
    hide Linked;
    var chain :| LeadsTo(table, s, chain, a);
    assert LeadsTo(table, s, chain + [b], b);
  }

  lemma ClosedKeepsLinks(table: seq<Equivalence>, s: set<string>, a: string, b: string)
    requires Closed(table, s) && Linked(table, a, b) && a in s
    ensures b in s
  {
    hide NormalizeCode;
    var k :| 0 <= k < |table| && Pairs(table[k], a, b);
    assert EntryClosed(table[k], s);
    var alt :| alt in table[k].alternates && (
      (NormalizeCode(table[k].base) == a && NormalizeCode(alt) == b) || (NormalizeCode(alt) == a && NormalizeCode(table[k].base) == b));
    assert NormalizeCode(alt) in Normalized(table[k].alternates);
  }

  lemma {:induction false} ClosedKeepsChains(table: seq<Equivalence>, s: set<string>, chain: seq<string>)
    requires Closed(table, s) && chain != [] && chain[0] in s && IsChain(table, chain)
    ensures chain[|chain| - 1] in s
  {
    hide Closed, Linked;
    if |chain| > 1 {
      var n := |chain| - 1;
      ClosedKeepsChains(table, s, chain[..n]);
      ClosedKeepsLinks(table, s, chain[n - 1], chain[n]);
    }
  }

  ghost function ReachedOf(table: seq<Equivalence>, s: set<string>): set<string> {
    set c | c in Expand(table, s) && Reaches(table, s, c)
  }

  lemma ReachedIsClosed(table: seq<Equivalence>, s: set<string>)
    ensures s <= ReachedOf(table, s) && Closed(table, ReachedOf(table, s))
  {
    hide NormalizeCode, Reaches, Expand;
    var reached := ReachedOf(table, s);
    forall c | c in s ensures c in reached {
      ReachesItself(table, s, c);
    }
    forall k | 0 <= k < |table| ensures EntryClosed(table[k], reached) {
      EntryStaysClosed(table, s, k);
    }
  }

  lemma EntryStaysClosed(table: seq<Equivalence>, s: set<string>, k: nat)
    requires k < |table|
    ensures EntryClosed(table[k], ReachedOf(table, s))
  {
    hide NormalizeCode, Reaches, Expand;
    var e := table[k];
    var base := NormalizeCode(e.base);
    assert EntryClosed(e, Expand(table, s));
    forall alt | alt in e.alternates ensures base in ReachedOf(table, s) <==> NormalizeCode(alt) in ReachedOf(table, s) {
      assert Pairs(e, base, NormalizeCode(alt)) && Pairs(e, NormalizeCode(alt), base);
      assert NormalizeCode(alt) in Normalized(e.alternates);
      assert Linked(table, base, NormalizeCode(alt)) && Linked(table, NormalizeCode(alt), base);
      if Reaches(table, s, base) {
        ReachesNext(table, s, base, NormalizeCode(alt));
      }
      if Reaches(table, s, NormalizeCode(alt)) {
        ReachesNext(table, s, NormalizeCode(alt), base);
      }
    }
  }

  // Counting equivalents adds exactly what a chain of entries reaches from what is held.
  lemma ExpandIffReached(table: seq<Equivalence>, s: set<string>, code: string)
    ensures code in Expand(table, s) <==> Reaches(table, s, code)
  {
    hide Expand, IsChain, Closed;
    ReachedIsClosed(table, s);
    ExpandIsLeast(table, s, ReachedOf(table, s));
    if Reaches(table, s, code) {
      var chain :| LeadsTo(table, s, chain, code);
      ClosedKeepsChains(table, Expand(table, s), chain);
    }
  }

  // The code, or an equivalent of it, is among the held ones.
  ghost predicate CountsAsHeld(table: seq<Equivalence>, held: set<string>, code: string) {
    Reaches(table, Normalized(held), NormalizeCode(code))
  }

  // ---------------------------------------------------------------- totals over lists

  // The list names every member of the set, none twice.
  ghost predicate Lists(list: seq<string>, s: set<string>) {
    && (forall i, j :: 0 <= i < j < |list| ==> list[i] != list[j])
    && (forall c :: c in list <==> c in s)
  }

  function TotalOf(list: seq<string>, f: string -> int): int {
    if list == [] then 0 else f(list[0]) + TotalOf(list[1..], f)
  }

  // The total over a set is the total over any list of it.
  lemma {:induction false} TotalOfList(list: seq<string>, s: set<string>, f: string -> int)
    requires Lists(list, s)
    ensures SumOver(s, f) == TotalOf(list, f)
    decreases |list|
  {
    hide SumOver;
    if list == [] {
      assert s == {};
      NothingSums(f);
    } else {
      var rest := list[1..];
      assert forall c :: c in rest <==> c in s - {list[0]} by {
        forall c | c in rest ensures c != list[0] {
          var k :| 0 <= k < |rest| && rest[k] == c;
          assert list[k + 1] == c;
        }
        assert list == [list[0]] + rest;
      }
      assert Lists(rest, s - {list[0]});
      TotalOfList(rest, s - {list[0]}, f);
      SumRemove(s, f, list[0]);
    }
  }

  lemma NothingSums(f: string -> int)
    ensures SumOver({}, f) == 0
  {
  }

  lemma {:induction false} TotalsAgree(list: seq<string>, f: string -> int, g: string -> int)
    requires forall c :: c in list ==> f(c) == g(c)
    ensures TotalOf(list, f) == TotalOf(list, g)
  {
    if list != [] {
      TotalsAgree(list[1..], f, g);
    }
  }
}
