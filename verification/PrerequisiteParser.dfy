/** The requirement language of app/services/prerequisite_parser.py: equivalents and splitting. */
module PrerequisiteParser {
  // How a requirement text is split at the top level, and which subjects count as held.

  import opened Text
  import opened Sums

  // ---------------------------------------------------------------- codes

  function NormalizeCode(code: string): string {
    Remove(Upper(code), ' ')
  }

  // The hundreds level named by the first digit of a code.
  function LevelFromCode(code: string): Option<int> {
    FirstDigitLevel(NormalizeCode(code))
  }

  function FirstDigitLevel(s: string): Option<int> {
    if s == "" then None
    else if IsDigit(s[0]) then Some(100 * DigitValue(s[0]))
    else FirstDigitLevel(s[1..])
  }

  // ---------------------------------------------------------------- equivalents

  // One entry of the `satisfies` dictionary.
  datatype Equivalence = Equivalence(base: string, alternates: set<string>)

  function Normalized(codes: set<string>): (r: set<string>)
    ensures forall c :: c in codes ==> NormalizeCode(c) in r
  {
    set c | c in codes :: NormalizeCode(c)
  }

  predicate EntryClosed(e: Equivalence, s: set<string>) {
    && (NormalizeCode(e.base) in s ==> Normalized(e.alternates) <= s)
    && (forall a :: a in e.alternates && NormalizeCode(a) in s ==> NormalizeCode(e.base) in s)
  }

  // Holding either side of an equivalence means holding the other.
  predicate Closed(table: seq<Equivalence>, s: set<string>) {
    forall k :: 0 <= k < |table| ==> EntryClosed(table[k], s)
  }

  function Group(e: Equivalence): set<string> {
    {NormalizeCode(e.base)} + Normalized(e.alternates)
  }

  lemma InsideOrOutside(e: Equivalence, s: set<string>)
    requires Group(e) !! s || Group(e) <= s
    ensures EntryClosed(e, s)
  {
    assert NormalizeCode(e.base) in Group(e);
    assert forall a :: a in e.alternates ==> NormalizeCode(a) in Normalized(e.alternates) && NormalizeCode(a) in Group(e);
  }

  function Pass(table: seq<Equivalence>, s: set<string>): (r: set<string>)
    ensures s <= r
    ensures r == s ==> Closed(table, s)
  {
    if table == [] then s
    else
      var grown := if Group(table[0]) !! s then s else s + Group(table[0]);
      var r := Pass(table[1..], grown);
      assert r == s ==> grown == s && (Group(table[0]) !! s || Group(table[0]) <= s);
      if r == s then
        InsideOrOutside(table[0], s);
        r
      else
        r
  }

  lemma PassStaysClosed(table: seq<Equivalence>, s: set<string>, t: set<string>)
    requires s <= t && Closed(table, t)
    ensures Pass(table, s) <= t
  {
    if table != [] {
      assert EntryClosed(table[0], t);
      var grown := if Group(table[0]) !! s then s else s + Group(table[0]);
      PassStaysClosed(table[1..], grown, t);
    }
  }

  function Mentioned(table: seq<Equivalence>): (r: set<string>)
    ensures forall k :: 0 <= k < |table| ==> Group(table[k]) <= r
  {
    if table == [] then {} else Group(table[0]) + Mentioned(table[1..])
  }

  lemma PassStaysInside(table: seq<Equivalence>, s: set<string>)
    ensures Pass(table, s) <= s + Mentioned(table)
  {
  }

  // The subjects held once equivalents are counted.
  function Expand(table: seq<Equivalence>, s: set<string>): (r: set<string>)
    ensures s <= r
    ensures Closed(table, r)
    decreases |Mentioned(table) - s|
  {
    var next := Pass(table, s);
    if next == s then s
    else
      PassStaysInside(table, s);
      var c :| c in next && c !in s;
      ProperSubsetIsSmaller(Mentioned(table) - next, Mentioned(table) - s, c);
      Expand(table, next)
  }

  // No closed set holding s is smaller.
  lemma {:induction false} ExpandIsLeast(table: seq<Equivalence>, s: set<string>, t: set<string>)
    requires s <= t && Closed(table, t)
    ensures Expand(table, s) <= t
    decreases |Mentioned(table) - s|
  {
    var next := Pass(table, s);
    PassStaysClosed(table, s, t);
    if next != s {
      PassStaysInside(table, s);
      var c :| c in next && c !in s;
      ProperSubsetIsSmaller(Mentioned(table) - next, Mentioned(table) - s, c);
      ExpandIsLeast(table, next, t);
    }
  }

  // More subjects never satisfy less, and counting equivalents twice adds nothing.
  lemma ExpandIsMonotoneAndIdempotent(table: seq<Equivalence>, s: set<string>, t: set<string>)
    requires s <= t
    ensures Expand(table, s) <= Expand(table, t)
    ensures Expand(table, Expand(table, s)) == Expand(table, s)
  {
    ExpandIsLeast(table, s, Expand(table, t));
    ExpandIsLeast(table, Expand(table, s), Expand(table, s));
  }

  lemma ProperSubsetIsSmaller(a: set<string>, b: set<string>, c: string)
    requires a <= b && c in b && c !in a
    ensures |a| < |b|
  {
    assert a <= b - {c};
    SubsetIsNoLarger(a, b - {c});
  }

  lemma {:induction false} SubsetIsNoLarger(a: set<string>, b: set<string>)
    requires a <= b
    ensures |a| <= |b|
    decreases |a|
  {
    if a != {} {
      var c :| c in a;
      SubsetIsNoLarger(a - {c}, b - {c});
    }
  }

  // One entry's turn in a sweep of `expand_held`, inside any closed set that already holds s.
  method SweepEntry(e: Equivalence, s: set<string>, ghost limit: set<string>) returns (r: set<string>, grew: bool)
    requires s <= limit && EntryClosed(e, limit)
    ensures s <= r <= limit
    ensures grew <==> r != s
    ensures !grew ==> EntryClosed(e, s)
  {
    r, grew := s, false;
    var base := NormalizeCode(e.base);
    var pending := e.alternates;
    if base in r {
      while pending != {}
        invariant pending <= e.alternates
        invariant base in r && s <= r <= limit
        invariant grew <==> r != s
        invariant forall a :: a in e.alternates - pending ==> NormalizeCode(a) in r
        decreases |pending|
      {
        var alt :| alt in pending;
        pending := pending - {alt};
        if NormalizeCode(alt) !in r {
          r, grew := r + {NormalizeCode(alt)}, true;
        }
      }
    }
    pending := e.alternates;
    while pending != {}
      invariant pending <= e.alternates
      invariant s <= r <= limit
      invariant grew <==> r != s
      invariant !grew && base in r ==> Normalized(e.alternates) <= r
      invariant base !in r ==> forall a :: a in e.alternates - pending ==> NormalizeCode(a) !in r
      decreases |pending|
    {
      var alt :| alt in pending;
      pending := pending - {alt};
      if NormalizeCode(alt) in r && base !in r {
        r, grew := r + {base}, true;
      }
    }
  }

  // One sweep of the whole table.
  method Sweep(table: seq<Equivalence>, s: set<string>, ghost limit: set<string>) returns (r: set<string>, grew: bool)
    requires s <= limit && Closed(table, limit)
    ensures s <= r <= limit
    ensures grew <==> r != s
    ensures !grew ==> Closed(table, s)
  {
    r, grew := s, false;
    for i := 0 to |table|
      invariant s <= r <= limit
      invariant grew <==> r != s
      invariant !grew ==> forall k :: 0 <= k < i ==> EntryClosed(table[k], s)
    {
      assert EntryClosed(table[i], limit);
      var more;
      r, more := SweepEntry(table[i], r, limit);
      grew := grew || more;
    }
  }

  // The fixpoint loop of the source: sweep the table until a sweep adds nothing.
  method ExpandHeld(codes: set<string>, table: seq<Equivalence>) returns (expanded: set<string>)
    ensures expanded == Expand(table, Normalized(codes))
  {
    ghost var goal := Expand(table, Normalized(codes));
    expanded := Normalized(codes);
    var changed := true;
    while changed
      invariant Normalized(codes) <= expanded <= goal
      invariant !changed ==> Closed(table, expanded)
      decreases |goal - expanded|, changed
    {
      ghost var start := expanded;
      expanded, changed := Sweep(table, expanded, goal);
      if changed {
        ghost var c :| c in expanded && c !in start;
        ProperSubsetIsSmaller(goal - expanded, goal - start, c);
      }
    }
    ExpandIsLeast(table, Normalized(codes), expanded);
  }

  // ---------------------------------------------------------------- splitting

  // A finished piece: trimmed, and dropped when nothing is left of it.
  function Chunk(current: string): seq<string> {
    var chunk := Trim(current);
    if chunk == "" then [] else [chunk]
  }

  // The pieces of `rest`, reading it at parenthesis depth `depth` with `current` pending.
  function SplitRest(rest: string, sep: string, depth: int, current: string): seq<string>
    requires sep != ""
  {
    if rest == "" then Chunk(current)
    else if rest[0] == '(' then SplitRest(rest[1..], sep, depth + 1, current + [rest[0]])
    else if rest[0] == ')' then SplitRest(rest[1..], sep, depth - 1, current + [rest[0]])
    else if depth == 0 && StartsWithFold(rest, sep) then
      Chunk(current) + SplitRest(rest[|sep|..], sep, 0, "")
    else SplitRest(rest[1..], sep, depth, current + [rest[0]])
  }

  function SplitTop(expr: string, sep: string): seq<string>
    requires sep != ""
  {
    SplitRest(expr, sep, 0, "")
  }

  method SplitTopLevel(expr: string, sep: string) returns (parts: seq<string>)
    requires sep != ""
    ensures parts == SplitTop(expr, Lower(sep))
  {
    parts := [];
    hide StartsWithFold, Trim;
    var depth, current, i := 0, "", 0;
    var sepLower := Lower(sep);
    while i < |expr|
      invariant 0 <= i <= |expr|
      invariant parts + SplitRest(expr[i..], sepLower, depth, current) == SplitTop(expr, sepLower)
    {
      var c := expr[i];
      assert expr[i..][1..] == expr[i + 1..];
      if c == '(' {
        depth := depth + 1;
        current := current + [c];
      } else if c == ')' {
        depth := depth - 1;
        current := current + [c];
      } else if depth == 0 && StartsWithFold(expr[i..], sepLower) {
        assert expr[i..][|sepLower|..] == expr[i + |sepLower|..];
        ghost var rest := SplitRest(expr[i + |sepLower|..], sepLower, 0, "");
        assert parts + (Chunk(current) + rest) == (parts + Chunk(current)) + rest;
        var chunk := Trim(current);
        if chunk != "" {
          parts := parts + [chunk];
        }
        current := "";
        i := i + |sepLower| - 1;
      } else {
        current := current + [c];
      }
      i := i + 1;
    }
    var chunk := Trim(current);
    if chunk != "" {
      parts := parts + [chunk];
    }
  }
}
