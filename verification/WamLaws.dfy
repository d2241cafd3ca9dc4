/** What the weighted average mark means: exact truncation, bounds, monotonicity and independence of order. */
module WamLaws {
  import opened Text
  import opened Records
  import opened Wam

  // ---------------------------------------------------------------- exact truncation

  const TEN_TO_25 := 10_000_000_000_000_000_000_000_000
  const TEN_TO_23 := 100_000_000_000_000_000_000_000

  lemma ProductGrows(c: int, a: int, b: int)
    requires c >= 0
    ensures a <= b ==> c * a <= c * b
  {
  }

  lemma QuotientAtLeast(n: int, c: int, m: int)
    requires c > 0 && n >= m * c
    ensures n / c >= m
  {
    var q := n / c;
    assert n == c * q + n % c;
    assert c * (q + 1) == c * q + c;
    ProductGrows(c, q + 1, m);
  }

  lemma QuotientBelow(n: int, c: int, m: int)
    requires c > 0 && n < m * c
    ensures n / c < m
  {
    var q := n / c;
    assert n == c * q + n % c;
    ProductGrows(c, m, q);
  }

  lemma QuotientIs(n: int, c: int, m: int)
    requires c > 0 && m * c <= n < (m + 1) * c
    ensures n / c == m
  {
    QuotientAtLeast(n, c, m);
    QuotientBelow(n, c, m + 1);
  }

  // Rounding does not cross an integer from above, nor from further below than one half.
  lemma HalfEvenAtLeast(n: nat, c: nat, m: nat)
    requires c > 0 && n >= m * c
    ensures HalfEven(n, c) >= m
  {
    QuotientAtLeast(n, c, m);
  }

  lemma HalfEvenBelow(n: nat, c: nat, m: nat)
    requires c > 0 && 2 * n + c < 2 * m * c
    ensures HalfEven(n, c) < m
  {
    var q := n / c;
    assert n == q * c + n % c;
    QuotientBelow(n, c, m);
    assert c * (q + 1) == q * c + c;
    ProductGrows(c, m, q + 1);
  }

  lemma PowerOfTenHundreds(e: nat)
    requires PowerOfTen(e) && e >= 100
    ensures e % 100 == 0
  {
    assert PowerOfTen(e / 10);
    assert e / 10 >= 10;
  }

  // The scale leaves more decimals than the divisor can use up.
  lemma ScaleIsLarge(w: nat, c: nat, e: nat)
    requires 0 < c && w <= 100 * c && w * e >= TEN_TO_27 * c
    ensures e >= TEN_TO_25
  {
    ProductGrows(e, w, 100 * c);
    assert e * (100 * c) == c * (100 * e);
    ProductGrows(c, 100 * e, TEN_TO_27 - 1);
  }

  lemma ScaledLower(w: nat, c: nat, f: nat, h: nat)
    requires h * c <= 100 * w
    ensures (h * f) * c <= w * (100 * f)
  {
    ProductGrows(f, h * c, 100 * w);
    assert f * (h * c) == (h * f) * c;
    assert f * (100 * w) == w * (100 * f);
  }

  lemma ScaledUpper(w: nat, c: nat, f: nat, h: nat)
    requires c < 2 * f && 100 * w <= h * c - 1
    ensures 2 * (w * (100 * f)) + c < 2 * (h * f) * c
  {
    ProductGrows(f, 100 * w, h * c - 1);
    assert f * (100 * w) == w * (100 * f);
    assert f * (h * c - 1) == (h * f) * c - f;
    assert 2 * (h * f) * c == 2 * ((h * f) * c);
  }

  lemma ScaledTruncation(w: nat, c: nat, f: nat, h: nat)
    requires 0 < c < 2 * f && h == 100 * w / c
    ensures h * f <= HalfEven(w * (100 * f), c) < (h + 1) * f
  {
    hide HalfEven;
    assert 100 * w == c * h + (100 * w) % c;
    assert c * (h + 1) == c * h + c;
    ScaledLower(w, c, f, h);
    ScaledUpper(w, c, f, h + 1);
    HalfEvenAtLeast(w * (100 * f), c, h * f);
    HalfEvenBelow(w * (100 * f), c, (h + 1) * f);
  }

  // Dividing to 28 significant digits and cutting to two decimals is the exact truncation:
  // no rounding on the way is ever visible.
  lemma QuotientIsTruncated(w: nat, c: nat)
    requires 0 < c <= TEN_TO_23 && w <= 100 * c
    ensures RoundDown(Divide(w, c)) == 100 * w / c
  {
    hide HalfEven;
    if w == 0 {
      assert RoundDown(Divide(w, c)) == 0;
      QuotientIs(0, c, 0);
    } else {
      var e := ScaleFrom(w, c, 1);
      ScaleIsLarge(w, c, e);
      PowerOfTenHundreds(e);
      var f := e / 100;
      var h := 100 * w / c;
      assert e == 100 * f;
      QuotientAtLeast(100 * w, c, 0);
      ScaledTruncation(w, c, f, h);
      var k := HalfEven(w * e, c);
      assert h * e <= 100 * k < (h + 1) * e;
      QuotientIs(100 * k, e, h);
    }
  }

  // Records of any length that can exist: their credit points stay below the bound.
  const LONGEST: nat := 2_000_000_000_000_000_000_000

  // The average of a record is the exact quotient cut to two decimals; its credit points are
  // the sum over the counted subjects.
  lemma WamIsTruncated(rows: seq<EnrolmentRow>)
    requires MarksInRange(rows) && |rows| <= LONGEST && WamOf(rows).Ok?
    ensures var t := Tally(Firsts(rows)).value;
      && WamOf(rows).value.cp == t.cp
      && WamOf(rows).value.wam == if t.cp == 0 then None else Some(100 * t.weighted / t.cp)
  {
    hide Tally, Firsts, Conflicts, Divide, RoundDown;
    UniqueTallyInRange(rows);
    var t := Tally(Firsts(rows)).value;
    if t.cp > 0 {
      QuotientIsTruncated(t.weighted, t.cp);
    }
  }

  // ---------------------------------------------------------------- between the marks

  lemma AverageBetween(w: int, c: int, lo: nat, hi: nat)
    requires c > 0 && lo * c <= w <= hi * c
    ensures 100 * lo <= 100 * w / c <= 100 * hi
  {
    assert (100 * lo) * c == 100 * (lo * c) && (100 * hi) * c == 100 * (hi * c);
    QuotientAtLeast(100 * w, c, 100 * lo);
    assert (100 * hi + 1) * c == (100 * hi) * c + c;
    QuotientBelow(100 * w, c, 100 * hi + 1);
  }

  // The average lies between the smallest and the largest counted mark.
  lemma WamIsBetweenMarks(rows: seq<EnrolmentRow>, lo: nat, hi: nat)
    requires MarksInRange(rows) && |rows| <= LONGEST && WamOf(rows).Ok? && WamOf(rows).value.wam.Some?
    requires MarksBetween(rows, lo, hi)
    ensures 100 * lo <= WamOf(rows).value.wam.value <= 100 * hi
  {
    hide Tally, Firsts, Conflicts, ResultOf, CountedMark;
    WamIsTruncated(rows);
    FirstsAreRows(rows);
    assert MarksBetween(Firsts(rows), lo, hi);
    TallyBetween(Firsts(rows), lo, hi);
    var t := Tally(Firsts(rows)).value;
    AverageBetween(t.weighted, t.cp, lo, hi);
  }

  // ---------------------------------------------------------------- a mark rises

  // The same row with the same or a higher mark.
  predicate RaisedRow(row: EnrolmentRow, better: EnrolmentRow) {
    && better == row.(mark := better.mark)
    && (row.mark.Some? <==> better.mark.Some?)
    && (row.mark.Some? ==> row.mark.value <= better.mark.value)
  }

  predicate Raised(rows: seq<EnrolmentRow>, better: seq<EnrolmentRow>) {
    |rows| == |better| && forall i :: 0 <= i < |rows| ==> RaisedRow(rows[i], better[i])
  }

  lemma RaisedWeight(row: EnrolmentRow, better: EnrolmentRow)
    requires RaisedRow(row, better) && Weight(row).Ok? && Weight(better).Ok?
    ensures Weight(row).value.cp == Weight(better).value.cp
    ensures Weight(row).value.weighted <= Weight(better).value.weighted
  {
    if CountedMark(row).value.Some? {
      assert row.nomCp * CountedMark(row).value.value <= row.nomCp * CountedMark(better).value.value;
    }
  }

  lemma {:induction false} RaisedTally(rows: seq<EnrolmentRow>, better: seq<EnrolmentRow>)
    requires Raised(rows, better) && Tally(rows).Ok? && Tally(better).Ok?
    ensures Tally(rows).value.cp == Tally(better).value.cp
    ensures Tally(rows).value.weighted <= Tally(better).value.weighted
  {
    hide Weight, RaisedRow;
    if rows != [] {
      RaisedTally(rows[..|rows| - 1], better[..|rows| - 1]);
      RaisedWeight(rows[|rows| - 1], better[|rows| - 1]);
    }
  }

  lemma RaisedSeen(rows: seq<EnrolmentRow>, better: seq<EnrolmentRow>, key: Key)
    requires Raised(rows, better)
    ensures Seen(rows, key) == Seen(better, key)
  {
    assert forall i :: 0 <= i < |rows| ==> RaisedRow(rows[i], better[i]) && KeyOf(rows[i]) == KeyOf(better[i]);
  }

  lemma {:induction false} RaisedFirsts(rows: seq<EnrolmentRow>, better: seq<EnrolmentRow>)
    requires Raised(rows, better)
    ensures Raised(Firsts(rows), Firsts(better))
  {
    hide Seen, RaisedRow;
    if rows != [] {
      var n := |rows| - 1;
      RaisedFirsts(rows[..n], better[..n]);
      RaisedSeen(rows[..n], better[..n], KeyOf(rows[n]));
      assert KeyOf(rows[n]) == KeyOf(better[n]) by {
        RaisedKey(rows[n], better[n]);
      }
    }
  }

  lemma RaisedKey(row: EnrolmentRow, better: EnrolmentRow)
    requires RaisedRow(row, better)
    ensures KeyOf(row) == KeyOf(better)
  {
  }

  lemma QuotientGrows(a: int, b: int, c: int)
    requires c > 0 && a <= b
    ensures a / c <= b / c
  {
    assert a == c * (a / c) + a % c;
    QuotientAtLeast(b, c, a / c);
  }

  // Raising marks never lowers the average and never changes the credit points.
  lemma WamIsMonotone(rows: seq<EnrolmentRow>, better: seq<EnrolmentRow>)
    requires Raised(rows, better) && MarksInRange(rows) && MarksInRange(better) && |rows| <= LONGEST
    requires WamOf(rows).Ok? && WamOf(better).Ok?
    ensures WamOf(rows).value.cp == WamOf(better).value.cp
    ensures WamOf(rows).value.wam.Some? <==> WamOf(better).value.wam.Some?
    ensures WamOf(rows).value.wam.Some? ==> WamOf(rows).value.wam.value <= WamOf(better).value.wam.value
  {
    hide Tally, Firsts, Conflicts, ResultOf, RaisedRow;
    WamIsTruncated(rows);
    WamIsTruncated(better);
    RaisedFirsts(rows, better);
    RaisedTally(Firsts(rows), Firsts(better));
    var t := Tally(Firsts(rows)).value;
    if t.cp > 0 {
      QuotientGrows(100 * t.weighted, 100 * Tally(Firsts(better)).value.weighted, t.cp);
    }
  }

  // ---------------------------------------------------------------- the order of the rows

  lemma ConflictsIff(rows: seq<EnrolmentRow>)
    ensures Conflicts(rows) <==>
      exists x, y :: x in rows && y in rows && KeyOf(x) == KeyOf(y) && !SameResult(x, y)
  {
    forall x, y | x in rows && y in rows && KeyOf(x) == KeyOf(y) && !SameResult(x, y) ensures Conflicts(rows) {
      var i :| 0 <= i < |rows| && rows[i] == x;
      var j :| 0 <= j < |rows| && rows[j] == y;
      if i < j {
        assert KeyOf(rows[i]) == KeyOf(rows[j]);
      } else {
        assert KeyOf(rows[j]) == KeyOf(rows[i]);
      }
    }
    if Conflicts(rows) {
      var i, j :| 0 <= i < j < |rows| && KeyOf(rows[i]) == KeyOf(rows[j]) && !SameResult(rows[i], rows[j]);
      assert rows[i] in rows && rows[j] in rows;
    }
  }

  predicate SameRows(a: seq<EnrolmentRow>, b: seq<EnrolmentRow>) {
    (forall row :: row in a ==> row in b) && (forall row :: row in b ==> row in a)
  }

  lemma SameConflicts(a: seq<EnrolmentRow>, b: seq<EnrolmentRow>)
    requires SameRows(a, b)
    ensures Conflicts(a) == Conflicts(b)
  {
    hide SameResult, KeyOf, Conflicts;
    ConflictsIff(a);
    ConflictsIff(b);
  }

  ghost predicate DistinctKeys(rows: seq<EnrolmentRow>) {
    forall i, j :: 0 <= i < j < |rows| ==> KeyOf(rows[i]) != KeyOf(rows[j])
  }

  lemma SeenIff(rows: seq<EnrolmentRow>, key: Key)
    ensures Seen(rows, key) <==> exists row :: row in rows && KeyOf(row) == key
  {
    if Seen(rows, key) {
      var i :| 0 <= i < |rows| && KeyOf(rows[i]) == key;
      assert rows[i] in rows;
    }
    if row :| row in rows && KeyOf(row) == key {
      var i :| 0 <= i < |rows| && rows[i] == row;
      assert KeyOf(rows[i]) == key;
    }
  }

  lemma SeenAppend(rows: seq<EnrolmentRow>, row: EnrolmentRow, key: Key)
    ensures Seen(rows + [row], key) <==> Seen(rows, key) || KeyOf(row) == key
  {
    hide KeyOf, Seen;
    SeenIff(rows, key);
    SeenIff(rows + [row], key);
  }

  // The firsts have every key once.
  lemma {:induction false} FirstsHaveEveryKey(rows: seq<EnrolmentRow>, key: Key)
    ensures Seen(Firsts(rows), key) == Seen(rows, key)
  {
    if rows != [] {
      hide Seen, KeyOf;
      var n := |rows| - 1;
      assert rows == rows[..n] + [rows[n]];
      FirstsHaveEveryKey(rows[..n], key);
      SeenAppend(rows[..n], rows[n], key);
      SeenAppend(Firsts(rows[..n]), rows[n], key);
    }
  }

  lemma {:induction false} FirstsAreDistinct(rows: seq<EnrolmentRow>)
    ensures DistinctKeys(Firsts(rows))
  {
    if rows != [] {
      hide Seen, KeyOf, DistinctKeys;
      var n := |rows| - 1;
      FirstsAreDistinct(rows[..n]);
      FirstsHaveEveryKey(rows[..n], KeyOf(rows[n]));
    }
  }

  // Same subject, same contribution.
  predicate Alike(x: EnrolmentRow, y: EnrolmentRow) {
    KeyOf(x) == KeyOf(y) && Weight(x) == Weight(y)
  }

  ghost predicate Matched(x: EnrolmentRow, v: seq<EnrolmentRow>) {
    exists y :: y in v && Alike(x, y)
  }

  ghost predicate Covers(u: seq<EnrolmentRow>, v: seq<EnrolmentRow>) {
    forall x :: x in u ==> Matched(x, v)
  }

  function Without(v: seq<EnrolmentRow>, j: nat): seq<EnrolmentRow>
    requires j < |v|
  {
    v[..j] + v[j + 1..]
  }

  lemma {:induction false} TallyWithout(v: seq<EnrolmentRow>, j: nat)
    requires j < |v|
    ensures Tally(v) == Add(Tally(Without(v, j)), Weight(v[j]))
    decreases |v|
  {
    hide Weight;
    var n := |v| - 1;
    if j == n {
      assert Without(v, j) == v[..n];
    } else {
      TallyWithout(v[..n], j);
      assert Without(v, j) == Without(v[..n], j) + [v[n]];
      TallyNext(Without(v[..n], j), v[n]);
    }
  }

  lemma KeptWithout(v: seq<EnrolmentRow>, j: nat, y: EnrolmentRow)
    requires j < |v|
    ensures y in v && y != v[j] ==> y in Without(v, j)
    ensures y in Without(v, j) ==> y in v
    ensures y in Without(v, j) && DistinctKeys(v) ==> KeyOf(y) != KeyOf(v[j])
  {
    hide KeyOf;
    var rest := Without(v, j);
    assert v == v[..j] + [v[j]] + v[j + 1..];
    if y in rest && DistinctKeys(v) {
      var i :| 0 <= i < |rest| && rest[i] == y;
      if i < j {
        assert v[i] == y;
      } else {
        assert v[i + 1] == y;
      }
    }
  }

  lemma DistinctLast(u: seq<EnrolmentRow>, x: EnrolmentRow, other: EnrolmentRow)
    requires DistinctKeys(u + [x]) && other in u
    ensures KeyOf(other) != KeyOf(x)
  {
    hide KeyOf;
    var i :| 0 <= i < |u| && u[i] == other;
    assert (u + [x])[i] == other && (u + [x])[|u|] == x;
  }

  lemma CoversWithout(u: seq<EnrolmentRow>, x: EnrolmentRow, v: seq<EnrolmentRow>, j: nat)
    requires DistinctKeys(u + [x]) && Covers(u + [x], v) && j < |v| && Alike(x, v[j])
    ensures Covers(u, Without(v, j))
  {
    hide Weight, KeyOf, DistinctKeys, Without;
    forall other | other in u ensures Matched(other, Without(v, j)) {
      assert other in u + [x];
      var y :| y in v && Alike(other, y);
      DistinctLast(u, x, other);
      KeptWithout(v, j, y);
    }
  }

  lemma CoveredWithout(v: seq<EnrolmentRow>, j: nat, u: seq<EnrolmentRow>, x: EnrolmentRow)
    requires DistinctKeys(v) && Covers(v, u + [x]) && j < |v| && Alike(x, v[j])
    ensures Covers(Without(v, j), u)
  {
    hide Weight, KeyOf, DistinctKeys, Without;
    forall other | other in Without(v, j) ensures Matched(other, u) {
      KeptWithout(v, j, other);
      var y :| y in u + [x] && Alike(other, y);
      assert y != x;
    }
  }

  lemma DistinctWithout(v: seq<EnrolmentRow>, j: nat)
    requires DistinctKeys(v) && j < |v|
    ensures DistinctKeys(Without(v, j))
  {
    hide KeyOf;
    var rest := Without(v, j);
    forall a, b | 0 <= a < b < |rest| ensures KeyOf(rest[a]) != KeyOf(rest[b]) {
      var c := if a < j then a else a + 1;
      var d := if b < j then b else b + 1;
      assert rest[a] == v[c] && rest[b] == v[d] && c < d;
    }
  }

  lemma CoversSomething(v: seq<EnrolmentRow>, u: seq<EnrolmentRow>)
    requires Covers(v, u) && v != []
    ensures u != []
  {
    assert v[0] in v;
  }

  // Lists with the same keys and the same contributions add up to the same totals.
  lemma {:induction false} TallyAgrees(u: seq<EnrolmentRow>, v: seq<EnrolmentRow>)
    requires DistinctKeys(u) && DistinctKeys(v) && Covers(u, v) && Covers(v, u)
    ensures Tally(u) == Tally(v)
    decreases |u|
  {
    hide KeyOf, Weight;
    if u == [] {
      if v != [] {
        CoversSomething(v, u);
      }
    } else {
      var n := |u| - 1;
      assert u == u[..n] + [u[n]];
      assert u[n] in u;
      var y :| y in v && Alike(u[n], y);
      var j :| 0 <= j < |v| && v[j] == y;
      CoversWithout(u[..n], u[n], v, j);
      CoveredWithout(v, j, u[..n], u[n]);
      DistinctWithout(v, j);
      TallyAgrees(u[..n], Without(v, j));
      TallyWithout(v, j);
    }
  }

  // Rows of one subject that pass for repeats of each other contribute the same.
  ghost predicate RepeatsAgree(rows: seq<EnrolmentRow>) {
    forall x, y :: x in rows && y in rows && KeyOf(x) == KeyOf(y) && SameResult(x, y) ==> Weight(x) == Weight(y)
  }

  lemma FirstsCover(a: seq<EnrolmentRow>, b: seq<EnrolmentRow>)
    requires SameRows(a, b) && RepeatsAgree(a) && !Conflicts(a)
    ensures Covers(Firsts(a), Firsts(b))
  {
    hide KeyOf, SameResult, Weight, Seen, Firsts, Conflicts;
    FirstsAreRows(a);
    FirstsAreRows(b);
    ConflictsIff(a);
    forall x | x in Firsts(a) ensures Matched(x, Firsts(b)) {
      assert x in a && x in b;
      SeenIff(b, KeyOf(x));
      FirstsHaveEveryKey(b, KeyOf(x));
      SeenIff(Firsts(b), KeyOf(x));
      var y :| y in Firsts(b) && KeyOf(y) == KeyOf(x);
      assert y in a;
      assert Alike(x, y);
    }
  }

  // The result depends only on which rows a record has, not on their order or on how often
  // each is repeated.
  lemma WamIgnoresOrder(a: seq<EnrolmentRow>, b: seq<EnrolmentRow>)
    requires MarksInRange(a) && MarksInRange(b) && SameRows(a, b) && RepeatsAgree(a)
    ensures WamOf(a) == WamOf(b)
  {
    hide Firsts, Tally, Conflicts, Covers, DistinctKeys, Weight, ResultOf;
    SameConflicts(a, b);
    if !Conflicts(a) {
      FirstsCover(a, b);
      FirstsCover(b, a);
      FirstsAreDistinct(a);
      FirstsAreDistinct(b);
      TallyAgrees(Firsts(a), Firsts(b));
    }
  }

  // Every permutation of the rows gives the same result.
  ghost predicate OrderIsIrrelevant(rows: seq<EnrolmentRow>)
    requires MarksInRange(rows)
  {
    forall other :: multiset(other) == multiset(rows) && MarksInRange(other) ==> WamOf(other) == WamOf(rows)
  }

  lemma PermutedRows(rows: seq<EnrolmentRow>, other: seq<EnrolmentRow>)
    requires multiset(other) == multiset(rows)
    ensures SameRows(rows, other)
  {
    assert forall row :: row in rows <==> row in multiset(rows);
    assert forall row :: row in other <==> row in multiset(other);
  }

  ghost predicate AllUnreadable(rows: seq<EnrolmentRow>, key: Key) {
    forall x :: x in rows && KeyOf(x) == key ==> Weight(x).Unreadable?
  }

  // Some subject of the record has unreadable rows only.
  ghost predicate HasUnreadableSubject(rows: seq<EnrolmentRow>) {
    exists row :: row in rows && AllUnreadable(rows, KeyOf(row))
  }

  lemma ReadableRow(rows: seq<EnrolmentRow>, key: Key) returns (y: EnrolmentRow)
    requires !AllUnreadable(rows, key)
    ensures y in rows && KeyOf(y) == key && Weight(y).Ok?
  {
    hide KeyOf, Weight;
    y :| y in rows && KeyOf(y) == key && !Weight(y).Unreadable?;
  }

  // The readable rows of all subjects but one, in order.
  function ReadableOthers(rows: seq<EnrolmentRow>, key: Key): seq<EnrolmentRow> {
    if rows == [] then []
    else
      var front, last := rows[..|rows| - 1], rows[|rows| - 1];
      ReadableOthers(front, key) + if KeyOf(last) != key && Weight(last).Ok? then [last] else []
  }

  lemma {:induction false} ReadableOthersAre(rows: seq<EnrolmentRow>, key: Key)
    ensures forall x :: x in ReadableOthers(rows, key) <==> x in rows && KeyOf(x) != key && Weight(x).Ok?
  {
    hide Weight, KeyOf;
    if rows != [] {
      ReadableOthersAre(rows[..|rows| - 1], key);
      assert rows == rows[..|rows| - 1] + [rows[|rows| - 1]];
    }
  }

  lemma {:induction false} ReadableTally(rows: seq<EnrolmentRow>)
    requires forall x :: x in rows ==> Weight(x).Ok?
    ensures Tally(rows).Ok?
  {
    hide Weight;
    if rows != [] {
      ReadableTally(rows[..|rows| - 1]);
    }
  }

  // A row of another subject in front stays in front.
  lemma {:induction false} FirstsBehind(x: EnrolmentRow, rows: seq<EnrolmentRow>)
    requires !Seen(rows, KeyOf(x))
    ensures Firsts([x] + rows) == [x] + Firsts(rows)
  {
    hide KeyOf, Seen;
    if rows == [] {
      FirstsOfOne(x);
    } else {
      var n := |rows| - 1;
      var front, last := rows[..n], rows[n];
      assert rows == front + [last];
      assert [x] + rows == ([x] + front) + [last];
      SeenAppend(front, last, KeyOf(x));
      FirstsBehind(x, front);
      FirstsNext([x] + front, last);
      SeenBehind(x, front, KeyOf(last));
    }
  }

  lemma FirstsOfOne(x: EnrolmentRow)
    ensures Firsts([x] + []) == [x] + Firsts([])
  {
    assert [x] + [] == [x] && [x][..0] == [];
    assert !Seen([], KeyOf(x));
  }

  lemma SeenBehind(x: EnrolmentRow, rows: seq<EnrolmentRow>, key: Key)
    ensures Seen([x] + rows, key) <==> KeyOf(x) == key || Seen(rows, key)
  {
    hide KeyOf, Seen;
    SeenIff([x] + rows, key);
    SeenIff(rows, key);
  }

  // All other rows, in order.
  function Remaining(rows: seq<EnrolmentRow>, key: Key): seq<EnrolmentRow> {
    if rows == [] then []
    else
      var front, last := rows[..|rows| - 1], rows[|rows| - 1];
      Remaining(front, key) + if KeyOf(last) != key && Weight(last).Ok? then [] else [last]
  }

  lemma {:induction false} PartsAreRows(rows: seq<EnrolmentRow>, key: Key)
    ensures multiset(ReadableOthers(rows, key)) + multiset(Remaining(rows, key)) == multiset(rows)
  {
    hide Weight, KeyOf;
    if rows != [] {
      PartsAreRows(rows[..|rows| - 1], key);
      assert rows == rows[..|rows| - 1] + [rows[|rows| - 1]];
    }
  }

  lemma {:induction false} OthersWithout(rows: seq<EnrolmentRow>, j: nat)
    requires j < |rows|
    ensures ReadableOthers(Without(rows, j), KeyOf(rows[j])) == ReadableOthers(rows, KeyOf(rows[j]))
    decreases |rows|
  {
    hide Weight, KeyOf;
    var n := |rows| - 1;
    if j == n {
      assert Without(rows, j) == rows[..n];
    } else {
      OthersWithout(rows[..n], j);
      var shorter := Without(rows[..n], j);
      assert Without(rows, j) == shorter + [rows[n]];
      assert (shorter + [rows[n]])[..|shorter|] == shorter;
    }
  }

  lemma WithoutPutsBack(rows: seq<EnrolmentRow>, j: nat)
    requires j < |rows|
    ensures multiset(Without(rows, j)) + multiset{rows[j]} == multiset(rows)
  {
    assert rows == rows[..j] + [rows[j]] + rows[j + 1..];
  }

  // The record with row j in front, the readable rows of the other subjects next, and the rest after them.
  function Arranged(rows: seq<EnrolmentRow>, j: nat): seq<EnrolmentRow>
    requires j < |rows|
  {
    [rows[j]] + ReadableOthers(rows, KeyOf(rows[j])) + Remaining(Without(rows, j), KeyOf(rows[j]))
  }

  lemma ArrangedIsPermutation(rows: seq<EnrolmentRow>, j: nat)
    requires j < |rows| && MarksInRange(rows)
    ensures multiset(Arranged(rows, j)) == multiset(rows) && MarksInRange(Arranged(rows, j))
  {
    hide KeyOf, Weight, ReadableOthers, Remaining;
    var w, key := Without(rows, j), KeyOf(rows[j]);
    OthersWithout(rows, j);
    PartsAreRows(w, key);
    WithoutPutsBack(rows, j);
    PermutedRows(rows, Arranged(rows, j));
  }

  // Its first rows are that row and the readable ones.
  lemma ArrangedFirsts(rows: seq<EnrolmentRow>, j: nat)
    requires j < |rows| && MarksInRange(rows) && !HasUnreadableSubject(rows)
    ensures Firsts(Arranged(rows, j)) == [rows[j]] + Firsts(ReadableOthers(rows, KeyOf(rows[j])))
  {
    hide KeyOf, Weight, Seen, Firsts, HasUnreadableSubject, ReadableOthers, Remaining, MarksInRange;
    var x := rows[j];
    var others, rest := ReadableOthers(rows, KeyOf(x)), Remaining(Without(rows, j), KeyOf(x));
    ArrangedIsPermutation(rows, j);
    PermutedRows(rows, Arranged(rows, j));
    forall row | row in rest ensures Seen([x] + others, KeyOf(row)) {
      assert row in Arranged(rows, j);
      ArrangedHasKey(x, rows, row);
    }
    FirstsOfRepeats([x] + others, rest);
    ReadableOthersAre(rows, KeyOf(x));
    SeenIff(others, KeyOf(x));
    FirstsBehind(x, others);
  }

  lemma ArrangedHasKey(x: EnrolmentRow, rows: seq<EnrolmentRow>, row: EnrolmentRow)
    requires x in rows && row in rows && !HasUnreadableSubject(rows)
    ensures Seen([x] + ReadableOthers(rows, KeyOf(x)), KeyOf(row))
  {
    hide KeyOf, Weight, Seen, ReadableOthers, AllUnreadable;
    var others := ReadableOthers(rows, KeyOf(x));
    SeenBehind(x, others, KeyOf(row));
    if KeyOf(row) != KeyOf(x) {
      ReadableOthersAre(rows, KeyOf(x));
      SeenIff(others, KeyOf(row));
      var y := ReadableRow(rows, KeyOf(row));
      assert y in others;
    }
  }

  lemma {:induction false} TallyBehind(x: EnrolmentRow, rows: seq<EnrolmentRow>)
    ensures Tally([x] + rows) == Add(Weight(x), Tally(rows))
  {
    hide Weight;
    if rows == [] {
      assert [x] + [] == [x] && [x][..0] == [];
      assert Tally([]) == Ok(Totals(0, 0));
    } else {
      var n := |rows| - 1;
      assert [x] + rows == ([x] + rows[..n]) + [rows[n]];
      TallyNext([x] + rows[..n], rows[n]);
      TallyBehind(x, rows[..n]);
    }
  }

  // What the arrangement adds up to depends on the row in front only.
  lemma ArrangedTally(rows: seq<EnrolmentRow>, j: nat)
    requires j < |rows| && MarksInRange(rows) && !HasUnreadableSubject(rows)
    ensures var rest := Tally(Firsts(ReadableOthers(rows, KeyOf(rows[j]))));
      rest.Ok? && Tally(Firsts(Arranged(rows, j))) == Add(Weight(rows[j]), rest)
  {
    hide KeyOf, Weight, Firsts, Tally, Arranged, HasUnreadableSubject;
    var others := ReadableOthers(rows, KeyOf(rows[j]));
    ReadableOthersAre(rows, KeyOf(rows[j]));
    FirstsAreRows(others);
    ReadableTally(Firsts(others));
    ArrangedFirsts(rows, j);
    TallyBehind(rows[j], Firsts(others));
  }

  lemma WamFromTally(rows: seq<EnrolmentRow>)
    requires MarksInRange(rows) && !Conflicts(rows)
    ensures WamOf(rows).Ok? <==> Tally(Firsts(rows)).Ok?
    ensures WamOf(rows).Ok? ==> WamOf(rows).value.cp == Tally(Firsts(rows)).value.cp
  {
    hide Firsts, Tally, Conflicts, Divide, RoundDown;
  }

  // Two rows that pass for repeats and contribute differently give two permutations with different results.
  lemma DisagreementShows(rows: seq<EnrolmentRow>, i: nat, j: nat)
    requires MarksInRange(rows) && !Conflicts(rows) && !HasUnreadableSubject(rows) && i < |rows| && j < |rows|
    requires KeyOf(rows[i]) == KeyOf(rows[j]) && SameResult(rows[i], rows[j]) && Weight(rows[i]) != Weight(rows[j])
    ensures !OrderIsIrrelevant(rows)
  {
    hide KeyOf, Weight, Firsts, Tally, Conflicts, SameResult, WamOf, Arranged, HasUnreadableSubject, MarksInRange;
    ArrangedIsPermutation(rows, i);
    ArrangedIsPermutation(rows, j);
    PermutedRows(rows, Arranged(rows, i));
    PermutedRows(rows, Arranged(rows, j));
    SameConflicts(rows, Arranged(rows, i));
    SameConflicts(rows, Arranged(rows, j));
    ArrangedTally(rows, i);
    ArrangedTally(rows, j);
    WamFromTally(Arranged(rows, i));
    WamFromTally(Arranged(rows, j));
    if Weight(rows[i]).Ok? && Weight(rows[j]).Ok? {
      WeightsShareCp(rows[i], rows[j]);
    }
    assert WamOf(Arranged(rows, i)) != WamOf(Arranged(rows, j));
  }

  lemma UnreadableAnyway(rows: seq<EnrolmentRow>)
    requires MarksInRange(rows) && HasUnreadableSubject(rows)
    ensures WamOf(rows).Unreadable?
  {
    hide KeyOf, Weight, Seen, Firsts, Tally, ResultOf;
    var row :| row in rows && AllUnreadable(rows, KeyOf(row));
    SeenIff(rows, KeyOf(row));
    FirstsHaveEveryKey(rows, KeyOf(row));
    SeenIff(Firsts(rows), KeyOf(row));
    FirstsAreRows(rows);
    var x :| x in Firsts(rows) && KeyOf(x) == KeyOf(row);
    var k :| 0 <= k < |Firsts(rows)| && Firsts(rows)[k] == x;
    TallyFails(Firsts(rows), k);
  }

  lemma SameUnreadable(a: seq<EnrolmentRow>, b: seq<EnrolmentRow>)
    requires SameRows(a, b) && HasUnreadableSubject(a)
    ensures HasUnreadableSubject(b)
  {
    hide KeyOf, Weight;
    var row :| row in a && AllUnreadable(a, KeyOf(row));
    assert row in b && AllUnreadable(b, KeyOf(row));
  }

  // The order of the rows is irrelevant exactly when the record is refused in every order (two rows
  // conflict, or a subject has unreadable rows only), or all rows that pass for repeats contribute the
  // same: grade and status are not compared, so they may not.
  lemma OrderIsIrrelevantIff(rows: seq<EnrolmentRow>)
    requires MarksInRange(rows)
    ensures OrderIsIrrelevant(rows) <==> Conflicts(rows) || HasUnreadableSubject(rows) || RepeatsAgree(rows)
  {
    hide KeyOf, Weight, Conflicts, SameResult, WamOf, HasUnreadableSubject, RepeatsAgree, SameRows, MarksInRange;
    if Conflicts(rows) || HasUnreadableSubject(rows) || RepeatsAgree(rows) {
      forall other | multiset(other) == multiset(rows) && MarksInRange(other) ensures WamOf(other) == WamOf(rows) {
        PermutedRows(rows, other);
        SameResults(rows, other);
      }
    } else {
      var i, j := Disagreement(rows);
      DisagreementShows(rows, i, j);
    }
  }

  lemma Disagreement(rows: seq<EnrolmentRow>) returns (i: nat, j: nat)
    requires !RepeatsAgree(rows)
    ensures i < |rows| && j < |rows|
    ensures KeyOf(rows[i]) == KeyOf(rows[j]) && SameResult(rows[i], rows[j]) && Weight(rows[i]) != Weight(rows[j])
  {
    hide KeyOf, Weight, SameResult;
    var x, y :| x in rows && y in rows && KeyOf(x) == KeyOf(y) && SameResult(x, y) && Weight(x) != Weight(y);
    i :| 0 <= i < |rows| && rows[i] == x;
    j :| 0 <= j < |rows| && rows[j] == y;
  }

  lemma SameResults(rows: seq<EnrolmentRow>, other: seq<EnrolmentRow>)
    requires MarksInRange(rows) && MarksInRange(other) && SameRows(rows, other)
    requires Conflicts(rows) || HasUnreadableSubject(rows) || RepeatsAgree(rows)
    ensures WamOf(other) == WamOf(rows)
  {
    hide KeyOf, Weight, Conflicts, HasUnreadableSubject, RepeatsAgree, SameRows, Firsts, Tally, ResultOf;
    SameConflicts(rows, other);
    if HasUnreadableSubject(rows) {
      SameUnreadable(rows, other);
      UnreadableAnyway(rows);
      UnreadableAnyway(other);
    } else if RepeatsAgree(rows) {
      WamIgnoresOrder(rows, other);
    }
  }

  // A completed subject and the same subject withdrawn, with the same mark, pass for repeats.
  lemma RepeatsMayDisagree()
    ensures exists rows :: MarksInRange(rows) && !OrderIsIrrelevant(rows)
  {
    hide OrderIsIrrelevant, Conflicts, HasUnreadableSubject, Weight, SameResult, KeyOf, MarksInRange;
    var x := Finished("Complete");
    var y := Finished("Withdrawn");
    FinishedWeighs();
    PairIsReadable(x, y);
    DisagreementShows([x, y], 0, 1);
  }

  function Finished(status: string): EnrolmentRow {
    EnrolmentRow(2025, "Autumn", "Wollongong", "CSIT111", 6, Some("HD"), status, Some(90))
  }

  lemma FinishedWeighs()
    ensures Weight(Finished("Complete")) == Ok(Totals(6, 540)) && Weight(Finished("Withdrawn")) == Ok(Totals(0, 0))
    ensures KeyOf(Finished("Complete")) == KeyOf(Finished("Withdrawn"))
    ensures SameResult(Finished("Complete"), Finished("Withdrawn"))
    ensures Finished("Complete").mark == Finished("Withdrawn").mark == Some(90)
  {
    assert "Withdrawn"[0] == 'W';
  }

  lemma ReadableKey(rows: seq<EnrolmentRow>, row: EnrolmentRow)
    requires row in rows && Weight(row).Ok?
    ensures !AllUnreadable(rows, KeyOf(row))
  {
    hide Weight, KeyOf;
  }

  lemma PairIsReadable(x: EnrolmentRow, y: EnrolmentRow)
    requires Weight(x).Ok? && Weight(y).Ok? && SameResult(x, y) && x.mark == y.mark == Some(90)
    ensures !Conflicts([x, y]) && !HasUnreadableSubject([x, y]) && MarksInRange([x, y])
  {
    hide Weight, KeyOf, AllUnreadable;
    var rows := [x, y];
    assert rows[0] == x && rows[1] == y;
    assert forall row :: row in rows ==> row == x || row == y;
    forall row | row in rows ensures !AllUnreadable(rows, KeyOf(row)) {
      ReadableKey(rows, row);
    }
  }

  // Contributions of rows with equal mark and credit points differ only by being counted.
  lemma WeightsShareCp(x: EnrolmentRow, y: EnrolmentRow)
    requires SameResult(x, y) && Weight(x).Ok? && Weight(y).Ok? && Weight(x) != Weight(y)
    ensures Weight(x).value.cp != Weight(y).value.cp
  {
  }

  // ---------------------------------------------------------------- a record pasted twice

  lemma {:induction false} FirstsOfRepeats(rows: seq<EnrolmentRow>, extra: seq<EnrolmentRow>)
    requires forall row :: row in extra ==> Seen(rows, KeyOf(row))
    ensures Firsts(rows + extra) == Firsts(rows)
  {
    if extra == [] {
      assert rows + extra == rows;
    } else {
      hide Seen, KeyOf, Firsts;
      var n := |extra| - 1;
      var longer := rows + extra[..n];
      assert rows + extra == longer + [extra[n]];
      FirstsOfRepeats(rows, extra[..n]);
      FirstsNext(longer, extra[n]);
      SeenIff(rows, KeyOf(extra[n]));
      SeenIff(longer, KeyOf(extra[n]));
    }
  }

  // Pasting a record twice changes nothing, whatever it holds.
  lemma PastedTwice(rows: seq<EnrolmentRow>)
    requires MarksInRange(rows)
    ensures MarksInRange(rows + rows) && WamOf(rows + rows) == WamOf(rows)
  {
    hide Firsts, Seen, Conflicts, Tally, ResultOf, KeyOf;
    SameConflicts(rows, rows + rows);
    forall row | row in rows ensures Seen(rows, KeyOf(row)) {
      SeenIff(rows, KeyOf(row));
    }
    FirstsOfRepeats(rows, rows);
  }
}
