/** The weighted average mark of app/services/wam.py. */
module Wam {
  import opened Text
  import opened Records

  const TECHNICAL_FAIL_MARK := 49
  const PASS_MARK := 50
  const MAX_SUBJECT_CP := 48

  predicate IsFinal(status: string) {
    status == "Complete" || status == "Failed"
  }

  predicate IsMarkedGrade(grade: Option<string>) {
    grade.Some? && grade.value in {"HD", "D", "C", "P", "F"}
  }

  predicate IsNotFinalGrade(grade: Option<string>) {
    grade.Some? && grade.value in {"WH", "WD", "WS", "ND", "IPC", "IPR"}
  }

  // ---------------------------------------------------------------- one row

  function MarkFor(row: EnrolmentRow): Option<int> {
    if row.mark.Some? then row.mark
    else if row.grade == Some("TF") then Some(TECHNICAL_FAIL_MARK)
    else None
  }

  // A grade that comes with a mark has one on its side of the pass mark; a row without a mark has
  // some other grade.
  predicate IsConsistent(row: EnrolmentRow) {
    if IsMarkedGrade(row.grade) then row.mark.Some? && (row.mark.value >= PASS_MARK <==> row.grade != Some("F"))
    else row.mark.Some? || row.grade.Some?
  }

  // The mark to count, unless the row cannot be trusted.
  function CheckedMark(row: EnrolmentRow): (r: Result<Option<int>>)
    ensures r.Ok? <==> 0 <= row.nomCp <= MAX_SUBJECT_CP && (IsNotFinalGrade(row.grade) || IsConsistent(row))
    ensures r.Ok? && r.value.Some? ==> !IsNotFinalGrade(row.grade)
    ensures r.Ok? && r.value.Some? ==> r.value == row.mark || (row.grade == Some("TF") && r.value == Some(TECHNICAL_FAIL_MARK))
    ensures r.Ok? && r.value.None? && row.mark.Some? ==> IsNotFinalGrade(row.grade)
  {
    if !(0 <= row.nomCp <= MAX_SUBJECT_CP) then Unreadable
    else if IsNotFinalGrade(row.grade) then Ok(None)
    else if row.mark == None && row.grade == None then Unreadable
    else if row.mark == None && IsMarkedGrade(row.grade) then Unreadable
    else if row.mark.Some? && IsMarkedGrade(row.grade) && (row.mark.value >= PASS_MARK) != (row.grade != Some("F")) then Unreadable
    else Ok(MarkFor(row))
  }

  function CountedMark(row: EnrolmentRow): Result<Option<int>> {
    if IsFinal(row.status) then CheckedMark(row) else Ok(None)
  }

  // Credit points, and credit points times mark.
  datatype Totals = Totals(cp: int, weighted: int)

  // What a row adds to the average.
  function Weight(row: EnrolmentRow): Result<Totals> {
    match CountedMark(row)
    case Unreadable => Unreadable
    case Ok(None) => Ok(Totals(0, 0))
    case Ok(Some(mark)) => Ok(Totals(row.nomCp, row.nomCp * mark))
  }

  function Add(a: Result<Totals>, b: Result<Totals>): Result<Totals> {
    if a.Ok? && b.Ok? then Ok(Totals(a.value.cp + b.value.cp, a.value.weighted + b.value.weighted)) else Unreadable
  }

  function Tally(rows: seq<EnrolmentRow>): Result<Totals> {
    if rows == [] then Ok(Totals(0, 0)) else Add(Tally(rows[..|rows| - 1]), Weight(rows[|rows| - 1]))
  }

  // ---------------------------------------------------------------- repeats

  type Key = (int, string, string)

  function KeyOf(row: EnrolmentRow): Key {
    (row.year, row.session, row.code)
  }

  predicate SameResult(a: EnrolmentRow, b: EnrolmentRow) {
    a.mark == b.mark && a.nomCp == b.nomCp
  }

  predicate Conflicts(rows: seq<EnrolmentRow>) {
    exists i, j :: 0 <= i < j < |rows| && KeyOf(rows[i]) == KeyOf(rows[j]) && !SameResult(rows[i], rows[j])
  }

  predicate Seen(rows: seq<EnrolmentRow>, key: Key) {
    exists i :: 0 <= i < |rows| && KeyOf(rows[i]) == key
  }

  // The first row of every key, in order.
  function Firsts(rows: seq<EnrolmentRow>): seq<EnrolmentRow> {
    if rows == [] then []
    else
      var n := |rows| - 1;
      if Seen(rows[..n], KeyOf(rows[n])) then Firsts(rows[..n]) else Firsts(rows[..n]) + [rows[n]]
  }

  // Drop exact repeats; refuse conflicting ones.
  function Unique(rows: seq<EnrolmentRow>): Result<seq<EnrolmentRow>> {
    if Conflicts(rows) then Unreadable else Ok(Firsts(rows))
  }

  // The dictionary holds a row of every key among the rows so far, and all rows so far agree with it.
  ghost predicate Remembers(seen: map<Key, EnrolmentRow>, rows: seq<EnrolmentRow>) {
    && (forall key :: key in seen ==> seen[key] in rows && KeyOf(seen[key]) == key)
    && (forall row :: row in rows ==> KeyOf(row) in seen && SameResult(seen[KeyOf(row)], row))
  }

  lemma RemembersNext(seen: map<Key, EnrolmentRow>, rows: seq<EnrolmentRow>, row: EnrolmentRow)
    requires Remembers(seen, rows)
    ensures KeyOf(row) in seen <==> Seen(rows, KeyOf(row))
    ensures KeyOf(row) !in seen ==> Remembers(seen[KeyOf(row) := row], rows + [row])
    ensures KeyOf(row) in seen && SameResult(seen[KeyOf(row)], row) ==> Remembers(seen, rows + [row])
    ensures KeyOf(row) in seen && !SameResult(seen[KeyOf(row)], row) ==> Conflicts(rows + [row])
  {
    var key := KeyOf(row);
    if key in seen {
      var i :| 0 <= i < |rows| && rows[i] == seen[key];
      assert KeyOf(rows[i]) == key;
      assert (rows + [row])[i] == rows[i] && (rows + [row])[|rows|] == row;
    }
  }

  lemma RemembersNoConflict(seen: map<Key, EnrolmentRow>, rows: seq<EnrolmentRow>)
    requires Remembers(seen, rows)
    ensures !Conflicts(rows)
  {
    forall i, j | 0 <= i < j < |rows| && KeyOf(rows[i]) == KeyOf(rows[j]) ensures SameResult(rows[i], rows[j]) {
      assert rows[i] in rows && rows[j] in rows;
    }
  }

  lemma ConflictsLater(rows: seq<EnrolmentRow>, k: nat)
    requires k <= |rows| && Conflicts(rows[..k])
    ensures Conflicts(rows)
  {
    var i, j :| 0 <= i < j < k && KeyOf(rows[..k][i]) == KeyOf(rows[..k][j]) && !SameResult(rows[..k][i], rows[..k][j]);
    assert rows[i] == rows[..k][i] && rows[j] == rows[..k][j];
  }

  lemma FirstsNext(rows: seq<EnrolmentRow>, row: EnrolmentRow)
    ensures Firsts(rows + [row]) == if Seen(rows, KeyOf(row)) then Firsts(rows) else Firsts(rows) + [row]
  {
    hide Seen;
    assert (rows + [row])[..|rows|] == rows;
  }

  // `_unique`: a dictionary in order of first insertion.
  method DropRepeats(rows: seq<EnrolmentRow>) returns (r: Result<seq<EnrolmentRow>>)
    ensures r == Unique(rows)
  {
    hide Firsts, Seen, Conflicts, Remembers, SameResult;
    var seen: map<Key, EnrolmentRow> := map[];
    var values: seq<EnrolmentRow> := [];
    RemembersNothing();
    for k := 0 to |rows|
      invariant Remembers(seen, rows[..k]) && values == Firsts(rows[..k])
    {
      var row := rows[k];
      assert rows[..k + 1] == rows[..k] + [row];
      RemembersNext(seen, rows[..k], row);
      FirstsNext(rows[..k], row);
      if KeyOf(row) !in seen {
        seen := seen[KeyOf(row) := row];
        values := values + [row];
      } else if !SameResult(seen[KeyOf(row)], row) {
        ConflictsLater(rows, k + 1);
        return Unreadable;
      }
    }
    assert rows[..|rows|] == rows;
    RemembersNoConflict(seen, rows);
    r := Ok(values);
  }

  lemma RemembersNothing()
    ensures Remembers(map[], []) && Firsts([]) == []
  {
  }

  // ---------------------------------------------------------------- the average

  // Round n / c to the nearest integer, halves to even.
  function HalfEven(n: nat, c: nat): nat
    requires c > 0
  {
    var q := n / c;
    var rest := 2 * (n % c);
    if rest < c || (rest == c && q % 2 == 0) then q else q + 1
  }

  const TEN_TO_27 := 1_000_000_000_000_000_000_000_000_000

  predicate PowerOfTen(e: nat) {
    e == 1 || (e % 10 == 0 && e > 0 && PowerOfTen(e / 10))
  }

  // The power of ten that gives the quotient w / c its 28 significant digits.
  function ScaleFrom(w: nat, c: nat, e: nat): (r: nat)
    requires w > 0 && e > 0
    ensures r >= e && w * r >= TEN_TO_27 * c
    ensures PowerOfTen(e) ==> PowerOfTen(r)
    decreases Missing(w, c, e)
  {
    if Reaches(w, c, e) then e
    else
      TenfoldIsNearer(w, c, e);
      TenfoldIsPower(e);
      hide *;
      ScaleFrom(w, c, 10 * e)
  }

  predicate Reaches(w: nat, c: nat, e: nat) {
    w * e >= TEN_TO_27 * c
  }

  ghost function Missing(w: nat, c: nat, e: nat): int {
    TEN_TO_27 * c - w * e
  }

  lemma TenfoldIsNearer(w: nat, c: nat, e: nat)
    requires w > 0 && e > 0
    ensures Missing(w, c, 10 * e) < Missing(w, c, e) && (!Reaches(w, c, e) ==> Missing(w, c, e) > 0)
  {
    assert w * (10 * e) == w * e + w * (9 * e);
    assert w * (9 * e) > 0;
  }

  lemma TenfoldIsPower(e: nat)
    ensures PowerOfTen(e) && e > 0 ==> PowerOfTen(10 * e)
  {
    assert 10 * e / 10 == e && 10 * e % 10 == 0;
  }

  // A decimal number: coefficient over a power of ten.
  datatype Decimal28 = Decimal28(coefficient: nat, scale: nat)

  // `Decimal(w) / Decimal(c)` with 28 significant digits.
  function Divide(w: nat, c: nat): (d: Decimal28)
    requires 0 < c && w <= 100 * c
    ensures d.scale > 0
  {
    if w == 0 then Decimal28(0, 1)
    else
      var e := ScaleFrom(w, c, 1);
      Decimal28(HalfEven(w * e, c), e)
  }

  // `.quantize(Decimal("0.01"), rounding=ROUND_DOWN)`, in hundredths.
  function RoundDown(d: Decimal28): nat
    requires d.scale > 0
  {
    100 * d.coefficient / d.scale
  }

  // Marks come out of the parser within 0..100.
  predicate MarksInRange(rows: seq<EnrolmentRow>) {
    forall row :: row in rows && row.mark.Some? ==> 0 <= row.mark.value <= 100
  }

  datatype WamResult = WamResult(wam: Option<nat>, cp: nat)

  // Every counted mark of these rows lies in lo..hi.
  ghost predicate MarksBetween(rows: seq<EnrolmentRow>, lo: int, hi: int) {
    forall row :: row in rows && CountedMark(row).Ok? && CountedMark(row).value.Some? ==>
      lo <= CountedMark(row).value.value <= hi
  }

  lemma WeightBetween(row: EnrolmentRow, lo: int, hi: int)
    requires MarksBetween([row], lo, hi) && Weight(row).Ok?
    ensures var t := Weight(row).value; 0 <= t.cp <= MAX_SUBJECT_CP && lo * t.cp <= t.weighted <= hi * t.cp
  {
    hide CheckedMark;
    assert row in [row];
    if CountedMark(row).value.Some? {
      var mark := CountedMark(row).value.value;
      assert lo * row.nomCp <= mark * row.nomCp <= hi * row.nomCp;
    }
  }

  lemma {:induction false} TallyBetween(rows: seq<EnrolmentRow>, lo: int, hi: int)
    requires MarksBetween(rows, lo, hi) && Tally(rows).Ok?
    ensures var t := Tally(rows).value; 0 <= t.cp <= MAX_SUBJECT_CP * |rows| && lo * t.cp <= t.weighted <= hi * t.cp
  {
    hide CountedMark, Weight;
    if rows != [] {
      var front := rows[..|rows| - 1];
      var last := rows[|rows| - 1];
      TallyBetween(front, lo, hi);
      assert last in rows;
      assert MarksBetween([last], lo, hi);
      WeightBetween(last, lo, hi);
      var f := Tally(front).value;
      var t := Weight(last).value;
      assert lo * (f.cp + t.cp) == lo * f.cp + lo * t.cp;
      assert hi * (f.cp + t.cp) == hi * f.cp + hi * t.cp;
    }
  }

  lemma MarksWithinHundred(rows: seq<EnrolmentRow>)
    requires MarksInRange(rows)
    ensures MarksBetween(rows, 0, 100)
  {
  }

  lemma {:induction false} FirstsAreRows(rows: seq<EnrolmentRow>)
    ensures |Firsts(rows)| <= |rows|
    ensures forall row :: row in Firsts(rows) ==> row in rows
  {
    hide Seen, KeyOf;
    if rows != [] {
      FirstsAreRows(rows[..|rows| - 1]);
    }
  }

  lemma UniqueTallyInRange(rows: seq<EnrolmentRow>)
    requires MarksInRange(rows) && Tally(Firsts(rows)).Ok?
    ensures var t := Tally(Firsts(rows)).value; 0 <= t.cp <= MAX_SUBJECT_CP * |rows| && 0 <= t.weighted <= 100 * t.cp
  {
    hide Tally, Firsts, MarksBetween;
    FirstsAreRows(rows);
    MarksWithinHundred(Firsts(rows));
    TallyBetween(Firsts(rows), 0, 100);
  }

  function ResultOf(t: Totals): WamResult
    requires 0 <= t.cp && 0 <= t.weighted <= 100 * t.cp
  {
    WamResult(if t.cp == 0 then None else Some(RoundDown(Divide(t.weighted, t.cp))), t.cp)
  }

  // `calculate_wam` after the parse.
  function WamOf(rows: seq<EnrolmentRow>): Result<WamResult>
    requires MarksInRange(rows)
  {
    if Unique(rows).Unreadable? || Tally(Unique(rows).value).Unreadable? then Unreadable
    else
      UniqueTallyInRange(rows);
      Ok(ResultOf(Tally(Unique(rows).value).value))
  }

  method CalculateWam(rows: seq<EnrolmentRow>) returns (r: Result<WamResult>)
    requires MarksInRange(rows)
    ensures r == WamOf(rows)
  {
    hide Weight, CountedMark, CheckedMark, Firsts, Conflicts, Tally, Divide, RoundDown;
    var unique := DropRepeats(rows);
    if unique.Unreadable? {
      return Unreadable;
    }
    var totalCp, weighted := 0, 0;
    NothingToTally();
    for k := 0 to |unique.value|
      invariant Tally(unique.value[..k]) == Ok(Totals(totalCp, weighted))
    {
      var row := unique.value[k];
      var mark := if IsFinal(row.status) then CheckedMark(row) else Ok(None);
      assert unique.value[..k + 1] == unique.value[..k] + [row];
      TallyNext(unique.value[..k], row);
      WeightOf(row, mark);
      if mark.Unreadable? {
        TallyFails(unique.value, k);
        return Unreadable;
      }
      if mark.value.Some? {
        totalCp := totalCp + row.nomCp;
        weighted := weighted + row.nomCp * mark.value.value;
      }
    }
    assert unique.value[..|unique.value|] == unique.value;
    UniqueTallyInRange(rows);
    r := Ok(WamResult(if totalCp != 0 then Some(RoundDown(Divide(weighted, totalCp))) else None, totalCp));
  }

  lemma NothingToTally()
    ensures Tally([]) == Ok(Totals(0, 0))
  {
  }

  lemma TallyNext(rows: seq<EnrolmentRow>, row: EnrolmentRow)
    ensures Tally(rows + [row]) == Add(Tally(rows), Weight(row))
  {
    hide Weight;
    assert (rows + [row])[..|rows|] == rows;
  }

  lemma WeightOf(row: EnrolmentRow, mark: Result<Option<int>>)
    requires mark == if IsFinal(row.status) then CheckedMark(row) else Ok(None)
    ensures Weight(row) ==
      if mark.Unreadable? then Unreadable
      else if mark.value.Some? then Ok(Totals(row.nomCp, row.nomCp * mark.value.value))
      else Ok(Totals(0, 0))
  {
  }

  lemma {:induction false} TallyFails(rows: seq<EnrolmentRow>, k: nat)
    requires k < |rows| && Weight(rows[k]).Unreadable?
    ensures Tally(rows).Unreadable?
  {
    hide Weight;
    if k < |rows| - 1 {
      TallyFails(rows[..|rows| - 1], k);
    }
  }
}
