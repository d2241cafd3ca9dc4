/** The weighted average mark, spelled out row by row: app/services/wam.py. */
module WamSpelledOut {
  // Which rows count and for what, when a record is refused, and the average as an inequality: the largest
  // number of hundredths that the marks reach.

  import opened Text
  import opened Records
  import opened Wam
  import opened WamLaws

  // ---------------------------------------------------------------- one row

  predicate HasResult(row: EnrolmentRow) {
    row.status == "Complete" || row.status == "Failed"
  }

  predicate IsHeldBack(row: EnrolmentRow) {
    row.grade in {Some("WH"), Some("WD"), Some("WS"), Some("ND"), Some("IPC"), Some("IPR")}
  }

  predicate GoesWithMark(row: EnrolmentRow) {
    row.grade in {Some("HD"), Some("D"), Some("C"), Some("P"), Some("F")}
  }

  // A row with a result that cannot be right: its weight, a missing mark or grade, or a mark on the wrong
  // side of 50 for its grade.
  predicate IsRefused(row: EnrolmentRow) {
    && HasResult(row)
    && (|| row.nomCp < 0 || row.nomCp > 48
        || (!IsHeldBack(row) && row.mark.None? && (row.grade.None? || GoesWithMark(row)))
        || (row.mark.Some? && row.grade == Some("F") && row.mark.value >= 50)
        || (row.mark.Some? && row.grade != Some("F") && GoesWithMark(row) && row.mark.value < 50))
  }

  // The mark that a row contributes: its own, or 49 for a technical fail without one.
  function Counted(row: EnrolmentRow): Option<int> {
    if !HasResult(row) || IsHeldBack(row) then None
    else if row.mark.None? && row.grade == Some("TF") then Some(49)
    else row.mark
  }

  lemma GradesDiffer()
    ensures "F" != "HD" && "F" != "D" && "F" != "C" && "F" != "P" && "F" != "TF"
  {
    assert |"F"| == 1 && |"HD"| == 2 && |"TF"| == 2 && "F"[0] == 'F' && "D"[0] == 'D' && "C"[0] == 'C' && "P"[0] == 'P';
  }

  lemma MarkedIff(row: EnrolmentRow)
    ensures IsMarkedGrade(row.grade) <==> GoesWithMark(row)
    ensures IsNotFinalGrade(row.grade) <==> IsHeldBack(row)
    ensures IsFinal(row.status) <==> HasResult(row)
  {
  }

  lemma HeldBackGoesWithNoMark(row: EnrolmentRow)
    ensures !(IsHeldBack(row) && GoesWithMark(row))
    ensures row.grade == Some("TF") ==> !IsHeldBack(row) && !GoesWithMark(row)
    ensures row.grade == Some("F") ==> GoesWithMark(row)
  {
    assert "WH"[0] == 'W' && "WD"[0] == 'W' && "WS"[0] == 'W' && "ND"[0] == 'N' && "IPC"[0] == 'I' && "IPR"[0] == 'I';
    assert "HD"[0] == 'H' && "D"[0] == 'D' && "C"[0] == 'C' && "P"[0] == 'P' && "F"[0] == 'F' && "TF"[0] == 'T';
  }

  lemma CountedIs(row: EnrolmentRow)
    ensures CountedMark(row).Unreadable? <==> IsRefused(row)
    ensures CountedMark(row).Ok? ==> CountedMark(row).value == Counted(row)
  {
    hide GoesWithMark, IsMarkedGrade, IsNotFinalGrade, IsFinal, HasResult, IsHeldBack;
    MarkedIff(row);
    HeldBackGoesWithNoMark(row);
    GradesDiffer();
  }

  // ---------------------------------------------------------------- repeats

  predicate IsRepeat(a: EnrolmentRow, b: EnrolmentRow) {
    a.year == b.year && a.session == b.session && a.code == b.code
  }

  // Two rows of one subject, year and session with other marks or other credit points.
  predicate Clash(rows: seq<EnrolmentRow>) {
    exists i, j :: 0 <= i < j < |rows| && IsRepeat(rows[i], rows[j]) && (rows[i].mark != rows[j].mark || rows[i].nomCp != rows[j].nomCp)
  }

  lemma ClashIff(rows: seq<EnrolmentRow>)
    ensures Conflicts(rows) <==> Clash(rows)
  {
    if i, j :| 0 <= i < j < |rows| && KeyOf(rows[i]) == KeyOf(rows[j]) && !SameResult(rows[i], rows[j]) {
      assert IsRepeat(rows[i], rows[j]);
    }
    if i, j :| 0 <= i < j < |rows| && IsRepeat(rows[i], rows[j]) && (rows[i].mark != rows[j].mark || rows[i].nomCp != rows[j].nomCp) {
      assert KeyOf(rows[i]) == KeyOf(rows[j]) && !SameResult(rows[i], rows[j]);
    }
  }

  // Row k repeats no row before it.
  predicate IsNew(rows: seq<EnrolmentRow>, k: nat)
    requires k < |rows|
  {
    forall i :: 0 <= i < k ==> !IsRepeat(rows[i], rows[k])
  }

  // Credit points of the first n rows that are new and contribute a mark, and the same times the marks.
  function CreditPoints(rows: seq<EnrolmentRow>, n: nat): int
    requires n <= |rows|
  {
    if n == 0 then 0
    else CreditPoints(rows, n - 1) + if IsNew(rows, n - 1) && Counted(rows[n - 1]).Some? then rows[n - 1].nomCp else 0
  }

  function Points(rows: seq<EnrolmentRow>, n: nat): int
    requires n <= |rows|
  {
    if n == 0 then 0
    else
      var last := if IsNew(rows, n - 1) && Counted(rows[n - 1]).Some? then rows[n - 1].nomCp * Counted(rows[n - 1]).value else 0;
      Points(rows, n - 1) + last
  }

  // Some row that is new is refused.
  predicate HasRefused(rows: seq<EnrolmentRow>, n: nat)
    requires n <= |rows|
  {
    exists k :: 0 <= k < n && IsNew(rows, k) && IsRefused(rows[k])
  }

  lemma SeenIff(rows: seq<EnrolmentRow>, k: nat)
    requires k < |rows|
    ensures Seen(rows[..k], KeyOf(rows[k])) <==> !IsNew(rows, k)
  {
    assert forall i :: 0 <= i < k ==> (KeyOf(rows[..k][i]) == KeyOf(rows[k]) <==> IsRepeat(rows[i], rows[k]));
  }

  lemma {:induction false} TallyIs(rows: seq<EnrolmentRow>, n: nat)
    requires n <= |rows|
    ensures Tally(Firsts(rows[..n])).Unreadable? <==> HasRefused(rows, n)
    ensures Tally(Firsts(rows[..n])).Ok? ==> Tally(Firsts(rows[..n])).value == Totals(CreditPoints(rows, n), Points(rows, n))
  {
    hide Counted, CountedMark, IsRefused, Seen, IsNew, Firsts, Tally;
    if n == 0 {
      NothingToTally();
      RemembersNothing();
      assert rows[..0] == [];
    } else {
      TallyIs(rows, n - 1);
      assert rows[..n] == rows[..n - 1] + [rows[n - 1]];
      FirstsNext(rows[..n - 1], rows[n - 1]);
      SeenIff(rows, n - 1);
      CountedIs(rows[n - 1]);
      if IsNew(rows, n - 1) {
        TallyNext(Firsts(rows[..n - 1]), rows[n - 1]);
      }
      RefusedStep(rows, n);
    }
  }

  lemma RefusedStep(rows: seq<EnrolmentRow>, n: nat)
    requires 0 < n <= |rows|
    ensures HasRefused(rows, n) <==> HasRefused(rows, n - 1) || (IsNew(rows, n - 1) && IsRefused(rows[n - 1]))
  {
    hide IsNew, IsRefused;
  }

  // ---------------------------------------------------------------- the average

  lemma CutIs(w: int, c: int, r: int)
    requires c > 0 && r == 100 * w / c
    ensures r * c <= 100 * w < (r + 1) * c
  {
    assert (r + 1) * c == r * c + c;
  }

  // A record is refused exactly when two rows clash or a row that counts for its subject is refused. Otherwise
  // the result has the counted credit points, and the average is the largest number of hundredths that,
  // times the credit points, does not pass a hundred times the points; there is none without credit points.
  lemma WamIs(rows: seq<EnrolmentRow>)
    requires MarksInRange(rows) && |rows| <= LONGEST
    ensures WamOf(rows).Unreadable? <==> Clash(rows) || HasRefused(rows, |rows|)
    ensures WamOf(rows).Ok? ==>
      var r, cp, points := WamOf(rows).value, CreditPoints(rows, |rows|), Points(rows, |rows|);
      && r.cp == cp && (r.wam.None? <==> cp == 0)
      && (r.wam.Some? ==> r.wam.value * cp <= 100 * points < (r.wam.value + 1) * cp)
  {
    hide Firsts, Tally, Conflicts, Clash, HasRefused, CreditPoints, Points, MarksInRange, ResultOf;
    ClashIff(rows);
    TallyIs(rows, |rows|);
    assert rows[..|rows|] == rows;
    if WamOf(rows).Ok? {
      WamIsTruncated(rows);
      if CreditPoints(rows, |rows|) != 0 {
        UniqueTallyInRange(rows);
        CutIs(Points(rows, |rows|), CreditPoints(rows, |rows|), WamOf(rows).value.wam.value);
      }
    }
  }
}
