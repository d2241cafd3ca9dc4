/**
 The weighted average mark of a pasted record: app/services/wam.py over the parser of
 app/services/enrolment.py.

 The parser reads marks within 0 to 100 only, which is all that the average asks of its rows;
 an unreadable paste has no average.
 */
module WamOfPaste {
  import opened Records
  import EnrolmentValues
  import opened EnrolmentMarks
  import opened EnrolmentFlatRows
  import opened EnrolmentFlatText
  import opened EnrolmentFlatRoundTrip
  import opened SolsRecords
  import opened SolsOnOneLine
  import opened SolsProjection
  import opened Projection
  import opened Wam
  import opened WamLaws
  import opened WamSpelledOut

  lemma ParsedMarksAreInRange(raw: string)
    requires Parsed(raw, true).Ok?
    ensures MarksInRange(Parsed(raw, true).value.rows)
  {
    hide Parsed, EnrolmentValues.IsPrintable;
    ParsedIsPrintable(raw, true);
    var rows := Parsed(raw, true).value.rows;
    forall row | row in rows && row.mark.Some? ensures 0 <= row.mark.value <= 100 {
      var k :| 0 <= k < |rows| && rows[k] == row;
      assert EnrolmentValues.MarkIsRead(rows[k], true);
    }
  }

  // `calculate_wam`
  method CalculateWamOfPaste(raw: string) returns (r: Result<WamResult>)
    ensures Parsed(raw, true).Unreadable? ==> r.Unreadable?
    ensures Parsed(raw, true).Ok? ==> MarksInRange(Parsed(raw, true).value.rows) && r == WamOf(Parsed(raw, true).value.rows)
  {
    hide Parsed, WamOf;
    var record := ParseEnrolment(raw, true);
    if record.Unreadable? {
      return Unreadable;
    }
    ParsedMarksAreInRange(raw);
    r := CalculateWam(record.value.rows);
  }

  lemma KeptMarksAreInRange(rows: seq<EnrolmentRow>)
    requires forall k :: 0 <= k < |rows| ==> HasMarkInRange(rows[k])
    ensures MarksInRange(rows)
  {
    forall row | row in rows && row.mark.Some? ensures 0 <= row.mark.value <= 100 {
      var k :| 0 <= k < |rows| && rows[k] == row;
    }
  }

  // The result for these rows: refused exactly when two of them clash or one that counts is refused; otherwise the
  // credit points that count, and the largest number of hundredths that the marks reach.
  ghost predicate IsAverageOf(r: Result<WamResult>, rows: seq<EnrolmentRow>) {
    var cp, points := CreditPoints(rows, |rows|), Points(rows, |rows|);
    if Clash(rows) || HasRefused(rows, |rows|) then r.Unreadable?
    else
      && r.Ok? && r.value.cp == cp && (r.value.wam.None? <==> cp == 0)
      && (r.value.wam.Some? ==> r.value.wam.value * cp <= 100 * points < (r.value.wam.value + 1) * cp)
  }

  function PrintedRows(rows: seq<SolsRow>): seq<EnrolmentRow> {
    seq(|rows|, k requires 0 <= k < |rows| => rows[k].row)
  }

  lemma AverageIs(rows: seq<EnrolmentRow>)
    requires MarksInRange(rows) && |rows| <= LONGEST
    ensures IsAverageOf(WamOf(rows), rows)
  {
    hide WamOf, Clash, HasRefused, CreditPoints, Points, MarksInRange;
    WamIs(rows);
  }

  // A record in the layout of SOLS is averaged over the marks that it prints: whatever stands before the
  // tables, the paste's rows are the printed ones, marks included.
  lemma PrintedMarksAreAveraged(front: seq<string>, rows: seq<SolsRow>, credits: seq<SolsCredit>, unspecified: seq<CreditRow>)
    requires IsSolsRecord(front, rows, credits, unspecified)
    ensures var parsed := Parsed(SolsText(front, rows, credits, unspecified), true);
      && parsed.Ok? && parsed.value.rows == PrintedRows(rows) && MarksInRange(parsed.value.rows)
      && (|rows| <= LONGEST ==> IsAverageOf(WamOf(parsed.value.rows), PrintedRows(rows)))
  {
    hide Parsed, SolsText, WamOf, IsAverageOf, EnrolmentValues.IsPrintableRow, IsDelivery, AreSolsCredits, AreFrontLines, EnrolmentValues.ArePrintableCredits,
      EnrolmentValues.HaveNoCode;
    SolsIsParsed(front, rows, credits, unspecified);
    var kept := AllKept(rows, true);
    forall k | 0 <= k < |rows| ensures HasMarkInRange(kept[k]) {
      assert IsSolsRow(rows[k]);
    }
    KeptMarksAreInRange(kept);
    assert kept == PrintedRows(rows);
    if |rows| <= LONGEST {
      AverageIs(kept);
    }
  }

  // So is one without credit that lost its line breaks.
  lemma MarksOnOneLineAreAveraged(front: seq<string>, rows: seq<EnrolmentRow>)
    requires AreFrontLines(front) && IsQuietLine(AllWords(front)) && rows != [] && AreFlatMarked(rows)
    ensures var parsed := Parsed(OnOneLine(SolsText(front, Plainly(rows), [], [])), true);
      && parsed.Ok? && parsed.value.rows == rows && MarksInRange(rows)
      && (|rows| <= LONGEST ==> IsAverageOf(WamOf(rows), rows))
  {
    hide Parsed, WamOf, IsAverageOf, SolsText, OnOneLine, EnrolmentValues.IsPrintableRow, AreFrontLines, IsQuietLine, AllWords, IsAlphabetic, IsSession;
    SolsOnOneLineIsParsed(front, rows, true);
    assert KeptRows(rows, true) == rows;
    forall k | 0 <= k < |rows| ensures HasMarkInRange(rows[k]) {
      assert IsFlatMarked(rows[k]);
    }
    KeptMarksAreInRange(rows);
    if |rows| <= LONGEST {
      AverageIs(rows);
    }
  }
}
