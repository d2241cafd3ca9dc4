/** What becomes of a record in the layout of SOLS: what is parsed, what is projected, and on one line. */
module SolsProjection {
  import opened Text
  import opened Records
  import opened EnrolmentShapes
  import opened EnrolmentTable
  import opened EnrolmentPrinter
  import opened EnrolmentValues
  import opened EnrolmentReading
  import opened EnrolmentRoundTrip
  import opened EnrolmentMarks
  import opened EnrolmentFlat
  import opened EnrolmentFlatText
  import opened EnrolmentFlatRoundTrip
  import opened SolsRecords
  import opened SolsOnOneLine
  import opened Projection

  // ---------------------------------------------------------------- with its lines

  lemma SolsIsTablePaste(front: seq<string>, rows: seq<SolsRow>, credits: seq<SolsCredit>, unspecified: seq<CreditRow>)
    requires IsSolsRecord(front, rows, credits, unspecified)
    ensures IsTablePaste(SolsText(front, rows, credits, unspecified))
  {
    hide Lines, SolsLines, PipeLines, StartsWithPipe, IsTableLine, AreSolsRows, AreSolsCredits, ArePrintableCredits, HaveNoBreaks,
      AreFrontLines, HaveNoCode, Join;
    var lines := SolsLines(front, rows, credits, unspecified);
    SolsLinesHaveNoBreaks(front, rows, credits, unspecified);
    LinesJoined(lines);
    TableLineStartsWithPipe(lines[|front| + 4]);
    TableLineStartsWithPipe(lines[|front| + 5]);
    PipeLinesAtLeast(lines, |front| + 4, |front| + 5);
  }

  // The record of such a paste.
  function SolsRecord(front: seq<string>, rows: seq<SolsRow>, credits: seq<SolsCredit>, unspecified: seq<CreditRow>, keepMarks: bool):
    EnrolmentRecord
  {
    var h := FrontHeader(front);
    EnrolmentRecord(h.course, h.campus, h.majors, AllKept(rows, keepMarks), CreditsOf(credits), unspecified)
  }

  // Parsed, it gives its rows with their marks exactly if marks are kept; projected, it gives the print of the
  // record without them. Delivery modes and subject names are in neither.
  lemma SolsIsParsed(front: seq<string>, rows: seq<SolsRow>, credits: seq<SolsCredit>, unspecified: seq<CreditRow>)
    requires IsSolsRecord(front, rows, credits, unspecified)
    ensures Parsed(SolsText(front, rows, credits, unspecified), true) == Ok(SolsRecord(front, rows, credits, unspecified, true))
    ensures Parsed(SolsText(front, rows, credits, unspecified), false) == Ok(SolsRecord(front, rows, credits, unspecified, false))
    ensures Projected(SolsText(front, rows, credits, unspecified)) ==
      Ok(Rendered(SolsRecord(front, rows, credits, unspecified, false)))
  {
    hide SolsText, IsSolsRecord, IsTablePaste, TableRecord, FlatRecord, FrontHeader, Rendered;
    SolsIsTablePaste(front, rows, credits, unspecified);
    SolsReadsBack(front, rows, credits, unspecified, true);
    SolsReadsBack(front, rows, credits, unspecified, false);
  }

  // ---------------------------------------------------------------- on one line

  lemma JoinedIsNoTable(lines: seq<string>)
    requires HaveNoBreaks(lines)
    ensures !IsTablePaste(OnOneLine(Join(lines, "\n")))
  {
    hide OnOneLine, Lines, PipeLines, HasNoBreak, HaveNoBreaks, Join;
    OnOneLineJoins(lines);
    JoinedHasNoBreak(lines);
    AtMostOneLine(OnOneLine(Join(lines, "\n")));
    FewPipeLines(Lines(OnOneLine(Join(lines, "\n"))));
  }

  // Without its line breaks, and without credit, it still gives its rows, and its marks exactly if they are kept.
  lemma SolsOnOneLineIsParsed(front: seq<string>, rows: seq<EnrolmentRow>, keepMarks: bool)
    requires AreFrontLines(front) && IsQuietLine(AllWords(front)) && rows != [] && AreFlatMarked(rows)
    ensures var r := Parsed(OnOneLine(SolsText(front, Plainly(rows), [], [])), keepMarks);
      r.Ok? && r.value.rows == KeptRows(rows, keepMarks)
  {
    hide SolsLines, OnOneLine, IsTablePaste, TableRecord, FlatRecord, AreFlatMarked, IsQuietLine, AllWords, AreFrontLines, HaveNoBreaks,
      Join, AreSolsRows, IsTableLine;
    PlainRowsAreSols(rows);
    SolsLinesHaveNoBreaks(front, Plainly(rows), [], []);
    JoinedIsNoTable(SolsLines(front, Plainly(rows), [], []));
    FlatReadsSols(front, rows, keepMarks);
  }
}
