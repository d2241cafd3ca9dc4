/** A record in the layout of SOLS that lost its line breaks: the flat parser reads the same rows and marks. */
module SolsOnOneLine {
  import opened Text
  import opened Records
  import opened EnrolmentShapes
  import opened EnrolmentTable
  import opened EnrolmentPrinter
  import opened EnrolmentValues
  import opened EnrolmentHeadings
  import opened EnrolmentReading
  import opened EnrolmentRoundTrip
  import opened EnrolmentMarks
  import opened EnrolmentFlat
  import opened EnrolmentFlatLaws
  import opened EnrolmentFlatRows
  import opened EnrolmentFlatText
  import opened EnrolmentFlatRoundTrip
  import opened SolsRecords

  // ---------------------------------------------------------------- rows

  // Rows without a delivery mode.
  function Plainly(rows: seq<EnrolmentRow>): (r: seq<SolsRow>)
    ensures |r| == |rows| && forall k :: 0 <= k < |rows| ==> r[k] == SolsRow(rows[k], "")
  {
    seq(|rows|, k requires 0 <= k < |rows| => SolsRow(rows[k], ""))
  }

  lemma SolsCellWords(row: EnrolmentRow)
    ensures AllWords(SolsCells(SolsRow(row, ""))) ==
      LineWords(IntText(row.year)) + (LineWords(row.session) + (LineWords(row.campus) + (LineWords(row.code) +
        (LineWords(IntText(row.nomCp)) + (LineWords(MarkText(row.mark)) + (LineWords(OrBlank(row.grade)) + LineWords(row.status)))))))
  {
    hide LineWords, IntText, MarkText;
    var c := SolsCells(SolsRow(row, ""));
    assert row.campus + "" == row.campus;
    AllWordsStep(c[7..]);
    AllWordsStep(c[6..]);
    AllWordsStep(c[5..]);
    AllWordsStep(c[4..]);
    AllWordsStep(c[3..]);
    AllWordsStep(c[2..]);
    AllWordsStep(c[1..]);
    AllWordsStep(c);
    assert c[0..] == c;
    hide AllWords;
    assert AllWords(c[8..]) == [] by {
      AllWordsEmpty(c[8..]);
    }
  }

  lemma MarkedEndingWords(row: EnrolmentRow, ending: seq<string>, text: string)
    requires HasMarkInRange(row) && ending != [] && Join(ending, " ") == text
    ensures var words := LineWords(MarkText(row.mark)) + ending; words != [] && Join(words, " ") == MarkPart(row.mark) + text
  {
    hide Words, LineWords, IsPlainText, Join, Decimal;
    if row.mark.Some? {
      DigitsArePlain(row.mark.value);
      CellInFront(IntText(row.mark.value), ending, text);
    } else {
      LineWordsNone();
      assert [] + ending == ending;
      assert "" + text == text;
    }
  }

  lemma GradedEndingWords(row: EnrolmentRow)
    requires IsFlatMarked(row)
    ensures var words := LineWords(OrBlank(row.grade)) + LineWords(row.status);
      words != [] && Join(words, " ") == GradePart(row.grade) + row.status
  {
    hide LineWords, IsAlphabetic, IsSession, Join, IsSubjectCode, IsCell, IsGrade, IsStatus;
    EndingWords(row.(mark := None));
  }

  // A row of the table, collapsed.
  lemma SolsRowWords(row: EnrolmentRow)
    requires IsFlatMarked(row)
    ensures var words := LineWords(RowLine(SolsCells(SolsRow(row, ""))));
      words != [] && Join(words, " ") == RowText(row)
  {
    hide Words, LineWords, IsPlainText, IsAlphabetic, IsSession, IsPrintableRow, Join, RowLine, SolsCells, IntText, IsPlainWord, IsCell,
      AllWords, MarkText, MarkPart;
    RowLineWords(SolsCells(SolsRow(row, "")));
    SolsCellWords(row);
    GradedEndingWords(row);
    var ending := GradePart(row.grade) + row.status;
    var w7 := LineWords(OrBlank(row.grade)) + LineWords(row.status);
    MarkedEndingWords(row, w7, ending);
    var w6 := LineWords(MarkText(row.mark)) + w7;
    DigitsArePlain(row.nomCp);
    CellInFront(IntText(row.nomCp), w6, MarkPart(row.mark) + ending);
    var w4 := LineWords(IntText(row.nomCp)) + w6;
    CodeOfRowIsPlain(row);
    CellInFront(row.code, w4, EndingText(row));
    var w3 := LineWords(row.code) + w4;
    AlphabeticIsPlain(row.campus);
    CellInFront(row.campus, w3, TailText(row));
    var w2 := LineWords(row.campus) + w3;
    SessionIsCell(row.session);
    PlainWord(row.session);
    WordIsNotEmpty(row.session);
    CellInFront(row.session, w2, row.campus + " " + TailText(row));
    DigitsArePlain(row.year);
    CellInFront(IntText(row.year), LineWords(row.session) + w2, row.session + " " + (row.campus + " " + TailText(row)));
  }

  lemma {:induction false} SolsRowsWords(rows: seq<EnrolmentRow>)
    requires rows != [] && AreFlatMarked(rows)
    ensures var words := AllWords(RowLines(AllSolsCells(Plainly(rows))));
      words != [] && Join(words, " ") == Join(RowTexts(rows), " ")
  {
    hide LineWords, RowLine, SolsCells, RowText, IsFlatMarked, AllWords, Join;
    var lines := RowLines(AllSolsCells(Plainly(rows)));
    SolsRowWords(rows[0]);
    AllWordsStep(lines);
    if |rows| == 1 {
      AllWordsEmpty(lines[1..]);
      assert LineWords(lines[0]) + [] == LineWords(lines[0]);
      JoinOne(RowTexts(rows));
    } else {
      var rest := rows[1..];
      SolsRowsWords(rest);
      assert lines[1..] == RowLines(AllSolsCells(Plainly(rest)));
      JoinConcat(LineWords(lines[0]), AllWords(lines[1..]), " ");
      JoinStep(RowTexts(rows), " ");
      assert RowTexts(rows)[1..] == RowTexts(rest);
    }
  }

  // ---------------------------------------------------------------- the lines before the rows

  function SolsTop(front: seq<string>): seq<string> {
    front + [""] + ["", "## Enrolment History", "", RowLine(SOLS_HEADINGS), Divider(8)]
  }

  lemma SolsHeadingsHaveNoDigit()
    ensures forall k :: 0 <= k < 8 ==> forall c :: c in SOLS_HEADINGS[k] ==> !IsDigit(c)
  {
    NoDigitHeadings();
    assert ENROLMENT_HEADINGS[0] == "Year" && ENROLMENT_HEADINGS[1] == "Session" && ENROLMENT_HEADINGS[3] == "Subject Code";
    assert ENROLMENT_HEADINGS[4] == "Nom CP" && ENROLMENT_HEADINGS[5] == "Grade" && ENROLMENT_HEADINGS[6] == "Status";
    assert forall c :: c in "Campus/Delivery" ==> !IsDigit(c);
    assert forall c :: c in "Mark" ==> !IsDigit(c);
  }

  lemma SolsHeadingsStart()
    ensures AllWords(SOLS_HEADINGS) != [] && AllWords(SOLS_HEADINGS)[0] == "Year"
  {
    hide LineWords;
    assert forall c :: c in "Year" ==> !IsSpace(c) && c != '|' && c != '*';
    VisibleWord("Year");
    AllWordsStep(SOLS_HEADINGS);
    assert SOLS_HEADINGS[0] == "Year";
  }

  lemma QuietSolsHeadings()
    ensures IsQuietLine(LineWords(RowLine(SOLS_HEADINGS)))
  {
    hide LineWords, IsQuietLine, RowLine, AllWords;
    RowLineWords(SOLS_HEADINGS);
    SolsHeadingsHaveNoDigit();
    NoDigitCells(SOLS_HEADINGS);
    SolsHeadingsStart();
    QuietBut(AllWords(SOLS_HEADINGS), 'Y');
  }

  lemma QuietSolsTop(front: seq<string>)
    requires IsQuietLine(AllWords(front))
    ensures IsQuietLine(AllWords(SolsTop(front))) && AllWords(SolsTop(front)) != []
  {
    hide IsQuietLine, LineWords, RowLine, Divider, AllWords;
    var rest := ["", "", "## Enrolment History", "", RowLine(SOLS_HEADINGS), Divider(8)];
    assert SolsTop(front) == front + rest;
    QuietTitles();
    QuietBlank();
    QuietSolsHeadings();
    QuietDivider(8);
    QuietLines(rest);
    AllWordsAppend(front, rest);
    QuietAppend(AllWords(front), AllWords(rest));
    assert rest == rest[..5] + [Divider(8)];
    AllWordsAppend(rest[..5], [Divider(8)]);
    AllWordsStep([Divider(8)]);
  }

  // ---------------------------------------------------------------- the whole paste

  lemma SolsLinesSplit(front: seq<string>, rows: seq<EnrolmentRow>)
    ensures SolsLines(front, Plainly(rows), [], []) == SolsTop(front) + RowLines(AllSolsCells(Plainly(rows)))
  {
    hide RowLine, Divider, RowLines, AllSolsCells;
    assert |SOLS_HEADINGS| == 8;
  }

  lemma PlainRowsAreSols(rows: seq<EnrolmentRow>)
    requires AreFlatMarked(rows)
    ensures AreSolsRows(Plainly(rows))
  {
    hide IsPrintableRow, IsSession, IsAlphabetic;
    forall k | 0 <= k < |rows| ensures IsSolsRow(Plainly(rows)[k]) {
      assert IsFlatMarked(rows[k]);
    }
  }

  lemma FlatTextOfSols(front: seq<string>, rows: seq<EnrolmentRow>)
    requires AreFrontLines(front) && IsQuietLine(AllWords(front)) && rows != [] && AreFlatMarked(rows)
    ensures IsQuietThenRows(FlatText(OnOneLine(SolsText(front, Plainly(rows), [], []))), AllWords(SolsTop(front)), rows)
  {
    hide SolsLines, SolsTop, RowLines, AllSolsCells, HaveNoBreaks, OnOneLine, Join, AllWords, AreFlatMarked, AreFrontLines,
      RowTexts, Words, Unmarked, IsQuietLine, IsWordText, AreSolsRows, IsTableLine;
    var lines := SolsLines(front, Plainly(rows), [], []);
    PlainRowsAreSols(rows);
    SolsLinesHaveNoBreaks(front, Plainly(rows), [], []);
    OnOneLineJoins(lines);
    AllWordsJoined(lines, ' ');
    assert [' '] == " ";
    SolsLinesSplit(front, rows);
    var top, body := SolsTop(front), RowLines(AllSolsCells(Plainly(rows)));
    AllWordsAppend(top, body);
    QuietSolsTop(front);
    AllWordsAreWords(top);
    SolsRowsWords(rows);
    JoinConcat(AllWords(top), AllWords(body), " ");
  }

  // A paste of that layout without credit, collapsed to one line, gives its rows, with their marks if they are
  // kept, when each row can be told apart and no word before them looks like the start of a row.
  lemma FlatReadsSols(front: seq<string>, rows: seq<EnrolmentRow>, keepMarks: bool)
    requires AreFrontLines(front) && IsQuietLine(AllWords(front)) && rows != [] && AreFlatMarked(rows)
    ensures var r := FlatRecord(OnOneLine(SolsText(front, Plainly(rows), [], [])), keepMarks);
      r.Ok? && r.value.rows == KeptRows(rows, keepMarks)
  {
    hide SolsText, FlatText, OnOneLine, AllWords, AreFlatMarked, AreFrontLines, IsQuietLine, IsQuietThenRows, FlatRecord, SolsTop;
    FlatTextOfSols(front, rows);
    FlatReadsRows(OnOneLine(SolsText(front, Plainly(rows), [], [])), AllWords(SolsTop(front)), rows, keepMarks);
  }
}
