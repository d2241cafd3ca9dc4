/**
 The projection of an enrolment paste (app/services/enrolment.py): parse it, by whichever parser
 fits, and print the record.

 What printing and parsing again changes, what never matters, and when projecting twice is
 projecting once.
 */
module Projection {
  import opened Text
  import opened Records
  import opened EnrolmentShapes
  import opened EnrolmentTable
  import opened EnrolmentPrinter
  import opened EnrolmentValues
  import opened EnrolmentReading
  import opened EnrolmentHeadings
  import opened EnrolmentRoundTrip
  import opened EnrolmentMarks
  import opened EnrolmentFlat
  import opened EnrolmentFlatLaws
  import opened EnrolmentFlatRows
  import opened EnrolmentFlatText
  import opened EnrolmentFlatRoundTrip

  // ---------------------------------------------------------------- which parser

  predicate StartsWithPipe(line: string) {
    IsTableLine(DropSpaces(line))
  }

  function PipeLines(lines: seq<string>): nat {
    if lines == [] then 0
    else PipeLines(lines[..|lines| - 1]) + if StartsWithPipe(lines[|lines| - 1]) then 1 else 0
  }

  // A table spans at least a heading row and a row of its own.
  predicate IsTablePaste(raw: string) {
    PipeLines(Lines(raw)) > 1
  }

  function Parsed(raw: string, keepMarks: bool): Result<EnrolmentRecord> {
    if IsTablePaste(raw) then TableRecord(raw, keepMarks) else FlatRecord(raw, keepMarks)
  }

  // `parse_enrolment`
  method ParseEnrolment(raw: string, keepMarks: bool) returns (r: Result<EnrolmentRecord>)
    ensures r == Parsed(raw, keepMarks)
  {
    hide Lines, StartsWithPipe, TableRecord, FlatRecord;
    var lines := Lines(raw);
    var count := 0;
    for k := 0 to |lines|
      invariant count == PipeLines(lines[..k])
    {
      PipeLinesNext(lines[..k], lines[k]);
      assert lines[..k + 1] == lines[..k] + [lines[k]];
      if StartsWithPipe(lines[k]) {
        count := count + 1;
      }
    }
    assert lines[..|lines|] == lines;
    if count > 1 {
      r := ParseTable(raw, keepMarks);
    } else {
      r := ParseFlat(raw, keepMarks);
    }
  }

  lemma PipeLinesNext(lines: seq<string>, line: string)
    ensures PipeLines(lines + [line]) == PipeLines(lines) + if StartsWithPipe(line) then 1 else 0
  {
    hide StartsWithPipe;
    assert (lines + [line])[..|lines|] == lines;
  }

  function Projected(raw: string): Result<string> {
    var r := Parsed(raw, false);
    if r.Ok? then Ok(Rendered(r.value)) else Unreadable
  }

  // ---------------------------------------------------------------- what comes through

  // What both parsers let through; the flat one leaves no column open and reads no credit.
  lemma ParsedIsPrintable(raw: string, keepMarks: bool)
    ensures var r := Parsed(raw, keepMarks);
      r.Ok? ==> IsPrintable(r.value) && MarksAreRead(r.value.rows, keepMarks)
    ensures var r := Parsed(raw, keepMarks);
      r.Ok? && !IsTablePaste(raw) ==> IsClosed(r.value)
  {
    hide TableRecord, FlatRecord, IsTablePaste, IsPrintable, MarksAreRead, AreClosedRows;
    TableRecordIsPrintable(raw, keepMarks);
    FlatRecordIsPrintable(raw, keepMarks);
  }

  // Known sessions, lettered campuses, years of two centuries, small credit points, and no credit.
  predicate IsClosed(r: EnrolmentRecord) {
    AreClosedRows(r.rows) && r.specified == [] && r.unspecified == []
  }

  lemma ParsedHasNoMarks(raw: string)
    requires Parsed(raw, false).Ok?
    ensures forall k :: 0 <= k < |Parsed(raw, false).value.rows| ==> Parsed(raw, false).value.rows[k].mark.None?
  {
    hide Parsed, IsPrintable;
    ParsedIsPrintable(raw, false);
    var rows := Parsed(raw, false).value.rows;
    forall k | 0 <= k < |rows| ensures rows[k].mark.None? {
      assert MarkIsRead(rows[k], false);
    }
  }

  // A parse that keeps marks is the ordinary parse with the marks added, in both parsers.
  lemma ParsedErases(raw: string)
    requires Parsed(raw, true).Ok?
    ensures Parsed(raw, false) == Ok(Erased(Parsed(raw, true).value))
  {
    hide TableRecord, FlatRecord, IsTablePaste, Erased;
    if IsTablePaste(raw) {
      TableErases(raw);
    } else {
      FlatErases(raw);
    }
  }

  // Two table pastes that differ only in marks project to the same text, or neither projects.
  lemma ProjectionIgnoresMarks(x: string, y: string)
    requires IsTablePaste(x) && IsTablePaste(y) && PastesDifferInMarks(Lines(x), Lines(y), INITIAL)
    ensures Projected(x) == Projected(y)
  {
    hide TableRecord, FlatRecord, IsTablePaste, Rendered, PastesDifferInMarks;
    TableIgnoresMarks(x, y);
  }

  // ---------------------------------------------------------------- reading the projection again

  lemma {:induction false} PipeLinesAtLeast(lines: seq<string>, i: nat, j: nat)
    requires i < j < |lines| && StartsWithPipe(lines[i]) && StartsWithPipe(lines[j])
    ensures PipeLines(lines) > 1
  {
    hide StartsWithPipe;
    var n := |lines| - 1;
    if j < n {
      PipeLinesAtLeast(lines[..n], i, j);
    } else {
      OnePipeLine(lines[..n], i);
    }
  }

  lemma {:induction false} OnePipeLine(lines: seq<string>, i: nat)
    requires i < |lines| && StartsWithPipe(lines[i])
    ensures PipeLines(lines) > 0
  {
    hide StartsWithPipe;
    if i < |lines| - 1 {
      OnePipeLine(lines[..|lines| - 1], i);
    }
  }

  lemma TableLineStartsWithPipe(line: string)
    requires IsTableLine(line)
    ensures StartsWithPipe(line)
  {
  }

  // A printed record is a table paste.
  lemma RenderedIsTablePaste(r: EnrolmentRecord)
    requires IsPrintable(r)
    ensures IsTablePaste(Rendered(r))
  {
    hide Lines, Rendered, HeaderLines, HistoryLines, SpecifiedLines, UnspecifiedLines, PipeLines, StartsWithPipe, IsTableLine,
      ArePrintableRows, ArePrintableCredits, IsPrintableHeader, HaveNoBreaks;
    LinesOfRendered(r);
    HistoryLinesHaveNoBreaks(r.rows);
    var a, b := HeaderLines(r), HistoryLines(r.rows);
    var lines := RenderedLines(r);
    assert lines[|a| + 3] == b[3] && lines[|a| + 4] == b[4];
    TableLineStartsWithPipe(b[3]);
    TableLineStartsWithPipe(b[4]);
    PipeLinesAtLeast(lines, |a| + 3, |a| + 4);
  }

  // Parsing the printed record gives the record back, but for the level of specified credit and
  // for majors that no longer read as majors.
  lemma ParsedReadsBack(raw: string)
    requires Parsed(raw, false).Ok?
    ensures Parsed(Rendered(Parsed(raw, false).value), false) == Ok(Reread(Parsed(raw, false).value))
  {
    hide Rendered, IsTablePaste, TableRecord, FlatRecord, IsPrintable, Reread, MarksAreRead;
    var r := Parsed(raw, false).value;
    ParsedIsPrintable(raw, false);
    ParsedHasNoMarks(raw);
    RenderedIsTablePaste(r);
    RenderedReadsBack(r);
  }

  // `project`: whatever is pasted, a text that comes back is the print of a record without marks whose
  // closed columns are checked, all of them if the paste was flat; it is a table paste, and is read as
  // that record as far as `Reread` says.
  method Project(raw: string) returns (text: Result<string>)
    ensures text == Projected(raw)
    ensures text.Ok? <==> Parsed(raw, false).Ok?
    ensures text.Ok? ==>
      && IsPrintable(Parsed(raw, false).value) && HaveNoMarks(Parsed(raw, false).value.rows)
      && (!IsTablePaste(raw) ==> IsClosed(Parsed(raw, false).value))
      && IsTablePaste(text.value)
      && Parsed(text.value, false) == Ok(Reread(Parsed(raw, false).value))
  {
    hide Parsed, Rendered, IsPrintable, HaveNoMarks, IsTablePaste, Reread, IsClosed;
    var r := ParseEnrolment(raw, false);
    if r.Unreadable? {
      return Unreadable;
    }
    ProjectionReadsBack(raw);
    ParsedIsPrintable(raw, false);
    var rendered := Render(r.value);
    text := Ok(rendered);
  }

  predicate HaveNoMarks(rows: seq<EnrolmentRow>) {
    forall k :: 0 <= k < |rows| ==> rows[k].mark.None?
  }

  lemma ProjectionReadsBack(raw: string)
    requires Parsed(raw, false).Ok?
    ensures var r := Parsed(raw, false).value;
      && IsPrintable(r) && HaveNoMarks(r.rows) && IsTablePaste(Rendered(r))
      && Parsed(Rendered(r), false) == Ok(Reread(r))
  {
    hide Parsed, Rendered, IsPrintable, IsTablePaste, Reread, MarksAreRead;
    ParsedIsPrintable(raw, false);
    ParsedHasNoMarks(raw);
    RenderedIsTablePaste(Parsed(raw, false).value);
    ParsedReadsBack(raw);
  }

  // ---------------------------------------------------------------- majors that settle

  // A bare code, or a title without a last word "Honours" that does not say "not yet declared".
  predicate IsSettled(major: string) {
    if StartsWithCode(major) then UpperRun(major) == |major|
    else IsTitle(major) && !IsUndeclared(major) && !EndsInWord(major, "honours") && !EndsInWord(major, "honour")
  }

  lemma DropHonoursShortens(s: string)
    ensures |DropHonours(s)| <= |s|
    ensures EndsInWord(s, "honours") || EndsInWord(s, "honour") ==> |DropHonours(s)| < |s|
    ensures !EndsInWord(s, "honours") && !EndsInWord(s, "honour") ==> DropHonours(s) == s
  {
    hide StartsWithFold;
  }

  lemma TrimShortens(s: string)
    ensures |Trim(s)| <= |s|
  {
  }

  // A major reads as itself exactly when it is settled.
  lemma SettledIff(major: string)
    requires IsTrimmed(major)
    ensures MajorFrom(major) == Some(major) <==> IsSettled(major)
  {
    hide IsTitle, IsUndeclared, DropHonours, EndsInWord, Trim, UpperRun;
    DropHonoursShortens(major);
    TrimShortens(DropHonours(major));
    TrimKept(major);
    assert StartsWithCode(major) ==> (major[..UpperRun(major)] == major <==> UpperRun(major) == |major|);
  }

  predicate AllSettled(majors: seq<string>) {
    forall k :: 0 <= k < |majors| ==> IsSettled(majors[k])
  }

  lemma {:induction false} ReadableShortens(majors: seq<string>)
    ensures |Readable(majors)| <= |majors|
  {
    hide MajorFrom;
    if majors != [] {
      ReadableShortens(majors[..|majors| - 1]);
    }
  }

  lemma {:induction false} ReadableIsSameIff(majors: seq<string>)
    requires forall k :: 0 <= k < |majors| ==> IsTrimmed(majors[k])
    ensures Readable(majors) == majors <==> AllSettled(majors)
  {
    hide MajorFrom, IsSettled, IsTrimmed;
    if majors != [] {
      var n := |majors| - 1;
      var front, last := majors[..n], majors[n];
      ReadableIsSameIff(front);
      ReadableShortens(front);
      SettledIff(last);
      assert majors == front + [last];
      if Readable(majors) == majors {
        assert Readable(majors)[..n] == Readable(front);
        assert Readable(majors)[n] == last;
      }
    }
  }

  lemma PrintsWithoutLevels(rows: seq<CreditRow>)
    ensures AllSpecifiedCells(WithoutLevels(rows)) == AllSpecifiedCells(rows)
  {
    hide OrBlank, IntText;
    assert forall k :: 0 <= k < |rows| ==> AllSpecifiedCells(WithoutLevels(rows))[k] == SpecifiedCells(rows[k]);
  }

  lemma SpecifiedPrintsSame(rows: seq<CreditRow>)
    ensures SpecifiedLines(WithoutLevels(rows)) == SpecifiedLines(rows)
  {
    hide AllSpecifiedCells, TableLines;
    PrintsWithoutLevels(rows);
  }

  lemma {:induction false} ReadableAreMajors(majors: seq<string>)
    ensures forall k :: 0 <= k < |Readable(majors)| ==> IsMajorText(Readable(majors)[k])
  {
    hide MajorFrom, IsMajorText;
    if majors != [] {
      ReadableAreMajors(majors[..|majors| - 1]);
      MajorFromIsText(majors[|majors| - 1]);
    }
  }

  lemma RereadIsPrintable(r: EnrolmentRecord)
    requires IsPrintable(r)
    ensures IsPrintable(Reread(r))
  {
    hide IsPrintableRow, IsMajorText, IsCampusName, IsCourseNumber, IsTrimmed, IsCell, IsPrintableCode, Readable;
    ReadableAreMajors(r.majors);
  }

  lemma SameTails(a: seq<string>, b: seq<string>, tail: seq<string>)
    requires a + tail == b + tail
    ensures a == b
  {
    assert |a| == |b|;
    assert forall k :: 0 <= k < |a| ==> a[k] == (a + tail)[k] && b[k] == (b + tail)[k];
  }

  lemma SameHeads(head: seq<string>, a: seq<string>, b: seq<string>)
    requires head + a == head + b
    ensures a == b
  {
    assert |a| == |b|;
    assert forall k :: 0 <= k < |a| ==> a[k] == (head + a)[|head| + k] && b[k] == (head + b)[|head| + k];
  }

  lemma SameMajorLine(index: nat, a: string, b: string)
    requires MajorLine(index, a) == MajorLine(index, b)
    ensures a == b
  {
    hide Decimal;
    var prefix := if index == 0 then "**Major:** " else "**Major " + Decimal(index + 1) + ":** ";
    assert MajorLine(index, a) == prefix + a && MajorLine(index, b) == prefix + b;
    assert MajorLine(index, a)[|prefix|..] == a;
    assert MajorLine(index, b)[|prefix|..] == b;
  }

  lemma SameMajorLines(a: seq<string>, b: seq<string>)
    requires MajorLines(a) == MajorLines(b)
    ensures a == b
  {
    hide MajorLine;
    assert |a| == |MajorLines(a)| == |b|;
    forall k | 0 <= k < |a| ensures a[k] == b[k] {
      assert MajorLines(a)[k] == MajorLine(k, a[k]) && MajorLines(b)[k] == MajorLine(k, b[k]);
      SameMajorLine(k, a[k], b[k]);
    }
  }

  // Printed texts that agree come from the same majors.
  lemma SameTextSameMajors(r: EnrolmentRecord)
    requires IsPrintable(r) && Rendered(Reread(r)) == Rendered(r)
    ensures Readable(r.majors) == r.majors
  {
    hide Rendered, Lines, HistoryLines, SpecifiedLines, UnspecifiedLines, Readable, WithoutLevels, IsPrintable, MajorLines,
      CourseLines, CampusLines;
    RereadIsPrintable(r);
    LinesOfRendered(r);
    LinesOfRendered(Reread(r));
    SpecifiedPrintsSame(r.specified);
    var tail := HistoryLines(r.rows) + SpecifiedLines(r.specified) + UnspecifiedLines(r.unspecified);
    assert RenderedLines(r) == HeaderLines(r) + tail;
    assert RenderedLines(Reread(r)) == HeaderLines(Reread(r)) + tail;
    SameTails(HeaderLines(Reread(r)), HeaderLines(r), tail);
    var head := ["# Enrolment Record", ""] + CourseLines(r.course) + CampusLines(r.campus);
    SameHeads(head, MajorLines(Readable(r.majors)), MajorLines(r.majors));
    SameMajorLines(Readable(r.majors), r.majors);
  }

  lemma SettledPrintsSame(r: EnrolmentRecord)
    requires Readable(r.majors) == r.majors
    ensures Rendered(Reread(r)) == Rendered(r)
  {
    hide HistoryLines, SpecifiedLines, UnspecifiedLines, Readable, WithoutLevels, HeaderLines, Join;
    SpecifiedPrintsSame(r.specified);
    HeaderPrintsSame(Reread(r), r);
  }

  lemma HeaderPrintsSame(a: EnrolmentRecord, b: EnrolmentRecord)
    requires a.course == b.course && a.campus == b.campus && a.majors == b.majors
    ensures HeaderLines(a) == HeaderLines(b)
  {
  }

  lemma MajorsAreTrimmed(r: EnrolmentRecord)
    requires IsPrintable(r)
    ensures forall k :: 0 <= k < |r.majors| ==> IsTrimmed(r.majors[k])
  {
    hide ArePrintableRows, ArePrintableCredits, HaveNoCode;
    forall k | 0 <= k < |r.majors| ensures IsTrimmed(r.majors[k]) {
      assert IsMajorText(r.majors[k]);
    }
  }

  // Projecting twice is projecting once exactly when every major of the record is settled.
  lemma ProjectingTwiceIff(raw: string)
    requires Projected(raw).Ok?
    ensures Projected(Projected(raw).value) == Projected(raw) <==> AllSettled(Parsed(raw, false).value.majors)
  {
    hide Parsed, Rendered, IsPrintable, Reread, AllSettled, Readable, IsTrimmed;
    var r := Parsed(raw, false).value;
    ParsedReadsBack(raw);
    ParsedIsPrintable(raw, false);
    MajorsAreTrimmed(r);
    ReadableIsSameIff(r.majors);
    if Readable(r.majors) == r.majors {
      SettledPrintsSame(r);
    } else if Rendered(Reread(r)) == Rendered(r) {
      SameTextSameMajors(r);
    }
  }

  // A capitalised word: too short to be a title once "Honours" is gone.
  predicate IsCapitalised(word: string) {
    |word| >= 2 && IsUpper(word[0]) && 'a' <= word[1] <= 'z' && forall k :: 0 <= k < |word| ==> IsLetter(word[k])
  }

  lemma CapitalisedIsNoCode(word: string, rest: string)
    requires IsCapitalised(word)
    ensures !StartsWithCode(word + rest)
  {
    var s := word + rest;
    assert s[0] == word[0] && s[1] == word[1];
    assert UpperRun(s[1..]) == 0;
    assert UpperRun(s) == 1;
  }

  lemma CapitalisedHasNoSpace(word: string)
    requires IsCapitalised(word)
    ensures ' ' !in word && forall k :: 0 <= k < |word| ==> !IsSpace(word[k])
  {
  }

  lemma HonoursSplits(word: string)
    requires ' ' !in word
    ensures Split(word + " Honours", ' ') == [word, "Honours"]
  {
    assert word + [' '] + "Honours" == word + " Honours";
    SplitAtFirst(word, "Honours", ' ');
    SplitWhole("Honours", ' ');
  }

  lemma HonoursIsTitle(word: string)
    requires IsCapitalised(word)
    ensures IsTitle(word + " Honours") && !IsTitle(word)
  {
    hide Split;
    CapitalisedHasNoSpace(word);
    HonoursSplits(word);
    SplitWhole(word, ' ');
    assert forall c :: c in "Honours" ==> IsTitleChar(c);
    assert forall k :: 0 <= k < 7 ==> "Honours"[k] in "Honours";
  }

  lemma HonoursEndsIt(s: string)
    requires |s| > 8 && s[|s| - 8..] == " Honours"
    ensures EndsInWord(s, "honours")
  {
    var tail := s[|s| - 8..];
    assert tail[0] == ' ' && tail[1..] == s[|s| - 7..];
    assert tail[1..] == "Honours";
  }

  lemma HonoursIsDropped(word: string)
    requires IsCapitalised(word)
    ensures DropHonours(word + " Honours") == word
  {
    hide StripRight, EndsInWord, IsCapitalised;
    var s := word + " Honours";
    CapitalisedHasNoSpace(word);
    assert s[|s| - 8..] == " Honours";
    WordsHaveLength(word);
    HonoursEndsIt(s);
    assert s[..|s| - 7] == word + [' '];
    StripRightOne(word, ' ', SPACES);
  }

  lemma WordsHaveLength(word: string)
    requires IsCapitalised(word)
    ensures |word| >= 2
  {
  }

  lemma HonoursIsDeclared(word: string)
    requires IsCapitalised(word)
    ensures !IsUndeclared(word + " Honours")
  {
    var s := word + " Honours";
    assert s[|s| - 1] == 's';
  }

  // A one-word title with "Honours" is recorded as the word alone, which a second reading drops.
  lemma HonoursIsLost(word: string)
    requires IsCapitalised(word)
    ensures MajorFrom(word + " Honours") == Some(word) && MajorFrom(word).None? && !IsSettled(word)
  {
    hide StartsWithCode, IsTitle, IsUndeclared, DropHonours, Strip;
    CapitalisedIsNoCode(word, " Honours");
    CapitalisedIsNoCode(word, "");
    assert word + "" == word;
    HonoursIsTitle(word);
    HonoursIsDeclared(word);
    HonoursIsDropped(word);
    CapitalisedHasNoSpace(word);
    assert Trim(word) == word;
  }

  // ---------------------------------------------------------------- a projection on one line

  lemma {:induction false} JoinedHasNoBreak(lines: seq<string>)
    requires HaveNoBreaks(lines)
    ensures HasNoBreak(Join(lines, " "))
  {
    JoinHasNoBreak(lines, " ");
  }

  lemma AtMostOneLine(s: string)
    requires HasNoBreak(s)
    ensures |Lines(s)| <= 1
  {
    hide Lines;
    if s == "" {
      LinesOfNothing();
    } else {
      OneLine(s);
    }
  }

  lemma LinesOfNothing()
    ensures Lines("") == []
  {
  }

  lemma FewPipeLines(lines: seq<string>)
    requires |lines| <= 1
    ensures PipeLines(lines) <= 1
  {
    hide StartsWithPipe;
  }

  lemma OneLineIsNoTable(r: EnrolmentRecord)
    requires IsPrintable(r)
    ensures !IsTablePaste(OnOneLine(Rendered(r)))
  {
    hide OnOneLine, RenderedLines, Lines, PipeLines, IsPrintable, HasNoBreak, HaveNoBreaks, Join;
    RenderedHasNoBreaks(r);
    OnOneLineJoins(RenderedLines(r));
    JoinedHasNoBreak(RenderedLines(r));
    AtMostOneLine(OnOneLine(Rendered(r)));
    FewPipeLines(Lines(OnOneLine(Rendered(r))));
  }

  // A credit-free projection that lost its line breaks still parses, to the same rows and course.
  lemma OneLineKeepsRows(r: EnrolmentRecord)
    requires IsPrintable(r) && AreFlatReadable(r.rows) && r.specified == [] && r.unspecified == []
    ensures Parsed(OnOneLine(Rendered(r)), false).Ok?
    ensures Parsed(OnOneLine(Rendered(r)), false).value.rows == r.rows
    ensures r.course.Some? ==> Parsed(OnOneLine(Rendered(r)), false).value.course == r.course
  {
    hide OnOneLine, Rendered, IsTablePaste, TableRecord, FlatRecord, IsPrintable, AreFlatReadable;
    OneLineIsNoTable(r);
    FlatReadsRendered(r);
    if r.course.Some? {
      FlatReadsCourse(r);
    }
  }
}
