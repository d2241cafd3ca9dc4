/**
 Collapsing a printed record to one line and reading it with the flat parser gives the same rows.

 The search passes over the words before the first row, then finds the rows one after the other,
 one space apart, up to the end of the text.
 */
module EnrolmentFlatRoundTrip {
  import opened Text
  import opened Records
  import opened EnrolmentShapes
  import opened EnrolmentTable
  import opened EnrolmentPrinter
  import opened EnrolmentValues
  import opened EnrolmentHeadings
  import opened EnrolmentReading
  import opened EnrolmentRoundTrip
  import opened EnrolmentMarks
  import opened EnrolmentFlat
  import opened EnrolmentFlatLaws
  import opened EnrolmentFlatRows
  import opened EnrolmentFlatText

  // ---------------------------------------------------------------- scanning quiet words

  predicate HasNoSpace(s: string) {
    forall k :: 0 <= k < |s| ==> s[k] != ' '
  }

  lemma MatchNeedsSession(s: string)
    requires MatchSession(s).Some?
    ensures IsSession(FirstWord(s))
  {
    hide FirstWord, IsSession, MatchCampus, IsFlatTail, IsCampusText;
  }

  // No row starts inside or right after a word, unless the word ends in a digit before a session.
  lemma NoRowIn(word: string, rest: string)
    requires HasNoSpace(word) && !(EndsInDigit(word) && IsSession(FirstWord(rest)))
    ensures MatchRow(word + " " + rest).None?
  {
    hide MatchSession, IsFlatTail, IsCampusText, IsSession, FirstWord;
    var s := word + " " + rest;
    assert s[|word|] == ' ';
    if StartsWithYear(s) {
      FiveIn(word, rest);
      if MatchSession(rest).Some? {
        MatchNeedsSession(rest);
      }
    }
  }

  lemma FiveIn(word: string, rest: string)
    requires HasNoSpace(word) && StartsWithYear(word + " " + rest)
    ensures |word| == 4 && EndsInDigit(word) && (word + " " + rest)[5..] == rest
  {
    var s := word + " " + rest;
    assert s[|word|] == ' ';
    assert forall k :: 0 <= k < |word| ==> s[k] == word[k];
  }

  lemma {:induction false} SkipWord(s: string, at: nat, word: string, rest: string)
    requires at <= |s| && s[at..] == word + " " + rest
    requires HasNoSpace(word) && !(EndsInDigit(word) && IsSession(FirstWord(rest)))
    ensures at + |word| + 1 <= |s| && FindAll(s, at) == FindAll(s, at + |word| + 1)
    decreases |word|
  {
    hide MatchRow, FirstWord, IsSession, AreMatchesFrom;
    NoRowIn(word, rest);
    if word != "" {
      assert s[at + 1..] == s[at..][1..] == word[1..] + " " + rest;
      SkipWord(s, at + 1, word[1..], rest);
    }
  }

  lemma WordTextHasNoSpace(word: string)
    requires IsWordText(word)
    ensures HasNoSpace(word) && word != ""
  {
  }

  // The word that the remaining text starts with.
  lemma FirstWordOfJoin(words: seq<string>, rest: string)
    requires words != [] && IsWordText(words[0])
    ensures FirstWord(Join(words, " ") + " " + rest) == words[0]
  {
    hide FirstWord, IsWordText;
    WordTextHasNoSpace(words[0]);
    var text := Join(words, " ") + " " + rest;
    if |words| == 1 {
      FirstWordIs(words[0], " " + rest);
      assert text == words[0] + (" " + rest);
    } else {
      JoinStep(words, " ");
      var more := " " + Join(words[1..], " ") + " " + rest;
      FirstWordIs(words[0], more);
      assert text == words[0] + more;
    }
  }

  lemma QuietRest(words: seq<string>)
    requires IsQuiet(words) && words != []
    ensures IsQuiet(words[1..])
    ensures |words| > 1 && EndsInDigit(words[0]) ==> !IsSession(words[1])
  {
    hide IsSession, EndsInDigit;
    var rest := words[1..];
    forall i | 0 <= i < |rest| - 1 && EndsInDigit(rest[i]) ensures !IsSession(rest[i + 1]) {
      assert rest[i] == words[i + 1] && rest[i + 1] == words[i + 2];
    }
  }

  // Scanning passes over quiet words.
  lemma {:induction false} SkipWords(s: string, at: nat, words: seq<string>, rest: string)
    requires at <= |s| && words != [] && s[at..] == Join(words, " ") + " " + rest
    requires IsQuiet(words) && (forall k :: 0 <= k < |words| ==> IsWordText(words[k])) && !IsSession(FirstWord(rest))
    ensures at + |Join(words, " ")| + 1 <= |s| && FindAll(s, at) == FindAll(s, at + |Join(words, " ")| + 1)
    decreases |words|
  {
    hide FirstWord, IsSession, IsQuiet, IsWordText, FindAll, EndsInDigit, AreMatchesFrom;
    WordTextHasNoSpace(words[0]);
    QuietRest(words);
    if |words| == 1 {
      SkipWord(s, at, words[0], rest);
    } else {
      JoinStep(words, " ");
      var tail := Join(words[1..], " ");
      FirstWordOfJoin(words[1..], rest);
      assert words[0] + " " + tail + " " + rest == words[0] + " " + (tail + " " + rest);
      SkipWord(s, at, words[0], tail + " " + rest);
      var next := at + |words[0]| + 1;
      assert s[next..] == s[at..][|words[0]| + 1..] == tail + " " + rest;
      SkipWords(s, next, words[1..], rest);
    }
  }

  // ---------------------------------------------------------------- scanning the rows

  function RowTexts(rows: seq<EnrolmentRow>): (r: seq<string>)
    ensures |r| == |rows| && forall k :: 0 <= k < |rows| ==> r[k] == RowText(rows[k])
  {
    seq(|rows|, k requires 0 <= k < |rows| => RowText(rows[k]))
  }

  predicate AreFlatReadable(rows: seq<EnrolmentRow>) {
    forall k :: 0 <= k < |rows| ==> IsFlatReadable(rows[k])
  }

  predicate AreFlatMarked(rows: seq<EnrolmentRow>) {
    forall k :: 0 <= k < |rows| ==> IsFlatMarked(rows[k])
  }

  lemma ReadableAreMarked(rows: seq<EnrolmentRow>)
    requires AreFlatReadable(rows)
    ensures AreFlatMarked(rows)
  {
    hide IsFlatMarked;
  }

  function KeptRows(rows: seq<EnrolmentRow>, keepMarks: bool): (r: seq<EnrolmentRow>)
    ensures |r| == |rows| && forall k :: 0 <= k < |rows| ==> r[k] == Kept(rows[k], keepMarks)
  {
    seq(|rows|, k requires 0 <= k < |rows| => Kept(rows[k], keepMarks))
  }

  // Where the rows are found.
  function RowMatches(at: nat, rows: seq<EnrolmentRow>): (r: seq<Match>)
    ensures |r| == |rows| && forall k :: 0 <= k < |rows| ==> r[k].row == FlatRowOf(rows[k])
    decreases |rows|
  {
    hide RowText, FlatRowOf;
    if rows == [] then []
    else [Match(at, at + |RowText(rows[0])|, FlatRowOf(rows[0]))] + RowMatches(at + |RowText(rows[0])| + 1, rows[1..])
  }

  lemma RowTextStarts(row: EnrolmentRow)
    requires IsFlatMarked(row)
    ensures var s := RowText(row); s != "" && IsDigit(s[0])
  {
    hide IsPrintableRow, IsAlphabetic, IsSession, Decimal;
    YearText(row.year);
  }

  lemma AfterRow(rows: seq<EnrolmentRow>)
    requires rows != [] && IsFlatMarked(rows[0])
    ensures IsAfterRow(" " + Join(RowTexts(rows), " "))
  {
    hide IsFlatMarked, RowText;
    RowTextStarts(rows[0]);
    var texts := RowTexts(rows);
    if |rows| > 1 {
      JoinStep(texts, " ");
    }
  }

  lemma NoRowAtSpace(s: string)
    requires s != "" && s[0] == ' '
    ensures MatchRow(s).None?
  {
    hide MatchSession, IsFlatTail, IsCampusText, IsSession;
  }

  lemma FindFirstRow(s: string, at: nat, row: EnrolmentRow, after: string)
    requires at <= |s| && s[at..] == RowText(row) + after && IsFlatMarked(row) && IsAfterRow(after)
    ensures at + |RowText(row)| <= |s| && RowText(row) != ""
    ensures FindAll(s, at) == [Match(at, at + |RowText(row)|, FlatRowOf(row))] + FindAll(s, at + |RowText(row)|)
  {
    hide MatchRow, IsFlatMarked, RowText, IsAfterRow, IsFlatRow, AreMatchesFrom;
    RowTextIsRead(row, after);
    RowTextStarts(row);
  }

  lemma FindPastSpace(s: string, at: nat)
    requires at < |s| && s[at] == ' '
    ensures FindAll(s, at) == FindAll(s, at + 1)
  {
    hide MatchRow, IsFlatRow, AreMatchesFrom;
    NoRowAtSpace(s[at..]);
  }

  lemma RowThenRest(s: string, at: nat, rows: seq<EnrolmentRow>)
    requires at <= |s| && |rows| > 1 && AreFlatMarked(rows) && s[at..] == Join(RowTexts(rows), " ")
    ensures at + |RowText(rows[0])| < |s|
    ensures s[at..] == RowText(rows[0]) + (" " + Join(RowTexts(rows[1..]), " "))
    ensures s[at + |RowText(rows[0])|..] == " " + Join(RowTexts(rows[1..]), " ")
  {
    hide IsFlatMarked, RowText, Join;
    var texts := RowTexts(rows);
    JoinStep(texts, " ");
    assert texts[1..] == RowTexts(rows[1..]);
    var end := at + |texts[0]|;
    assert |s[at..]| > |texts[0]|;
    assert s[end..] == s[at..][|texts[0]|..];
  }

  lemma JoinOfOne(rows: seq<EnrolmentRow>)
    requires |rows| == 1
    ensures Join(RowTexts(rows), " ") == RowText(rows[0]) + ""
  {
    hide RowText;
  }

  // The matches are the rows, in order.
  lemma {:induction false} FindRows(s: string, at: nat, rows: seq<EnrolmentRow>)
    requires at <= |s| && rows != [] && AreFlatMarked(rows) && s[at..] == Join(RowTexts(rows), " ")
    ensures FindAll(s, at) == RowMatches(at, rows)
    decreases |rows|
  {
    hide IsFlatMarked, RowText, RowTexts, Join, FindAll, FlatRowOf, AreMatchesFrom, IsAfterRow;
    var end := at + |RowText(rows[0])|;
    if |rows| == 1 {
      JoinOfOne(rows);
      NothingAfter();
      FindFirstRow(s, at, rows[0], "");
      assert end == |s|;
      FindAtEnd(s);
      assert RowMatches(end + 1, rows[1..]) == [];
    } else {
      var rest := rows[1..];
      RowThenRest(s, at, rows);
      AfterRow(rest);
      FindFirstRow(s, at, rows[0], " " + Join(RowTexts(rest), " "));
      SpaceThen(s, end, Join(RowTexts(rest), " "));
      FindPastSpace(s, end);
      FindRows(s, end + 1, rest);
    }
  }

  lemma NothingAfter()
    ensures IsAfterRow("")
  {
  }

  lemma SpaceThen(s: string, at: nat, rest: string)
    requires at < |s| && s[at..] == " " + rest
    ensures s[at] == ' ' && s[at + 1..] == rest
  {
    assert s[at] == s[at..][0];
    assert s[at + 1..] == s[at..][1..];
  }

  lemma FindAtEnd(s: string)
    ensures FindAll(s, |s|) == []
  {
  }

  predicate Touch(a: Match, b: Match, s: string) {
    a.end < |s| && b.start == a.end + 1 && s[a.end] == ' '
  }

  predicate AllTouch(ms: seq<Match>, s: string) {
    forall k :: 0 <= k < |ms| - 1 ==> Touch(ms[k], ms[k + 1], s)
  }

  lemma TouchFirst(m: Match, ms: seq<Match>, s: string)
    requires ms != [] && Touch(m, ms[0], s) && AllTouch(ms, s)
    ensures AllTouch([m] + ms, s)
  {
    hide Touch;
    var all := [m] + ms;
    forall k | 0 <= k < |all| - 1 ensures Touch(all[k], all[k + 1], s) {
      if k > 0 {
        assert all[k] == ms[k - 1] && all[k + 1] == ms[k];
      }
    }
  }

  lemma RowMatchesStep(at: nat, rows: seq<EnrolmentRow>)
    requires rows != []
    ensures RowMatches(at, rows) ==
      [Match(at, at + |RowText(rows[0])|, FlatRowOf(rows[0]))] + RowMatches(at + |RowText(rows[0])| + 1, rows[1..])
  {
    hide RowText, FlatRowOf;
  }

  lemma RowMatchesNone(at: nat)
    ensures RowMatches(at, []) == []
  {
  }

  // One space apart, up to the end of the text.
  lemma {:induction false} RowMatchesTouch(s: string, at: nat, rows: seq<EnrolmentRow>)
    requires at <= |s| && rows != [] && s[at..] == Join(RowTexts(rows), " ")
    ensures var ms := RowMatches(at, rows); ms != [] && ms[0].start == at && ms[|ms| - 1].end == |s| && AllTouch(ms, s)
    decreases |rows|
  {
    hide RowText, FlatRowOf, RowMatches, AllTouch, Join, IsFlatRow, RowTexts;
    var texts := RowTexts(rows);
    var end := at + |texts[0]|;
    RowMatchesStep(at, rows);
    if |rows| == 1 {
      RowMatchesNone(end + 1);
      JoinOne(texts);
      OneTouches(RowMatches(at, rows), s);
    } else {
      var rest := rows[1..];
      JoinStep(texts, " ");
      assert texts[1..] == RowTexts(rest);
      assert s[end..] == s[at..][|texts[0]|..];
      assert s[end] == ' ' && s[end + 1..] == s[end..][1..];
      RowMatchesTouch(s, end + 1, rest);
      TouchFirst(Match(at, end, FlatRowOf(rows[0])), RowMatches(end + 1, rest), s);
    }
  }

  lemma OneTouches(ms: seq<Match>, s: string)
    requires |ms| == 1
    ensures AllTouch(ms, s)
  {
  }

  lemma OneSpace(s: string, at: nat)
    requires at < |s| && s[at] == ' '
    ensures s[at..at + 1] == " "
  {
  }

  lemma TouchingIsGapless(s: string, ms: seq<Match>)
    requires AreMatchesFrom(ms, 0, s) && AllTouch(ms, s)
    ensures IsGapless(s, ms)
  {
    hide Trim, IsFlatRow;
    SpaceTrims();
    forall k | 0 <= k < |ms| - 1 ensures Trim(s[ms[k].end..ms[k + 1].start]) == "" {
      assert Touch(ms[k], ms[k + 1], s);
      OneSpace(s, ms[k].end);
    }
  }

  lemma {:induction false} RowsOfMatches(ms: seq<Match>, rows: seq<EnrolmentRow>, keepMarks: bool)
    requires AreMatches(ms) && |ms| == |rows| && forall k :: 0 <= k < |ms| ==> RowOf(ms[k].row, keepMarks) == Ok(rows[k])
    ensures RowsOf(ms, keepMarks) == Ok(rows)
  {
    hide RowOf, IsFlatRow;
    if ms != [] {
      var n := |ms| - 1;
      RowsOfMatches(ms[..n], rows[..n], keepMarks);
      assert rows[..n] + [rows[n]] == rows;
    }
  }

  lemma MatchesGiveRows(ms: seq<Match>, rows: seq<EnrolmentRow>, keepMarks: bool)
    requires AreMatches(ms) && |ms| == |rows| && AreFlatMarked(rows)
    requires forall k :: 0 <= k < |rows| ==> ms[k].row == FlatRowOf(rows[k])
    ensures RowsOf(ms, keepMarks) == Ok(KeptRows(rows, keepMarks))
  {
    hide RowOf, IsFlatRow, IsFlatMarked, FlatRowOf, RowsOf;
    forall k | 0 <= k < |ms| ensures RowOf(ms[k].row, keepMarks) == Ok(KeptRows(rows, keepMarks)[k]) {
      FlatRowGivesRow(rows[k], keepMarks);
    }
    RowsOfMatches(ms, KeptRows(rows, keepMarks), keepMarks);
  }

  lemma SpaceTrims()
    ensures Trim(" ") == ""
  {
    assert " "[1..] == "";
    assert StripLeft(" ", SPACES) == "";
  }

  // ---------------------------------------------------------------- the words of a printed record

  // The lines before the first row.
  function PreambleLines(r: EnrolmentRecord): seq<string> {
    HeaderLines(r) + ["", "## Enrolment History", "", RowLine(ENROLMENT_HEADINGS), Divider(7)]
  }

  lemma LinesAreInOrder(r: EnrolmentRecord)
    requires r.specified == [] && r.unspecified == []
    ensures RenderedLines(r) == PreambleLines(r) + RowLines(AllRowCells(r.rows))
  {
    hide HeaderLines, RowLine, Divider, RowLines;
    assert |ENROLMENT_HEADINGS| == 7;
  }

  lemma QuietHeader(r: EnrolmentRecord)
    requires IsPrintableHeader(Header(r.course, r.campus, r.majors, false))
    ensures forall k :: 0 <= k < |HeaderLines(r)| ==> IsQuietLine(LineWords(HeaderLines(r)[k]))
  {
    hide IsQuietLine, LineWords, IsMajorText, MajorLine, IsCourseNumber, IsCampusName, IsTrimmed;
    QuietTitles();
    QuietBlank();
    if r.course.Some? {
      QuietCourse(r.course.value);
    }
    if r.campus.Some? {
      QuietCampus(r.campus.value);
    }
    forall k | 0 <= k < |r.majors| ensures IsQuietLine(LineWords(MajorLines(r.majors)[k])) {
      QuietMajor(k, r.majors[k]);
    }
  }

  lemma QuietPreamble(r: EnrolmentRecord)
    requires IsPrintableHeader(Header(r.course, r.campus, r.majors, false))
    ensures IsQuietLine(AllWords(PreambleLines(r)))
  {
    hide IsQuietLine, LineWords, IsPrintableHeader, RowLine, Divider, HeaderLines, AllWords;
    QuietHeader(r);
    QuietTitles();
    QuietBlank();
    QuietHeadings();
    QuietDivider(7);
    QuietLines(PreambleLines(r));
  }

  lemma {:induction false} AllWordsAreWords(lines: seq<string>)
    ensures forall k :: 0 <= k < |AllWords(lines)| ==> IsWordText(AllWords(lines)[k])
  {
    hide IsWordText, Words, Unmarked;
    if lines != [] {
      AllWordsAreWords(lines[1..]);
      LineWordsAreWords(lines[0]);
      hide LineWords;
      AllWordsStep(lines);
    }
  }

  lemma LineWordsAreWords(line: string)
    ensures forall k :: 0 <= k < |LineWords(line)| ==> IsWordText(LineWords(line)[k])
  {
    hide Words, Unmarked, IsWordText;
    WordsAreWords(Unmarked(line));
    forall k | 0 <= k < |LineWords(line)| ensures IsWordText(LineWords(line)[k]) {
      assert IsWordOf(LineWords(line)[k], Unmarked(line));
    }
  }

  lemma {:induction false} RowsWords(rows: seq<EnrolmentRow>)
    requires rows != [] && AreFlatReadable(rows)
    ensures var words := AllWords(RowLines(AllRowCells(rows)));
      words != [] && Join(words, " ") == Join(RowTexts(rows), " ")
  {
    hide LineWords, RowLine, RowCells, RowText, IsFlatReadable, AllWords, Join;
    var lines := RowLines(AllRowCells(rows));
    RowWords(rows[0]);
    AllWordsStep(lines);
    if |rows| == 1 {
      AllWordsEmpty(lines[1..]);
      assert LineWords(lines[0]) + [] == LineWords(lines[0]);
      JoinOne(RowTexts(rows));
    } else {
      var rest := rows[1..];
      RowsWords(rest);
      assert lines[1..] == RowLines(AllRowCells(rest));
      JoinConcat(LineWords(lines[0]), AllWords(lines[1..]), " ");
      JoinStep(RowTexts(rows), " ");
      assert RowTexts(rows)[1..] == RowTexts(rest);
    }
  }

  lemma JoinOne(parts: seq<string>)
    requires |parts| == 1
    ensures Join(parts, " ") == parts[0]
  {
  }

  lemma PreambleIsNotEmpty(r: EnrolmentRecord)
    ensures AllWords(PreambleLines(r)) != []
  {
    hide LineWords, HeaderLines, RowLine, Divider, AllWords;
    var front := HeaderLines(r) + ["", "## Enrolment History", "", RowLine(ENROLMENT_HEADINGS)];
    assert PreambleLines(r) == front + [Divider(7)];
    AllWordsAppend(front, [Divider(7)]);
    AllWordsStep([Divider(7)]);
    DividerWords();
  }

  lemma DividerWords()
    ensures LineWords(Divider(7)) != []
  {
    hide LineWords;
    QuietDivider(7);
  }

  // ---------------------------------------------------------------- one line

  function OnOneLine(s: string): (r: string)
    ensures |r| == |s| && forall k :: 0 <= k < |s| ==> r[k] == if s[k] == '\n' then ' ' else s[k]
  {
    seq(|s|, k requires 0 <= k < |s| => if s[k] == '\n' then ' ' else s[k])
  }

  lemma OnOneLineKeeps(s: string)
    requires HasNoBreak(s)
    ensures OnOneLine(s) == s
  {
    assert forall k :: 0 <= k < |s| ==> s[k] in s;
  }

  lemma OnOneLineAppend(a: string, b: string)
    ensures OnOneLine(a + b) == OnOneLine(a) + OnOneLine(b)
  {
  }

  lemma {:induction false} OnOneLineJoins(lines: seq<string>)
    requires HaveNoBreaks(lines)
    ensures OnOneLine(Join(lines, "\n")) == Join(lines, " ")
  {
    hide HasNoBreak, OnOneLine;
    if |lines| == 0 {
      assert OnOneLine("") == "";
    } else if |lines| == 1 {
      OnOneLineKeeps(lines[0]);
    } else {
      OnOneLineJoins(lines[1..]);
      OnOneLineKeeps(lines[0]);
      assert OnOneLine("\n") == " ";
      OnOneLineAppend(lines[0], "\n");
      OnOneLineAppend(lines[0] + "\n", Join(lines[1..], "\n"));
    }
  }

  lemma RenderedHasNoBreaks(r: EnrolmentRecord)
    requires IsPrintable(r)
    ensures HaveNoBreaks(RenderedLines(r))
  {
    hide Lines, Rendered, IsPrintable, HaveNoBreaks;
    LinesOfRendered(r);
    LinesHaveNoBreaks(Rendered(r));
  }

  // The text that the flat parser sees: quiet words, then the rows.
  lemma FlatTextOfRendered(r: EnrolmentRecord)
    requires IsPrintable(r) && AreFlatReadable(r.rows) && r.specified == [] && r.unspecified == []
    ensures AllWords(PreambleLines(r)) != []
    ensures FlatText(OnOneLine(Rendered(r))) == Join(AllWords(PreambleLines(r)), " ") + " " + Join(RowTexts(r.rows), " ")
  {
    hide RenderedLines, PreambleLines, RowLines, AllRowCells, HaveNoBreaks, OnOneLine, Join, AllWords, AreFlatReadable,
      RowTexts, Words, Unmarked, ArePrintableRows, IsPrintableHeader;
    RenderedHasNoBreaks(r);
    OnOneLineJoins(RenderedLines(r));
    AllWordsJoined(RenderedLines(r), ' ');
    assert [' '] == " ";
    LinesAreInOrder(r);
    var front, body := PreambleLines(r), RowLines(AllRowCells(r.rows));
    AllWordsAppend(front, body);
    PreambleIsNotEmpty(r);
    RowsWords(r.rows);
    JoinConcat(AllWords(front), AllWords(body), " ");
  }

  lemma RowsStartNoSession(rows: seq<EnrolmentRow>)
    requires rows != [] && AreFlatMarked(rows)
    ensures !IsSession(FirstWord(Join(RowTexts(rows), " ")))
  {
    hide IsFlatMarked, RowText, FirstWord, IsSession;
    RowTextStarts(rows[0]);
    if |rows| > 1 {
      JoinStep(RowTexts(rows), " ");
    }
    var text := Join(RowTexts(rows), " ");
    assert IsDigit(text[0]);
    DigitStartsNoSession(text);
  }

  lemma DigitStartsNoSession(text: string)
    requires text != "" && IsDigit(text[0])
    ensures !IsSession(FirstWord(text))
  {
    hide FirstWord, IsSession;
    var w := FirstWord(text);
    FirstWordIsPrefix(text);
    if IsSession(w) {
      SessionStart(w);
    }
  }

  // Quiet words, then the rows, one space apart.
  predicate IsQuietThenRows(text: string, words: seq<string>, rows: seq<EnrolmentRow>) {
    && words != [] && IsQuietLine(words) && (forall k :: 0 <= k < |words| ==> IsWordText(words[k]))
    && rows != [] && AreFlatMarked(rows)
    && text == Join(words, " ") + " " + Join(RowTexts(rows), " ")
  }

  // The flat parser finds exactly the rows.
  lemma FindsTheRows(text: string, words: seq<string>, rows: seq<EnrolmentRow>) returns (at: nat)
    requires IsQuietThenRows(text, words, rows)
    ensures at <= |text| && text[at..] == Join(RowTexts(rows), " ") && FindAll(text, 0) == RowMatches(at, rows)
  {
    hide Join, AreFlatMarked, RowTexts, FirstWord, IsSession, IsWordText, FindAll, IsQuiet, AreMatchesFrom, RowMatches;
    var body := Join(RowTexts(rows), " ");
    at := |Join(words, " ")| + 1;
    assert text[at..] == body && text[0..] == text;
    RowsStartNoSession(rows);
    SkipWords(text, 0, words, body);
    FindRows(text, at, rows);
  }

  // A paste that collapses to quiet words and such rows gives these rows, with their marks if they are kept.
  lemma FlatReadsRows(raw: string, words: seq<string>, rows: seq<EnrolmentRow>, keepMarks: bool)
    requires IsQuietThenRows(FlatText(raw), words, rows)
    ensures FlatRecord(raw, keepMarks).Ok? && FlatRecord(raw, keepMarks).value.rows == KeptRows(rows, keepMarks)
  {
    hide FlatText, AreFlatMarked, RowTexts, FindAll, RowMatches, RowsOf, HeaderOf, IsFlatRow, IsQuietLine, IsWordText,
      Join, FlatRecord, AllTouch, AreMatchesFrom, IsGapless, ListsCredit, FlatRowOf, AfterLast;
    var text := FlatText(raw);
    var at := FindsTheRows(text, words, rows);
    var ms := FindAll(text, 0);
    RowMatchesTouch(text, at, rows);
    TouchingIsGapless(text, ms);
    MatchesAreMatches(ms, text);
    MatchesGiveRows(ms, rows, keepMarks);
    NothingAfterLast(text, ms);
    NoCreditHere();
    FlatRecordIs(raw, KeptRows(rows, keepMarks), keepMarks);
  }

  lemma QuietRendered(r: EnrolmentRecord)
    requires IsPrintable(r) && AreFlatReadable(r.rows) && r.specified == [] && r.unspecified == []
    ensures IsQuietThenRows(FlatText(OnOneLine(Rendered(r))), AllWords(PreambleLines(r)), r.rows)
  {
    hide PreambleLines, Rendered, FlatText, OnOneLine, Join, AllWords, AreFlatReadable, AreFlatMarked, RowTexts, IsWordText, IsQuietLine,
      ArePrintableRows;
    FlatTextOfRendered(r);
    QuietPreamble(r);
    AllWordsAreWords(PreambleLines(r));
    ReadableAreMarked(r.rows);
  }

  lemma NothingErased(rows: seq<EnrolmentRow>)
    requires AreFlatReadable(rows)
    ensures KeptRows(rows, false) == rows
  {
    hide IsFlatMarked;
    assert forall k :: 0 <= k < |rows| ==> KeptRows(rows, false)[k] == rows[k];
  }

  // A record without advanced standing whose rows the flat pattern can tell apart keeps its
  // rows when its printed text collapses to one line.
  lemma FlatReadsRendered(r: EnrolmentRecord)
    requires IsPrintable(r) && AreFlatReadable(r.rows) && r.specified == [] && r.unspecified == []
    ensures FlatRecord(OnOneLine(Rendered(r)), false).Ok?
    ensures FlatRecord(OnOneLine(Rendered(r)), false).value.rows == r.rows
  {
    hide Rendered, FlatText, OnOneLine, AreFlatReadable, IsQuietThenRows, FlatRecord, IsPrintable, AllWords, PreambleLines;
    QuietRendered(r);
    FlatReadsRows(OnOneLine(Rendered(r)), AllWords(PreambleLines(r)), r.rows, false);
    NothingErased(r.rows);
  }

  lemma NothingAfterLast(s: string, ms: seq<Match>)
    requires AreMatchesFrom(ms, 0, s) && ms != [] && ms[|ms| - 1].end == |s|
    ensures AfterLast(s, ms) == ""
  {
    hide AreMatchesFrom;
  }

  lemma NoCreditHere()
    ensures !ListsCredit("")
  {
  }

  lemma FlatRecordIs(raw: string, rows: seq<EnrolmentRow>, keepMarks: bool)
    requires IsReadable(FlatText(raw), FindAll(FlatText(raw), 0))
    requires AreMatches(FindAll(FlatText(raw), 0)) && RowsOf(FindAll(FlatText(raw), 0), keepMarks) == Ok(rows)
    ensures FlatRecord(raw, keepMarks).Ok? && FlatRecord(raw, keepMarks).value.rows == rows
  {
    hide FlatText, FindAll, IsReadable, RowsOf, HeaderOf, AreMatchesFrom, AreMatches;
  }

  // ---------------------------------------------------------------- the course on one line

  lemma TitleWords()
    ensures LineWords("# Enrolment Record") != [] && Join(LineWords("# Enrolment Record"), " ") == "# Enrolment Record"
  {
    hide Words, IsPlainText, Unmarked;
    var s := "# Enrolment Record";
    TitleIsPlain(s);
    UnmarkedPlain(s);
    PlainJoins(s);
  }

  lemma TitleIsPlain(s: string)
    requires s == "# Enrolment Record"
    ensures IsPlainText(s) && '|' !in s && '*' !in s
  {
    assert s[1] == ' ' && s[2] == 'E' && s[11] == ' ' && s[12] == 'R';
    assert forall k :: 0 <= k < 18 && k != 1 && k != 11 ==> s[k] == '#' || IsLetter(s[k]);
  }

  lemma CourseWords(course: string)
    requires IsCourseNumber(course)
    ensures LineWords("**Course:** " + course) == ["Course:", course]
  {
    hide LineWords;
    BoldLabel("Course", course);
    assert "**" + "Course" + ":** " + course == "**Course:** " + course;
    assert "Course" + ":" == "Course:";
    LabelWords();
    assert forall k :: 0 <= k < |course| ==> IsDigit(course[k]);
    assert forall c :: c in course ==> !IsSpace(c) && c != '|' && c != '*';
    VisibleWord(course);
    assert ["Course:"] + [course] == ["Course:", course];
  }

  // What comes behind the course line.
  function BehindCourse(r: EnrolmentRecord): seq<string> {
    CampusLines(r.campus) + MajorLines(r.majors) + ["", "## Enrolment History", "", RowLine(ENROLMENT_HEADINGS), Divider(7)]
  }

  lemma BehindCourseHasWords(r: EnrolmentRecord)
    ensures AllWords(BehindCourse(r)) != []
  {
    hide LineWords, CampusLines, MajorLines, RowLine, Divider, AllWords;
    var front := CampusLines(r.campus) + MajorLines(r.majors) + ["", "## Enrolment History", "", RowLine(ENROLMENT_HEADINGS)];
    assert BehindCourse(r) == front + [Divider(7)];
    AllWordsAppend(front, [Divider(7)]);
    AllWordsStep([Divider(7)]);
    DividerWords();
  }

  lemma PreambleWords(r: EnrolmentRecord)
    requires r.course.Some? && IsCourseNumber(r.course.value)
    ensures AllWords(PreambleLines(r)) ==
      LineWords("# Enrolment Record") + (["Course:", r.course.value] + AllWords(BehindCourse(r)))
  {
    hide LineWords, CampusLines, MajorLines, RowLine, Divider, AllWords;
    var course := "**Course:** " + r.course.value;
    var behind := BehindCourse(r);
    assert PreambleLines(r) == ["# Enrolment Record"] + ([""] + ([course] + behind));
    AllWordsStep(["# Enrolment Record"] + ([""] + ([course] + behind)));
    AllWordsStep([""] + ([course] + behind));
    AllWordsStep([course] + behind);
    assert (["# Enrolment Record"] + ([""] + ([course] + behind)))[1..] == [""] + ([course] + behind);
    assert ([""] + ([course] + behind))[1..] == [course] + behind && ([course] + behind)[1..] == behind;
    LineWordsNone();
    CourseWords(r.course.value);
  }

  lemma JoinTwo(a: string, b: string)
    ensures Join([a, b], " ") == a + " " + b
  {
    assert [a, b][1..] == [b];
  }

  // The text of the flat parser begins with the title and the course.
  lemma TextBegins(r: EnrolmentRecord) returns (rest: string)
    requires IsPrintable(r) && AreFlatReadable(r.rows) && r.specified == [] && r.unspecified == [] && r.course.Some?
    ensures FlatText(OnOneLine(Rendered(r))) == "# Enrolment Record" + " " + ("Course:" + " " + r.course.value + " " + rest)
  {
    hide PreambleLines, Rendered, FlatText, OnOneLine, Join, AllWords, AreFlatReadable, RowTexts, ArePrintableRows, LineWords,
      BehindCourse;
    FlatTextOfRendered(r);
    PreambleWords(r);
    TitleWords();
    BehindCourseHasWords(r);
    var behind, body := AllWords(BehindCourse(r)), Join(RowTexts(r.rows), " ");
    var course := ["Course:", r.course.value];
    JoinConcat(LineWords("# Enrolment Record"), course + behind, " ");
    JoinConcat(course, behind, " ");
    JoinTwo("Course:", r.course.value);
    rest := Join(behind, " ") + " " + body;
  }

  lemma {:induction false} SkipToCourse(s: string, at: nat, n: nat)
    requires at <= n <= |s| && forall k :: at <= k < n ==> AfterColon(s[k..], "course").None?
    ensures FlatCourse(s, at) == FlatCourse(s, n)
    decreases n - at
  {
    hide AfterColon, CourseIn;
    if at < n {
      SkipToCourse(s, at + 1, n);
    }
  }

  lemma NoCourseInTitle(s: string, k: nat)
    requires k < 19 && 21 <= |s| && s[..21] == "# Enrolment Record Co"
    ensures AfterColon(s[k..], "course").None?
  {
    assert forall ch :: ch in "# Enrolment Record Co" ==> LowerChar(ch) != 'u';
    assert "course"[2] == 'u';
    assert k + 2 < |s| ==> s[k..][2] == s[..21][k + 2] && s[..21][k + 2] in s[..21];
  }

  lemma CourseLabelHere(t: string)
    requires t != "" && !IsSpace(t[0])
    ensures AfterColon("Course: " + t, "course") == Some(t)
  {
    hide StripLeft;
    var s := "Course: " + t;
    CourseIsLabel(s);
    var v := ": " + t;
    assert s[6..] == v && v[1..] == [' '] + t;
    SpacesKept(v);
    StripLeftOne(' ', t, SPACES);
  }

  lemma CourseIsLabel(s: string)
    requires |s| >= 6 && s[..6] == "Course"
    ensures StartsWithFold(s, "course")
  {
    assert "course"[0] == 'c' && "course"[1] == 'o' && "course"[2] == 'u' && "course"[3] == 'r' && "course"[4] == 's' && "course"[5] == 'e';
    assert forall k :: 0 <= k < 6 ==> s[k] == s[..6][k];
  }

  lemma CourseHere(course: string, rest: string)
    requires IsCourseNumber(course)
    ensures AfterColon("Course:" + " " + course + " " + rest, "course") == Some(course + " " + rest)
    ensures CourseIn(course + " " + rest) == Some(course)
  {
    hide AfterColon;
    var t := course + " " + rest;
    assert "Course:" + " " + course + " " + rest == "Course: " + t;
    assert IsDigit(t[0]);
    CourseLabelHere(t);
    DigitRunIs(t, |course|);
    assert t[..|course|] == course;
  }

  // The course of the printed text is found again on one line.
  lemma FlatReadsCourse(r: EnrolmentRecord)
    requires IsPrintable(r) && AreFlatReadable(r.rows) && r.specified == [] && r.unspecified == [] && r.course.Some?
    ensures FlatRecord(OnOneLine(Rendered(r)), false).Ok? && FlatRecord(OnOneLine(Rendered(r)), false).value.course == r.course
  {
    hide Rendered, OnOneLine, AreFlatReadable, FlatText, FlatCourse, AfterColon, CourseIn, FindAll, IsReadable, RowsOf, FlatCampus,
      FlatMajors, AddMajors;
    FlatReadsRendered(r);
    var rest := TextBegins(r);
    var text := FlatText(OnOneLine(Rendered(r)));
    var tail := "Course:" + " " + r.course.value + " " + rest;
    assert text[19..] == tail && text[..21] == "# Enrolment Record Co";
    forall k | 0 <= k < 19 ensures AfterColon(text[k..], "course").None? {
      NoCourseInTitle(text, k);
    }
    SkipToCourse(text, 0, 19);
    CourseHere(r.course.value, rest);
    CourseFoundHere(text, 19);
    FlatCourseOf(OnOneLine(Rendered(r)));
  }

  lemma CourseFoundHere(s: string, at: nat)
    requires at < |s| && AtBoundary(s, at) && AfterColon(s[at..], "course").Some? && CourseIn(AfterColon(s[at..], "course").value).Some?
    ensures FlatCourse(s, at) == CourseIn(AfterColon(s[at..], "course").value)
  {
  }

  lemma FlatCourseOf(raw: string)
    requires FlatRecord(raw, false).Ok?
    ensures FlatRecord(raw, false).value.course == FlatCourse(FlatText(raw), 0)
  {
    hide FlatText, FindAll, IsReadable, RowsOf, FlatCourse, FlatCampus, FlatMajors, AreMatchesFrom, IsFlatRow;
    AddMajorsKeepCourse(Header(FlatCourse(FlatText(raw), 0), FlatCampus(FlatText(raw), 0), [], false), FlatMajors(FlatText(raw), 0));
  }

  lemma {:induction false} AddMajorsKeepCourse(h: Header, values: seq<string>)
    ensures AddMajors(h, values).course == h.course
    decreases |values|
  {
    if values != [] {
      AddMajorsKeepCourse(h, values[..|values| - 1]);
    }
  }
}
