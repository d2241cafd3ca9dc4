/**
 A printed record as one run of words.

 Where its rows stand, and that none can start before them, whatever course, campus and majors
 come first.
 */
module EnrolmentFlatText {
  import opened Text
  import opened Records
  import opened EnrolmentShapes
  import opened EnrolmentTable
  import opened EnrolmentPrinter
  import opened EnrolmentValues
  import opened EnrolmentHeadings
  import opened EnrolmentReading
  import opened EnrolmentRoundTrip
  import opened EnrolmentFlat
  import opened EnrolmentFlatLaws
  import opened EnrolmentFlatRows

  // ---------------------------------------------------------------- words

  lemma {:induction false} JoinConcat(a: seq<string>, b: seq<string>, sep: string)
    requires a != [] && b != []
    ensures Join(a + b, sep) == Join(a, sep) + sep + Join(b, sep)
  {
    if |a| == 1 {
      assert (a + b)[1..] == b;
    } else {
      assert (a + b)[1..] == a[1..] + b;
      JoinConcat(a[1..], b, sep);
    }
  }

  lemma WordsSkipSpace(c: char, s: string)
    requires IsSpace(c)
    ensures Words([c] + s) == Words(s)
  {
    assert ([c] + s)[1..] == s;
    assert DropSpaces([c] + s) == DropSpaces(s);
  }

  lemma {:induction false} WordRunIs(s: string, n: nat)
    requires n <= |s| && (forall k :: 0 <= k < n ==> !IsSpace(s[k])) && (n < |s| ==> IsSpace(s[n]))
    ensures WordRun(s) == n
  {
    if n > 0 {
      WordRunIs(s[1..], n - 1);
    }
  }

  predicate IsWordText(s: string) {
    s != "" && forall k :: 0 <= k < |s| ==> !IsSpace(s[k])
  }

  lemma WordsFirst(word: string, rest: string)
    requires IsWordText(word) && (rest == "" || IsSpace(rest[0]))
    ensures Words(word + rest) == [word] + Words(rest)
  {
    var s := word + rest;
    SpacesKept(s);
    WordRunIs(s, |word|);
    assert s[..|word|] == word && s[|word|..] == rest;
  }

  // White space separates words.
  lemma {:induction false} WordsAppend(a: string, c: char, b: string)
    requires IsSpace(c)
    ensures Words(a + [c] + b) == Words(a) + Words(b)
    decreases |a|
  {
    hide Words;
    if a == "" {
      WordsNone();
      assert a + [c] + b == [c] + b;
      WordsSkipSpace(c, b);
    } else if IsSpace(a[0]) {
      WordsSkipSpace(a[0], a[1..]);
      WordsSkipSpace(a[0], a[1..] + [c] + b);
      assert [a[0]] + a[1..] == a;
      assert [a[0]] + (a[1..] + [c] + b) == a + [c] + b;
      WordsAppend(a[1..], c, b);
    } else {
      var n := WordRun(a);
      var word, rest := a[..n], a[n..];
      assert word + rest == a;
      WordsFirst(word, rest);
      WordsFirst(word, rest + [c] + b);
      assert word + (rest + [c] + b) == a + [c] + b;
      WordsAppend(rest, c, b);
      assert [word] + (Words(rest) + Words(b)) == [word] + Words(rest) + Words(b);
    }
  }

  lemma WordsNone()
    ensures Words("") == []
  {
  }

  predicate IsWordOf(word: string, s: string) {
    IsWordText(word) && forall c :: c in word ==> c in s
  }

  predicate AreWordsOf(words: seq<string>, s: string) {
    forall k :: 0 <= k < |words| ==> IsWordOf(words[k], s)
  }

  lemma WordsOfPart(words: seq<string>, t: string, n: nat, s: string)
    requires n <= |t| && AreWordsOf(words, t[n..]) && forall c :: c in t ==> c in s
    ensures AreWordsOf(words, s)
  {
    hide IsWordText;
    forall k | 0 <= k < |words| ensures IsWordOf(words[k], s) {
      assert IsWordOf(words[k], t[n..]);
      assert forall c :: c in t[n..] ==> c in t;
    }
  }

  lemma DropSpacesKeeps(s: string)
    ensures forall c :: c in DropSpaces(s) ==> c in s
  {
    StripLeftIsSuffix(s, SPACES);
  }

  lemma WordIsWord(t: string, n: nat, s: string)
    requires t != "" && !IsSpace(t[0]) && n == WordRun(t) && forall c :: c in t ==> c in s
    ensures IsWordOf(t[..n], s)
  {
    assert forall c :: c in t[..n] ==> c in t;
  }

  lemma {:induction false} WordsAreWords(s: string)
    ensures AreWordsOf(Words(s), s)
    decreases |s|
  {
    hide IsWordOf, Words, IsWordText, WordRun;
    var t := DropSpaces(s);
    WordsUnfold(s);
    if t != "" {
      var n := WordRun(t);
      DropSpacesKeeps(s);
      WordIsWord(t, n, s);
      WordsAreWords(t[n..]);
      WordsOfPart(Words(t[n..]), t, n, s);
    }
  }

  lemma WordsUnfold(s: string)
    ensures var t := DropSpaces(s);
      Words(s) == if t == "" then [] else [t[..WordRun(t)]] + Words(t[WordRun(t)..])
  {
  }

  lemma PlainRest(s: string, n: nat)
    requires IsPlainText(s) && n < |s| && IsSpace(s[n])
    ensures n + 1 < |s| && s[n] == ' ' && IsPlainText(s[n + 1..])
  {
    var t := s[n + 1..];
    assert forall k :: 0 <= k < |t| ==> t[k] == s[n + 1 + k];
    assert !IsSpace(s[n + 1]);
    assert forall k :: 0 <= k < |t| && IsSpace(t[k]) ==> t[k] == ' ' && k + 1 < |t| && !IsSpace(t[k + 1]);
  }

  // Text with single spaces is its words joined.
  lemma {:induction false} PlainJoins(s: string)
    requires IsPlainText(s) && s != ""
    ensures Words(s) != [] && Join(Words(s), " ") == s
    decreases |s|
  {
    hide Words;
    var n := WordRun(s);
    var word, rest := s[..n], s[n..];
    assert word + rest == s;
    WordsFirst(word, rest);
    if n == |s| {
      WordsNone();
      assert rest == "" && word == s;
    } else {
      PlainRest(s, n);
      assert rest == [' '] + s[n + 1..];
      WordsSkipSpace(' ', s[n + 1..]);
      PlainJoins(s[n + 1..]);
      JoinConcat([word], Words(s[n + 1..]), " ");
      assert s == word + " " + s[n + 1..];
    }
  }

  // ---------------------------------------------------------------- words of lines

  function LineWords(line: string): seq<string> {
    Words(Unmarked(line))
  }

  function AllWords(lines: seq<string>): seq<string> {
    if lines == [] then [] else LineWords(lines[0]) + AllWords(lines[1..])
  }

  lemma UnmarkedAppend(a: string, b: string)
    ensures Unmarked(a + b) == Unmarked(a) + Unmarked(b)
  {
  }

  lemma UnmarkedPlain(s: string)
    requires '|' !in s && '*' !in s
    ensures Unmarked(s) == s
  {
    assert forall k :: 0 <= k < |s| ==> s[k] in s;
  }

  lemma LineWordsAppend(a: string, c: char, b: string)
    requires IsSpace(c) || c == '|' || c == '*'
    ensures LineWords(a + [c] + b) == LineWords(a) + LineWords(b)
  {
    hide Words, Unmarked;
    UnmarkedAppend(a + [c], b);
    UnmarkedAppend(a, [c]);
    var d := if c == '|' || c == '*' then ' ' else c;
    assert Unmarked([c]) == [d];
    WordsAppend(Unmarked(a), d, Unmarked(b));
  }

  lemma LineWordsNone()
    ensures LineWords("") == []
  {
    assert Unmarked("") == "";
    WordsNone();
  }

  lemma {:induction false} AllWordsJoined(lines: seq<string>, c: char)
    requires IsSpace(c)
    ensures LineWords(Join(lines, [c])) == AllWords(lines)
  {
    hide LineWords;
    if lines == [] {
      LineWordsNone();
    } else if |lines| == 1 {
      assert AllWords(lines[1..]) == [];
    } else {
      AllWordsJoined(lines[1..], c);
      LineWordsAppend(lines[0], c, Join(lines[1..], [c]));
    }
  }

  lemma {:induction false} AllWordsAppend(a: seq<string>, b: seq<string>)
    ensures AllWords(a + b) == AllWords(a) + AllWords(b)
  {
    hide LineWords;
    if a == [] {
      assert a + b == b;
    } else {
      assert (a + b)[1..] == a[1..] + b;
      AllWordsAppend(a[1..], b);
    }
  }

  lemma LineWordsDropFirst(c: char, s: string)
    requires IsSpace(c) || c == '|' || c == '*'
    ensures LineWords([c] + s) == LineWords(s)
  {
    hide LineWords;
    LineWordsNone();
    LineWordsAppend("", c, s);
    assert "" + [c] + s == [c] + s;
  }

  lemma LineWordsDropLast(s: string, c: char)
    requires IsSpace(c) || c == '|' || c == '*'
    ensures LineWords(s + [c]) == LineWords(s)
  {
    hide LineWords;
    LineWordsNone();
    LineWordsAppend(s, c, "");
    assert s + [c] + "" == s + [c];
  }

  lemma {:induction false} CellsJoinedWords(cells: seq<string>)
    ensures LineWords(Join(cells, " | ")) == AllWords(cells)
  {
    hide LineWords;
    if cells == [] {
      LineWordsNone();
    } else if |cells| == 1 {
      assert AllWords(cells[1..]) == [];
    } else {
      var rest := Join(cells[1..], " | ");
      CellsJoinedWords(cells[1..]);
      LineWordsAppend(cells[0], ' ', "| " + rest);
      assert cells[0] + [' '] + ("| " + rest) == cells[0] + " | " + rest;
      LineWordsDropFirst('|', " " + rest);
      assert ['|'] + (" " + rest) == "| " + rest;
      LineWordsDropFirst(' ', rest);
    }
  }

  // The words of a printed row are the words of its cells.
  lemma RowLineWords(cells: seq<string>)
    ensures LineWords(RowLine(cells)) == AllWords(cells)
  {
    hide LineWords, Join, AllWords;
    var inner := Join(cells, " | ");
    CellsJoinedWords(cells);
    assert RowLine(cells) == ['|'] + ([' '] + (inner + [' '] + ['|']));
    LineWordsDropFirst('|', [' '] + (inner + [' '] + ['|']));
    LineWordsDropFirst(' ', inner + [' '] + ['|']);
    LineWordsDropLast(inner + [' '], '|');
    LineWordsDropLast(inner, ' ');
  }

  // ---------------------------------------------------------------- words of an enrolment row

  lemma PlainCellWords(cell: string)
    requires IsPlainText(cell)
    ensures LineWords(cell) == Words(cell)
  {
    hide Words;
    UnmarkedPlain(cell);
  }

  // One more cell in front.
  lemma CellInFront(cell: string, words: seq<string>, text: string)
    requires IsPlainText(cell) && cell != "" && words != [] && Join(words, " ") == text
    ensures Join(LineWords(cell) + words, " ") == cell + " " + text && LineWords(cell) + words != []
  {
    hide Words, IsPlainText, LineWords;
    PlainCellWords(cell);
    PlainJoins(cell);
    JoinConcat(LineWords(cell), words, " ");
  }

  lemma DigitsArePlain(n: nat)
    ensures IsPlainText(IntText(n)) && IntText(n) != ""
  {
    hide Decimal, IsPlainText;
    UpperTextIsCell(Decimal(n));
  }

  lemma AlphabeticIsPlain(s: string)
    requires IsAlphabetic(s)
    ensures IsPlainText(s) && s != ""
  {
    forall k | 0 <= k < |s| ensures IsLetter(s[k]) || (s[k] == ' ' && k + 1 < |s| && IsLetter(s[k + 1])) {
      assert IsAlphabeticAt(s, k);
    }
    assert IsAlphabeticAt(s, |s| - 1);
    hide IsAlphabetic;
    assert forall c :: c in s ==> IsLetter(c) || c == ' ';
  }

  lemma EndingWords(row: EnrolmentRow)
    requires IsFlatReadable(row)
    ensures var words := LineWords(OrBlank(row.grade)) + LineWords(row.status);
      words != [] && Join(words, " ") == GradePart(row.grade) + row.status
  {
    hide IsSubjectCode, IsSession, IsAlphabetic, IsCell, IsPlainText, Words, LineWords, IsGrade, IsStatus;
    StatusIsPlain(row.status);
    StatusIsNotEmpty(row.status);
    PlainCellWords(row.status);
    PlainJoins(row.status);
    if row.grade.Some? {
      GradeIsUpper(row.grade.value);
      UpperTextIsCell(row.grade.value);
      CellInFront(row.grade.value, LineWords(row.status), row.status);
    } else {
      LineWordsNone();
      assert [] + LineWords(row.status) == LineWords(row.status);
      assert "" + row.status == row.status;
    }
  }

  lemma StatusIsNotEmpty(status: string)
    requires IsStatus(status)
    ensures status != ""
  {
  }

  lemma RowCellWords(row: EnrolmentRow)
    ensures AllWords(RowCells(row)) ==
      LineWords(IntText(row.year)) + (LineWords(row.session) + (LineWords(row.campus) + (LineWords(row.code) +
        (LineWords(IntText(row.nomCp)) + (LineWords(OrBlank(row.grade)) + LineWords(row.status))))))
  {
    hide LineWords, IntText;
    var c := RowCells(row);
    AllWordsStep(c[6..]);
    AllWordsStep(c[5..]);
    AllWordsStep(c[4..]);
    AllWordsStep(c[3..]);
    AllWordsStep(c[2..]);
    AllWordsStep(c[1..]);
    AllWordsStep(c);
    assert c[0..] == c;
    hide AllWords;
    assert AllWords(c[7..]) == [] by {
      AllWordsEmpty(c[7..]);
    }
  }

  lemma AllWordsEmpty(lines: seq<string>)
    requires lines == []
    ensures AllWords(lines) == []
  {
  }

  lemma AllWordsStep(lines: seq<string>)
    requires lines != []
    ensures AllWords(lines) == LineWords(lines[0]) + AllWords(lines[1..])
  {
  }

  // A printed row, collapsed.
  lemma RowWords(row: EnrolmentRow)
    requires IsFlatReadable(row)
    ensures var words := LineWords(RowLine(RowCells(row)));
      words != [] && Join(words, " ") == RowText(row)
  {
    hide Words, LineWords, IsPlainText, IsAlphabetic, IsSession, IsPrintableRow, Join, RowLine, RowCells, IntText, IsPlainWord, IsCell,
      AllWords;
    RowLineWords(RowCells(row));
    RowCellWords(row);
    EndingWords(row);
    var ending := GradePart(row.grade) + row.status;
    var w6 := LineWords(OrBlank(row.grade)) + LineWords(row.status);
    DigitsArePlain(row.nomCp);
    CellInFront(IntText(row.nomCp), w6, ending);
    var w4 := LineWords(IntText(row.nomCp)) + w6;
    CodeOfRowIsPlain(row);
    CellInFront(row.code, w4, EndingText(row));
    var w3 := LineWords(row.code) + w4;
    AlphabeticIsPlain(row.campus);
    CellInFront(row.campus, w3, TailText(row));
    var w2 := LineWords(row.campus) + w3;
    SessionIsCell(row.session);
    PlainWord(row.session);
    WordIsNotEmpty(row.session);
    CellInFront(row.session, w2, row.campus + " " + TailText(row));
    DigitsArePlain(row.year);
    CellInFront(IntText(row.year), LineWords(row.session) + w2, row.session + " " + (row.campus + " " + TailText(row)));
  }

  lemma CodeOfRowIsPlain(row: EnrolmentRow)
    requires IsPrintableRow(row)
    ensures IsPlainText(row.code) && row.code != ""
  {
    hide IsPlainText, IsGrade, IsStatus, Upper, IsCell;
    var n: nat :| 2 <= n <= 4 && IsCodeOf(row.code, n);
    assert forall k :: 0 <= k < |row.code| ==> IsUpper(row.code[k]) || IsDigit(row.code[k]);
    UpperTextIsCell(row.code);
  }

  // ---------------------------------------------------------------- words before the rows

  predicate EndsInDigit(s: string) {
    s != "" && IsDigit(s[|s| - 1])
  }

  // No word that ends in a digit stands before a session: no row can start in these words.
  predicate IsQuiet(words: seq<string>) {
    forall i :: 0 <= i < |words| - 1 && EndsInDigit(words[i]) ==> !IsSession(words[i + 1])
  }

  predicate IsQuietLine(words: seq<string>) {
    IsQuiet(words) && (words != [] ==> !IsSession(words[0]))
  }

  lemma QuietAppend(a: seq<string>, b: seq<string>)
    requires IsQuietLine(a) && IsQuietLine(b)
    ensures IsQuietLine(a + b)
  {
    hide IsSession, EndsInDigit;
    var all := a + b;
    forall i | 0 <= i < |all| - 1 && EndsInDigit(all[i]) ensures !IsSession(all[i + 1]) {
      if i + 1 < |a| {
        assert all[i] == a[i] && all[i + 1] == a[i + 1];
      } else if i + 1 == |a| {
        assert all[i + 1] == b[0];
      } else {
        assert all[i] == b[i - |a|] && all[i + 1] == b[i + 1 - |a|];
      }
    }
  }

  lemma {:induction false} QuietLines(lines: seq<string>)
    requires forall k :: 0 <= k < |lines| ==> IsQuietLine(LineWords(lines[k]))
    ensures IsQuietLine(AllWords(lines))
  {
    hide IsQuietLine, LineWords;
    if lines == [] {
      assert IsQuietLine([]) by {
        QuietNothing();
      }
    } else {
      QuietLines(lines[1..]);
      QuietAppend(LineWords(lines[0]), AllWords(lines[1..]));
    }
  }

  lemma QuietNothing()
    ensures IsQuietLine([])
  {
  }

  lemma SessionStart(session: string)
    requires IsSession(session)
    ensures session != "" && (session[0] == 'A' || session[0] == 'S' || session[0] == 'W')
  {
  }

  // Words of which only the last may end in a digit, after a first that is no session.
  lemma QuietBut(words: seq<string>, first: char)
    requires forall i :: 0 <= i < |words| - 1 ==> !EndsInDigit(words[i])
    requires first != 'A' && first != 'S' && first != 'W'
    requires words != [] ==> words[0] != "" && words[0][0] == first
    ensures IsQuietLine(words)
  {
    hide EndsInDigit, IsSession;
    if words != [] && IsSession(words[0]) {
      SessionStart(words[0]);
    }
  }

  lemma FirstWordChar(s: string, c: char)
    requires s != "" && s[0] == c && !IsSpace(c)
    ensures Words(s) != [] && Words(s)[0] != "" && Words(s)[0][0] == c
  {
    SpacesKept(s);
  }

  lemma NoDigitWords(s: string)
    requires forall c :: c in s ==> !IsDigit(c)
    ensures forall k :: 0 <= k < |Words(s)| ==> !EndsInDigit(Words(s)[k])
  {
    hide Words;
    WordsAreWords(s);
    forall k | 0 <= k < |Words(s)| ensures !EndsInDigit(Words(s)[k]) {
      var w := Words(s)[k];
      assert IsWordOf(w, s);
      assert w[|w| - 1] in w;
    }
  }

  // A line without digits whose first visible character starts no session.
  lemma QuietText(s: string, c: char)
    requires s != "" && s[0] == c && !IsSpace(c) && '*' != c && c != '|' && c != 'A' && c != 'S' && c != 'W'
    requires forall x :: x in s ==> !IsDigit(x)
    ensures IsQuietLine(LineWords(s))
  {
    hide Words, IsQuietLine;
    var t := Unmarked(s);
    forall x | x in t ensures !IsDigit(x) {
      var k :| 0 <= k < |t| && t[k] == x;
      assert s[k] in s;
    }
    assert t[0] == c;
    NoDigitWords(t);
    FirstWordChar(t, c);
    QuietBut(Words(t), c);
  }

  lemma QuietBlank()
    ensures IsQuietLine(LineWords(""))
  {
    LineWordsNone();
    QuietNothing();
  }

  lemma QuietTitles()
    ensures IsQuietLine(LineWords("# Enrolment Record")) && IsQuietLine(LineWords("## Enrolment History"))
  {
    hide LineWords, IsQuietLine;
    QuietText("# Enrolment Record", '#');
    QuietText("## Enrolment History", '#');
  }

  lemma BoldLabel(name: string, value: string)
    ensures LineWords("**" + name + ":** " + value) == LineWords(name + ":") + LineWords(value)
  {
    hide LineWords;
    var rest := name + ":" + "** " + value;
    assert "**" + name + ":** " + value == ['*'] + (['*'] + rest);
    LineWordsDropFirst('*', ['*'] + rest);
    LineWordsDropFirst('*', rest);
    LineWordsAppend(name + ":", '*', "* " + value);
    assert name + ":" + ['*'] + ("* " + value) == rest;
    LineWordsDropFirst('*', " " + value);
    assert ['*'] + (" " + value) == "* " + value;
    LineWordsDropFirst(' ', value);
  }

  lemma OneWord(word: string)
    requires IsWordText(word) && '|' !in word && '*' !in word
    ensures LineWords(word) == [word]
  {
    hide Words;
    UnmarkedPlain(word);
    WordsFirst(word, "");
    WordsNone();
    assert word + "" == word;
  }

  lemma LabelWords()
    ensures LineWords("Course:") == ["Course:"] && LineWords("Campus:") == ["Campus:"] && LineWords("Major:") == ["Major:"]
    ensures LineWords("Major") == ["Major"]
  {
    hide LineWords;
    assert forall c :: c in "Course:" ==> !IsSpace(c) && c != '|' && c != '*';
    assert forall c :: c in "Campus:" ==> !IsSpace(c) && c != '|' && c != '*';
    assert forall c :: c in "Major:" ==> !IsSpace(c) && c != '|' && c != '*';
    assert forall c :: c in "Major" ==> !IsSpace(c) && c != '|' && c != '*';
    VisibleWord("Course:");
    VisibleWord("Campus:");
    VisibleWord("Major:");
    VisibleWord("Major");
  }

  lemma VisibleWord(s: string)
    requires s != "" && forall c :: c in s ==> !IsSpace(c) && c != '|' && c != '*'
    ensures LineWords(s) == [s]
  {
    hide LineWords;
    assert forall k :: 0 <= k < |s| ==> s[k] in s;
    OneWord(s);
  }

  lemma QuietCourse(course: string)
    requires IsCourseNumber(course)
    ensures IsQuietLine(LineWords("**Course:** " + course))
  {
    hide LineWords, IsQuietLine;
    BoldLabel("Course", course);
    assert "**" + "Course" + ":** " + course == "**Course:** " + course;
    assert "Course" + ":" == "Course:";
    LabelWords();
    assert forall k :: 0 <= k < |course| ==> IsDigit(course[k]);
    assert forall c :: c in course ==> !IsSpace(c) && c != '|' && c != '*';
    VisibleWord(course);
    var words := ["Course:", course];
    assert words == ["Course:"] + [course];
    assert words[0][6] == ':';
    QuietBut(words, 'C');
  }

  // A label and a value without digits.
  lemma QuietLabelled(name: string, value: string)
    requires name != "" && name[0] != 'A' && name[0] != 'S' && name[0] != 'W'
    requires LineWords(name + ":") == [name + ":"]
    requires forall c :: c in value ==> !IsDigit(c)
    ensures IsQuietLine(LineWords("**" + name + ":** " + value))
  {
    hide LineWords, IsQuietLine, IsSession;
    BoldLabel(name, value);
    NoDigitLine(value);
    var words := [name + ":"] + LineWords(value);
    assert words[0][|name|] == ':';
    forall i | 0 <= i < |words| - 1 ensures !EndsInDigit(words[i]) {
      if i > 0 {
        assert words[i] == LineWords(value)[i - 1];
      }
    }
    QuietBut(words, name[0]);
  }

  lemma NoDigitLine(s: string)
    requires forall c :: c in s ==> !IsDigit(c)
    ensures forall k :: 0 <= k < |LineWords(s)| ==> !EndsInDigit(LineWords(s)[k])
  {
    hide Words;
    var t := Unmarked(s);
    forall x | x in t ensures !IsDigit(x) {
      var k :| 0 <= k < |t| && t[k] == x;
      assert s[k] in s;
    }
    NoDigitWords(t);
  }

  lemma QuietCampus(campus: string)
    requires IsCampusName(campus)
    ensures IsQuietLine(LineWords("**Campus:** " + campus))
  {
    hide LineWords, IsQuietLine;
    LabelWords();
    assert "Campus" + ":" == "Campus:";
    forall c | c in campus ensures !IsDigit(c) {
      var k :| 0 <= k < |campus| && campus[k] == c;
    }
    QuietLabelled("Campus", campus);
    assert "**" + "Campus" + ":** " + campus == "**Campus:** " + campus;
  }

  lemma MajorHasNoDigit(major: string)
    requires IsMajorText(major)
    ensures forall c :: c in major ==> !IsDigit(c)
  {
    forall c | c in major ensures !IsDigit(c) {
      var k :| 0 <= k < |major| && major[k] == c;
    }
  }

  lemma QuietMajor(index: nat, major: string)
    requires IsMajorText(major)
    ensures IsQuietLine(LineWords(MajorLine(index, major)))
  {
    hide LineWords, IsQuietLine, IsMajorText, Decimal;
    MajorHasNoDigit(major);
    LabelWords();
    if index == 0 {
      assert "Major" + ":" == "Major:";
      QuietLabelled("Major", major);
      assert "**" + "Major" + ":** " + major == "**Major:** " + major;
    } else {
      QuietNumbered(Decimal(index + 1), major);
    }
  }

  lemma QuietNumbered(number: string, major: string)
    requires AreDigits(number) && number != "" && forall c :: c in major ==> !IsDigit(c)
    ensures IsQuietLine(LineWords("**Major " + number + ":** " + major))
  {
    hide LineWords, IsQuietLine;
    var name := "Major " + number;
    BoldLabel(name, major);
    assert "**" + name + ":** " + major == "**Major " + number + ":** " + major;
    LineWordsAppend("Major", ' ', number + ":");
    assert "Major" + [' '] + (number + ":") == name + ":";
    LabelWords();
    var second := number + ":";
    assert forall k :: 0 <= k < |second| ==> IsDigit(second[k]) || second[k] == ':';
    assert forall c :: c in second ==> !IsSpace(c) && c != '|' && c != '*';
    VisibleWord(second);
    NoDigitLine(major);
    var words := ["Major"] + [second] + LineWords(major);
    assert words[1][|number|] == ':' && words[0][4] == 'r';
    forall i | 0 <= i < |words| ensures !EndsInDigit(words[i]) {
      if i > 1 {
        assert words[i] == LineWords(major)[i - 2];
      }
    }
    QuietBut(words, 'M');
  }

  lemma NoDigitHeadings()
    ensures forall k :: 0 <= k < 7 ==> forall c :: c in ENROLMENT_HEADINGS[k] ==> !IsDigit(c)
  {
    assert forall c :: c in "Year" ==> !IsDigit(c);
    assert forall c :: c in "Session" ==> !IsDigit(c);
    assert forall c :: c in "Campus" ==> !IsDigit(c);
    assert forall c :: c in "Subject Code" ==> !IsDigit(c);
    assert forall c :: c in "Nom CP" ==> !IsDigit(c);
    assert forall c :: c in "Grade" ==> !IsDigit(c);
    assert forall c :: c in "Status" ==> !IsDigit(c);
  }

  // Headings: no word of them ends in a digit, and the first is no session.
  lemma {:induction false} NoDigitCells(cells: seq<string>)
    requires forall k :: 0 <= k < |cells| ==> forall c :: c in cells[k] ==> !IsDigit(c)
    ensures forall k :: 0 <= k < |AllWords(cells)| ==> !EndsInDigit(AllWords(cells)[k])
  {
    hide LineWords;
    if cells != [] {
      NoDigitCells(cells[1..]);
      NoDigitLine(cells[0]);
    }
  }

  lemma HeadingWordsStart()
    ensures AllWords(ENROLMENT_HEADINGS) != [] && AllWords(ENROLMENT_HEADINGS)[0] == "Year"
  {
    hide LineWords;
    assert forall c :: c in "Year" ==> !IsSpace(c) && c != '|' && c != '*';
    VisibleWord("Year");
    AllWordsStep(ENROLMENT_HEADINGS);
    assert ENROLMENT_HEADINGS[0] == "Year";
  }

  lemma QuietHeadings()
    ensures IsQuietLine(LineWords(RowLine(ENROLMENT_HEADINGS)))
  {
    hide LineWords, IsQuietLine, RowLine, AllWords;
    RowLineWords(ENROLMENT_HEADINGS);
    NoDigitHeadings();
    NoDigitCells(ENROLMENT_HEADINGS);
    HeadingWordsStart();
    QuietBut(AllWords(ENROLMENT_HEADINGS), 'Y');
  }

  lemma {:induction false} DashWords(n: nat)
    requires n > 0
    ensures LineWords(Join(Dashes(n), "|")) == Dashes(n)
  {
    hide LineWords;
    assert forall c :: c in "---" ==> !IsSpace(c) && c != '|' && c != '*';
    VisibleWord("---");
    if n == 1 {
      assert Dashes(1) == ["---"];
    } else {
      assert Dashes(n)[1..] == Dashes(n - 1);
      DashWords(n - 1);
      LineWordsAppend("---", '|', Join(Dashes(n - 1), "|"));
      assert Dashes(n) == ["---"] + Dashes(n - 1);
    }
  }

  lemma QuietDivider(n: nat)
    requires n > 0
    ensures IsQuietLine(LineWords(Divider(n))) && LineWords(Divider(n)) == Dashes(n)
  {
    hide LineWords, IsQuietLine, Join;
    var inner := Join(Dashes(n), "|");
    DashWords(n);
    assert Divider(n) == ['|'] + (inner + ['|']);
    LineWordsDropFirst('|', inner + ['|']);
    LineWordsDropLast(inner, '|');
    assert forall k :: 0 <= k < n ==> Dashes(n)[k] == "---";
    assert "---"[2] == '-' && !IsDigit('-');
    QuietBut(Dashes(n), '-');
  }
}
