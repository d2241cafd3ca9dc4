/**
 Reading printed lines: what the table parser makes of each line that the printer writes, of its
 header lines, its rows and its dividers.
 */
module EnrolmentReading {
  import opened Text
  import opened Records
  import opened EnrolmentShapes
  import opened EnrolmentTable
  import opened EnrolmentPrinter
  import opened EnrolmentValues

  // ---------------------------------------------------------------- lines of a text

  lemma {:induction false} LineRunIs(s: string, n: nat)
    requires n <= |s| && (forall k :: 0 <= k < n ==> !IsBreak(s[k])) && (n < |s| ==> IsBreak(s[n]))
    ensures LineRun(s) == n
  {
    if n > 0 {
      LineRunIs(s[1..], n - 1);
    }
  }

  lemma OneLine(line: string)
    requires HasNoBreak(line) && line != ""
    ensures Lines(line) == [line]
  {
    assert forall k :: 0 <= k < |line| ==> line[k] in line;
    LineRunIs(line, |line|);
  }

  lemma LineFirst(line: string, rest: string)
    requires HasNoBreak(line)
    ensures Lines(line + "\n" + rest) == [line] + Lines(rest)
  {
    var s := line + "\n" + rest;
    assert forall k :: 0 <= k < |line| ==> s[k] == line[k] && line[k] in line;
    LineRunIs(s, |line|);
    assert s[..|line|] == line && s[|line| + 1..] == rest;
  }

  // Splitting into lines undoes joining lines, when the last is not empty.
  lemma {:induction false} LinesJoined(lines: seq<string>)
    requires lines != [] && HaveNoBreaks(lines) && lines[|lines| - 1] != ""
    ensures Lines(Join(lines, "\n")) == lines
  {
    hide Lines, HasNoBreak;
    if |lines| == 1 {
      OneLine(lines[0]);
    } else {
      LinesJoined(lines[1..]);
      LineFirst(lines[0], Join(lines[1..], "\n"));
    }
  }

  // ---------------------------------------------------------------- cells of a row

  lemma StripPipes(inner: string)
    requires inner != "" && inner[0] != '|' && inner[|inner| - 1] != '|'
    ensures Strip(Trim("|" + inner + "|"), {'|'}) == inner
  {
    var line := "|" + inner + "|";
    assert Trim(line) == line;
    StripLeftOne('|', inner + "|", {'|'});
    assert line == ['|'] + (inner + "|");
    StripRightOne(inner, '|', {'|'});
  }

  lemma StripLeftOne(c: char, rest: string, drop: set<char>)
    requires c in drop && rest != "" && rest[0] !in drop
    ensures StripLeft([c] + rest, drop) == rest
  {
    assert ([c] + rest)[1..] == rest;
  }

  lemma StripRightOne(front: string, c: char, drop: set<char>)
    requires c in drop && front != "" && front[|front| - 1] !in drop
    ensures StripRight(front + [c], drop) == front
  {
    assert (front + [c])[..|front|] == front;
  }

  lemma TrimPadded(cell: string)
    requires IsTrimmed(cell)
    ensures Trim(" " + cell + " ") == cell
  {
    var s := " " + cell + " ";
    if cell == "" {
      assert s == "  ";
      assert s[1..] == " " && s[1..][1..] == "";
      assert StripLeft(s, SPACES) == "";
    } else {
      StripLeftOne(' ', cell + " ", SPACES);
      assert s == [' '] + (cell + " ");
      StripRightOne(cell, ' ', SPACES);
    }
  }

  function PadAll(cells: seq<string>): (r: seq<string>)
    ensures |r| == |cells| && forall k :: 0 <= k < |cells| ==> r[k] == " " + cells[k] + " "
  {
    seq(|cells|, k requires 0 <= k < |cells| => " " + cells[k] + " ")
  }

  lemma {:induction false} PaddedJoin(cells: seq<string>)
    requires cells != []
    ensures " " + Join(cells, " | ") + " " == Join(PadAll(cells), "|")
  {
    if |cells| == 1 {
      assert PadAll(cells) == [" " + cells[0] + " "];
    } else {
      var rest := cells[1..];
      PaddedJoin(rest);
      assert PadAll(cells)[1..] == PadAll(rest);
      var tail := Join(rest, " | ");
      hide Join;
      assert " " + (cells[0] + " | " + tail) + " " == (" " + cells[0] + " ") + "|" + (" " + tail + " ");
      JoinStep(cells, " | ");
      JoinStep(PadAll(cells), "|");
    }
  }

  lemma JoinStep(parts: seq<string>, sep: string)
    requires |parts| > 1
    ensures Join(parts, sep) == parts[0] + sep + Join(parts[1..], sep)
  {
  }

  // A printed row splits into its cells.
  lemma SplitRowLine(cells: seq<string>)
    requires cells != [] && AreCells(cells)
    ensures SplitRow(RowLine(cells)) == cells
  {
    hide Join, Split, Strip, Trim, IsTrimmed, HasNoBreak;
    var padded := PadAll(cells);
    var inner := " " + Join(cells, " | ") + " ";
    PaddedJoin(cells);
    assert RowLine(cells) == "|" + inner + "|";
    StripPipes(inner);
    forall k | 0 <= k < |padded| ensures '|' !in padded[k] {
      assert IsCell(cells[k]);
    }
    SplitJoined(padded, '|');
    assert Split(inner, '|') == padded;
    forall k | 0 <= k < |cells| ensures Trim(padded[k]) == cells[k] {
      assert IsCell(cells[k]);
      TrimPadded(cells[k]);
    }
    assert TrimAll(padded) == cells;
  }

  lemma {:induction false} JoinHasNoBreak(parts: seq<string>, sep: string)
    requires HaveNoBreaks(parts) && HasNoBreak(sep)
    ensures HasNoBreak(Join(parts, sep))
  {
    if |parts| == 1 {
      assert HasNoBreak(parts[0]);
    } else if |parts| > 1 {
      JoinHasNoBreak(parts[1..], sep);
      assert HasNoBreak(parts[0]);
    }
  }

  lemma RowLineHasNoBreak(cells: seq<string>)
    requires AreCells(cells)
    ensures HasNoBreak(RowLine(cells))
  {
    hide Join, IsTrimmed;
    assert HasNoBreak(" | ") && HasNoBreak("| ") && HasNoBreak(" |");
    forall k | 0 <= k < |cells| ensures HasNoBreak(cells[k]) {
      assert IsCell(cells[k]);
    }
    JoinHasNoBreak(cells, " | ");
  }

  lemma RowLineIsTableLine(cells: seq<string>)
    ensures IsTableLine(RowLine(cells)) && Trim(RowLine(cells)) == RowLine(cells)
  {
    hide Join, Strip;
  }

  // ---------------------------------------------------------------- dividers

  lemma SplitDivider(n: nat)
    requires n > 0
    ensures SplitRow(Divider(n)) == Dashes(n)
  {
    hide Join, Split, Strip, Trim;
    var inner := Join(Dashes(n), "|");
    JoinedDashes(n);
    StripPipes(inner);
    SplitJoined(Dashes(n), '|');
    TrimDashes();
    assert TrimAll(Dashes(n)) == Dashes(n);
  }

  lemma TrimDashes()
    ensures Trim("---") == "---"
  {
    hide Strip;
    var s := "---";
    assert !IsSpace(s[0]) && !IsSpace(s[2]);
  }

  lemma {:induction false} JoinedDashes(n: nat)
    requires n > 0
    ensures var s := Join(Dashes(n), "|"); s != "" && s[0] == '-' && s[|s| - 1] == '-'
  {
    if n > 1 {
      JoinedDashes(n - 1);
      assert Dashes(n)[1..] == Dashes(n - 1);
    }
  }

  lemma DividerIsSkipped(n: nat, st: State, keepMarks: bool)
    requires n > 0
    ensures ReadLine(Divider(n), st, keepMarks) == Ok(st)
    ensures HasNoBreak(Divider(n))
  {
    hide Join, SplitRow, Strip;
    var line := Divider(n);
    assert Trim(line) == line && IsTableLine(line);
    SplitDivider(n);
    assert IsSeparator(Dashes(n));
    assert HasNoBreak("---") && HasNoBreak("|");
    JoinHasNoBreak(Dashes(n), "|");
  }

  // ---------------------------------------------------------------- header lines

  // The lines that the header reader passes over.
  predicate IsSilent(line: string) {
    line == "" || line[0] == '#'
  }

  lemma SilentHasNoLabel(line: string, name: string)
    requires IsSilent(line) && name != "" && 'a' <= name[0] <= 'z'
    ensures !StartsWithFold(line, name) && DropStars(line) == line
  {
  }

  lemma SilentLineIsNoHeader(line: string)
    requires IsSilent(line)
    ensures CourseOf(line).None? && CampusOf(line).None? && MajorOf(line).None?
  {
    hide StartsWithFold, CourseIn, CampusIn, MajorIn, DropStars, DropSpaces, DropColon;
    SilentHasNoLabel(line, "course");
    SilentHasNoLabel(line, "campus");
    SilentHasNoLabel(line, "second");
    SilentHasNoLabel(line, "major");
  }

  lemma SilentLineIsSkipped(line: string, h: Header)
    requires IsSilent(line) && !h.pending
    ensures ReadHeaderLine(line, h) == h
  {
    hide Trim, MajorFrom, CourseOf, CampusOf, MajorOf, Remove;
    SilentLineIsNoHeader(line);
  }

  // What stands behind a bold label and a space is its value.
  lemma BoldLabelIsRead(written: string, name: string, value: string)
    requires |written| == |name| > 0 && StartsWithFold(written, name) && value != "" && !IsSpace(value[0])
    ensures AfterLabel("**" + written + ":** " + value, name) == Some(value)
  {
    hide StripLeft, DropStars;
    var tail := ":** " + value;
    assert "**" + written + ":** " + value == "**" + (written + tail);
    StarsDropped(written + tail);
    hide StartsWithFold;
    assert (written + tail)[|name|..] == tail && tail[1..] == "**" + (" " + value);
    StarsDropped(" " + value);
    assert " " + value == [' '] + value;
    StripLeftOne(' ', value, SPACES);
  }

  lemma StarsDropped(s: string)
    ensures DropStars("**" + s) == s
  {
    assert ("**" + s)[2..] == s;
  }

  lemma LabelsAsWritten()
    ensures StartsWithFold("Course", "course") && StartsWithFold("Campus", "campus")
  {
    assert "course"[0] == 'c' && "course"[1] == 'o' && "course"[2] == 'u' && "course"[3] == 'r' && "course"[4] == 's' && "course"[5] == 'e';
    assert "campus"[0] == 'c' && "campus"[1] == 'a' && "campus"[2] == 'm' && "campus"[3] == 'p' && "campus"[4] == 'u' && "campus"[5] == 's';
  }

  lemma CourseLineLabel(course: string)
    requires IsCourseNumber(course)
    ensures AfterLabel("**Course:** " + course, "course") == Some(course)
  {
    hide AfterLabel, StartsWithFold;
    LabelsAsWritten();
    assert IsDigit(course[0]);
    BoldLabelIsRead("Course", "course", course);
    assert "**" + "Course" + ":** " + course == "**Course:** " + course;
  }

  lemma CampusLineLabel(campus: string)
    requires campus != "" && !IsSpace(campus[0])
    ensures AfterLabel("**Campus:** " + campus, "campus") == Some(campus)
  {
    hide AfterLabel, StartsWithFold;
    LabelsAsWritten();
    BoldLabelIsRead("Campus", "campus", campus);
    assert "**" + "Campus" + ":** " + campus == "**Campus:** " + campus;
  }

  lemma CourseLineIsRead(course: string, h: Header)
    requires IsCourseNumber(course) && h.course.None? && !h.pending
    ensures ReadHeaderLine("**Course:** " + course, h) == h.(course := Some(course))
  {
    hide Trim, MajorFrom, MajorOf, CampusOf, DigitRun, AfterLabel;
    var line := "**Course:** " + course;
    CourseLineLabel(course);
    DigitRunIs(course, |course|);
    assert course[..|course|] == course;
  }

  lemma CampusLineIsNoCourse(campus: string)
    ensures CourseOf("**Campus:** " + campus).None?
  {
    hide CourseIn, DropSpaces, DropColon;
    var line := "**Campus:** " + campus;
    assert line[2..] == "Campus:** " + campus;
    assert line[2..][1] == 'a';
    assert !StartsWithFold(line[2..], "course");
  }

  lemma CampusNameIsRead(campus: string)
    requires IsCampusName(campus) && IsTrimmed(campus)
    ensures campus != "" && !IsSpace(campus[0]) && CampusIn(campus) == Some(campus)
  {
    assert '|' !in campus;
    assert BeforePipe(campus) == campus;
  }

  lemma CampusLineIsRead(campus: string, h: Header)
    requires IsCampusName(campus) && IsTrimmed(campus) && h.campus.None? && !h.pending
    ensures ReadHeaderLine("**Campus:** " + campus, h) == h.(campus := Some(campus))
  {
    hide Trim, MajorFrom, MajorOf, CourseOf, CampusIn, Remove, IsTrimmed, AfterLabel, IsCampusName;
    CampusNameIsRead(campus);
    CampusLineLabel(campus);
    CampusLineIsNoCourse(campus);
  }

  lemma NumberIsDropped(number: string, rest: string)
    requires rest != "" && rest[0] == ':'
    requires number == "" || (|number| > 1 && number[0] == ' ' && forall k :: 1 <= k < |number| ==> IsDigit(number[k]))
    ensures DropNumber(number + rest) == rest
  {
    var s := number + rest;
    if number == "" {
      assert s == rest && DropSpaces(rest) == rest;
    } else {
      var t := number[1..] + rest;
      assert s == [' '] + t;
      StripLeftOne(' ', t, SPACES);
      DigitRunIs(t, |number| - 1);
      hide DigitRun, StripLeft;
      assert t[|number| - 1..] == rest;
    }
  }

  // What a number after the label leaves: the colon, the closing stars and the value.
  lemma MajorInReads(number: string, major: string)
    requires IsMajorText(major)
    requires number == "" || (|number| > 1 && number[0] == ' ' && forall k :: 1 <= k < |number| ==> IsDigit(number[k]))
    ensures MajorIn(number + (":** " + major)) == major
  {
    hide DropNumber, Trim;
    var rest := ":** " + major;
    NumberIsDropped(number, rest);
    assert rest[1..] == "** " + major && rest[1..][2..] == " " + major;
    assert DropSpaces(rest) == rest;
    assert DropStars(DropColon(rest)) == " " + major;
    TrimLeading(major);
  }

  lemma TrimLeading(s: string)
    requires s != "" && IsTrimmed(s)
    ensures Trim(" " + s) == s
  {
    StripLeftOne(' ', s, SPACES);
  }

  function NumberOf(index: nat): string {
    if index == 0 then "" else " " + Decimal(index + 1)
  }

  lemma MajorLineForm(index: nat, major: string)
    ensures MajorLine(index, major) == "**Major" + (NumberOf(index) + (":** " + major))
  {
    hide Decimal;
  }

  lemma MajorLabel(rest: string)
    ensures MajorOf("**Major" + rest) == Some(MajorIn(rest))
    ensures CourseOf("**Major" + rest).None? && CampusOf("**Major" + rest).None?
  {
    hide MajorIn;
    var line := "**Major" + rest;
    assert line[2..] == "Major" + rest;
    assert line[2..][5..] == rest;
  }

  // A printed major is read as what its text is recorded as.
  lemma MajorLineIsRead(index: nat, major: string, h: Header)
    requires IsMajorText(major) && !h.pending
    ensures ReadHeaderLine(MajorLine(index, major), h) == AddMajor(h, major)
  {
    hide Trim, MajorFrom, MajorOf, MajorIn, CourseOf, CampusOf, MajorLine, NumberOf, AddMajor, Decimal;
    var rest := NumberOf(index) + (":** " + major);
    MajorLineForm(index, major);
    MajorLabel(rest);
    NumberForm(index);
    MajorInReads(NumberOf(index), major);
  }

  lemma NumberForm(index: nat)
    ensures var n := NumberOf(index);
      n == "" || (|n| > 1 && n[0] == ' ' && forall k :: 1 <= k < |n| ==> IsDigit(n[k]))
  {
    hide Decimal;
  }
}
