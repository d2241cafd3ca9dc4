/** Whose course and campus a parsed record has: those of the first lines that name one. */
module HeaderLines {
  import opened Text
  import opened Records
  import opened EnrolmentShapes
  import opened EnrolmentTable

  // A line outside every table.
  predicate IsOutside(line: string) {
    !(Trim(line) != "" && Trim(line)[0] == '|')
  }

  ghost predicate IsFirst(lines: seq<string>, of: string -> Option<string>, value: Option<string>) {
    match value
    case None => forall k :: 0 <= k < |lines| && IsOutside(lines[k]) ==> of(Trim(lines[k])).None?
    case Some(_) => exists k :: 0 <= k < |lines| && IsFirstAt(lines, of, value, k)
  }

  ghost predicate IsFirstAt(lines: seq<string>, of: string -> Option<string>, value: Option<string>, k: nat)
    requires k < |lines|
  {
    && IsOutside(lines[k]) && of(Trim(lines[k])) == value
    && forall j :: 0 <= j < k && IsOutside(lines[j]) ==> of(Trim(lines[j])).None?
  }

  lemma NotBothLabels(line: string)
    ensures !(CourseOf(line).Some? && CampusOf(line).Some?)
  {
    hide DropSpaces, DropColon, CourseIn, CampusIn;
    var s := DropStars(line);
    assert "course"[1] == 'o' && "campus"[1] == 'a';
    assert StartsWithFold(s, "course") ==> LowerChar(s[1]) == 'o';
    assert StartsWithFold(s, "campus") ==> LowerChar(s[1]) == 'a';
  }

  lemma HeaderLineKeepsFirst(line: string, h: Header)
    ensures ReadHeaderLine(line, h).course == if h.course.Some? then h.course else CourseOf(line)
    ensures ReadHeaderLine(line, h).campus == if h.campus.Some? then h.campus else CampusOf(line)
  {
    NotBothLabels(line);
    hide CourseOf, CampusOf, MajorOf, MajorFrom, Trim, Remove;
  }

  lemma LineKeepsFirst(line: string, st: State, keepMarks: bool)
    requires ReadLine(line, st, keepMarks).Ok?
    ensures var h := ReadLine(line, st, keepMarks).value.header;
      if IsOutside(line) then
        && h.course == (if st.header.course.Some? then st.header.course else CourseOf(Trim(line)))
        && h.campus == (if st.header.campus.Some? then st.header.campus else CampusOf(Trim(line)))
      else h == st.header
  {
    hide Trim, SplitRow, IsSeparator, Classify, NormAll, ReadRow, ReadCredit, ReadHeaderLine, CourseOf, CampusOf;
    HeaderLineKeepsFirst(Trim(line), st.header);
  }

  lemma FirstOfMore(lines: seq<string>, of: string -> Option<string>, before: Option<string>, value: Option<string>)
    requires lines != [] && before.None?
    requires var here := if IsOutside(lines[0]) then of(Trim(lines[0])) else None;
      if here.Some? then value == here else IsFirst(lines[1..], of, value)
    ensures IsFirst(lines, of, value)
  {
    hide IsOutside, Trim;
    var rest := lines[1..];
    if IsOutside(lines[0]) && of(Trim(lines[0])).Some? {
      assert IsFirstAt(lines, of, value, 0);
    } else if value.Some? {
      var k :| 0 <= k < |rest| && IsFirstAt(rest, of, value, k);
      forall j | 0 <= j < k + 1 && IsOutside(lines[j]) ensures of(Trim(lines[j])).None? {
        assert j > 0 ==> lines[j] == rest[j - 1];
      }
      assert IsFirstAt(lines, of, value, k + 1);
    } else {
      forall k | 0 <= k < |lines| && IsOutside(lines[k]) ensures of(Trim(lines[k])).None? {
        assert k > 0 ==> lines[k] == rest[k - 1];
      }
    }
  }

  lemma {:induction false} LinesKeepFirst(lines: seq<string>, st: State, keepMarks: bool)
    requires ReadLines(lines, st, keepMarks).Ok?
    ensures var h := ReadLines(lines, st, keepMarks).value.header;
      && (if st.header.course.Some? then h.course == st.header.course else IsFirst(lines, CourseOf, h.course))
      && (if st.header.campus.Some? then h.campus == st.header.campus else IsFirst(lines, CampusOf, h.campus))
  {
    hide ReadLine, IsOutside, Trim, CourseOf, CampusOf, IsFirst;
    if lines == [] {
      NoLines();
    } else {
      LineKeepsFirst(lines[0], st, keepMarks);
      var next := ReadLine(lines[0], st, keepMarks).value;
      LinesKeepFirst(lines[1..], next, keepMarks);
      var h := ReadLines(lines, st, keepMarks).value.header;
      if st.header.course.None? {
        FirstOfMore(lines, CourseOf, st.header.course, h.course);
      }
      if st.header.campus.None? {
        FirstOfMore(lines, CampusOf, st.header.campus, h.campus);
      }
    }
  }

  lemma NoLines()
    ensures IsFirst([], CourseOf, None) && IsFirst([], CampusOf, None)
  {
  }

  // The course and the campus of a record are those of the first lines, outside every table, that name one.
  lemma FirstLinesCount(raw: string, keepMarks: bool)
    requires TableRecord(raw, keepMarks).Ok?
    ensures IsFirst(Lines(raw), CourseOf, TableRecord(raw, keepMarks).value.course)
    ensures IsFirst(Lines(raw), CampusOf, TableRecord(raw, keepMarks).value.campus)
  {
    hide ReadLines, Lines, IsFirst, CourseOf, CampusOf;
    LinesKeepFirst(Lines(raw), INITIAL, keepMarks);
  }
}
