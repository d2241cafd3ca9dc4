/** Which lines name the course, the campus and a major, and what a major is recorded as, written out. */
module HeaderGrammar {
  // A line is a concatenation of its parts; no reading function is named in its description.

  import opened Text
  import opened EnrolmentShapes

  // ---------------------------------------------------------------- labels

  predicate AreStars(s: string) {
    |s| <= 2 && forall k :: 0 <= k < |s| ==> s[k] == '*'
  }

  predicate IsLabel(word: string, name: string) {
    Lower(word) == name
  }

  function LabelLine(stars: string, word: string, colon: string, more: string, gap: string, value: string): string {
    stars + (word + (colon + (more + (gap + value))))
  }

  // Perhaps stars, the label in any case, perhaps a colon, stars and white space, and then the value.
  ghost predicate IsLabelled(line: string, name: string, value: string) {
    exists stars, word, colon, more, gap ::
      && AreStars(stars) && IsLabel(word, name) && colon in {"", ":"} && AreStars(more) && AreSpaces(gap)
      && line == LabelLine(stars, word, colon, more, gap, value)
  }

  lemma StarsFirst(s: string) returns (stars: string)
    ensures AreStars(stars) && s == stars + DropStars(s)
  {
    stars := s[..|s| - |DropStars(s)|];
  }

  lemma StarsGone(stars: string, t: string)
    requires AreStars(stars) && (t == "" || t[0] != '*')
    ensures DropStars(stars + t) == t
  {
  }

  lemma SpacesFirst(s: string) returns (gap: string)
    ensures AreSpaces(gap) && s == gap + DropSpaces(s)
  {
    StripLeftIsSuffix(s, SPACES);
    var n := |s| - |DropSpaces(s)|;
    gap := s[..n];
    SpacesBefore(s);
  }

  lemma {:induction false} SpacesBefore(s: string)
    ensures var n := |s| - |DropSpaces(s)|; 0 <= n <= |s| && AreSpaces(s[..n])
  {
    if s != "" && s[0] in SPACES {
      SpacesBefore(s[1..]);
      var n := |s| - |DropSpaces(s)|;
      assert s[..n] == [s[0]] + s[1..][..n - 1];
    }
  }

  lemma {:induction false} SpacesGone(gap: string, t: string)
    requires AreSpaces(gap) && (t == "" || !IsSpace(t[0]))
    ensures DropSpaces(gap + t) == t
    decreases |gap|
  {
    if gap == "" {
      assert gap + t == t;
    } else {
      assert (gap + t)[1..] == gap[1..] + t;
      SpacesGone(gap[1..], t);
    }
  }

  lemma LabelStarts(word: string, t: string, name: string)
    requires IsLabel(word, name)
    ensures StartsWithFold(word + t, name) && |word| == |name| && (word + t)[|name|..] == t
  {
    var s := word + t;
    forall k | 0 <= k < |name| ensures LowerChar(s[k]) == name[k] {
      assert Lower(word)[k] == LowerChar(word[k]);
    }
  }

  lemma StartIsLabel(s: string, name: string)
    requires StartsWithFold(s, name)
    ensures IsLabel(s[..|name|], name)
  {
    var word := s[..|name|];
    assert |Lower(word)| == |name|;
    forall k | 0 <= k < |name| ensures Lower(word)[k] == name[k] {
      assert LowerChar(s[k]) == name[k];
    }
  }

  lemma LabelIsWord(word: string, name: string)
    requires IsLabel(word, name) && name in {"course", "campus", "major", "second"}
    ensures word != "" && word[0] != '*' && !IsSpace(word[0])
  {
    assert |word| == |name| && Lower(word)[0] == LowerChar(word[0]);
    assert "course"[0] == 'c' && "campus"[0] == 'c' && "major"[0] == 'm' && "second"[0] == 's';
  }

  lemma LabelledIsRead(stars: string, word: string, colon: string, more: string, gap: string, value: string, name: string)
    requires AreStars(stars) && IsLabel(word, name) && colon in {"", ":"} && AreStars(more) && AreSpaces(gap)
    requires name in {"course", "campus"} && value != "" && IsWord(value[0])
    ensures AfterLabel(LabelLine(stars, word, colon, more, gap, value), name) == Some(value)
  {
    hide DropStars, IsLabel;
    var d := gap + value;
    var c := more + d;
    var b := colon + c;
    LabelIsWord(word, name);
    StarsGone(stars, word + b);
    LabelStarts(word, b, name);
    assert !IsSpace(value[0]) && value[0] !in {'*', ':'};
    assert d[0] != '*' && d[0] != ':' by {
      assert !IsSpace('*') && !IsSpace(':');
    }
    assert DropColon(b) == c by {
      assert colon == ":" ==> b[1..] == c;
      assert colon == "" ==> b == c;
      assert more != "" ==> c[0] == more[0];
      assert more == "" ==> c == d;
    }
    StarsGone(more, d);
    SpacesGone(gap, value);
  }

  lemma ReadIsLabelled(line: string, name: string)
    requires AfterLabel(line, name).Some?
    ensures IsLabelled(line, name, AfterLabel(line, name).value)
  {
    hide DropStars, DropSpaces, StartsWithFold, IsLabel;
    var stars := StarsFirst(line);
    var s := DropStars(line);
    StartIsLabel(s, name);
    var word, b := s[..|name|], s[|name|..];
    var c := DropColon(b);
    var colon := if b != "" && b[0] == ':' then ":" else "";
    assert b == colon + c;
    var more := StarsFirst(c);
    var gap := SpacesFirst(DropStars(c));
    var value := DropSpaces(DropStars(c));
    assert line == LabelLine(stars, word, colon, more, gap, value);
  }

  // A label's value that starts with a letter or digit is read exactly from such a line.
  lemma LabelledIff(line: string, name: string, value: string)
    requires name in {"course", "campus"} && value != "" && IsWord(value[0])
    ensures AfterLabel(line, name) == Some(value) <==> IsLabelled(line, name, value)
  {
    hide AfterLabel, IsLabel, LabelLine;
    if IsLabelled(line, name, value) {
      var stars, word, colon, more, gap :|
        && AreStars(stars) && IsLabel(word, name) && colon in {"", ":"} && AreStars(more) && AreSpaces(gap)
        && line == LabelLine(stars, word, colon, more, gap, value);
      LabelledIsRead(stars, word, colon, more, gap, value, name);
    }
    if AfterLabel(line, name) == Some(value) {
      ReadIsLabelled(line, name);
    }
  }

  // ---------------------------------------------------------------- course and campus

  predicate IsCourseCode(code: string) {
    3 <= |code| <= 4 && forall k :: 0 <= k < |code| ==> IsDigit(code[k])
  }

  predicate EndsWord(rest: string) {
    rest == "" || !IsWord(rest[0])
  }

  // A line names a course exactly if it is labelled so and its value starts with a number of three or four digits.
  lemma CourseIff(line: string, code: string)
    ensures CourseOf(line) == Some(code) <==>
      IsCourseCode(code) && exists rest :: EndsWord(rest) && IsLabelled(line, "course", code + rest)
  {
    hide AfterLabel, IsLabelled;
    if IsCourseCode(code) && exists rest :: EndsWord(rest) && IsLabelled(line, "course", code + rest) {
      var rest :| EndsWord(rest) && IsLabelled(line, "course", code + rest);
      assert IsDigit((code + rest)[0]);
      LabelledIff(line, "course", code + rest);
      DigitRunIs(code + rest, |code|);
      assert (code + rest)[..|code|] == code;
    }
    if CourseOf(line) == Some(code) {
      var v := AfterLabel(line, "course").value;
      var rest := v[|code|..];
      assert v == code + rest;
      LabelledIff(line, "course", v);
    }
  }

  // Letters and spaces between letters.
  predicate IsCampus(campus: string) {
    && campus != "" && IsLetter(campus[0]) && IsLetter(campus[|campus| - 1])
    && forall k :: 0 <= k < |campus| ==> IsLetter(campus[k]) || campus[k] == ' '
  }

  // White space up to the end of the line or to a pipe.
  ghost predicate EndsCampus(rest: string) {
    exists gap, after :: AreSpaces(gap) && rest == gap + after && (after == "" || after[0] == '|')
  }

  lemma {:induction false} PipeEnds(front: string, after: string)
    requires '|' !in front && (after == "" || after[0] == '|')
    ensures BeforePipe(front + after) == front
    decreases |front|
  {
    if front == "" {
      assert front + after == after;
    } else {
      assert (front + after)[1..] == front[1..] + after;
      PipeEnds(front[1..], after);
    }
  }

  lemma {:induction false} PipeFirst(s: string) returns (after: string)
    ensures s == BeforePipe(s) + after && (after == "" || after[0] == '|')
  {
    if s == "" || s[0] == '|' {
      after := s;
    } else {
      after := PipeFirst(s[1..]);
      assert s == [s[0]] + s[1..];
    }
  }

  lemma {:induction false} SpacesBehind(front: string, gap: string)
    requires AreSpaces(gap) && (front == "" || !IsSpace(front[|front| - 1]))
    ensures StripRight(front + gap, SPACES) == front
    decreases |gap|
  {
    if gap == "" {
      assert front + gap == front;
    } else {
      var s := front + gap;
      assert s[..|s| - 1] == front + gap[..|gap| - 1];
      SpacesBehind(front, gap[..|gap| - 1]);
    }
  }

  lemma {:induction false} SpacesLast(s: string) returns (gap: string)
    ensures AreSpaces(gap) && s == StripRight(s, SPACES) + gap
  {
    if s != "" && s[|s| - 1] in SPACES {
      var front := SpacesLast(s[..|s| - 1]);
      gap := front + [s[|s| - 1]];
      assert s == s[..|s| - 1] + [s[|s| - 1]];
    } else {
      gap := "";
    }
  }

  lemma CampusIsIn(campus: string, rest: string)
    requires IsCampus(campus) && EndsCampus(rest)
    ensures CampusIn(campus + rest) == Some(campus)
  {
    var gap, after :| AreSpaces(gap) && rest == gap + after && (after == "" || after[0] == '|');
    assert !IsSpace('|') && !IsLetter('|');
    assert campus + rest == (campus + gap) + after;
    PipeEnds(campus + gap, after);
    SpacesBehind(campus, gap);
  }

  lemma InIsCampus(v: string) returns (rest: string)
    requires CampusIn(v).Some?
    ensures v == CampusIn(v).value + rest && IsCampus(CampusIn(v).value) && EndsCampus(rest)
  {
    var after := PipeFirst(v);
    var gap := SpacesLast(BeforePipe(v));
    rest := gap + after;
    var campus := CampusIn(v).value;
    assert !IsSpace(campus[|campus| - 1]);
    assert IsSpace(' ');
  }

  // A line names a campus exactly if it is labelled so and its value is letters and spaces between letters, up to
  // white space and then a pipe or the end.
  lemma CampusIff(line: string, campus: string)
    ensures CampusOf(line) == Some(campus) <==>
      IsCampus(campus) && exists rest :: EndsCampus(rest) && IsLabelled(line, "campus", campus + rest)
  {
    hide AfterLabel, IsLabelled, CampusIn, EndsCampus;
    if IsCampus(campus) && exists rest :: EndsCampus(rest) && IsLabelled(line, "campus", campus + rest) {
      var rest :| EndsCampus(rest) && IsLabelled(line, "campus", campus + rest);
      CampusIsIn(campus, rest);
      LabelledIff(line, "campus", campus + rest);
    }
    if CampusOf(line) == Some(campus) {
      var v := AfterLabel(line, "campus").value;
      var rest := InIsCampus(v);
      LabelledIff(line, "campus", v);
    }
  }

  // ---------------------------------------------------------------- majors

  // Perhaps the word "second" and white space.
  ghost predicate IsOrdinal(s: string) {
    s == "" || exists word, gap :: IsLabel(word, "second") && gap != "" && AreSpaces(gap) && s == word + gap
  }

  // Perhaps white space and a number.
  ghost predicate IsNumber(s: string) {
    s == "" || exists gap, digits :: gap != "" && AreSpaces(gap) && digits != "" && AreDigits(digits) && s == gap + digits
  }

  // The value starts with a letter, or there is none.
  predicate IsPlainValue(value: string) {
    value == "" || IsLetter(value[0])
  }

  lemma {:induction false} SpacesDoNotCount(gap: string, t: string)
    requires AreSpaces(gap)
    ensures DropSpaces(gap + t) == DropSpaces(t)
    decreases |gap|
  {
    if gap == "" {
      assert gap + t == t;
    } else {
      assert (gap + t)[1..] == gap[1..] + t;
      SpacesDoNotCount(gap[1..], t);
    }
  }

  lemma TrimPastSpaces(gap: string, t: string)
    requires AreSpaces(gap)
    ensures Trim(gap + t) == Trim(t)
  {
    SpacesDoNotCount(gap, t);
  }

  lemma PlainStart(value: string)
    requires IsPlainValue(value)
    ensures DropSpaces(value) == value && DigitRun(value) == 0 && DropStars(value) == value && DropColon(value) == value
  {
  }

  // What follows a label's number, up to the value.
  function Rest(colon: string, more: string, space: string, value: string): string {
    colon + (more + (space + value))
  }

  lemma RestStarts(colon: string, more: string, space: string, value: string)
    requires colon in {"", ":"} && AreStars(more) && AreSpaces(space) && IsPlainValue(value)
    ensures var w := DropSpaces(Rest(colon, more, space, value));
      && w == (if colon == "" && more == "" then value else Rest(colon, more, space, value))
      && DigitRun(w) == 0 && (w == "" || !IsDigit(w[0]))
  {
    PlainStart(value);
    var z := Rest(colon, more, space, value);
    assert !IsSpace(':') && !IsSpace('*');
    if colon == "" && more == "" {
      assert z == space + value;
      SpacesDoNotCount(space, value);
    } else {
      assert colon == "" ==> z[0] == more[0];
    }
  }

  lemma RestGivesValue(colon: string, more: string, space: string, value: string)
    requires colon in {"", ":"} && AreStars(more) && AreSpaces(space) && IsPlainValue(value)
    ensures Trim(DropStars(DropColon(DropSpaces(Rest(colon, more, space, value))))) == Trim(value)
  {
    RestStarts(colon, more, space, value);
    PlainStart(value);
    var c := more + (space + value);
    if colon != "" || more != "" {
      ColonGone(colon, c);
      assert !IsSpace('*') && !IsSpace(':');
      assert space != "" ==> (space + value)[0] == space[0];
      assert space == "" ==> space + value == value;
      StarsGone(more, space + value);
      TrimPastSpaces(space, value);
    }
  }

  lemma ColonGone(colon: string, c: string)
    requires colon in {"", ":"} && (colon == "" ==> c == "" || c[0] != ':')
    ensures DropColon(colon + c) == c
  {
    assert colon == "" ==> colon + c == c;
    assert colon == ":" ==> (colon + c)[1..] == c;
  }

  lemma NumberGone(number: string, y: string)
    requires IsNumber(number) && DigitRun(DropSpaces(y)) == 0 && (y == "" || !IsDigit(y[0]))
    ensures DropNumber(number + y) == y
  {
    if number == "" {
      assert number + y == y;
    } else {
      var gap, digits :| gap != "" && AreSpaces(gap) && digits != "" && AreDigits(digits) && number == gap + digits;
      var t := digits + y;
      assert number + y == gap + t;
      assert !IsSpace(t[0]) by {
        assert IsDigit(digits[0]);
      }
      SpacesGone(gap, t);
      DigitRunIs(t, |digits|);
      assert t[|digits|..] == y;
    }
  }

  lemma MajorInGives(number: string, gap: string, colon: string, more: string, space: string, value: string)
    requires IsNumber(number) && AreSpaces(gap) && colon in {"", ":"} && AreStars(more) && AreSpaces(space) && IsPlainValue(value)
    ensures MajorIn(number + (gap + Rest(colon, more, space, value))) == Trim(value)
  {
    hide Trim, DropStars, DropColon, DropNumber, IsNumber, Rest;
    var z := Rest(colon, more, space, value);
    RestStarts(colon, more, space, value);
    SpacesDoNotCount(gap, z);
    NoDigitFirst(gap, z);
    NumberGone(number, gap + z);
    RestGivesValue(colon, more, space, value);
  }

  lemma NoDigitFirst(gap: string, z: string)
    requires AreSpaces(gap) && (DropSpaces(z) == "" || !IsDigit(DropSpaces(z)[0]))
    ensures gap + z == "" || !IsDigit((gap + z)[0])
  {
    if gap == "" {
      assert gap + z == z;
      assert z != "" && !IsSpace(z[0]) ==> DropSpaces(z) == z;
    }
  }

  lemma OrdinalGone(ordinal: string, word: string, t: string)
    requires IsOrdinal(ordinal) && IsLabel(word, "major")
    ensures DropSecond(ordinal + (word + t)) == word + t
  {
    LabelIsWord(word, "major");
    var u := word + t;
    if ordinal == "" {
      assert ordinal + u == u;
      assert Lower(word)[0] == LowerChar(word[0]) && "major"[0] == 'm' && "second"[0] == 's';
    } else {
      var first, gap :| IsLabel(first, "second") && gap != "" && AreSpaces(gap) && ordinal == first + gap;
      assert ordinal + u == first + (gap + u);
      LabelStarts(first, gap + u, "second");
      hide IsLabel, StartsWithFold;
      assert (ordinal + u)[6] == gap[0];
      SpacesGone(gap, u);
    }
  }

  lemma OrdinalStarts(ordinal: string, word: string, t: string)
    requires IsOrdinal(ordinal) && IsLabel(word, "major")
    ensures ordinal + (word + t) != "" && (ordinal + (word + t))[0] != '*'
  {
    LabelIsWord(word, "major");
    if ordinal != "" {
      var first, gap :| IsLabel(first, "second") && gap != "" && AreSpaces(gap) && ordinal == first + gap;
      LabelIsWord(first, "second");
    } else {
      assert ordinal + (word + t) == word + t;
    }
  }

  // Stars, "second", the label, a number, a colon and stars may all stand before a major's value, which is
  // trimmed.
  lemma MajorLineGives(stars: string, ordinal: string, word: string, number: string, gap: string, colon: string, more: string,
    space: string, value: string)
    requires AreStars(stars) && IsOrdinal(ordinal) && IsLabel(word, "major") && IsNumber(number) && AreSpaces(gap)
    requires colon in {"", ":"} && AreStars(more) && AreSpaces(space) && IsPlainValue(value)
    ensures MajorOf(stars + (ordinal + (word + (number + (gap + (colon + (more + (space + value)))))))) == Some(Trim(value))
  {
    hide DropStars, DropSecond, StartsWithFold, MajorIn, Trim, IsLabel, IsOrdinal, IsNumber;
    var rest := number + (gap + Rest(colon, more, space, value));
    OrdinalStarts(ordinal, word, rest);
    StarsGone(stars, ordinal + (word + rest));
    OrdinalGone(ordinal, word, rest);
    LabelStarts(word, rest, "major");
    MajorInGives(number, gap, colon, more, space, value);
  }

  // A line without such a beginning names no major.
  lemma MajorLabelIff(line: string)
    ensures MajorOf(line).Some? <==> exists stars, ordinal, word, rest ::
      AreStars(stars) && IsOrdinal(ordinal) && IsLabel(word, "major") && line == stars + (ordinal + (word + rest))
  {
    hide DropStars, DropSecond, StartsWithFold, MajorIn, IsLabel, IsOrdinal;
    if stars, ordinal, word, rest :|
      AreStars(stars) && IsOrdinal(ordinal) && IsLabel(word, "major") && line == stars + (ordinal + (word + rest))
    {
      OrdinalStarts(ordinal, word, rest);
      StarsGone(stars, ordinal + (word + rest));
      OrdinalGone(ordinal, word, rest);
      LabelStarts(word, rest, "major");
    }
    if MajorOf(line).Some? {
      var stars := StarsFirst(line);
      var ordinal := OrdinalFirst(DropStars(line));
      var s := DropSecond(DropStars(line));
      StartIsLabel(s, "major");
      assert s == s[..5] + s[5..];
      assert line == stars + (ordinal + (s[..5] + s[5..]));
    }
  }

  lemma OrdinalFirst(s: string) returns (ordinal: string)
    ensures IsOrdinal(ordinal) && s == ordinal + DropSecond(s)
  {
    if StartsWithFold(s, "second") && |s| > 6 && IsSpace(s[6]) {
      StartIsLabel(s, "second");
      hide StartsWithFold, IsLabel;
      var gap := SpacesFirst(s[6..]);
      assert gap != "" by {
        assert s[6..][0] == s[6];
      }
      ordinal := s[..6] + gap;
      assert s == s[..6] + s[6..];
    } else {
      ordinal := "";
    }
  }

  // ---------------------------------------------------------------- what a major is recorded as

  // Two to six capitals, and then no further word character.
  ghost predicate StartsBare(value: string, code: string) {
    2 <= |code| <= 6 && AreUpper(code) && exists rest :: EndsWord(rest) && value == code + rest
  }

  lemma BareIff(value: string, code: string)
    ensures StartsBare(value, code) <==> StartsWithCode(value) && code == value[..UpperRun(value)]
  {
    if StartsBare(value, code) {
      var rest :| EndsWord(rest) && value == code + rest;
      UpperRunIs(value, |code|);
      assert value[..|code|] == code;
    }
    if StartsWithCode(value) && code == value[..UpperRun(value)] {
      var rest := value[|code|..];
      assert EndsWord(rest) && value == code + rest;
    }
  }

  // Two to eight words one space apart: the first of letters, with a capital, the others of letters, "&" and "-".
  ghost predicate IsTitleText(value: string) {
    exists words :: 2 <= |words| <= 8 && IsFirstWord(words[0]) && AreLaterWords(words) && value == Join(words, " ")
  }

  predicate IsFirstWord(w: string) {
    w != "" && IsUpper(w[0]) && forall k :: 0 <= k < |w| ==> IsLetter(w[k])
  }

  predicate AreLaterWords(words: seq<string>) {
    forall i :: 1 <= i < |words| ==> IsLaterWord(words[i])
  }

  predicate IsLaterWord(w: string) {
    w != "" && forall k :: 0 <= k < |w| ==> IsLetter(w[k]) || w[k] == '&' || w[k] == '-'
  }

  lemma NoSpaceInWords(words: seq<string>)
    requires words != [] && IsFirstWord(words[0]) && AreLaterWords(words)
    ensures forall i :: 0 <= i < |words| ==> ' ' !in words[i]
  {
    forall i | 0 <= i < |words| ensures ' ' !in words[i] {
      assert i > 0 ==> IsLaterWord(words[i]);
    }
  }

  lemma {:induction false} JoinSplit(s: string, c: char)
    ensures Join(Split(s, c), [c]) == s
  {
    if s != "" {
      var rest := Split(s[1..], c);
      JoinSplit(s[1..], c);
      assert s == [s[0]] + s[1..];
      if s[0] == c {
        assert ([""] + rest)[1..] == rest && "" + [c] == [c];
      } else {
        var parts := [[s[0]] + rest[0]] + rest[1..];
        assert parts[1..] == rest[1..];
        if |rest| > 1 {
          assert Join(parts, [c]) == ([s[0]] + rest[0]) + [c] + Join(rest[1..], [c]);
          assert Join(rest, [c]) == rest[0] + [c] + Join(rest[1..], [c]);
        }
      }
    }
  }

  lemma TitleIff(value: string)
    ensures IsTitle(value) <==> IsTitleText(value)
  {
    if IsTitleText(value) {
      var words :| 2 <= |words| <= 8 && IsFirstWord(words[0]) && AreLaterWords(words) && value == Join(words, " ");
      NoSpaceInWords(words);
      SplitJoined(words, ' ');
      assert forall i :: 1 <= i < |words| ==> IsLaterWord(words[i]);
    }
    if IsTitle(value) {
      var words := Split(value, ' ');
      JoinSplit(value, ' ');
      assert IsFirstWord(words[0]) && AreLaterWords(words);
    }
  }

  predicate SaysUndeclared(value: string) {
    Lower(value) in {"not yet declared", "undeclared", "none", "n/a", "na", "tbd"}
  }

  lemma EqualsIff(s: string, p: string)
    ensures EqualsFold(s, p) <==> Lower(s) == p
  {
    if EqualsFold(s, p) {
      assert forall k :: 0 <= k < |s| ==> Lower(s)[k] == LowerChar(s[k]) == p[k];
    }
    if Lower(s) == p {
      assert forall k :: 0 <= k < |s| ==> Lower(s)[k] == LowerChar(s[k]);
    }
  }

  lemma UndeclaredIff(value: string)
    ensures IsUndeclared(value) <==> SaysUndeclared(value)
  {
    hide EqualsFold, Lower;
    EqualsIff(value, "not yet declared");
    EqualsIff(value, "undeclared");
    EqualsIff(value, "none");
    EqualsIff(value, "n/a");
    EqualsIff(value, "na");
    EqualsIff(value, "tbd");
  }

  // The text ends in white space and the word "Honours" or "Honour", in any case.
  predicate EndsInHonours(value: string, front: string, gap: string, word: string) {
    value == front + (gap + word) && gap != "" && AreSpaces(gap) && Lower(word) in {"honours", "honour"}
  }

  ghost predicate IsKeptAs(value: string, major: string) {
    if exists front, gap, word :: EndsInHonours(value, front, gap, word)
    then exists front, gap, word :: EndsInHonours(value, front, gap, word) && major == Trim(front)
    else major == Trim(value)
  }

  lemma HonoursIff(value: string, p: string)
    requires p in {"honours", "honour"}
    ensures EndsInWord(value, p) <==> exists front, gap, word :: EndsInHonours(value, front, gap, word) && Lower(word) == p
  {
    if front, gap, word :| EndsInHonours(value, front, gap, word) && Lower(word) == p {
      assert |word| == |p|;
      assert value[|value| - |p|..] == word;
      assert value[|value| - |p| - 1] == gap[|gap| - 1];
      LabelStarts(word, "", p);
      assert word + "" == word;
    }
    if EndsInWord(value, p) {
      var n := |value| - |p|;
      StartIsLabel(value[n..], p);
      assert value[n..][..|p|] == value[n..];
      var front, gap := value[..n - 1], [value[n - 1]];
      assert value == front + (gap + value[n..]);
      assert EndsInHonours(value, front, gap, value[n..]);
    }
  }

  lemma {:induction false} StripLeftKeeps(f: string, gap: string)
    requires f != "" && !IsSpace(f[|f| - 1])
    ensures DropSpaces(f + gap) == DropSpaces(f) + gap
    ensures DropSpaces(f) != "" && DropSpaces(f)[|DropSpaces(f)| - 1] == f[|f| - 1]
  {
    if f[0] in SPACES {
      assert (f + gap)[1..] == f[1..] + gap;
      StripLeftKeeps(f[1..], gap);
    }
  }

  lemma TrimBehind(f: string, gap: string)
    requires AreSpaces(gap) && (f == "" || !IsSpace(f[|f| - 1]))
    ensures Trim(f + gap) == Trim(f)
  {
    if f == "" {
      assert f + gap == gap + "";
      TrimPastSpaces(gap, "");
    } else {
      StripLeftKeeps(f, gap);
      StripLeftKeeps(f, "");
      SpacesBehind(DropSpaces(f), gap);
      SpacesBehind(DropSpaces(f), "");
      assert DropSpaces(f) + "" == DropSpaces(f);
    }
  }

  lemma StripRightEnds(s: string)
    ensures var f := StripRight(s, SPACES); f == "" || !IsSpace(f[|f| - 1])
  {
  }

  lemma FrontIsTrimmed(front: string, gap: string)
    requires AreSpaces(gap)
    ensures Trim(StripRight(front + gap, SPACES)) == Trim(front)
  {
    hide StripRight, Trim;
    var f := StripRight(front, SPACES);
    var behind := SpacesLast(front);
    StripRightEnds(front);
    assert front + gap == f + (behind + gap);
    SpacesBehind(f, behind + gap);
    TrimBehind(f, behind);
  }

  lemma DroppedIsKept(value: string)
    ensures IsKeptAs(value, Trim(DropHonours(value)))
  {
    hide Trim, EndsInWord, EndsInHonours;
    HonoursIff(value, "honours");
    HonoursIff(value, "honour");
    if exists front, gap, word :: EndsInHonours(value, front, gap, word) {
      var front, gap, word :| EndsInHonours(value, front, gap, word);
      DroppedFront(value, front, gap, word);
    }
  }

  lemma DroppedFront(value: string, front: string, gap: string, word: string)
    requires EndsInHonours(value, front, gap, word)
    ensures Trim(DropHonours(value)) == Trim(front)
  {
    hide Trim, EndsInWord;
    HonoursIff(value, "honours");
    HonoursIff(value, "honour");
    FrontIsTrimmed(front, gap);
    OneEnding(value);
    assert value[..|value| - |word|] == front + gap;
    assert |Lower(word)| == |word|;
  }

  lemma OneEnding(value: string)
    ensures !(EndsInWord(value, "honours") && EndsInWord(value, "honour"))
  {
    var n := |value|;
    assert EndsInWord(value, "honours") ==> LowerChar(value[n - 7..][0]) == 'h' && value[n - 7..][0] == value[n - 7];
    assert EndsInWord(value, "honour") ==> IsSpace(value[n - 7]);
  }

  lemma KeptOnce(value: string, a: string, b: string)
    requires IsKeptAs(value, a) && IsKeptAs(value, b)
    ensures a == b
  {
    hide Trim, EndsInHonours;
    if exists front, gap, word :: EndsInHonours(value, front, gap, word) {
      var f, g, w :| EndsInHonours(value, f, g, w) && a == Trim(f);
      DroppedFront(value, f, g, w);
      var f', g', w' :| EndsInHonours(value, f', g', w') && b == Trim(f');
      DroppedFront(value, f', g', w');
    }
  }

  // A major is recorded as its code if its value starts with one, and otherwise, if the value is a title that
  // does not say that the major is undeclared, as the title without a last word "Honours".
  lemma MajorFromIff(value: string, major: string)
    ensures MajorFrom(value) == Some(major) <==>
      || StartsBare(value, major)
      || ((forall code :: !StartsBare(value, code)) && IsTitleText(value) && !SaysUndeclared(value) && IsKeptAs(value, major))
  {
    hide StartsWithCode, StartsBare, IsTitle, IsTitleText, IsUndeclared, SaysUndeclared, IsKeptAs, Trim, DropHonours;
    forall code ensures StartsBare(value, code) <==> StartsWithCode(value) && code == value[..UpperRun(value)] {
      BareIff(value, code);
    }
    TitleIff(value);
    UndeclaredIff(value);
    DroppedIsKept(value);
    if IsKeptAs(value, major) {
      KeptOnce(value, major, Trim(DropHonours(value)));
    }
    if StartsWithCode(value) {
      assert StartsBare(value, value[..UpperRun(value)]);
    }
  }

  // ---------------------------------------------------------------- the header

  // A major's label alone on a line takes its value from the next line, unless that line is itself a header line
  // or no major.
  lemma ValueOnNextLine(first: string, line: string, h: Header, major: string)
    requires CourseOf(first).None? && CampusOf(first).None? && MajorOf(first) == Some("") && !h.pending
    requires MajorFrom(Trim(Remove(line, '*'))) == Some(major) && Trim(Remove(line, '*')) != ""
    ensures var next := ReadHeaderLine(line, ReadHeaderLine(first, h));
      if CourseOf(line).Some? || CampusOf(line).Some? || MajorOf(line).Some? then next == ReadHeaderLine(line, h)
      else next == h.(majors := h.majors + [major])
  {
    hide CourseOf, CampusOf, MajorOf, MajorFrom, Trim, Remove;
  }
}
