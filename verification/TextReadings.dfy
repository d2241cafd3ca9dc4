/** How pasted text is cut into lines and how its numbers are read, written out. */
module TextReadings {
  import opened Text
  import opened EnrolmentShapes
  import opened EnrolmentTable
  import opened HeaderGrammar
  import opened EnrolmentReading
  import opened TableValues

  // ---------------------------------------------------------------- white space

  // Space, tab, line feed, vertical tab, form feed, carriage return, and the four separators.
  predicate IsBlankChar(c: char) {
    || c == ' ' || c == '\t' || c == '\n' || c == '\U{0B}' || c == '\U{0C}' || c == '\r'
    || c == '\U{1C}' || c == '\U{1D}' || c == '\U{1E}' || c == '\U{1F}'
  }

  predicate AllBlank(s: string) {
    forall k :: 0 <= k < |s| ==> IsBlankChar(s[k])
  }

  lemma BlankIff(c: char)
    ensures IsSpace(c) <==> IsBlankChar(c)
  {
  }

  // ---------------------------------------------------------------- lines

  // What ends a line: "\r\n" counts as one break, and four more characters end lines.
  predicate IsLineEnd(b: string, rest: string) {
    || b == "\n" || b == "\U{0B}" || b == "\U{0C}" || b == "\U{1C}" || b == "\U{1D}" || b == "\U{1E}"
    || b == "\r\n" || (b == "\r" && !("\n" <= rest))
  }

  predicate IsUnbroken(line: string) {
    forall k :: 0 <= k < |line| ==> line[k] !in {'\n', '\r', '\U{0B}', '\U{0C}', '\U{1C}', '\U{1D}', '\U{1E}'}
  }

  lemma RunOfLine(line: string, more: string)
    requires IsUnbroken(line) && more != "" && IsBreak(more[0])
    ensures LineRun(line + more) == |line|
  {
    var s := line + more;
    forall k | 0 <= k < |line| ensures !IsBreak(s[k]) {
      assert s[k] == line[k];
    }
    LineRunIs(s, |line|);
  }

  lemma CutAfterRun(line: string, more: string)
    requires more != "" && LineRun(line + more) == |line|
    ensures Lines(line + more) ==
      [line] + Lines(if more[0] == '\r' && |more| > 1 && more[1] == '\n' then more[2..] else more[1..])
  {
    var s := line + more;
    hide LineRun, Lines;
    assert s[..|line|] == line && s[|line|] == more[0] && (|more| > 1 ==> s[|line| + 1] == more[1]);
    assert s[|line| + 1..] == more[1..] && (|more| > 1 ==> s[|line| + 2..] == more[2..]);
    LinesStep(s);
  }

  lemma LinesStep(s: string)
    requires LineRun(s) < |s|
    ensures var n := LineRun(s);
      Lines(s) == [s[..n]] + Lines(if s[n] == '\r' && n + 1 < |s| && s[n + 1] == '\n' then s[n + 2..] else s[n + 1..])
  {
    hide LineRun;
  }

  // A text is cut at each line end and nowhere else.
  lemma LineIsCut(line: string, b: string, rest: string)
    requires IsUnbroken(line) && IsLineEnd(b, rest)
    ensures Lines(line + (b + rest)) == [line] + Lines(rest)
  {
    hide IsLineEnd, Lines, IsUnbroken, LineRun, IsBreak;
    var more := b + rest;
    EndStarts(b, rest);
    assert more[0] == b[0];
    RunOfLine(line, more);
    CutAfterRun(line, more);
    AfterEnd(b, rest);
  }

  lemma AfterEnd(b: string, rest: string)
    requires 1 <= |b| <= 2 && (|b| == 2 ==> b[0] == '\r' && b[1] == '\n')
    requires |b| == 1 && b[0] == '\r' ==> rest == "" || rest[0] != '\n'
    ensures var more := b + rest; (if more[0] == '\r' && |more| > 1 && more[1] == '\n' then more[2..] else more[1..]) == rest
  {
    var more := b + rest;
    if |b| == 2 {
      assert more[1] == b[1] && more[2..] == rest;
    } else {
      assert more[1..] == rest && (|more| > 1 ==> more[1] == rest[0]);
    }
  }

  lemma EndStarts(b: string, rest: string)
    requires IsLineEnd(b, rest)
    ensures 1 <= |b| <= 2 && IsBreak(b[0]) && (|b| == 2 ==> b[0] == '\r' && b[1] == '\n')
    ensures |b| == 1 && b[0] == '\r' ==> b == "\r" && (rest == "" || rest[0] != '\n')
  {
    assert rest != "" && rest[0] == '\n' ==> "\n" <= rest;
  }

  lemma LastLine(line: string)
    requires IsUnbroken(line)
    ensures Lines(line) == if line == "" then [] else [line]
  {
    if line != "" {
      LineRunIs(line, |line|);
    }
  }

  // ---------------------------------------------------------------- integers

  function Concat(parts: seq<string>): string {
    if parts == [] then "" else parts[0] + Concat(parts[1..])
  }

  // Runs of digits with single underscores between them.
  predicate AreRuns(parts: seq<string>) {
    parts != [] && forall k :: 0 <= k < |parts| ==> parts[k] != "" && AreDigits(parts[k])
  }

  lemma {:induction false} ConcatIsDigits(parts: seq<string>)
    requires forall k :: 0 <= k < |parts| ==> AreDigits(parts[k])
    ensures AreDigits(Concat(parts))
  {
    if parts != [] {
      ConcatIsDigits(parts[1..]);
    }
  }

  lemma {:induction false} RunRead(run: string, rest: string)
    requires run != "" && AreDigits(run)
    ensures rest == "" ==> Digits(run) == Some(run)
    ensures Digits(rest).Some? ==> Digits(run + ("_" + rest)) == Some(run + Digits(rest).value)
    decreases |run|
  {
    if |run| == 1 {
      var s := run + ("_" + rest);
      assert s[1] == '_' && s[2..] == rest && [s[0]] == run;
    } else {
      RunRead(run[1..], rest);
      var s := run + ("_" + rest);
      assert run == [run[0]] + run[1..];
      assert s[1..] == run[1..] + ("_" + rest);
      assert s[1] == run[1] && run[1] != '_';
      if Digits(rest).Some? {
        assert [run[0]] + (run[1..] + Digits(rest).value) == run + Digits(rest).value;
      }
    }
  }

  lemma {:induction false} RunsRead(parts: seq<string>)
    requires AreRuns(parts)
    ensures Digits(Join(parts, "_")) == Some(Concat(parts))
  {
    hide Digits;
    if |parts| == 1 {
      RunRead(parts[0], "");
      assert Concat(parts) == parts[0] + "" == parts[0];
    } else {
      RunsRead(parts[1..]);
      RunRead(parts[0], Join(parts[1..], "_"));
      assert Join(parts, "_") == parts[0] + ("_" + Join(parts[1..], "_"));
    }
  }

  lemma {:induction false} ReadIsRuns(s: string) returns (parts: seq<string>)
    requires Digits(s).Some?
    ensures AreRuns(parts) && s == Join(parts, "_") && Digits(s) == Some(Concat(parts))
    decreases |s|
  {
    hide AreRuns, Join, Concat;
    if |s| == 1 {
      parts := [s];
      OneRun(s);
    } else if s[1] == '_' {
      var rest := ReadIsRuns(s[2..]);
      parts := [[s[0]]] + rest;
      RunBefore([s[0]], rest);
      assert s == [s[0]] + ("_" + s[2..]);
    } else {
      var rest := ReadIsRuns(s[1..]);
      assert s == [s[0]] + s[1..];
      RunsStart(rest);
      parts := [[s[0]] + rest[0]] + rest[1..];
      FirstRunGrows(s[0], rest);
    }
  }

  lemma OneRun(run: string)
    requires run != "" && AreDigits(run)
    ensures AreRuns([run]) && Join([run], "_") == run && Concat([run]) == run
  {
    assert run + "" == run;
  }

  lemma RunsStart(rest: seq<string>)
    requires AreRuns(rest)
    ensures rest != []
  {
  }

  lemma RunBefore(run: string, rest: seq<string>)
    requires AreRuns(rest) && run != "" && AreDigits(run)
    ensures var parts := [run] + rest;
      AreRuns(parts) && Join(parts, "_") == run + ("_" + Join(rest, "_")) && Concat(parts) == run + Concat(rest)
  {
    hide AreDigits;
    var parts := [run] + rest;
    assert parts[1..] == rest;
    assert run + "_" + Join(rest, "_") == run + ("_" + Join(rest, "_"));
  }

  lemma FirstRunGrows(c: char, rest: seq<string>)
    requires AreRuns(rest) && IsDigit(c)
    ensures var parts := [[c] + rest[0]] + rest[1..];
      AreRuns(parts) && Join(parts, "_") == [c] + Join(rest, "_") && Concat(parts) == [c] + Concat(rest)
  {
    hide AreDigits, IsDigit, Join, Concat;
    var first, more := rest[0], rest[1..];
    assert rest == [first] + more;
    OneMoreDigit(c, first);
    JoinGrows(c, first, more);
    ConcatGrows(c, first, more);
  }

  lemma JoinGrows(c: char, first: string, more: seq<string>)
    ensures Join([[c] + first] + more, "_") == [c] + Join([first] + more, "_")
  {
    var a, b := [[c] + first] + more, [first] + more;
    assert a[1..] == more && b[1..] == more;
    if more != [] {
      var tail := Join(more, "_");
      assert ([c] + first) + "_" + tail == [c] + (first + "_" + tail);
    }
  }

  lemma ConcatGrows(c: char, first: string, more: seq<string>)
    ensures Concat([[c] + first] + more) == [c] + Concat([first] + more)
  {
    var a, b := [[c] + first] + more, [first] + more;
    assert a[1..] == more && b[1..] == more;
    assert ([c] + first) + Concat(more) == [c] + (first + Concat(more));
  }

  lemma OneMoreDigit(c: char, run: string)
    requires AreDigits(run) && IsDigit(c)
    ensures AreDigits([c] + run) && [c] + run != ""
  {
  }

  // White space, perhaps a sign, runs of digits with single underscores between, and white space.
  ghost predicate IsInteger(s: string, n: int) {
    exists before, sign, parts, after ::
      && AllBlank(before) && AllBlank(after) && sign in {"", "+", "-"} && AreRuns(parts)
      && s == before + (sign + (Join(parts, "_") + after)) && n == Signed(sign, parts)
  }

  function Signed(sign: string, parts: seq<string>): int
    requires AreRuns(parts)
  {
    ConcatIsDigits(parts);
    var n: int := NatOf(Concat(parts));
    if sign == "-" then -n else n
  }

  lemma {:induction false} JoinedEnds(parts: seq<string>)
    requires AreRuns(parts)
    ensures var t := Join(parts, "_"); t != "" && IsDigit(t[0]) && IsDigit(t[|t| - 1])
  {
    if |parts| > 1 {
      JoinedEnds(parts[1..]);
    }
  }

  lemma TrimBetween(before: string, t: string, after: string)
    requires AllBlank(before) && AllBlank(after) && t != "" && !IsSpace(t[0]) && !IsSpace(t[|t| - 1])
    ensures Trim(before + (t + after)) == t
  {
    SpacesAreBlank(before);
    SpacesAreBlank(after);
    SpacesGone(before, t + after);
    TrimsBehindWord(t, after);
    AllStripped(after);
    assert t + "" == t;
  }

  lemma SignedIsRead(before: string, sign: string, parts: seq<string>, after: string)
    requires AllBlank(before) && AllBlank(after) && sign in {"", "+", "-"} && AreRuns(parts)
    ensures PythonInt(before + (sign + (Join(parts, "_") + after))) == Some(Signed(sign, parts))
  {
    hide Digits, NatOf, Trim, AllBlank;
    var text := Join(parts, "_");
    var t := sign + text;
    JoinedEnds(parts);
    assert !IsSpace('+') && !IsSpace('-');
    assert sign == "" ==> t == text;
    assert t[|t| - 1] == text[|text| - 1];
    TrimBetween(before, t, after);
    assert sign + (text + after) == t + after;
    RunsRead(parts);
    assert sign != "" ==> t[1..] == text;
  }

  lemma TrimmedParts(s: string) returns (before: string, after: string)
    ensures AllBlank(before) && AllBlank(after) && s == before + (Trim(s) + after)
  {
    before := SpacesFirst(s);
    after := SpacesLast(DropSpaces(s));
    SpacesAreBlank(before);
    SpacesAreBlank(after);
  }

  lemma SpacesAreBlank(s: string)
    ensures AreSpaces(s) <==> AllBlank(s)
  {
    if AreSpaces(s) {
      assert forall k :: 0 <= k < |s| ==> IsSpace(s[k]);
    }
    if AllBlank(s) {
      assert forall k :: 0 <= k < |s| ==> IsBlankChar(s[k]);
    }
  }

  lemma SplitSign(t: string) returns (sign: string, text: string)
    ensures sign in {"", "+", "-"} && t == sign + text
    ensures sign == "" ==> text == t && (t == "" || t[0] !in {'+', '-'})
  {
    if t != "" && t[0] in {'+', '-'} {
      sign, text := [t[0]], t[1..];
      assert sign == "+" || sign == "-";
    } else {
      sign, text := "", t;
    }
  }

  lemma ReadSign(t: string, sign: string, text: string)
    requires t == Trim(t) && sign in {"", "+", "-"} && t == sign + text
    requires sign == "" ==> t == "" || t[0] !in {'+', '-'}
    ensures PythonInt(t).Some? ==> Digits(text).Some?
  {
    hide Digits, NatOf, Trim;
    if sign == "" {
      assert text == t;
    } else {
      assert t[0] == sign[0] && t[1..] == text;
    }
  }

  lemma SameTrimmed(s: string)
    ensures Trim(Trim(s)) == Trim(s) && PythonInt(Trim(s)) == PythonInt(s)
  {
    hide Unsigned, Negated;
    assert Trim(Trim(s)) == Trim(s);
  }

  lemma ReadIsInteger(s: string, n: int)
    requires PythonInt(s) == Some(n)
    ensures IsInteger(s, n)
  {
    hide Digits, NatOf, Trim, AllBlank, Concat, PythonInt, Signed;
    var before, after := TrimmedParts(s);
    var t := Trim(s);
    SameTrimmed(s);
    var sign, text := SplitSign(t);
    ReadSign(t, sign, text);
    var parts := ReadIsRuns(text);
    assert sign + (text + after) == t + after;
    SignedIsRead(before, sign, parts, after);
  }

  // A text is an integer exactly if it has this form, and then it is the signed number of its digits.
  lemma IntegerIff(s: string, n: int)
    ensures PythonInt(s) == Some(n) <==> IsInteger(s, n)
  {
    hide AllBlank, Concat, PythonInt, Signed, AreRuns;
    if IsInteger(s, n) {
      var before, sign, parts, after :|
        && AllBlank(before) && AllBlank(after) && sign in {"", "+", "-"} && AreRuns(parts)
        && s == before + (sign + (Join(parts, "_") + after)) && n == Signed(sign, parts);
      SignedIsRead(before, sign, parts, after);
    }
    if PythonInt(s) == Some(n) {
      ReadIsInteger(s, n);
    }
  }
}
