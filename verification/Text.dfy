/** Character and string primitives shared by every parser in the project. */
module Text {
  // The ASCII meaning of the Python string methods and regular-expression classes that the modelled
  // code relies on.

  datatype Option<+T> = None | Some(value: T)

  // What both `str.strip()` and `\s` call white space, within ASCII.
  predicate IsSpace(c: char) {
    c == ' ' || '\t' <= c <= '\r' || '\U{1C}' <= c <= '\U{1F}'
  }

  const SPACES: set<char> := set c: char | IsSpace(c)

  predicate AreSpaces(s: string) {
    forall k :: 0 <= k < |s| ==> IsSpace(s[k])
  }

  predicate IsDigit(c: char) {
    '0' <= c <= '9'
  }

  predicate AreDigits(s: string) {
    forall k :: 0 <= k < |s| ==> IsDigit(s[k])
  }

  predicate IsUpper(c: char) {
    'A' <= c <= 'Z'
  }

  predicate AreUpper(s: string) {
    forall k :: 0 <= k < |s| ==> IsUpper(s[k])
  }

  predicate IsLetter(c: char) {
    'A' <= c <= 'Z' || 'a' <= c <= 'z'
  }

  // The class `\w`, which decides where `\b` matches.
  predicate IsWord(c: char) {
    IsLetter(c) || IsDigit(c) || c == '_'
  }

  function LowerChar(c: char): char {
    if 'A' <= c <= 'Z' then (c as int + 32) as char else c
  }

  function UpperChar(c: char): char {
    if 'a' <= c <= 'z' then (c as int - 32) as char else c
  }

  function Lower(s: string): (r: string)
    ensures |r| == |s|
    ensures forall k :: 0 <= k < |s| ==> r[k] == LowerChar(s[k])
  {
    seq(|s|, k requires 0 <= k < |s| => LowerChar(s[k]))
  }

  function Upper(s: string): (r: string)
    ensures |r| == |s|
    ensures forall k :: 0 <= k < |s| ==> r[k] == UpperChar(s[k])
  {
    seq(|s|, k requires 0 <= k < |s| => UpperChar(s[k]))
  }

  // s starts with the lower-case text p, letter case ignored.
  predicate StartsWithFold(s: string, p: string)
    ensures StartsWithFold(s, p) ==> |p| <= |s|
  {
    |p| <= |s| && forall k :: 0 <= k < |p| ==> LowerChar(s[k]) == p[k]
  }

  // p occurs somewhere in s, letter case ignored.
  predicate ContainsFold(s: string, p: string) {
    exists k :: 0 <= k <= |s| && StartsWithFold(s[k..], p)
  }

  function StripLeft(s: string, drop: set<char>): (r: string)
    ensures |r| <= |s|
    ensures |r| < |s| ==> s[|s| - |r| - 1] in drop
    ensures r != "" ==> r[0] !in drop
    ensures s != "" && s[0] !in drop ==> r == s
  {
    if s != "" && s[0] in drop then StripLeft(s[1..], drop) else s
  }

  function StripRight(s: string, drop: set<char>): (r: string)
    ensures |r| <= |s|
    ensures |r| < |s| ==> s[|r|] in drop
    ensures r != "" ==> r[|r| - 1] !in drop
    ensures s != "" && s[|s| - 1] !in drop ==> r == s
  {
    if s != "" && s[|s| - 1] in drop then StripRight(s[..|s| - 1], drop) else s
  }

  lemma {:induction false} StripLeftIsSuffix(s: string, drop: set<char>)
    ensures var r := StripLeft(s, drop); r == s[|s| - |r|..] && forall k :: 0 <= k < |s| - |r| ==> s[k] in drop
  {
    if s != "" && s[0] in drop {
      StripLeftIsSuffix(s[1..], drop);
    }
  }

  lemma {:induction false} StripRightIsPrefix(s: string, drop: set<char>)
    ensures var r := StripRight(s, drop); r == s[..|r|] && forall k :: |r| <= k < |s| ==> s[k] in drop
  {
    if s != "" && s[|s| - 1] in drop {
      StripRightIsPrefix(s[..|s| - 1], drop);
    }
  }

  function Strip(s: string, drop: set<char>): (r: string)
    ensures |r| <= |s|
    ensures r != "" ==> r[0] !in drop && r[|r| - 1] !in drop
    ensures s != "" && s[0] !in drop && s[|s| - 1] !in drop ==> r == s
  {
    StripRightIsPrefix(StripLeft(s, drop), drop);
    StripRight(StripLeft(s, drop), drop)
  }

  function Trim(s: string): string {
    Strip(s, SPACES)
  }

  predicate IsTrimmed(s: string) {
    s == "" || (!IsSpace(s[0]) && !IsSpace(s[|s| - 1]))
  }

  function Remove(s: string, c: char): (r: string)
    ensures c !in r
    ensures c !in s ==> r == s
    ensures forall x :: x in r ==> x in s
  {
    if s == "" then ""
    else (if s[0] == c then "" else [s[0]]) + Remove(s[1..], c)
  }

  // `sep.join(parts)`.
  function Join(parts: seq<string>, sep: string): string {
    if |parts| == 0 then ""
    else if |parts| == 1 then parts[0]
    else parts[0] + sep + Join(parts[1..], sep)
  }

  // The number of leading characters of s that lie in a class.
  function DigitRun(s: string): (n: nat)
    ensures n <= |s|
    ensures forall k :: 0 <= k < n ==> IsDigit(s[k])
    ensures n < |s| ==> !IsDigit(s[n])
  {
    if s != "" && IsDigit(s[0]) then 1 + DigitRun(s[1..]) else 0
  }

  function SpaceRun(s: string): (n: nat)
    ensures n <= |s|
    ensures forall k :: 0 <= k < n ==> IsSpace(s[k])
    ensures n < |s| ==> !IsSpace(s[n])
  {
    if s != "" && IsSpace(s[0]) then 1 + SpaceRun(s[1..]) else 0
  }

  function LetterRun(s: string): (n: nat)
    ensures n <= |s|
    ensures forall k :: 0 <= k < n ==> IsLetter(s[k])
    ensures n < |s| ==> !IsLetter(s[n])
  {
    if s != "" && IsLetter(s[0]) then 1 + LetterRun(s[1..]) else 0
  }

  lemma {:induction false} LetterRunIs(s: string, n: nat)
    requires n <= |s| && (forall k :: 0 <= k < n ==> IsLetter(s[k])) && (n < |s| ==> !IsLetter(s[n]))
    ensures LetterRun(s) == n
  {
    if n > 0 {
      LetterRunIs(s[1..], n - 1);
    }
  }

  lemma {:induction false} DigitRunIs(s: string, n: nat)
    requires n <= |s| && (forall k :: 0 <= k < n ==> IsDigit(s[k])) && (n < |s| ==> !IsDigit(s[n]))
    ensures DigitRun(s) == n
  {
    if n > 0 {
      DigitRunIs(s[1..], n - 1);
    }
  }

  lemma {:induction false} SpaceRunIs(s: string, n: nat)
    requires n <= |s| && (forall k :: 0 <= k < n ==> IsSpace(s[k])) && (n < |s| ==> !IsSpace(s[n]))
    ensures SpaceRun(s) == n
  {
    if n > 0 {
      SpaceRunIs(s[1..], n - 1);
    }
  }

  function DigitValue(c: char): nat
    requires IsDigit(c)
  {
    c as int - '0' as int
  }

  function DigitChar(d: nat): (c: char)
    requires d < 10
    ensures IsDigit(c) && DigitValue(c) == d
  {
    ('0' as int + d) as char
  }

  // The number a run of decimal digits denotes.
  function NatOf(s: string): nat
    requires forall k :: 0 <= k < |s| ==> IsDigit(s[k])
  {
    if s == "" then 0 else 10 * NatOf(s[..|s| - 1]) + DigitValue(s[|s| - 1])
  }

  // `str(n)` for n >= 0.
  function Decimal(n: nat): (s: string)
    ensures s != ""
    ensures forall k :: 0 <= k < |s| ==> IsDigit(s[k])
    ensures NatOf(s) == n
  {
    if n < 10 then [DigitChar(n)]
    else
      var s := Decimal(n / 10) + [DigitChar(n % 10)];
      assert s[..|s| - 1] == Decimal(n / 10);
      s
  }

  // `str(n)`.
  function IntText(n: int): (s: string)
    ensures s != ""
  {
    if n < 0 then "-" + Decimal(-n) else Decimal(n)
  }

  // `s.split(c)` for a single character.
  function Split(s: string, c: char): (parts: seq<string>)
    ensures |parts| >= 1
    ensures forall k :: 0 <= k < |parts| ==> c !in parts[k]
  {
    if s == "" then [""]
    else
      var rest := Split(s[1..], c);
      if s[0] == c then [""] + rest else [[s[0]] + rest[0]] + rest[1..]
  }

  lemma {:induction false} SplitWhole(s: string, c: char)
    requires c !in s
    ensures Split(s, c) == [s]
  {
    if s != "" {
      SplitWhole(s[1..], c);
      assert [s[0]] + s[1..] == s;
    }
  }

  lemma {:induction false} SplitAtFirst(head: string, tail: string, c: char)
    requires c !in head
    ensures Split(head + [c] + tail, c) == [head] + Split(tail, c)
  {
    var s := head + [c] + tail;
    if head == "" {
      assert s[1..] == tail;
    } else {
      assert s[1..] == head[1..] + [c] + tail;
      SplitAtFirst(head[1..], tail, c);
      assert [head[0]] + head[1..] == head;
    }
  }

  // Splitting undoes joining with a character that no part contains.
  lemma {:induction false} SplitJoined(parts: seq<string>, c: char)
    requires parts != [] && forall k :: 0 <= k < |parts| ==> c !in parts[k]
    ensures Split(Join(parts, [c]), c) == parts
  {
    if |parts| == 1 {
      SplitWhole(parts[0], c);
    } else {
      hide Split;
      SplitJoined(parts[1..], c);
      SplitAtFirst(parts[0], Join(parts[1..], [c]), c);
    }
  }

  // The digits of a decimal literal, single underscores between digits allowed.
  function Digits(s: string): (r: Option<string>)
    ensures r.Some? ==> r.value != "" && forall k :: 0 <= k < |r.value| ==> IsDigit(r.value[k])
  {
    if s == "" || !IsDigit(s[0]) then None
    else if |s| == 1 then Some(s)
    else
      var rest := Digits(if s[1] == '_' then s[2..] else s[1..]);
      if rest.None? then None else Some([s[0]] + rest.value)
  }

  // `int(s)`; None is the ValueError.
  function PythonInt(s: string): Option<int> {
    var t := Trim(s);
    if t != "" && t[0] == '-' then Negated(Unsigned(t[1..]))
    else if t != "" && t[0] == '+' then Unsigned(t[1..])
    else Unsigned(t)
  }

  function Unsigned(s: string): Option<int> {
    var digits := Digits(s);
    if digits.None? then None else Some(NatOf(digits.value))
  }

  function Negated(n: Option<int>): Option<int> {
    if n.None? then None else Some(-n.value)
  }

  lemma {:induction false} PlainDigits(s: string)
    requires s != "" && forall k :: 0 <= k < |s| ==> IsDigit(s[k])
    ensures Digits(s) == Some(s)
  {
    if |s| > 1 {
      PlainDigits(s[1..]);
      assert [s[0]] + s[1..] == s;
    }
  }

  lemma UnsignedReadsBack(n: nat)
    ensures Unsigned(Decimal(n)) == Some(n)
  {
    hide Decimal, Digits;
    PlainDigits(Decimal(n));
  }

  lemma IntReadsBack(n: int)
    ensures PythonInt(IntText(n)) == Some(n)
  {
    hide Decimal, Unsigned, Strip;
    var digits := Decimal(if n < 0 then -n else n);
    UnsignedReadsBack(if n < 0 then -n else n);
    var s := IntText(n);
    assert IsDigit(digits[0]) && IsDigit(digits[|digits| - 1]);
    assert !IsSpace(s[0]) && !IsSpace(s[|s| - 1]);
    assert n < 0 ==> s[1..] == digits;
  }
}
