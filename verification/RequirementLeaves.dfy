/** The two leaf shapes a requirement text is made of, recognised character by character. */
module RequirementLeaves {
  // Subject codes and "so many credit points at some level" thresholds. Each matcher follows the
  // regular expression it stands for, on ASCII text.

  import opened Text
  import opened PrerequisiteParser

  // ---------------------------------------------------------------- subject codes

  // How much of s a subject code at its start takes up, or 0: three to five letters,
  // possibly one space, two or three digits, and then no further word character.
  function CodeLength(s: string): (n: nat)
    ensures n <= |s|
  {
    var letters := LetterRun(s);
    var gap := if letters < |s| && IsSpace(s[letters]) then letters + 1 else letters;
    var digits := DigitRun(s[gap..]);
    var end := gap + digits;
    if 3 <= letters <= 5 && 2 <= digits <= 3 && (end == |s| || !IsWord(s[end])) then end else 0
  }

  // Every subject code in s, left to right; `inWord` says the character before s is a word character.
  function FindCodes(inWord: bool, s: string): seq<string>
    decreases |s|
  {
    if s == "" then []
    else if !inWord && CodeLength(s) > 0 then
      [s[..CodeLength(s)]] + FindCodes(true, s[CodeLength(s)..])
    else FindCodes(IsWord(s[0]), s[1..])
  }

  // ---------------------------------------------------------------- thresholds

  datatype Found = Found(text: string, end: nat)

  // `(100|200|300)\s*-?\s*level` at the start of s.
  function LevelAt(s: string): (r: Option<Found>)
    ensures r.Some? ==> r.value.end <= |s| && r.value.text in {"100", "200", "300"}
  {
    if |s| >= 3 && '1' <= s[0] <= '3' && s[1] == '0' && s[2] == '0' then
      var a := 3 + SpaceRun(s[3..]);
      var b := if a < |s| && s[a] == '-' then a + 1 else a;
      var c := b + SpaceRun(s[b..]);
      assert s[..3] == [s[0], '0', '0'];
      if StartsWithFold(s[c..], "level") then Some(Found(s[..3], c + 5)) else None
    else None
  }

  // `\d+\s*(cp|credit points?)` at the start of s; with `cpOnly`, `\d+\s*cp`.
  function NumberAt(s: string, cpOnly: bool): (r: Option<Found>)
    ensures r.Some? ==> r.value.end <= |s| && r.value.text != ""
    ensures r.Some? ==> forall k :: 0 <= k < |r.value.text| ==> IsDigit(r.value.text[k])
  {
    var digits := DigitRun(s);
    var a := digits + SpaceRun(s[digits..]);
    if digits == 0 then None
    else if StartsWithFold(s[a..], "cp") then Some(Found(s[..digits], a + 2))
    else if !cpOnly && StartsWithFold(s[a..], "credit point") then Some(Found(s[..digits], a + 12))
    else None
  }

  // `another\s+\d+\s*cp` at the start of s.
  function AnotherAt(s: string): (r: Option<Found>)
    ensures r.Some? ==> r.value.end <= |s| && r.value.text != ""
    ensures r.Some? ==> forall k :: 0 <= k < |r.value.text| ==> IsDigit(r.value.text[k])
  {
    if StartsWithFold(s, "another") && SpaceRun(s[7..]) > 0 then
      var a := 7 + SpaceRun(s[7..]);
      match NumberAt(s[a..], true)
      case Some(found) => Some(Found(found.text, a + found.end))
      case None => None
    else None
  }

  // The first level, or the first credit-point count, at or after the start of s on its line.
  function FirstLevel(s: string): (r: Option<string>)
    ensures r.Some? ==> r.value in {"100", "200", "300"}
  {
    if LevelAt(s).Some? then Some(LevelAt(s).value.text)
    else if s == "" || s[0] == '\n' then None
    else FirstLevel(s[1..])
  }

  predicate HasNumber(s: string) {
    if NumberAt(s, false).Some? then true
    else if s == "" || s[0] == '\n' then false
    else HasNumber(s[1..])
  }

  // A threshold as it was written: the credit points count when they come first.
  datatype RawThreshold =
    | CountFirst(count: string, level: string)
    | LevelFirst(level: string)

  function ThresholdAt(s: string): (r: Option<RawThreshold>)
    ensures r.Some? ==> r.value.level in {"100", "200", "300"}
    ensures r.Some? && r.value.CountFirst? ==> forall k :: 0 <= k < |r.value.count| ==> IsDigit(r.value.count[k])
  {
    var count := if NumberAt(s, false).Some? then NumberAt(s, false) else AnotherAt(s);
    if count.Some? && FirstLevel(s[count.value.end..]).Some? then
      Some(CountFirst(count.value.text, FirstLevel(s[count.value.end..]).value))
    else if LevelAt(s).Some? && HasNumber(s[LevelAt(s).value.end..]) then
      Some(LevelFirst(LevelAt(s).value.text))
    else None
  }

  function FindThreshold(s: string): (r: Option<RawThreshold>)
    ensures r.Some? ==> r.value.level in {"100", "200", "300"}
    ensures r.Some? && r.value.CountFirst? ==> forall k :: 0 <= k < |r.value.count| ==> IsDigit(r.value.count[k])
  {
    if ThresholdAt(s).Some? then ThresholdAt(s)
    else if s == "" then None
    else FindThreshold(s[1..])
  }

  // One of the three computing prefixes standing as a word of its own at the start of s.
  predicate WordHere(s: string, w: string) {
    StartsWithFold(s, w) && (|s| == |w| || !IsWord(s[|w|]))
  }

  predicate HasWord(inWord: bool, s: string, w: string)
    decreases |s|
  {
    s != "" && ((!inWord && WordHere(s, w)) || HasWord(IsWord(s[0]), s[1..], w))
  }

  // The subject prefixes a threshold is limited to; none means any prefix counts.
  function Prefixes(term: string): set<string> {
    if ContainsFold(term, "csci/csit/isit") then {"CSCI", "CSIT", "ISIT"}
    else if ContainsFold(term, "csci/csit") then {"CSCI", "CSIT"}
    else if ContainsFold(term, "csci/isit") then {"CSCI", "ISIT"}
    else
      (if HasWord(false, term, "csci") then {"CSCI"} else {})
      + (if HasWord(false, term, "csit") then {"CSIT"} else {})
      + (if HasWord(false, term, "isit") then {"ISIT"} else {})
  }

  datatype CpRequirement = CpRequirement(minCp: nat, level: nat, prefixes: set<string>)

  function LevelNumber(level: string): (n: nat)
    requires level in {"100", "200", "300"}
    ensures n in {100, 200, 300}
  {
    if level == "100" then 100 else if level == "200" then 200 else 300
  }

  // The count is the first captured number of at least 6 and the level the first captured
  // 100, 200 or 300, so a small count reads as the level and a count of 100 is also the level.
  function ParseCpLevel(term: string): Option<CpRequirement> {
    match FindThreshold(term)
    case None => None
    case Some(LevelFirst(level)) =>
      Some(CpRequirement(LevelNumber(level), LevelNumber(level), Prefixes(term)))
    case Some(CountFirst(count, level)) =>
      var minCp := if NatOf(count) >= 6 then NatOf(count) else LevelNumber(level);
      var read := if count in {"100", "200", "300"} then count else level;
      Some(CpRequirement(minCp, LevelNumber(read), Prefixes(term)))
  }
}
