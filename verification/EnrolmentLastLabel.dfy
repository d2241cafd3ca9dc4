/** The last header value of a projection on one line, which "## Enrolment History" follows: when the flat patterns find it. */
module EnrolmentLastLabel {
  // A value ends before a label, before the column headings, before a year, or with the text. The '#' keeps
  // the first and the last from being reached, so that only headings inside the value end it.

  import opened Text
  import opened EnrolmentShapes
  import opened EnrolmentValues
  import opened EnrolmentFlat

  // No colon before the first '#'.
  predicate IsBlockedAt(s: string, h: nat) {
    h < |s| && s[h] == '#' && forall k :: 0 <= k < h ==> s[k] != ':' && s[k] != '#'
  }

  lemma SuffixIsBlocked(s: string, h: nat, n: nat)
    requires IsBlockedAt(s, h) && n <= h
    ensures IsBlockedAt(s[n..], h - n)
  {
    assert forall k :: 0 <= k < h - n ==> s[n..][k] == s[n + k];
  }

  lemma DroppedIsBlocked(s: string, h: nat) returns (rest: nat)
    requires IsBlockedAt(s, h)
    ensures rest <= h && IsBlockedAt(DropSpaces(s), rest) && DropSpaces(s) == s[h - rest..]
  {
    hide StripLeft;
    StripLeftIsSuffix(s, SPACES);
    var n := |s| - |DropSpaces(s)|;
    assert !IsSpace(s[h]);
    assert n <= h;
    SuffixIsBlocked(s, h, n);
    rest := h - n;
  }

  lemma NoValue(s: string, h: nat)
    requires IsBlockedAt(s, h)
    ensures Value(s).None?
  {
    hide StripLeft;
    var rest := DroppedIsBlocked(s, h);
  }

  lemma PrefixStopsAtHash(s: string, h: nat, name: string)
    requires IsBlockedAt(s, h) && StartsWithFold(s, name) && '#' !in name
    ensures |name| <= h
  {
    forall k | 0 <= k < |name| ensures s[k] != '#' {
      assert LowerChar(s[k]) == name[k] && name[k] in name;
    }
  }

  lemma NoColonAfter(s: string, h: nat, name: string)
    requires IsBlockedAt(s, h) && '#' !in name
    ensures AfterColon(s, name).None?
  {
    hide Value, IsBlockedAt;
    if StartsWithFold(s, name) {
      PrefixStopsAtHash(s, h, name);
      SuffixIsBlocked(s, h, |name|);
      NoValue(s[|name|..], h - |name|);
    }
  }

  lemma NumberKeepsBlocked(s: string, h: nat) returns (rest: nat)
    requires IsBlockedAt(s, h)
    ensures IsBlockedAt(DropNumber(s), rest)
  {
    hide StripLeft, DigitRun, IsBlockedAt;
    rest := h;
    var left := DroppedIsBlocked(s, h);
    var t := DropSpaces(s);
    if |t| < |s| && DigitRun(t) > 0 {
      HashIsNoDigit(t, left);
      SuffixIsBlocked(t, left, DigitRun(t));
      rest := left - DigitRun(t);
    }
  }

  lemma HashIsNoDigit(s: string, h: nat)
    requires IsBlockedAt(s, h)
    ensures DigitRun(s) <= h
  {
    hide DigitRun;
  }

  lemma NoNumberedMajor(s: string, h: nat)
    requires IsBlockedAt(s, h)
    ensures AfterNumberedMajor(s).None?
  {
    hide DropNumber, Value, IsBlockedAt;
    if StartsWithFold(s, "major") {
      assert forall c :: c in "major" ==> c != '#';
      PrefixStopsAtHash(s, h, "major");
      SuffixIsBlocked(s, h, 5);
      var rest := NumberKeepsBlocked(s[5..], h - 5);
      NoValue(DropNumber(s[5..]), rest);
    }
  }

  lemma NoLabelBeforeHash(s: string, h: nat)
    requires IsBlockedAt(s, h)
    ensures !IsFlatLabel(s)
  {
    hide AfterColon, AfterNumberedMajor, IsBlockedAt;
    NoColonAfter(s, h, "student");
    NoColonAfter(s, h, "effective date");
    NoColonAfter(s, h, "course");
    NoColonAfter(s, h, "instance");
    NoColonAfter(s, h, "campus");
    NoColonAfter(s, h, "delivery");
    NoColonAfter(s, h, "status");
    NoColonAfter(s, h, "second major");
    NoColonAfter(s, h, "note");
    NoColonAfter(s, h, "notes");
    NoColonAfter(s, h, "supervisor");
    NoColonAfter(s, h, "honours gpa");
    NoColonAfter(s, h, "gpa");
    NoColonAfter(s, h, "wam");
    NoNumberedMajor(s, h);
  }

  // White space and then the column headings.
  predicate HeadingsFollow(s: string) {
    var t := DropSpaces(s);
    |t| < |s| && IsColumnHeadings(t)
  }

  // Before the '#' and without digits, only headings end a value.
  lemma OnlyHeadingsEnd(s: string, h: nat)
    requires IsBlockedAt(s, h) && forall k :: 0 <= k < h ==> !IsDigit(s[k])
    ensures AtValueEnd(s) <==> HeadingsFollow(s)
  {
    hide StripLeft, IsFlatLabel, IsColumnHeadings;
    var rest := DroppedIsBlocked(s, h);
    var t := DropSpaces(s);
    NoLabelBeforeHash(t, rest);
    assert t[0] == s[h - rest];
    assert !IsYearThenSpace(t);
  }

  // A value of these characters, a space, and a '#'.
  predicate IsValueBeforeHash(s: string, n: nat) {
    && 0 < n && n + 1 < |s| && s[n] == ' ' && s[n + 1] == '#'
    && forall k :: 0 <= k < n ==> IsLetter(s[k]) || s[k] == ' ' || s[k] == '&' || s[k] == '-'
  }

  lemma EndsOnlyAtHeadings(s: string, n: nat, k: nat)
    requires IsValueBeforeHash(s, n) && k <= n + 1
    ensures AtValueEnd(s[k..]) <==> HeadingsFollow(s[k..])
  {
    hide AtValueEnd, HeadingsFollow;
    assert IsBlockedAt(s, n + 1);
    SuffixIsBlocked(s, n + 1, k);
    assert forall i :: 0 <= i < n + 1 - k ==> s[k..][i] == s[k + i];
    OnlyHeadingsEnd(s[k..], n + 1 - k);
  }

  // Some place from `from` to `most`, at most n, has headings behind it.
  predicate HasHeadings(s: string, from: nat, n: nat, most: nat) {
    exists k :: HeadingsBehind(s, k) && from <= k <= most && k <= n + 1
  }

  predicate HeadingsBehind(s: string, k: int) {
    0 <= k <= |s| && HeadingsFollow(s[k..])
  }

  lemma HasHeadingsStep(s: string, from: nat, n: nat, most: nat)
    requires from <= |s| && from <= most && from <= n + 1
    ensures HasHeadings(s, from, n, most) <==> HeadingsFollow(s[from..]) || HasHeadings(s, from + 1, n, most)
  {
    hide HeadingsFollow;
    if HeadingsFollow(s[from..]) {
      assert HeadingsBehind(s, from);
    }
  }

  lemma {:induction false} CampusValueIff(s: string, n: nat, k: nat, most: nat)
    requires IsValueBeforeHash(s, n) && 0 < k <= n + 1 && IsCampusValue(s[..k])
    requires forall i :: 0 <= i < n ==> IsCampusLetter(s[i])
    ensures CampusValue(s, k, most).Some? <==> HasHeadings(s, k, n, most)
    decreases n + 1 - k
  {
    hide AtValueEnd, HeadingsFollow, HasHeadings, IsCampusValue;
    if k <= most {
      EndsOnlyAtHeadings(s, n, k);
      HasHeadingsStep(s, k, n, most);
      if k <= n {
        assert IsCampusLetter(s[k]);
        CampusValueGrows(s, k);
        CampusValueIff(s, n, k + 1, most);
      } else {
        NoHeadingsBeyond(s, n, most);
      }
    } else {
      NoHeadingsPast(s, k, n, most);
    }
  }

  lemma NoHeadingsBeyond(s: string, n: nat, most: nat)
    ensures !HasHeadings(s, n + 2, n, most)
  {
  }

  lemma NoHeadingsPast(s: string, k: nat, n: nat, most: nat)
    requires k > most
    ensures !HasHeadings(s, k, n, most)
  {
  }

  lemma {:induction false} MajorValueIff(s: string, n: nat, k: nat, most: nat)
    requires IsValueBeforeHash(s, n) && 0 < k <= n + 1
    ensures MajorValue(s, k, most).Some? <==> HasHeadings(s, k, n, most)
    decreases n + 1 - k
  {
    hide AtValueEnd, HeadingsFollow, HasHeadings;
    if k <= most {
      EndsOnlyAtHeadings(s, n, k);
      HasHeadingsStep(s, k, n, most);
      if k <= n {
        assert IsMajorChar(s[k]);
        MajorValueIff(s, n, k + 1, most);
      } else {
        NoHeadingsBeyond(s, n, most);
      }
    } else {
      NoHeadingsPast(s, k, n, most);
    }
  }

  lemma StartOfValue(value: string, rest: string)
    requires value != "" && forall k :: 0 <= k < |value| ==> IsLetter(value[k]) || value[k] == ' ' || value[k] == '&' || value[k] == '-'
    ensures IsValueBeforeHash(value + " #" + rest, |value|)
  {
    var s := value + " #" + rest;
    assert forall k :: 0 <= k < |value| ==> s[k] == value[k];
    assert s[|value|] == " #"[0] && s[|value| + 1] == " #"[1];
  }

  // A campus before "#" is found exactly when "Year Session" stands inside it; otherwise it is lost.
  lemma LastCampusIff(s: string, campus: string, rest: string)
    requires IsCampusName(campus) && AfterColon(s, "campus") == Some(campus + " #" + rest)
    ensures CampusAt(s).Some? <==> HasHeadings(campus + " #" + rest, 1, |campus|, 41)
  {
    hide AfterColon, HasHeadings, CampusValue;
    var text := campus + " #" + rest;
    StartOfValue(campus, rest);
    assert forall i :: 0 <= i < |campus| ==> text[i] == campus[i] && IsCampusLetter(text[i]);
    assert IsCampusValue(text[..1]);
    CampusValueIff(text, |campus|, 1, 41);
  }

  // The same for a major.
  lemma LastMajorIff(s: string, major: string, rest: string)
    requires IsMajorText(major) && AfterMajor(s) == Some(major + " #" + rest)
    ensures MajorAt(s).Some? <==> HasHeadings(major + " #" + rest, 1, |major|, 61)
  {
    hide AfterMajor, HasHeadings, MajorValue;
    var text := major + " #" + rest;
    StartOfValue(major, rest);
    assert text[0] == major[0];
    MajorValueIff(text, |major|, 1, 61);
  }
}
