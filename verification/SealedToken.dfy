/** The sealed-secret token of app/core/crypto.py. */
module SealedToken {
  // Four byte strings and a key version flattened into one text by unpadded base64url (section 5 of
  // RFC 4648), and read back.

  import opened Text

  type Byte = x: int | 0 <= x < 256

  datatype SealedSecret = SealedSecret(
    keyVersion: int, nonce: seq<Byte>, ciphertext: seq<Byte>, dekNonce: seq<Byte>, dekWrapped: seq<Byte>)

  // ---------------------------------------------------------------- the alphabet

  // The base64url digit for six bits.
  function Digit64(v: int): (c: char)
    requires 0 <= v < 64
    ensures IsLetter(c) || IsDigit(c) || c == '-' || c == '_'
  {
    if v < 26 then ('A' as int + v) as char
    else if v < 52 then ('a' as int + v - 26) as char
    else if v < 62 then ('0' as int + v - 52) as char
    else if v == 62 then '-'
    else '_'
  }

  // The translation of '-' and '_' to '+' and '/' before decoding.
  function Standard(c: char): char {
    if c == '-' then '+' else if c == '_' then '/' else c
  }

  // The six bits of a standard base64 digit; any other character has none.
  function Bits(c: char): Option<int> {
    if 'A' <= c <= 'Z' then Some(c as int - 'A' as int)
    else if 'a' <= c <= 'z' then Some(c as int - 'a' as int + 26)
    else if '0' <= c <= '9' then Some(c as int - '0' as int + 52)
    else if c == '+' then Some(62)
    else if c == '/' then Some(63)
    else None
  }

  lemma DigitReadsBack(v: int)
    requires 0 <= v < 64
    ensures Bits(Standard(Digit64(v))) == Some(v) && Standard(Digit64(v)) != '='
  {
  }

  // ---------------------------------------------------------------- encoding

  // Four digits for three bytes.
  function Group(a: Byte, b: Byte, c: Byte): string {
    [Digit64(a / 4), Digit64(a % 4 * 16 + b / 16), Digit64(b % 16 * 4 + c / 64), Digit64(c % 64)]
  }

  // `urlsafe_b64encode`, padding included.
  function Padded(raw: seq<Byte>): string {
    if raw == [] then ""
    else if |raw| == 1 then
      [Digit64(raw[0] / 4), Digit64(raw[0] % 4 * 16), '=', '=']
    else if |raw| == 2 then
      [Digit64(raw[0] / 4), Digit64(raw[0] % 4 * 16 + raw[1] / 16), Digit64(raw[1] % 16 * 4), '=']
    else Group(raw[0], raw[1], raw[2]) + Padded(raw[3..])
  }

  // `_b64`
  function Encode(raw: seq<Byte>): string {
    StripRight(Padded(raw), {'='})
  }

  // ---------------------------------------------------------------- decoding

  function Prepend(b: Byte, rest: Option<seq<Byte>>): Option<seq<Byte>> {
    if rest.None? then None else Some([b] + rest.value)
  }

  // `binascii.a2b_base64`, not strict: characters outside the alphabet are skipped, and enough
  // padding after at least two digits of a group ends the text. `quad` counts the digits of the
  // group, `left` holds the bits not yet written, `pads` the padding just seen.
  function Scan(s: string, quad: int, left: int, pads: nat): Option<seq<Byte>>
    requires 0 <= quad < 4 && 0 <= left < 64
    requires (quad == 2 ==> left < 16) && (quad == 3 ==> left < 4)
    decreases |s|
  {
    if s == "" then
      if quad == 0 then Some([]) else None
    else if s[0] == '=' then
      if quad >= 2 && quad + pads + 1 >= 4 then Some([])
      else Scan(s[1..], quad, left, if quad >= 2 then pads + 1 else pads)
    else
      match Bits(s[0])
      case None => Scan(s[1..], quad, left, pads)
      case Some(v) =>
        if quad == 0 then Scan(s[1..], 1, v, 0)
        else if quad == 1 then Prepend(left * 4 + v / 16, Scan(s[1..], 2, v % 16, 0))
        else if quad == 2 then Prepend(left * 16 + v / 4, Scan(s[1..], 3, v % 4, 0))
        else Prepend(left * 64 + v, Scan(s[1..], 0, 0, 0))
  }

  function Translate(s: string): (r: string)
    ensures |r| == |s| && forall k :: 0 <= k < |s| ==> r[k] == Standard(s[k])
  {
    seq(|s|, k requires 0 <= k < |s| => Standard(s[k]))
  }

  function Pads(n: int): string {
    if n % 4 == 3 then "=" else if n % 4 == 2 then "==" else if n % 4 == 1 then "===" else ""
  }

  // `_unb64`; None is the decoding error.
  function Decode(s: string): Option<seq<Byte>> {
    Scan(Translate(s + Pads(|s|)), 0, 0, 0)
  }

  // ---------------------------------------------------------------- the token

  const VERSION := "v1"

  function ToToken(s: SealedSecret): string {
    Join([VERSION, IntText(s.keyVersion), Encode(s.nonce), Encode(s.ciphertext), Encode(s.dekNonce), Encode(s.dekWrapped)], ".")
  }

  // None for a text that was never a token.
  function FromToken(token: string): Option<SealedSecret> {
    var parts := Split(token, '.');
    if |parts| != 6 || parts[0] != VERSION then None
    else
      var version := PythonInt(parts[1]);
      var nonce, ciphertext := Decode(parts[2]), Decode(parts[3]);
      var dekNonce, dekWrapped := Decode(parts[4]), Decode(parts[5]);
      if version.None? || nonce.None? || ciphertext.None? || dekNonce.None? || dekWrapped.None? then None
      else Some(SealedSecret(version.value, nonce.value, ciphertext.value, dekNonce.value, dekWrapped.value))
  }

  // ---------------------------------------------------------------- round trips

  predicate IsUrlSafe(s: string) {
    forall k :: 0 <= k < |s| ==> IsLetter(s[k]) || IsDigit(s[k]) || s[k] == '-' || s[k] == '_'
  }

  // A group of four digits gives its three bytes back.
  lemma ScanGroup(a: Byte, b: Byte, c: Byte, rest: string)
    ensures Scan(Translate(Group(a, b, c) + rest), 0, 0, 0) == Prepend(a, Prepend(b, Prepend(c, Scan(Translate(rest), 0, 0, 0))))
  {
    var w, x, y, z := a / 4, a % 4 * 16 + b / 16, b % 16 * 4 + c / 64, c % 64;
    hide Scan, Digit64, Standard, Bits;
    DigitReadsBack(w);
    DigitReadsBack(x);
    DigitReadsBack(y);
    DigitReadsBack(z);
    var s := Translate(Group(a, b, c) + rest);
    GroupParts(a, b, c);
    ScanDigit(s, 0, 0, w);
    ScanDigit(s[1..], 1, w, x);
    ScanDigit(s[1..][1..], 2, b / 16, y);
    ScanDigit(s[1..][1..][1..], 3, c / 64, z);
    assert s[1..][1..][1..][1..] == Translate(rest);
  }

  // Four digits of six bits are three bytes.
  lemma GroupParts(a: Byte, b: Byte, c: Byte)
    ensures var x, y := a % 4 * 16 + b / 16, b % 16 * 4 + c / 64;
      && a / 4 * 4 + x / 16 == a && x % 16 == b / 16
      && b / 16 * 16 + y / 4 == b && y % 4 == c / 64
      && c / 64 * 64 + c % 64 == c
  {
  }

  // One step over a digit.
  lemma ScanDigit(s: string, quad: int, left: int, v: int)
    requires s != "" && 0 <= quad < 4 && 0 <= left < 64 && 0 <= v < 64
    requires (quad == 2 ==> left < 16) && (quad == 3 ==> left < 4)
    requires s[0] != '=' && Bits(s[0]) == Some(v)
    ensures Scan(s, quad, left, 0) ==
      if quad == 0 then Scan(s[1..], 1, v, 0)
      else if quad == 1 then Prepend(left * 4 + v / 16, Scan(s[1..], 2, v % 16, 0))
      else if quad == 2 then Prepend(left * 16 + v / 4, Scan(s[1..], 3, v % 4, 0))
      else Prepend(left * 64 + v, Scan(s[1..], 0, 0, 0))
  {
  }

  lemma ScanOne(a: Byte)
    ensures Scan(Translate(Padded([a])), 0, 0, 0) == Some([a])
  {
    var w, x := a / 4, a % 4 * 16;
    DigitReadsBack(w);
    DigitReadsBack(x);
    hide Scan, Digit64, Bits;
    var s := Translate(Padded([a]));
    ScanDigit(s, 0, 0, w);
    ScanDigit(s[1..], 1, w, x);
    assert w * 4 + x / 16 == a && x % 16 == 0;
    assert [a] + [] == [a];
  }

  lemma ScanTwo(a: Byte, b: Byte)
    ensures Scan(Translate(Padded([a, b])), 0, 0, 0) == Some([a, b])
  {
    var w, x, y := a / 4, a % 4 * 16 + b / 16, b % 16 * 4;
    DigitReadsBack(w);
    DigitReadsBack(x);
    DigitReadsBack(y);
    hide Scan, Digit64, Bits;
    var s := Translate(Padded([a, b]));
    ScanDigit(s, 0, 0, w);
    ScanDigit(s[1..], 1, w, x);
    assert w * 4 + x / 16 == a && x % 16 == b / 16;
    ScanDigit(s[1..][1..], 2, x % 16, y);
    assert x % 16 * 16 + y / 4 == b && y % 4 == 0;
    assert [a] + ([b] + []) == [a, b];
  }

  lemma {:induction false} PaddedReadsBack(raw: seq<Byte>)
    ensures Scan(Translate(Padded(raw)), 0, 0, 0) == Some(raw)
  {
    hide Scan, Translate, Digit64;
    if raw == [] {
      ScanNothing(Translate(Padded(raw)));
    } else if |raw| == 1 {
      assert raw == [raw[0]];
      ScanOne(raw[0]);
    } else if |raw| == 2 {
      assert raw == [raw[0], raw[1]];
      ScanTwo(raw[0], raw[1]);
    } else {
      PaddedReadsBack(raw[3..]);
      ScanGroup(raw[0], raw[1], raw[2], Padded(raw[3..]));
      assert raw == [raw[0]] + ([raw[1]] + ([raw[2]] + raw[3..]));
    }
  }

  lemma ScanNothing(s: string)
    requires s == ""
    ensures Scan(s, 0, 0, 0) == Some([])
  {
  }

  // The text without its padding.
  function Unpadded(raw: seq<Byte>): string {
    if raw == [] then ""
    else if |raw| == 1 then [Digit64(raw[0] / 4), Digit64(raw[0] % 4 * 16)]
    else if |raw| == 2 then
      [Digit64(raw[0] / 4), Digit64(raw[0] % 4 * 16 + raw[1] / 16), Digit64(raw[1] % 16 * 4)]
    else Group(raw[0], raw[1], raw[2]) + Unpadded(raw[3..])
  }

  // The padding that was cut is the padding that the length calls for.
  lemma {:induction false} PaddingRestored(raw: seq<Byte>)
    ensures Unpadded(raw) + Pads(|Unpadded(raw)|) == Padded(raw)
  {
    hide Digit64, Bits;
    if |raw| >= 3 {
      PaddingRestored(raw[3..]);
      var rest := Unpadded(raw[3..]);
      GroupPads(Group(raw[0], raw[1], raw[2]), rest);
    }
  }

  lemma GroupPads(group: string, rest: string)
    requires |group| == 4
    ensures group + rest + Pads(|group + rest|) == group + (rest + Pads(|rest|))
  {
  }

  lemma {:induction false} UnpaddedIsUrlSafe(raw: seq<Byte>)
    ensures IsUrlSafe(Unpadded(raw))
  {
    hide Digit64;
    if |raw| >= 3 {
      UnpaddedIsUrlSafe(raw[3..]);
    }
  }

  lemma {:induction false} StripPads(s: string, pads: string)
    requires IsUrlSafe(s) && forall k :: 0 <= k < |pads| ==> pads[k] == '='
    ensures StripRight(s + pads, {'='}) == s
  {
    if pads == "" {
      assert s + pads == s;
    } else {
      assert (s + pads)[..|s + pads| - 1] == s + pads[..|pads| - 1];
      StripPads(s, pads[..|pads| - 1]);
    }
  }

  lemma EncodeIsUnpadded(raw: seq<Byte>)
    ensures Encode(raw) == Unpadded(raw) && IsUrlSafe(Encode(raw))
  {
    hide Padded, Unpadded, StripRight;
    PaddingRestored(raw);
    UnpaddedIsUrlSafe(raw);
    StripPads(Unpadded(raw), Pads(|Unpadded(raw)|));
  }

  // The encoded text holds letters, digits, '-' and '_' only, and decodes to the bytes.
  lemma EncodeReadsBack(raw: seq<Byte>)
    ensures IsUrlSafe(Encode(raw))
    ensures Decode(Encode(raw)) == Some(raw)
  {
    hide Padded, Unpadded, Encode, Scan, Translate;
    EncodeIsUnpadded(raw);
    PaddingRestored(raw);
    PaddedReadsBack(raw);
  }

  lemma VersionHasNoDot(n: int)
    ensures '.' !in IntText(n)
  {
    hide Decimal;
  }

  // A sealed secret survives being carried as a token, whatever its version and its bytes.
  lemma TokenReadsBack(s: SealedSecret)
    ensures FromToken(ToToken(s)) == Some(s)
  {
    hide Encode, Decode, IntText, PythonInt, Split, Join;
    var parts := [VERSION, IntText(s.keyVersion), Encode(s.nonce), Encode(s.ciphertext), Encode(s.dekNonce), Encode(s.dekWrapped)];
    EncodeReadsBack(s.nonce);
    EncodeReadsBack(s.ciphertext);
    EncodeReadsBack(s.dekNonce);
    EncodeReadsBack(s.dekWrapped);
    IntReadsBack(s.keyVersion);
    VersionHasNoDot(s.keyVersion);
    SplitJoined(parts, '.');
  }
}
