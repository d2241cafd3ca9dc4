/** The text of a sealed token, bit by bit: base64url of section 5 of RFC 4648, and the six parts. */
module TokenFormat {
  // Digit j of an encoded text stands for bits 6j to 6j + 5 of the bytes, most significant bit first, with
  // zero bits after the last byte.

  import opened Text
  import opened SealedToken

  // ---------------------------------------------------------------- the alphabet

  const CAPITALS := "ABCDEFGHIJKLMNOPQRSTUVWXYZ"
  const SMALLS := "abcdefghijklmnopqrstuvwxyz"
  const OTHERS := "0123456789-_"

  function Letter64(v: int): char
    requires 0 <= v < 64
  {
    if v < 26 then CAPITALS[v] else if v < 52 then SMALLS[v - 26] else OTHERS[v - 52]
  }

  lemma CapitalsAre()
    ensures |CAPITALS| == 26 && forall v :: 0 <= v < 26 ==> CAPITALS[v] == ('A' as int + v) as char
  {
  }

  lemma SmallsAre()
    ensures |SMALLS| == 26 && forall v :: 0 <= v < 26 ==> SMALLS[v] == ('a' as int + v) as char
  {
  }

  lemma OthersAre()
    ensures |OTHERS| == 12 && OTHERS[10] == '-' && OTHERS[11] == '_'
    ensures forall v :: 0 <= v < 10 ==> OTHERS[v] == ('0' as int + v) as char
  {
  }

  lemma DigitIsLetter(v: int)
    requires 0 <= v < 64
    ensures Digit64(v) == Letter64(v)
  {
    CapitalsAre();
    SmallsAre();
    OthersAre();
  }

  // ---------------------------------------------------------------- bits

  // Bit k of a byte, the most significant one first.
  function Bit(b: int, k: int): int
    requires 0 <= k < 8
  {
    match k
    case 0 => b / 128 % 2
    case 1 => b / 64 % 2
    case 2 => b / 32 % 2
    case 3 => b / 16 % 2
    case 4 => b / 8 % 2
    case 5 => b / 4 % 2
    case 6 => b / 2 % 2
    case _ => b % 2
  }

  function BitOf(raw: seq<Byte>, i: nat): int {
    if i / 8 < |raw| then Bit(raw[i / 8], i % 8) else 0
  }

  function SixBits(raw: seq<Byte>, j: nat): int {
    32 * BitOf(raw, 6 * j) + 16 * BitOf(raw, 6 * j + 1) + 8 * BitOf(raw, 6 * j + 2)
    + 4 * BitOf(raw, 6 * j + 3) + 2 * BitOf(raw, 6 * j + 4) + BitOf(raw, 6 * j + 5)
  }

  lemma TopSix(b: int)
    requires 0 <= b < 256
    ensures b / 4 == 32 * Bit(b, 0) + 16 * Bit(b, 1) + 8 * Bit(b, 2) + 4 * Bit(b, 3) + 2 * Bit(b, 4) + Bit(b, 5)
  {
    assert b / 128 == b / 64 / 2 && b / 64 == b / 32 / 2 && b / 32 == b / 16 / 2 && b / 16 == b / 8 / 2 && b / 8 == b / 4 / 2;
  }

  lemma Halves(b: int)
    requires 0 <= b < 256
    ensures b == 2 * (b / 2) + b % 2 && b / 2 == 2 * (b / 4) + b / 2 % 2 && b / 4 == 2 * (b / 8) + b / 4 % 2
    ensures b / 8 == 2 * (b / 16) + b / 8 % 2 && b / 16 == 2 * (b / 32) + b / 16 % 2 && b / 32 == 2 * (b / 64) + b / 32 % 2
    ensures b / 64 == 2 * (b / 128) + b / 64 % 2
  {
    assert b / 4 == b / 2 / 2 && b / 8 == b / 4 / 2 && b / 16 == b / 8 / 2;
    assert b / 32 == b / 16 / 2 && b / 64 == b / 32 / 2 && b / 128 == b / 64 / 2;
  }

  lemma LowTwo(b: int)
    requires 0 <= b < 256
    ensures b % 4 == 2 * Bit(b, 6) + Bit(b, 7)
  {
    Halves(b);
    assert b % 4 == b - 4 * (b / 4);
  }

  lemma TopFour(b: int)
    requires 0 <= b < 256
    ensures b / 16 == 8 * Bit(b, 0) + 4 * Bit(b, 1) + 2 * Bit(b, 2) + Bit(b, 3)
  {
    Halves(b);
    assert b / 128 % 2 == b / 128;
  }

  lemma LowFour(b: int)
    requires 0 <= b < 256
    ensures b % 16 == 8 * Bit(b, 4) + 4 * Bit(b, 5) + 2 * Bit(b, 6) + Bit(b, 7)
  {
    hide Bit;
    Halves(b);
    LowFourBits(b);
    assert b % 16 == b - 16 * (b / 16);
  }

  lemma LowFourBits(b: int)
    ensures Bit(b, 4) == b / 8 % 2 && Bit(b, 5) == b / 4 % 2 && Bit(b, 6) == b / 2 % 2 && Bit(b, 7) == b % 2
    ensures Bit(b, 2) == b / 32 % 2 && Bit(b, 3) == b / 16 % 2
  {
  }

  lemma TopTwo(b: int)
    requires 0 <= b < 256
    ensures b / 64 == 2 * Bit(b, 0) + Bit(b, 1)
  {
    Halves(b);
    assert b / 128 % 2 == b / 128;
  }

  lemma LowSix(b: int)
    requires 0 <= b < 256
    ensures b % 64 == 32 * Bit(b, 2) + 16 * Bit(b, 3) + 8 * Bit(b, 4) + 4 * Bit(b, 5) + 2 * Bit(b, 6) + Bit(b, 7)
  {
    hide Bit;
    Halves(b);
    LowFourBits(b);
    assert b % 64 == b - 64 * (b / 64);
  }

  function ByteOr0(raw: seq<Byte>, k: nat): int {
    if k < |raw| then raw[k] else 0
  }

  lemma ZeroBits(k: int)
    requires 0 <= k < 8
    ensures Bit(0, k) == 0
  {
  }

  lemma BitOfByte(raw: seq<Byte>, k: nat, t: nat)
    requires t < 8
    ensures BitOf(raw, 8 * k + t) == Bit(ByteOr0(raw, k), t)
  {
    hide Bit;
    assert (8 * k + t) / 8 == k && (8 * k + t) % 8 == t;
    ZeroBits(t);
  }

  // The four digits of the first three bytes.
  lemma FirstDigits(raw: seq<Byte>)
    ensures var a, b, c := ByteOr0(raw, 0), ByteOr0(raw, 1), ByteOr0(raw, 2);
      && SixBits(raw, 0) == a / 4
      && SixBits(raw, 1) == a % 4 * 16 + b / 16
      && SixBits(raw, 2) == b % 16 * 4 + c / 64
      && SixBits(raw, 3) == c % 64
  {
    hide Bit, BitOf;
    FirstBits(raw);
    var a, b, c := ByteOr0(raw, 0), ByteOr0(raw, 1), ByteOr0(raw, 2);
    TopSix(a);
    LowTwo(a);
    TopFour(b);
    LowFour(b);
    TopTwo(c);
    LowSix(c);
  }

  lemma FirstBits(raw: seq<Byte>)
    ensures forall t: nat :: t < 8 ==> BitOf(raw, t) == Bit(ByteOr0(raw, 0), t)
    ensures forall t: nat :: t < 8 ==> BitOf(raw, 8 + t) == Bit(ByteOr0(raw, 1), t)
    ensures forall t: nat :: t < 8 ==> BitOf(raw, 16 + t) == Bit(ByteOr0(raw, 2), t)
    ensures BitOf(raw, 6) == Bit(ByteOr0(raw, 0), 6) && BitOf(raw, 7) == Bit(ByteOr0(raw, 0), 7)
    ensures BitOf(raw, 8) == Bit(ByteOr0(raw, 1), 0) && BitOf(raw, 9) == Bit(ByteOr0(raw, 1), 1) && BitOf(raw, 10) == Bit(ByteOr0(raw, 1), 2)
    ensures BitOf(raw, 11) == Bit(ByteOr0(raw, 1), 3) && BitOf(raw, 12) == Bit(ByteOr0(raw, 1), 4) && BitOf(raw, 13) == Bit(ByteOr0(raw, 1), 5)
    ensures BitOf(raw, 14) == Bit(ByteOr0(raw, 1), 6) && BitOf(raw, 15) == Bit(ByteOr0(raw, 1), 7)
    ensures BitOf(raw, 16) == Bit(ByteOr0(raw, 2), 0) && BitOf(raw, 17) == Bit(ByteOr0(raw, 2), 1) && BitOf(raw, 18) == Bit(ByteOr0(raw, 2), 2)
    ensures BitOf(raw, 19) == Bit(ByteOr0(raw, 2), 3) && BitOf(raw, 20) == Bit(ByteOr0(raw, 2), 4) && BitOf(raw, 21) == Bit(ByteOr0(raw, 2), 5)
    ensures BitOf(raw, 22) == Bit(ByteOr0(raw, 2), 6) && BitOf(raw, 23) == Bit(ByteOr0(raw, 2), 7)
  {
    hide Bit, BitOf, ByteOr0;
    forall t: nat | t < 8
      ensures BitOf(raw, t) == Bit(ByteOr0(raw, 0), t)
      ensures BitOf(raw, 8 + t) == Bit(ByteOr0(raw, 1), t)
      ensures BitOf(raw, 16 + t) == Bit(ByteOr0(raw, 2), t)
    {
      BitOfByte(raw, 0, t);
      BitOfByte(raw, 1, t);
      BitOfByte(raw, 2, t);
    }
    assert BitOf(raw, 8 + 0) == Bit(ByteOr0(raw, 1), 0) && BitOf(raw, 8 + 1) == Bit(ByteOr0(raw, 1), 1);
    assert BitOf(raw, 8 + 2) == Bit(ByteOr0(raw, 1), 2) && BitOf(raw, 8 + 3) == Bit(ByteOr0(raw, 1), 3);
    assert BitOf(raw, 8 + 4) == Bit(ByteOr0(raw, 1), 4) && BitOf(raw, 8 + 5) == Bit(ByteOr0(raw, 1), 5);
    assert BitOf(raw, 8 + 6) == Bit(ByteOr0(raw, 1), 6) && BitOf(raw, 8 + 7) == Bit(ByteOr0(raw, 1), 7);
    assert BitOf(raw, 16 + 0) == Bit(ByteOr0(raw, 2), 0) && BitOf(raw, 16 + 1) == Bit(ByteOr0(raw, 2), 1);
    assert BitOf(raw, 16 + 2) == Bit(ByteOr0(raw, 2), 2) && BitOf(raw, 16 + 3) == Bit(ByteOr0(raw, 2), 3);
    assert BitOf(raw, 16 + 4) == Bit(ByteOr0(raw, 2), 4) && BitOf(raw, 16 + 5) == Bit(ByteOr0(raw, 2), 5);
    assert BitOf(raw, 16 + 6) == Bit(ByteOr0(raw, 2), 6) && BitOf(raw, 16 + 7) == Bit(ByteOr0(raw, 2), 7);
  }

  lemma BitLater(raw: seq<Byte>, i: nat)
    requires |raw| >= 3
    ensures BitOf(raw, i + 24) == BitOf(raw[3..], i)
  {
    hide Bit;
    assert (i + 24) / 8 == i / 8 + 3 && (i + 24) % 8 == i % 8;
  }

  lemma DigitsLater(raw: seq<Byte>, j: nat)
    requires |raw| >= 3
    ensures SixBits(raw, j + 4) == SixBits(raw[3..], j)
  {
    hide BitOf;
    assert 6 * (j + 4) == 6 * j + 24;
    BitLater(raw, 6 * j);
    BitLater(raw, 6 * j + 1);
    BitLater(raw, 6 * j + 2);
    BitLater(raw, 6 * j + 3);
    BitLater(raw, 6 * j + 4);
    BitLater(raw, 6 * j + 5);
    assert 6 * j + 24 + 1 == 6 * j + 1 + 24 && 6 * j + 24 + 2 == 6 * j + 2 + 24 && 6 * j + 24 + 3 == 6 * j + 3 + 24;
    assert 6 * j + 24 + 4 == 6 * j + 4 + 24 && 6 * j + 24 + 5 == 6 * j + 5 + 24;
  }

  // ---------------------------------------------------------------- the encoded text

  // Digits for all bits, the last ones filled up with zeros.
  function DigitCount(n: nat): nat {
    (8 * n + 5) / 6
  }

  predicate IsDigitOf(c: char, raw: seq<Byte>, j: nat) {
    0 <= SixBits(raw, j) < 64 && c == Letter64(SixBits(raw, j))
  }

  lemma GroupDigits(raw: seq<Byte>, j: nat)
    requires |raw| >= 3 && j < 4
    ensures IsDigitOf(Group(raw[0], raw[1], raw[2])[j], raw, j)
  {
    hide SixBits, Letter64, Digit64;
    FirstDigits(raw);
    DigitIsLetter(raw[0] / 4);
    DigitIsLetter(raw[0] % 4 * 16 + raw[1] / 16);
    DigitIsLetter(raw[1] % 16 * 4 + raw[2] / 64);
    DigitIsLetter(raw[2] % 64);
  }

  lemma LastDigits(raw: seq<Byte>, j: nat)
    requires 1 <= |raw| <= 2 && j < |Unpadded(raw)|
    ensures IsDigitOf(Unpadded(raw)[j], raw, j)
  {
    hide SixBits, Letter64, Digit64;
    FirstDigits(raw);
    DigitIsLetter(raw[0] / 4);
    if |raw| == 1 {
      DigitIsLetter(raw[0] % 4 * 16);
    } else {
      DigitIsLetter(raw[0] % 4 * 16 + raw[1] / 16);
      DigitIsLetter(raw[1] % 16 * 4);
    }
  }

  lemma {:induction false} DigitAt(raw: seq<Byte>, j: nat)
    requires j < |Unpadded(raw)|
    ensures IsDigitOf(Unpadded(raw)[j], raw, j)
  {
    hide IsDigitOf, Group;
    if |raw| < 3 {
      hide Unpadded;
      SomeBytes(raw, j);
      LastDigits(raw, j);
    } else {
      GroupLength(raw[0], raw[1], raw[2]);
      if j < 4 {
        GroupDigits(raw, j);
      } else {
        DigitAt(raw[3..], j - 4);
        DigitAsLater(Unpadded(raw)[j], raw, j - 4);
      }
    }
  }

  lemma SomeBytes(raw: seq<Byte>, j: nat)
    requires j < |Unpadded(raw)|
    ensures raw != []
  {
  }

  lemma GroupLength(a: Byte, b: Byte, c: Byte)
    ensures |Group(a, b, c)| == 4
  {
  }

  lemma DigitAsLater(c: char, raw: seq<Byte>, j: nat)
    requires |raw| >= 3
    ensures IsDigitOf(c, raw, j + 4) == IsDigitOf(c, raw[3..], j)
  {
    hide SixBits, Letter64;
    DigitsLater(raw, j);
  }

  lemma {:induction false} LengthIs(raw: seq<Byte>)
    ensures |Unpadded(raw)| == DigitCount(|raw|)
  {
    hide Group;
    if |raw| >= 3 {
      LengthIs(raw[3..]);
      GroupLength(raw[0], raw[1], raw[2]);
      assert (8 * |raw| + 5) / 6 == (8 * (|raw| - 3) + 5) / 6 + 4;
    }
  }

  // The encoded text has a digit for every six bits begun, and each digit is the letter of the alphabet that
  // its six bits number.
  lemma EncodedBitByBit(raw: seq<Byte>)
    ensures |Encode(raw)| == DigitCount(|raw|)
    ensures forall j :: 0 <= j < |Encode(raw)| ==> IsDigitOf(Encode(raw)[j], raw, j)
  {
    hide Encode, Unpadded, IsDigitOf;
    EncodeIsUnpadded(raw);
    LengthIs(raw);
    forall j | 0 <= j < |Encode(raw)| ensures IsDigitOf(Encode(raw)[j], raw, j) {
      DigitAt(raw, j);
    }
  }

  // ---------------------------------------------------------------- the token

  lemma UrlSafeHasNoDot(s: string)
    requires IsUrlSafe(s)
    ensures '.' !in s
  {
  }

  // A token is six parts between dots: "v1", the key version, nonce, ciphertext, and the wrapped key's nonce
  // and ciphertext.
  lemma TokenParts(s: SealedSecret)
    ensures Split(ToToken(s), '.') ==
      ["v1", IntText(s.keyVersion), Encode(s.nonce), Encode(s.ciphertext), Encode(s.dekNonce), Encode(s.dekWrapped)]
  {
    hide Encode, IntText, Split, Join, IsUrlSafe;
    EncodeReadsBack(s.nonce);
    EncodeReadsBack(s.ciphertext);
    EncodeReadsBack(s.dekNonce);
    EncodeReadsBack(s.dekWrapped);
    UrlSafeHasNoDot(Encode(s.nonce));
    UrlSafeHasNoDot(Encode(s.ciphertext));
    UrlSafeHasNoDot(Encode(s.dekNonce));
    UrlSafeHasNoDot(Encode(s.dekWrapped));
    VersionHasNoDot(s.keyVersion);
    SplitJoined(["v1", IntText(s.keyVersion), Encode(s.nonce), Encode(s.ciphertext), Encode(s.dekNonce), Encode(s.dekWrapped)], '.');
  }

  // A text without six parts, the first of them "v1", was never a token.
  lemma OtherTextsAreNone(token: string)
    requires |Split(token, '.')| != 6 || Split(token, '.')[0] != "v1"
    ensures FromToken(token).None?
  {
    hide Decode, PythonInt, Split;
  }
}
