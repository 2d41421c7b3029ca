/** The byte-level readers against writers of the same formats, so that what they
    read is pinned from the other side. */
module Encodings {
  import opened Basics
  import opened Utf8
  import opened JsonText

  // ----- UTF-8 -----

  /** Table 3-6 of the Unicode standard. */
  function EncodeScalar(c: Scalar): (b: seq<byte>)
    ensures 1 <= |b| <= 4
  {
    if c < 0x80 then [c]
    else if c < 0x800 then [0xC0 + c / 64, 0x80 + c % 64]
    else if c < 0x1_0000 then [0xE0 + c / 4096, 0x80 + c / 64 % 64, 0x80 + c % 64]
    else [0xF0 + c / 262_144, 0x80 + c / 4096 % 64, 0x80 + c / 64 % 64, 0x80 + c % 64]
  }

  lemma EncodedIsRead(c: Scalar, rest: seq<byte>)
    ensures DecodeFirst(EncodeScalar(c) + rest) == Some(Decoded(c, |EncodeScalar(c)|))
  {
    DigitsOf(c);
    var e := EncodeScalar(c);
    var b := e + rest;
    assert b[0] == e[0];
    if c >= 0x80 { assert b[1] == e[1]; }
    if c >= 0x800 { assert b[2] == e[2]; }
    if c >= 0x1_0000 { assert b[3] == e[3]; }
  }

  /** The base-64 digits of a scalar. */
  lemma DigitsOf(c: nat)
    requires c <= 0x10FFFF
    ensures c == c / 64 * 64 + c % 64
    ensures c == c / 4096 * 4096 + c / 64 % 64 * 64 + c % 64
    ensures c == c / 262_144 * 262_144 + c / 4096 % 64 * 4096 + c / 64 % 64 * 64 + c % 64
    ensures c / 262_144 <= 4 && (c < 0x1_0000 ==> c / 4096 <= 15) && (c < 0x800 ==> c / 64 <= 31)
    ensures (c >= 0x80 ==> c / 64 >= 2)
  {
    assert c / 4096 == c / 64 / 64 && c / 262_144 == c / 4096 / 64;
  }

  lemma ReadIsEncoded(b: seq<byte>)
    requires DecodeFirst(b).Some?
    ensures var d := DecodeFirst(b).value; d.width == |EncodeScalar(d.scalar)| && b[..d.width] == EncodeScalar(d.scalar)
  {
    var d := DecodeFirst(b).value;
    if d.width == 3 {
      ThreeBytes(b[0] - 0xE0, b[1] - 0x80, b[2] - 0x80);
    } else if d.width == 4 {
      FourBytes(b[0] - 0xF0, b[1] - 0x80, b[2] - 0x80, b[3] - 0x80);
    }
  }

  lemma ThreeBytes(x: int, y: int, z: int)
    requires 0 <= x < 16 && 0 <= y < 64 && 0 <= z < 64
    ensures var c := x * 4096 + y * 64 + z; c / 4096 == x && c / 64 % 64 == y && c % 64 == z
  {
    var c := x * 4096 + y * 64 + z;
    assert c / 64 == x * 64 + y;
  }

  lemma FourBytes(w: int, x: int, y: int, z: int)
    requires 0 <= w < 8 && 0 <= x < 64 && 0 <= y < 64 && 0 <= z < 64
    ensures var c := w * 262_144 + x * 4096 + y * 64 + z;
      c / 262_144 == w && c / 4096 % 64 == x && c / 64 % 64 == y && c % 64 == z
  {
    var c := w * 262_144 + x * 4096 + y * 64 + z;
    assert c / 4096 == w * 64 + x;
    assert c / 64 == (w * 64 + x) * 64 + y;
  }

  /** The reader finds a scalar exactly when its encoding stands at the front. */
  lemma Utf8IsExact(b: seq<byte>, c: Scalar, width: nat)
    ensures DecodeFirst(b) == Some(Decoded(c, width)) <==> EncodeScalar(c) <= b && width == |EncodeScalar(c)|
  {
    hide DecodeFirst; hide EncodeScalar;
    if DecodeFirst(b) == Some(Decoded(c, width)) { ReadIsEncoded(b); }
    if EncodeScalar(c) <= b && width == |EncodeScalar(c)| {
      EncodedIsRead(c, b[width..]);
      assert b == EncodeScalar(c) + b[width..];
    }
  }

  // ----- JSON strings -----

  /** One character as it may be written: itself, a short escape, or `\\u` escapes. */
  datatype Written = Plain(c: Scalar) | Short(letter: byte) | Unicode(c: Scalar)

  predicate Writable(w: Written) {
    match w
    case Plain(c) => c != BACKSLASH as int
    case Short(x) => IsSimpleEscape(x)
    case Unicode(_) => true
  }

  /** Section 7 of RFC 8259. */
  function Meant(w: Written): Scalar {
    match w
    case Plain(c) => c
    case Unicode(c) => c
    case Short(x) =>
      if x == 'b' as byte then 8 else if x == 'f' as byte then 12 else if x == 'n' as byte then 10
      else if x == 'r' as byte then 13 else if x == 't' as byte then 9 else x
  }

  function HexDigit(n: nat): (x: byte)
    requires n < 16
    ensures IsHex(x) && Nibble(x) == n
  {
    if n < 10 then 0x30 + n else 0x61 + n - 10
  }

  function UnitText(unit: u16): (b: seq<byte>)
    ensures |b| == 6
  {
    [BACKSLASH, LETTER_U, HexDigit(unit / 4096), HexDigit(unit / 256 % 16), HexDigit(unit / 16 % 16),
     HexDigit(unit % 16)]
  }

  /** A scalar beyond the first plane takes two units. */
  function WrittenText(w: Written): (b: seq<byte>)
    ensures |b| > 0
  {
    match w
    case Plain(c) => EncodeScalar(c)
    case Short(x) => [BACKSLASH, x]
    case Unicode(c) =>
      if c < 0x1_0000 then UnitText(c)
      else UnitText(0xD800 + (c - 0x1_0000) / 0x400) + UnitText(0xDC00 + (c - 0x1_0000) % 0x400)
  }

  function AllText(ws: seq<Written>): seq<byte> {
    if |ws| == 0 then [] else WrittenText(ws[0]) + AllText(ws[1..])
  }

  function AllMeant(ws: seq<Written>): seq<Scalar> {
    if |ws| == 0 then [] else [Meant(ws[0])] + AllMeant(ws[1..])
  }

  lemma UnitParses(unit: u16)
    ensures ParseHexUnit(UnitText(unit)[2..6]) == Ok(unit)
  {
    var t := UnitText(unit);
    assert t[2..6] == [t[2], t[3], t[4], t[5]];
    HexParts(unit);
  }

  lemma HexParts(unit: u16)
    ensures ((unit / 4096 * 16 + unit / 256 % 16) * 16 + unit / 16 % 16) * 16 + unit % 16 == unit
  {
    assert unit / 256 == unit / 4096 * 16 + unit / 256 % 16;
    assert unit / 16 == unit / 256 * 16 + unit / 16 % 16;
  }

  lemma UnitReads(unit: u16, rest: seq<byte>)
    ensures Tokens(UnitText(unit) + rest) == Cons(Unit(unit), Tokens(rest))
  {
    hide HexDigit; hide ParseHexUnit; hide IsHex;
    UnitParses(unit);
    LetterU();
    var b := UnitText(unit) + rest;
    assert b[0] == BACKSLASH && b[1] == LETTER_U && b[2..6] == UnitText(unit)[2..6] && b[6..] == rest;
  }

  lemma PlainReads(c: Scalar, rest: seq<byte>)
    requires c != BACKSLASH as int
    ensures Tokens(EncodeScalar(c) + rest) == Cons(Char(c), Tokens(rest))
  {
    hide DecodeFirst;
    EncodedIsRead(c, rest);
    var b := EncodeScalar(c) + rest;
    assert b[0] == EncodeScalar(c)[0] && b[|EncodeScalar(c)|..] == rest;
  }

  lemma ShortReads(x: byte, rest: seq<byte>)
    requires IsSimpleEscape(x)
    ensures Tokens([BACKSLASH, x] + rest) == Cons(Char(Meant(Short(x))), Tokens(rest))
  {
    var b := [BACKSLASH, x] + rest;
    assert b[0] == BACKSLASH && b[1] == x && b[2..] == rest;
  }

  /** One written character in front of a text that decodes. */
  lemma WrittenDecodes(w: Written, rest: seq<byte>)
    requires Writable(w) && DecodeString(rest).Some?
    ensures DecodeString(WrittenText(w) + rest) == Some([Meant(w)] + DecodeString(rest).value)
  {
    hide EncodeScalar; hide IsSimpleEscape; hide UnitText; hide Tokens;
    var ts := Tokens(rest).value;
    match w {
      case Plain(c) =>
        PlainReads(c, rest);
        assert ([Char(c)] + ts)[1..] == ts;
      case Short(x) =>
        ShortReads(x, rest);
        assert ([Char(Meant(w))] + ts)[1..] == ts;
      case Unicode(c) =>
        if c < 0x1_0000 {
          UnitReads(c, rest);
          assert ([Unit(c)] + ts)[1..] == ts;
        } else {
          var high, low := 0xD800 + (c - 0x1_0000) / 0x400, 0xDC00 + (c - 0x1_0000) % 0x400;
          UnitReads(low, rest);
          UnitReads(high, UnitText(low) + rest);
          assert UnitText(high) + UnitText(low) + rest == UnitText(high) + (UnitText(low) + rest);
          var all := [Unit(high)] + ([Unit(low)] + ts);
          assert all[2..] == ts && all[1] == Unit(low);
        }
    }
  }

  /** However each character is written, plainly or escaped, in one unit or two,
      the decoder gives back the characters that were meant. */
  lemma {:induction false} WrittenStringsDecode(ws: seq<Written>)
    requires forall w | w in ws :: Writable(w)
    ensures DecodeString(AllText(ws)) == Some(AllMeant(ws))
  {
    hide DecodeString; hide WrittenText; hide Meant; hide Writable;
    if |ws| == 0 {
      NothingDecodes();
    } else {
      WrittenStringsDecode(ws[1..]);
      WrittenDecodes(ws[0], AllText(ws[1..]));
    }
  }

  lemma NothingDecodes()
    ensures DecodeString([]) == Some([])
  {
  }

  // ----- integers and fields -----

  /** Two's complement: the bits of a signed number are the number modulo 2^64. */
  lemma SignedBits(n: i64)
    ensures I64Bits(n) == n % 0x1_0000_0000_0000_0000
  {
  }

  lemma LastByte(n: nat, w: nat)
    ensures Be(n, 0) == [] && Be(n, w + 1) == Be(n / 0x100, w) + [n % 0x100]
  {
  }

  lemma TwoBytes(n: nat)
    ensures n < 0x1_0000 ==> Be(n, 2) == [n / 0x100, n % 0x100]
  {
    hide Be;
    LastByte(n, 1);
    LastByte(n / 0x100, 0);
  }

  /** Big-endian, byte by byte. */
  lemma BigEndian(n: nat)
    ensures n < 0x1_0000 ==> Be(n, 2) == [n / 0x100, n % 0x100]
    ensures n < 0x1_0000_0000 ==> Be(n, 4) == [n / 0x100_0000, n / 0x1_0000 % 0x100, n / 0x100 % 0x100, n % 0x100]
  {
    hide Be;
    TwoBytes(n);
    LastByte(n, 3);
    LastByte(n / 0x100, 2);
    TwoBytes(n / 0x1_0000);
    assert n / 0x100 / 0x100 == n / 0x1_0000 && n / 0x1_0000 / 0x100 == n / 0x100_0000;
  }
}
