/** UTF-8 as the Rust `str` type holds it: well-formed byte sequences, their
    Unicode scalar values, and the character classes the validators ask for. */
module Utf8 {
  import opened Basics

  type Scalar = c: int | 0 <= c <= 0x10FFFF && !(0xD800 <= c <= 0xDFFF)

  datatype Decoded = Decoded(scalar: Scalar, width: nat)

  predicate IsContinuation(b: byte) { 0x80 <= b <= 0xBF }

  /** The first scalar of `b`, when `b` starts with a well-formed sequence
      (table 3-7 of the Unicode standard: no overlong forms, no surrogates). */
  function DecodeFirst(b: seq<byte>): (d: Option<Decoded>)
    ensures d.Some? ==> 1 <= d.value.width <= 4 && d.value.width <= |b|
  {
    if |b| == 0 then None
    else if b[0] < 0x80 then Some(Decoded(b[0], 1))
    else if 0xC2 <= b[0] <= 0xDF then
      if |b| >= 2 && IsContinuation(b[1])
      then Some(Decoded((b[0] as int - 0xC0) * 64 + (b[1] as int - 0x80), 2)) else None
    else if 0xE0 <= b[0] <= 0xEF then
      if |b| >= 3 && IsContinuation(b[1]) && IsContinuation(b[2])
      then
        var c := (b[0] as int - 0xE0) * 4096 + (b[1] as int - 0x80) * 64 + (b[2] as int - 0x80);
        if c >= 0x800 && !(0xD800 <= c <= 0xDFFF) then Some(Decoded(c, 3)) else None
      else None
    else if 0xF0 <= b[0] <= 0xF4 then
      if |b| >= 4 && IsContinuation(b[1]) && IsContinuation(b[2]) && IsContinuation(b[3])
      then
        var c := (b[0] as int - 0xF0) * 262144 + (b[1] as int - 0x80) * 4096 + (b[2] as int - 0x80) * 64 +
          (b[3] as int - 0x80);
        if 0x10000 <= c <= 0x10FFFF then Some(Decoded(c, 4)) else None
      else None
    else None
  }

  /** All scalars of `b`, or None when `b` is not UTF-8. */
  function Decode(b: seq<byte>): (s: Option<seq<Scalar>>)
    ensures s.Some? ==> |s.value| <= |b| <= 4 * |s.value|
  {
    if |b| == 0 then Some([])
    else
      match DecodeFirst(b)
      case None => None
      case Some(d) =>
        match Decode(b[d.width..])
        case None => None
        case Some(rest) => Some([d.scalar] + rest)
  }

  predicate ValidUtf8(b: seq<byte>) { Decode(b).Some? }

  /** A Rust `String`. */
  type Text = b: seq<byte> | ValidUtf8(b) witness []

  function Chars(t: Text): seq<Scalar> { Decode(t).value }

  /** `chars().count()`. */
  function CharCount(t: Text): (n: nat)
    ensures n <= |t| <= 4 * n
  {
    |Chars(t)|
  }

  predicate IsControl(c: Scalar) { c <= 0x1F || 0x7F <= c <= 0x9F }

  predicate IsWhitespace(c: Scalar) {
    0x09 <= c <= 0x0D || c == 0x20 || c == 0x85 || c == 0xA0 || c == 0x1680
    || 0x2000 <= c <= 0x200A || c == 0x2028 || c == 0x2029 || c == 0x202F || c == 0x205F || c == 0x3000
  }

  predicate AnyControl(t: Text) { exists c | c in Chars(t) :: IsControl(c) }

  predicate AnyWhitespace(t: Text) { exists c | c in Chars(t) :: IsWhitespace(c) }

  /** `trim().is_empty()`. */
  predicate IsBlank(t: Text) { forall c | c in Chars(t) :: IsWhitespace(c) }

  /** `trim() == self`. */
  predicate IsTrimmed(t: Text) {
    var s := Chars(t);
    |s| == 0 || (!IsWhitespace(s[0]) && !IsWhitespace(s[|s| - 1]))
  }

  predicate IsAscii(b: seq<byte>) { forall i | 0 <= i < |b| :: b[i] < 0x80 }

  predicate IsAlnum(x: byte) { 0x30 <= x <= 0x39 || 0x41 <= x <= 0x5A || 0x61 <= x <= 0x7A }

  function LowerByte(x: byte): byte { if 0x41 <= x <= 0x5A then x + 0x20 else x }

  /** `to_ascii_lowercase`. */
  function LowerAscii(b: seq<byte>): (r: seq<byte>)
    ensures |r| == |b|
    ensures forall i | 0 <= i < |b| :: r[i] == LowerByte(b[i])
  {
    seq(|b|, i requires 0 <= i < |b| => LowerByte(b[i]))
  }

  /** The bytes of an ASCII literal without NUL (any other character would
      become a question mark). */
  function Ascii(s: string): (b: seq<byte>)
    ensures |b| == |s|
    ensures forall i | 0 <= i < |s| :: 0 < b[i] < 128 && (0 < s[i] as int < 128 ==> b[i] == s[i] as int)
  {
    seq(|s|, i requires 0 <= i < |s| => if 0 < s[i] as int < 128 then s[i] as byte else 63)
  }

  lemma {:induction false} DecodeAscii(b: seq<byte>)
    requires IsAscii(b)
    ensures ValidUtf8(b) && |Decode(b).value| == |b|
    ensures forall i | 0 <= i < |b| :: Decode(b).value[i] == b[i]
  {
    if |b| > 0 {
      DecodeAscii(b[1..]);
      assert DecodeFirst(b) == Some(Decoded(b[0], 1));
    }
  }

  /** Decoding never looks past a scalar's own bytes. */
  lemma DecodeFirstExtends(a: seq<byte>, b: seq<byte>)
    requires DecodeFirst(a).Some?
    ensures DecodeFirst(a + b) == DecodeFirst(a)
  {
  }

  lemma {:induction false} DecodeConcat(a: seq<byte>, b: seq<byte>)
    requires ValidUtf8(a)
    ensures Decode(a + b) ==
      if ValidUtf8(b) then Some(Decode(a).value + Decode(b).value) else None
  {
    hide DecodeFirst;
    if |a| == 0 {
      assert a + b == b;
      assert ValidUtf8(b) ==> [] + Decode(b).value == Decode(b).value;
    } else {
      var d := DecodeFirst(a).value;
      DecodeFirstExtends(a, b);
      assert (a + b)[d.width..] == a[d.width..] + b;
      DecodeConcat(a[d.width..], b);
      if ValidUtf8(b) {
        assert [d.scalar] + (Decode(a[d.width..]).value + Decode(b).value) == Decode(a).value + Decode(b).value;
      }
    }
  }
}
