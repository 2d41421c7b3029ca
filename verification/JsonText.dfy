/** Measuring JSON strings and Base64 text without decoding them. */
module JsonText {
  import opened Basics
  import opened Utf8

  const QUOTE: byte := 0x22
  const BACKSLASH: byte := 0x5C

  // ----- where a string ends -----

  /** How far the closing quote is from the start of `b`, which follows the
      opening quote; `escaped` says that a backslash has just been read. */
  function StringEnd(b: seq<byte>, escaped: bool): (r: Result<nat>)
    ensures r.Ok? ==> r.value < |b|
    decreases |b|
  {
    if |b| == 0 then Err(InputDocumentIncomplete)
    else if !escaped && b[0] == QUOTE then Ok(0)
    else if !escaped && b[0] < 0x20 then Err(InvalidInput)
    else
      var rest :- StringEnd(b[1..], !escaped && b[0] == BACKSLASH);
      Ok(1 + rest)
  }

  function Shifted(r: Result<nat>, more: nat): Result<nat> {
    var n :- r;
    Ok(more + n)
  }

  /** `scan_json_string`: one pass with an escape flag. */
  method ScanJsonString(bytes: seq<byte>, start: nat) returns (r: Result<(nat, bool)>)
    requires start < |bytes|
    ensures match StringEnd(bytes[start + 1..], false)
            case Err(e) => r == Err(e)
            case Ok(n) => r == Ok((start + 1 + n, BACKSLASH in bytes[start + 1..start + 1 + n]))
  {
    hide StringEnd;
    var cursor := start + 1;
    var escaped, hasEscape := false, false;
    ghost var whole := StringEnd(bytes[start + 1..], false);
    while cursor < |bytes|
      invariant start < cursor <= |bytes|
      invariant whole == Shifted(StringEnd(bytes[cursor..], escaped), cursor - start - 1)
      invariant hasEscape || escaped <==> BACKSLASH in bytes[start + 1..cursor]
    {
      var byte := bytes[cursor];
      EndStep(bytes, cursor, escaped);
      assert bytes[start + 1..cursor + 1] == bytes[start + 1..cursor] + [byte];
      if escaped {
        escaped, hasEscape := false, true;
        cursor := cursor + 1;
        continue;
      }
      if byte == BACKSLASH {
        escaped := true;
      } else if byte == QUOTE {
        return Ok((cursor, hasEscape));
      } else if byte < 0x20 {
        return Err(InvalidInput);
      }
      cursor := cursor + 1;
    }
    EndNever(bytes, escaped);
    return Err(InputDocumentIncomplete);
  }

  lemma EndStep(bytes: seq<byte>, cursor: nat, escaped: bool)
    requires cursor < |bytes|
    ensures StringEnd(bytes[cursor..], escaped) ==
      if !escaped && bytes[cursor] == QUOTE then Ok(0)
      else if !escaped && bytes[cursor] < 0x20 then Err(InvalidInput)
      else Shifted(StringEnd(bytes[cursor + 1..], !escaped && bytes[cursor] == BACKSLASH), 1)
  {
    assert bytes[cursor..][1..] == bytes[cursor + 1..];
  }

  lemma EndNever(bytes: seq<byte>, escaped: bool)
    ensures StringEnd(bytes[|bytes|..], escaped) == Err(InputDocumentIncomplete)
  {
  }

  /** How many backslashes stand directly before position `i`. */
  function RunBefore(b: seq<byte>, i: nat): nat
    requires i <= |b|
  {
    if i > 0 && b[i - 1] == BACKSLASH then 1 + RunBefore(b, i - 1) else 0
  }

  predicate Plain(b: seq<byte>, i: nat)
    requires i <= |b|
  {
    RunBefore(b, i) % 2 == 0
  }

  /** A position the scan goes past: escaped, or neither a quote nor a control byte. */
  predicate Passes(b: seq<byte>, i: nat)
    requires i < |b|
  {
    Plain(b, i) ==> b[i] != QUOTE && b[i] >= 0x20
  }

  /** The first quote not escaped by an odd run of backslashes, with no bare
      control byte before it. */
  predicate ClosesAt(b: seq<byte>, n: nat) {
    n < |b| && b[n] == QUOTE && Plain(b, n) && forall j | 0 <= j < n :: Passes(b, j)
  }

  /** The scan stops exactly at the first unescaped quote. */
  lemma ScanFindsFirstUnescapedQuote(b: seq<byte>, n: nat)
    ensures StringEnd(b, false) == Ok(n) <==> ClosesAt(b, n)
  {
    assert b[0..] == b;
    ScanFrom(b, 0, n);
  }

  lemma PlainStep(b: seq<byte>, i: nat)
    requires i < |b|
    ensures !Plain(b, i + 1) <==> Plain(b, i) && b[i] == BACKSLASH
  {
  }

  lemma {:induction false} ScanFrom(b: seq<byte>, i: nat, n: nat)
    requires i <= |b| && forall j | 0 <= j < i :: Passes(b, j)
    ensures Shifted(StringEnd(b[i..], !Plain(b, i)), i) == Ok(n) <==> ClosesAt(b, n)
    decreases |b| - i
  {
    hide Plain;
    assert n < i ==> Passes(b, n);
    if i < |b| {
      assert b[i..][0] == b[i] && b[i..][1..] == b[i + 1..];
      if Passes(b, i) {
        PlainStep(b, i);
        ScanFrom(b, i + 1, n);
      } else {
        assert ClosesAt(b, n) ==> n <= i;
      }
    }
  }

  // ----- how many characters a string has -----

  predicate IsHex(x: byte) { 0x30 <= x <= 0x39 || 0x41 <= x <= 0x46 || 0x61 <= x <= 0x66 }

  function Nibble(x: byte): (n: nat)
    requires IsHex(x)
    ensures n < 16
  {
    if x <= 0x39 then x - 0x30 else if x <= 0x46 then x - 0x41 + 10 else x - 0x61 + 10
  }

  function ParseHexUnit(digits: seq<byte>): Result<u16> {
    if |digits| != 4 || exists i | 0 <= i < 4 :: !IsHex(digits[i]) then Err(InvalidInput)
    else Ok(((Nibble(digits[0]) * 16 + Nibble(digits[1])) * 16 + Nibble(digits[2])) * 16 + Nibble(digits[3]))
  }

  predicate IsHigh(unit: u16) { 0xD800 <= unit <= 0xDBFF }
  predicate IsLow(unit: u16) { 0xDC00 <= unit <= 0xDFFF }

  predicate IsSimpleEscape(x: byte) {
    x == QUOTE || x == BACKSLASH || x == 0x2F || x == 0x62 || x == 0x66 || x == 0x6E || x == 0x72 || x == 0x74
  }

  const LETTER_U: byte := 0x75

  /** The length of the escape at the front of `raw`, a surrogate pair being one. */
  function EscapeWidth(raw: seq<byte>): (r: Result<nat>)
    requires |raw| > 0 && raw[0] == BACKSLASH
    ensures r.Ok? ==> 2 <= r.value <= |raw|
    ensures r.Err? ==> r.error == InvalidInput
  {
    if |raw| < 2 then Err(InvalidInput)
    else if IsSimpleEscape(raw[1]) then Ok(2)
    else if raw[1] != LETTER_U || |raw| < 6 then Err(InvalidInput)
    else
      var unit :- ParseHexUnit(raw[2..6]);
      if IsHigh(unit) then
        if |raw| < 12 || raw[6] != BACKSLASH || raw[7] != LETTER_U then Err(InvalidInput)
        else
          var low :- ParseHexUnit(raw[8..12]);
          if IsLow(low) then Ok(12) else Err(InvalidInput)
      else if IsLow(unit) then Err(InvalidInput)
      else Ok(6)
  }

  /** The bytes before the next backslash. */
  function SegmentLength(raw: seq<byte>): (n: nat)
    ensures n <= |raw| && BACKSLASH !in raw[..n] && (n < |raw| ==> raw[n] == BACKSLASH)
  {
    if |raw| == 0 || raw[0] == BACKSLASH then 0
    else
      assert raw == [raw[0]] + raw[1..];
      1 + SegmentLength(raw[1..])
  }

  /** `decoded_json_string_chars`, segment by segment. */
  function CountChars(raw: seq<byte>): (r: Result<nat>)
    ensures r.Err? ==> r.error == InvalidInput
    decreases |raw|
  {
    if |raw| == 0 then Ok(0)
    else if raw[0] == BACKSLASH then
      var width :- EscapeWidth(raw);
      Shifted(CountChars(raw[width..]), 1)
    else
      var n := SegmentLength(raw);
      var _ :- Need(ValidUtf8(raw[..n]), InvalidInput);
      Shifted(CountChars(raw[n..]), CharCount(raw[..n]))
  }

  method DecodedJsonStringChars(raw: seq<byte>) returns (r: Result<nat>)
    ensures r == CountChars(raw)
  {
    hide EscapeWidth; hide ValidUtf8; hide CharCount; hide CountChars;
    if BACKSLASH !in raw {
      CountWithoutEscapes(raw);
      return if ValidUtf8(raw) then Ok(CharCount(raw)) else Err(InvalidInput);
    }
    var cursor: nat, characters: nat := 0, 0;
    assert raw[0..] == raw;
    while cursor < |raw|
      invariant cursor <= |raw|
      invariant CountChars(raw) == Shifted(CountChars(raw[cursor..]), characters)
      decreases |raw| - cursor
    {
      CountStep(raw, cursor);
      if raw[cursor] == BACKSLASH {
        var width := EscapeWidth(raw[cursor..]);
        if width.Err? { return Err(InvalidInput); }
        cursor := cursor + width.value;
        characters := characters + 1;
      } else {
        var n := SegmentLength(raw[cursor..]);
        var segment := raw[cursor..][..n];
        if !ValidUtf8(segment) { return Err(InvalidInput); }
        characters := characters + CharCount(segment);
        cursor := cursor + n;
      }
    }
    CountEnd(raw);
    return Ok(characters);
  }

  lemma CountEnd(raw: seq<byte>)
    ensures CountChars(raw[|raw|..]) == Ok(0)
  {
  }

  lemma CountStep(raw: seq<byte>, cursor: nat)
    requires cursor < |raw|
    ensures CountChars(raw[cursor..]) ==
      if raw[cursor] == BACKSLASH then
        match EscapeWidth(raw[cursor..])
        case Err(_) => Err(InvalidInput)
        case Ok(width) => Shifted(CountChars(raw[cursor + width..]), 1)
      else
        var n := SegmentLength(raw[cursor..]);
        if ValidUtf8(raw[cursor..][..n]) then Shifted(CountChars(raw[cursor + n..]),
          CharCount(raw[cursor..][..n])) else Err(InvalidInput)
  {
    hide ValidUtf8; hide CharCount;
    var b := raw[cursor..];
    if b[0] == BACKSLASH {
      assert EscapeWidth(b).Ok? ==> b[EscapeWidth(b).value..] == raw[cursor + EscapeWidth(b).value..];
    } else {
      assert b[SegmentLength(b)..] == raw[cursor + SegmentLength(b)..];
    }
  }

  lemma CountWithoutEscapes(raw: seq<byte>)
    requires BACKSLASH !in raw
    ensures CountChars(raw) == if ValidUtf8(raw) then Ok(CharCount(raw)) else Err(InvalidInput)
  {
    if |raw| > 0 {
      assert SegmentLength(raw) == |raw| && raw[..|raw|] == raw;
      assert CountChars(raw[|raw|..]) == Ok(0);
    }
  }

  // ----- the reference: decoding in two passes -----

  /** A character written out, or one UTF-16 unit written as an escape. */
  datatype Token = Char(scalar: Scalar) | Unit(unit: u16)

  function SimpleValue(x: byte): Scalar {
    match x case 0x62 => 0x08 case 0x66 => 0x0C case 0x6E => 0x0A case 0x72 => 0x0D case 0x74 => 0x09 case _ => x
  }

  function Cons<T>(head: T, tail: Option<seq<T>>): Option<seq<T>> {
    if tail.None? then None else Some([head] + tail.value)
  }

  /** First pass: characters and escapes (section 7 of RFC 8259). */
  function Tokens(raw: seq<byte>): Option<seq<Token>>
    decreases |raw|
  {
    if |raw| == 0 then Some([])
    else if raw[0] == BACKSLASH then
      if |raw| >= 2 && IsSimpleEscape(raw[1]) then Cons(Char(SimpleValue(raw[1])), Tokens(raw[2..]))
      else if |raw| >= 6 && raw[1] == LETTER_U && ParseHexUnit(raw[2..6]).Ok? then
        Cons(Unit(ParseHexUnit(raw[2..6]).value), Tokens(raw[6..]))
      else None
    else
      match DecodeFirst(raw)
      case None => None
      case Some(d) => Cons(Char(d.scalar), Tokens(raw[d.width..]))
  }

  /** Second pass: surrogate pairs become one scalar, stray surrogates are refused. */
  function Paired(ts: seq<Token>): Option<seq<Scalar>>
    decreases |ts|
  {
    if |ts| == 0 then Some([])
    else
      match ts[0]
      case Char(c) => Cons(c, Paired(ts[1..]))
      case Unit(u) =>
        if IsHigh(u) then
          if |ts| >= 2 && ts[1].Unit? && IsLow(ts[1].unit)
          then Cons(0x10000 + (u - 0xD800) * 0x400 + (ts[1].unit - 0xDC00) as int, Paired(ts[2..]))
          else None
        else if IsLow(u) then None
        else Cons(u, Paired(ts[1..]))
  }

  /** The decoded string. */
  function DecodeString(raw: seq<byte>): Option<seq<Scalar>> {
    match Tokens(raw) case None => None case Some(ts) => Paired(ts)
  }

  /** `n` characters, or no string at all. */
  predicate Agree(count: Result<nat>, decoded: Option<seq<Scalar>>) {
    match count case Err(_) => decoded.None? case Ok(n) => decoded.Some? && |decoded.value| == n
  }

  /** Counting without decoding: the count is defined exactly when the string
      decodes, and is then its number of Unicode scalars, a surrogate pair
      counting once. */
  lemma {:induction false} CountIsDecodedLength(raw: seq<byte>)
    ensures Agree(CountChars(raw), DecodeString(raw))
    decreases |raw|
  {
    hide ParseHexUnit; hide IsSimpleEscape; hide SimpleValue; hide DecodeFirst; hide ValidUtf8; hide CharCount;
    hide SegmentLength;
    hide IsHigh; hide IsLow;
    if |raw| > 0 {
      if raw[0] == BACKSLASH {
        EscapeTokens(raw);
        if EscapeWidth(raw).Ok? {
          CountIsDecodedLength(raw[EscapeWidth(raw).value..]);
        }
      } else {
        var n := SegmentLength(raw);
        assert raw == raw[..n] + raw[n..];
        assert n > 0;
        SegmentTokens(raw[..n], raw[n..]);
        CountIsDecodedLength(raw[n..]);
      }
    }
  }

  /** One escape, or one pair of them, is one decoded character. */
  lemma EscapeTokens(raw: seq<byte>)
    requires |raw| > 0 && raw[0] == BACKSLASH
    ensures match EscapeWidth(raw)
            case Err(_) => DecodeString(raw).None?
            case Ok(w) =>
              var rest := DecodeString(raw[w..]);
              (DecodeString(raw).Some? <==> rest.Some?)
              && (rest.Some? ==> |DecodeString(raw).value| == 1 + |rest.value|)
  {
    hide ParseHexUnit; hide IsSimpleEscape; hide SimpleValue; hide DecodeFirst;
    LetterU();
    if IsUnit(raw) {
      UnitToken(raw);
      var next := raw[6..];
      assert Tokens(next).Some? ==> Tokens(raw).value[1..] == Tokens(next).value;
      if |next| >= 6 {
        assert next[2..6] == raw[8..12] && next[6..] == raw[12..];
      }
      if IsUnit(next) {
        UnitToken(next);
        assert Tokens(next).Some? ==> Tokens(raw).value[2..] == Tokens(raw[12..]).value;
      } else if Tokens(next).Some? {
        OnlyUnitsAreUnits(next);
      }
    }
  }

  predicate IsUnit(raw: seq<byte>) {
    |raw| >= 6 && raw[0] == BACKSLASH && raw[1] == LETTER_U && ParseHexUnit(raw[2..6]).Ok?
  }

  lemma UnitToken(raw: seq<byte>)
    requires IsUnit(raw)
    ensures Tokens(raw) == Cons(Unit(ParseHexUnit(raw[2..6]).value), Tokens(raw[6..]))
  {
    hide ParseHexUnit; hide IsSimpleEscape;
    LetterU();
  }

  lemma OnlyUnitsAreUnits(raw: seq<byte>)
    requires !IsUnit(raw) && Tokens(raw).Some?
    ensures |Tokens(raw).value| > 0 ==> Tokens(raw).value[0].Char?
  {
    hide ParseHexUnit; hide IsSimpleEscape; hide DecodeFirst;
  }

  lemma LetterU()
    ensures !IsSimpleEscape(LETTER_U)
  {
  }

  /** A segment without backslashes decodes character by character, and a
      sequence cut short by a backslash is no character. */
  lemma {:induction false} SegmentTokens(seg: seq<byte>, rest: seq<byte>)
    requires BACKSLASH !in seg && (|rest| > 0 ==> rest[0] == BACKSLASH)
    ensures !ValidUtf8(seg) ==> DecodeString(seg + rest).None?
    ensures ValidUtf8(seg) ==>
      (DecodeString(seg + rest).Some? <==> DecodeString(rest).Some?)
      && (DecodeString(rest).Some? ==> |DecodeString(seg + rest).value| == CharCount(seg) + |DecodeString(rest).value|)
    decreases |seg|
  {
    hide DecodeFirst;
    if |seg| == 0 {
      assert seg + rest == rest;
    } else {
      DecodeFirstCut(seg, rest);
      var all := seg + rest;
      assert all[0] == seg[0] && seg[0] != BACKSLASH;
      if DecodeFirst(seg).Some? {
        var w := DecodeFirst(seg).value.width;
        assert all[w..] == seg[w..] + rest;
        SegmentTokens(seg[w..], rest);
      }
    }
  }

  lemma DecodeFirstCut(seg: seq<byte>, rest: seq<byte>)
    requires |seg| > 0 && BACKSLASH !in seg && (|rest| > 0 ==> rest[0] == BACKSLASH)
    ensures DecodeFirst(seg + rest) == DecodeFirst(seg)
  {
    var all := seg + rest;
    assert forall i | 0 <= i < |seg| :: all[i] == seg[i];
    assert |rest| > 0 ==> all[|seg|] == BACKSLASH;
  }

  // ----- Base64 -----

  const PAD: byte := 0x3D

  predicate IsBase64(x: byte) { IsAlnum(x) || x == 0x2B || x == 0x2F }

  function Padding(raw: seq<byte>): (n: nat)
    requires |raw| >= 2
    ensures n <= 2
  {
    if raw[|raw| - 1] == PAD then if raw[|raw| - 2] == PAD then 2 else 1 else 0
  }

  /** `canonical_base64_decoded_len`. */
  function Base64Length(raw: seq<byte>): Result<nat> {
    if |raw| == 0 then Ok(0)
    else
      var _ :- Need(|raw| % 4 == 0, InvalidInput);
      var padding := Padding(raw);
      var content := |raw| - padding;
      var _ :- Need(forall i | 0 <= i < content :: IsBase64(raw[i]), InvalidInput);
      var _ :- Need(forall i | content <= i < |raw| :: raw[i] == PAD, InvalidInput);
      Ok(|raw| / 4 * 3 - padding)
  }

  /** The value of one Base64 digit (table 1 of RFC 4648). */
  function Digit(x: byte): (d: nat)
    requires IsBase64(x)
    ensures d < 64
  {
    if 0x41 <= x <= 0x5A then x - 0x41
    else if 0x61 <= x <= 0x7A then x - 0x61 + 26
    else if 0x30 <= x <= 0x39 then x - 0x30 + 52
    else if x == 0x2B then 62 else 63
  }

  /** The bytes of one group of four, the last one possibly padded; the bits a
      padded group leaves over are dropped. */
  function Group(a: byte, b: byte, c: byte, d: byte, last: bool): Option<seq<byte>> {
    if !IsBase64(a) || !IsBase64(b) then None
    else
      var first := Digit(a) * 4 + Digit(b) / 16;
      if last && c == PAD && d == PAD then Some([first])
      else if !IsBase64(c) then None
      else
        var second := Digit(b) % 16 * 16 + Digit(c) / 4;
        if last && d == PAD then Some([first, second])
        else if !IsBase64(d) then None
        else Some([first, second, Digit(c) % 4 * 64 + Digit(d)])
  }

  /** Section 4 of RFC 4648, without looking at the bits left over. */
  function DecodeBase64(raw: seq<byte>): Option<seq<byte>> {
    if |raw| == 0 then Some([])
    else if |raw| < 4 then None
    else
      match Group(raw[0], raw[1], raw[2], raw[3], |raw| == 4)
      case None => None
      case Some(bytes) =>
        match DecodeBase64(raw[4..])
        case None => None
        case Some(rest) => Some(bytes + rest)
  }

  /** Whether the bits left over by a padded last group are zero. */
  predicate TrailingBitsClear(raw: seq<byte>) {
    |raw| < 4 ||
      var b, c, d := raw[|raw| - 3], raw[|raw| - 2], raw[|raw| - 1];
      if c == PAD && d == PAD then IsBase64(b) ==> Digit(b) % 16 == 0
      else d == PAD ==> IsBase64(c) ==> Digit(c) % 4 == 0
  }

  /** The digit for six bits. */
  function DigitChar(d: nat): (x: byte)
    requires d < 64
    ensures IsBase64(x) && x != PAD && Digit(x) == d
  {
    if d < 26 then d + 0x41 else if d < 52 then d - 26 + 0x61 else if d < 62 then d - 52 + 0x30
    else if d == 62 then 0x2B else 0x2F
  }

  /** The encoding of section 4 of RFC 4648: three bytes at a time, the last
      group padded with zero bits and `=`. */
  function EncodeBase64(b: seq<byte>): seq<byte> {
    if |b| == 0 then []
    else if |b| == 1 then [DigitChar(b[0] / 4), DigitChar(b[0] % 4 * 16), PAD, PAD]
    else if |b| == 2 then
      [DigitChar(b[0] / 4), DigitChar(b[0] % 4 * 16 + b[1] / 16), DigitChar(b[1] % 16 * 4), PAD]
    else Quad(b[0], b[1], b[2]) + EncodeBase64(b[3..])
  }

  /** Three bytes as four digits. */
  function Quad(x: byte, y: byte, z: byte): (q: seq<byte>)
    ensures |q| == 4
  {
    [DigitChar(x / 4), DigitChar(x % 4 * 16 + y / 16), DigitChar(y % 16 * 4 + z / 64), DigitChar(z % 64)]
  }

  /** A decoder that insists on canonical text: text that encoding gives back. */
  function StrictDecodeBase64(raw: seq<byte>): Option<seq<byte>> {
    match DecodeBase64(raw)
    case None => None
    case Some(bytes) => if EncodeBase64(bytes) == raw then Some(bytes) else None
  }

  lemma DigitBack(x: byte)
    requires IsBase64(x)
    ensures DigitChar(Digit(x)) == x && x != PAD
  {
  }

  /** A group of four digits is the encoding of its three bytes, and the other
      way round. */
  lemma FullGroup(a: byte, b: byte, c: byte, d: byte, last: bool)
    requires Group(a, b, c, d, last).Some? && |Group(a, b, c, d, last).value| == 3
    ensures var g := Group(a, b, c, d, last).value; Quad(g[0], g[1], g[2]) == [a, b, c, d] && d != PAD
  {
    hide Digit; hide DigitChar; hide IsBase64;
    DigitBack(a); DigitBack(b); DigitBack(c); DigitBack(d);
    SixesOfEights(Digit(a), Digit(b), Digit(c), Digit(d));
  }

  /** Four sixes of bits as three eights, and back. */
  lemma SixesOfEights(p: nat, q: nat, r: nat, s: nat)
    requires p < 64 && q < 64 && r < 64 && s < 64
    ensures var x, y, z := p * 4 + q / 16, q % 16 * 16 + r / 4, r % 4 * 64 + s;
      x / 4 == p && x % 4 * 16 + y / 16 == q && y % 16 * 4 + z / 64 == r && z % 64 == s
  {
    var x, y, z := p * 4 + q / 16, q % 16 * 16 + r / 4, r % 4 * 64 + s;
    assert x / 4 == p && x % 4 == q / 16;
    assert y / 16 == q % 16 && y % 16 == r / 4;
    assert z / 64 == r % 4 && z % 64 == s;
  }

  lemma QuadDecodes(x: byte, y: byte, z: byte, last: bool)
    ensures var q := Quad(x, y, z); Group(q[0], q[1], q[2], q[3], last) == Some([x, y, z])
  {
    hide Digit; hide DigitChar; hide IsBase64;
  }

  /** A padded group is the encoding of its bytes exactly when its left-over bits are zero. */
  lemma PaddedGroup(raw: seq<byte>)
    requires |raw| == 4 && Group(raw[0], raw[1], raw[2], raw[3], true).Some?
    requires |Group(raw[0], raw[1], raw[2], raw[3], true).value| != 3
    ensures EncodeBase64(Group(raw[0], raw[1], raw[2], raw[3], true).value) == raw <==> TrailingBitsClear(raw)
  {
    hide Digit; hide DigitChar; hide IsBase64;
    var g := Group(raw[0], raw[1], raw[2], raw[3], true).value;
    if |g| == 2 { HalfGroup(raw, g); } else { QuarterGroup(raw, g); }
  }

  lemma HalfGroup(raw: seq<byte>, g: seq<byte>)
    requires |raw| == 4 && Group(raw[0], raw[1], raw[2], raw[3], true) == Some(g) && |g| == 2
    ensures EncodeBase64(g) == raw <==> TrailingBitsClear(raw)
  {
    hide Digit; hide DigitChar; hide IsBase64; hide EncodeBase64; hide TrailingBitsClear;
    assert IsBase64(raw[0]) && IsBase64(raw[1]) && IsBase64(raw[2]) && raw[3] == PAD;
    DigitBack(raw[0]); DigitBack(raw[1]); DigitBack(raw[2]);
    var p, q, r := Digit(raw[0]), Digit(raw[1]), Digit(raw[2]);
    assert g[0] == p * 4 + q / 16 && g[1] == q % 16 * 16 + r / 4;
    SixesOfEights(p, q, r, 0);
    TwoEncoded(g, p, q, r / 4 * 4);
    assert TrailingBitsClear(raw) <==> r % 4 == 0 by { HalfBits(raw); }
    assert DigitChar(r / 4 * 4) == raw[2] <==> r / 4 * 4 == r;
    assert raw == [raw[0], raw[1], raw[2], PAD];
  }

  lemma HalfBits(raw: seq<byte>)
    requires |raw| == 4 && IsBase64(raw[2]) && raw[2] != PAD && raw[3] == PAD
    ensures TrailingBitsClear(raw) <==> Digit(raw[2]) % 4 == 0
  {
    hide Digit; hide IsBase64;
  }

  lemma TwoEncoded(g: seq<byte>, p: nat, q: nat, r: nat)
    requires |g| == 2 && p < 64 && q < 64 && r < 64
    requires g[0] / 4 == p && g[0] % 4 * 16 + g[1] / 16 == q && g[1] % 16 * 4 == r
    ensures EncodeBase64(g) == [DigitChar(p), DigitChar(q), DigitChar(r), PAD]
  {
    hide DigitChar;
  }

  lemma QuarterGroup(raw: seq<byte>, g: seq<byte>)
    requires |raw| == 4 && Group(raw[0], raw[1], raw[2], raw[3], true) == Some(g) && |g| == 1
    ensures EncodeBase64(g) == raw <==> TrailingBitsClear(raw)
  {
    hide Digit; hide DigitChar; hide IsBase64; hide Quad;
    DigitBack(raw[0]); DigitBack(raw[1]);
    SixesOfEights(Digit(raw[0]), Digit(raw[1]), 0, 0);
    var second := Digit(raw[1]) / 16 * 16;
    assert EncodeBase64(g) == [raw[0], DigitChar(second), PAD, PAD];
    assert DigitChar(second) == raw[1] <==> second == Digit(raw[1]);
  }

  lemma PaddedDecodes(b: seq<byte>)
    requires 1 <= |b| <= 2
    ensures var q := EncodeBase64(b); |q| == 4 && Group(q[0], q[1], q[2], q[3], true) == Some(b)
  {
    hide Digit; hide DigitChar; hide IsBase64;
    assert b == if |b| == 1 then [b[0]] else [b[0], b[1]];
  }

  /** Encoding is undone by decoding. */
  lemma {:induction false} Base64RoundTrip(b: seq<byte>)
    ensures DecodeBase64(EncodeBase64(b)) == Some(b)
    decreases |b|
  {
    hide Digit; hide DigitChar; hide Group; hide Quad;
    var raw := EncodeBase64(b);
    if |b| >= 3 {
      Base64RoundTrip(b[3..]);
      assert raw[4..] == EncodeBase64(b[3..]);
      QuadDecodes(b[0], b[1], b[2], |raw| == 4);
      assert b == [b[0], b[1], b[2]] + b[3..];
    } else if |b| > 0 {
      PaddedDecodes(b);
      assert raw[4..] == [] && DecodeBase64(raw[4..]) == Some([]);
      assert b + [] == b;
    }
  }

  /** Canonical text is exactly text whose left-over bits are zero: it is what
      encoding the decoded bytes gives back. */
  lemma {:induction false} CanonicalBase64(raw: seq<byte>)
    requires DecodeBase64(raw).Some?
    ensures TrailingBitsClear(raw) <==> EncodeBase64(DecodeBase64(raw).value) == raw
    decreases |raw|
  {
    hide Group; hide Digit; hide TrailingBitsClear; hide Quad; hide DigitChar;
    if |raw| > 0 {
      var rest := raw[4..];
      var group := Group(raw[0], raw[1], raw[2], raw[3], |raw| == 4).value;
      var bytes := DecodeBase64(rest).value;
      CanonicalBase64(rest);
      GroupSizes(raw[0], raw[1], raw[2], raw[3], |raw| == 4);
      if |group| == 3 {
        FullGroup(raw[0], raw[1], raw[2], raw[3], |raw| == 4);
        assert (group + bytes)[3..] == bytes;
        assert raw == [raw[0], raw[1], raw[2], raw[3]] + rest;
        TrailingBitsOfRest(raw);
      } else {
        assert group + bytes == group;
        PaddedGroup(raw);
      }
    } else {
      NoTrailingBits(raw);
    }
  }

  lemma GroupSizes(a: byte, b: byte, c: byte, d: byte, last: bool)
    requires Group(a, b, c, d, last).Some?
    ensures 1 <= |Group(a, b, c, d, last).value| <= 3
    ensures !last ==> |Group(a, b, c, d, last).value| == 3
  {
    hide Digit;
  }

  lemma NoTrailingBits(raw: seq<byte>)
    requires |raw| < 4
    ensures TrailingBitsClear(raw)
  {
  }

  lemma TrailingBitsOfRest(raw: seq<byte>)
    requires |raw| >= 4 && DecodeBase64(raw).Some? && raw[3] != PAD
    ensures TrailingBitsClear(raw) <==> TrailingBitsClear(raw[4..])
  {
    hide Digit; hide Group;
    var rest := raw[4..];
    if |rest| >= 4 {
      assert forall i | 0 <= i < |rest| :: rest[i] == raw[i + 4];
    }
  }

  /** The length without decoding: defined exactly when the text decodes, and
      then the length of the decoded bytes. */
  lemma {:induction false} Base64LengthIsDecodedLength(raw: seq<byte>)
    ensures match Base64Length(raw)
            case Err(_) => DecodeBase64(raw).None?
            case Ok(n) => DecodeBase64(raw).Some? && |DecodeBase64(raw).value| == n
    decreases |raw|
  {
    hide Digit; hide Base64Length; hide Group;
    if |raw| == 0 || 0 < |raw| < 4 {
      assert Base64Length(raw) == if |raw| == 0 then Ok(0) else Err(InvalidInput) by { ShortLength(raw); }
    } else {
      Base64LengthIsDecodedLength(raw[4..]);
      LengthByGroup(raw);
    }
  }

  lemma ShortLength(raw: seq<byte>)
    requires |raw| < 4
    ensures Base64Length(raw) == if |raw| == 0 then Ok(0) else Err(InvalidInput)
  {
  }

  /** The length, group by group. */
  lemma LengthByGroup(raw: seq<byte>)
    requires |raw| >= 4
    ensures var group := Group(raw[0], raw[1], raw[2], raw[3], |raw| == 4);
      Base64Length(raw) ==
        if group.None? || Base64Length(raw[4..]).Err? then Err(InvalidInput)
        else Ok(|group.value| + Base64Length(raw[4..]).value)
  {
    hide Digit;
    if |raw| >= 8 {
      var rest := raw[4..];
      assert Padding(rest) == Padding(raw);
      assert forall i | 0 <= i < |rest| :: rest[i] == raw[i + 4];
      assert forall i | 4 <= i < |raw| :: raw[i] == rest[i - 4];
    }
  }

  /** The name notwithstanding, the function also accepts text that is not
      canonical: a decoder that insists on text that encoding gives back accepts
      exactly those texts whose left-over bits are clear, with the same length. */
  lemma Base64LengthMeetsStrictDecoder(raw: seq<byte>)
    ensures StrictDecodeBase64(raw).Some? <==> Base64Length(raw).Ok? && TrailingBitsClear(raw)
    ensures StrictDecodeBase64(raw).Some? ==> Base64Length(raw) == Ok(|StrictDecodeBase64(raw).value|)
  {
    hide Base64Length; hide TrailingBitsClear;
    Base64LengthIsDecodedLength(raw);
    if DecodeBase64(raw).Some? { CanonicalBase64(raw); }
  }

  /** "QR==" is counted as one byte, and that byte encodes to "QQ==". */
  lemma Base64AcceptsTrailingBits()
    ensures var raw := [0x51, 0x52, PAD, PAD];
      && Base64Length(raw) == Ok(1) && DecodeBase64(raw) == Some([0x41])
      && EncodeBase64([0x41]) == [0x51, 0x51, PAD, PAD] && StrictDecodeBase64(raw).None?
  {
    var raw: seq<byte> := [0x51, 0x52, PAD, PAD];
    assert raw[4..] == [] && DecodeBase64(raw[4..]) == Some([]);
    assert Group(0x51, 0x52, PAD, PAD, true) == Some([0x41]);
    assert [0x41] + [] == [0x41];
    assert [0x51, 0x52, PAD, PAD][1] != [0x51, 0x51, PAD, PAD][1];
  }
}
