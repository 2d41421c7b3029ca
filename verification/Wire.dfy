/** Fixed-width and optional field values. Every encoder below states, as its
    own contract, that the matching strict parser gives the value back. */
module Wire {
  import opened Basics
  import opened Utf8
  import opened Accounts

  function Code8(bytes: seq<byte>): Result<byte> {
    if |bytes| == 1 then Ok(bytes[0]) else Err(AuthorizationMalformed)
  }

  function ParseU16(bytes: seq<byte>): Result<u16> {
    var _ :- Need(|bytes| == 2, AuthorizationMalformed);
    BeFromBe(bytes); Widths();
    Ok(FromBe(bytes))
  }

  function U16Bytes(n: u16): (b: seq<byte>)
    ensures |b| == 2 && ParseU16(b) == Ok(n)
  {
    FromBeBe(n, 2); Widths();
    Be(n, 2)
  }

  function ParseU32(bytes: seq<byte>): Result<u32> {
    var _ :- Need(|bytes| == 4, AuthorizationMalformed);
    BeFromBe(bytes); Widths();
    Ok(FromBe(bytes))
  }

  function U32Bytes(n: u32): (b: seq<byte>)
    ensures |b| == 4 && ParseU32(b) == Ok(n)
  {
    FromBeBe(n, 4); Widths();
    Be(n, 4)
  }

  function ParseU64(bytes: seq<byte>): Result<u64> {
    var _ :- Need(|bytes| == 8, AuthorizationMalformed);
    BeFromBe(bytes); Widths();
    Ok(FromBe(bytes))
  }

  function U64Bytes(n: u64): (b: seq<byte>)
    ensures |b| == 8 && ParseU64(b) == Ok(n)
  {
    FromBeBe(n, 8); Widths();
    Be(n, 8)
  }

  function ParseI64(bytes: seq<byte>): Result<i64> {
    var bits :- ParseU64(bytes);
    Ok(I64FromBits(bits))
  }

  function I64Bytes(n: i64): (b: seq<byte>)
    ensures |b| == 8 && ParseI64(b) == Ok(n)
  {
    U64Bytes(I64Bits(n))
  }

  function ParseNonZeroU32(bytes: seq<byte>): Result<NonZeroU32> {
    var n :- ParseU32(bytes);
    if n == 0 then Err(AuthorizationMalformed) else Ok(n)
  }

  function NonZeroU32Bytes(n: NonZeroU32): (b: seq<byte>)
    ensures |b| == 4 && ParseNonZeroU32(b) == Ok(n)
  {
    U32Bytes(n)
  }

  function ParseNonZeroU64(bytes: seq<byte>): Result<NonZeroU64> {
    var n :- ParseU64(bytes);
    if n == 0 then Err(AuthorizationMalformed) else Ok(n)
  }

  function NonZeroU64Bytes(n: NonZeroU64): (b: seq<byte>)
    ensures |b| == 8 && ParseNonZeroU64(b) == Ok(n)
  {
    U64Bytes(n)
  }

  function ParseOptionalU64(bytes: seq<byte>): Result<Option<u64>> {
    if bytes == [] then Ok(None) else var n :- ParseU64(bytes); Ok(Some(n))
  }

  function OptionalU64Bytes(n: Option<u64>): (b: seq<byte>)
    ensures |b| <= 8 && ParseOptionalU64(b) == Ok(n)
  {
    if n.None? then [] else U64Bytes(n.value)
  }

  function ParseUuid(bytes: seq<byte>): Result<Uuid4> {
    var _ :- Need(|bytes| == 16, AuthorizationMalformed);
    if bytes[6] / 16 != 4 then Err(InvalidInput) else Ok(bytes)
  }

  function UuidBytes(id: Uuid4): (b: seq<byte>)
    ensures |b| == 16 && ParseUuid(b) == Ok(id)
  {
    id
  }

  function ParseOptionalUuid(bytes: seq<byte>): Result<Option<Uuid4>> {
    if bytes == [] then Ok(None) else var id :- ParseUuid(bytes); Ok(Some(id))
  }

  function OptionalUuidBytes(id: Option<Uuid4>): (b: seq<byte>)
    ensures |b| <= 16 && ParseOptionalUuid(b) == Ok(id)
  {
    if id.None? then [] else id.value
  }

  function ParseBytes32(bytes: seq<byte>): Result<Bytes32> {
    if |bytes| == 32 then Ok(bytes) else Err(AuthorizationMalformed)
  }

  function Bytes32Bytes(d: Bytes32): (b: seq<byte>)
    ensures |b| == 32 && ParseBytes32(b) == Ok(d)
  {
    d
  }

  function ParseOptionalDigest(bytes: seq<byte>): Result<Option<Digest>> {
    if bytes == [] then Ok(None) else var d :- ParseBytes32(bytes); Ok(Some(d))
  }

  function OptionalDigestBytes(d: Option<Digest>): (b: seq<byte>)
    ensures |b| <= 32 && ParseOptionalDigest(b) == Ok(d)
  {
    if d.None? then [] else d.value
  }

  function ParseBool(bytes: seq<byte>): Result<bool> {
    var code :- Code8(bytes);
    if code == 0 then Ok(false) else if code == 1 then Ok(true) else Err(AuthorizationMalformed)
  }

  function BoolBytes(v: bool): (b: seq<byte>)
    ensures |b| == 1 && ParseBool(b) == Ok(v)
  {
    [if v then 1 else 0]
  }

  function ParseOptionalBool(bytes: seq<byte>): Result<Option<bool>> {
    if bytes == [] then Ok(None) else var v :- ParseBool(bytes); Ok(Some(v))
  }

  function OptionalBoolBytes(v: Option<bool>): (b: seq<byte>)
    ensures |b| <= 1 && ParseOptionalBool(b) == Ok(v)
  {
    if v.None? then [] else BoolBytes(v.value)
  }

  function ParseText(bytes: seq<byte>): Result<Text> {
    if ValidUtf8(bytes) then Ok(bytes) else Err(AuthorizationMalformed)
  }

  function TextBytes(t: Text): (b: seq<byte>)
    ensures b == t && ParseText(b) == Ok(t)
  {
    t
  }

  function ParseOptionalText(bytes: seq<byte>): Result<Option<Text>> {
    if bytes == [0] then Ok(None)
    else
      var _ :- Need(|bytes| > 0 && bytes[0] == 1, AuthorizationMalformed);
      var t :- ParseText(bytes[1..]);
      Ok(Some(t))
  }

  /** A presence byte, then the text: an absent text and an empty one differ. */
  function OptionalTextBytes(t: Option<Text>): (b: seq<byte>)
    ensures |b| == 1 + (if t.None? then 0 else |t.value|)
    ensures ParseOptionalText(b) == Ok(t)
  {
    if t.None? then [0]
    else
      assert ([1] + t.value)[1..] == t.value;
      [1] + t.value
  }

  // ----- strictness: what a parser accepts is the encoding of what it returns -----

  lemma IntegersAreStrict(bytes: seq<byte>)
    ensures ParseU16(bytes).Ok? ==> U16Bytes(ParseU16(bytes).value) == bytes
    ensures ParseU32(bytes).Ok? ==> U32Bytes(ParseU32(bytes).value) == bytes
    ensures ParseU64(bytes).Ok? ==> U64Bytes(ParseU64(bytes).value) == bytes
    ensures ParseI64(bytes).Ok? ==> I64Bytes(ParseI64(bytes).value) == bytes
  {
    BeFromBe(bytes);
  }

  lemma OptionsAreStrict(bytes: seq<byte>)
    ensures ParseOptionalUuid(bytes).Ok? ==> OptionalUuidBytes(ParseOptionalUuid(bytes).value) == bytes
    ensures ParseOptionalDigest(bytes).Ok? ==> OptionalDigestBytes(ParseOptionalDigest(bytes).value) == bytes
    ensures ParseOptionalBool(bytes).Ok? ==> OptionalBoolBytes(ParseOptionalBool(bytes).value) == bytes
    ensures ParseOptionalText(bytes).Ok? ==> OptionalTextBytes(ParseOptionalText(bytes).value) == bytes
  {
    if ParseOptionalText(bytes).Ok? && bytes != [0] {
      assert bytes == [bytes[0]] + bytes[1..];
    }
  }
}
