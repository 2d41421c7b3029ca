/** The tag/length/value framing of every canonical transcript, and the
    ordinal-numbered lists nested inside it. */
module Framing {
  import opened Basics

  const MAX_TRANSCRIPT_FIELDS := 256

  // ----- records: a 16-bit head, a 32-bit length, a payload -----

  function RecordBytes(head: nat, payload: seq<byte>): (b: seq<byte>)
    ensures |b| == 6 + |payload|
  {
    Be(head, 2) + Be(|payload|, 4) + payload
  }

  datatype Record = Record(head: u16, payload: seq<byte>, tail: seq<byte>)

  /** The record at the front of `b` and what follows it. */
  function SplitRecord(b: seq<byte>): (r: Option<Record>)
    ensures r.Some? ==> |b| == 6 + |r.value.payload| + |r.value.tail|
  {
    if |b| < 6 then None
    else
      var length := FromBe(b[2..6]);
      if |b| < 6 + length then None
      else
        BeFromBe(b[..2]); Widths();
        Some(Record(FromBe(b[..2]), b[6..6 + length], b[6 + length..]))
  }

  lemma SplitOfRecordBytes(head: u16, payload: seq<byte>, tail: seq<byte>)
    requires |payload| <= U32_MAX
    ensures SplitRecord(RecordBytes(head, payload) + tail) == Some(Record(head, payload, tail))
  {
    var b := RecordBytes(head, payload) + tail;
    Widths();
    FromBeBe(head, 2);
    FromBeBe(|payload|, 4);
    assert b[..2] == Be(head, 2);
    assert b[2..6] == Be(|payload|, 4);
    assert b[6..6 + |payload|] == payload;
    assert b[6 + |payload|..] == tail;
  }

  lemma RecordBytesOfSplit(b: seq<byte>)
    requires SplitRecord(b).Some?
    ensures var r := SplitRecord(b).value; RecordBytes(r.head, r.payload) + r.tail == b && |r.payload| <= U32_MAX
  {
    Widths();
    BeFromBe(b[..2]);
    BeFromBe(b[2..6]);
    var r := SplitRecord(b).value;
    assert b == b[..2] + b[2..6] + r.payload + r.tail;
  }

  // ----- the wire format, independently of any encoder or parser -----

  datatype Field = Field(tag: u16, value: seq<byte>)

  function FieldBytes(f: Field): seq<byte> {
    RecordBytes(f.tag, f.value)
  }

  function BodyBytes(fields: seq<Field>): seq<byte> {
    if |fields| == 0 then [] else FieldBytes(fields[0]) + BodyBytes(fields[1..])
  }

  function Transcript(domain: seq<byte>, fields: seq<Field>): seq<byte> {
    domain + Be(|fields|, 2) + BodyBytes(fields)
  }

  predicate Increasing(fields: seq<Field>) {
    forall i, j | 0 <= i < j < |fields| :: fields[i].tag < fields[j].tag
  }

  predicate Encodable(fields: seq<Field>) {
    && |fields| <= U16_MAX
    && Increasing(fields)
    && forall i | 0 <= i < |fields| :: |fields[i].value| <= U32_MAX
  }

  // ----- encode_fields -----

  function EncodeFrom(previous: Option<u16>, fields: seq<Field>): Result<seq<byte>>
    decreases |fields|
  {
    if |fields| == 0 then Ok([])
    else
      var f := fields[0];
      var _ :- Need(previous.None? || previous.value < f.tag, InvalidInput);
      var _ :- Need(|f.value| <= U32_MAX, ResourceLimit);
      var rest :- EncodeFrom(Some(f.tag), fields[1..]);
      Ok(FieldBytes(f) + rest)
  }

  function EncodeFields(domain: seq<byte>, fields: seq<Field>): Result<seq<byte>> {
    var _ :- Need(|fields| <= U16_MAX, ResourceLimit);
    Prepend(domain + Be(|fields|, 2), EncodeFrom(None, fields))
  }

  /** `encode_fields` as the source runs it: one pass that appends to `output`. */
  method EncodeFieldsLoop(domain: seq<byte>, fields: seq<Field>) returns (r: Result<seq<byte>>)
    ensures r == EncodeFields(domain, fields)
  {
    if |fields| > U16_MAX {
      return Err(ResourceLimit);
    }
    hide RecordBytes;
    hide Prepend;
    hide EncodeFrom;
    var output := domain + Be(|fields|, 2);
    ghost var all := Prepend(output, EncodeFrom(None, fields));
    var previous: Option<u16> := None;
    assert fields[0..] == fields;
    for i := 0 to |fields|
      invariant all == Prepend(output, EncodeFrom(previous, fields[i..]))
    {
      var tag, value := fields[i].tag, fields[i].value;
      EncodeFromStep(output, previous, fields, i);
      if previous.Some? && tag <= previous.value {
        return Err(InvalidInput);
      }
      if |value| > U32_MAX {
        return Err(ResourceLimit);
      }
      previous := Some(tag);
      output := output + RecordBytes(tag, value);
    }
    EncodeFromEnd(output, previous, fields);
    return Ok(output);
  }

  lemma EncodeFromStep(body: seq<byte>, previous: Option<u16>, fields: seq<Field>, i: nat)
    requires i < |fields|
    ensures Prepend(body, EncodeFrom(previous, fields[i..])) ==
      if previous.Some? && fields[i].tag <= previous.value then Err(InvalidInput)
      else if |fields[i].value| > U32_MAX then Err(ResourceLimit)
      else Prepend(body + FieldBytes(fields[i]), EncodeFrom(Some(fields[i].tag), fields[i + 1..]))
  {
    hide RecordBytes;
    assert fields[i..][0] == fields[i] && fields[i..][1..] == fields[i + 1..];
    PrependConcat(body, FieldBytes(fields[i]), EncodeFrom(Some(fields[i].tag), fields[i + 1..]));
  }

  lemma EncodeFromEnd(body: seq<byte>, previous: Option<u16>, fields: seq<Field>)
    ensures Prepend(body, EncodeFrom(previous, fields[|fields|..])) == Ok(body)
  {
    assert body + [] == body;
  }

  function Prepend(prefix: seq<byte>, r: Result<seq<byte>>): Result<seq<byte>> {
    var b :- r;
    Ok(prefix + b)
  }

  lemma PrependConcat(a: seq<byte>, b: seq<byte>, r: Result<seq<byte>>)
    ensures Prepend(a + b, r) == Prepend(a, Prepend(b, r))
  {
    if r.Ok? {
      assert a + b + r.value == a + (b + r.value);
    }
  }

  /** Encoding succeeds exactly on strictly increasing tags within the integer
      widths, and then produces the wire format. */
  lemma EncodeFieldsExact(domain: seq<byte>, fields: seq<Field>)
    ensures EncodeFields(domain, fields).Ok? <==> Encodable(fields)
    ensures Encodable(fields) ==> EncodeFields(domain, fields) == Ok(Transcript(domain, fields))
  {
    EncodeFromExact(None, fields);
  }

  lemma {:induction false} EncodeFromExact(previous: Option<u16>, fields: seq<Field>)
    ensures EncodeFrom(previous, fields).Ok? <==>
      && Increasing(fields)
      && (forall i | 0 <= i < |fields| :: |fields[i].value| <= U32_MAX)
      && (previous.Some? && |fields| > 0 ==> previous.value < fields[0].tag)
    ensures EncodeFrom(previous, fields).Ok? ==> EncodeFrom(previous, fields).value == BodyBytes(fields)
    decreases |fields|
  {
    if |fields| > 0 {
      EncodeFromExact(Some(fields[0].tag), fields[1..]);
      assert forall i | 1 <= i < |fields| :: fields[i] == fields[1..][i - 1];
    }
  }

  // ----- take and parse_fields_any -----

  /** `take`: a slice at the cursor, which then moves past it. */
  method Take(bytes: seq<byte>, cursor: nat, length: nat) returns (r: Result<seq<byte>>, next: nat)
    requires cursor <= |bytes|
    ensures r.Ok? <==> cursor + length <= |bytes|
    ensures r.Ok? ==> r.value == bytes[cursor..cursor + length] && next == cursor + length
    ensures r.Err? ==> r.error == AuthorizationMalformed && next == cursor
  {
    if cursor + length > |bytes| {
      return Err(AuthorizationMalformed), cursor;
    }
    return Ok(bytes[cursor..cursor + length]), cursor + length;
  }

  /** The three `take` calls both parsing loops make for one record: all their
      failures carry the same error code. */
  method TakeRecord(bytes: seq<byte>, cursor: nat) returns (head: u16, payload: Result<seq<byte>>, next: nat)
    requires cursor <= |bytes|
    ensures cursor <= next <= |bytes|
    ensures match SplitRecord(bytes[cursor..])
            case None => payload == Err(AuthorizationMalformed)
            case Some(r) => r == Record(head, r.payload, bytes[next..]) && payload == Ok(r.payload)
  {
    ghost var here := bytes[cursor..];
    var taken;
    head := 0;
    taken, next := Take(bytes, cursor, 2);
    if taken.Err? { return 0, taken, next; }
    assert taken.value == here[..2];
    BeFromBe(taken.value);
    Widths();
    head := FromBe(taken.value);
    taken, next := Take(bytes, next, 4);
    if taken.Err? { return 0, taken, next; }
    assert taken.value == here[2..6];
    var length := FromBe(taken.value);
    payload, next := Take(bytes, next, length);
    if payload.Ok? {
      assert payload.value == here[6..6 + length];
      assert bytes[next..] == here[6 + length..];
    }
  }

  datatype Rest<T> = Rest(items: seq<T>, tail: seq<byte>)

  /** Read `count` fields from the front of `b`. */
  function ParseBody(b: seq<byte>, count: nat, previous: Option<u16>): Result<Rest<Field>>
    decreases count
  {
    if count == 0 then Ok(Rest([], b))
    else
      match SplitRecord(b)
      case None => Err(AuthorizationMalformed)
      case Some(r) =>
        if previous.Some? && r.head <= previous.value then Err(AuthorizationMalformed)
        else PrependItems([Field(r.head, r.payload)], ParseBody(r.tail, count - 1, Some(r.head)))
  }

  function ParseFieldsAny(bytes: seq<byte>, domain: seq<byte>): Result<seq<Field>> {
    var _ :- Need(domain <= bytes, AuthorizationMalformed);
    var b := bytes[|domain|..];
    var _ :- Need(|b| >= 2, AuthorizationMalformed);
    var count := FromBe(b[..2]);
    var _ :- Need(count <= MAX_TRANSCRIPT_FIELDS, ResourceLimit);
    var rest :- ParseBody(b[2..], count, None);
    var _ :- Need(rest.tail == [], AuthorizationMalformed);
    Ok(rest.items)
  }

  function PrependItems<T>(prefix: seq<T>, r: Result<Rest<T>>): Result<Rest<T>> {
    var rest :- r;
    Ok(Rest(prefix + rest.items, rest.tail))
  }

  lemma PrependItemsConcat<T>(a: seq<T>, b: seq<T>, r: Result<Rest<T>>)
    ensures PrependItems(a + b, r) == PrependItems(a, PrependItems(b, r))
  {
    if r.Ok? {
      assert a + b + r.value.items == a + (b + r.value.items);
    }
  }

  /** `parse_fields_any` as the source runs it: one loop over a moving cursor. */
  method ParseFieldsAnyLoop(bytes: seq<byte>, domain: seq<byte>) returns (r: Result<seq<Field>>)
    ensures r == ParseFieldsAny(bytes, domain)
  {
    if !(domain <= bytes) {
      return Err(AuthorizationMalformed);
    }
    var taken, cursor := Take(bytes, |domain|, 2);
    if taken.Err? { return Err(taken.error); }
    assert taken.value == bytes[|domain|..][..2];
    var count := FromBe(taken.value);
    if count > MAX_TRANSCRIPT_FIELDS {
      return Err(ResourceLimit);
    }
    assert bytes[cursor..] == bytes[|domain|..][2..];
    var fields;
    fields, cursor := ParseBodyLoop(bytes, cursor, count);
    if fields.Ok? && cursor != |bytes| {
      return Err(AuthorizationMalformed);
    }
    return fields;
  }

  method ParseBodyLoop(bytes: seq<byte>, start: nat, count: nat) returns (r: Result<seq<Field>>, cursor: nat)
    requires start <= |bytes|
    ensures cursor <= |bytes|
    ensures ParseBody(bytes[start..], count, None) ==
      match r case Err(error) => Err(error) case Ok(fields) => Ok(Rest(fields, bytes[cursor..]))
  {
    hide SplitRecord;
    cursor := start;
    var fields: seq<Field> := [];
    var previous: Option<u16> := None;
    PrependNothing(ParseBody(bytes[start..], count, None));
    for i := 0 to count
      invariant cursor <= |bytes|
      invariant ParseBody(bytes[start..], count, None) ==
        PrependItems(fields, ParseBody(bytes[cursor..], count - i, previous))
    {
      var tag, value;
      tag, value, cursor := TakeRecord(bytes, cursor);
      if value.Err? { return Err(value.error), cursor; }
      if previous.Some? && tag <= previous.value {
        return Err(AuthorizationMalformed), cursor;
      }
      previous := Some(tag);
      PrependItemsConcat(fields, [Field(tag, value.value)], ParseBody(bytes[cursor..], count - i - 1, previous));
      fields := fields + [Field(tag, value.value)];
    }
    assert fields + [] == fields;
    return Ok(fields), cursor;
  }

  lemma PrependNothing<T>(r: Result<Rest<T>>)
    ensures PrependItems([], r) == r
  {
    if r.Ok? {
      assert [] + r.value.items == r.value.items;
    }
  }

  // ----- parsing and encoding are inverse -----

  lemma {:induction false} ParseBodyOfBytes(fields: seq<Field>, tail: seq<byte>, previous: Option<u16>)
    requires Increasing(fields)
    requires forall i | 0 <= i < |fields| :: |fields[i].value| <= U32_MAX
    requires previous.Some? && |fields| > 0 ==> previous.value < fields[0].tag
    ensures ParseBody(BodyBytes(fields) + tail, |fields|, previous) == Ok(Rest(fields, tail))
    decreases |fields|
  {
    hide SplitRecord;
    hide RecordBytes;
    if |fields| == 0 {
      assert BodyBytes(fields) + tail == tail;
    } else {
      var f, more := fields[0], fields[1..];
      assert BodyBytes(fields) + tail == RecordBytes(f.tag, f.value) + (BodyBytes(more) + tail);
      SplitOfRecordBytes(f.tag, f.value, BodyBytes(more) + tail);
      assert forall i | 1 <= i < |fields| :: fields[i] == more[i - 1];
      ParseBodyOfBytes(more, tail, Some(f.tag));
      assert [f] + more == fields;
    }
  }

  lemma {:induction false} BytesOfParseBody(b: seq<byte>, count: nat, previous: Option<u16>)
    requires ParseBody(b, count, previous).Ok?
    ensures var rest := ParseBody(b, count, previous).value;
      && |rest.items| == count
      && BodyBytes(rest.items) + rest.tail == b
      && Increasing(rest.items)
      && (forall i | 0 <= i < count :: |rest.items[i].value| <= U32_MAX)
      && (previous.Some? && count > 0 ==> previous.value < rest.items[0].tag)
    decreases count
  {
    hide SplitRecord;
    hide RecordBytes;
    if count == 0 {
      assert [] + b == b;
    } else {
      RecordBytesOfSplit(b);
      var r := SplitRecord(b).value;
      BytesOfParseBody(r.tail, count - 1, Some(r.head));
      var inner := ParseBody(r.tail, count - 1, Some(r.head)).value;
      var items := [Field(r.head, r.payload)] + inner.items;
      assert items[1..] == inner.items;
      assert BodyBytes(items) + inner.tail == RecordBytes(r.head, r.payload) + (BodyBytes(inner.items) + inner.tail);
    }
  }

  lemma ParseOfEncoding(domain: seq<byte>, fields: seq<Field>)
    requires Encodable(fields) && |fields| <= MAX_TRANSCRIPT_FIELDS
    ensures ParseFieldsAny(Transcript(domain, fields), domain) == Ok(fields)
  {
    hide SplitRecord;
    var bytes := Transcript(domain, fields);
    var b := bytes[|domain|..];
    Widths();
    FromBeBe(|fields|, 2);
    assert b[..2] == Be(|fields|, 2);
    assert b[2..] == BodyBytes(fields) + [];
    ParseBodyOfBytes(fields, [], None);
  }

  lemma EncodingOfParse(bytes: seq<byte>, domain: seq<byte>)
    requires ParseFieldsAny(bytes, domain).Ok?
    ensures var fields := ParseFieldsAny(bytes, domain).value;
      Encodable(fields) && |fields| <= MAX_TRANSCRIPT_FIELDS && Transcript(domain, fields) == bytes
  {
    hide SplitRecord;
    var b := bytes[|domain|..];
    BeFromBe(b[..2]);
    BytesOfParseBody(b[2..], FromBe(b[..2]), None);
    var fields := ParseFieldsAny(bytes, domain).value;
    assert BodyBytes(fields) + [] == BodyBytes(fields);
    assert bytes == domain + b[..2] + b[2..];
  }

  /** The framing is a bijection: a byte string parses to `fields` exactly when
      it is the encoding of `fields`, and `fields` fits the parser's bound. */
  lemma FramingIsBijective(bytes: seq<byte>, domain: seq<byte>, fields: seq<Field>)
    ensures ParseFieldsAny(bytes, domain) == Ok(fields) <==>
      EncodeFields(domain, fields) == Ok(bytes) && |fields| <= 256
  {
    hide ParseFieldsAny;
    EncodeFieldsExact(domain, fields);
    if EncodeFields(domain, fields) == Ok(bytes) && |fields| <= MAX_TRANSCRIPT_FIELDS {
      ParseOfEncoding(domain, fields);
    }
    if ParseFieldsAny(bytes, domain) == Ok(fields) {
      EncodingOfParse(bytes, domain);
    }
  }

  /** Every transcript's fields follow from its bytes alone, also beyond the
      number of fields the parser accepts. */
  lemma EncodingIsInjective(domain: seq<byte>, a: seq<Field>, b: seq<Field>)
    requires EncodeFields(domain, a).Ok? && EncodeFields(domain, a) == EncodeFields(domain, b)
    ensures a == b
  {
    hide EncodeFields; hide RecordBytes; hide Be;
    EncodeFieldsExact(domain, a);
    EncodeFieldsExact(domain, b);
    var bytes := Transcript(domain, a);
    assert bytes[|domain|..][..2] == Be(|a|, 2) && bytes[|domain|..][..2] == Be(|b|, 2);
    CountsAgree(|a|, |b|);
    assert bytes[|domain|..][2..] == BodyBytes(a) && bytes[|domain|..][2..] == BodyBytes(b);
    ParseBodyOfBytes(a, [], None);
    ParseBodyOfBytes(b, [], None);
    assert BodyBytes(a) + [] == BodyBytes(b) + [];
  }

  lemma CountsAgree(m: u16, n: u16)
    requires Be(m, 2) == Be(n, 2)
    ensures m == n
  {
    Widths();
    FromBeBe(m, 2);
    FromBeBe(n, 2);
  }

  // ----- parse_fields and expect_tags -----

  function ParseFields(bytes: seq<byte>, domain: seq<byte>, count: nat): Result<seq<Field>> {
    var fields :- ParseFieldsAny(bytes, domain);
    var _ :- Need(|fields| == count, AuthorizationMalformed);
    Ok(fields)
  }

  predicate HasTags(fields: seq<Field>, tags: seq<u16>) {
    |fields| == |tags| && forall i | 0 <= i < |fields| :: fields[i].tag == tags[i]
  }

  function ExpectTags(fields: seq<Field>, tags: seq<u16>): Result<()> {
    Need(HasTags(fields, tags), AuthorizationMalformed)
  }

  lemma ParseFieldsOfEncoding(domain: seq<byte>, fields: seq<Field>)
    requires EncodeFields(domain, fields).Ok? && |fields| <= MAX_TRANSCRIPT_FIELDS
    ensures ParseFields(EncodeFields(domain, fields).value, domain, |fields|) == Ok(fields)
  {
    hide EncodeFields;
    hide ParseFieldsAny;
    FramingIsBijective(EncodeFields(domain, fields).value, domain, fields);
  }

  /** The size of an encoding, field by field. */
  function BodySize(fields: seq<Field>): nat {
    if |fields| == 0 then 0 else 6 + |fields[0].value| + BodySize(fields[1..])
  }

  lemma {:induction false} BodyBytesSize(fields: seq<Field>)
    ensures |BodyBytes(fields)| == BodySize(fields)
  {
    hide RecordBytes;
    if |fields| > 0 {
      BodyBytesSize(fields[1..]);
    }
  }

  lemma EncodedSize(domain: seq<byte>, fields: seq<Field>)
    requires EncodeFields(domain, fields).Ok?
    ensures |EncodeFields(domain, fields).value| == |domain| + 2 + BodySize(fields)
  {
    EncodeFieldsExact(domain, fields);
    BodyBytesSize(fields);
  }

  predicate AllAtMost(fields: seq<Field>, bound: nat) {
    forall i | 0 <= i < |fields| :: |fields[i].value| <= bound
  }

  lemma TagsIncrease(f: seq<Field>, tags: seq<u16>)
    requires HasTags(f, tags) && forall i, j | 0 <= i < j < |tags| :: tags[i] < tags[j]
    ensures Increasing(f)
  {
  }

  lemma EncodableWhenSmall(domain: seq<byte>, fields: seq<Field>)
    requires Increasing(fields) && AllAtMost(fields, U32_MAX) && |fields| <= 20
    ensures EncodeFields(domain, fields).Ok?
  {
    hide EncodeFields;
    EncodeFieldsExact(domain, fields);
  }

  lemma {:induction false} BodySizeAtMost(fields: seq<Field>, bound: nat)
    requires AllAtMost(fields, bound)
    ensures BodySize(fields) <= |fields| * (6 + bound)
  {
    if |fields| > 0 {
      assert forall i | 0 <= i < |fields[1..]| :: fields[1..][i] == fields[i + 1];
      BodySizeAtMost(fields[1..], bound);
      assert |fields| * (6 + bound) == (6 + bound) + (|fields| - 1) * (6 + bound);
    }
  }

  lemma {:induction false} BodySizeConcat(a: seq<Field>, b: seq<Field>)
    ensures BodySize(a + b) == BodySize(a) + BodySize(b)
  {
    if |a| == 0 {
      assert a + b == b;
    } else {
      assert (a + b)[1..] == a[1..] + b;
      BodySizeConcat(a[1..], b);
    }
  }

  // ----- encode_list and parse_list -----

  function EncodeItems<T>(items: seq<T>, ordinal: nat, encode: T -> Result<seq<byte>>): Result<seq<byte>>
    decreases |items|
  {
    if |items| == 0 then Ok([])
    else
      var _ :- Need(ordinal <= U16_MAX, ResourceLimit);
      var item :- encode(items[0]);
      var _ :- Need(|item| <= U32_MAX, ResourceLimit);
      var rest :- EncodeItems(items[1..], ordinal + 1, encode);
      Ok(RecordBytes(ordinal, item) + rest)
  }

  function EncodeList<T>(items: seq<T>, encode: T -> Result<seq<byte>>): Result<seq<byte>> {
    var _ :- Need(|items| <= U16_MAX, ResourceLimit);
    Prepend(Be(|items|, 2), EncodeItems(items, 0, encode))
  }

  /** `encode_list` as the source runs it. */
  method EncodeListLoop<T>(items: seq<T>, encode: T -> Result<seq<byte>>) returns (r: Result<seq<byte>>)
    ensures r == EncodeList(items, encode)
  {
    if |items| > U16_MAX {
      return Err(ResourceLimit);
    }
    hide RecordBytes;
    var output := Be(|items|, 2);
    ghost var all := Prepend(output, EncodeItems(items, 0, encode));
    assert items[0..] == items;
    for i := 0 to |items|
      invariant all == Prepend(output, EncodeItems(items[i..], i, encode))
    {
      assert items[i..][0] == items[i] && items[i..][1..] == items[i + 1..];
      var item := encode(items[i]);
      if item.Err? { return Err(item.error); }
      if |item.value| > U32_MAX {
        return Err(ResourceLimit);
      }
      PrependConcat(output, RecordBytes(i, item.value), EncodeItems(items[i + 1..], i + 1, encode));
      output := output + RecordBytes(i, item.value);
    }
    assert output + [] == output;
    return Ok(output);
  }

  function ParseItems<T>(b: seq<byte>, count: nat, expected: nat, parse: seq<byte> -> Result<T>): Result<Rest<T>>
    decreases count
  {
    if count == 0 then Ok(Rest([], b))
    else
      match SplitRecord(b)
      case None => Err(AuthorizationMalformed)
      case Some(r) =>
        if r.head != expected then Err(AuthorizationMalformed)
        else
          var item :- parse(r.payload);
          PrependItems([item], ParseItems(r.tail, count - 1, expected + 1, parse))
  }

  function ParseList<T>(bytes: seq<byte>, parse: seq<byte> -> Result<T>, maximum: nat): Result<seq<T>> {
    var _ :- Need(|bytes| >= 2, AuthorizationMalformed);
    var count := FromBe(bytes[..2]);
    var _ :- Need(count <= maximum, ResourceLimit);
    var rest :- ParseItems(bytes[2..], count, 0, parse);
    var _ :- Need(rest.tail == [], AuthorizationMalformed);
    Ok(rest.items)
  }

  /** `parse_list` as the source runs it. */
  method ParseListLoop<T>(bytes: seq<byte>, parse: seq<byte> -> Result<T>, maximum: nat) returns (r: Result<seq<T>>)
    ensures r == ParseList(bytes, parse, maximum)
  {
    hide SplitRecord;
    var taken: Result<seq<byte>>, cursor: nat := Take(bytes, 0, 2);
    if taken.Err? { return Err(taken.error); }
    var count := FromBe(taken.value);
    if count > maximum {
      return Err(ResourceLimit);
    }
    var output: seq<T> := [];
    PrependNothing(ParseItems(bytes[2..], count, 0, parse));
    for expected := 0 to count
      invariant cursor <= |bytes|
      invariant ParseItems(bytes[2..], count, 0, parse)
        == PrependItems(output, ParseItems(bytes[cursor..], count - expected, expected, parse))
    {
      var ordinal, payload;
      ordinal, payload, cursor := TakeRecord(bytes, cursor);
      if payload.Err? { return Err(payload.error); }
      if ordinal != expected {
        return Err(AuthorizationMalformed);
      }
      var item := parse(payload.value);
      if item.Err? { return Err(item.error); }
      PrependItemsConcat(output, [item.value], ParseItems(bytes[cursor..], count - expected - 1, expected + 1, parse));
      output := output + [item.value];
    }
    if cursor != |bytes| {
      return Err(AuthorizationMalformed);
    }
    assert output + [] == output;
    return Ok(output);
  }

  /** What a list needs of its item codec: the items given decode to themselves. */
  ghost predicate DecodesItems<T>(items: seq<T>, encode: T -> Result<seq<byte>>, parse: seq<byte> -> Result<T>) {
    forall x | x in items && encode(x).Ok? :: parse(encode(x).value) == Ok(x)
  }

  /** ... and, for the converse, that it accepts only canonical item bytes. */
  ghost predicate AcceptsOnlyCanonical<T(!new)>(encode: T -> Result<seq<byte>>, parse: seq<byte> -> Result<T>) {
    forall b: seq<byte> | parse(b).Ok? :: encode(parse(b).value) == Ok(b)
  }

  lemma {:induction false} ParseItemsOfEncoding<T>(
    items: seq<T>, ordinal: nat, encode: T -> Result<seq<byte>>, parse: seq<byte> -> Result<T>, tail: seq<byte>)
    requires DecodesItems(items, encode, parse)
    requires EncodeItems(items, ordinal, encode).Ok?
    ensures ParseItems(EncodeItems(items, ordinal, encode).value + tail, |items|, ordinal, parse) ==
      Ok(Rest(items, tail))
    decreases |items|
  {
    hide RecordBytes; hide SplitRecord; hide Be; hide FromBe;
    var body := EncodeItems(items, ordinal, encode).value;
    if |items| == 0 {
      assert body + tail == tail;
    } else {
      var item, more := encode(items[0]).value, items[1..];
      var moreBytes := EncodeItems(more, ordinal + 1, encode).value;
      assert body + tail == RecordBytes(ordinal, item) + (moreBytes + tail);
      SplitOfRecordBytes(ordinal, item, moreBytes + tail);
      ParseItemsOfEncoding(more, ordinal + 1, encode, parse, tail);
      assert [items[0]] + more == items;
    }
  }

  /** Every encodable list within the parser's bound parses back to itself. */
  lemma ListRoundTrip<T>(items: seq<T>, encode: T -> Result<seq<byte>>, parse: seq<byte> -> Result<T>, maximum: nat)
    requires DecodesItems(items, encode, parse)
    requires EncodeList(items, encode).Ok?
    ensures ParseList(EncodeList(items, encode).value, parse, maximum) ==
      if |items| <= maximum then Ok(items) else Err(ResourceLimit)
  {
    var bytes := EncodeList(items, encode).value;
    Widths();
    FromBeBe(|items|, 2);
    assert bytes[..2] == Be(|items|, 2);
    assert bytes[2..] == EncodeItems(items, 0, encode).value + [];
    ParseItemsOfEncoding(items, 0, encode, parse, []);
  }

  lemma {:induction false} EncodingOfParseItems<T(!new)>(
    b: seq<byte>, count: nat, expected: nat, encode: T -> Result<seq<byte>>, parse: seq<byte> -> Result<T>)
    requires AcceptsOnlyCanonical(encode, parse)
    requires ParseItems(b, count, expected, parse).Ok?
    ensures var rest := ParseItems(b, count, expected, parse).value;
      && |rest.items| == count
      && EncodeItems(rest.items, expected, encode).Ok?
      && EncodeItems(rest.items, expected, encode).value + rest.tail == b
    decreases count
  {
    hide SplitRecord;
    hide RecordBytes;
    if count == 0 {
      assert [] + b == b;
    } else {
      RecordBytesOfSplit(b);
      var r := SplitRecord(b).value;
      EncodingOfParseItems(r.tail, count - 1, expected + 1, encode, parse);
      var inner := ParseItems(r.tail, count - 1, expected + 1, parse).value;
      var items := [parse(r.payload).value] + inner.items;
      assert items[1..] == inner.items;
      var moreBytes := EncodeItems(inner.items, expected + 1, encode).value;
      assert RecordBytes(expected, r.payload) + moreBytes + inner.tail ==
        RecordBytes(r.head, r.payload) + (moreBytes + inner.tail);
    }
  }

  /** Bytes that parse as a list are exactly the encoding of the parsed items. */
  lemma ListBytesAreCanonical<T(!new)>(
    bytes: seq<byte>, encode: T -> Result<seq<byte>>, parse: seq<byte> -> Result<T>, maximum: nat)
    requires AcceptsOnlyCanonical(encode, parse)
    requires ParseList(bytes, parse, maximum).Ok?
    ensures |ParseList(bytes, parse, maximum).value| <= maximum
    ensures EncodeList(ParseList(bytes, parse, maximum).value, encode) == Ok(bytes)
  {
    Widths();
    BeFromBe(bytes[..2]);
    EncodingOfParseItems(bytes[2..], FromBe(bytes[..2]), 0, encode, parse);
    var items := ParseList(bytes, parse, maximum).value;
    assert EncodeItems(items, 0, encode).value + [] == EncodeItems(items, 0, encode).value;
    assert bytes == bytes[..2] + bytes[2..];
  }

  /** An upper bound on a list's size from a bound on its items. */
  lemma {:induction false} EncodeItemsSize<T>(items: seq<T>, ordinal: nat, encode: T -> Result<seq<byte>>, bound: nat)
    requires forall x | x in items && encode(x).Ok? :: |encode(x).value| <= bound
    requires EncodeItems(items, ordinal, encode).Ok?
    ensures |EncodeItems(items, ordinal, encode).value| <= |items| * (6 + bound)
    decreases |items|
  {
    hide RecordBytes;
    if |items| > 0 {
      EncodeItemsSize(items[1..], ordinal + 1, encode, bound);
      assert |items| * (6 + bound) == (6 + bound) + (|items| - 1) * (6 + bound);
    }
  }

  lemma EncodeListSize<T>(items: seq<T>, encode: T -> Result<seq<byte>>, bound: nat, maximum: nat)
    requires forall x | x in items && encode(x).Ok? :: |encode(x).value| <= bound
    requires EncodeList(items, encode).Ok? && |items| <= maximum
    ensures |EncodeList(items, encode).value| <= 2 + maximum * (6 + bound)
  {
    hide EncodeItems;
    EncodeItemsSize(items, 0, encode, bound);
    Monotone(|items|, maximum, 6 + bound);
  }

  lemma Monotone(a: nat, b: nat, k: nat)
    requires a <= b
    ensures a * k <= b * k
  {
  }

  lemma {:induction false} EncodeItemsSucceeds<T>(items: seq<T>, ordinal: nat, encode: T -> Result<seq<byte>>)
    requires forall x | x in items :: encode(x).Ok? && |encode(x).value| <= U32_MAX
    requires ordinal + |items| <= U16_MAX + 1
    ensures EncodeItems(items, ordinal, encode).Ok?
    decreases |items|
  {
    if |items| > 0 {
      EncodeItemsSucceeds(items[1..], ordinal + 1, encode);
    }
  }

  // ----- domain separation -----

  /** A domain constant: one terminating NUL and none before it. */
  predicate IsDomain(d: seq<byte>) {
    |d| > 0 && d[|d| - 1] == 0 && forall i | 0 <= i < |d| - 1 :: d[i] != 0
  }

  /** Distinct domain constants never prefix the same bytes, so transcripts of
      different domains never collide, whatever follows. */
  lemma DomainsSeparate(d1: seq<byte>, d2: seq<byte>, bytes: seq<byte>)
    requires IsDomain(d1) && IsDomain(d2) && d1 <= bytes && d2 <= bytes
    ensures d1 == d2
  {
    var last1, last2 := |d1| - 1, |d2| - 1;
    assert bytes[last1] == 0 && bytes[last2] == 0;
    assert forall i | 0 <= i < last1 :: bytes[i] != 0;
    assert forall i | 0 <= i < last2 :: bytes[i] != 0;
  }
}
