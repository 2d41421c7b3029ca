/** The `SendSubmit` payload: validation, encoding, strict parsing, and the
    proof that parsing undoes encoding within a size budget. */
module SendCodec {
  import opened Basics
  import opened Utf8
  import opened Framing
  import opened Accounts
  import opened Wire
  import opened ManifestTypes
  import Domains

  // ----- addresses -----

  const ADDRESS_SIZE := 2200

  function NewAddress(displayName: Option<Text>, email: Text): Result<ManifestAddress> {
    var a := Address(displayName, email);
    if ValidAddress(a) then Ok(a) else Err(InvalidInput)
  }

  function AddressFields(a: ManifestAddress): seq<Field> {
    [Field(1, OptionalTextBytes(a.displayName)), Field(2, TextBytes(a.email))]
  }

  function EncodeAddress(a: ManifestAddress): Result<seq<byte>> {
    EncodeFields(Domains.Bytes(Domains.Address), AddressFields(a))
  }

  function ParseAddress(bytes: seq<byte>): Result<ManifestAddress> {
    var f :- ParseFields(bytes, Domains.Bytes(Domains.Address), 2);
    var _ :- ExpectTags(f, [1, 2]);
    var displayName :- ParseOptionalText(f[0].value);
    var email :- ParseText(f[1].value);
    NewAddress(displayName, email)
  }

  lemma AddressRoundTrip(a: ManifestAddress)
    requires EncodeAddress(a).Ok?
    ensures ParseAddress(EncodeAddress(a).value) == Ok(a)
    ensures |EncodeAddress(a).value| <= ADDRESS_SIZE
  {
    hide EncodeFields;
    hide ParseFields;
    hide ParseText;
    hide ParseOptionalText;
    ParseFieldsOfEncoding(Domains.Bytes(Domains.Address), AddressFields(a));
    EncodedSize(Domains.Bytes(Domains.Address), AddressFields(a));
    assert a.displayName.Some? ==> |a.displayName.value| <= 4 * CharCount(a.displayName.value);
    BodySizeAtMost(AddressFields(a), 1025);
  }

  // ----- attachments -----

  const ATTACHMENT_SIZE := 17_900

  predicate ValidMime(mime: Text) {
    var pieces := Split(mime, '/' as byte);
    && |pieces| == 2 && |pieces[0]| > 0 && |pieces[1]| > 0
    && (forall x | x in pieces[0] :: IsMimeByte(x))
    && (forall x | x in pieces[1] :: IsMimeByte(x))
  }

  predicate IsMimeByte(x: byte) {
    IsAlnum(x) || x == '+' as byte || x == '-' as byte || x == '.' as byte
  }

  function ValidateAttachment(a: Attachment): Result<()> {
    var _ :- Need(
      && |a.filename| > 0
      && CharCount(a.filename) <= MAX_ATTACHMENT_FILENAME_CHARS
      && !AnyControl(a.filename)
      && '/' as byte !in a.filename && '\\' as byte !in a.filename
      && ValidMime(a.mimeType)
      && |a.mimeType| <= MAX_ATTACHMENT_MIME_CHARS
      && a.decodedSize <= MAX_SEND_ATTACHMENT_BYTES, InvalidInput);
    match a.summary
    case None => Ok(())
    case Some(s) =>
      var _ :- Need(s.text.Some? ==> CharCount(s.text.value) <= MAX_SUMMARY_CHARS, ResourceLimit);
      Need(s.disposition.Omitted? <==> s.text.None?, InvalidInput)
  }

  function SummaryFields(s: AttachmentSummary): seq<Field> {
    [Field(1, DispositionBytes(s.disposition)), Field(2, OptionalTextBytes(s.text)),
     Field(3, OptionalU64Bytes(s.originalBytes)), Field(4, BoolBytes(true))]
  }

  function EncodeSummary(s: AttachmentSummary): Result<seq<byte>> {
    EncodeFields(Domains.Bytes(Domains.AttachmentSummary), SummaryFields(s))
  }

  function ParseSummary(bytes: seq<byte>): Result<AttachmentSummary> {
    var f :- ParseFields(bytes, Domains.Bytes(Domains.AttachmentSummary), 4);
    var _ :- ExpectTags(f, [1, 2, 3, 4]);
    var disposition :- ParseDisposition(f[0].value);
    var untrusted :- ParseBool(f[3].value);
    var _ :- Need(untrusted, AuthorizationMalformed);
    var text :- ParseOptionalText(f[1].value);
    var originalBytes :- ParseOptionalU64(f[2].value);
    Ok(AttachmentSummary(disposition, text, originalBytes))
  }

  lemma SummaryRoundTrip(s: AttachmentSummary)
    requires EncodeSummary(s).Ok?
    ensures ParseSummary(EncodeSummary(s).value) == Ok(s)
    ensures EncodeSummary(s).value != []
    ensures s.text.Some? ==> |EncodeSummary(s).value| <= 80 + |s.text.value|
    ensures s.text.None? ==> |EncodeSummary(s).value| <= 80
  {
    hide EncodeFields;
    hide ParseFields;
    hide ParseText;
    hide ParseOptionalText;
    hide ParseOptionalU64;
    hide ParseBool;
    hide ParseDisposition;
    var fields := SummaryFields(s);
    ParseFieldsOfEncoding(Domains.Bytes(Domains.AttachmentSummary), fields);
    EncodedSize(Domains.Bytes(Domains.AttachmentSummary), fields);
    BodySizeOfFour(fields);
  }

  lemma BodySizeOfFour(fields: seq<Field>)
    requires |fields| == 4
    ensures BodySize(fields) ==
      24 + |fields[0].value| + |fields[1].value| + |fields[2].value| + |fields[3].value|
  {
    assert BodySize(fields) == 6 + |fields[0].value| + BodySize(fields[1..]);
    assert BodySize(fields[1..]) == 6 + |fields[1].value| + BodySize(fields[1..][1..]);
    assert fields[1..][1..] == fields[2..];
    assert BodySize(fields[2..]) == 6 + |fields[2].value| + BodySize(fields[2..][1..]);
    assert fields[2..][1..] == [fields[3]];
  }

  function OptionalSummaryBytes(s: Option<AttachmentSummary>): Result<seq<byte>> {
    if s.None? then Ok([]) else EncodeSummary(s.value)
  }

  function ParseOptionalSummary(bytes: seq<byte>): Result<Option<AttachmentSummary>> {
    if bytes == [] then Ok(None) else var s :- ParseSummary(bytes); Ok(Some(s))
  }

  function AttachmentFields(a: Attachment, summary: seq<byte>): seq<Field> {
    [Field(1, TextBytes(a.filename)), Field(2, TextBytes(a.mimeType)), Field(3, U64Bytes(a.decodedSize)),
     Field(4, Bytes32Bytes(a.contentSha256)), Field(5, summary)]
  }

  function EncodeAttachment(a: Attachment): Result<seq<byte>> {
    var _ :- ValidateAttachment(a);
    var summary :- OptionalSummaryBytes(a.summary);
    EncodeFields(Domains.Bytes(Domains.Attachment), AttachmentFields(a, summary))
  }

  function ParseAttachment(bytes: seq<byte>): Result<Attachment> {
    var f :- ParseFields(bytes, Domains.Bytes(Domains.Attachment), 5);
    var _ :- ExpectTags(f, [1, 2, 3, 4, 5]);
    var filename :- ParseText(f[0].value);
    var mimeType :- ParseText(f[1].value);
    var decodedSize :- ParseU64(f[2].value);
    var contentSha256 :- ParseBytes32(f[3].value);
    var summary :- ParseOptionalSummary(f[4].value);
    var a := Attachment(filename, mimeType, decodedSize, contentSha256, summary);
    var _ :- ValidateAttachment(a);
    Ok(a)
  }

  lemma OptionalSummaryRoundTrip(s: Option<AttachmentSummary>)
    requires OptionalSummaryBytes(s).Ok?
    requires s.Some? && s.value.text.Some? ==> CharCount(s.value.text.value) <= MAX_SUMMARY_CHARS
    ensures ParseOptionalSummary(OptionalSummaryBytes(s).value) == Ok(s)
    ensures |OptionalSummaryBytes(s).value| <= 80 + 4 * MAX_SUMMARY_CHARS
  {
    hide EncodeSummary;
    hide ParseSummary;
    if s.Some? {
      SummaryRoundTrip(s.value);
    }
  }

  lemma AttachmentRoundTrip(a: Attachment)
    requires EncodeAttachment(a).Ok?
    ensures ParseAttachment(EncodeAttachment(a).value) == Ok(a)
    ensures |EncodeAttachment(a).value| <= ATTACHMENT_SIZE
  {
    hide EncodeFields;
    hide ParseFields;
    hide ParseText;
    hide ParseU64;
    hide ParseBytes32;
    hide OptionalSummaryBytes;
    hide ParseOptionalSummary;
    hide ValidMime;
    OptionalSummaryRoundTrip(a.summary);
    var fields := AttachmentFields(a, OptionalSummaryBytes(a.summary).value);
    ParseFieldsOfEncoding(Domains.Bytes(Domains.Attachment), fields);
    EncodedSize(Domains.Bytes(Domains.Attachment), fields);
    BodySizeConcat(fields[..1], fields[1..]);
    assert fields == fields[..1] + fields[1..];
    BodySizeOfFour(fields[1..]);
    assert BodySize(fields[..1]) == 6 + |a.filename| + BodySize(fields[..1][1..]);
    assert |a.filename| <= 4 * CharCount(a.filename);
  }

  // ----- message references -----

  predicate ValidMessageId(t: Text) {
    && IsAscii(t) && 3 <= |t| <= 998
    && t[0] == '<' as byte && t[|t| - 1] == '>' as byte
    && forall i | 0 <= i < |t| :: !(t[i] <= 0x1F || t[i] == 0x7F) && t[i] != 0x20
  }

  predicate ValidAsciiToken(t: Text) {
    1 <= |t| <= 256 && forall i | 0 <= i < |t| :: 0x20 < t[i] < 0x7F
  }

  function EncodeReference(t: Text): Result<seq<byte>> { Ok(TextBytes(t)) }

  // ----- the payload -----

  function AttachmentTotal(attachments: seq<Attachment>, total: nat): Result<()>
    decreases |attachments|
  {
    if |attachments| == 0 then Ok(())
    else
      var _ :- ValidateAttachment(attachments[0]);
      var next := total + attachments[0].decodedSize;
      var _ :- Need(next <= U64_MAX, ResourceLimit);
      var _ :- Need(next <= MAX_TOTAL_ATTACHMENT_BYTES, ResourceLimit);
      AttachmentTotal(attachments[1..], next)
  }

  predicate IsAbsentOrEmpty(t: Option<Text>) { t.None? || t.value == [] }

  predicate WellFormedSend(s: SendSubmit) {
    && CharCount(s.subject) <= MAX_SEND_SUBJECT_CHARS && !AnyControl(s.subject)
    && !(IsAbsentOrEmpty(s.text) && IsAbsentOrEmpty(s.html))
    && (s.text.Some? ==> CharCount(s.text.value) <= MAX_SEND_BODY_CHARS)
    && (s.html.Some? ==> CharCount(s.html.value) <= MAX_SEND_BODY_CHARS)
    && |s.attachments| <= MAX_ATTACHMENTS
    && |s.references| <= MAX_REFERENCES
    && ValidMessageId(s.messageId)
    && ValidAsciiToken(s.mimeBoundary)
    && (s.inReplyTo.Some? ==> ValidMessageId(s.inReplyTo.value))
    && forall t | t in s.references :: ValidMessageId(t)
  }

  function ValidateSend(s: SendSubmit): Result<()> {
    var _ :- Need(1 <= |s.to| + |s.cc| + |s.bcc| <= MAX_SEND_RECIPIENTS, ResourceLimit);
    var _ :- Need(WellFormedSend(s), InvalidInput);
    AttachmentTotal(s.attachments, 0)
  }

  function SendFields(s: SendSubmit, from: seq<byte>, to: seq<byte>, cc: seq<byte>, bcc: seq<byte>,
      attachments: seq<byte>, references: seq<byte>): seq<Field> {
    [Field(0x100, NonZeroU64Bytes(s.accountGeneration)),
     Field(0x101, from), Field(0x102, to), Field(0x103, cc), Field(0x104, bcc),
     Field(0x105, TextBytes(s.subject)),
     Field(0x106, OptionalTextBytes(s.text)), Field(0x107, OptionalTextBytes(s.html)),
     Field(0x108, attachments),
     Field(0x109, TextBytes(s.messageId)), Field(0x10a, I64Bytes(s.dateUnixMs)), Field(0x10b, U16Bytes(1)),
     Field(0x10c, TextBytes(s.mimeBoundary)), Field(0x10d, OptionalTextBytes(s.inReplyTo)),
     Field(0x10e, references), Field(0x10f, OptionalDigestBytes(s.canonicalRfc822Sha256))]
  }

  function EncodeSend(s: SendSubmit): Result<seq<Field>> {
    var _ :- ValidateSend(s);
    var from :- EncodeAddress(s.from);
    var to :- EncodeList(s.to, EncodeAddress);
    var cc :- EncodeList(s.cc, EncodeAddress);
    var bcc :- EncodeList(s.bcc, EncodeAddress);
    var attachments :- EncodeList(s.attachments, EncodeAttachment);
    var references :- EncodeList(s.references, EncodeReference);
    Ok(SendFields(s, from, to, cc, bcc, attachments, references))
  }

  const SEND_TAGS: seq<u16> := [
    0x100, 0x101, 0x102, 0x103, 0x104, 0x105, 0x106, 0x107, 0x108, 0x109, 0x10a, 0x10b, 0x10c, 0x10d, 0x10e, 0x10f]

  function ParseSend(f: seq<Field>): Result<SendSubmit> {
    var _ :- ExpectTags(f, SEND_TAGS);
    var builder :- ParseU16(f[11].value);
    var _ :- Need(builder == 1, AuthorizationMalformed);
    var accountGeneration :- ParseNonZeroU64(f[0].value);
    var from :- ParseAddress(f[1].value);
    var to :- ParseList(f[2].value, ParseAddress, MAX_SEND_RECIPIENTS);
    var cc :- ParseList(f[3].value, ParseAddress, MAX_SEND_RECIPIENTS);
    var bcc :- ParseList(f[4].value, ParseAddress, MAX_SEND_RECIPIENTS);
    var subject :- ParseText(f[5].value);
    var text :- ParseOptionalText(f[6].value);
    var html :- ParseOptionalText(f[7].value);
    var attachments :- ParseList(f[8].value, ParseAttachment, MAX_ATTACHMENTS);
    var messageId :- ParseText(f[9].value);
    var dateUnixMs :- ParseI64(f[10].value);
    var mimeBoundary :- ParseText(f[12].value);
    var inReplyTo :- ParseOptionalText(f[13].value);
    var references :- ParseList(f[14].value, ParseText, MAX_REFERENCES);
    var canonicalRfc822Sha256 :- ParseOptionalDigest(f[15].value);
    Ok(SendSubmit(accountGeneration, from, to, cc, bcc, subject, text, html, attachments, messageId, dateUnixMs,
        mimeBoundary, inReplyTo, references, canonicalRfc822Sha256))
  }

  lemma AddressListRoundTrip(items: seq<ManifestAddress>)
    requires EncodeList(items, EncodeAddress).Ok? && |items| <= MAX_SEND_RECIPIENTS
    ensures ParseList(EncodeList(items, EncodeAddress).value, ParseAddress, MAX_SEND_RECIPIENTS) == Ok(items)
    ensures |EncodeList(items, EncodeAddress).value| <= 2 + MAX_SEND_RECIPIENTS * (6 + ADDRESS_SIZE)
  {
    hide EncodeAddress; hide ParseAddress; hide ValidAddress; hide EncodeList; hide ParseList;
    forall a | a in items && EncodeAddress(a).Ok?
      ensures ParseAddress(EncodeAddress(a).value) == Ok(a) && |EncodeAddress(a).value| <= ADDRESS_SIZE
    {
      AddressRoundTrip(a);
    }
    ListRoundTrip(items, EncodeAddress, ParseAddress, MAX_SEND_RECIPIENTS);
    EncodeListSize(items, EncodeAddress, ADDRESS_SIZE, MAX_SEND_RECIPIENTS);
  }

  lemma AttachmentListRoundTrip(items: seq<Attachment>)
    requires EncodeList(items, EncodeAttachment).Ok? && |items| <= MAX_ATTACHMENTS
    ensures ParseList(EncodeList(items, EncodeAttachment).value, ParseAttachment, MAX_ATTACHMENTS) == Ok(items)
    ensures |EncodeList(items, EncodeAttachment).value| <= 2 + MAX_ATTACHMENTS * (6 + ATTACHMENT_SIZE)
  {
    hide EncodeAttachment; hide ParseAttachment; hide EncodeList; hide ParseList;
    forall a | a in items && EncodeAttachment(a).Ok?
      ensures ParseAttachment(EncodeAttachment(a).value) == Ok(a) && |EncodeAttachment(a).value| <= ATTACHMENT_SIZE
    {
      AttachmentRoundTrip(a);
    }
    ListRoundTrip(items, EncodeAttachment, ParseAttachment, MAX_ATTACHMENTS);
    EncodeListSize(items, EncodeAttachment, ATTACHMENT_SIZE, MAX_ATTACHMENTS);
  }

  lemma ReferenceListRoundTrip(items: seq<Text>)
    requires EncodeList(items, EncodeReference).Ok? && |items| <= MAX_REFERENCES
    requires forall t | t in items :: |t| <= 998
    ensures ParseList(EncodeList(items, EncodeReference).value, ParseText, MAX_REFERENCES) == Ok(items)
    ensures |EncodeList(items, EncodeReference).value| <= 2 + MAX_REFERENCES * 1004
  {
    hide EncodeList; hide ParseList; hide ParseText; hide ValidUtf8;
    assert DecodesItems(items, EncodeReference, ParseText) by { TextDecodes(items); }
    ListRoundTrip(items, EncodeReference, ParseText, MAX_REFERENCES);
    EncodeListSize(items, EncodeReference, 998, MAX_REFERENCES);
  }

  lemma TextDecodes(items: seq<Text>)
    ensures DecodesItems(items, EncodeReference, ParseText)
  {
    hide ValidUtf8;
  }

  const SEND_FIELD_SIZE := 115_000

  lemma SendFieldsParse(s: SendSubmit, from: seq<byte>, to: seq<byte>, cc: seq<byte>, bcc: seq<byte>,
      attachments: seq<byte>, references: seq<byte>)
    requires ParseAddress(from) == Ok(s.from)
    requires ParseList(to, ParseAddress, MAX_SEND_RECIPIENTS) == Ok(s.to)
    requires ParseList(cc, ParseAddress, MAX_SEND_RECIPIENTS) == Ok(s.cc)
    requires ParseList(bcc, ParseAddress, MAX_SEND_RECIPIENTS) == Ok(s.bcc)
    requires ParseList(attachments, ParseAttachment, MAX_ATTACHMENTS) == Ok(s.attachments)
    requires ParseList(references, ParseText, MAX_REFERENCES) == Ok(s.references)
    ensures ParseSend(SendFields(s, from, to, cc, bcc, attachments, references)) == Ok(s)
  {
    hide ParseAddress; hide ParseList; hide ParseAttachment;
    hide ParseText; hide ParseOptionalText; hide ParseOptionalDigest; hide ParseI64; hide ParseU16;
    hide ParseNonZeroU64;
    hide ValidAddress; hide ValidUtf8;
  }

  /** A validated send parses back from its own fields, and they fit the
      manifest size budget. */
  lemma SendRoundTrip(s: SendSubmit)
    requires EncodeSend(s).Ok?
    ensures ParseSend(EncodeSend(s).value) == Ok(s)
    ensures BodySize(EncodeSend(s).value) <= 4_100_000
    ensures HasTags(EncodeSend(s).value, SEND_TAGS)
  {
    hide EncodeAddress; hide ParseAddress; hide EncodeList; hide ParseList; hide ParseSend; hide ParseText;
    hide SendFields;
    hide AttachmentTotal; hide AnyControl; hide ValidAddress; hide ValidUtf8; hide EncodeAttachment;
    hide ParseAttachment;
    AddressRoundTrip(s.from);
    AddressListRoundTrip(s.to);
    AddressListRoundTrip(s.cc);
    AddressListRoundTrip(s.bcc);
    AttachmentListRoundTrip(s.attachments);
    ReferenceListRoundTrip(s.references);
    SendFieldsParse(s, EncodeAddress(s.from).value, EncodeList(s.to, EncodeAddress).value,
      EncodeList(s.cc, EncodeAddress).value, EncodeList(s.bcc, EncodeAddress).value,
      EncodeList(s.attachments, EncodeAttachment).value, EncodeList(s.references, EncodeReference).value);
    SendFieldSizes(s, EncodeAddress(s.from).value, EncodeList(s.to, EncodeAddress).value,
      EncodeList(s.cc, EncodeAddress).value, EncodeList(s.bcc, EncodeAddress).value,
      EncodeList(s.attachments, EncodeAttachment).value, EncodeList(s.references, EncodeReference).value);
  }

  lemma SendFieldSizes(s: SendSubmit, from: seq<byte>, to: seq<byte>, cc: seq<byte>, bcc: seq<byte>,
      attachments: seq<byte>, references: seq<byte>)
    requires WellFormedSend(s)
    requires |from| <= SEND_FIELD_SIZE && |to| <= SEND_FIELD_SIZE && |cc| <= SEND_FIELD_SIZE && |bcc| <= SEND_FIELD_SIZE
    requires |references| <= SEND_FIELD_SIZE
    requires |attachments| <= 2 + MAX_ATTACHMENTS * (6 + ATTACHMENT_SIZE)
    ensures BodySize(SendFields(s, from, to, cc, bcc, attachments, references)) <= 4_100_000
    ensures HasTags(SendFields(s, from, to, cc, bcc, attachments, references), SEND_TAGS)
  {
    hide ValidUtf8; hide BodySize; hide AnyControl;
    hide NonZeroU64Bytes; hide I64Bytes; hide U16Bytes; hide OptionalTextBytes; hide OptionalDigestBytes;
    hide ParseNonZeroU64; hide ParseI64; hide ParseU16; hide ParseOptionalText; hide ParseOptionalDigest;
    hide ParseText;
    hide WellFormedSend; hide ValidMessageId;
    SendTextsAreShort(s);
    SumOfSendFields(SendFields(s, from, to, cc, bcc, attachments, references));
  }

  lemma SendTextsAreShort(s: SendSubmit)
    requires WellFormedSend(s)
    ensures |s.subject| <= SEND_FIELD_SIZE && |s.messageId| <= SEND_FIELD_SIZE && |s.mimeBoundary| <= SEND_FIELD_SIZE
    ensures s.text.Some? ==> |s.text.value| <= 4 * MAX_SEND_BODY_CHARS
    ensures s.html.Some? ==> |s.html.value| <= 4 * MAX_SEND_BODY_CHARS
    ensures s.inReplyTo.Some? ==> |s.inReplyTo.value| < SEND_FIELD_SIZE
  {
    hide ValidUtf8; hide AnyControl;
  }

  lemma SumOfSendFields(f: seq<Field>)
    requires |f| == 16
    requires |f[0].value| <= SEND_FIELD_SIZE && |f[1].value| <= SEND_FIELD_SIZE && |f[2].value| <= SEND_FIELD_SIZE
    requires |f[3].value| <= SEND_FIELD_SIZE && |f[4].value| <= SEND_FIELD_SIZE && |f[5].value| <= SEND_FIELD_SIZE
    requires |f[6].value| <= 1 + 4 * MAX_SEND_BODY_CHARS && |f[7].value| <= 1 + 4 * MAX_SEND_BODY_CHARS
    requires |f[9].value| <= SEND_FIELD_SIZE && |f[10].value| <= SEND_FIELD_SIZE && |f[11].value| <= SEND_FIELD_SIZE
    requires |f[12].value| <= SEND_FIELD_SIZE && |f[13].value| <= SEND_FIELD_SIZE && |f[14].value| <= SEND_FIELD_SIZE
    requires |f[15].value| <= SEND_FIELD_SIZE
    requires |f[8].value| <= 2 + MAX_ATTACHMENTS * (6 + ATTACHMENT_SIZE)
    ensures BodySize(f) <= 4_100_000
  {
    hide BodySize;
    var a, b, c, d := f[..6], f[6..8], f[8..9], f[9..];
    assert f == a + b + c + d;
    BodySizeConcat(a + b + c, d);
    BodySizeConcat(a + b, c);
    BodySizeConcat(a, b);
    assert AllAtMost(a, SEND_FIELD_SIZE) && AllAtMost(d, SEND_FIELD_SIZE);
    BodySizeAtMost(a, SEND_FIELD_SIZE);
    BodySizeAtMost(b, 1 + 4 * MAX_SEND_BODY_CHARS);
    BodySizeAtMost(c, 2 + MAX_ATTACHMENTS * (6 + ATTACHMENT_SIZE));
    BodySizeAtMost(d, SEND_FIELD_SIZE);
  }
}
