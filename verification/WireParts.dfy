/** The same for the transcripts that stand inside a manifest, and for proofs:
    which numbered field holds what. */
module WireParts {
  import opened Basics
  import opened Utf8
  import opened Framing
  import opened Accounts
  import opened Wire
  import opened ManifestTypes
  import opened SendCodec
  import opened AccountCodec
  import opened Authorization
  import opened WireLayout
  import Encodings
  import Actions
  import Domains

  /** The value of a field of a transcript of some kind. */
  function PartAt(bytes: seq<byte>, kind: Domains.Domain, tag: u16): Option<seq<byte>> {
    match ParseFieldsAny(bytes, Domains.Bytes(kind))
    case Err(_) => None
    case Ok(f) => Find(f, tag)
  }

  lemma EncodedAt(bytes: seq<byte>, kind: Domains.Domain, f: seq<Field>)
    requires EncodeFields(Domains.Bytes(kind), f) == Ok(bytes) && |f| <= 20
    ensures forall i | 0 <= i < |f| :: PartAt(bytes, kind, f[i].tag) == Some(f[i].value)
  {
    hide EncodeFields; hide ParseFieldsAny; hide Find;
    FramingIsBijective(bytes, Domains.Bytes(kind), f);
    EncodeFieldsExact(Domains.Bytes(kind), f);
    forall i | 0 <= i < |f| ensures PartAt(bytes, kind, f[i].tag) == Some(f[i].value) { FindAt(f, i); }
  }

  lemma AddressSays(a: ManifestAddress)
    requires EncodeAddress(a).Ok?
    ensures var b := EncodeAddress(a).value;
      && Reads(PartAt(b, Domains.Address, 1), ParseOptionalText, a.displayName)
      && PartAt(b, Domains.Address, 2) == Some(a.email)
  {
    hide EncodeFields; hide PartAt; hide ParseOptionalText; hide OptionalTextBytes; hide ValidAddress; hide ValidUtf8;
    var f := AddressFields(a);
    EncodedAt(EncodeAddress(a).value, Domains.Address, f);
    assert PartAt(EncodeAddress(a).value, Domains.Address, f[0].tag) == Some(f[0].value);
    assert PartAt(EncodeAddress(a).value, Domains.Address, f[1].tag) == Some(f[1].value);
  }

  lemma SummarySays(s: AttachmentSummary)
    requires EncodeSummary(s).Ok?
    ensures var b := EncodeSummary(s).value;
      && PartAt(b, Domains.AttachmentSummary, 1)
           == Some([match s.disposition case Complete => 1 case Truncated => 2 case Omitted => 3])
      && Reads(PartAt(b, Domains.AttachmentSummary, 2), ParseOptionalText, s.text)
      && Reads(PartAt(b, Domains.AttachmentSummary, 3), ParseOptionalU64, s.originalBytes)
      && PartAt(b, Domains.AttachmentSummary, 4) == Some([1])
  {
    hide EncodeFields; hide PartAt; hide ParseOptionalText; hide OptionalTextBytes; hide ParseOptionalU64;
    hide OptionalU64Bytes; hide ValidUtf8;
    var f, b := SummaryFields(s), EncodeSummary(s).value;
    EncodedAt(b, Domains.AttachmentSummary, f);
    assert PartAt(b, Domains.AttachmentSummary, f[0].tag) == Some(f[0].value);
    assert PartAt(b, Domains.AttachmentSummary, f[1].tag) == Some(f[1].value);
    assert PartAt(b, Domains.AttachmentSummary, f[2].tag) == Some(f[2].value);
    assert PartAt(b, Domains.AttachmentSummary, f[3].tag) == Some(f[3].value);
  }

  lemma AttachmentSays(a: Attachment)
    requires EncodeAttachment(a).Ok?
    ensures var b := EncodeAttachment(a).value;
      && PartAt(b, Domains.Attachment, 1) == Some(a.filename) && PartAt(b, Domains.Attachment, 2) == Some(a.mimeType)
      && Reads(PartAt(b, Domains.Attachment, 3), ParseU64, a.decodedSize)
      && PartAt(b, Domains.Attachment, 4) == Some(a.contentSha256)
      && Reads(PartAt(b, Domains.Attachment, 5), ParseOptionalSummary, a.summary)
  {
    hide EncodeFields; hide PartAt; hide ParseU64; hide U64Bytes; hide ParseOptionalSummary; hide OptionalSummaryBytes;
    hide ValidUtf8; hide ValidMime; hide AnyControl; hide CharCount;
    OptionalSummaryRoundTrip(a.summary);
    var f, b := AttachmentFields(a, OptionalSummaryBytes(a.summary).value), EncodeAttachment(a).value;
    EncodedAt(b, Domains.Attachment, f);
    assert PartAt(b, Domains.Attachment, f[0].tag) == Some(f[0].value);
    assert PartAt(b, Domains.Attachment, f[1].tag) == Some(f[1].value);
    assert PartAt(b, Domains.Attachment, f[2].tag) == Some(f[2].value);
    assert PartAt(b, Domains.Attachment, f[3].tag) == Some(f[3].value);
    assert PartAt(b, Domains.Attachment, f[4].tag) == Some(f[4].value);
  }

  lemma EndpointSays(env: Env, e: EndpointSnapshot)
    requires EncodeEndpoint(env, e).Ok?
    ensures var b := EncodeEndpoint(env, e).value;
      && PartAt(b, Domains.EndpointHost, 1) == Some([match e.protocol case Imap => 1 case Smtp => 2 case Jmap => 3])
      && PartAt(b, Domains.EndpointHost, 2) == Some(e.exactHost)
      && PartAt(b, Domains.EndpointHost, 3) == Some([match e.hostKind case Dns => 1 case Ipv4 => 2 case Ipv6 => 3])
      && PartAt(b, Domains.EndpointHost, 4) == Some(e.canonicalHost)
      && PartAt(b, Domains.EndpointHost, 5) == Some(Two(e.port))
      && PartAt(b, Domains.EndpointHost, 6)
           == Some([match e.security case ImplicitTls => 1 case StartTls => 2 case Https => 3])
  {
    hide EncodeFields; hide PartAt; hide U16Bytes; hide Two; hide ValidUtf8; hide ValidEndpointSnapshot;
    var f, b := EndpointFields(e), EncodeEndpoint(env, e).value;
    TwoIsU16(e.port);
    EncodedAt(b, Domains.EndpointHost, f);
    assert PartAt(b, Domains.EndpointHost, f[0].tag) == Some(f[0].value);
    assert PartAt(b, Domains.EndpointHost, f[1].tag) == Some(f[1].value);
    assert PartAt(b, Domains.EndpointHost, f[2].tag) == Some(f[2].value);
    assert PartAt(b, Domains.EndpointHost, f[3].tag) == Some(f[3].value);
    assert PartAt(b, Domains.EndpointHost, f[4].tag) == Some(f[4].value);
    assert PartAt(b, Domains.EndpointHost, f[5].tag) == Some(f[5].value);
  }

  lemma ConfigCasSays(c: ConfigCas)
    requires EncodeConfigCas(c).Ok?
    ensures var b := EncodeConfigCas(c).value;
      && PartAt(b, Domains.ConfigCas, 1) == Some(c.storeId)
      && Reads(PartAt(b, Domains.ConfigCas, 2), ParseNonZeroU64, c.generation)
      && PartAt(b, Domains.ConfigCas, 3) == Some(c.exactContentSha256)
      && PartAt(b, Domains.ConfigCas, 4) == Some(c.locationSha256)
  {
    hide EncodeFields; hide PartAt; hide NonZeroU64Bytes; hide ParseNonZeroU64;
    var f, b := ConfigCasFields(c), EncodeConfigCas(c).value;
    EncodedAt(b, Domains.ConfigCas, f);
    assert PartAt(b, Domains.ConfigCas, f[0].tag) == Some(f[0].value);
    assert PartAt(b, Domains.ConfigCas, f[1].tag) == Some(f[1].value);
    assert PartAt(b, Domains.ConfigCas, f[2].tag) == Some(f[2].value);
    assert PartAt(b, Domains.ConfigCas, f[3].tag) == Some(f[3].value);
  }

  lemma DescriptorSays(d: CleanupDescriptor)
    requires EncodeCleanupDescriptor(d).Ok?
    ensures var b := EncodeCleanupDescriptor(d).value;
      && PartAt(b, Domains.CleanupDescriptor, 1) == Some(d.cleanupId)
      && PartAt(b, Domains.CleanupDescriptor, 2) == Some([match d.locatorKind case ActiveV2 => 1 case LegacyV1 => 2])
      && PartAt(b, Domains.CleanupDescriptor, 3) == Some(d.locatorSha256)
      && PartAt(b, Domains.CleanupDescriptor, 4)
           == Some([match d.expectedState case Provisional => 1 case Ready => 2 case Claimed => 3 case Deleted => 4])
  {
    hide EncodeFields; hide PartAt;
    var f, b := CleanupDescriptorFields(d), EncodeCleanupDescriptor(d).value;
    EncodedAt(b, Domains.CleanupDescriptor, f);
    assert PartAt(b, Domains.CleanupDescriptor, f[0].tag) == Some(f[0].value);
    assert PartAt(b, Domains.CleanupDescriptor, f[1].tag) == Some(f[1].value);
    assert PartAt(b, Domains.CleanupDescriptor, f[2].tag) == Some(f[2].value);
    assert PartAt(b, Domains.CleanupDescriptor, f[3].tag) == Some(f[3].value);
  }

  /** Where an account snapshot's parts are. */
  ghost predicate SnapshotSaid(env: Env, b: seq<byte>, s: AccountSnapshot) {
    && PartAt(b, Domains.AccountSnapshot, 1) == Some(s.displayId)
    && PartAt(b, Domains.AccountSnapshot, 2) == Some(s.accountId)
    && Reads(PartAt(b, Domains.AccountSnapshot, 3), ParseNonZeroU64, s.generation)
    && PartAt(b, Domains.AccountSnapshot, 4) == Some(s.email)
    && PartAt(b, Domains.AccountSnapshot, 5) == Some(s.username)
    && PartAt(b, Domains.AccountSnapshot, 6)
         == Some([match s.credentialKind case Password => 1 case AppPassword => 2 case OAuth2 => 3])
    && PartAt(b, Domains.AccountSnapshot, 7) == Some(s.credentialId)
    && PartAt(b, Domains.AccountSnapshot, 8) == Some([0, 1])
    && PartAt(b, Domains.AccountSnapshot, 9) == Some(s.bindingSha256)
    && PartAt(b, Domains.AccountSnapshot, 10)
         == Some([match s.bindingState
                  case Quarantined => 1
                  case Proposed => 2
                  case Authorized => 3
                  case Invalidated => 4
                  case Mismatch => 5])
    && PartAt(b, Domains.AccountSnapshot, 11)
         == Some([match s.credentialState
                  case LegacyQuarantined => 1
                  case ReentryRequired => 2
                  case Missing => 3
                  case Bound => 4
                  case CredentialInvalidated => 5])
    && Reads(PartAt(b, Domains.AccountSnapshot, 12), ParseStateReason, s.stateReason)
    && Reads(PartAt(b, Domains.AccountSnapshot, 13), (x: seq<byte>) => ParseEndpoint(env, x), s.incoming)
    && Reads(PartAt(b, Domains.AccountSnapshot, 14), (x: seq<byte>) => ParseOptionalEndpoint(env, x), s.outgoing)
    && Reads(PartAt(b, Domains.AccountSnapshot, 15), (x: seq<byte>) => ParseList(x, ParseUuid, 100), s.cleanupIds)
  }

  lemma SnapshotSays(env: Env, s: AccountSnapshot)
    requires EncodeSnapshot(env, s).Ok?
    ensures SnapshotSaid(env, EncodeSnapshot(env, s).value, s)
  {
    hide EncodeFields; hide EncodeEndpoint; hide ParseEndpoint; hide EncodeList; hide ParseList; hide ValidConfig;
    hide ValidEmail; hide BindingBytes; hide OptionalEndpointBytes; hide ParseOptionalEndpoint; hide SnapshotFields;
    hide AnyControl; hide NoDuplicates; hide ParseUuid; hide SnapshotSaid; hide ValidDisplayId; hide ValidUsername;
    hide ValidStates;
    EndpointRoundTrip(env, s.incoming);
    OptionalEndpointRoundTrip(env, s.outgoing);
    CleanupIdsRoundTrip(s.cleanupIds);
    SnapshotFieldsSay(env, s, EncodeEndpoint(env, s.incoming).value, OptionalEndpointBytes(env, s.outgoing).value,
      EncodeList(s.cleanupIds, EncodeId).value, EncodeSnapshot(env, s).value);
  }

  lemma SnapshotFieldsSay(
    env: Env, s: AccountSnapshot, incoming: seq<byte>, outgoing: seq<byte>, cleanups: seq<byte>, b: seq<byte>)
    requires ParseEndpoint(env, incoming) == Ok(s.incoming) && ParseOptionalEndpoint(env, outgoing) == Ok(s.outgoing)
    requires ParseList(cleanups, ParseUuid, 100) == Ok(s.cleanupIds) && s.bindingVersion == 1
    requires var f := SnapshotFields(s, incoming, outgoing, cleanups);
      EncodeFields(Domains.Bytes(Domains.AccountSnapshot), f) == Ok(b)
    ensures SnapshotSaid(env, b, s)
  {
    hide EncodeFields; hide ParseEndpoint; hide ParseOptionalEndpoint; hide ParseList; hide PartAt; hide ParseUuid;
    hide ParseNonZeroU64; hide NonZeroU64Bytes; hide U16Bytes; hide ValidUtf8; hide ParseStateReason;
    hide StateReasonBytes;
    TwoIsU16(1);
    var f := SnapshotFields(s, incoming, outgoing, cleanups);
    EncodedAt(b, Domains.AccountSnapshot, f);
    assert PartAt(b, Domains.AccountSnapshot, f[0].tag) == Some(f[0].value);
    assert PartAt(b, Domains.AccountSnapshot, f[1].tag) == Some(f[1].value);
    assert PartAt(b, Domains.AccountSnapshot, f[2].tag) == Some(f[2].value);
    assert PartAt(b, Domains.AccountSnapshot, f[3].tag) == Some(f[3].value);
    assert PartAt(b, Domains.AccountSnapshot, f[4].tag) == Some(f[4].value);
    assert PartAt(b, Domains.AccountSnapshot, f[5].tag) == Some(f[5].value);
    assert PartAt(b, Domains.AccountSnapshot, f[6].tag) == Some(f[6].value);
    assert PartAt(b, Domains.AccountSnapshot, f[7].tag) == Some(f[7].value);
    assert PartAt(b, Domains.AccountSnapshot, f[8].tag) == Some(f[8].value);
    assert PartAt(b, Domains.AccountSnapshot, f[9].tag) == Some(f[9].value);
    assert PartAt(b, Domains.AccountSnapshot, f[10].tag) == Some(f[10].value);
    assert PartAt(b, Domains.AccountSnapshot, f[11].tag) == Some(f[11].value);
    assert PartAt(b, Domains.AccountSnapshot, f[12].tag) == Some(f[12].value);
    assert PartAt(b, Domains.AccountSnapshot, f[13].tag) == Some(f[13].value);
    assert PartAt(b, Domains.AccountSnapshot, f[14].tag) == Some(f[14].value);
  }

  /** A proof's four fields, each where it belongs. */
  lemma ProofSays(p: Proof)
    requires EncodeProof(p).Ok?
    ensures var b := EncodeProof(p).value;
      && PartAt(b, Domains.AuthorizationProof, 1) == Some(p.challengeId)
      && PartAt(b, Domains.AuthorizationProof, 2) == Some(p.keyId)
      && PartAt(b, Domains.AuthorizationProof, 3) == Some(p.signingPayload)
      && PartAt(b, Domains.AuthorizationProof, 4) == Some(p.signature)
  {
    hide EncodeFields; hide PartAt;
    var f, b := ProofFields(p), EncodeProof(p).value;
    EncodedAt(b, Domains.AuthorizationProof, f);
    assert PartAt(b, Domains.AuthorizationProof, f[0].tag) == Some(f[0].value);
    assert PartAt(b, Domains.AuthorizationProof, f[1].tag) == Some(f[1].value);
    assert PartAt(b, Domains.AuthorizationProof, f[2].tag) == Some(f[2].value);
    assert PartAt(b, Domains.AuthorizationProof, f[3].tag) == Some(f[3].value);
  }

  // ----- the framing itself -----

  function Four(n: u32): seq<byte> { [n / 0x100_0000, n / 0x1_0000 % 0x100, n / 0x100 % 0x100, n % 0x100] }

  /** A field is its tag in two bytes, its length in four, and its value. */
  lemma FieldLayout(f: Field)
    requires |f.value| <= U32_MAX
    ensures FieldBytes(f) == Two(f.tag) + Four(|f.value|) + f.value
  {
    Encodings.BigEndian(f.tag);
    Encodings.BigEndian(|f.value|);
  }

  /** A transcript is its domain, its field count in two bytes, and its fields in
      order; a list likewise counts and numbers its items. */
  lemma TranscriptLayout(domain: seq<byte>, fields: seq<Field>)
    requires |fields| <= U16_MAX
    ensures Transcript(domain, fields) == domain + Two(|fields|) + BodyBytes(fields)
    ensures |fields| > 0 ==> BodyBytes(fields) == BodyBytes(fields[..|fields| - 1]) + FieldBytes(fields[|fields| - 1])
  {
    hide FieldBytes;
    Encodings.BigEndian(|fields|);
    if |fields| > 0 { BodyGrows(fields); }
  }

  lemma {:induction false} BodyGrows(fields: seq<Field>)
    requires |fields| > 0
    ensures BodyBytes(fields) == BodyBytes(fields[..|fields| - 1]) + FieldBytes(fields[|fields| - 1])
  {
    hide FieldBytes;
    var n := |fields|;
    if n == 1 {
      assert fields[..0] == [] && fields[1..] == [];
      assert FieldBytes(fields[0]) + [] == FieldBytes(fields[0]);
    } else {
      BodyGrows(fields[1..]);
      assert fields[1..][..n - 2] == fields[..n - 1][1..];
      assert fields[1..][n - 2] == fields[n - 1];
      assert BodyBytes(fields[..n - 1]) == FieldBytes(fields[0]) + BodyBytes(fields[..n - 1][1..]);
    }
  }

  /** A signed number's bits are the number modulo 2^64. */
  lemma SignedLayout(n: i64)
    ensures ParseU64(I64Bytes(n)) == Ok(n % 0x1_0000_0000_0000_0000)
  {
    hide U64Bytes; hide ParseU64;
    Encodings.SignedBits(n);
    assert I64Bytes(n) == U64Bytes(I64Bits(n));
  }

  // ----- where a configuration file is -----

  lemma LocationSays(l: Location)
    requires LocationBytes(l).Ok?
    ensures var b := LocationBytes(l).value;
      match l
      case Unix(device, inode, component) =>
        && PartAt(b, Domains.ConfigLocation, 1) == Some([1])
        && Reads(PartAt(b, Domains.ConfigLocation, 0x10), ParseU64, device)
        && Reads(PartAt(b, Domains.ConfigLocation, 0x11), ParseU64, inode)
        && PartAt(b, Domains.ConfigLocation, 0x12) == Some(component)
      case Windows(serial, index, units) =>
        && PartAt(b, Domains.ConfigLocation, 1) == Some([2])
        && Reads(PartAt(b, Domains.ConfigLocation, 0x20), ParseU64, serial)
        && Reads(PartAt(b, Domains.ConfigLocation, 0x21), ParseU64, index)
        && PartAt(b, Domains.ConfigLocation, 0x22) == Some(Utf16Le(units))
  {
    hide EncodeFields; hide PartAt; hide Be; hide ParseU64; hide Utf16Le;
    var f, b := LocationFields(l), LocationBytes(l).value;
    EncodedAt(b, Domains.ConfigLocation, f);
    if l.Unix? { NumberReads(l.parentDevice); NumberReads(l.parentInode); }
    if l.Windows? { NumberReads(l.volumeSerial); NumberReads(l.parentFileIndex); }
    assert PartAt(b, Domains.ConfigLocation, f[0].tag) == Some(f[0].value);
    assert PartAt(b, Domains.ConfigLocation, f[1].tag) == Some(f[1].value);
    assert PartAt(b, Domains.ConfigLocation, f[2].tag) == Some(f[2].value);
    assert PartAt(b, Domains.ConfigLocation, f[3].tag) == Some(f[3].value);
  }

  lemma NumberReads(n: u64)
    ensures ParseU64(Be(n, 8)) == Ok(n)
  {
    assert ParseU64(U64Bytes(n)) == Ok(n);
  }
}
