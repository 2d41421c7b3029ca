/** Which numbered field of a sealed manifest holds what, read from its bytes. */
module WireLayout {
  import opened Basics
  import opened Utf8
  import opened Framing
  import opened Accounts
  import opened Wire
  import opened ManifestTypes
  import opened SendCodec
  import opened MailboxCodec
  import opened AccountCodec
  import opened TrustCodec
  import opened Manifests
  import opened Sealing
  import opened SealedExactly
  import Actions
  import Domains

  // ----- looking a field up -----

  function Find(f: seq<Field>, tag: u16): Option<seq<byte>> {
    if |f| == 0 then None else if f[0].tag == tag then Some(f[0].value) else Find(f[1..], tag)
  }

  /** The value of a field of the transcript that some bytes are. */
  function FieldAt(bytes: seq<byte>, tag: u16): Option<seq<byte>> {
    match ParseFieldsAny(bytes, Domains.Bytes(Domains.Manifest))
    case Err(_) => None
    case Ok(f) => Find(f, tag)
  }

  lemma {:induction false} FindAt(f: seq<Field>, i: nat)
    requires Increasing(f) && i < |f|
    ensures Find(f, f[i].tag) == Some(f[i].value)
  {
    if i > 0 {
      assert f[0].tag < f[i].tag;
      FindAt(f[1..], i - 1);
    }
  }

  /** A sealed manifest's fields: the nine common ones, then its payload's. */
  lemma SealedFields(env: Env, m: Manifest)
    requires NewManifest(env, m.context, m.payload) == Ok(m)
    ensures EncodePayload(env, m.payload).Ok? && ValidatePayload(env, m.context, m.payload).Ok?
    ensures var f := CommonFields(m.context, ActionOf(m.payload)) + EncodePayload(env, m.payload).value;
      ParseFieldsAny(m.bytes, Domains.Bytes(Domains.Manifest)) == Ok(f) && Increasing(f)
  {
    hide EncodePayload; hide ValidatePayload; hide CommonFields; hide EncodeFields; hide ParseFieldsAny;
    hide ValidateCommon; hide ActionOf;
    var f := CommonFields(m.context, ActionOf(m.payload)) + EncodePayload(env, m.payload).value;
    PayloadRoundTrip(env, m.context, m.payload);
    HeadRoundTrip(m.context, ActionOf(m.payload));
    FramingIsBijective(m.bytes, Domains.Bytes(Domains.Manifest), f);
    EncodeFieldsExact(Domains.Bytes(Domains.Manifest), f);
  }

  lemma CommonAt(env: Env, m: Manifest, i: nat)
    requires NewManifest(env, m.context, m.payload) == Ok(m) && i < 9
    ensures |CommonFields(m.context, ActionOf(m.payload))| == 9
    ensures var f := CommonFields(m.context, ActionOf(m.payload))[i]; FieldAt(m.bytes, f.tag) == Some(f.value)
  {
    hide NewManifest; hide CommonFields; hide EncodePayload; hide ParseFieldsAny; hide Find; hide ValidatePayload;
    SealedFields(env, m);
    HeadRoundTrip(m.context, ActionOf(m.payload));
    FindAt(CommonFields(m.context, ActionOf(m.payload)) + EncodePayload(env, m.payload).value, i);
  }

  lemma PayloadAt(env: Env, m: Manifest, i: nat)
    requires NewManifest(env, m.context, m.payload) == Ok(m)
    ensures EncodePayload(env, m.payload).Ok?
    ensures i < |EncodePayload(env, m.payload).value| ==>
      var f := EncodePayload(env, m.payload).value[i]; FieldAt(m.bytes, f.tag) == Some(f.value)
  {
    hide NewManifest; hide CommonFields; hide EncodePayload; hide ParseFieldsAny; hide Find; hide ValidatePayload;
    SealedFields(env, m);
    HeadRoundTrip(m.context, ActionOf(m.payload));
    if i < |EncodePayload(env, m.payload).value| {
      FindAt(CommonFields(m.context, ActionOf(m.payload)) + EncodePayload(env, m.payload).value, 9 + i);
    }
  }

  // ----- the common fields -----

  /** The permanent codes of a payload: action, target kind, effect. */
  function Codes(p: Payload): (u16, u16, u16) {
    match p
    case SendPayload(_) => (0x0001, 1, 1)
    case MailSeen(_) => (0x0010, 1, 2)
    case MailStarred(_) => (0x0011, 1, 3)
    case MailMove(_) => (0x0012, 1, 4)
    case MailArchive(_) => (0x0013, 1, 5)
    case MailSafeDelete(_) => (0x0014, 1, 6)
    case EnrollPayload(_) => (0x0100, 2, 0)
    case AccountCreate(_) => (0x0110, 3, 0)
    case AccountUpdate(_) => (0x0111, 3, 0)
    case AccountRemove(_) => (0x0112, 3, 0)
    case CredentialSet(_) => (0x0120, 4, 0)
    case CredentialDelete(_) => (0x0121, 4, 0)
    case CleanupPayload(_) => (0x0122, 5, 0)
    case OwnerRotate(_) => (0x0210, 8, 0)
    case RecoveryRotate(_) => (0x0211, 8, 0)
    case RecoverPayload(_) => (0x0212, 8, 0)
    case ClosePayload(_) => (0x0220, 9, 0)
  }

  /** Two bytes, most significant first. */
  function Two(n: u16): seq<byte> { [n / 256, n % 256] }

  lemma TwoIsU16(n: u16)
    ensures U16Bytes(n) == Two(n)
  {
    assert Be(n, 2) == Be(n / 256, 1) + [n % 256];
  }

  lemma CodeTable(p: Payload)
    ensures Actions.Code(ActionOf(p)) == Codes(p).0
    ensures Actions.TargetKindCode(Actions.TargetKindOf(ActionOf(p))) == Codes(p).1
    ensures Actions.EffectKindCode(Actions.EffectOf(ActionOf(p))) == Codes(p).2
  {
  }

  lemma CodesAre(c: Context, p: Payload)
    requires Actions.KindOfTarget(c.target) == Actions.TargetKindOf(ActionOf(p))
    ensures var f := CommonFields(c, ActionOf(p));
      && f[0] == Field(1, Two(Codes(p).0)) && f[1] == Field(2, Two(Codes(p).1)) && f[7] == Field(8, Two(Codes(p).2))
  {
    hide U16Bytes; hide Actions.TargetBytes; hide Actions.KindOfTarget; hide ActionOf; hide Codes; hide Actions.Code;
    hide Actions.TargetKindCode; hide Actions.EffectKindCode; hide Actions.TargetKindOf; hide Actions.EffectOf;
    hide Two;
    CodeTable(p);
    TwoIsU16(Codes(p).0);
    TwoIsU16(Codes(p).1);
    TwoIsU16(Codes(p).2);
  }

  lemma KindsAgree(env: Env, m: Manifest)
    requires NewManifest(env, m.context, m.payload) == Ok(m)
    ensures Actions.KindOfTarget(m.context.target) == Actions.TargetKindOf(ActionOf(m.payload))
  {
    hide ValidatePayload; hide EncodePayload; hide EncodeFields; hide CommonFields; hide ActionOf;
  }

  /** The head of every manifest: permanent codes ... */
  lemma HeadSays(env: Env, m: Manifest)
    requires NewManifest(env, m.context, m.payload) == Ok(m)
    ensures FieldAt(m.bytes, 1) == Some(Two(Codes(m.payload).0))
    ensures FieldAt(m.bytes, 2) == Some(Two(Codes(m.payload).1))
    ensures FieldAt(m.bytes, 8) == Some(Two(Codes(m.payload).2))
  {
    hide NewManifest; hide FieldAt; hide ActionOf; hide Codes; hide U16Bytes; hide Actions.Code;
    hide Actions.TargetBytes;
    hide Actions.TargetKindCode; hide Actions.EffectKindCode; hide Actions.KindOfTarget; hide Actions.EffectOf;
    hide CommonFields; hide Two; hide OptionalUuidBytes; hide OptionalDigestBytes;
    KindsAgree(env, m);
    CodesAre(m.context, m.payload);
    CommonAt(env, m, 0); CommonAt(env, m, 1); CommonAt(env, m, 7);
  }

  /** ... and the context. */
  lemma ContextSays(env: Env, m: Manifest)
    requires NewManifest(env, m.context, m.payload) == Ok(m)
    ensures FieldAt(m.bytes, 3) == Some(Actions.TargetBytes(m.context.target))
    ensures FieldAt(m.bytes, 4) == Some(OptionalUuidBytes(m.context.storeId))
    ensures FieldAt(m.bytes, 5) == Some(OptionalUuidBytes(m.context.accountId))
    ensures FieldAt(m.bytes, 6) == Some(OptionalDigestBytes(m.context.binding))
    ensures FieldAt(m.bytes, 7) == Some(OptionalDigestBytes(m.context.policy))
    ensures FieldAt(m.bytes, 9) == Some(OptionalUuidBytes(m.context.effectId))
  {
    hide NewManifest; hide FieldAt; hide ActionOf; hide U16Bytes; hide Actions.Code; hide Actions.TargetBytes;
    hide Actions.TargetKindCode; hide Actions.EffectKindCode; hide Actions.KindOfTarget; hide Actions.EffectOf;
    hide OptionalUuidBytes; hide OptionalDigestBytes;
    CommonAt(env, m, 2); CommonAt(env, m, 3); CommonAt(env, m, 4); CommonAt(env, m, 5); CommonAt(env, m, 6);
    CommonAt(env, m, 8);
  }

  // ----- the payloads -----

  /** A field that a parser reads back as a value. */
  predicate Reads<T(==)>(field: Option<seq<byte>>, parse: seq<byte> -> Result<T>, value: T) {
    field.Some? && parse(field.value) == Ok(value)
  }

  lemma NumberedAt(env: Env, m: Manifest, i: nat)
    requires NewManifest(env, m.context, m.payload) == Ok(m)
    ensures EncodePayload(env, m.payload).Ok?
    ensures var f := EncodePayload(env, m.payload).value;
      i < |f| <= 16 ==> FieldAt(m.bytes, 0x100 + i) == Some(f[i].value)
  {
    hide NewManifest; hide EncodePayload; hide FieldAt; hide ValidatePayload; hide CommonFields;
    PayloadAt(env, m, i);
    SealedFields(env, m);
    var tags := PayloadIsTagged(env, m.context, m.payload);
  }

  /** The fields a payload's layout consists of, as looked up in the bytes. */
  ghost predicate LaidOut(bytes: seq<byte>, f: seq<Field>) {
    |f| <= 16 && forall i | 0 <= i < |f| :: FieldAt(bytes, 0x100 + i) == Some(f[i].value)
  }

  lemma PayloadIsLaidOut(env: Env, m: Manifest)
    requires NewManifest(env, m.context, m.payload) == Ok(m)
    ensures EncodePayload(env, m.payload).Ok? && LaidOut(m.bytes, EncodePayload(env, m.payload).value)
  {
    hide NewManifest; hide EncodePayload; hide FieldAt; hide ValidatePayload; hide CommonFields;
    SealedFields(env, m);
    var tags := PayloadIsTagged(env, m.context, m.payload);
    var f := EncodePayload(env, m.payload).value;
    forall i | 0 <= i < |f| ensures FieldAt(m.bytes, 0x100 + i) == Some(f[i].value) {
      NumberedAt(env, m, i);
    }
  }

  /** Where a mailbox operation's parts are. */
  ghost predicate MailboxSaid(bytes: seq<byte>, v: Mailbox) {
    && Reads(FieldAt(bytes, 0x100), ParseNonZeroU64, v.accountGeneration)
    && FieldAt(bytes, 0x101) == Some(v.sourceMailbox)
    && Reads(FieldAt(bytes, 0x102), ParseNonZeroU32, v.uidValidity)
    && Reads(FieldAt(bytes, 0x103), ParseNonZeroU32, v.uid)
    && Reads(FieldAt(bytes, 0x104), ParseOptionalBool, v.requestedValue)
    && Reads(FieldAt(bytes, 0x105), ParseOptionalText, v.requestedDestination)
    && FieldAt(bytes, 0x106) == Some([match v.specialUse case NoSpecialUse => 0 case Archive => 1 case Trash => 2])
    && Reads(FieldAt(bytes, 0x107), ParseOptionalText, v.resolvedDestination)
    && FieldAt(bytes, 0x108)
         == Some([match v.strategy case StoreFlags => 1 case UidMove => 2 case CopyThenMarkDeleted => 3])
    && FieldAt(bytes, 0x109) == Some(v.capabilitySha256)
  }

  lemma MailboxSays(bytes: seq<byte>, v: Mailbox)
    requires LaidOut(bytes, MailboxFields(v))
    ensures MailboxSaid(bytes, v)
  {
    hide FieldAt; hide ParseOptionalText; hide OptionalTextBytes; hide ValidUtf8;
    hide ParseNonZeroU64; hide ParseNonZeroU32; hide NonZeroU64Bytes; hide NonZeroU32Bytes; hide ParseOptionalBool;
    hide OptionalBoolBytes;
    var f := MailboxFields(v);
    assert FieldAt(bytes, 0x100) == Some(f[0].value);
    assert FieldAt(bytes, 0x101) == Some(f[1].value);
    assert FieldAt(bytes, 0x102) == Some(f[2].value);
    assert FieldAt(bytes, 0x103) == Some(f[3].value);
    assert FieldAt(bytes, 0x104) == Some(f[4].value);
    assert FieldAt(bytes, 0x105) == Some(f[5].value);
    assert FieldAt(bytes, 0x106) == Some(f[6].value);
    assert FieldAt(bytes, 0x107) == Some(f[7].value);
    assert FieldAt(bytes, 0x108) == Some(f[8].value);
    assert FieldAt(bytes, 0x109) == Some(f[9].value);
    assert FieldAt(bytes, 0x10a) == Some(f[10].value);
  }

  // Sends.

  ghost predicate SendSaid(bytes: seq<byte>, v: SendSubmit) {
    && Reads(FieldAt(bytes, 0x100), ParseNonZeroU64, v.accountGeneration)
    && Reads(FieldAt(bytes, 0x101), ParseAddress, v.from)
    && Reads(FieldAt(bytes, 0x102), (b: seq<byte>) => ParseList(b, ParseAddress, 50), v.to)
    && Reads(FieldAt(bytes, 0x103), (b: seq<byte>) => ParseList(b, ParseAddress, 50), v.cc)
    && Reads(FieldAt(bytes, 0x104), (b: seq<byte>) => ParseList(b, ParseAddress, 50), v.bcc)
    && FieldAt(bytes, 0x105) == Some(v.subject)
    && Reads(FieldAt(bytes, 0x106), ParseOptionalText, v.text)
    && Reads(FieldAt(bytes, 0x107), ParseOptionalText, v.html)
    && Reads(FieldAt(bytes, 0x108), (b: seq<byte>) => ParseList(b, ParseAttachment, 25), v.attachments)
    && FieldAt(bytes, 0x109) == Some(v.messageId) && Reads(FieldAt(bytes, 0x10a), ParseI64, v.dateUnixMs)
    && FieldAt(bytes, 0x10b) == Some([0, 1]) && FieldAt(bytes, 0x10c) == Some(v.mimeBoundary)
    && Reads(FieldAt(bytes, 0x10d), ParseOptionalText, v.inReplyTo)
    && Reads(FieldAt(bytes, 0x10e), (b: seq<byte>) => ParseList(b, ParseText, 100), v.references)
    && Reads(FieldAt(bytes, 0x10f), ParseOptionalDigest, v.canonicalRfc822Sha256)
  }

  lemma SendSays(bytes: seq<byte>, v: SendSubmit)
    requires EncodeSend(v).Ok? && LaidOut(bytes, EncodeSend(v).value)
    ensures SendSaid(bytes, v)
  {
    hide FieldAt; hide EncodeAddress; hide EncodeList; hide ParseList; hide ParseAddress; hide ParseAttachment;
    hide EncodeAttachment; hide ParseText; hide ParseOptionalText; hide OptionalTextBytes; hide ValidUtf8;
    hide AttachmentTotal; hide ValidAddress; hide AnyControl; hide ValidMessageId; hide ValidAsciiToken; hide CharCount;
    hide NonZeroU64Bytes; hide I64Bytes; hide U16Bytes; hide ParseNonZeroU64; hide ParseI64; hide ParseOptionalDigest;
    hide OptionalDigestBytes; hide SendSaid; hide SendFields; hide LaidOut;
    SendListsParse(v);
    SendFieldsSay(bytes, v, EncodeAddress(v.from).value, EncodeList(v.to, EncodeAddress).value,
      EncodeList(v.cc, EncodeAddress).value, EncodeList(v.bcc, EncodeAddress).value,
      EncodeList(v.attachments, EncodeAttachment).value, EncodeList(v.references, EncodeReference).value);
  }

  lemma SendListsParse(s: SendSubmit)
    requires EncodeSend(s).Ok?
    ensures EncodeAddress(s.from).Ok? && ParseAddress(EncodeAddress(s.from).value) == Ok(s.from)
    ensures EncodeList(s.to, EncodeAddress).Ok? && EncodeList(s.cc, EncodeAddress).Ok?
    ensures EncodeList(s.bcc, EncodeAddress).Ok? && EncodeList(s.attachments, EncodeAttachment).Ok?
    ensures EncodeList(s.references, EncodeReference).Ok?
    ensures ParseList(EncodeList(s.to, EncodeAddress).value, ParseAddress, 50) == Ok(s.to)
    ensures ParseList(EncodeList(s.cc, EncodeAddress).value, ParseAddress, 50) == Ok(s.cc)
    ensures ParseList(EncodeList(s.bcc, EncodeAddress).value, ParseAddress, 50) == Ok(s.bcc)
    ensures ParseList(EncodeList(s.attachments, EncodeAttachment).value, ParseAttachment, 25) == Ok(s.attachments)
    ensures ParseList(EncodeList(s.references, EncodeReference).value, ParseText, 100) == Ok(s.references)
    ensures EncodeSend(s).value == SendFields(s, EncodeAddress(s.from).value, EncodeList(s.to, EncodeAddress).value,
      EncodeList(s.cc, EncodeAddress).value, EncodeList(s.bcc, EncodeAddress).value,
      EncodeList(s.attachments, EncodeAttachment).value, EncodeList(s.references, EncodeReference).value)
  {
    hide EncodeAddress; hide ParseAddress; hide EncodeList; hide ParseList; hide SendFields; hide AttachmentTotal;
    hide AnyControl; hide ValidAddress; hide ValidUtf8; hide EncodeAttachment; hide ParseAttachment; hide ParseText;
    AddressRoundTrip(s.from);
    AddressListRoundTrip(s.to);
    AddressListRoundTrip(s.cc);
    AddressListRoundTrip(s.bcc);
    AttachmentListRoundTrip(s.attachments);
    ReferenceListRoundTrip(s.references);
  }

  lemma SendFieldsSay(bytes: seq<byte>, s: SendSubmit, from: seq<byte>, to: seq<byte>, cc: seq<byte>, bcc: seq<byte>,
      attachments: seq<byte>, references: seq<byte>)
    requires LaidOut(bytes, SendFields(s, from, to, cc, bcc, attachments, references))
    requires ParseAddress(from) == Ok(s.from)
    requires ParseList(to, ParseAddress, 50) == Ok(s.to)
    requires ParseList(cc, ParseAddress, 50) == Ok(s.cc)
    requires ParseList(bcc, ParseAddress, 50) == Ok(s.bcc)
    requires ParseList(attachments, ParseAttachment, 25) == Ok(s.attachments)
    requires ParseList(references, ParseText, 100) == Ok(s.references)
    ensures SendSaid(bytes, s)
  {
    hide FieldAt; hide ParseAddress; hide ParseList; hide ParseAttachment; hide ParseText; hide ParseOptionalText;
    hide ParseOptionalDigest; hide ParseI64; hide ParseU16; hide ParseNonZeroU64; hide ValidAddress; hide ValidUtf8;
    hide U16Bytes; hide I64Bytes; hide NonZeroU64Bytes; hide OptionalTextBytes; hide OptionalDigestBytes;
    TwoIsU16(1);
    var f := SendFields(s, from, to, cc, bcc, attachments, references);
    assert FieldAt(bytes, 0x100) == Some(f[0].value);
    assert FieldAt(bytes, 0x101) == Some(f[1].value);
    assert FieldAt(bytes, 0x102) == Some(f[2].value);
    assert FieldAt(bytes, 0x103) == Some(f[3].value);
    assert FieldAt(bytes, 0x104) == Some(f[4].value);
    assert FieldAt(bytes, 0x105) == Some(f[5].value);
    assert FieldAt(bytes, 0x106) == Some(f[6].value);
    assert FieldAt(bytes, 0x107) == Some(f[7].value);
    assert FieldAt(bytes, 0x108) == Some(f[8].value);
    assert FieldAt(bytes, 0x109) == Some(f[9].value);
    assert FieldAt(bytes, 0x10a) == Some(f[10].value);
    assert FieldAt(bytes, 0x10b) == Some(f[11].value);
    assert FieldAt(bytes, 0x10c) == Some(f[12].value);
    assert FieldAt(bytes, 0x10d) == Some(f[13].value);
    assert FieldAt(bytes, 0x10e) == Some(f[14].value);
    assert FieldAt(bytes, 0x10f) == Some(f[15].value);
  }

  // Account and credential mutations.

  ghost predicate MutationSaid(env: Env, bytes: seq<byte>, v: AccountMutation) {
    && FieldAt(bytes, 0x100) == Some(v.transitionId)
    && Reads(FieldAt(bytes, 0x101), ParseConfigCas, v.configCas)
    && Reads(FieldAt(bytes, 0x102), (b: seq<byte>) => ParseOptionalSnapshot(env, b), v.before)
    && Reads(FieldAt(bytes, 0x103), (b: seq<byte>) => ParseOptionalSnapshot(env, b), v.after)
    && Reads(FieldAt(bytes, 0x104), ParseNonZeroU64, v.nextConfigGeneration)
    && FieldAt(bytes, 0x105) == Some(v.afterConfigSha256)
    && (|v.cleanup| <= 100 ==>
          Reads(FieldAt(bytes, 0x106), (b: seq<byte>) => ParseList(b, ParseCleanupDescriptor, 100), v.cleanup))
  }

  lemma MutationSays(env: Env, bytes: seq<byte>, v: AccountMutation, more: seq<Field>)
    requires EncodeMutation(env, v).Ok? && LaidOut(bytes, EncodeMutation(env, v).value + more)
    ensures MutationSaid(env, bytes, v)
    ensures |more| == 1 ==> FieldAt(bytes, 0x107) == Some(more[0].value)
  {
    hide FieldAt; hide EncodeConfigCas; hide ParseConfigCas; hide OptionalSnapshotBytes; hide ParseOptionalSnapshot;
    hide EncodeList; hide ParseList; hide EncodeCleanupDescriptor; hide ParseCleanupDescriptor; hide ParseNonZeroU64;
    hide NonZeroU64Bytes;
    ConfigCasRoundTrip(v.configCas);
    OptionalSnapshotRoundTrip(env, v.before);
    OptionalSnapshotRoundTrip(env, v.after);
    CleanupListRoundTrip(v.cleanup);
    var f := EncodeMutation(env, v).value + more;
    assert FieldAt(bytes, 0x100) == Some(f[0].value);
    assert FieldAt(bytes, 0x101) == Some(f[1].value);
    assert FieldAt(bytes, 0x102) == Some(f[2].value);
    assert FieldAt(bytes, 0x103) == Some(f[3].value);
    assert FieldAt(bytes, 0x104) == Some(f[4].value);
    assert FieldAt(bytes, 0x105) == Some(f[5].value);
    assert FieldAt(bytes, 0x106) == Some(f[6].value);
    assert |more| == 1 ==> FieldAt(bytes, 0x107) == Some(f[7].value);
  }

  // The small payloads.

  ghost predicate EnrollSaid(bytes: seq<byte>, v: StoreEnroll) {
    && FieldAt(bytes, 0x100) == Some(v.transitionId) && Reads(FieldAt(bytes, 0x101), ParseConfigCas, v.configCas)
    && FieldAt(bytes, 0x102) == Some([0])
  }

  lemma EnrollSays(bytes: seq<byte>, v: StoreEnroll)
    requires EncodeEnroll(v).Ok? && LaidOut(bytes, EncodeEnroll(v).value)
    ensures EnrollSaid(bytes, v)
  {
    hide FieldAt; hide EncodeConfigCas; hide ParseConfigCas;
    ConfigCasRoundTrip(v.configCas);
    var f := EncodeEnroll(v).value;
    assert FieldAt(bytes, 0x100) == Some(f[0].value);
    assert FieldAt(bytes, 0x101) == Some(f[1].value);
    assert FieldAt(bytes, 0x102) == Some(f[2].value);
  }

  ghost predicate CleanupSaid(bytes: seq<byte>, v: CredentialCleanup) {
    && FieldAt(bytes, 0x100) == Some(v.cleanupId)
    && FieldAt(bytes, 0x101) == Some([match v.locatorKind case ActiveV2 => 1 case LegacyV1 => 2])
    && FieldAt(bytes, 0x102) == Some(v.locatorSha256) && FieldAt(bytes, 0x103) == Some(v.tombstoneSha256)
    && Reads(FieldAt(bytes, 0x104), ParseOptionalUuid, v.transitionId)
    && FieldAt(bytes, 0x105)
         == Some([match v.expectedState case Provisional => 1 case Ready => 2 case Claimed => 3 case Deleted => 4])
  }

  lemma CleanupSays(bytes: seq<byte>, v: CredentialCleanup)
    requires LaidOut(bytes, CleanupFields(v))
    ensures CleanupSaid(bytes, v)
  {
    hide FieldAt; hide ParseOptionalUuid; hide OptionalUuidBytes;
    var f := CleanupFields(v);
    assert FieldAt(bytes, 0x100) == Some(f[0].value);
    assert FieldAt(bytes, 0x101) == Some(f[1].value);
    assert FieldAt(bytes, 0x102) == Some(f[2].value);
    assert FieldAt(bytes, 0x103) == Some(f[3].value);
    assert FieldAt(bytes, 0x104) == Some(f[4].value);
    assert FieldAt(bytes, 0x105) == Some(f[5].value);
  }

  ghost predicate RotationSaid(bytes: seq<byte>, v: TrustRotation) {
    && FieldAt(bytes, 0x100) == Some(v.transitionId)
    && FieldAt(bytes, 0x101) == Some([match v.role case Owner => 1 case Recovery => 2])
    && FieldAt(bytes, 0x102) == Some(v.oldKeyId) && FieldAt(bytes, 0x103) == Some(v.oldPublicKey)
    && FieldAt(bytes, 0x104) == Some(v.newKeyId) && FieldAt(bytes, 0x105) == Some(v.newPublicKey)
    && Reads(FieldAt(bytes, 0x106), ParseNonZeroU64, v.oldEpoch)
    && Reads(FieldAt(bytes, 0x107), ParseNonZeroU64, v.newEpoch)
    && FieldAt(bytes, 0x108) == Some(v.oldBundle) && FieldAt(bytes, 0x109) == Some(v.newBundle)
    && FieldAt(bytes, 0x10a) == Some([0, 0, 0, if v.permissions.OwnerMask? then 7 else 8])
  }

  lemma FourBytes(n: u32)
    requires n < 256
    ensures U32Bytes(n) == [0, 0, 0, n]
  {
    assert Be(n, 4) == Be(n / 256, 3) + [n % 256];
    assert Be(0, 3) == Be(0, 2) + [0] && Be(0, 2) == Be(0, 1) + [0] && Be(0, 1) == Be(0, 0) + [0];
  }

  lemma RotationSays(bytes: seq<byte>, v: TrustRotation)
    requires LaidOut(bytes, RotationFields(v))
    ensures RotationSaid(bytes, v)
  {
    hide FieldAt; hide ParseNonZeroU64; hide NonZeroU64Bytes; hide U32Bytes;
    FourBytes(7);
    FourBytes(8);
    var f := RotationFields(v);
    assert FieldAt(bytes, 0x100) == Some(f[0].value);
    assert FieldAt(bytes, 0x101) == Some(f[1].value);
    assert FieldAt(bytes, 0x102) == Some(f[2].value);
    assert FieldAt(bytes, 0x103) == Some(f[3].value);
    assert FieldAt(bytes, 0x104) == Some(f[4].value);
    assert FieldAt(bytes, 0x105) == Some(f[5].value);
    assert FieldAt(bytes, 0x106) == Some(f[6].value);
    assert FieldAt(bytes, 0x107) == Some(f[7].value);
    assert FieldAt(bytes, 0x108) == Some(f[8].value);
    assert FieldAt(bytes, 0x109) == Some(f[9].value);
    assert FieldAt(bytes, 0x10a) == Some(f[10].value);
  }

  ghost predicate RecoverSaid(bytes: seq<byte>, v: OwnerRecover) {
    && FieldAt(bytes, 0x100) == Some(v.transitionId) && FieldAt(bytes, 0x101) == Some(v.journalId)
    && Reads(FieldAt(bytes, 0x102), ParseNonZeroU64, v.oldEpoch)
    && Reads(FieldAt(bytes, 0x103), ParseNonZeroU64, v.newEpoch)
    && FieldAt(bytes, 0x104) == Some(v.oldBundle)
    && FieldAt(bytes, 0x105) == Some(v.newOwnerId) && FieldAt(bytes, 0x106) == Some(v.newOwnerKey)
    && FieldAt(bytes, 0x107) == Some(v.newRecoveryId) && FieldAt(bytes, 0x108) == Some(v.newRecoveryKey)
    && FieldAt(bytes, 0x109) == Some(v.newBundle) && FieldAt(bytes, 0x10a) == Some([1])
  }

  lemma RecoverSays(bytes: seq<byte>, v: OwnerRecover)
    requires LaidOut(bytes, RecoverFields(v))
    ensures RecoverSaid(bytes, v)
  {
    hide FieldAt; hide ParseNonZeroU64; hide NonZeroU64Bytes;
    var f := RecoverFields(v);
    assert FieldAt(bytes, 0x100) == Some(f[0].value);
    assert FieldAt(bytes, 0x101) == Some(f[1].value);
    assert FieldAt(bytes, 0x102) == Some(f[2].value);
    assert FieldAt(bytes, 0x103) == Some(f[3].value);
    assert FieldAt(bytes, 0x104) == Some(f[4].value);
    assert FieldAt(bytes, 0x105) == Some(f[5].value);
    assert FieldAt(bytes, 0x106) == Some(f[6].value);
    assert FieldAt(bytes, 0x107) == Some(f[7].value);
    assert FieldAt(bytes, 0x108) == Some(f[8].value);
    assert FieldAt(bytes, 0x109) == Some(f[9].value);
    assert FieldAt(bytes, 0x10a) == Some(f[10].value);
  }

  ghost predicate CloseSaid(bytes: seq<byte>, v: AmbiguousClose) {
    && FieldAt(bytes, 0x100) == Some(v.operationId) && FieldAt(bytes, 0x101) == Some(v.invocationId)
    && FieldAt(bytes, 0x102) == Some(v.originalManifestSha256) && FieldAt(bytes, 0x103) == Some(v.claimSha256)
    && Reads(FieldAt(bytes, 0x104), ParseOptionalDigest, v.observationSha256)
    && FieldAt(bytes, 0x105) == Some([match v.assertion case Occurred => 1 case NoEffectSeen => 2 case Unknown => 3])
    && FieldAt(bytes, 0x106) == Some(v.assertionText)
    && FieldAt(bytes, 0x107)
         == Some([match v.terminal
                  case ClosedSucceeded => 1
                  case ClosedFailedNoEffect => 2
                  case ClosedAmbiguous => 3])
  }

  lemma CloseSays(bytes: seq<byte>, v: AmbiguousClose)
    requires LaidOut(bytes, CloseFields(v))
    ensures CloseSaid(bytes, v)
  {
    hide FieldAt; hide ParseOptionalDigest; hide OptionalDigestBytes; hide ValidUtf8;
    var f := CloseFields(v);
    assert FieldAt(bytes, 0x100) == Some(f[0].value);
    assert FieldAt(bytes, 0x101) == Some(f[1].value);
    assert FieldAt(bytes, 0x102) == Some(f[2].value);
    assert FieldAt(bytes, 0x103) == Some(f[3].value);
    assert FieldAt(bytes, 0x104) == Some(f[4].value);
    assert FieldAt(bytes, 0x105) == Some(f[5].value);
    assert FieldAt(bytes, 0x106) == Some(f[6].value);
    assert FieldAt(bytes, 0x107) == Some(f[7].value);
  }

  // ----- all of them -----

  ghost predicate PayloadSaid(env: Env, bytes: seq<byte>, p: Payload) {
    match p
    case SendPayload(v) => SendSaid(bytes, v)
    case MailSeen(v) => MailboxSaid(bytes, v)
    case MailStarred(v) => MailboxSaid(bytes, v)
    case MailMove(v) => MailboxSaid(bytes, v)
    case MailArchive(v) => MailboxSaid(bytes, v)
    case MailSafeDelete(v) => MailboxSaid(bytes, v)
    case EnrollPayload(v) => EnrollSaid(bytes, v)
    case AccountCreate(v) => MutationSaid(env, bytes, v)
    case AccountUpdate(v) => MutationSaid(env, bytes, v)
    case AccountRemove(v) => MutationSaid(env, bytes, v)
    case CredentialSet(w) =>
      MutationSaid(env, bytes, w.account) && FieldAt(bytes, 0x107) == Some(w.activeLocatorSha256)
    case CredentialDelete(w) =>
      MutationSaid(env, bytes, w.account) && FieldAt(bytes, 0x107) == Some(w.activeLocatorSha256)
    case CleanupPayload(v) => CleanupSaid(bytes, v)
    case OwnerRotate(v) => RotationSaid(bytes, v)
    case RecoveryRotate(v) => RotationSaid(bytes, v)
    case RecoverPayload(v) => RecoverSaid(bytes, v)
    case ClosePayload(v) => CloseSaid(bytes, v)
  }

  /** The payload of every sealed manifest can be read off its bytes, part by part,
      each from the one numbered field that is its own. */
  lemma ManifestSays(env: Env, m: Manifest)
    requires NewManifest(env, m.context, m.payload) == Ok(m)
    ensures PayloadSaid(env, m.bytes, m.payload)
  {
    hide NewManifest; hide FieldAt; hide LaidOut; hide EncodeSend; hide EncodeMutation; hide EncodeEnroll;
    hide MailboxFields; hide CleanupFields; hide RotationFields; hide RecoverFields; hide CloseFields;
    hide SendSaid; hide MailboxSaid; hide EnrollSaid; hide MutationSaid; hide CleanupSaid; hide RotationSaid;
    hide RecoverSaid; hide CloseSaid; hide ValidMailbox; hide ValidatePayload;
    PayloadIsLaidOut(env, m);
    match m.payload {
      case SendPayload(v) => SendSays(m.bytes, v);
      case MailSeen(v) => MailboxSays(m.bytes, v);
      case MailStarred(v) => MailboxSays(m.bytes, v);
      case MailMove(v) => MailboxSays(m.bytes, v);
      case MailArchive(v) => MailboxSays(m.bytes, v);
      case MailSafeDelete(v) => MailboxSays(m.bytes, v);
      case EnrollPayload(v) => EnrollSays(m.bytes, v);
      case AccountCreate(v) => AloneSays(env, m.bytes, v);
      case AccountUpdate(v) => AloneSays(env, m.bytes, v);
      case AccountRemove(v) => AloneSays(env, m.bytes, v);
      case CredentialSet(w) =>
        MutationSays(env, m.bytes, w.account, [Field(0x107, Bytes32Bytes(w.activeLocatorSha256))]);
      case CredentialDelete(w) =>
        MutationSays(env, m.bytes, w.account, [Field(0x107, Bytes32Bytes(w.activeLocatorSha256))]);
      case CleanupPayload(v) => CleanupSays(m.bytes, v);
      case OwnerRotate(v) => RotationSays(m.bytes, v);
      case RecoveryRotate(v) => RotationSays(m.bytes, v);
      case RecoverPayload(v) => RecoverSays(m.bytes, v);
      case ClosePayload(v) => CloseSays(m.bytes, v);
    }
  }

  lemma AloneSays(env: Env, bytes: seq<byte>, v: AccountMutation)
    requires EncodeMutation(env, v).Ok? && LaidOut(bytes, EncodeMutation(env, v).value)
    ensures MutationSaid(env, bytes, v)
  {
    hide EncodeMutation; hide LaidOut; hide MutationSaid;
    assert EncodeMutation(env, v).value + [] == EncodeMutation(env, v).value;
    MutationSays(env, bytes, v, []);
  }
}
