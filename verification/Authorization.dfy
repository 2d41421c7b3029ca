/** Authorization transcripts derived from sealed manifests, and the detached
    proof that answers one. */
module Authorization {
  import opened Basics
  import opened Framing
  import opened Accounts
  import opened Wire
  import opened ManifestTypes
  import opened AccountCodec
  import opened Manifests
  import Actions
  import Domains

  const MAX_LIFETIME_MS := 900_000
  const MAX_EFFECTS := 8

  datatype Effect = Effect(effectId: Uuid4, kind: Actions.EffectKind)

  /** What the signer adds to the manifest. */
  datatype Grant = Grant(
    ownerRealm: Bytes32, trustBundle: Digest, signerKeyId: Digest, trustEpoch: NonZeroU64,
    grantId: Uuid4, nonce: Bytes32, issuedAt: i64, expiresAt: i64)

  /** The fields an authorization transcript carries. */
  datatype Body = Body(
    grant: Grant, action: Action, target: Target, storeId: Option<Uuid4>, accountId: Option<Uuid4>,
    manifestSha256: Digest, binding: Option<Digest>, policy: Option<Digest>, effects: seq<Effect>)

  datatype Transcribed = Transcribed(body: Body, bytes: seq<byte>, challengeId: Digest)

  // ----- the rules both sides check -----

  /** `checked_sub` refuses a difference that leaves 64 bits. */
  function ValidateTime(issued: i64, expires: i64): Result<()> {
    var duration := expires - issued;
    var _ :- Need(-0x8000_0000_0000_0000 <= duration < 0x8000_0000_0000_0000, AuthorizationMalformed);
    Need(0 < duration <= MAX_LIFETIME_MS, AuthorizationMalformed)
  }

  /** The per-action table of the parsing side. */
  predicate PresenceShape(
    action: Action, storeId: Option<Uuid4>, accountId: Option<Uuid4>, binding: Option<Digest>, policy: Option<Digest>)
  {
    match action
    case SendSubmit | MailSeen | MailStarred | MailMove | MailArchive | MailSafeDelete | AmbiguousClose =>
      storeId.Some? && accountId.Some? && binding.Some? && policy.Some?
    case StoreEnroll => storeId.Some? && accountId.None? && binding.None? && policy.None?
    case AccountCreate | AccountUpdate | AccountRemove | CredentialSet | CredentialDelete | CredentialCleanup =>
      storeId.Some? && accountId.Some? && binding.Some? && policy.None?
    case OwnerRotate | RecoveryRotate | OwnerRecover =>
      storeId.None? && accountId.None? && binding.None? && policy.None?
    case PolicyUpdate | AssuranceUpdate => false
  }

  function ValidatePresence(b: Body): Result<()> {
    var _ :- Need(Actions.KindOfTarget(b.target) == Actions.TargetKindOf(b.action), AuthorizationMalformed);
    Need(PresenceShape(b.action, b.storeId, b.accountId, b.binding, b.policy), AuthorizationMalformed)
  }

  function ValidateEffects(action: Action, effects: seq<Effect>): Result<()> {
    var expected := Actions.EffectOf(action);
    if expected.NoEffect?
    then Need(effects == [], AuthorizationMalformed)
    else Need(|effects| == 1 && effects[0].kind == expected, AuthorizationMalformed)
  }

  // ----- codec -----

  function EffectFields(e: Effect): seq<Field> {
    [Field(1, UuidBytes(e.effectId)), Field(2, U16Bytes(Actions.EffectKindCode(e.kind)))]
  }

  function EncodeEffect(e: Effect): Result<seq<byte>> {
    EncodeFields(Domains.Bytes(Domains.Effect), EffectFields(e))
  }

  function ParseEffect(bytes: seq<byte>): Result<Effect> {
    var f :- ParseFields(bytes, Domains.Bytes(Domains.Effect), 2);
    var _ :- ExpectTags(f, [1, 2]);
    var code :- ParseU16(f[1].value);
    var kind :- Actions.EffectKindFromCode(code);
    var _ :- Need(!kind.NoEffect?, AuthorizationMalformed);
    var effectId :- ParseUuid(f[0].value);
    Ok(Effect(effectId, kind))
  }

  lemma EffectRoundTrip(e: Effect)
    requires EncodeEffect(e).Ok?
    ensures ParseEffect(EncodeEffect(e).value) == if e.kind.NoEffect? then Err(AuthorizationMalformed) else Ok(e)
    ensures |EncodeEffect(e).value| <= 100
  {
    hide EncodeFields; hide ParseFields; hide ParseUuid; hide ParseU16; hide U16Bytes;
    var fields := EffectFields(e);
    ParseFieldsOfEncoding(Domains.Bytes(Domains.Effect), fields);
    EncodedSize(Domains.Bytes(Domains.Effect), fields);
    BodySizeAtMost(fields, 16);
    Actions.KindCodesRoundTrip(Actions.Operation, e.kind);
  }

  /** The first nine fields say what is authorized, the last eight by whom. */
  function SubjectFields(b: Body): seq<Field> {
    [Field(1, Bytes32Bytes(b.grant.ownerRealm)),
     Field(2, U16Bytes(Actions.Code(b.action))),
     Field(3, U16Bytes(Actions.TargetKindCode(Actions.KindOfTarget(b.target)))),
     Field(4, Actions.TargetBytes(b.target)),
     Field(5, OptionalUuidBytes(b.storeId)), Field(6, OptionalUuidBytes(b.accountId)),
     Field(7, Bytes32Bytes(b.manifestSha256)),
     Field(8, OptionalDigestBytes(b.binding)), Field(9, OptionalDigestBytes(b.policy))]
  }

  function GrantFields(g: Grant, effects: seq<byte>): seq<Field> {
    [Field(10, Bytes32Bytes(g.trustBundle)), Field(11, Bytes32Bytes(g.signerKeyId)),
     Field(12, NonZeroU64Bytes(g.trustEpoch)), Field(13, UuidBytes(g.grantId)), Field(14, Bytes32Bytes(g.nonce)),
     Field(15, I64Bytes(g.issuedAt)), Field(16, I64Bytes(g.expiresAt)), Field(17, effects)]
  }

  const SUBJECT_TAGS: seq<u16> := [1, 2, 3, 4, 5, 6, 7, 8, 9]
  const GRANT_TAGS: seq<u16> := [10, 11, 12, 13, 14, 15, 16, 17]

  function EncodeAuthorization(b: Body): Result<seq<byte>> {
    var effects :- EncodeList(b.effects, EncodeEffect);
    EncodeFields(Domains.Bytes(Domains.Authorization), SubjectFields(b) + GrantFields(b.grant, effects))
  }

  datatype Subject = Subject(
    ownerRealm: Bytes32, action: Action, target: Target, storeId: Option<Uuid4>, accountId: Option<Uuid4>,
    manifestSha256: Digest, binding: Option<Digest>, policy: Option<Digest>)

  function ParseSubject(f: seq<Field>): Result<Subject>
    requires |f| == 9
  {
    var ownerRealm :- ParseBytes32(f[0].value);
    var code :- ParseU16(f[1].value);
    var action :- Actions.FromCode(code);
    var kindCode :- ParseU16(f[2].value);
    var kind :- Actions.TargetKindFromCode(kindCode);
    var _ :- Need(kind == Actions.TargetKindOf(action), AuthorizationMalformed);
    var target :- Actions.ParseTarget(kind, f[3].value);
    var storeId :- ParseOptionalUuid(f[4].value);
    var accountId :- ParseOptionalUuid(f[5].value);
    var manifestSha256 :- ParseBytes32(f[6].value);
    var binding :- ParseOptionalDigest(f[7].value);
    var policy :- ParseOptionalDigest(f[8].value);
    Ok(Subject(ownerRealm, action, target, storeId, accountId, manifestSha256, binding, policy))
  }

  /** The grant's own fields, with the time check where the source makes it:
      before the effect list is read. */
  function ParseGrant(ownerRealm: Bytes32, f: seq<Field>): Result<Grant>
    requires |f| == 8
  {
    var trustBundle :- ParseBytes32(f[0].value);
    var signerKeyId :- ParseBytes32(f[1].value);
    var trustEpoch :- ParseNonZeroU64(f[2].value);
    var grantId :- ParseUuid(f[3].value);
    var nonce :- ParseBytes32(f[4].value);
    var issuedAt :- ParseI64(f[5].value);
    var expiresAt :- ParseI64(f[6].value);
    var _ :- ValidateTime(issuedAt, expiresAt);
    Ok(Grant(ownerRealm, trustBundle, signerKeyId, trustEpoch, grantId, nonce, issuedAt, expiresAt))
  }

  /** `AuthorizationPayload::parse`. */
  function ParseAuthorization(env: Env, bytes: seq<byte>): Result<Transcribed> {
    var _ :- Need(|bytes| <= MAX_MANIFEST_BYTES, ResourceLimit);
    var f :- ParseFields(bytes, Domains.Bytes(Domains.Authorization), 17);
    var _ :- ExpectTags(f, SUBJECT_TAGS + GRANT_TAGS);
    var s :- ParseSubject(f[..9]);
    var shape := Need(PresenceShape(s.action, s.storeId, s.accountId, s.binding, s.policy), AuthorizationMalformed);
    var _ :- shape;
    var grant :- ParseGrant(s.ownerRealm, f[9..]);
    var effects :- ParseList(f[16].value, ParseEffect, MAX_EFFECTS);
    var _ :- ValidateEffects(s.action, effects);
    var body := Body(grant, s.action, s.target, s.storeId, s.accountId, s.manifestSha256, s.binding, s.policy, effects);
    var canonical :- EncodeAuthorization(body);
    var _ :- Need(canonical == bytes, AuthorizationMalformed);
    Ok(Transcribed(body, bytes, (env.sha256)(bytes)))
  }

  // ----- derivation -----

  function DerivedEffects(m: Manifest): Result<seq<Effect>> {
    var kind := Actions.EffectOf(ActionOf(m.payload));
    match m.context.effectId
    case Some(id) => if kind.NoEffect? then Err(AuthorizationMalformed) else Ok([Effect(id, kind)])
    case None => if kind.NoEffect? then Ok([]) else Err(AuthorizationMalformed)
  }

  /** `AuthorizationPayload::new`. */
  function NewAuthorization(env: Env, m: Manifest, grant: Grant): Result<Transcribed> {
    var _ :- ValidateTime(grant.issuedAt, grant.expiresAt);
    var effects :- DerivedEffects(m);
    var c := m.context;
    var body := Body(grant, ActionOf(m.payload), c.target, c.storeId, c.accountId, m.sha256, c.binding, c.policy,
      effects);
    var bytes :- EncodeAuthorization(body);
    Ok(Transcribed(body, bytes, (env.sha256)(bytes)))
  }

  /** A manifest only ever leaves `ActionManifest::new`. */
  predicate Sealed(env: Env, m: Manifest) {
    NewManifest(env, m.context, m.payload) == Ok(m)
  }

  // ----- the two tables agree -----

  /** Whatever passes the manifest's own context validators fits the presence
      table of the authorization parser, action by action. */
  lemma TablesAgree(env: Env, c: Context, p: Payload)
    requires ValidateCommon(c, ActionOf(p)).Ok? && ValidatePayload(env, c, p).Ok?
    ensures PresenceShape(ActionOf(p), c.storeId, c.accountId, c.binding, c.policy)
    ensures Actions.KindOfTarget(c.target) == Actions.TargetKindOf(ActionOf(p))
  {
    hide Actions.KindOfTarget; hide Actions.TargetKindOf; hide ValidateMutation; hide ValidateCredential;
    hide OwnerKeyId; hide ExactIncrement;
    match p
    case AccountCreate(v) => MutationTablesAgree(env, c, Actions.AccountCreate, v);
    case AccountUpdate(v) => MutationTablesAgree(env, c, Actions.AccountUpdate, v);
    case AccountRemove(v) => MutationTablesAgree(env, c, Actions.AccountRemove, v);
    case CredentialSet(v) => CredentialTablesAgree(env, c, Actions.CredentialSet, v);
    case CredentialDelete(v) => CredentialTablesAgree(env, c, Actions.CredentialDelete, v);
    case _ =>
  }

  lemma MutationTablesAgree(env: Env, c: Context, action: Action, v: AccountMutation)
    requires ValidateMutation(env, c, action, v).Ok?
    ensures c.storeId.Some? && c.accountId.Some? && c.binding.Some? && c.policy.None?
  {
    hide ValidateOptionalSnapshot; hide MutationShape; hide SignedBinding; hide ExactIncrement;
  }

  lemma CredentialTablesAgree(env: Env, c: Context, action: Action, v: CredentialMutation)
    requires ValidateCredential(env, c, action, v).Ok?
    ensures c.storeId.Some? && c.accountId.Some? && c.binding.Some? && c.policy.None?
  {
    hide ValidateSnapshot; hide CredentialShape; hide SameMaterial; hide ExactIncrement;
  }

  /** A sealed manifest's effect context always yields the effect list that the
      parser demands of its action. */
  lemma EffectsAgree(env: Env, m: Manifest)
    requires Sealed(env, m)
    ensures DerivedEffects(m).Ok? && |DerivedEffects(m).value| <= 1
    ensures ValidateEffects(ActionOf(m.payload), DerivedEffects(m).value).Ok?
    ensures forall e | e in DerivedEffects(m).value :: !e.kind.NoEffect?
  {
    hide ValidatePayload; hide EncodePayload; hide EncodeFields; hide CommonFields; hide ActionOf;
  }

  lemma EffectListRoundTrip(effects: seq<Effect>)
    requires |effects| <= 1 && forall e | e in effects :: !e.kind.NoEffect?
    ensures EncodeList(effects, EncodeEffect).Ok?
    ensures ParseList(EncodeList(effects, EncodeEffect).value, ParseEffect, MAX_EFFECTS) == Ok(effects)
    ensures |EncodeList(effects, EncodeEffect).value| <= 108
  {
    hide EncodeFields; hide ParseEffect;
    forall e: Effect | e in effects
      ensures EncodeEffect(e).Ok? && ParseEffect(EncodeEffect(e).value) == Ok(e) && |EncodeEffect(e).value| <= 100
    {
      EncodeFieldsExact(Domains.Bytes(Domains.Effect), EffectFields(e));
      EffectRoundTrip(e);
    }
    EncodeItemsSucceeds(effects, 0, EncodeEffect);
    EncodeItemsSize(effects, 0, EncodeEffect, 100);
    ListRoundTrip(effects, EncodeEffect, ParseEffect, MAX_EFFECTS);
  }

  lemma SubjectRoundTrip(b: Body)
    requires Actions.KindOfTarget(b.target) == Actions.TargetKindOf(b.action)
    ensures AllAtMost(SubjectFields(b), 108) && HasTags(SubjectFields(b), SUBJECT_TAGS)
    ensures ParseSubject(SubjectFields(b)) == Ok(Subject(
      b.grant.ownerRealm, b.action, b.target, b.storeId, b.accountId, b.manifestSha256, b.binding, b.policy))
  {
    hide ParseU16; hide ParseOptionalUuid; hide ParseOptionalDigest; hide U16Bytes; hide ParseBytes32;
    hide Actions.Code; hide Actions.FromCode; hide Actions.TargetKindCode; hide Actions.TargetKindFromCode;
    hide Actions.ParseTarget; hide Actions.TargetBytes; hide Actions.KindOfTarget; hide Actions.TargetKindOf;
    Actions.CodeRoundTrip(b.action);
    Actions.KindCodesRoundTrip(Actions.KindOfTarget(b.target), Actions.NoEffect);
    Actions.TargetRoundTrip(b.target);
  }

  lemma GrantRoundTrip(g: Grant, effects: seq<byte>)
    requires |effects| <= 108
    ensures AllAtMost(GrantFields(g, effects), 108) && HasTags(GrantFields(g, effects), GRANT_TAGS)
    ensures ParseGrant(g.ownerRealm, GrantFields(g, effects)) ==
      if ValidateTime(g.issuedAt, g.expiresAt).Ok? then Ok(g) else Err(AuthorizationMalformed)
  {
    hide ParseBytes32; hide ParseNonZeroU64; hide ParseUuid; hide ParseI64; hide NonZeroU64Bytes; hide I64Bytes;
  }

  /** Any body that keeps the parser's rules is encodable and parses back. */
  lemma BodyRoundTrip(env: Env, b: Body)
    requires ValidatePresence(b).Ok? && ValidateTime(b.grant.issuedAt, b.grant.expiresAt).Ok?
    requires ValidateEffects(b.action, b.effects).Ok? && |b.effects| <= 1
    requires forall e | e in b.effects :: !e.kind.NoEffect?
    ensures EncodeAuthorization(b).Ok?
    ensures ParseAuthorization(env, EncodeAuthorization(b).value)
      == Ok(Transcribed(b, EncodeAuthorization(b).value, (env.sha256)(EncodeAuthorization(b).value)))
  {
    hide EncodeFields; hide ParseFields; hide ParseSubject; hide ParseGrant; hide SubjectFields; hide GrantFields;
    hide EncodeEffect; hide ParseEffect; hide EncodeList; hide ParseList; hide ValidateTime; hide ValidateEffects;
    hide PresenceShape; hide BodySize; hide Actions.KindOfTarget; hide Actions.TargetKindOf;
    EffectListRoundTrip(b.effects);
    var effects := EncodeList(b.effects, EncodeEffect).value;
    SubjectRoundTrip(b);
    GrantRoundTrip(b.grant, effects);
    FieldsTogether(b, effects);
    hide HasTags; hide AllAtMost; hide Increasing; hide Encodable;
    var domain := Domains.Bytes(Domains.Authorization);
    var fields := SubjectFields(b) + GrantFields(b.grant, effects);
    ParseFieldsOfEncoding(domain, fields);
    EncodedSize(domain, fields);
    BodySizeAtMost(fields, 108);
  }

  /** The two halves of the transcript's fields, put together. */
  lemma FieldsTogether(b: Body, effects: seq<byte>)
    requires HasTags(SubjectFields(b), SUBJECT_TAGS) && HasTags(GrantFields(b.grant, effects), GRANT_TAGS)
    requires AllAtMost(SubjectFields(b), 108) && AllAtMost(GrantFields(b.grant, effects), 108)
    ensures var fields := SubjectFields(b) + GrantFields(b.grant, effects);
      && HasTags(fields, SUBJECT_TAGS + GRANT_TAGS) && AllAtMost(fields, 108) && |fields| == 17
      && fields[..9] == SubjectFields(b) && fields[9..] == GrantFields(b.grant, effects) && fields[16].value == effects
      && EncodeFields(Domains.Bytes(Domains.Authorization), fields).Ok?
  {
    hide SubjectFields; hide GrantFields; hide EncodeFields; hide Domains.Bytes; hide Increasing; hide Encodable;
    var subject, grant := SubjectFields(b), GrantFields(b.grant, effects);
    Halves(subject, grant);
    LastGrantField(b.grant, effects);
    EncodableWhenSmall(Domains.Bytes(Domains.Authorization), subject + grant);
  }

  lemma Halves(a: seq<Field>, b: seq<Field>)
    requires HasTags(a, SUBJECT_TAGS) && HasTags(b, GRANT_TAGS) && AllAtMost(a, 108) && AllAtMost(b, 108)
    ensures var fields := a + b;
      && HasTags(fields, SUBJECT_TAGS + GRANT_TAGS) && AllAtMost(fields, 108) && |fields| == 17
      && fields[..9] == a && fields[9..] == b && fields[16] == b[7]
    ensures Increasing(a + b)
  {
    hide Increasing;
    var tags := SUBJECT_TAGS + GRANT_TAGS;
    assert tags == [1, 2, 3, 4, 5, 6, 7, 8, 9, 10, 11, 12, 13, 14, 15, 16, 17];
    TagsIncrease(a + b, tags);
  }

  lemma LastGrantField(g: Grant, effects: seq<byte>)
    ensures GrantFields(g, effects)[7].value == effects
  {
  }

  /** Derivation is closed under parsing: for every sealed manifest, deriving an
      authorization succeeds exactly when its lifetime is in (0, 900000] ms (and
      representable), and the parser then returns it unchanged. */
  lemma DerivationIsClosedUnderParsing(env: Env, m: Manifest, grant: Grant)
    requires Sealed(env, m)
    ensures NewAuthorization(env, m, grant).Ok? <==> 0 < grant.expiresAt - grant.issuedAt <= 900_000
    ensures NewAuthorization(env, m, grant).Ok? ==>
      ParseAuthorization(env, NewAuthorization(env, m, grant).value.bytes) == NewAuthorization(env, m, grant)
  {
    hide NewManifest; hide EncodeAuthorization; hide ParseAuthorization; hide ActionOf; hide DerivedEffects;
    hide ValidateEffects; hide PresenceShape;
    if ValidateTime(grant.issuedAt, grant.expiresAt).Ok? {
      SealedContext(env, m);
      EffectsAgree(env, m);
      var c := m.context;
      BodyRoundTrip(env, Body(grant, ActionOf(m.payload), c.target, c.storeId, c.accountId, m.sha256, c.binding,
        c.policy, DerivedEffects(m).value));
    }
  }

  /** What a derived authorization is for, read back from its own bytes: the
      digest of exactly this manifest's bytes, its action and its context, under
      exactly this grant; and its challenge is the digest of those bytes. */
  lemma DerivationNamesItsManifest(env: Env, m: Manifest, grant: Grant)
    requires Sealed(env, m) && NewAuthorization(env, m, grant).Ok?
    ensures var bytes := NewAuthorization(env, m, grant).value.bytes;
      var parsed := ParseAuthorization(env, bytes);
      && parsed.Ok? && parsed.value.bytes == bytes && parsed.value.challengeId == (env.sha256)(bytes)
      && var b := parsed.value.body;
         && b.manifestSha256 == (env.sha256)(m.bytes)
         && b.grant == grant
         && b.action == ActionOf(m.payload)
         && b.target == m.context.target && b.storeId == m.context.storeId && b.accountId == m.context.accountId
         && b.binding == m.context.binding && b.policy == m.context.policy
         && b.effects == match m.context.effectId
                         case None => []
                         case Some(id) => [Effect(id, Actions.EffectOf(ActionOf(m.payload)))]
  {
    hide NewManifest; hide EncodeAuthorization; hide ParseAuthorization; hide ActionOf; hide Actions.EffectOf;
    DerivationIsClosedUnderParsing(env, m, grant);
    SealedDigest(env, m);
  }

  lemma SealedDigest(env: Env, m: Manifest)
    requires Sealed(env, m)
    ensures m.sha256 == (env.sha256)(m.bytes)
  {
    hide ValidateCommon; hide ValidatePayload; hide EncodePayload; hide EncodeFields; hide CommonFields; hide ActionOf;
  }

  /** The same on the wire: which numbered field of the transcript holds what. */
  lemma TranscriptSays(env: Env, m: Manifest, grant: Grant)
    requires Sealed(env, m) && NewAuthorization(env, m, grant).Ok?
    ensures var bytes := NewAuthorization(env, m, grant).value.bytes;
      var parsed := ParseFieldsAny(bytes, Domains.Bytes(Domains.Authorization));
      && parsed.Ok? && |parsed.value| == 17
      && var f := parsed.value;
         && (forall i | 0 <= i < 17 :: f[i].tag == i + 1)
         && f[0].value == grant.ownerRealm && f[6].value == (env.sha256)(m.bytes)
         && ParseU16(f[1].value) == Ok(Actions.Code(ActionOf(m.payload)))
         && ParseU16(f[2].value) == Ok(Actions.TargetKindCode(Actions.KindOfTarget(m.context.target)))
         && f[3].value == Actions.TargetBytes(m.context.target)
         && ParseOptionalUuid(f[4].value) == Ok(m.context.storeId)
         && ParseOptionalUuid(f[5].value) == Ok(m.context.accountId)
         && ParseOptionalDigest(f[7].value) == Ok(m.context.binding)
         && ParseOptionalDigest(f[8].value) == Ok(m.context.policy)
         && f[9].value == grant.trustBundle && f[10].value == grant.signerKeyId
         && ParseNonZeroU64(f[11].value) == Ok(grant.trustEpoch)
         && f[12].value == grant.grantId && f[13].value == grant.nonce
         && ParseI64(f[14].value) == Ok(grant.issuedAt) && ParseI64(f[15].value) == Ok(grant.expiresAt)
  {
    hide NewManifest; hide ParseAuthorization; hide ActionOf; hide DerivedEffects; hide EncodeFields;
    hide ParseFieldsAny;
    hide EncodeEffect; hide EncodeList; hide SubjectFields; hide GrantFields; hide ValidateTime; hide Sealed;
    hide AllAtMost; hide HasTags; hide Actions.Code; hide Actions.TargetBytes; hide Actions.TargetKindCode;
    hide ParseU16; hide ParseOptionalUuid; hide ParseOptionalDigest; hide ParseNonZeroU64; hide ParseI64;
    hide Actions.KindOfTarget;
    SealedDigest(env, m);
    var body := NewAuthorization(env, m, grant).value.body;
    var effects := EncodeList(body.effects, EncodeEffect).value;
    SealedContext(env, m);
    EffectsAgree(env, m);
    EffectListRoundTrip(body.effects);
    SubjectRoundTrip(body);
    GrantRoundTrip(grant, effects);
    var subject, granted := SubjectFields(body), GrantFields(grant, effects);
    Halves(subject, granted);
    var bytes := NewAuthorization(env, m, grant).value.bytes;
    FramingIsBijective(bytes, Domains.Bytes(Domains.Authorization), subject + granted);
    SubjectSays(body);
    GrantSays(grant, effects);
    JoinedTags(subject, granted);
  }

  lemma JoinedTags(a: seq<Field>, b: seq<Field>)
    requires HasTags(a, SUBJECT_TAGS) && HasTags(b, GRANT_TAGS)
    ensures |a + b| == 17 && forall i | 0 <= i < 17 :: (a + b)[i].tag == i + 1
    ensures forall i | 0 <= i < 9 :: (a + b)[i] == a[i]
    ensures forall i | 9 <= i < 17 :: (a + b)[i] == b[i - 9]
  {
    var tags := SUBJECT_TAGS + GRANT_TAGS;
    assert tags == [1, 2, 3, 4, 5, 6, 7, 8, 9, 10, 11, 12, 13, 14, 15, 16, 17];
    assert forall i | 0 <= i < 17 :: (a + b)[i].tag == tags[i];
  }

  lemma SubjectSays(b: Body)
    ensures var f := SubjectFields(b);
      && |f| == 9 && f[0].value == b.grant.ownerRealm && f[6].value == b.manifestSha256
      && ParseU16(f[1].value) == Ok(Actions.Code(b.action))
      && ParseU16(f[2].value) == Ok(Actions.TargetKindCode(Actions.KindOfTarget(b.target)))
      && f[3].value == Actions.TargetBytes(b.target)
      && ParseOptionalUuid(f[4].value) == Ok(b.storeId) && ParseOptionalUuid(f[5].value) == Ok(b.accountId)
      && ParseOptionalDigest(f[7].value) == Ok(b.binding) && ParseOptionalDigest(f[8].value) == Ok(b.policy)
  {
    hide ParseU16; hide ParseOptionalUuid; hide ParseOptionalDigest; hide U16Bytes; hide ParseBytes32;
    hide Actions.Code; hide Actions.TargetKindCode; hide Actions.TargetBytes; hide Actions.KindOfTarget;
  }

  lemma GrantSays(g: Grant, effects: seq<byte>)
    ensures var f := GrantFields(g, effects);
      && |f| == 8 && f[0].value == g.trustBundle && f[1].value == g.signerKeyId
      && ParseNonZeroU64(f[2].value) == Ok(g.trustEpoch)
      && f[3].value == g.grantId && f[4].value == g.nonce
      && ParseI64(f[5].value) == Ok(g.issuedAt) && ParseI64(f[6].value) == Ok(g.expiresAt)
  {
    hide ParseNonZeroU64; hide ParseI64; hide NonZeroU64Bytes; hide I64Bytes;
  }

  /** Authorization bytes belong to one manifest digest and one context: if two
      sealed manifests derive the same bytes, their digests, actions, contexts
      and grants are the same. */
  lemma AuthorizationsTellManifestsApart(env: Env, m: Manifest, grant: Grant, m': Manifest, grant': Grant)
    requires Sealed(env, m) && NewAuthorization(env, m, grant).Ok?
    requires Sealed(env, m') && NewAuthorization(env, m', grant').Ok?
    requires NewAuthorization(env, m, grant).value.bytes == NewAuthorization(env, m', grant').value.bytes
    ensures (env.sha256)(m.bytes) == (env.sha256)(m'.bytes) && m.context == m'.context && grant == grant'
    ensures ActionOf(m.payload) == ActionOf(m'.payload)
  {
    hide NewManifest; hide EncodeAuthorization; hide ParseAuthorization; hide ActionOf; hide NewAuthorization;
    hide Actions.EffectOf; hide Sealed;
    DerivationNamesItsManifest(env, m, grant);
    DerivationNamesItsManifest(env, m', grant');
    if m.context.effectId.Some? && m'.context.effectId.Some? {
      var a := Effect(m.context.effectId.value, Actions.EffectOf(ActionOf(m.payload)));
      var b := Effect(m'.context.effectId.value, Actions.EffectOf(ActionOf(m'.payload)));
      assert [a] == [b] ==> [a][0] == [b][0];
    }
  }

  lemma SealedContext(env: Env, m: Manifest)
    requires Sealed(env, m)
    ensures PresenceShape(ActionOf(m.payload), m.context.storeId, m.context.accountId, m.context.binding,
      m.context.policy)
    ensures Actions.KindOfTarget(m.context.target) == Actions.TargetKindOf(ActionOf(m.payload))
  {
    hide ValidateCommon; hide ValidatePayload; hide EncodePayload; hide EncodeFields; hide CommonFields;
    hide PresenceShape;
    TablesAgree(env, m.context, m.payload);
  }

  /** The parser accepts canonical bytes only, so two different accepted byte
      strings never carry the same body. */
  lemma ParsedAuthorizationIsCanonical(env: Env, bytes: seq<byte>)
    requires ParseAuthorization(env, bytes).Ok?
    ensures var a := ParseAuthorization(env, bytes).value;
      && a.bytes == bytes && EncodeAuthorization(a.body) == Ok(bytes)
      && PresenceShape(a.body.action, a.body.storeId, a.body.accountId, a.body.binding, a.body.policy)
      && 0 < a.body.grant.expiresAt - a.body.grant.issuedAt <= 900_000
      && ValidateEffects(a.body.action, a.body.effects).Ok?
  {
    hide ParseFields; hide ParseSubject; hide EncodeAuthorization; hide ParseList; hide ParseEffect; hide PresenceShape;
    hide ValidateEffects; hide ParseBytes32; hide ParseNonZeroU64; hide ParseUuid; hide ParseI64;
  }

  // ----- detached proofs -----

  type Signature = s: seq<byte> | |s| == 64 witness seq(64, i => 0)

  datatype Proof = Proof(challengeId: Digest, keyId: Digest, signingPayload: Digest, signature: Signature)

  const MAX_PROOF_BYTES := 4096
  const PROOF_TAGS: seq<u16> := [1, 2, 3, 4]

  function ProofFields(p: Proof): seq<Field> {
    [Field(1, Bytes32Bytes(p.challengeId)), Field(2, Bytes32Bytes(p.keyId)),
     Field(3, Bytes32Bytes(p.signingPayload)), Field(4, p.signature)]
  }

  /** The source unwraps this encoding: `ProofRoundTrip` shows it cannot fail. */
  function EncodeProof(p: Proof): Result<seq<byte>> {
    EncodeFields(Domains.Bytes(Domains.AuthorizationProof), ProofFields(p))
  }

  function ParseProof(bytes: seq<byte>): Result<Proof> {
    var _ :- Need(|bytes| <= MAX_PROOF_BYTES, ResourceLimit);
    var f :- ParseFields(bytes, Domains.Bytes(Domains.AuthorizationProof), 4);
    var _ :- ExpectTags(f, PROOF_TAGS);
    var challengeId :- ParseBytes32(f[0].value);
    var keyId :- ParseBytes32(f[1].value);
    var signingPayload :- ParseBytes32(f[2].value);
    var _ :- Need(|f[3].value| == 64, AuthorizationMalformed);
    var p := Proof(challengeId, keyId, signingPayload, f[3].value);
    var canonical :- EncodeProof(p);
    var _ :- Need(canonical == bytes, AuthorizationMalformed);
    Ok(p)
  }

  /** A byte string parses to a proof exactly when it is that proof's encoding;
      and every proof has one. */
  lemma ProofRoundTrip(p: Proof, bytes: seq<byte>)
    ensures EncodeProof(p).Ok?
    ensures ParseProof(bytes) == Ok(p) <==> EncodeProof(p) == Ok(bytes)
  {
    hide EncodeFields; hide ParseFields; hide ParseBytes32;
    var domain, fields := Domains.Bytes(Domains.AuthorizationProof), ProofFields(p);
    EncodeFieldsExact(domain, fields);
    ParseFieldsOfEncoding(domain, fields);
    EncodedSize(domain, fields);
    BodySizeAtMost(fields, 64);
    if ParseProof(bytes) == Ok(p) {
      ParsedProofIsCanonical(bytes);
    }
  }

  lemma ParsedProofIsCanonical(bytes: seq<byte>)
    requires ParseProof(bytes).Ok?
    ensures EncodeProof(ParseProof(bytes).value) == Ok(bytes) && |bytes| <= 4096
  {
    hide EncodeProof; hide ParseFields; hide ParseBytes32;
  }
}
