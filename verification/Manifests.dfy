/** Sealed action manifests: construction, strict parsing, and the proof that
    parsing gives back exactly what was sealed. */
module Manifests {
  import opened Basics
  import opened Utf8
  import opened Framing
  import opened Accounts
  import opened Wire
  import opened ManifestTypes
  import opened SendCodec
  import opened MailboxCodec
  import opened AccountCodec
  import opened TrustCodec
  import Actions
  import Domains

  type Action = Actions.Action
  type Target = Actions.Target

  const MAX_MANIFEST_BYTES := 4 * 1024 * 1024
  const MAX_ASSERTION_TEXT_BYTES := 1024

  datatype Context = Context(
    target: Target, storeId: Option<Uuid4>, accountId: Option<Uuid4>,
    binding: Option<Digest>, policy: Option<Digest>, effectId: Option<Uuid4>)

  datatype Payload =
    | SendPayload(send: SendSubmit)
    | MailSeen(mailbox: Mailbox) | MailStarred(mailbox: Mailbox) | MailMove(mailbox: Mailbox)
    | MailArchive(mailbox: Mailbox) | MailSafeDelete(mailbox: Mailbox)
    | EnrollPayload(enroll: StoreEnroll)
    | AccountCreate(mutation: AccountMutation) | AccountUpdate(mutation: AccountMutation)
    | AccountRemove(mutation: AccountMutation)
    | CredentialSet(credential: CredentialMutation) | CredentialDelete(credential: CredentialMutation)
    | CleanupPayload(cleanup: CredentialCleanup)
    | OwnerRotate(rotation: TrustRotation) | RecoveryRotate(rotation: TrustRotation)
    | RecoverPayload(recover: OwnerRecover)
    | ClosePayload(close: AmbiguousClose)

  function ActionOf(p: Payload): Action {
    match p
    case SendPayload(_) => Actions.SendSubmit
    case MailSeen(_) => Actions.MailSeen
    case MailStarred(_) => Actions.MailStarred
    case MailMove(_) => Actions.MailMove
    case MailArchive(_) => Actions.MailArchive
    case MailSafeDelete(_) => Actions.MailSafeDelete
    case EnrollPayload(_) => Actions.StoreEnroll
    case AccountCreate(_) => Actions.AccountCreate
    case AccountUpdate(_) => Actions.AccountUpdate
    case AccountRemove(_) => Actions.AccountRemove
    case CredentialSet(_) => Actions.CredentialSet
    case CredentialDelete(_) => Actions.CredentialDelete
    case CleanupPayload(_) => Actions.CredentialCleanup
    case OwnerRotate(_) => Actions.OwnerRotate
    case RecoveryRotate(_) => Actions.RecoveryRotate
    case RecoverPayload(_) => Actions.OwnerRecover
    case ClosePayload(_) => Actions.AmbiguousClose
  }

  datatype Manifest = Manifest(context: Context, payload: Payload, bytes: seq<byte>, sha256: Digest)

  // ----- context validation, action by action -----

  function ValidateCommon(c: Context, action: Action): Result<()> {
    var _ :- Need(Actions.ManifestSupported(action), UnsupportedCapability);
    var _ :- Need(Actions.KindOfTarget(c.target) == Actions.TargetKindOf(action), AuthorizationMalformed);
    Need(
      if !Actions.EffectOf(action).NoEffect?
      then c.storeId.Some? && c.accountId.Some? && c.binding.Some? && c.policy.Some? && c.effectId.Some?
      else c.effectId.None?, AuthorizationMalformed)
  }

  predicate ExactIncrement(previous: NonZeroU64, next: NonZeroU64) {
    previous + 1 == next
  }

  function OwnerKeyId(env: Env, role: OwnerKeyRole, key: Bytes32): Digest {
    (env.sha256)(Domains.Bytes(Domains.OwnerKey) + [RoleCode(role)] + key)
  }

  predicate EnrollContext(c: Context, e: StoreEnroll) {
    && c.target.StoreTarget?
    && c.storeId == Some(c.target.id)
    && e.configCas.storeId == c.target.id
    && c.accountId.None? && c.binding.None? && c.policy.None?
  }

  predicate CleanupContext(c: Context, v: CredentialCleanup) {
    && c.target.CleanupTarget? && c.target.id == v.cleanupId
    && c.storeId.Some? && c.accountId.Some? && c.binding.Some? && c.policy.None?
  }

  predicate RotationContext(env: Env, c: Context, role: OwnerKeyRole, v: TrustRotation) {
    && c.target.TrustEpochTarget? && c.target.epoch == v.oldEpoch
    && v.role == role
    && v.permissions == (if role.Owner? then OwnerMask else RecoveryMask)
    && v.oldKeyId == OwnerKeyId(env, v.role, v.oldPublicKey)
    && v.newKeyId == OwnerKeyId(env, v.role, v.newPublicKey)
    && v.oldKeyId != v.newKeyId
    && ExactIncrement(v.oldEpoch, v.newEpoch)
    && c.storeId.None? && c.accountId.None? && c.binding.None? && c.policy.None?
  }

  predicate RecoverContext(env: Env, c: Context, v: OwnerRecover) {
    && c.target.TrustEpochTarget? && c.target.epoch == v.oldEpoch
    && v.newOwnerId == OwnerKeyId(env, Owner, v.newOwnerKey)
    && v.newRecoveryId == OwnerKeyId(env, Recovery, v.newRecoveryKey)
    && ExactIncrement(v.oldEpoch, v.newEpoch)
    && c.storeId.None? && c.accountId.None? && c.binding.None? && c.policy.None?
  }

  predicate CloseContext(c: Context, v: AmbiguousClose) {
    && c.storeId.Some? && c.accountId.Some? && c.binding.Some? && c.policy.Some?
    && 1 <= |v.assertionText| <= MAX_ASSERTION_TEXT_BYTES
    && CharCount(v.assertionText) <= MAX_ASSERTION_TEXT_BYTES
    && !AnyControl(v.assertionText)
  }

  // ----- account lifecycle rules -----

  predicate MaterialChanged(before: AccountSnapshot, after: AccountSnapshot) {
    || before.email != after.email
    || before.username != after.username
    || before.credentialKind != after.credentialKind
    || before.incoming != after.incoming
    || before.outgoing != after.outgoing
  }

  predicate SameMaterial(before: AccountSnapshot, after: AccountSnapshot) {
    && before.email == after.email
    && before.username == after.username
    && before.credentialKind == after.credentialKind
    && before.credentialId == after.credentialId
    && before.bindingVersion == after.bindingVersion
    && before.bindingSha256 == after.bindingSha256
    && before.incoming == after.incoming
    && before.outgoing == after.outgoing
    && before.cleanupIds == after.cleanupIds
  }

  function ValidateOptionalSnapshot(env: Env, s: Option<AccountSnapshot>): Result<()> {
    if s.None? then Ok(()) else ValidateSnapshot(env, s.value)
  }

  predicate MutationShape(action: Action, before: Option<AccountSnapshot>, after: Option<AccountSnapshot>) {
    match action
    case AccountCreate =>
      && before.None? && after.Some?
      && after.value.generation == 1
      && after.value.bindingState.Proposed? && after.value.credentialState.ReentryRequired?
    case AccountUpdate =>
      && before.Some? && after.Some?
      && before.value.displayId == after.value.displayId
      && ExactIncrement(before.value.generation, after.value.generation)
      && before.value.credentialId != after.value.credentialId
      && MaterialChanged(before.value, after.value)
      && after.value.bindingState.Authorized? && after.value.credentialState.ReentryRequired?
    case AccountRemove => before.Some? && after.None?
    case _ => false
  }

  function SignedBinding(before: Option<AccountSnapshot>, after: Option<AccountSnapshot>): Option<Digest> {
    if after.Some? then Some(after.value.bindingSha256)
    else if before.Some? then Some(before.value.bindingSha256)
    else None
  }

  function ValidateMutation(env: Env, c: Context, action: Action, m: AccountMutation): Result<()> {
    var _ :- Need(
      && c.target.AccountTarget?
      && c.storeId == Some(m.configCas.storeId)
      && c.accountId == Some(c.target.id)
      && c.binding.Some? && c.policy.None?
      && ExactIncrement(m.configCas.generation, m.nextConfigGeneration)
      && (m.before.Some? ==> m.before.value.accountId == c.target.id)
      && (m.after.Some? ==> m.after.value.accountId == c.target.id), AuthorizationMalformed);
    var _ :- ValidateOptionalSnapshot(env, m.before);
    var _ :- ValidateOptionalSnapshot(env, m.after);
    var _ :- Need(MutationShape(action, m.before, m.after), AuthorizationMalformed);
    Need(c.binding == SignedBinding(m.before, m.after), AuthorizationMalformed)
  }

  predicate CredentialShape(action: Action, before: AccountSnapshot, after: AccountSnapshot) {
    match action
    case CredentialSet =>
      && (before.credentialState.ReentryRequired? || before.credentialState.Missing?)
      && after.bindingState.Authorized? && after.credentialState.Bound?
    case CredentialDelete =>
      && before.bindingState.Authorized? && before.credentialState.Bound?
      && after.bindingState.Authorized? && after.credentialState.Missing?
    case _ => false
  }

  function ValidateCredential(env: Env, c: Context, action: Action, m: CredentialMutation): Result<()> {
    var _ :- Need(
      c.target.CredentialTarget? && c.accountId.Some? && m.account.before.Some? && m.account.after.Some?,
      AuthorizationMalformed);
    var before, after := m.account.before.value, m.account.after.value;
    var _ :- ValidateSnapshot(env, before);
    var _ :- ValidateSnapshot(env, after);
    var _ :- Need(
      && c.storeId == Some(m.account.configCas.storeId)
      && c.policy.None?
      && before.accountId == after.accountId
      && before.displayId == after.displayId
      && ExactIncrement(before.generation, after.generation)
      && SameMaterial(before, after)
      && before.accountId == c.accountId.value
      && ExactIncrement(m.account.configCas.generation, m.account.nextConfigGeneration), AuthorizationMalformed);
    var _ :- Need(CredentialShape(action, before, after), AuthorizationMalformed);
    var signed := if action.CredentialSet? then after else before;
    Need(c.binding.Some? && signed.credentialId == c.target.id && signed.bindingSha256 == c.binding.value,
      AuthorizationMalformed)
  }

  function ValidatePayload(env: Env, c: Context, p: Payload): Result<()> {
    match p
    case SendPayload(_) | MailSeen(_) | MailStarred(_) | MailMove(_) | MailArchive(_) | MailSafeDelete(_) => Ok(())
    case EnrollPayload(v) => Need(EnrollContext(c, v), AuthorizationMalformed)
    case AccountCreate(v) => ValidateMutation(env, c, Actions.AccountCreate, v)
    case AccountUpdate(v) => ValidateMutation(env, c, Actions.AccountUpdate, v)
    case AccountRemove(v) => ValidateMutation(env, c, Actions.AccountRemove, v)
    case CredentialSet(v) => ValidateCredential(env, c, Actions.CredentialSet, v)
    case CredentialDelete(v) => ValidateCredential(env, c, Actions.CredentialDelete, v)
    case CleanupPayload(v) => Need(CleanupContext(c, v), AuthorizationMalformed)
    case OwnerRotate(v) => Need(RotationContext(env, c, Owner, v), AuthorizationMalformed)
    case RecoveryRotate(v) => Need(RotationContext(env, c, Recovery, v), AuthorizationMalformed)
    case RecoverPayload(v) => Need(RecoverContext(env, c, v), AuthorizationMalformed)
    case ClosePayload(v) => Need(CloseContext(c, v), AuthorizationMalformed)
  }

  // ----- encoding -----

  function CommonFields(c: Context, action: Action): seq<Field> {
    [Field(1, U16Bytes(Actions.Code(action))),
     Field(2, U16Bytes(Actions.TargetKindCode(Actions.KindOfTarget(c.target)))),
     Field(3, Actions.TargetBytes(c.target)),
     Field(4, OptionalUuidBytes(c.storeId)), Field(5, OptionalUuidBytes(c.accountId)),
     Field(6, OptionalDigestBytes(c.binding)), Field(7, OptionalDigestBytes(c.policy)),
     Field(8, U16Bytes(Actions.EffectKindCode(Actions.EffectOf(action)))),
     Field(9, OptionalUuidBytes(c.effectId))]
  }

  const COMMON_TAGS: seq<u16> := [1, 2, 3, 4, 5, 6, 7, 8, 9]

  function EncodePayload(env: Env, p: Payload): Result<seq<Field>> {
    match p
    case SendPayload(v) => EncodeSend(v)
    case MailSeen(v) => EncodeMailbox(Actions.MailSeen, v)
    case MailStarred(v) => EncodeMailbox(Actions.MailStarred, v)
    case MailMove(v) => EncodeMailbox(Actions.MailMove, v)
    case MailArchive(v) => EncodeMailbox(Actions.MailArchive, v)
    case MailSafeDelete(v) => EncodeMailbox(Actions.MailSafeDelete, v)
    case EnrollPayload(v) => EncodeEnroll(v)
    case AccountCreate(v) => EncodeMutation(env, v)
    case AccountUpdate(v) => EncodeMutation(env, v)
    case AccountRemove(v) => EncodeMutation(env, v)
    case CredentialSet(v) => EncodeCredentialMutation(env, v)
    case CredentialDelete(v) => EncodeCredentialMutation(env, v)
    case CleanupPayload(v) => Ok(CleanupFields(v))
    case OwnerRotate(v) => Ok(RotationFields(v))
    case RecoveryRotate(v) => Ok(RotationFields(v))
    case RecoverPayload(v) => Ok(RecoverFields(v))
    case ClosePayload(v) => Ok(CloseFields(v))
  }

  /** `ActionManifest::new`. */
  function NewManifest(env: Env, c: Context, p: Payload): Result<Manifest> {
    var action := ActionOf(p);
    var _ :- ValidateCommon(c, action);
    var _ :- ValidatePayload(env, c, p);
    var payloadFields :- EncodePayload(env, p);
    var bytes :- EncodeFields(Domains.Bytes(Domains.Manifest), CommonFields(c, action) + payloadFields);
    Ok(Manifest(c, p, bytes, (env.sha256)(bytes)))
  }

  // ----- parsing -----

  function ParsePayload(env: Env, action: Action, f: seq<Field>): Result<Payload> {
    match action
    case SendSubmit => var v :- ParseSend(f); Ok(SendPayload(v))
    case MailSeen => var v :- ParseMailbox(f); Ok(MailSeen(v))
    case MailStarred => var v :- ParseMailbox(f); Ok(MailStarred(v))
    case MailMove => var v :- ParseMailbox(f); Ok(MailMove(v))
    case MailArchive => var v :- ParseMailbox(f); Ok(MailArchive(v))
    case MailSafeDelete => var v :- ParseMailbox(f); Ok(MailSafeDelete(v))
    case StoreEnroll => var v :- ParseEnroll(f); Ok(EnrollPayload(v))
    case AccountCreate => var v :- ParseMutation(env, f); Ok(AccountCreate(v))
    case AccountUpdate => var v :- ParseMutation(env, f); Ok(AccountUpdate(v))
    case AccountRemove => var v :- ParseMutation(env, f); Ok(AccountRemove(v))
    case CredentialSet => var v :- ParseCredentialMutation(env, f); Ok(CredentialSet(v))
    case CredentialDelete => var v :- ParseCredentialMutation(env, f); Ok(CredentialDelete(v))
    case CredentialCleanup => var v :- ParseCleanup(f); Ok(CleanupPayload(v))
    case OwnerRotate => var v :- ParseRotation(f); Ok(OwnerRotate(v))
    case RecoveryRotate => var v :- ParseRotation(f); Ok(RecoveryRotate(v))
    case OwnerRecover => var v :- ParseRecover(f); Ok(RecoverPayload(v))
    case AmbiguousClose => var v :- ParseClose(f); Ok(ClosePayload(v))
    case PolicyUpdate | AssuranceUpdate => Err(UnsupportedCapability)
  }

  datatype Head = Head(context: Context, action: Action)

  function ParseHead(f: seq<Field>): Result<Head>
    requires |f| == 9
  {
    var _ :- ExpectTags(f, COMMON_TAGS);
    var code :- ParseU16(f[0].value);
    var action :- Actions.FromCode(code);
    var _ :- Need(Actions.ManifestSupported(action), UnsupportedCapability);
    var kindCode :- ParseU16(f[1].value);
    var kind :- Actions.TargetKindFromCode(kindCode);
    var target :- Actions.ParseTarget(kind, f[2].value);
    var storeId :- ParseOptionalUuid(f[3].value);
    var accountId :- ParseOptionalUuid(f[4].value);
    var binding :- ParseOptionalDigest(f[5].value);
    var policy :- ParseOptionalDigest(f[6].value);
    var effectId :- ParseOptionalUuid(f[8].value);
    var effectCode :- ParseU16(f[7].value);
    var effect :- Actions.EffectKindFromCode(effectCode);
    var _ :- Need(effect == Actions.EffectOf(action), AuthorizationMalformed);
    Ok(Head(Context(target, storeId, accountId, binding, policy, effectId), action))
  }

  /** `ActionManifest::parse`. */
  function ParseManifest(env: Env, bytes: seq<byte>): Result<Manifest> {
    var _ :- Need(|bytes| <= MAX_MANIFEST_BYTES, ResourceLimit);
    var fields :- ParseFieldsAny(bytes, Domains.Bytes(Domains.Manifest));
    var _ :- Need(|fields| >= 9, AuthorizationMalformed);
    var head :- ParseHead(fields[..9]);
    var payload :- ParsePayload(env, head.action, fields[9..]);
    var m :- NewManifest(env, head.context, payload);
    var _ :- Need(m.bytes == bytes, AuthorizationMalformed);
    Ok(m)
  }

  // ----- parsing undoes sealing -----

  lemma HeadRoundTrip(c: Context, action: Action)
    requires Actions.ManifestSupported(action)
    ensures |CommonFields(c, action)| == 9 && AllAtMost(CommonFields(c, action), 32)
    ensures ParseHead(CommonFields(c, action)) == Ok(Head(c, action))
  {
    hide ParseU16; hide ParseOptionalUuid; hide ParseOptionalDigest; hide U16Bytes;
    hide Actions.Code; hide Actions.FromCode; hide Actions.TargetKindCode; hide Actions.TargetKindFromCode;
    hide Actions.EffectKindCode; hide Actions.EffectKindFromCode; hide Actions.ParseTarget; hide Actions.TargetBytes;
    hide Actions.KindOfTarget; hide Actions.EffectOf;
    Actions.CodeRoundTrip(action);
    Actions.KindCodesRoundTrip(Actions.KindOfTarget(c.target), Actions.EffectOf(action));
    Actions.TargetRoundTrip(c.target);
  }

  /** How many cleanup descriptors a payload carries. */
  function CleanupCount(p: Payload): nat {
    match p
    case AccountCreate(v) => |v.cleanup|
    case AccountUpdate(v) => |v.cleanup|
    case AccountRemove(v) => |v.cleanup|
    case CredentialSet(v) => |v.account.cleanup|
    case CredentialDelete(v) => |v.account.cleanup|
    case _ => 0
  }

  const PAYLOAD_BODY_SIZE := 4_100_000

  lemma SmallBody(f: seq<Field>, bound: nat)
    requires AllAtMost(f, bound) && |f| <= 16 && bound <= MUTATION_FIELD_SIZE
    ensures BodySize(f) <= PAYLOAD_BODY_SIZE
  {
    hide BodySize; hide AllAtMost;
    BodySizeAtMost(f, bound);
    AtMostSixteen(|f|, 6 + bound);
  }

  lemma AtMostSixteen(n: nat, k: nat)
    requires n <= 16
    ensures n * k <= 16 * k
  {
  }

  /** Every payload parses back from its own fields under its own action, or is
      refused for its cleanup list alone. */
  lemma PayloadRoundTrip(env: Env, c: Context, p: Payload)
    requires ValidatePayload(env, c, p).Ok?
    requires EncodePayload(env, p).Ok?
    ensures ParsePayload(env, ActionOf(p), EncodePayload(env, p).value) ==
      if CleanupCount(p) <= MAX_CLEANUPS then Ok(p) else Err(ResourceLimit)
    ensures |EncodePayload(env, p).value| <= 16
    ensures CleanupCount(p) <= MAX_CLEANUPS ==> BodySize(EncodePayload(env, p).value) <= PAYLOAD_BODY_SIZE
  {
    hide EncodeSend; hide ParseSend; hide EncodeMailbox; hide ParseMailbox; hide EncodeEnroll; hide ParseEnroll;
    hide EncodeMutation; hide ParseMutation; hide EncodeCredentialMutation; hide ParseCredentialMutation;
    hide CleanupFields; hide ParseCleanup; hide RotationFields; hide ParseRotation; hide RecoverFields;
    hide ParseRecover;
    hide CloseFields; hide ParseClose; hide BodySize; hide AnyControl;
    hide ValidateMutation; hide ValidateCredential; hide RotationContext; hide RecoverContext; hide EnrollContext;
    hide CleanupContext;
    var f := EncodePayload(env, p).value;
    match p {
      case SendPayload(v) => SendRoundTrip(v);
      case MailSeen(v) => MailboxRoundTrip(Actions.MailSeen, v); SmallBody(f, 1 + 4 * MAX_MAILBOX_CHARS);
      case MailStarred(v) => MailboxRoundTrip(Actions.MailStarred, v); SmallBody(f, 1 + 4 * MAX_MAILBOX_CHARS);
      case MailMove(v) => MailboxRoundTrip(Actions.MailMove, v); SmallBody(f, 1 + 4 * MAX_MAILBOX_CHARS);
      case MailArchive(v) => MailboxRoundTrip(Actions.MailArchive, v); SmallBody(f, 1 + 4 * MAX_MAILBOX_CHARS);
      case MailSafeDelete(v) => MailboxRoundTrip(Actions.MailSafeDelete, v); SmallBody(f, 1 + 4 * MAX_MAILBOX_CHARS);
      case EnrollPayload(v) => EnrollRoundTrip(v); SmallBody(f, MUTATION_FIELD_SIZE);
      case AccountCreate(v) => MutationPayload(env, v);
      case AccountUpdate(v) => MutationPayload(env, v);
      case AccountRemove(v) => MutationPayload(env, v);
      case CredentialSet(v) => CredentialPayload(env, v);
      case CredentialDelete(v) => CredentialPayload(env, v);
      case CleanupPayload(v) => CleanupRoundTrip(v); SmallBody(f, MUTATION_FIELD_SIZE);
      case OwnerRotate(v) => RotationRoundTrip(v); SmallBody(f, 32);
      case RecoveryRotate(v) => RotationRoundTrip(v); SmallBody(f, 32);
      case RecoverPayload(v) => RecoverRoundTrip(v); SmallBody(f, 32);
      case ClosePayload(v) => CloseRoundTrip(v); SmallBody(f, 1024);
    }
  }

  lemma MutationPayload(env: Env, v: AccountMutation)
    requires EncodeMutation(env, v).Ok?
    ensures ParseMutation(env, EncodeMutation(env, v).value) ==
      if |v.cleanup| <= MAX_CLEANUPS then Ok(v) else Err(ResourceLimit)
    ensures |EncodeMutation(env, v).value| <= 16
    ensures |v.cleanup| <= MAX_CLEANUPS ==> BodySize(EncodeMutation(env, v).value) <= PAYLOAD_BODY_SIZE
  {
    hide EncodeMutation; hide ParseMutation;
    MutationRoundTrip(env, v);
    if |v.cleanup| <= MAX_CLEANUPS {
      SmallBody(EncodeMutation(env, v).value, MUTATION_FIELD_SIZE);
    }
  }

  lemma CredentialPayload(env: Env, v: CredentialMutation)
    requires EncodeCredentialMutation(env, v).Ok?
    ensures ParseCredentialMutation(env, EncodeCredentialMutation(env, v).value) ==
      if |v.account.cleanup| <= MAX_CLEANUPS then Ok(v) else Err(ResourceLimit)
    ensures |EncodeCredentialMutation(env, v).value| <= 16
    ensures |v.account.cleanup| <= MAX_CLEANUPS ==>
      BodySize(EncodeCredentialMutation(env, v).value) <= PAYLOAD_BODY_SIZE
  {
    hide EncodeCredentialMutation; hide ParseCredentialMutation;
    CredentialMutationRoundTrip(env, v);
    if |v.account.cleanup| <= MAX_CLEANUPS {
      SmallBody(EncodeCredentialMutation(env, v).value, MUTATION_FIELD_SIZE);
    }
  }

  /** The size gate never refuses a manifest with a parseable cleanup list. */
  lemma ManifestFitsGate(env: Env, c: Context, p: Payload)
    requires NewManifest(env, c, p).Ok?
    requires CleanupCount(p) <= 100
    ensures |NewManifest(env, c, p).value.bytes| <= 4_194_304
  {
    hide EncodePayload; hide ValidatePayload; hide ParsePayload; hide CommonFields; hide EncodeFields; hide BodySize;
    PayloadRoundTrip(env, c, p);
    HeadRoundTrip(c, ActionOf(p));
    var common, payload := CommonFields(c, ActionOf(p)), EncodePayload(env, p).value;
    EncodedSize(Domains.Bytes(Domains.Manifest), common + payload);
    BodySizeConcat(common, payload);
    BodySizeAtMost(common, 32);
  }

  /** Manifest round trip, for every context and every one of the 17 payloads
      that can be sealed: parsing the canonical bytes returns the manifest
      itself exactly when it carries at most 100 cleanup descriptors, and
      otherwise reports a resource limit. */
  lemma ManifestRoundTrip(env: Env, c: Context, p: Payload)
    requires NewManifest(env, c, p).Ok?
    ensures ParseManifest(env, NewManifest(env, c, p).value.bytes) ==
      if CleanupCount(p) <= 100 then NewManifest(env, c, p) else Err(ResourceLimit)
  {
    hide EncodePayload; hide ValidatePayload; hide ParsePayload; hide CommonFields; hide EncodeFields; hide ParseHead;
    hide ParseFieldsAny;
    var action := ActionOf(p);
    var common, payload := CommonFields(c, action), EncodePayload(env, p).value;
    var fields := common + payload;
    var bytes := NewManifest(env, c, p).value.bytes;
    PayloadRoundTrip(env, c, p);
    HeadRoundTrip(c, action);
    FramingIsBijective(bytes, Domains.Bytes(Domains.Manifest), fields);
    assert fields[..9] == common && fields[9..] == payload;
    if CleanupCount(p) <= MAX_CLEANUPS {
      ManifestFitsGate(env, c, p);
    }
  }

  /** ... and nothing parses that sealing would not have produced: accepted
      bytes are the canonical bytes of the context and payload they yield. */
  lemma ParsedManifestIsSealed(env: Env, bytes: seq<byte>)
    requires ParseManifest(env, bytes).Ok?
    ensures var m := ParseManifest(env, bytes).value;
      && NewManifest(env, m.context, m.payload) == Ok(m) && m.bytes == bytes
      && CleanupCount(m.payload) <= 100 && |bytes| <= 4_194_304
  {
    hide ValidatePayload; hide EncodePayload; hide ParsePayload; hide CommonFields; hide EncodeFields; hide ParseHead;
    hide ParseFieldsAny;
    var m := ParseManifest(env, bytes).value;
    assert NewManifest(env, m.context, m.payload) == Ok(m);
    ManifestRoundTrip(env, m.context, m.payload);
  }
}
