/** The typed content of every action manifest, and the byte codes of its
    closed enumerations. */
module ManifestTypes {
  import opened Basics
  import opened Utf8
  import opened Accounts
  import opened Wire

  // ----- sends -----

  const MAX_SEND_RECIPIENTS := 50
  const MAX_SEND_SUBJECT_CHARS := 998
  const MAX_SEND_BODY_CHARS := 262_144
  const MAX_ATTACHMENTS := 25
  const MAX_SEND_ATTACHMENT_BYTES := 1024 * 1024
  const MAX_TOTAL_ATTACHMENT_BYTES := 8 * 1024 * 1024
  const MAX_ATTACHMENT_FILENAME_CHARS := 255
  const MAX_ATTACHMENT_MIME_CHARS := 127
  const MAX_SUMMARY_CHARS := 4096
  const MAX_REFERENCES := 100
  const MAX_CLEANUPS := 100
  const MAX_MAILBOX_CHARS := 4096

  predicate ValidEmail(email: Text) {
    match AfterLast(email, '@' as byte)
    case None => false
    case Some(p) =>
      && p - 1 > 0 && p < |email|
      && '@' as byte !in email[..p - 1]
      && '.' as byte in email[p..]
      && |email| <= 320
      && !AnyWhitespace(email) && !AnyControl(email)
  }

  datatype AddressContent = Address(displayName: Option<Text>, email: Text)

  predicate ValidAddress(a: AddressContent) {
    && (a.displayName.Some? ==> CharCount(a.displayName.value) <= 256 && !AnyControl(a.displayName.value))
    && ValidEmail(a.email)
  }

  /** An address snapshot exists only after its constructor validated it. */
  type ManifestAddress = a: AddressContent | ValidAddress(a) ghost witness SampleAddress()

  ghost function SampleAddress(): (a: AddressContent)
    ensures ValidAddress(a)
  {
    hide Decode;
    var email := [0x61, 0x40, 0x62, 0x2E];
    assert AfterLast(email, 0x40) == Some(2) by {
      assert email[..3] == [0x61, 0x40, 0x62] && email[..3][..2] == [0x61, 0x40];
    }
    DecodeAscii(email);
    Address(None, email)
  }

  datatype SummaryDisposition = Complete | Truncated | Omitted

  datatype AttachmentSummary = AttachmentSummary(
    disposition: SummaryDisposition, text: Option<Text>, originalBytes: Option<u64>)

  datatype Attachment = Attachment(
    filename: Text, mimeType: Text, decodedSize: u64, contentSha256: Digest, summary: Option<AttachmentSummary>)

  datatype SendSubmit = SendSubmit(
    accountGeneration: NonZeroU64,
    from: ManifestAddress, to: seq<ManifestAddress>, cc: seq<ManifestAddress>, bcc: seq<ManifestAddress>,
    subject: Text, text: Option<Text>, html: Option<Text>,
    attachments: seq<Attachment>,
    messageId: Text, dateUnixMs: i64, mimeBoundary: Text,
    inReplyTo: Option<Text>, references: seq<Text>,
    canonicalRfc822Sha256: Option<Digest>)

  function ParseDisposition(bytes: seq<byte>): Result<SummaryDisposition> {
    var code :- Code8(bytes);
    match code
    case 1 => Ok(Complete) case 2 => Ok(Truncated) case 3 => Ok(Omitted) case _ => Err(AuthorizationMalformed)
  }

  function DispositionBytes(d: SummaryDisposition): (b: seq<byte>)
    ensures |b| == 1 && ParseDisposition(b) == Ok(d)
  {
    match d case Complete => [1] case Truncated => [2] case Omitted => [3]
  }

  // ----- mailbox operations -----

  datatype SpecialUse = NoSpecialUse | Archive | Trash

  function ParseSpecialUse(bytes: seq<byte>): Result<SpecialUse> {
    var code :- Code8(bytes);
    match code
    case 0 => Ok(NoSpecialUse) case 1 => Ok(Archive) case 2 => Ok(Trash) case _ => Err(AuthorizationMalformed)
  }

  function SpecialUseBytes(u: SpecialUse): (b: seq<byte>)
    ensures |b| == 1 && ParseSpecialUse(b) == Ok(u)
  {
    match u case NoSpecialUse => [0] case Archive => [1] case Trash => [2]
  }

  datatype Strategy = StoreFlags | UidMove | CopyThenMarkDeleted

  function ParseStrategy(bytes: seq<byte>): Result<Strategy> {
    var code :- Code8(bytes);
    match code
    case 1 => Ok(StoreFlags) case 2 => Ok(UidMove) case 3 => Ok(CopyThenMarkDeleted)
    case _ => Err(AuthorizationMalformed)
  }

  function StrategyBytes(s: Strategy): (b: seq<byte>)
    ensures |b| == 1 && ParseStrategy(b) == Ok(s)
  {
    match s case StoreFlags => [1] case UidMove => [2] case CopyThenMarkDeleted => [3]
  }

  datatype Mailbox = Mailbox(
    accountGeneration: NonZeroU64, sourceMailbox: Text, uidValidity: NonZeroU32, uid: NonZeroU32,
    requestedValue: Option<bool>, requestedDestination: Option<Text>,
    specialUse: SpecialUse, resolvedDestination: Option<Text>, strategy: Strategy,
    capabilitySha256: Digest, capabilityComplete: bool)

  // ----- account snapshots -----

  datatype HostKind = Dns | Ipv4 | Ipv6

  function ParseHostKind(bytes: seq<byte>): Result<HostKind> {
    var code :- Code8(bytes);
    match code case 1 => Ok(Dns) case 2 => Ok(Ipv4) case 3 => Ok(Ipv6) case _ => Err(AuthorizationMalformed)
  }

  function HostKindBytes(k: HostKind): (b: seq<byte>)
    ensures |b| == 1 && ParseHostKind(b) == Ok(k)
  {
    match k case Dns => [1] case Ipv4 => [2] case Ipv6 => [3]
  }

  function ParseProtocol(bytes: seq<byte>): Result<Protocol> {
    var code :- Code8(bytes);
    match code case 1 => Ok(Imap) case 2 => Ok(Smtp) case 3 => Ok(Jmap) case _ => Err(AuthorizationMalformed)
  }

  function ProtocolBytes(p: Protocol): (b: seq<byte>)
    ensures |b| == 1 && ParseProtocol(b) == Ok(p)
  {
    [ProtocolCode(p)]
  }

  function ParseSecurity(bytes: seq<byte>): Result<TransportSecurity> {
    var code :- Code8(bytes);
    match code
    case 1 => Ok(ImplicitTls) case 2 => Ok(StartTls) case 3 => Ok(Https) case _ => Err(AuthorizationMalformed)
  }

  function SecurityBytes(s: TransportSecurity): (b: seq<byte>)
    ensures |b| == 1 && ParseSecurity(b) == Ok(s)
  {
    [SecurityCode(s)]
  }

  function ParseCredentialKind(bytes: seq<byte>): Result<CredentialKind> {
    var code :- Code8(bytes);
    match code
    case 1 => Ok(Password) case 2 => Ok(AppPassword) case 3 => Ok(OAuth2) case _ => Err(AuthorizationMalformed)
  }

  function CredentialKindBytes(k: CredentialKind): (b: seq<byte>)
    ensures |b| == 1 && ParseCredentialKind(b) == Ok(k)
  {
    [CredentialKindCode(k)]
  }

  datatype EndpointSnapshot = EndpointSnapshot(
    protocol: Protocol, exactHost: Text, hostKind: HostKind, canonicalHost: Text, port: u16,
    security: TransportSecurity)

  datatype BindingState = Quarantined | Proposed | Authorized | Invalidated | Mismatch

  function ParseBindingState(bytes: seq<byte>): Result<BindingState> {
    var code :- Code8(bytes);
    match code
    case 1 => Ok(Quarantined) case 2 => Ok(Proposed) case 3 => Ok(Authorized)
    case 4 => Ok(Invalidated) case 5 => Ok(Mismatch) case _ => Err(AuthorizationMalformed)
  }

  function BindingStateBytes(s: BindingState): (b: seq<byte>)
    ensures |b| == 1 && ParseBindingState(b) == Ok(s)
  {
    match s
    case Quarantined => [1] case Proposed => [2] case Authorized => [3] case Invalidated => [4]
    case Mismatch => [5]
  }

  datatype CredentialState = LegacyQuarantined | ReentryRequired | Missing | Bound | CredentialInvalidated

  function ParseCredentialState(bytes: seq<byte>): Result<CredentialState> {
    var code :- Code8(bytes);
    match code
    case 1 => Ok(LegacyQuarantined) case 2 => Ok(ReentryRequired) case 3 => Ok(Missing)
    case 4 => Ok(Bound) case 5 => Ok(CredentialInvalidated) case _ => Err(AuthorizationMalformed)
  }

  function CredentialStateBytes(s: CredentialState): (b: seq<byte>)
    ensures |b| == 1 && ParseCredentialState(b) == Ok(s)
  {
    match s
    case LegacyQuarantined => [1] case ReentryRequired => [2] case Missing => [3] case Bound => [4]
    case CredentialInvalidated => [5]
  }

  datatype StateReason =
    | LegacyUnbound | CredentialReentryRequired | BindingChanged | OwnerRecovery | AuthorityMismatch | ConfigMigration

  function ParseStateReason(bytes: seq<byte>): Result<Option<StateReason>> {
    if bytes == [] then Ok(None)
    else
      var code :- Code8(bytes);
      match code
      case 1 => Ok(Some(LegacyUnbound)) case 2 => Ok(Some(CredentialReentryRequired)) case 3 => Ok(Some(BindingChanged))
      case 4 => Ok(Some(OwnerRecovery)) case 5 => Ok(Some(AuthorityMismatch)) case 6 => Ok(Some(ConfigMigration))
      case _ => Err(AuthorizationMalformed)
  }

  function StateReasonBytes(r: Option<StateReason>): (b: seq<byte>)
    ensures |b| <= 1 && ParseStateReason(b) == Ok(r)
  {
    match r
    case None => []
    case Some(LegacyUnbound) => [1] case Some(CredentialReentryRequired) => [2] case Some(BindingChanged) => [3]
    case Some(OwnerRecovery) => [4] case Some(AuthorityMismatch) => [5] case Some(ConfigMigration) => [6]
  }

  datatype AccountSnapshot = AccountSnapshot(
    displayId: Text, accountId: Uuid4, generation: NonZeroU64,
    email: Text, username: Text, credentialKind: CredentialKind, credentialId: Uuid4,
    bindingVersion: u16, bindingSha256: Digest, bindingState: BindingState,
    credentialState: CredentialState, stateReason: Option<StateReason>,
    incoming: EndpointSnapshot, outgoing: Option<EndpointSnapshot>, cleanupIds: seq<Uuid4>)

  // ----- configuration and credential mutations -----

  datatype ConfigCas = ConfigCas(
    storeId: Uuid4, generation: NonZeroU64, exactContentSha256: Digest, locationSha256: Digest)

  datatype LocatorKind = ActiveV2 | LegacyV1

  function ParseLocatorKind(bytes: seq<byte>): Result<LocatorKind> {
    var code :- Code8(bytes);
    match code case 1 => Ok(ActiveV2) case 2 => Ok(LegacyV1) case _ => Err(AuthorizationMalformed)
  }

  function LocatorKindBytes(k: LocatorKind): (b: seq<byte>)
    ensures |b| == 1 && ParseLocatorKind(b) == Ok(k)
  {
    match k case ActiveV2 => [1] case LegacyV1 => [2]
  }

  datatype CleanupState = Provisional | Ready | Claimed | Deleted

  function ParseCleanupState(bytes: seq<byte>): Result<CleanupState> {
    var code :- Code8(bytes);
    match code
    case 1 => Ok(Provisional) case 2 => Ok(Ready) case 3 => Ok(Claimed) case 4 => Ok(Deleted)
    case _ => Err(AuthorizationMalformed)
  }

  function CleanupStateBytes(s: CleanupState): (b: seq<byte>)
    ensures |b| == 1 && ParseCleanupState(b) == Ok(s)
  {
    match s case Provisional => [1] case Ready => [2] case Claimed => [3] case Deleted => [4]
  }

  datatype CleanupDescriptor = CleanupDescriptor(
    cleanupId: Uuid4, locatorKind: LocatorKind, locatorSha256: Digest, expectedState: CleanupState)

  datatype StoreEnroll = StoreEnroll(transitionId: Uuid4, configCas: ConfigCas)

  datatype AccountMutation = AccountMutation(
    transitionId: Uuid4, configCas: ConfigCas,
    before: Option<AccountSnapshot>, after: Option<AccountSnapshot>,
    nextConfigGeneration: NonZeroU64, afterConfigSha256: Digest, cleanup: seq<CleanupDescriptor>)

  datatype CredentialMutation = CredentialMutation(account: AccountMutation, activeLocatorSha256: Digest)

  datatype CredentialCleanup = CredentialCleanup(
    cleanupId: Uuid4, locatorKind: LocatorKind, locatorSha256: Digest, tombstoneSha256: Digest,
    transitionId: Option<Uuid4>, expectedState: CleanupState)

  // ----- trust -----

  datatype OwnerKeyRole = Owner | Recovery

  function RoleCode(r: OwnerKeyRole): byte { if r.Owner? then 1 else 2 }

  function ParseRole(bytes: seq<byte>): Result<OwnerKeyRole> {
    var code :- Code8(bytes);
    match code case 1 => Ok(Owner) case 2 => Ok(Recovery) case _ => Err(AuthorizationMalformed)
  }

  function RoleBytes(r: OwnerKeyRole): (b: seq<byte>)
    ensures |b| == 1 && ParseRole(b) == Ok(r)
  {
    [RoleCode(r)]
  }

  /** The permission mask is one of two fixed words. */
  datatype PermissionMask = OwnerMask | RecoveryMask

  function ParsePermissions(bytes: seq<byte>): Result<PermissionMask> {
    var mask :- ParseU32(bytes);
    match mask case 7 => Ok(OwnerMask) case 8 => Ok(RecoveryMask) case _ => Err(AuthorizationMalformed)
  }

  function PermissionBytes(m: PermissionMask): (b: seq<byte>)
    ensures |b| == 4 && ParsePermissions(b) == Ok(m)
  {
    U32Bytes(if m.OwnerMask? then 7 else 8)
  }

  datatype TrustRotation = TrustRotation(
    transitionId: Uuid4, role: OwnerKeyRole,
    oldKeyId: Digest, oldPublicKey: Bytes32, newKeyId: Digest, newPublicKey: Bytes32,
    oldEpoch: NonZeroU64, newEpoch: NonZeroU64, oldBundle: Digest, newBundle: Digest,
    permissions: PermissionMask)

  datatype OwnerRecover = OwnerRecover(
    transitionId: Uuid4, journalId: Uuid4, oldEpoch: NonZeroU64, newEpoch: NonZeroU64, oldBundle: Digest,
    newOwnerId: Digest, newOwnerKey: Bytes32, newRecoveryId: Digest, newRecoveryKey: Bytes32, newBundle: Digest)

  datatype Assertion = Occurred | NoEffectSeen | Unknown

  function ParseAssertion(bytes: seq<byte>): Result<Assertion> {
    var code :- Code8(bytes);
    match code
    case 1 => Ok(Occurred) case 2 => Ok(NoEffectSeen) case 3 => Ok(Unknown)
    case _ => Err(AuthorizationMalformed)
  }

  function AssertionBytes(a: Assertion): (b: seq<byte>)
    ensures |b| == 1 && ParseAssertion(b) == Ok(a)
  {
    match a case Occurred => [1] case NoEffectSeen => [2] case Unknown => [3]
  }

  datatype Terminal = ClosedSucceeded | ClosedFailedNoEffect | ClosedAmbiguous

  function ParseTerminal(bytes: seq<byte>): Result<Terminal> {
    var code :- Code8(bytes);
    match code
    case 1 => Ok(ClosedSucceeded) case 2 => Ok(ClosedFailedNoEffect) case 3 => Ok(ClosedAmbiguous)
    case _ => Err(AuthorizationMalformed)
  }

  function TerminalBytes(t: Terminal): (b: seq<byte>)
    ensures |b| == 1 && ParseTerminal(b) == Ok(t)
  {
    match t case ClosedSucceeded => [1] case ClosedFailedNoEffect => [2] case ClosedAmbiguous => [3]
  }

  datatype AmbiguousClose = AmbiguousClose(
    operationId: Uuid4, invocationId: Uuid4, originalManifestSha256: Digest, claimSha256: Digest,
    observationSha256: Option<Digest>, assertion: Assertion, assertionText: Text, terminal: Terminal)
}
