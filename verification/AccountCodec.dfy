/** Account snapshots and the configuration mutations that carry them. */
module AccountCodec {
  import opened Basics
  import opened Utf8
  import opened Framing
  import opened Accounts
  import opened Wire
  import opened ManifestTypes
  import Domains

  // ----- endpoints -----

  const MAX_HOST_BYTES := 4096

  predicate CanonicalHostMatches(env: Env, e: EndpointSnapshot) {
    match e.hostKind
    case Dns =>
      && (env.parseIp)(e.exactHost).None? && (env.parseIp)(e.canonicalHost).None?
      && e.canonicalHost == LowerAscii(e.canonicalHost)
      && LowerAscii(e.exactHost) == LowerAscii(e.canonicalHost)
    case Ipv4 => (env.parseIp)(e.exactHost) == Some(Ip(V4, e.canonicalHost))
    case Ipv6 => (env.parseIp)(e.exactHost) == Some(Ip(V6, e.canonicalHost))
  }

  predicate ValidEndpointSnapshot(env: Env, e: EndpointSnapshot) {
    && 1 <= |e.exactHost| <= MAX_HOST_BYTES && !AnyControl(e.exactHost)
    && 1 <= |e.canonicalHost| <= MAX_HOST_BYTES && IsAscii(e.canonicalHost)
    && e.port != 0
    && (e.protocol.Jmap? <==> e.security.Https?)
    && CanonicalHostMatches(env, e)
  }

  function EndpointFields(e: EndpointSnapshot): seq<Field> {
    [Field(1, ProtocolBytes(e.protocol)), Field(2, TextBytes(e.exactHost)), Field(3, HostKindBytes(e.hostKind)),
     Field(4, TextBytes(e.canonicalHost)), Field(5, U16Bytes(e.port)), Field(6, SecurityBytes(e.security))]
  }

  function EncodeEndpoint(env: Env, e: EndpointSnapshot): Result<seq<byte>> {
    var _ :- Need(ValidEndpointSnapshot(env, e), InvalidInput);
    EncodeFields(Domains.Bytes(Domains.EndpointHost), EndpointFields(e))
  }

  function ParseEndpoint(env: Env, bytes: seq<byte>): Result<EndpointSnapshot> {
    var f :- ParseFields(bytes, Domains.Bytes(Domains.EndpointHost), 6);
    var _ :- ExpectTags(f, [1, 2, 3, 4, 5, 6]);
    var protocol :- ParseProtocol(f[0].value);
    var hostKind :- ParseHostKind(f[2].value);
    var security :- ParseSecurity(f[5].value);
    var exactHost :- ParseText(f[1].value);
    var canonicalHost :- ParseText(f[3].value);
    var port :- ParseU16(f[4].value);
    var e := EndpointSnapshot(protocol, exactHost, hostKind, canonicalHost, port, security);
    var _ :- EncodeEndpoint(env, e);
    Ok(e)
  }

  const ENDPOINT_SIZE := 25_000

  lemma EndpointRoundTrip(env: Env, e: EndpointSnapshot)
    requires EncodeEndpoint(env, e).Ok?
    ensures ParseEndpoint(env, EncodeEndpoint(env, e).value) == Ok(e)
    ensures 0 < |EncodeEndpoint(env, e).value| <= ENDPOINT_SIZE
  {
    hide EncodeFields; hide ParseFields; hide CanonicalHostMatches; hide AnyControl; hide ValidUtf8;
    hide ParseProtocol; hide ParseHostKind; hide ParseSecurity; hide ParseText; hide ParseU16; hide U16Bytes;
    var fields := EndpointFields(e);
    ParseFieldsOfEncoding(Domains.Bytes(Domains.EndpointHost), fields);
    EncodedSize(Domains.Bytes(Domains.EndpointHost), fields);
    BodySizeAtMost(fields, MAX_HOST_BYTES);
  }

  function OptionalEndpointBytes(env: Env, e: Option<EndpointSnapshot>): Result<seq<byte>> {
    if e.None? then Ok([]) else EncodeEndpoint(env, e.value)
  }

  function ParseOptionalEndpoint(env: Env, bytes: seq<byte>): Result<Option<EndpointSnapshot>> {
    if bytes == [] then Ok(None) else var e :- ParseEndpoint(env, bytes); Ok(Some(e))
  }

  // ----- snapshots -----

  function EndpointOf(e: EndpointSnapshot): Endpoint {
    Endpoint(e.protocol, e.exactHost, e.port, e.security)
  }

  /** The configuration a snapshot stands for. */
  function ConfigOf(s: AccountSnapshot): MailAccountConfig {
    MailAccountConfig(s.displayId, s.email, s.username, EndpointOf(s.incoming),
      if s.outgoing.None? then None else Some(EndpointOf(s.outgoing.value)), s.credentialKind)
  }

  predicate ValidStates(s: AccountSnapshot) {
    && (match s.bindingState
        case Quarantined => s.credentialState.LegacyQuarantined?
        case Proposed => s.credentialState.ReentryRequired? || s.credentialState.Missing?
        case Authorized => s.credentialState.ReentryRequired? || s.credentialState.Missing? || s.credentialState.Bound?
        case Invalidated => !s.credentialState.Bound?
        case Mismatch => true)
    && !(s.credentialKind.OAuth2? && (s.bindingState.Authorized? || s.credentialState.Bound?))
  }

  predicate NoDuplicates<T(==)>(items: seq<T>) {
    forall i, j | 0 <= i < j < |items| :: items[i] != items[j]
  }

  function ValidateSnapshot(env: Env, s: AccountSnapshot): Result<()> {
    var _ :- Need(
      && ValidDisplayId(s.displayId) && ValidEmail(s.email) && ValidUsername(s.username)
      && s.bindingVersion == 1
      && |s.cleanupIds| <= MAX_CLEANUPS && NoDuplicates(s.cleanupIds), InvalidInput);
    var _ :- EncodeEndpoint(env, s.incoming);
    var _ :- Need(s.incoming.protocol.Imap? && !s.incoming.security.Https?, InvalidInput);
    var _ :- OptionalEndpointBytes(env, s.outgoing);
    var _ :- Need(s.outgoing.Some? ==>
      s.outgoing.value.protocol.Smtp? && !s.outgoing.value.security.Https?, InvalidInput);
    var _ :- Need(ValidStates(s), InvalidInput);
    var config := ConfigOf(s);
    var checked := if config.credentialKind.OAuth2? then config.(credentialKind := Password) else config;
    var _ :- Need(ValidConfig(env, checked), InvalidInput);
    var binding :- BindingBytes(env, config);
    Need((env.sha256)(binding) == s.bindingSha256, InvalidInput)
  }

  function EncodeId(id: Uuid4): Result<seq<byte>> { Ok(UuidBytes(id)) }

  function SnapshotFields(
    s: AccountSnapshot, incoming: seq<byte>, outgoing: seq<byte>, cleanups: seq<byte>): seq<Field> {
    [Field(1, TextBytes(s.displayId)), Field(2, UuidBytes(s.accountId)), Field(3, NonZeroU64Bytes(s.generation)),
     Field(4, TextBytes(s.email)), Field(5, TextBytes(s.username)), Field(6, CredentialKindBytes(s.credentialKind)),
     Field(7, UuidBytes(s.credentialId)), Field(8, U16Bytes(s.bindingVersion)), Field(9, Bytes32Bytes(s.bindingSha256)),
     Field(10, BindingStateBytes(s.bindingState)), Field(11, CredentialStateBytes(s.credentialState)),
     Field(12, StateReasonBytes(s.stateReason)), Field(13, incoming), Field(14, outgoing), Field(15, cleanups)]
  }

  function EncodeSnapshot(env: Env, s: AccountSnapshot): Result<seq<byte>> {
    var _ :- ValidateSnapshot(env, s);
    var incoming :- EncodeEndpoint(env, s.incoming);
    var outgoing :- OptionalEndpointBytes(env, s.outgoing);
    var cleanups :- EncodeList(s.cleanupIds, EncodeId);
    EncodeFields(Domains.Bytes(Domains.AccountSnapshot), SnapshotFields(s, incoming, outgoing, cleanups))
  }

  const SNAPSHOT_TAGS: seq<u16> := [1, 2, 3, 4, 5, 6, 7, 8, 9, 10, 11, 12, 13, 14, 15]

  function ParseSnapshotFields(env: Env, f: seq<Field>): Result<AccountSnapshot> {
    var _ :- ExpectTags(f, SNAPSHOT_TAGS);
    var displayId :- ParseText(f[0].value);
    var accountId :- ParseUuid(f[1].value);
    var generation :- ParseNonZeroU64(f[2].value);
    var email :- ParseText(f[3].value);
    var username :- ParseText(f[4].value);
    var credentialKind :- ParseCredentialKind(f[5].value);
    var credentialId :- ParseUuid(f[6].value);
    var bindingVersion :- ParseU16(f[7].value);
    var bindingSha256 :- ParseBytes32(f[8].value);
    var bindingState :- ParseBindingState(f[9].value);
    var credentialState :- ParseCredentialState(f[10].value);
    var stateReason :- ParseStateReason(f[11].value);
    var incoming :- ParseEndpoint(env, f[12].value);
    var outgoing :- ParseOptionalEndpoint(env, f[13].value);
    var cleanupIds :- ParseList(f[14].value, ParseUuid, MAX_CLEANUPS);
    Ok(AccountSnapshot(displayId, accountId, generation, email, username, credentialKind, credentialId,
        bindingVersion, bindingSha256, bindingState, credentialState, stateReason, incoming, outgoing, cleanupIds))
  }

  function ParseSnapshot(env: Env, bytes: seq<byte>): Result<AccountSnapshot> {
    var f :- ParseFields(bytes, Domains.Bytes(Domains.AccountSnapshot), 15);
    ParseSnapshotFields(env, f)
  }

  lemma SnapshotFieldsParse(env: Env, s: AccountSnapshot, incoming: seq<byte>, outgoing: seq<byte>, cleanups: seq<byte>)
    requires ParseEndpoint(env, incoming) == Ok(s.incoming)
    requires ParseOptionalEndpoint(env, outgoing) == Ok(s.outgoing)
    requires ParseList(cleanups, ParseUuid, MAX_CLEANUPS) == Ok(s.cleanupIds)
    ensures ParseSnapshotFields(env, SnapshotFields(s, incoming, outgoing, cleanups)) == Ok(s)
  {
    hide ParseEndpoint; hide ParseOptionalEndpoint; hide ParseList; hide ValidUtf8;
    hide ParseText; hide ParseUuid; hide ParseNonZeroU64; hide ParseCredentialKind; hide ParseU16; hide ParseBytes32;
    hide ParseBindingState; hide ParseCredentialState; hide ParseStateReason;
    hide U16Bytes; hide NonZeroU64Bytes;
  }

  lemma CleanupIdsRoundTrip(ids: seq<Uuid4>)
    requires EncodeList(ids, EncodeId).Ok? && |ids| <= MAX_CLEANUPS
    ensures ParseList(EncodeList(ids, EncodeId).value, ParseUuid, MAX_CLEANUPS) == Ok(ids)
    ensures |EncodeList(ids, EncodeId).value| <= 2 + MAX_CLEANUPS * 22
  {
    hide ParseUuid;
    ListRoundTrip(ids, EncodeId, ParseUuid, MAX_CLEANUPS);
    EncodeItemsSize(ids, 0, EncodeId, 16);
  }

  lemma OptionalEndpointRoundTrip(env: Env, e: Option<EndpointSnapshot>)
    requires OptionalEndpointBytes(env, e).Ok?
    ensures ParseOptionalEndpoint(env, OptionalEndpointBytes(env, e).value) == Ok(e)
    ensures |OptionalEndpointBytes(env, e).value| <= ENDPOINT_SIZE
  {
    hide EncodeEndpoint;
    hide ParseEndpoint;
    if e.Some? {
      EndpointRoundTrip(env, e.value);
    }
  }

  const SNAPSHOT_SIZE := 60_000

  lemma SnapshotFieldsSize(s: AccountSnapshot, incoming: seq<byte>, outgoing: seq<byte>, cleanups: seq<byte>)
    requires |s.displayId| <= 64 && |s.email| <= 320 && |s.username| <= 1024
    requires |incoming| <= ENDPOINT_SIZE && |outgoing| <= ENDPOINT_SIZE && |cleanups| <= 2 + MAX_CLEANUPS * 22
    ensures BodySize(SnapshotFields(s, incoming, outgoing, cleanups)) <= SNAPSHOT_SIZE + 10_000
  {
    hide ValidUtf8; hide ParseText; hide ParseUuid; hide ParseNonZeroU64; hide ParseCredentialKind; hide ParseU16;
    hide ParseBytes32; hide ParseBindingState; hide ParseCredentialState; hide ParseStateReason;
    hide U16Bytes; hide NonZeroU64Bytes; hide BodySize;
    var f := SnapshotFields(s, incoming, outgoing, cleanups);
    assert f == f[..12] + f[12..];
    BodySizeConcat(f[..12], f[12..]);
    BodySizeAtMost(f[..12], 1024);
    BodySizeAtMost(f[12..14], ENDPOINT_SIZE);
    BodySizeAtMost(f[14..], 2 + MAX_CLEANUPS * 22);
    assert f[12..] == f[12..14] + f[14..];
    BodySizeConcat(f[12..14], f[14..]);
  }

  lemma SnapshotRoundTrip(env: Env, s: AccountSnapshot)
    requires EncodeSnapshot(env, s).Ok?
    ensures ParseSnapshot(env, EncodeSnapshot(env, s).value) == Ok(s)
    ensures 0 < |EncodeSnapshot(env, s).value| <= SNAPSHOT_SIZE + 11_000
  {
    hide EncodeFields; hide ParseFields; hide EncodeEndpoint; hide ParseEndpoint; hide EncodeList; hide ParseList;
    hide ValidConfig; hide ValidEmail; hide BindingBytes; hide OptionalEndpointBytes; hide ParseOptionalEndpoint;
    hide ParseSnapshotFields; hide SnapshotFields; hide AnyControl; hide NoDuplicates; hide ParseUuid;
    EndpointRoundTrip(env, s.incoming);
    OptionalEndpointRoundTrip(env, s.outgoing);
    CleanupIdsRoundTrip(s.cleanupIds);
    var incoming := EncodeEndpoint(env, s.incoming).value;
    var outgoing := OptionalEndpointBytes(env, s.outgoing).value;
    var cleanups := EncodeList(s.cleanupIds, EncodeId).value;
    SnapshotFieldsParse(env, s, incoming, outgoing, cleanups);
    var fields := SnapshotFields(s, incoming, outgoing, cleanups);
    SnapshotFieldCount(s, incoming, outgoing, cleanups);
    ParseFieldsOfEncoding(Domains.Bytes(Domains.AccountSnapshot), fields);
    EncodedSize(Domains.Bytes(Domains.AccountSnapshot), fields);
    assert |s.email| <= 320 by { EmailIsShort(s.email); }
    SnapshotFieldsSize(s, incoming, outgoing, cleanups);
  }

  lemma SnapshotFieldCount(s: AccountSnapshot, incoming: seq<byte>, outgoing: seq<byte>, cleanups: seq<byte>)
    ensures |SnapshotFields(s, incoming, outgoing, cleanups)| == 15
  {
  }

  lemma EmailIsShort(email: Text)
    requires ValidEmail(email)
    ensures |email| <= 320
  {
  }

  function OptionalSnapshotBytes(env: Env, s: Option<AccountSnapshot>): Result<seq<byte>> {
    if s.None? then Ok([]) else EncodeSnapshot(env, s.value)
  }

  function ParseOptionalSnapshot(env: Env, bytes: seq<byte>): Result<Option<AccountSnapshot>> {
    if bytes == [] then Ok(None) else var s :- ParseSnapshot(env, bytes); Ok(Some(s))
  }

  lemma OptionalSnapshotRoundTrip(env: Env, s: Option<AccountSnapshot>)
    requires OptionalSnapshotBytes(env, s).Ok?
    ensures ParseOptionalSnapshot(env, OptionalSnapshotBytes(env, s).value) == Ok(s)
    ensures |OptionalSnapshotBytes(env, s).value| <= SNAPSHOT_SIZE + 11_000
  {
    hide EncodeSnapshot;
    hide ParseSnapshot;
    if s.Some? {
      SnapshotRoundTrip(env, s.value);
    }
  }

  // ----- configuration compare-and-swap and cleanup descriptors -----

  function ConfigCasFields(c: ConfigCas): seq<Field> {
    [Field(1, UuidBytes(c.storeId)), Field(2, NonZeroU64Bytes(c.generation)),
     Field(3, Bytes32Bytes(c.exactContentSha256)), Field(4, Bytes32Bytes(c.locationSha256))]
  }

  function EncodeConfigCas(c: ConfigCas): Result<seq<byte>> {
    EncodeFields(Domains.Bytes(Domains.ConfigCas), ConfigCasFields(c))
  }

  function ParseConfigCas(bytes: seq<byte>): Result<ConfigCas> {
    var f :- ParseFields(bytes, Domains.Bytes(Domains.ConfigCas), 4);
    var _ :- ExpectTags(f, [1, 2, 3, 4]);
    var storeId :- ParseUuid(f[0].value);
    var generation :- ParseNonZeroU64(f[1].value);
    var exactContentSha256 :- ParseBytes32(f[2].value);
    var locationSha256 :- ParseBytes32(f[3].value);
    Ok(ConfigCas(storeId, generation, exactContentSha256, locationSha256))
  }

  lemma ConfigCasRoundTrip(c: ConfigCas)
    requires EncodeConfigCas(c).Ok?
    ensures ParseConfigCas(EncodeConfigCas(c).value) == Ok(c)
    ensures |EncodeConfigCas(c).value| <= 200
  {
    hide EncodeFields; hide ParseFields; hide ParseUuid; hide ParseNonZeroU64; hide ParseBytes32; hide NonZeroU64Bytes;
    var fields := ConfigCasFields(c);
    ParseFieldsOfEncoding(Domains.Bytes(Domains.ConfigCas), fields);
    EncodedSize(Domains.Bytes(Domains.ConfigCas), fields);
    BodySizeAtMost(fields, 32);
  }

  function CleanupDescriptorFields(d: CleanupDescriptor): seq<Field> {
    [Field(1, UuidBytes(d.cleanupId)), Field(2, LocatorKindBytes(d.locatorKind)),
     Field(3, Bytes32Bytes(d.locatorSha256)), Field(4, CleanupStateBytes(d.expectedState))]
  }

  function EncodeCleanupDescriptor(d: CleanupDescriptor): Result<seq<byte>> {
    EncodeFields(Domains.Bytes(Domains.CleanupDescriptor), CleanupDescriptorFields(d))
  }

  function ParseCleanupDescriptor(bytes: seq<byte>): Result<CleanupDescriptor> {
    var f :- ParseFields(bytes, Domains.Bytes(Domains.CleanupDescriptor), 4);
    var _ :- ExpectTags(f, [1, 2, 3, 4]);
    var cleanupId :- ParseUuid(f[0].value);
    var locatorKind :- ParseLocatorKind(f[1].value);
    var locatorSha256 :- ParseBytes32(f[2].value);
    var expectedState :- ParseCleanupState(f[3].value);
    Ok(CleanupDescriptor(cleanupId, locatorKind, locatorSha256, expectedState))
  }

  lemma CleanupDescriptorRoundTrip(d: CleanupDescriptor)
    requires EncodeCleanupDescriptor(d).Ok?
    ensures ParseCleanupDescriptor(EncodeCleanupDescriptor(d).value) == Ok(d)
    ensures |EncodeCleanupDescriptor(d).value| <= 200
  {
    hide EncodeFields; hide ParseFields; hide ParseUuid; hide ParseLocatorKind; hide ParseBytes32;
    hide ParseCleanupState;
    var fields := CleanupDescriptorFields(d);
    ParseFieldsOfEncoding(Domains.Bytes(Domains.CleanupDescriptor), fields);
    EncodedSize(Domains.Bytes(Domains.CleanupDescriptor), fields);
    BodySizeAtMost(fields, 32);
  }

  lemma CleanupListRoundTrip(items: seq<CleanupDescriptor>)
    requires EncodeList(items, EncodeCleanupDescriptor).Ok?
    ensures ParseList(EncodeList(items, EncodeCleanupDescriptor).value, ParseCleanupDescriptor, MAX_CLEANUPS) ==
      if |items| <= MAX_CLEANUPS then Ok(items) else Err(ResourceLimit)
    ensures |EncodeList(items, EncodeCleanupDescriptor).value| <= 2 + |items| * 206
  {
    hide EncodeCleanupDescriptor;
    hide ParseCleanupDescriptor;
    forall d | d in items && EncodeCleanupDescriptor(d).Ok?
      ensures ParseCleanupDescriptor(EncodeCleanupDescriptor(d).value) == Ok(d)
      ensures |EncodeCleanupDescriptor(d).value| <= 200
    {
      CleanupDescriptorRoundTrip(d);
    }
    ListRoundTrip(items, EncodeCleanupDescriptor, ParseCleanupDescriptor, MAX_CLEANUPS);
    EncodeItemsSize(items, 0, EncodeCleanupDescriptor, 200);
  }

  /** Bytes accepted as a descriptor are its transcript ... */
  lemma ParsedDescriptorIsCanonical(bytes: seq<byte>)
    requires ParseCleanupDescriptor(bytes).Ok?
    ensures EncodeCleanupDescriptor(ParseCleanupDescriptor(bytes).value) == Ok(bytes)
  {
    hide EncodeFields; hide ParseFieldsAny; hide ParseUuid; hide ParseLocatorKind; hide ParseBytes32;
    hide ParseCleanupState;
    var domain := Domains.Bytes(Domains.CleanupDescriptor);
    var f := ParseFieldsAny(bytes, domain).value;
    var d := ParseCleanupDescriptor(bytes).value;
    FramingIsBijective(bytes, domain, f);
    ValuesAreStrict(f[0].value); ValuesAreStrict(f[1].value); ValuesAreStrict(f[2].value); ValuesAreStrict(f[3].value);
    assert f == [f[0], f[1], f[2], f[3]];
    assert f == CleanupDescriptorFields(d);
  }

  /** ... so bytes accepted as a list of descriptors are the encoding of that list. */
  lemma CleanupListIsCanonical(bytes: seq<byte>)
    requires ParseList(bytes, ParseCleanupDescriptor, MAX_CLEANUPS).Ok?
    ensures EncodeList(ParseList(bytes, ParseCleanupDescriptor, MAX_CLEANUPS).value, EncodeCleanupDescriptor) ==
      Ok(bytes)
  {
    hide EncodeCleanupDescriptor; hide ParseCleanupDescriptor;
    forall b: seq<byte> | ParseCleanupDescriptor(b).Ok?
      ensures EncodeCleanupDescriptor(ParseCleanupDescriptor(b).value) == Ok(b)
    {
      ParsedDescriptorIsCanonical(b);
    }
    ListBytesAreCanonical(bytes, EncodeCleanupDescriptor, ParseCleanupDescriptor, MAX_CLEANUPS);
  }

  /** What the single-value parsers accept is the encoding of what they return. */
  lemma ValuesAreStrict(bytes: seq<byte>)
    ensures ParseUuid(bytes).Ok? ==> UuidBytes(ParseUuid(bytes).value) == bytes
    ensures ParseBytes32(bytes).Ok? ==> Bytes32Bytes(ParseBytes32(bytes).value) == bytes
    ensures ParseLocatorKind(bytes).Ok? ==> LocatorKindBytes(ParseLocatorKind(bytes).value) == bytes
    ensures ParseCleanupState(bytes).Ok? ==> CleanupStateBytes(ParseCleanupState(bytes).value) == bytes
    ensures ParseNonZeroU64(bytes).Ok? ==> NonZeroU64Bytes(ParseNonZeroU64(bytes).value) == bytes
  {
    IntegersAreStrict(bytes);
    if |bytes| == 1 { assert bytes == [bytes[0]]; }
  }

  /** A token's transcript, likewise. */
  lemma ParsedConfigCasIsCanonical(bytes: seq<byte>)
    requires ParseConfigCas(bytes).Ok?
    ensures EncodeConfigCas(ParseConfigCas(bytes).value) == Ok(bytes)
  {
    hide EncodeFields; hide ParseFieldsAny; hide ParseUuid; hide ParseNonZeroU64; hide ParseBytes32;
    hide NonZeroU64Bytes;
    var domain := Domains.Bytes(Domains.ConfigCas);
    var f := ParseFieldsAny(bytes, domain).value;
    var c := ParseConfigCas(bytes).value;
    FramingIsBijective(bytes, domain, f);
    ValuesAreStrict(f[0].value); ValuesAreStrict(f[1].value); ValuesAreStrict(f[2].value); ValuesAreStrict(f[3].value);
    assert f == [f[0], f[1], f[2], f[3]];
    assert f == ConfigCasFields(c);
  }

  // ----- account and credential mutations -----

  function MutationFields(
    m: AccountMutation, configCas: seq<byte>, before: seq<byte>, after: seq<byte>, cleanup: seq<byte>): seq<Field> {
    [Field(0x100, UuidBytes(m.transitionId)), Field(0x101, configCas), Field(0x102, before), Field(0x103, after),
     Field(0x104, NonZeroU64Bytes(m.nextConfigGeneration)), Field(0x105, Bytes32Bytes(m.afterConfigSha256)),
     Field(0x106, cleanup)]
  }

  function EncodeMutation(env: Env, m: AccountMutation): Result<seq<Field>> {
    var configCas :- EncodeConfigCas(m.configCas);
    var before :- OptionalSnapshotBytes(env, m.before);
    var after :- OptionalSnapshotBytes(env, m.after);
    var cleanup :- EncodeList(m.cleanup, EncodeCleanupDescriptor);
    Ok(MutationFields(m, configCas, before, after, cleanup))
  }

  const MUTATION_TAGS: seq<u16> := [0x100, 0x101, 0x102, 0x103, 0x104, 0x105, 0x106]

  function ParseMutation(env: Env, f: seq<Field>): Result<AccountMutation> {
    var _ :- ExpectTags(f, MUTATION_TAGS);
    var transitionId :- ParseUuid(f[0].value);
    var configCas :- ParseConfigCas(f[1].value);
    var before :- ParseOptionalSnapshot(env, f[2].value);
    var after :- ParseOptionalSnapshot(env, f[3].value);
    var nextConfigGeneration :- ParseNonZeroU64(f[4].value);
    var afterConfigSha256 :- ParseBytes32(f[5].value);
    var cleanup :- ParseList(f[6].value, ParseCleanupDescriptor, MAX_CLEANUPS);
    Ok(AccountMutation(transitionId, configCas, before, after, nextConfigGeneration, afterConfigSha256, cleanup))
  }

  const MUTATION_FIELD_SIZE := 75_000

  /** The encoder has no bound on the cleanup list; the parser stops at 100. */
  lemma MutationRoundTrip(env: Env, m: AccountMutation)
    requires EncodeMutation(env, m).Ok?
    ensures ParseMutation(env, EncodeMutation(env, m).value) ==
      if |m.cleanup| <= MAX_CLEANUPS then Ok(m) else Err(ResourceLimit)
    ensures |m.cleanup| <= MAX_CLEANUPS ==> AllAtMost(EncodeMutation(env, m).value, MUTATION_FIELD_SIZE)
    ensures HasTags(EncodeMutation(env, m).value, MUTATION_TAGS)
  {
    hide EncodeConfigCas; hide ParseConfigCas; hide OptionalSnapshotBytes; hide ParseOptionalSnapshot;
    hide EncodeList; hide ParseList; hide EncodeCleanupDescriptor; hide ParseCleanupDescriptor;
    hide ParseUuid; hide ParseNonZeroU64; hide ParseBytes32; hide NonZeroU64Bytes;
    ConfigCasRoundTrip(m.configCas);
    OptionalSnapshotRoundTrip(env, m.before);
    OptionalSnapshotRoundTrip(env, m.after);
    CleanupListRoundTrip(m.cleanup);
  }

  const CREDENTIAL_TAGS: seq<u16> := MUTATION_TAGS + [0x107]

  function EncodeCredentialMutation(env: Env, m: CredentialMutation): Result<seq<Field>> {
    var fields :- EncodeMutation(env, m.account);
    Ok(fields + [Field(0x107, Bytes32Bytes(m.activeLocatorSha256))])
  }

  function ParseCredentialMutation(env: Env, f: seq<Field>): Result<CredentialMutation> {
    var _ :- ExpectTags(f, CREDENTIAL_TAGS);
    var account :- ParseMutation(env, f[..7]);
    var activeLocatorSha256 :- ParseBytes32(f[7].value);
    Ok(CredentialMutation(account, activeLocatorSha256))
  }

  lemma CredentialMutationRoundTrip(env: Env, m: CredentialMutation)
    requires EncodeCredentialMutation(env, m).Ok?
    ensures ParseCredentialMutation(env, EncodeCredentialMutation(env, m).value) ==
      if |m.account.cleanup| <= MAX_CLEANUPS then Ok(m) else Err(ResourceLimit)
    ensures |m.account.cleanup| <= MAX_CLEANUPS ==>
      AllAtMost(EncodeCredentialMutation(env, m).value, MUTATION_FIELD_SIZE)
    ensures HasTags(EncodeCredentialMutation(env, m).value, CREDENTIAL_TAGS)
  {
    hide EncodeMutation; hide ParseMutation; hide ParseBytes32;
    MutationRoundTrip(env, m.account);
    var f := EncodeCredentialMutation(env, m).value;
    assert f[..7] == EncodeMutation(env, m.account).value;
  }

  // ----- store enrollment and credential cleanup -----

  const ENROLL_TAGS: seq<u16> := [0x100, 0x101, 0x102]

  function EncodeEnroll(e: StoreEnroll): Result<seq<Field>> {
    var configCas :- EncodeConfigCas(e.configCas);
    Ok([Field(0x100, UuidBytes(e.transitionId)), Field(0x101, configCas), Field(0x102, [0])])
  }

  function ParseEnroll(f: seq<Field>): Result<StoreEnroll> {
    var _ :- ExpectTags(f, ENROLL_TAGS);
    var state :- Code8(f[2].value);
    var _ :- Need(state == 0, AuthorizationMalformed);
    var transitionId :- ParseUuid(f[0].value);
    var configCas :- ParseConfigCas(f[1].value);
    Ok(StoreEnroll(transitionId, configCas))
  }

  lemma EnrollRoundTrip(e: StoreEnroll)
    requires EncodeEnroll(e).Ok?
    ensures ParseEnroll(EncodeEnroll(e).value) == Ok(e)
    ensures AllAtMost(EncodeEnroll(e).value, MUTATION_FIELD_SIZE) && HasTags(EncodeEnroll(e).value, ENROLL_TAGS)
  {
    hide EncodeConfigCas; hide ParseConfigCas; hide ParseUuid;
    ConfigCasRoundTrip(e.configCas);
  }

  const CLEANUP_TAGS: seq<u16> := [0x100, 0x101, 0x102, 0x103, 0x104, 0x105]

  function CleanupFields(c: CredentialCleanup): seq<Field> {
    [Field(0x100, UuidBytes(c.cleanupId)), Field(0x101, LocatorKindBytes(c.locatorKind)),
     Field(0x102, Bytes32Bytes(c.locatorSha256)), Field(0x103, Bytes32Bytes(c.tombstoneSha256)),
     Field(0x104, OptionalUuidBytes(c.transitionId)), Field(0x105, CleanupStateBytes(c.expectedState))]
  }

  function ParseCleanup(f: seq<Field>): Result<CredentialCleanup> {
    var _ :- ExpectTags(f, CLEANUP_TAGS);
    var cleanupId :- ParseUuid(f[0].value);
    var locatorKind :- ParseLocatorKind(f[1].value);
    var locatorSha256 :- ParseBytes32(f[2].value);
    var tombstoneSha256 :- ParseBytes32(f[3].value);
    var transitionId :- ParseOptionalUuid(f[4].value);
    var expectedState :- ParseCleanupState(f[5].value);
    Ok(CredentialCleanup(cleanupId, locatorKind, locatorSha256, tombstoneSha256, transitionId, expectedState))
  }

  lemma CleanupRoundTrip(c: CredentialCleanup)
    ensures ParseCleanup(CleanupFields(c)) == Ok(c)
    ensures AllAtMost(CleanupFields(c), MUTATION_FIELD_SIZE) && HasTags(CleanupFields(c), CLEANUP_TAGS)
  {
    hide ParseUuid; hide ParseLocatorKind; hide ParseBytes32; hide ParseOptionalUuid; hide ParseCleanupState;
  }

  /** Fields accepted as a cleanup are its own fields. */
  lemma ParsedCleanupIsCanonical(f: seq<Field>)
    requires ParseCleanup(f).Ok?
    ensures CleanupFields(ParseCleanup(f).value) == f
  {
    hide ParseUuid; hide ParseLocatorKind; hide ParseBytes32; hide ParseOptionalUuid; hide ParseCleanupState;
    ValuesAreStrict(f[0].value); ValuesAreStrict(f[1].value); ValuesAreStrict(f[2].value);
    ValuesAreStrict(f[3].value); ValuesAreStrict(f[5].value);
    OptionsAreStrict(f[4].value);
    assert f == [f[0], f[1], f[2], f[3], f[4], f[5]];
  }
}
