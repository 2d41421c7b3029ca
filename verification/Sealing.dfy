/** Which account mutations can be sealed at all: the converse of what a sealed
    one guarantees, so that the lifecycle's rules are exact. */
module Sealing {
  import opened Basics
  import opened Utf8
  import opened Framing
  import opened Accounts
  import opened Wire
  import opened ManifestTypes
  import opened AccountCodec
  import opened Manifests
  import opened Authorization
  import opened Lifecycle
  import Actions
  import Domains

  // ----- what validates can be encoded -----

  lemma CasEncodes(c: ConfigCas)
    ensures EncodeConfigCas(c).Ok?
  {
    hide EncodeFields; hide ParseUuid; hide ParseNonZeroU64; hide ParseBytes32; hide NonZeroU64Bytes;
    EncodeFieldsExact(Domains.Bytes(Domains.ConfigCas), ConfigCasFields(c));
  }

  /** A snapshot that validates has a transcript. */
  lemma SnapshotEncodes(env: Env, s: AccountSnapshot)
    requires ValidateSnapshot(env, s).Ok?
    ensures EncodeSnapshot(env, s).Ok?
  {
    hide EncodeFields; hide EncodeEndpoint; hide OptionalEndpointBytes; hide ValidConfig; hide BindingBytes;
    hide EncodeList;
    hide ValidEmail; hide SnapshotFields; hide NoDuplicates; hide ValidStates; hide ValidDisplayId; hide ValidUsername;
    IdsEncode(s.cleanupIds);
    EndpointRoundTrip(env, s.incoming);
    OptionalEndpointRoundTrip(env, s.outgoing);
    CleanupIdsRoundTrip(s.cleanupIds);
    TextsAreShort(s);
    SnapshotFieldsEncode(s, EncodeEndpoint(env, s.incoming).value, OptionalEndpointBytes(env, s.outgoing).value,
      EncodeList(s.cleanupIds, EncodeId).value);
  }

  lemma IdsEncode(ids: seq<Uuid4>)
    requires |ids| <= MAX_CLEANUPS
    ensures EncodeList(ids, EncodeId).Ok?
  {
    hide EncodeItems;
    EncodeItemsSucceeds(ids, 0, EncodeId);
  }

  lemma TextsAreShort(s: AccountSnapshot)
    requires ValidDisplayId(s.displayId) && ValidEmail(s.email) && ValidUsername(s.username)
    ensures |s.displayId| <= 64 && |s.email| <= 320 && |s.username| <= 1024
  {
    EmailIsShort(s.email);
  }

  lemma SnapshotFieldsEncode(s: AccountSnapshot, incoming: seq<byte>, outgoing: seq<byte>, cleanups: seq<byte>)
    requires |s.displayId| <= 64 && |s.email| <= 320 && |s.username| <= 1024
    requires |incoming| <= U32_MAX && |outgoing| <= U32_MAX && |cleanups| <= U32_MAX
    ensures EncodeFields(Domains.Bytes(Domains.AccountSnapshot), SnapshotFields(s, incoming, outgoing, cleanups)).Ok?
  {
    hide EncodeFields; hide SnapshotFields; hide HasTags; hide AllAtMost; hide Increasing;
    var fields := SnapshotFields(s, incoming, outgoing, cleanups);
    SnapshotFieldsAreTagged(s, incoming, outgoing, cleanups);
    SnapshotFieldsAreShort(s, incoming, outgoing, cleanups);
    TagsIncrease(fields, SNAPSHOT_TAGS);
    EncodableWhenSmall(Domains.Bytes(Domains.AccountSnapshot), fields);
  }

  lemma SnapshotFieldsAreTagged(s: AccountSnapshot, incoming: seq<byte>, outgoing: seq<byte>, cleanups: seq<byte>)
    ensures HasTags(SnapshotFields(s, incoming, outgoing, cleanups), SNAPSHOT_TAGS)
    ensures |SnapshotFields(s, incoming, outgoing, cleanups)| <= 20
  {
    hide TextBytes; hide NonZeroU64Bytes; hide U16Bytes; hide BindingStateBytes; hide CredentialStateBytes;
    hide StateReasonBytes;
    hide CredentialKindBytes;
  }

  lemma SnapshotFieldsAreShort(s: AccountSnapshot, incoming: seq<byte>, outgoing: seq<byte>, cleanups: seq<byte>)
    requires |s.displayId| <= 64 && |s.email| <= 320 && |s.username| <= 1024
    requires |incoming| <= U32_MAX && |outgoing| <= U32_MAX && |cleanups| <= U32_MAX
    ensures AllAtMost(SnapshotFields(s, incoming, outgoing, cleanups), U32_MAX)
  {
    hide ParseUuid; hide ParseNonZeroU64; hide ParseBytes32; hide NonZeroU64Bytes; hide U16Bytes; hide ParseText;
    hide ParseU16;
    hide ParseCredentialKind; hide ParseBindingState; hide ParseCredentialState; hide ParseStateReason; hide ValidUtf8;
  }

  lemma OptionalSnapshotEncodes(env: Env, s: Option<AccountSnapshot>)
    requires s.Some? ==> ValidateSnapshot(env, s.value).Ok?
    ensures OptionalSnapshotBytes(env, s).Ok?
  {
    hide EncodeSnapshot; hide ValidateSnapshot;
    if s.Some? { SnapshotEncodes(env, s.value); }
  }

  lemma DescriptorEncodes(d: CleanupDescriptor)
    ensures EncodeCleanupDescriptor(d).Ok? && |EncodeCleanupDescriptor(d).value| <= 200
  {
    hide EncodeFields; hide ParseUuid; hide ParseLocatorKind; hide ParseBytes32; hide ParseCleanupState;
    hide ParseCleanupDescriptor;
    EncodeFieldsExact(Domains.Bytes(Domains.CleanupDescriptor), CleanupDescriptorFields(d));
    CleanupDescriptorRoundTrip(d);
  }

  lemma DescriptorsEncode(items: seq<CleanupDescriptor>)
    ensures EncodeList(items, EncodeCleanupDescriptor).Ok? <==> |items| <= U16_MAX
  {
    hide EncodeItems; hide EncodeCleanupDescriptor;
    if |items| <= U16_MAX {
      forall d | d in items
        ensures EncodeCleanupDescriptor(d).Ok? && |EncodeCleanupDescriptor(d).value| <= U32_MAX
      {
        DescriptorEncodes(d);
      }
      EncodeItemsSucceeds(items, 0, EncodeCleanupDescriptor);
    }
  }

  predicate ValidIfAny(env: Env, s: Option<AccountSnapshot>) { s.Some? ==> ValidateSnapshot(env, s.value).Ok? }

  /** A mutation is encodable exactly when its snapshots are valid and its cleanup
      list fits the 16-bit count. */
  lemma MutationEncodes(env: Env, m: AccountMutation)
    ensures EncodeMutation(env, m).Ok? <==>
      ValidIfAny(env, m.before) && ValidIfAny(env, m.after) && |m.cleanup| <= U16_MAX
    ensures EncodeMutation(env, m).Ok? ==>
      AllAtMost(EncodeMutation(env, m).value, U32_MAX) && HasTags(EncodeMutation(env, m).value, MUTATION_TAGS)
  {
    hide ValidateSnapshot; hide EncodeConfigCas; hide MutationFields; hide EncodeCleanupDescriptor;
    hide EncodeSnapshot; hide EncodeList; hide AllAtMost; hide HasTags;
    CasEncodes(m.configCas);
    EncodesOnlyIfValid(env, m.before);
    EncodesOnlyIfValid(env, m.after);
    DescriptorsEncode(m.cleanup);
    if EncodeMutation(env, m).Ok? {
      MutationFieldsAreTagged(m, EncodeConfigCas(m.configCas).value, OptionalSnapshotBytes(env, m.before).value,
        OptionalSnapshotBytes(env, m.after).value, EncodeList(m.cleanup, EncodeCleanupDescriptor).value);
      ConfigCasRoundTrip(m.configCas);
      OptionalSnapshotRoundTrip(env, m.before);
      OptionalSnapshotRoundTrip(env, m.after);
      CleanupListRoundTrip(m.cleanup);
    }
  }

  lemma EncodesOnlyIfValid(env: Env, s: Option<AccountSnapshot>)
    ensures OptionalSnapshotBytes(env, s).Ok? <==> ValidIfAny(env, s)
  {
    hide ValidateSnapshot; hide EncodeEndpoint; hide OptionalEndpointBytes; hide EncodeList; hide EncodeFields;
    if ValidIfAny(env, s) { OptionalSnapshotEncodes(env, s); }
  }

  lemma MutationFieldsAreTagged(
    m: AccountMutation, configCas: seq<byte>, before: seq<byte>, after: seq<byte>, cleanup: seq<byte>)
    ensures HasTags(MutationFields(m, configCas, before, after, cleanup), MUTATION_TAGS)
    ensures |configCas| <= U32_MAX && |before| <= U32_MAX && |after| <= U32_MAX && |cleanup| <= U32_MAX ==>
      AllAtMost(MutationFields(m, configCas, before, after, cleanup), U32_MAX)
  {
    hide ParseUuid; hide ParseNonZeroU64; hide ParseBytes32; hide NonZeroU64Bytes;
  }

  /** Common fields and payload fields together are always a transcript. */
  lemma TranscriptEncodes(c: Context, action: Action, payload: seq<Field>, tags: seq<u16>)
    requires Actions.ManifestSupported(action)
    requires HasTags(payload, tags) && tags <= CREDENTIAL_TAGS && AllAtMost(payload, U32_MAX)
    ensures EncodeFields(Domains.Bytes(Domains.Manifest), CommonFields(c, action) + payload).Ok?
  {
    hide EncodeFields; hide Domains.Bytes; hide CommonFields; hide HasTags; hide AllAtMost; hide Increasing;
    var common := CommonFields(c, action);
    HeadRoundTrip(c, action);
    CommonTags(c, action);
    Joined(common, COMMON_TAGS, payload, tags);
    TagTableIncreases(tags);
    TagsIncrease(common + payload, COMMON_TAGS + tags);
    EncodableWhenSmall(Domains.Bytes(Domains.Manifest), common + payload);
  }

  lemma Joined(a: seq<Field>, s: seq<u16>, b: seq<Field>, t: seq<u16>)
    requires HasTags(a, s) && HasTags(b, t) && |s| + |t| <= 20 && AllAtMost(a, 32) && AllAtMost(b, U32_MAX)
    ensures HasTags(a + b, s + t) && AllAtMost(a + b, U32_MAX) && |a + b| <= 20
  {
  }

  lemma TagTableIncreases(tags: seq<u16>)
    requires tags <= CREDENTIAL_TAGS
    ensures |COMMON_TAGS + tags| <= 20
    ensures forall i, j | 0 <= i < j < |COMMON_TAGS + tags| :: (COMMON_TAGS + tags)[i] < (COMMON_TAGS + tags)[j]
  {
    var all := COMMON_TAGS + CREDENTIAL_TAGS;
    assert all == [1, 2, 3, 4, 5, 6, 7, 8, 9, 0x100, 0x101, 0x102, 0x103, 0x104, 0x105, 0x106, 0x107];
    assert forall i | 0 <= i < |COMMON_TAGS + tags| :: (COMMON_TAGS + tags)[i] == all[i];
  }

  lemma CommonTags(c: Context, action: Action)
    ensures HasTags(CommonFields(c, action), COMMON_TAGS)
  {
    hide U16Bytes; hide Actions.Code; hide Actions.TargetBytes; hide OptionalUuidBytes; hide OptionalDigestBytes;
  }

  // ----- the manifest for a step -----

  /** What a mutation carries besides its two snapshots. */
  datatype Cover = Cover(
    cas: ConfigCas, nextGeneration: NonZeroU64, transition: Uuid4, digest: Digest, cleanup: seq<CleanupDescriptor>)

  /** The configuration generation goes up by one, and the cleanup list can be counted. */
  predicate GoodCover(v: Cover) {
    v.cas.generation + 1 == v.nextGeneration && |v.cleanup| <= U16_MAX
  }

  function MutationFor(before: Option<AccountSnapshot>, after: Option<AccountSnapshot>, v: Cover): AccountMutation {
    AccountMutation(v.transition, v.cas, before, after, v.nextGeneration, v.digest, v.cleanup)
  }

  function PayloadFor(
    action: Action, before: Option<AccountSnapshot>, after: Option<AccountSnapshot>, v: Cover): Payload {
    var m := MutationFor(before, after, v);
    match action
    case AccountCreate => AccountCreate(m)
    case AccountUpdate => AccountUpdate(m)
    case AccountRemove => AccountRemove(m)
    case CredentialSet => CredentialSet(CredentialMutation(m, v.digest))
    case _ => CredentialDelete(CredentialMutation(m, v.digest))
  }

  function ContextFor(
    action: Action, before: Option<AccountSnapshot>, after: Option<AccountSnapshot>, v: Cover): Context
    requires before.Some? || after.Some?
  {
    var some := if after.Some? then after.value else before.value;
    var target := if action.CredentialSet? || action.CredentialDelete?
      then Actions.CredentialTarget(some.credentialId) else Actions.AccountTarget(some.accountId);
    Context(target, Some(v.cas.storeId), Some(some.accountId), Some(some.bindingSha256), None, None)
  }

  lemma MutationValidates(
    env: Env, action: Action, before: Option<AccountSnapshot>, after: Option<AccountSnapshot>, v: Cover)
    requires GoodStep(env, action, before, after) && GoodCover(v)
    requires action.AccountCreate? || action.AccountUpdate? || action.AccountRemove?
    ensures before.Some? || after.Some?
    ensures ValidateMutation(env, ContextFor(action, before, after, v), action, MutationFor(before, after, v)).Ok?
  {
    hide ValidateSnapshot; hide MaterialChanged;
  }

  lemma CredentialValidates(
    env: Env, action: Action, before: Option<AccountSnapshot>, after: Option<AccountSnapshot>, v: Cover)
    requires GoodStep(env, action, before, after) && GoodCover(v)
    requires action.CredentialSet? || action.CredentialDelete?
    ensures before.Some? && after.Some?
    ensures ValidateCredential(env, ContextFor(action, before, after, v), action,
      CredentialMutation(MutationFor(before, after, v), v.digest)).Ok?
  {
    hide ValidateSnapshot;
  }

  predicate IsLifecycle(action: Action) {
    action.AccountCreate? || action.AccountUpdate? || action.AccountRemove? || action.CredentialSet?
      || action.CredentialDelete?
  }

  /** The manifest that takes one snapshot to the next. */
  function ManifestFor(
    env: Env, action: Action, before: Option<AccountSnapshot>, after: Option<AccountSnapshot>,
    v: Cover): Result<Manifest>
    requires before.Some? || after.Some?
  {
    NewManifest(env, ContextFor(action, before, after, v), PayloadFor(action, before, after, v))
  }

  /** The rules are exact: every step they admit can be sealed, under any
      configuration token and with any transition id. */
  lemma GoodStepIsSealable(
    env: Env, action: Action, before: Option<AccountSnapshot>, after: Option<AccountSnapshot>, v: Cover)
    requires GoodStep(env, action, before, after) && GoodCover(v)
    ensures before.Some? || after.Some?
    ensures ManifestFor(env, action, before, after, v).Ok?
    ensures var m := ManifestFor(env, action, before, after, v).value;
      && Sealed(env, m) && ActionOf(m.payload) == action && MutationOf(m.payload).Some?
      && Before(m) == before && After(m) == after
  {
    hide PayloadFor; hide ContextFor; hide GoodStep; hide NewManifest; hide EncodePayload; hide EncodeFields;
    hide Sealed;
    hide ActionOf; hide MutationOf; hide CommonFields; hide ValidateCommon; hide ValidatePayload;
    OnlyLifecycle(env, action, before, after);
    PayloadForParts(action, before, after, v);
    StepValidates(env, action, before, after, v);
    StepEncodes(env, action, before, after, v);
    SealedParts(env, ContextFor(action, before, after, v), PayloadFor(action, before, after, v));
  }

  lemma PayloadForParts(action: Action, before: Option<AccountSnapshot>, after: Option<AccountSnapshot>, v: Cover)
    requires IsLifecycle(action)
    ensures var p := PayloadFor(action, before, after, v);
      && ActionOf(p) == action && MutationOf(p).Some?
      && MutationOf(p).value.before == before && MutationOf(p).value.after == after
  {
  }

  lemma StepValidates(
    env: Env, action: Action, before: Option<AccountSnapshot>, after: Option<AccountSnapshot>, v: Cover)
    requires GoodStep(env, action, before, after) && GoodCover(v)
    requires IsLifecycle(action) && (before.Some? || after.Some?)
    ensures var c := ContextFor(action, before, after, v);
      ValidateCommon(c, action).Ok? && ValidatePayload(env, c, PayloadFor(action, before, after, v)).Ok?
  {
    hide ValidateMutation; hide ValidateCredential; hide GoodStep; hide MutationFor; hide ValidateCommon;
    hide ContextFor;
    CommonValidates(action, before, after, v);
    if action.CredentialSet? || action.CredentialDelete? {
      CredentialValidates(env, action, before, after, v);
    } else {
      MutationValidates(env, action, before, after, v);
    }
  }

  lemma CommonValidates(action: Action, before: Option<AccountSnapshot>, after: Option<AccountSnapshot>, v: Cover)
    requires IsLifecycle(action) && (before.Some? || after.Some?)
    ensures ValidateCommon(ContextFor(action, before, after, v), action).Ok?
  {
  }

  lemma StepEncodes(env: Env, action: Action, before: Option<AccountSnapshot>, after: Option<AccountSnapshot>, v: Cover)
    requires GoodStep(env, action, before, after) && IsLifecycle(action) && (before.Some? || after.Some?)
    requires |v.cleanup| <= U16_MAX
    ensures var p, c := PayloadFor(action, before, after, v), ContextFor(action, before, after, v);
      EncodePayload(env, p).Ok?
      && EncodeFields(Domains.Bytes(Domains.Manifest), CommonFields(c, action) + EncodePayload(env, p).value).Ok?
  {
    hide EncodeMutation; hide EncodeFields; hide CommonFields; hide MutationFor; hide ContextFor;
    hide EncodeCredentialMutation;
    hide GoodStep; hide ValidateSnapshot; hide HasTags; hide AllAtMost; hide PayloadFor; hide EncodePayload;
    hide IsLifecycle;
    var m := MutationFor(before, after, v);
    StepSnapshots(env, action, before, after);
    EncodingOfPayload(env, action, before, after, v);
    MutationShapeOf(before, after, v);
    MutationEncodes(env, m);
    PayloadEncodes(env, action, ContextFor(action, before, after, v), m, v);
  }

  lemma StepSnapshots(env: Env, action: Action, before: Option<AccountSnapshot>, after: Option<AccountSnapshot>)
    requires GoodStep(env, action, before, after)
    ensures before.Some? ==> ValidateSnapshot(env, before.value).Ok?
    ensures after.Some? ==> ValidateSnapshot(env, after.value).Ok?
  {
    hide ValidateSnapshot; hide SameMaterial; hide MutationShape; hide CredentialShape;
  }

  lemma EncodingOfPayload(
    env: Env, action: Action, before: Option<AccountSnapshot>, after: Option<AccountSnapshot>, v: Cover)
    requires IsLifecycle(action)
    ensures EncodePayload(env, PayloadFor(action, before, after, v)) ==
      var m := MutationFor(before, after, v);
      if action.CredentialSet? || action.CredentialDelete? then EncodeCredentialMutation(env,
        CredentialMutation(m, v.digest))
      else EncodeMutation(env, m)
  {
    hide EncodeMutation; hide EncodeCredentialMutation; hide MutationFor;
  }

  lemma OnlyLifecycle(env: Env, action: Action, before: Option<AccountSnapshot>, after: Option<AccountSnapshot>)
    requires GoodStep(env, action, before, after)
    ensures IsLifecycle(action) && (before.Some? || after.Some?)
  {
    hide ValidateSnapshot; hide SameMaterial; hide MaterialChanged;
  }

  lemma MutationShapeOf(before: Option<AccountSnapshot>, after: Option<AccountSnapshot>, v: Cover)
    ensures var m := MutationFor(before, after, v); m.before == before && m.after == after && m.cleanup == v.cleanup
  {
  }

  lemma PayloadEncodes(env: Env, action: Action, c: Context, m: AccountMutation, v: Cover)
    requires IsLifecycle(action) && EncodeMutation(env, m).Ok?
    requires HasTags(EncodeMutation(env, m).value, MUTATION_TAGS) && AllAtMost(EncodeMutation(env, m).value, U32_MAX)
    ensures EncodeFields(Domains.Bytes(Domains.Manifest), CommonFields(c, action) + EncodeMutation(env, m).value).Ok?
    ensures var credential := CredentialMutation(m, v.digest);
      EncodeCredentialMutation(env, credential).Ok?
      && EncodeFields(Domains.Bytes(Domains.Manifest), CommonFields(c, action) +
        EncodeCredentialMutation(env, credential).value).Ok?
  {
    hide EncodeMutation; hide EncodeFields; hide CommonFields; hide ParseBytes32;
    TranscriptEncodes(c, action, EncodeMutation(env, m).value, MUTATION_TAGS);
    var credential := EncodeCredentialMutation(env, CredentialMutation(m, v.digest)).value;
    TranscriptEncodes(c, action, credential, CREDENTIAL_TAGS);
  }

  /** Sealing is validation and encoding, and nothing else. */
  lemma SealedParts(env: Env, c: Context, p: Payload)
    ensures NewManifest(env, c, p).Ok? <==>
      && ValidateCommon(c, ActionOf(p)).Ok? && ValidatePayload(env, c, p).Ok? && EncodePayload(env, p).Ok?
      && EncodeFields(Domains.Bytes(Domains.Manifest), CommonFields(c, ActionOf(p)) + EncodePayload(env, p).value).Ok?
    ensures NewManifest(env, c, p).Ok? ==>
      var m := NewManifest(env, c, p).value; m.context == c && m.payload == p && Sealed(env, m)
  {
    hide ValidateCommon; hide ValidatePayload; hide EncodePayload; hide EncodeFields; hide CommonFields; hide ActionOf;
  }

  // ----- sealed, but not parseable -----

  /** A step with more than 100 cleanup descriptors, and as many as the encoder
      can count, is sealed all the same, and its own bytes are then refused. */
  lemma LongCleanupSealsButDoesNotParse(
    env: Env, action: Action, before: Option<AccountSnapshot>, after: Option<AccountSnapshot>, v: Cover)
    requires GoodStep(env, action, before, after) && GoodCover(v)
    ensures before.Some? || after.Some?
    ensures ManifestFor(env, action, before, after, v).Ok?
    ensures ParseManifest(env, ManifestFor(env, action, before, after, v).value.bytes) ==
      if |v.cleanup| <= MAX_CLEANUPS then ManifestFor(env, action, before, after, v) else Err(ResourceLimit)
  {
    hide GoodStep; hide NewManifest; hide ParseManifest; hide Sealed; hide PayloadFor; hide ContextFor;
    hide CleanupCount;
    hide ActionOf; hide MutationOf; hide Before; hide After;
    GoodStepIsSealable(env, action, before, after, v);
    OnlyLifecycle(env, action, before, after);
    CleanupOfPayload(action, before, after, v);
    ManifestRoundTrip(env, ContextFor(action, before, after, v), PayloadFor(action, before, after, v));
  }

  lemma CleanupOfPayload(action: Action, before: Option<AccountSnapshot>, after: Option<AccountSnapshot>, v: Cover)
    requires IsLifecycle(action)
    ensures CleanupCount(PayloadFor(action, before, after, v)) == |v.cleanup|
  {
  }
}
