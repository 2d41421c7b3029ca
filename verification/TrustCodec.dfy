/** Key rotation, recovery, and the closing of ambiguous remote effects. */
module TrustCodec {
  import opened Basics
  import opened Utf8
  import opened Framing
  import opened Wire
  import opened ManifestTypes

  const WIDE_TAGS: seq<u16> := [0x100, 0x101, 0x102, 0x103, 0x104, 0x105, 0x106, 0x107, 0x108, 0x109, 0x10a]

  function RotationFields(r: TrustRotation): seq<Field> {
    [Field(0x100, UuidBytes(r.transitionId)), Field(0x101, RoleBytes(r.role)),
     Field(0x102, Bytes32Bytes(r.oldKeyId)), Field(0x103, Bytes32Bytes(r.oldPublicKey)),
     Field(0x104, Bytes32Bytes(r.newKeyId)), Field(0x105, Bytes32Bytes(r.newPublicKey)),
     Field(0x106, NonZeroU64Bytes(r.oldEpoch)), Field(0x107, NonZeroU64Bytes(r.newEpoch)),
     Field(0x108, Bytes32Bytes(r.oldBundle)), Field(0x109, Bytes32Bytes(r.newBundle)),
     Field(0x10a, PermissionBytes(r.permissions))]
  }

  function ParseRotation(f: seq<Field>): Result<TrustRotation> {
    var _ :- ExpectTags(f, WIDE_TAGS);
    var role :- ParseRole(f[1].value);
    var permissions :- ParsePermissions(f[10].value);
    var transitionId :- ParseUuid(f[0].value);
    var oldKeyId :- ParseBytes32(f[2].value);
    var oldPublicKey :- ParseBytes32(f[3].value);
    var newKeyId :- ParseBytes32(f[4].value);
    var newPublicKey :- ParseBytes32(f[5].value);
    var oldEpoch :- ParseNonZeroU64(f[6].value);
    var newEpoch :- ParseNonZeroU64(f[7].value);
    var oldBundle :- ParseBytes32(f[8].value);
    var newBundle :- ParseBytes32(f[9].value);
    Ok(TrustRotation(transitionId, role, oldKeyId, oldPublicKey, newKeyId, newPublicKey, oldEpoch, newEpoch,
        oldBundle, newBundle, permissions))
  }

  lemma RotationRoundTrip(r: TrustRotation)
    ensures ParseRotation(RotationFields(r)) == Ok(r)
    ensures AllAtMost(RotationFields(r), 32) && HasTags(RotationFields(r), WIDE_TAGS)
  {
    hide ParseRole; hide ParsePermissions; hide ParseUuid; hide ParseBytes32; hide ParseNonZeroU64;
    hide NonZeroU64Bytes;
    hide PermissionBytes;
  }

  function RecoverFields(r: OwnerRecover): seq<Field> {
    [Field(0x100, UuidBytes(r.transitionId)), Field(0x101, UuidBytes(r.journalId)),
     Field(0x102, NonZeroU64Bytes(r.oldEpoch)), Field(0x103, NonZeroU64Bytes(r.newEpoch)),
     Field(0x104, Bytes32Bytes(r.oldBundle)),
     Field(0x105, Bytes32Bytes(r.newOwnerId)), Field(0x106, Bytes32Bytes(r.newOwnerKey)),
     Field(0x107, Bytes32Bytes(r.newRecoveryId)), Field(0x108, Bytes32Bytes(r.newRecoveryKey)),
     Field(0x109, Bytes32Bytes(r.newBundle)), Field(0x10a, [1])]
  }

  function ParseRecover(f: seq<Field>): Result<OwnerRecover> {
    var _ :- ExpectTags(f, WIDE_TAGS);
    var scope :- Code8(f[10].value);
    var _ :- Need(scope == 1, AuthorizationMalformed);
    var transitionId :- ParseUuid(f[0].value);
    var journalId :- ParseUuid(f[1].value);
    var oldEpoch :- ParseNonZeroU64(f[2].value);
    var newEpoch :- ParseNonZeroU64(f[3].value);
    var oldBundle :- ParseBytes32(f[4].value);
    var newOwnerId :- ParseBytes32(f[5].value);
    var newOwnerKey :- ParseBytes32(f[6].value);
    var newRecoveryId :- ParseBytes32(f[7].value);
    var newRecoveryKey :- ParseBytes32(f[8].value);
    var newBundle :- ParseBytes32(f[9].value);
    Ok(OwnerRecover(transitionId, journalId, oldEpoch, newEpoch, oldBundle, newOwnerId, newOwnerKey,
        newRecoveryId, newRecoveryKey, newBundle))
  }

  lemma RecoverRoundTrip(r: OwnerRecover)
    ensures ParseRecover(RecoverFields(r)) == Ok(r)
    ensures AllAtMost(RecoverFields(r), 32) && HasTags(RecoverFields(r), WIDE_TAGS)
  {
    hide ParseUuid; hide ParseBytes32; hide ParseNonZeroU64; hide NonZeroU64Bytes;
  }

  const CLOSE_TAGS: seq<u16> := [0x100, 0x101, 0x102, 0x103, 0x104, 0x105, 0x106, 0x107]

  function CloseFields(c: AmbiguousClose): seq<Field> {
    [Field(0x100, UuidBytes(c.operationId)), Field(0x101, UuidBytes(c.invocationId)),
     Field(0x102, Bytes32Bytes(c.originalManifestSha256)), Field(0x103, Bytes32Bytes(c.claimSha256)),
     Field(0x104, OptionalDigestBytes(c.observationSha256)), Field(0x105, AssertionBytes(c.assertion)),
     Field(0x106, TextBytes(c.assertionText)), Field(0x107, TerminalBytes(c.terminal))]
  }

  function ParseClose(f: seq<Field>): Result<AmbiguousClose> {
    var _ :- ExpectTags(f, CLOSE_TAGS);
    var assertion :- ParseAssertion(f[5].value);
    var terminal :- ParseTerminal(f[7].value);
    var operationId :- ParseUuid(f[0].value);
    var invocationId :- ParseUuid(f[1].value);
    var originalManifestSha256 :- ParseBytes32(f[2].value);
    var claimSha256 :- ParseBytes32(f[3].value);
    var observationSha256 :- ParseOptionalDigest(f[4].value);
    var assertionText :- ParseText(f[6].value);
    Ok(AmbiguousClose(operationId, invocationId, originalManifestSha256, claimSha256, observationSha256,
        assertion, assertionText, terminal))
  }

  lemma CloseRoundTrip(c: AmbiguousClose)
    ensures ParseClose(CloseFields(c)) == Ok(c)
    ensures HasTags(CloseFields(c), CLOSE_TAGS)
    ensures |c.assertionText| <= 1024 ==> AllAtMost(CloseFields(c), 1024)
  {
    hide ParseAssertion; hide ParseTerminal; hide ParseUuid; hide ParseBytes32; hide ParseOptionalDigest;
    hide ParseText;
    hide ValidUtf8;
  }
}
