/** What sealed trust manifests guarantee, alone and in a chain in which each
    starts from the epoch and bundle the previous one ended with. */
module TrustChains {
  import opened Basics
  import opened Accounts
  import opened ManifestTypes
  import opened Manifests
  import opened Authorization
  import opened SealedExactly
  import Actions
  import Domains

  datatype Step = Step(oldEpoch: nat, newEpoch: nat, oldBundle: Digest, newBundle: Digest)

  /** The epochs and bundles of a payload that changes trust. */
  function StepOf(p: Payload): Option<Step> {
    match p
    case OwnerRotate(v) => Some(Step(v.oldEpoch, v.newEpoch, v.oldBundle, v.newBundle))
    case RecoveryRotate(v) => Some(Step(v.oldEpoch, v.newEpoch, v.oldBundle, v.newBundle))
    case RecoverPayload(v) => Some(Step(v.oldEpoch, v.newEpoch, v.oldBundle, v.newBundle))
    case _ => None
  }

  // ----- keys -----

  /** What a key's id is the digest of tells the role and the key. */
  lemma KeyIdsTellKeysApart(role: OwnerKeyRole, key: Bytes32, role': OwnerKeyRole, key': Bytes32)
    requires Domains.Bytes(Domains.OwnerKey) + [RoleCode(role)] + key
      == Domains.Bytes(Domains.OwnerKey) + [RoleCode(role')] + key'
    ensures role == role' && key == key'
  {
    var n := |Domains.Bytes(Domains.OwnerKey)|;
    var a := Domains.Bytes(Domains.OwnerKey) + [RoleCode(role)] + key;
    var b := Domains.Bytes(Domains.OwnerKey) + [RoleCode(role')] + key';
    assert a[n] == RoleCode(role) && b[n] == RoleCode(role');
    assert a[n + 1..] == key && b[n + 1..] == key';
  }

  /** A sealed rotation installs another key of the same role, one epoch on, with
      the permissions of that role; its context names the old epoch only. */
  lemma RotationReplacesTheKey(env: Env, m: Manifest)
    requires Sealed(env, m) && (m.payload.OwnerRotate? || m.payload.RecoveryRotate?)
    ensures var v := m.payload.rotation;
      var owner := m.payload.OwnerRotate?;
      && v.newPublicKey != v.oldPublicKey && v.newEpoch == v.oldEpoch + 1
      && (v.role == if owner then Owner else Recovery)
      && (v.permissions == if owner then OwnerMask else RecoveryMask)
      && v.oldKeyId == KeyId(env, v.role, v.oldPublicKey) && v.newKeyId == KeyId(env, v.role, v.newPublicKey)
      && m.context == Context(Actions.TrustEpochTarget(v.oldEpoch), None, None, None, None, None)
  {
    hide NewManifest;
    SealedExactlyWhen(env, m.context, m.payload);
  }

  /** A sealed recovery installs an owner key and a recovery key. Should both be
      one key, its two ids still differ, unless the hash collides. */
  lemma RecoverySeparatesRoles(env: Env, m: Manifest)
    requires Sealed(env, m) && m.payload.RecoverPayload?
    ensures var v := m.payload.recover;
      var owner := Domains.Bytes(Domains.OwnerKey) + [1] + v.newOwnerKey;
      var recovery := Domains.Bytes(Domains.OwnerKey) + [2] + v.newRecoveryKey;
      && v.newEpoch == v.oldEpoch + 1 && owner != recovery
      && v.newOwnerId == (env.sha256)(owner) && v.newRecoveryId == (env.sha256)(recovery)
  {
    hide NewManifest; hide Domains.Bytes;
    SealedExactlyWhen(env, m.context, m.payload);
    var v := m.payload.recover;
    var domain := Domains.Bytes(Domains.OwnerKey);
    if domain + [1] + v.newOwnerKey == domain + [2] + v.newRecoveryKey {
      KeyIdsTellKeysApart(Owner, v.newOwnerKey, Recovery, v.newRecoveryKey);
    }
  }

  // ----- chains -----

  /** Sealed trust changes, each from where the previous one ended. */
  predicate TrustChain(env: Env, ms: seq<Manifest>) {
    && (forall i | 0 <= i < |ms| :: Sealed(env, ms[i]) && StepOf(ms[i].payload).Some?)
    && forall i | 0 <= i < |ms| - 1 ::
         StepOf(ms[i + 1].payload).value.oldEpoch == StepOf(ms[i].payload).value.newEpoch
         && StepOf(ms[i + 1].payload).value.oldBundle == StepOf(ms[i].payload).value.newBundle
  }

  lemma OneStep(env: Env, m: Manifest)
    requires Sealed(env, m) && StepOf(m.payload).Some?
    ensures StepOf(m.payload).value.newEpoch == StepOf(m.payload).value.oldEpoch + 1
    ensures m.context.target.TrustEpochTarget? && m.context.target.epoch == StepOf(m.payload).value.oldEpoch
  {
    hide NewManifest;
    SealedExactlyWhen(env, m.context, m.payload);
  }

  /** The epoch goes up by one with every change, whatever kind of change it is:
      after `n` of them it is `n` above where the chain began. */
  lemma {:induction false} EpochsCount(env: Env, ms: seq<Manifest>, i: nat)
    requires TrustChain(env, ms) && i < |ms|
    ensures StepOf(ms[i].payload).value.oldEpoch == StepOf(ms[0].payload).value.oldEpoch + i
    ensures StepOf(ms[i].payload).value.newEpoch == StepOf(ms[0].payload).value.oldEpoch + i + 1
    ensures ms[i].context.target.TrustEpochTarget? && ms[i].context.target.epoch == StepOf(ms[i].payload).value.oldEpoch
  {
    hide Sealed; hide StepOf;
    OneStep(env, ms[i]);
    if i > 0 { EpochsCount(env, ms, i - 1); }
  }

  /** So no two manifests of a chain are for the same epoch: their bytes differ, and
      an authorization of one is never the bytes of an authorization of another. */
  lemma NoEpochTwice(env: Env, ms: seq<Manifest>, i: nat, j: nat, grant: Grant, grant': Grant)
    requires TrustChain(env, ms) && i < j < |ms|
    ensures ms[i].context.target != ms[j].context.target && ms[i].bytes != ms[j].bytes
    ensures NewAuthorization(env, ms[i], grant).Ok? && NewAuthorization(env, ms[j], grant').Ok? ==>
      NewAuthorization(env, ms[i], grant).value.bytes != NewAuthorization(env, ms[j], grant').value.bytes
  {
    hide StepOf; hide NewManifest; hide NewAuthorization; hide ParseManifest;
    EpochsCount(env, ms, i);
    EpochsCount(env, ms, j);
    assert Sealed(env, ms[i]) && Sealed(env, ms[j]);
    NoCleanups(ms[i]);
    NoCleanups(ms[j]);
    ManifestRoundTrip(env, ms[i].context, ms[i].payload);
    ManifestRoundTrip(env, ms[j].context, ms[j].payload);
    if NewAuthorization(env, ms[i], grant).Ok? && NewAuthorization(env, ms[j], grant').Ok?
      && NewAuthorization(env, ms[i], grant).value.bytes == NewAuthorization(env, ms[j], grant').value.bytes
    {
      AuthorizationsTellManifestsApart(env, ms[i], grant, ms[j], grant');
    }
  }

  lemma NoCleanups(m: Manifest)
    requires StepOf(m.payload).Some?
    ensures CleanupCount(m.payload) == 0
  {
  }
}
