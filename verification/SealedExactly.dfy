/** The exact conditions under which each of the 17 payloads is sealed. */
module SealedExactly {
  import opened Basics
  import opened Utf8
  import opened Framing
  import opened Accounts
  import opened Wire
  import opened ManifestTypes
  import opened SendCodec
  import opened MailboxCodec
  import opened AccountCodec
  import opened TrustCodec
  import opened Manifests
  import opened TextRules
  import opened Acceptance
  import opened Sealing
  import Actions
  import Domains

  // ----- sends -----

  ghost predicate GoodAttachment(a: Attachment) {
    && |a.filename| > 0 && |Scalars(a.filename)| <= 255 && Printable(a.filename)
    && (forall i | 0 <= i < |a.filename| :: a.filename[i] != '/' as byte && a.filename[i] != '\\' as byte)
    && (exists slash: nat :: IsMimeType(a.mimeType, slash)) && |a.mimeType| <= 127
    && a.decodedSize <= 1_048_576
    && match a.summary
       case None => true
       case Some(s) =>
         if s.disposition == Omitted then s.text == None else s.text.Some? && |Scalars(s.text.value)| <= 4096
  }

  function TotalSize(attachments: seq<Attachment>): nat {
    if |attachments| == 0 then 0
    else TotalSize(attachments[..|attachments| - 1]) + attachments[|attachments| - 1].decodedSize
  }

  predicate IsReference(t: Text) {
    && 3 <= |t| <= 998 && t[0] == '<' as byte && t[|t| - 1] == '>' as byte
    && forall i | 0 <= i < |t| :: '!' as byte <= t[i] <= '~' as byte
  }

  predicate HasText(t: Option<Text>) { t.Some? && |t.value| > 0 }

  ghost predicate GoodSend(s: SendSubmit) {
    && 1 <= |s.to| + |s.cc| + |s.bcc| <= 50
    && |Scalars(s.subject)| <= 998 && Printable(s.subject)
    && (HasText(s.text) || HasText(s.html))
    && (s.text.Some? ==> |Scalars(s.text.value)| <= 262_144) && (s.html.Some? ==> |Scalars(s.html.value)| <= 262_144)
    && |s.attachments| <= 25 && (forall i | 0 <= i < |s.attachments| :: GoodAttachment(s.attachments[i]))
    && TotalSize(s.attachments) <= 8_388_608
    && IsReference(s.messageId) && (s.inReplyTo.Some? ==> IsReference(s.inReplyTo.value))
    && |s.references| <= 100 && (forall i | 0 <= i < |s.references| :: IsReference(s.references[i]))
    && 1 <= |s.mimeBoundary| <= 256
    && forall i | 0 <= i < |s.mimeBoundary| :: '!' as byte <= s.mimeBoundary[i] <= '~' as byte
  }

  lemma AttachmentIsExact(a: Attachment)
    ensures ValidateAttachment(a).Ok? <==> GoodAttachment(a)
  {
    hide ValidMime; hide AnyControl; hide Printable; hide Scalars; hide IsMimeType; hide CharCount;
    ClassesAreExact(a.filename);
    MimeIsExact(a.mimeType);
    if a.summary.Some? && a.summary.value.text.Some? { ClassesAreExact(a.summary.value.text.value); }
    assert forall i | 0 <= i < |a.filename| :: a.filename[i] in a.filename;
  }

  lemma {:induction false} TotalIsExact(attachments: seq<Attachment>, total: nat)
    ensures AttachmentTotal(attachments, total).Ok? <==>
      && (forall i | 0 <= i < |attachments| :: GoodAttachment(attachments[i]))
      && (|attachments| > 0 ==> total + TotalSize(attachments) <= 8_388_608)
    decreases |attachments|
  {
    hide ValidateAttachment; hide GoodAttachment;
    if |attachments| > 0 {
      AttachmentIsExact(attachments[0]);
      TotalIsExact(attachments[1..], total + attachments[0].decodedSize);
      FrontTotal(attachments);
      assert forall i | 1 <= i < |attachments| :: attachments[i] == attachments[1..][i - 1];
    }
  }

  lemma {:induction false} FrontTotal(attachments: seq<Attachment>)
    requires |attachments| > 0
    ensures TotalSize(attachments) == attachments[0].decodedSize + TotalSize(attachments[1..])
  {
    var n := |attachments|;
    if n == 1 {
      assert attachments[..0] == [] && attachments[1..] == [];
    } else {
      FrontTotal(attachments[..n - 1]);
      assert attachments[..n - 1][1..] == attachments[1..][..n - 2];
      assert attachments[1..][n - 2] == attachments[n - 1];
    }
  }

  lemma ReferenceIsExact(t: Text)
    ensures ValidMessageId(t) <==> IsReference(t)
  {
    hide ValidMessageId; hide ValidAsciiToken;
    TokensAreExact(t);
  }

  lemma WellFormedIsExact(s: SendSubmit)
    ensures WellFormedSend(s) <==>
      && |Scalars(s.subject)| <= 998 && Printable(s.subject)
      && (HasText(s.text) || HasText(s.html))
      && (s.text.Some? ==> |Scalars(s.text.value)| <= 262_144)
      && (s.html.Some? ==> |Scalars(s.html.value)| <= 262_144)
      && |s.attachments| <= 25 && |s.references| <= 100
      && IsReference(s.messageId) && (s.inReplyTo.Some? ==> IsReference(s.inReplyTo.value))
      && (forall i | 0 <= i < |s.references| :: IsReference(s.references[i]))
      && 1 <= |s.mimeBoundary| <= 256
      && forall i | 0 <= i < |s.mimeBoundary| :: '!' as byte <= s.mimeBoundary[i] <= '~' as byte
  {
    hide ValidMessageId; hide ValidAsciiToken; hide AnyControl; hide Printable; hide Scalars; hide CharCount;
    hide IsReference;
    ClassesAreExact(s.subject);
    if s.text.Some? { ClassesAreExact(s.text.value); }
    if s.html.Some? { ClassesAreExact(s.html.value); }
    ReferenceIsExact(s.messageId);
    TokensAreExact(s.mimeBoundary);
    if s.inReplyTo.Some? { ReferenceIsExact(s.inReplyTo.value); }
    ReferencesAreExact(s.references);
  }

  lemma ReferencesAreExact(items: seq<Text>)
    ensures (forall t | t in items :: ValidMessageId(t)) <==> forall i | 0 <= i < |items| :: IsReference(items[i])
  {
    hide ValidMessageId; hide IsReference; hide ValidUtf8;
    forall i | 0 <= i < |items|
      ensures items[i] in items && (ValidMessageId(items[i]) <==> IsReference(items[i]))
    {
      ReferenceIsExact(items[i]);
    }
  }

  lemma SendValidatesExactly(s: SendSubmit)
    ensures ValidateSend(s).Ok? <==> GoodSend(s)
  {
    hide WellFormedSend; hide AttachmentTotal; hide GoodAttachment; hide Printable; hide Scalars; hide IsReference;
    WellFormedIsExact(s);
    TotalIsExact(s.attachments, 0);
    assert |s.attachments| == 0 ==> TotalSize(s.attachments) == 0;
  }

  // ----- whatever validates has a transcript -----

  lemma AddressEncodes(a: ManifestAddress)
    ensures EncodeAddress(a).Ok? && |EncodeAddress(a).value| <= ADDRESS_SIZE
  {
    hide EncodeFields; hide ParseText; hide ParseOptionalText;
    var fields := AddressFields(a);
    assert |a.email| <= 320 && (a.displayName.Some? ==> |a.displayName.value| <= 4 * CharCount(a.displayName.value))
      by { AddressIsShort(a); }
    EncodableWhenSmall(Domains.Bytes(Domains.Address), fields);
    AddressRoundTrip(a);
  }

  lemma AddressIsShort(a: ManifestAddress)
    ensures |a.email| <= 320
  {
  }

  lemma AddressesEncode(items: seq<ManifestAddress>)
    requires |items| <= 50
    ensures EncodeList(items, EncodeAddress).Ok?
  {
    hide EncodeAddress; hide ValidAddress; hide EncodeItems;
    forall a | a in items ensures EncodeAddress(a).Ok? && |EncodeAddress(a).value| <= U32_MAX { AddressEncodes(a); }
    EncodeItemsSucceeds(items, 0, EncodeAddress);
  }

  lemma SummaryEncodes(s: AttachmentSummary)
    requires s.text.Some? ==> CharCount(s.text.value) <= MAX_SUMMARY_CHARS
    ensures EncodeSummary(s).Ok?
  {
    hide EncodeFields; hide ParseText; hide ParseOptionalText; hide ParseOptionalU64; hide ParseBool;
    hide ParseDisposition; hide CharCount;
    EncodableWhenSmall(Domains.Bytes(Domains.AttachmentSummary), SummaryFields(s));
  }

  lemma AttachmentEncodes(a: Attachment)
    requires ValidateAttachment(a).Ok?
    ensures EncodeAttachment(a).Ok? && |EncodeAttachment(a).value| <= ATTACHMENT_SIZE
  {
    hide EncodeFields; hide ValidMime; hide AnyControl; hide EncodeSummary; hide ParseU64; hide ParseBytes32;
    hide ParseText; hide AttachmentFields;
    if a.summary.Some? { SummaryEncodes(a.summary.value); }
    OptionalSummaryRoundTrip(a.summary);
    AttachmentFieldsEncode(a, OptionalSummaryBytes(a.summary).value);
    AttachmentRoundTrip(a);
  }

  lemma AttachmentFieldsEncode(a: Attachment, summary: seq<byte>)
    requires CharCount(a.filename) <= 255 && |a.mimeType| <= 127 && |summary| <= U32_MAX
    ensures EncodeFields(Domains.Bytes(Domains.Attachment), AttachmentFields(a, summary)).Ok?
  {
    hide EncodeFields; hide ParseU64; hide ParseBytes32; hide ParseText; hide CharCount; hide U64Bytes;
    EncodableWhenSmall(Domains.Bytes(Domains.Attachment), AttachmentFields(a, summary));
  }

  lemma {:induction false} EachValidates(attachments: seq<Attachment>, total: nat)
    requires AttachmentTotal(attachments, total).Ok?
    ensures forall a | a in attachments :: ValidateAttachment(a).Ok?
    decreases |attachments|
  {
    hide ValidateAttachment;
    if |attachments| > 0 {
      EachValidates(attachments[1..], total + attachments[0].decodedSize);
      assert attachments == [attachments[0]] + attachments[1..];
    }
  }

  lemma AttachmentsEncode(items: seq<Attachment>)
    requires |items| <= 25 && forall a | a in items :: ValidateAttachment(a).Ok?
    ensures EncodeList(items, EncodeAttachment).Ok?
  {
    hide EncodeAttachment; hide ValidateAttachment; hide EncodeItems;
    forall a | a in items ensures EncodeAttachment(a).Ok? && |EncodeAttachment(a).value| <= U32_MAX {
      AttachmentEncodes(a);
    }
    EncodeItemsSucceeds(items, 0, EncodeAttachment);
  }

  lemma ReferencesEncode(items: seq<Text>)
    requires |items| <= 100 && forall t | t in items :: ValidMessageId(t)
    ensures EncodeList(items, EncodeReference).Ok?
  {
    hide EncodeItems; hide ValidUtf8;
    EncodeItemsSucceeds(items, 0, EncodeReference);
  }

  lemma SendEncodes(s: SendSubmit)
    ensures EncodeSend(s).Ok? <==> GoodSend(s)
  {
    hide EncodeAddress; hide EncodeAttachment; hide EncodeList; hide AttachmentTotal; hide SendFields; hide GoodSend;
    hide ValidMessageId; hide ValidAsciiToken; hide AnyControl; hide CharCount; hide ValidateAttachment;
    SendValidatesExactly(s);
    if ValidateSend(s).Ok? {
      AddressEncodes(s.from);
      AddressesEncode(s.to);
      AddressesEncode(s.cc);
      AddressesEncode(s.bcc);
      EachValidates(s.attachments, 0);
      AttachmentsEncode(s.attachments);
      ReferencesEncode(s.references);
    }
  }

  // ----- mailbox operations -----

  predicate IsMailboxName(t: Text) { |t| > 0 && |Scalars(t)| <= 4096 && Printable(t) }

  /** A flag operation has a value and nothing to do with destinations; a transfer
      has a resolved destination, which only a move also requests. */
  predicate GoodMailbox(p: Payload)
    requires p.MailSeen? || p.MailStarred? || p.MailMove? || p.MailArchive? || p.MailSafeDelete?
  {
    var m := p.mailbox;
    && IsMailboxName(m.sourceMailbox) && m.capabilityComplete
    && if p.MailSeen? || p.MailStarred? then
         && m.requestedValue.Some? && m.requestedDestination == None && m.resolvedDestination == None
         && m.specialUse == NoSpecialUse && m.strategy == StoreFlags
       else
         && m.requestedValue == None && m.resolvedDestination.Some? && IsMailboxName(m.resolvedDestination.value)
         && m.strategy != StoreFlags && m.requestedDestination.Some? == p.MailMove?
         && (m.requestedDestination.Some? ==> IsMailboxName(m.requestedDestination.value))
         && m.specialUse == (if p.MailArchive? then Archive else if p.MailSafeDelete? then Trash else NoSpecialUse)
  }

  lemma MailboxNameIsExact(t: Text)
    ensures InvalidMailbox(t) <==> !IsMailboxName(t)
  {
    hide AnyControl; hide Printable; hide Scalars; hide CharCount;
    ClassesAreExact(t);
  }

  lemma MailboxIsExact(p: Payload)
    requires p.MailSeen? || p.MailStarred? || p.MailMove? || p.MailArchive? || p.MailSafeDelete?
    ensures ValidMailbox(ActionOf(p), p.mailbox) <==> GoodMailbox(p)
  {
    hide InvalidMailbox; hide IsMailboxName;
    MailboxNameIsExact(p.mailbox.sourceMailbox);
    if p.mailbox.requestedDestination.Some? { MailboxNameIsExact(p.mailbox.requestedDestination.value); }
    if p.mailbox.resolvedDestination.Some? { MailboxNameIsExact(p.mailbox.resolvedDestination.value); }
  }

  // ----- account mutations -----

  /** The context of a mutation names the mutated store and account and the digest
      of the signed snapshot; the store's generation goes up by one, and the
      cleanup list fits its count. */
  predicate Signs(c: Context, v: AccountMutation, target: Actions.Target, signed: AccountSnapshot) {
    && c == Context(target, Some(v.configCas.storeId), Some(signed.accountId), Some(signed.bindingSha256), None, None)
    && v.nextConfigGeneration == v.configCas.generation + 1 && |v.cleanup| <= 65_535
  }

  ghost predicate Creates(env: Env, c: Context, v: AccountMutation) {
    v.before == None && v.after.Some? &&
    var a := v.after.value;
    && GoodSnapshot(env, a) && Signs(c, v, Actions.AccountTarget(a.accountId), a)
    && a.generation == 1 && a.bindingState == Proposed && a.credentialState == ReentryRequired
  }

  /** The same account one generation on, under a credential id of its own, with
      something that is bound changed, and the credential to be entered again. */
  ghost predicate Updates(env: Env, c: Context, v: AccountMutation) {
    v.before.Some? && v.after.Some? &&
    var (b, a) := (v.before.value, v.after.value);
    && GoodSnapshot(env, b) && GoodSnapshot(env, a) && Signs(c, v, Actions.AccountTarget(a.accountId), a)
    && a.accountId == b.accountId && a.displayId == b.displayId && a.generation == b.generation + 1
    && a.credentialId != b.credentialId
    && (a.email, a.username, a.credentialKind, a.incoming, a.outgoing)
         != (b.email, b.username, b.credentialKind, b.incoming, b.outgoing)
    && a.bindingState == Authorized && a.credentialState == ReentryRequired
  }

  ghost predicate Removes(env: Env, c: Context, v: AccountMutation) {
    v.before.Some? && v.after == None &&
    var b := v.before.value;
    GoodSnapshot(env, b) && Signs(c, v, Actions.AccountTarget(b.accountId), b)
  }

  /** Nothing but the generation, the two states and the reason differs. */
  predicate OnlyStates(b: AccountSnapshot, a: AccountSnapshot, credential: CredentialState) {
    && a.generation == b.generation + 1
    && a == b.(generation := a.generation, bindingState := Authorized, credentialState := credential,
         stateReason := a.stateReason)
  }

  ghost predicate SetsCredential(env: Env, c: Context, v: AccountMutation) {
    v.before.Some? && v.after.Some? &&
    var (b, a) := (v.before.value, v.after.value);
    && GoodSnapshot(env, b) && GoodSnapshot(env, a) && Signs(c, v, Actions.CredentialTarget(a.credentialId), a)
    && b.credentialState in [ReentryRequired, Missing] && OnlyStates(b, a, Bound)
  }

  ghost predicate DeletesCredential(env: Env, c: Context, v: AccountMutation) {
    v.before.Some? && v.after.Some? &&
    var (b, a) := (v.before.value, v.after.value);
    && GoodSnapshot(env, b) && GoodSnapshot(env, a) && Signs(c, v, Actions.CredentialTarget(b.credentialId), b)
    && b.bindingState == Authorized && b.credentialState == Bound && OnlyStates(b, a, Missing)
  }

  ghost predicate Changes(env: Env, c: Context, action: Actions.Action, v: AccountMutation) {
    match action
    case AccountCreate => Creates(env, c, v)
    case AccountUpdate => Updates(env, c, v)
    case AccountRemove => Removes(env, c, v)
    case CredentialSet => SetsCredential(env, c, v)
    case CredentialDelete => DeletesCredential(env, c, v)
    case _ => false
  }

  lemma MutationIsExact(env: Env, c: Context, action: Actions.Action, v: AccountMutation)
    requires action.AccountCreate? || action.AccountUpdate? || action.AccountRemove?
    ensures ValidateCommon(c, action).Ok? && ValidateMutation(env, c, action, v).Ok? && |v.cleanup| <= 65_535
      <==> Changes(env, c, action, v)
  {
    hide ValidateSnapshot; hide GoodSnapshot;
    if v.before.Some? { SnapshotIsExact(env, v.before.value); }
    if v.after.Some? { SnapshotIsExact(env, v.after.value); }
  }

  lemma SetIsExact(env: Env, c: Context, w: CredentialMutation)
    ensures ValidateCommon(c, Actions.CredentialSet).Ok? && ValidateCredential(env, c, Actions.CredentialSet, w).Ok?
        && |w.account.cleanup| <= 65_535
      <==> SetsCredential(env, c, w.account)
  {
    hide ValidateSnapshot; hide GoodSnapshot; hide MaterialChanged;
    if w.account.before.Some? { SnapshotIsExact(env, w.account.before.value); }
    if w.account.after.Some? { SnapshotIsExact(env, w.account.after.value); }
  }

  lemma DeleteIsExact(env: Env, c: Context, w: CredentialMutation)
    ensures ValidateCommon(c, Actions.CredentialDelete).Ok?
        && ValidateCredential(env, c, Actions.CredentialDelete, w).Ok? && |w.account.cleanup| <= 65_535
      <==> DeletesCredential(env, c, w.account)
  {
    hide ValidateSnapshot; hide GoodSnapshot; hide MaterialChanged;
    if w.account.before.Some? { SnapshotIsExact(env, w.account.before.value); }
    if w.account.after.Some? { SnapshotIsExact(env, w.account.after.value); }
  }

  // ----- enrollment, cleanup, trust, closing -----

  /** A key's id is the digest of its role and the key, under its own domain. */
  function KeyId(env: Env, role: OwnerKeyRole, key: Bytes32): Digest {
    (env.sha256)(Domains.Bytes(Domains.OwnerKey) + [match role case Owner => 1 case Recovery => 2] + key)
  }

  /** The context of a trust change names the epoch it starts from and nothing else. */
  predicate TrustContext(c: Context, epoch: NonZeroU64) {
    c == Context(Actions.TrustEpochTarget(epoch), None, None, None, None, None)
  }

  /** A rotation replaces one key by a different one of its role, with the
      permissions of that role, and the epoch goes up by one. */
  predicate Rotates(env: Env, c: Context, role: OwnerKeyRole, v: TrustRotation) {
    && TrustContext(c, v.oldEpoch) && v.newEpoch == v.oldEpoch + 1 && v.role == role
    && v.permissions == (match role case Owner => OwnerMask case Recovery => RecoveryMask)
    && v.oldKeyId == KeyId(env, role, v.oldPublicKey) && v.newKeyId == KeyId(env, role, v.newPublicKey)
    && v.newKeyId != v.oldKeyId
  }

  predicate Recovers(env: Env, c: Context, v: OwnerRecover) {
    && TrustContext(c, v.oldEpoch) && v.newEpoch == v.oldEpoch + 1
    && v.newOwnerId == KeyId(env, Owner, v.newOwnerKey) && v.newRecoveryId == KeyId(env, Recovery, v.newRecoveryKey)
  }

  predicate Enrolls(c: Context, v: StoreEnroll) {
    var id := v.configCas.storeId;
    c == Context(Actions.StoreTarget(id), Some(id), None, None, None, None)
  }

  predicate CleansUp(c: Context, v: CredentialCleanup) {
    && c.target == Actions.CleanupTarget(v.cleanupId) && c.policy == None && c.effectId == None
    && c.storeId != None && c.accountId != None && c.binding != None
  }

  /** Closing needs the operator's words: 1 to 1024 bytes with no control characters. */
  predicate Closes(c: Context, v: AmbiguousClose) {
    && c.target.RemoteEffectTarget? && c.effectId == None
    && c.storeId != None && c.accountId != None && c.binding != None && c.policy != None
    && 1 <= |v.assertionText| <= 1024 && Printable(v.assertionText)
  }

  /** A remote effect is on an operation, and everything about it is named. */
  predicate RemoteContext(c: Context) {
    && c.target.OperationTarget? && c.effectId != None
    && c.storeId != None && c.accountId != None && c.binding != None && c.policy != None
  }

  // ----- all payloads -----

  /** The whole rule. */
  ghost predicate Sealable(env: Env, c: Context, p: Payload) {
    match p
    case SendPayload(v) => RemoteContext(c) && GoodSend(v)
    case MailSeen(_) | MailStarred(_) | MailMove(_) | MailArchive(_) | MailSafeDelete(_) =>
      RemoteContext(c) && GoodMailbox(p)
    case EnrollPayload(v) => Enrolls(c, v)
    case AccountCreate(v) => Creates(env, c, v)
    case AccountUpdate(v) => Updates(env, c, v)
    case AccountRemove(v) => Removes(env, c, v)
    case CredentialSet(v) => SetsCredential(env, c, v.account)
    case CredentialDelete(v) => DeletesCredential(env, c, v.account)
    case CleanupPayload(v) => CleansUp(c, v)
    case OwnerRotate(v) => Rotates(env, c, Owner, v)
    case RecoveryRotate(v) => Rotates(env, c, Recovery, v)
    case RecoverPayload(v) => Recovers(env, c, v)
    case ClosePayload(v) => Closes(c, v)
  }

  /** Validation alone, and a transcript where validation does not settle it. */
  predicate Valid(env: Env, c: Context, p: Payload) {
    ValidateCommon(c, ActionOf(p)).Ok? && ValidatePayload(env, c, p).Ok? && EncodePayload(env, p).Ok?
  }

  lemma RemoteIsExact(env: Env, c: Context, p: Payload)
    requires p.SendPayload? || p.MailSeen? || p.MailStarred? || p.MailMove? || p.MailArchive? || p.MailSafeDelete?
    ensures Valid(env, c, p) <==> Sealable(env, c, p)
  {
    hide EncodeSend; hide GoodSend; hide ValidMailbox; hide GoodMailbox; hide MailboxFields;
    if p.SendPayload? { SendEncodes(p.send); } else { MailboxIsExact(p); }
  }

  lemma RotationIsExact(env: Env, c: Context, p: Payload)
    requires p.OwnerRotate? || p.RecoveryRotate?
    ensures Valid(env, c, p) <==> Sealable(env, c, p)
  {
    hide ValidateMutation; hide ValidateCredential; hide EncodeSend; hide EncodeMailbox; hide EncodeMutation;
    hide EncodeCredentialMutation; hide GoodSend; hide GoodMailbox; hide Creates; hide Updates; hide Removes;
    hide SetsCredential; hide DeletesCredential;
    hide RotationFields; hide Domains.Bytes;
  }

  lemma RecoverIsExact(env: Env, c: Context, p: Payload)
    requires p.RecoverPayload?
    ensures Valid(env, c, p) <==> Sealable(env, c, p)
  {
    hide ValidateMutation; hide ValidateCredential; hide EncodeSend; hide EncodeMailbox; hide EncodeMutation;
    hide EncodeCredentialMutation; hide GoodSend; hide GoodMailbox; hide Creates; hide Updates; hide Removes;
    hide SetsCredential; hide DeletesCredential;
    hide RecoverFields; hide Domains.Bytes;
  }

  lemma EnrollIsExact(env: Env, c: Context, p: Payload)
    requires p.EnrollPayload?
    ensures Valid(env, c, p) <==> Sealable(env, c, p)
  {
    hide ValidateMutation; hide ValidateCredential; hide EncodeSend; hide EncodeMailbox; hide EncodeMutation;
    hide EncodeCredentialMutation; hide GoodSend; hide GoodMailbox; hide Creates; hide Updates; hide Removes;
    hide SetsCredential; hide DeletesCredential;
    hide EncodeConfigCas;
    CasEncodes(p.enroll.configCas);
  }

  lemma CleanupIsExact(env: Env, c: Context, p: Payload)
    requires p.CleanupPayload?
    ensures Valid(env, c, p) <==> Sealable(env, c, p)
  {
    hide ValidateMutation; hide ValidateCredential; hide EncodeSend; hide EncodeMailbox; hide EncodeMutation;
    hide EncodeCredentialMutation; hide GoodSend; hide GoodMailbox; hide Creates; hide Updates; hide Removes;
    hide SetsCredential; hide DeletesCredential;
    hide CleanupFields;
  }

  lemma CloseIsExact(env: Env, c: Context, p: Payload)
    requires p.ClosePayload?
    ensures Valid(env, c, p) <==> Sealable(env, c, p)
  {
    hide ValidateMutation; hide ValidateCredential; hide EncodeSend; hide EncodeMailbox; hide EncodeMutation;
    hide EncodeCredentialMutation; hide GoodSend; hide GoodMailbox; hide Creates; hide Updates; hide Removes;
    hide SetsCredential; hide DeletesCredential;
    hide CloseFields; hide AnyControl; hide Printable; hide CharCount; hide Scalars;
    ClassesAreExact(p.close.assertionText);
    assert CharCount(p.close.assertionText) <= |p.close.assertionText|;
  }

  lemma LifecycleIsExact(env: Env, c: Context, p: Payload)
    requires p.AccountCreate? || p.AccountUpdate? || p.AccountRemove? || p.CredentialSet? || p.CredentialDelete?
    ensures Valid(env, c, p) <==> Sealable(env, c, p)
  {
    hide EncodeMutation; hide ValidateMutation; hide ValidateCredential; hide ValidateCommon; hide Creates;
    hide Updates;
    hide Removes; hide SetsCredential; hide DeletesCredential; hide ValidateSnapshot;
    match p {
      case AccountCreate(v) => AccountEncodes(env, c, Actions.AccountCreate, v);
      case AccountUpdate(v) => AccountEncodes(env, c, Actions.AccountUpdate, v);
      case AccountRemove(v) => AccountEncodes(env, c, Actions.AccountRemove, v);
      case CredentialSet(w) => CredentialEncodes(env, c, Actions.CredentialSet, w);
      case CredentialDelete(w) => CredentialEncodes(env, c, Actions.CredentialDelete, w);
    }
  }

  lemma AccountEncodes(env: Env, c: Context, action: Actions.Action, v: AccountMutation)
    requires action.AccountCreate? || action.AccountUpdate? || action.AccountRemove?
    ensures ValidateCommon(c, action).Ok? && ValidateMutation(env, c, action, v).Ok? && EncodeMutation(env, v).Ok?
      <==> Changes(env, c, action, v)
  {
    hide EncodeMutation; hide ValidateCommon; hide Changes; hide ValidateSnapshot; hide MutationShape;
    hide SignedBinding;
    MutationIsExact(env, c, action, v);
    MutationEncodes(env, v);
  }

  lemma CredentialEncodes(env: Env, c: Context, action: Actions.Action, w: CredentialMutation)
    requires action.CredentialSet? || action.CredentialDelete?
    ensures ValidateCommon(c, action).Ok? && ValidateCredential(env, c, action, w).Ok?
        && EncodeCredentialMutation(env, w).Ok?
      <==> Changes(env, c, action, w.account)
  {
    hide EncodeMutation; hide ValidateCommon; hide SetsCredential; hide DeletesCredential; hide ValidateSnapshot;
    hide CredentialShape; hide SameMaterial;
    if action.CredentialSet? { SetIsExact(env, c, w); } else { DeleteIsExact(env, c, w); }
    MutationEncodes(env, w.account);
  }

  // ----- the transcript -----

  lemma {:induction false} BodyBoundsFields(f: seq<Field>, bound: nat)
    requires BodySize(f) <= bound
    ensures AllAtMost(f, bound)
  {
    if |f| > 0 {
      BodyBoundsFields(f[1..], bound);
      assert forall i | 1 <= i < |f| :: f[i] == f[1..][i - 1];
    }
  }

  /** Payload tags count up from 0x100. */
  predicate PayloadTags(tags: seq<u16>) { |tags| <= 16 && forall i | 0 <= i < |tags| :: tags[i] == 0x100 + i }

  lemma TablesAreTags()
    ensures PayloadTags(SEND_TAGS) && PayloadTags(MAILBOX_TAGS) && PayloadTags(ENROLL_TAGS)
    ensures PayloadTags(MUTATION_TAGS) && PayloadTags(CREDENTIAL_TAGS) && PayloadTags(CLEANUP_TAGS)
    ensures PayloadTags(WIDE_TAGS) && PayloadTags(CLOSE_TAGS)
  {
    assert CREDENTIAL_TAGS == [0x100, 0x101, 0x102, 0x103, 0x104, 0x105, 0x106, 0x107];
  }

  predicate Tagged(f: seq<Field>, tags: seq<u16>) { HasTags(f, tags) && PayloadTags(tags) && AllAtMost(f, U32_MAX) }

  lemma TagsFit(f: seq<Field>, tags: seq<u16>, bound: nat)
    requires HasTags(f, tags) && PayloadTags(tags) && AllAtMost(f, bound) && bound <= U32_MAX
    ensures Tagged(f, tags)
  {
  }

  /** Common fields and small payload fields together are a transcript. */
  lemma JoinedFieldsEncode(c: Context, p: Payload, f: seq<Field>, tags: seq<u16>)
    requires Tagged(f, tags)
    ensures EncodeFields(Domains.Bytes(Domains.Manifest), CommonFields(c, ActionOf(p)) + f).Ok?
  {
    hide EncodeFields; hide CommonFields; hide Domains.Bytes;
    var common := CommonFields(c, ActionOf(p));
    assert Actions.ManifestSupported(ActionOf(p));
    HeadRoundTrip(c, ActionOf(p));
    CommonTags(c, ActionOf(p));
    assert COMMON_TAGS == [1, 2, 3, 4, 5, 6, 7, 8, 9];
    assert Increasing(common + f);
    EncodeFieldsExact(Domains.Bytes(Domains.Manifest), common + f);
  }

  lemma MailboxIsTagged(action: Actions.Action, m: Mailbox)
    requires EncodeMailbox(action, m).Ok?
    ensures Tagged(EncodeMailbox(action, m).value, MAILBOX_TAGS)
  {
    hide EncodeMailbox; hide HasTags; hide AllAtMost; hide PayloadTags;
    MailboxRoundTrip(action, m);
    TablesAreTags();
    TagsFit(EncodeMailbox(action, m).value, MAILBOX_TAGS, 1 + 4 * MAX_MAILBOX_CHARS);
  }

  lemma SendIsTagged(s: SendSubmit)
    requires EncodeSend(s).Ok?
    ensures Tagged(EncodeSend(s).value, SEND_TAGS)
  {
    hide EncodeSend; hide HasTags; hide AllAtMost; hide PayloadTags; hide BodySize;
    SendRoundTrip(s);
    TablesAreTags();
    BodyBoundsFields(EncodeSend(s).value, 4_100_000);
    TagsFit(EncodeSend(s).value, SEND_TAGS, 4_100_000);
  }

  lemma MutationIsTagged(env: Env, v: AccountMutation)
    requires EncodeMutation(env, v).Ok?
    ensures Tagged(EncodeMutation(env, v).value, MUTATION_TAGS)
  {
    hide EncodeMutation; hide HasTags; hide AllAtMost; hide PayloadTags; hide ValidateSnapshot;
    MutationEncodes(env, v);
    TablesAreTags();
    TagsFit(EncodeMutation(env, v).value, MUTATION_TAGS, U32_MAX);
  }

  lemma SmallIsTagged(env: Env, p: Payload) returns (tags: seq<u16>)
    requires p.EnrollPayload? || p.CleanupPayload? || p.OwnerRotate? || p.RecoveryRotate? || p.RecoverPayload?
      || (p.ClosePayload? && |p.close.assertionText| <= 1024)
    requires EncodePayload(env, p).Ok?
    ensures Tagged(EncodePayload(env, p).value, tags)
  {
    hide EncodeEnroll; hide CleanupFields; hide RotationFields; hide RecoverFields; hide CloseFields;
    hide HasTags; hide AllAtMost; hide PayloadTags;
    TablesAreTags();
    var f := EncodePayload(env, p).value;
    match p {
      case EnrollPayload(v) => EnrollRoundTrip(v); TagsFit(f, ENROLL_TAGS, 75_000); tags := ENROLL_TAGS;
      case CleanupPayload(v) => CleanupRoundTrip(v); TagsFit(f, CLEANUP_TAGS, 75_000); tags := CLEANUP_TAGS;
      case OwnerRotate(v) => RotationRoundTrip(v); TagsFit(f, WIDE_TAGS, 32); tags := WIDE_TAGS;
      case RecoveryRotate(v) => RotationRoundTrip(v); TagsFit(f, WIDE_TAGS, 32); tags := WIDE_TAGS;
      case RecoverPayload(v) => RecoverRoundTrip(v); TagsFit(f, WIDE_TAGS, 32); tags := WIDE_TAGS;
      case ClosePayload(v) => CloseRoundTrip(v); TagsFit(f, CLOSE_TAGS, 1024); tags := CLOSE_TAGS;
    }
  }

  lemma ClosingIsShort(env: Env, c: Context, p: Payload)
    requires ValidatePayload(env, c, p).Ok? && p.ClosePayload?
    ensures |p.close.assertionText| <= 1024
  {
    hide AnyControl; hide CharCount;
  }

  lemma PayloadIsTagged(env: Env, c: Context, p: Payload) returns (tags: seq<u16>)
    requires ValidatePayload(env, c, p).Ok? && EncodePayload(env, p).Ok?
    ensures Tagged(EncodePayload(env, p).value, tags)
  {
    hide EncodeSend; hide EncodeMailbox; hide EncodeMutation; hide EncodeCredentialMutation; hide ValidatePayload;
    hide Tagged;
    match p {
      case SendPayload(v) => SendIsTagged(v); tags := SEND_TAGS;
      case MailSeen(v) => MailboxIsTagged(Actions.MailSeen, v); tags := MAILBOX_TAGS;
      case MailStarred(v) => MailboxIsTagged(Actions.MailStarred, v); tags := MAILBOX_TAGS;
      case MailMove(v) => MailboxIsTagged(Actions.MailMove, v); tags := MAILBOX_TAGS;
      case MailArchive(v) => MailboxIsTagged(Actions.MailArchive, v); tags := MAILBOX_TAGS;
      case MailSafeDelete(v) => MailboxIsTagged(Actions.MailSafeDelete, v); tags := MAILBOX_TAGS;
      case AccountCreate(v) => MutationIsTagged(env, v); tags := MUTATION_TAGS;
      case AccountUpdate(v) => MutationIsTagged(env, v); tags := MUTATION_TAGS;
      case AccountRemove(v) => MutationIsTagged(env, v); tags := MUTATION_TAGS;
      case CredentialSet(v) => CredentialIsTagged(env, v); tags := CREDENTIAL_TAGS;
      case CredentialDelete(v) => CredentialIsTagged(env, v); tags := CREDENTIAL_TAGS;
      case _ =>
        if p.ClosePayload? { ClosingIsShort(env, c, p); }
        tags := SmallIsTagged(env, p);
    }
  }

  lemma CredentialIsTagged(env: Env, w: CredentialMutation)
    requires EncodeCredentialMutation(env, w).Ok?
    ensures Tagged(EncodeCredentialMutation(env, w).value, CREDENTIAL_TAGS)
  {
    hide EncodeMutation; hide ParseBytes32;
    MutationIsTagged(env, w.account);
    TablesAreTags();
  }

  /** Sealing, exactly: a context and a payload make a manifest if and only if they
      satisfy the whole rule. With what parsing returns, these are also the only
      manifests any bytes can yield. */
  lemma SealedExactlyWhen(env: Env, c: Context, p: Payload)
    ensures NewManifest(env, c, p).Ok? <==> Sealable(env, c, p)
  {
    hide NewManifest; hide Sealable; hide ValidateCommon; hide ValidatePayload; hide EncodePayload; hide EncodeFields;
    hide CommonFields; hide ActionOf; hide Tagged;
    SealedParts(env, c, p);
    match p {
      case SendPayload(_) | MailSeen(_) | MailStarred(_) | MailMove(_) | MailArchive(_) | MailSafeDelete(_) =>
        RemoteIsExact(env, c, p);
      case EnrollPayload(_) => EnrollIsExact(env, c, p);
      case CleanupPayload(_) => CleanupIsExact(env, c, p);
      case ClosePayload(_) => CloseIsExact(env, c, p);
      case OwnerRotate(_) | RecoveryRotate(_) => RotationIsExact(env, c, p);
      case RecoverPayload(_) => RecoverIsExact(env, c, p);
      case _ => LifecycleIsExact(env, c, p);
    }
    if Valid(env, c, p) {
      var tags := PayloadIsTagged(env, c, p);
      JoinedFieldsEncode(c, p, EncodePayload(env, p).value, tags);
    }
  }

  /** Parsed bytes satisfy the rule too. */
  lemma ParsedIsSealable(env: Env, bytes: seq<byte>, m: Manifest)
    requires ParseManifest(env, bytes) == Ok(m)
    ensures Sealable(env, m.context, m.payload) && CleanupCount(m.payload) <= 100
  {
    hide NewManifest; hide ParseManifest; hide Sealable;
    ParsedManifestIsSealed(env, bytes);
    SealedExactlyWhen(env, m.context, m.payload);
  }
}
