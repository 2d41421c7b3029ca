/** The five mailbox payloads share one record; the action fixes its shape. */
module MailboxCodec {
  import opened Basics
  import opened Utf8
  import opened Framing
  import opened Wire
  import opened ManifestTypes
  import Actions

  predicate InvalidMailbox(t: Text) {
    t == [] || CharCount(t) > MAX_MAILBOX_CHARS || AnyControl(t)
  }

  predicate IsTransfer(s: Strategy) { s.UidMove? || s.CopyThenMarkDeleted? }

  predicate MailboxShape(action: Actions.Action, m: Mailbox) {
    match action
    case MailSeen | MailStarred =>
      m.requestedValue.Some? && m.requestedDestination.None? && m.specialUse.NoSpecialUse?
      && m.resolvedDestination.None? && m.strategy.StoreFlags?
    case MailMove =>
      m.requestedValue.None? && m.requestedDestination.Some? && m.specialUse.NoSpecialUse?
      && m.resolvedDestination.Some? && IsTransfer(m.strategy)
    case MailArchive =>
      m.requestedValue.None? && m.requestedDestination.None? && m.specialUse.Archive?
      && m.resolvedDestination.Some? && IsTransfer(m.strategy)
    case MailSafeDelete =>
      m.requestedValue.None? && m.requestedDestination.None? && m.specialUse.Trash?
      && m.resolvedDestination.Some? && IsTransfer(m.strategy)
    case _ => false
  }

  predicate ValidMailbox(action: Actions.Action, m: Mailbox) {
    && !InvalidMailbox(m.sourceMailbox)
    && m.capabilityComplete
    && (m.requestedDestination.Some? ==> !InvalidMailbox(m.requestedDestination.value))
    && (m.resolvedDestination.Some? ==> !InvalidMailbox(m.resolvedDestination.value))
    && MailboxShape(action, m)
  }

  function MailboxFields(m: Mailbox): seq<Field> {
    [Field(0x100, NonZeroU64Bytes(m.accountGeneration)),
     Field(0x101, TextBytes(m.sourceMailbox)),
     Field(0x102, NonZeroU32Bytes(m.uidValidity)), Field(0x103, NonZeroU32Bytes(m.uid)),
     Field(0x104, OptionalBoolBytes(m.requestedValue)), Field(0x105, OptionalTextBytes(m.requestedDestination)),
     Field(0x106, SpecialUseBytes(m.specialUse)), Field(0x107, OptionalTextBytes(m.resolvedDestination)),
     Field(0x108, StrategyBytes(m.strategy)), Field(0x109, Bytes32Bytes(m.capabilitySha256)),
     Field(0x10a, BoolBytes(m.capabilityComplete))]
  }

  function EncodeMailbox(action: Actions.Action, m: Mailbox): Result<seq<Field>> {
    var _ :- Need(ValidMailbox(action, m), InvalidInput);
    Ok(MailboxFields(m))
  }

  const MAILBOX_TAGS: seq<u16> := [0x100, 0x101, 0x102, 0x103, 0x104, 0x105, 0x106, 0x107, 0x108, 0x109, 0x10a]

  function ParseMailbox(f: seq<Field>): Result<Mailbox> {
    var _ :- ExpectTags(f, MAILBOX_TAGS);
    var specialUse :- ParseSpecialUse(f[6].value);
    var strategy :- ParseStrategy(f[8].value);
    var accountGeneration :- ParseNonZeroU64(f[0].value);
    var sourceMailbox :- ParseText(f[1].value);
    var uidValidity :- ParseNonZeroU32(f[2].value);
    var uid :- ParseNonZeroU32(f[3].value);
    var requestedValue :- ParseOptionalBool(f[4].value);
    var requestedDestination :- ParseOptionalText(f[5].value);
    var resolvedDestination :- ParseOptionalText(f[7].value);
    var capabilitySha256 :- ParseBytes32(f[9].value);
    var capabilityComplete :- ParseBool(f[10].value);
    Ok(Mailbox(accountGeneration, sourceMailbox, uidValidity, uid, requestedValue, requestedDestination,
        specialUse, resolvedDestination, strategy, capabilitySha256, capabilityComplete))
  }

  lemma MailboxRoundTrip(action: Actions.Action, m: Mailbox)
    requires EncodeMailbox(action, m).Ok?
    ensures ParseMailbox(EncodeMailbox(action, m).value) == Ok(m)
    ensures AllAtMost(EncodeMailbox(action, m).value, 1 + 4 * MAX_MAILBOX_CHARS)
    ensures HasTags(EncodeMailbox(action, m).value, MAILBOX_TAGS)
  {
    hide ParseSpecialUse; hide ParseStrategy; hide ParseNonZeroU64; hide ParseText; hide ParseNonZeroU32;
    hide ParseOptionalBool; hide ParseOptionalText; hide ParseBytes32; hide ParseBool; hide ValidUtf8;
    hide NonZeroU64Bytes; hide NonZeroU32Bytes; hide OptionalTextBytes;
    hide MailboxShape; hide ValidMailbox;
    MailboxTextsAreShort(action, m);
  }

  lemma MailboxTextsAreShort(action: Actions.Action, m: Mailbox)
    requires ValidMailbox(action, m)
    ensures |m.sourceMailbox| <= 4 * MAX_MAILBOX_CHARS && m.capabilityComplete
    ensures m.requestedDestination.Some? ==> |m.requestedDestination.value| <= 4 * MAX_MAILBOX_CHARS
    ensures m.resolvedDestination.Some? ==> |m.resolvedDestination.value| <= 4 * MAX_MAILBOX_CHARS
  {
    hide MailboxShape; hide AnyControl; hide ValidUtf8;
    assert |m.sourceMailbox| <= 4 * CharCount(m.sourceMailbox);
  }
}
