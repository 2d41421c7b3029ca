/** The rules of an authorization transcript as one table, and the proof that the
    parser accepts exactly the transcripts that keep them. */
module AuthorizationRules {
  import opened Basics
  import opened Framing
  import opened Accounts
  import opened Wire
  import opened Manifests
  import opened Authorization
  import Actions
  import Domains

  /** Which of store, account, binding and policy an action's transcript carries. */
  datatype Carried = Carried(store: bool, account: bool, binding: bool, policy: bool)

  /** One row of the table: what is carried, what is targeted, what is effected. */
  datatype Rule = Rule(carried: Carried, target: Actions.TargetKind, effect: Option<Actions.EffectKind>)

  const ALL_FOUR := Carried(true, true, true, true)
  const NO_POLICY := Carried(true, true, true, false)
  const NOTHING := Carried(false, false, false, false)

  function RuleOf(a: Action): Option<Rule> {
    match a
    case SendSubmit => Some(Rule(ALL_FOUR, Actions.Operation, Some(Actions.SmtpSubmit)))
    case MailSeen => Some(Rule(ALL_FOUR, Actions.Operation, Some(Actions.ImapSeen)))
    case MailStarred => Some(Rule(ALL_FOUR, Actions.Operation, Some(Actions.ImapStarred)))
    case MailMove => Some(Rule(ALL_FOUR, Actions.Operation, Some(Actions.ImapMove)))
    case MailArchive => Some(Rule(ALL_FOUR, Actions.Operation, Some(Actions.ImapArchive)))
    case MailSafeDelete => Some(Rule(ALL_FOUR, Actions.Operation, Some(Actions.ImapSafeDelete)))
    case AmbiguousClose => Some(Rule(ALL_FOUR, Actions.RemoteEffect, None))
    case StoreEnroll => Some(Rule(Carried(true, false, false, false), Actions.Store, None))
    case AccountCreate => Some(Rule(NO_POLICY, Actions.Account, None))
    case AccountUpdate => Some(Rule(NO_POLICY, Actions.Account, None))
    case AccountRemove => Some(Rule(NO_POLICY, Actions.Account, None))
    case CredentialSet => Some(Rule(NO_POLICY, Actions.Credential, None))
    case CredentialDelete => Some(Rule(NO_POLICY, Actions.Credential, None))
    case CredentialCleanup => Some(Rule(NO_POLICY, Actions.Cleanup, None))
    case OwnerRotate => Some(Rule(NOTHING, Actions.TrustEpoch, None))
    case RecoveryRotate => Some(Rule(NOTHING, Actions.TrustEpoch, None))
    case OwnerRecover => Some(Rule(NOTHING, Actions.TrustEpoch, None))
    case PolicyUpdate => None
    case AssuranceUpdate => None
  }

  /** The kind a target is of. */
  predicate IsOf(t: Target, k: Actions.TargetKind) {
    match k
    case Operation => t.OperationTarget?
    case Store => t.StoreTarget?
    case Account => t.AccountTarget?
    case Credential => t.CredentialTarget?
    case Cleanup => t.CleanupTarget?
    case Policy => t.PolicyTarget?
    case Assurance => t.AssuranceTarget?
    case TrustEpoch => t.TrustEpochTarget?
    case RemoteEffect => t.RemoteEffectTarget?
  }

  /** A body keeps the row of its action, for at most fifteen minutes. */
  predicate Keeps(b: Body) {
    && RuleOf(b.action).Some?
    && var rule := RuleOf(b.action).value;
       && rule.carried == Carried(b.storeId.Some?, b.accountId.Some?, b.binding.Some?, b.policy.Some?)
       && IsOf(b.target, rule.target)
       && (match rule.effect case None => b.effects == [] case Some(k) => |b.effects| == 1 && b.effects[0].kind == k)
       && 0 < b.grant.expiresAt - b.grant.issuedAt <= 15 * 60 * 1000
  }

  lemma RulesAreExact(b: Body)
    ensures Keeps(b) <==>
      && ValidatePresence(b).Ok? && ValidateTime(b.grant.issuedAt, b.grant.expiresAt).Ok?
      && ValidateEffects(b.action, b.effects).Ok?
  {
  }

  /** Every body that keeps the rules has a transcript, and it parses back. */
  lemma KeptIsParsed(env: Env, b: Body)
    requires Keeps(b)
    ensures EncodeAuthorization(b).Ok?
    ensures var bytes := EncodeAuthorization(b).value;
      ParseAuthorization(env, bytes) == Ok(Transcribed(b, bytes, (env.sha256)(bytes)))
  {
    hide EncodeAuthorization; hide ParseAuthorization; hide ValidatePresence; hide ValidateTime;
    RulesAreExact(b);
    BodyRoundTrip(env, b);
  }

  /** ... and nothing else parses: accepted bytes are the transcript of a body that
      keeps the rules, and their digest is the challenge. */
  lemma ParsedIsKept(env: Env, bytes: seq<byte>)
    requires ParseAuthorization(env, bytes).Ok?
    ensures var t := ParseAuthorization(env, bytes).value;
      && Keeps(t.body) && EncodeAuthorization(t.body) == Ok(bytes)
      && t.bytes == bytes && t.challengeId == (env.sha256)(bytes)
  {
    hide EncodeAuthorization; hide ParseFields; hide ParseList; hide ParseEffect; hide ValidateEffects;
    hide ValidateTime; hide PresenceShape; hide Keeps; hide ParseGrant; hide ParseSubject;
    var t := ParseAuthorization(env, bytes).value;
    var f := ParseFields(bytes, Domains.Bytes(Domains.Authorization), 17).value;
    SubjectKind(f[..9]);
    GrantTime(ParseSubject(f[..9]).value.ownerRealm, f[9..]);
    RulesAreExact(t.body);
  }

  lemma SubjectKind(f: seq<Field>)
    requires |f| == 9 && ParseSubject(f).Ok?
    ensures Actions.KindOfTarget(ParseSubject(f).value.target) == Actions.TargetKindOf(ParseSubject(f).value.action)
  {
    hide ParseBytes32; hide ParseU16; hide ParseOptionalUuid; hide ParseOptionalDigest; hide Actions.FromCode;
    hide Actions.TargetKindFromCode; hide Actions.TargetKindOf; hide ParseUuid; hide ParseNonZeroU64;
  }

  lemma GrantTime(ownerRealm: Bytes32, f: seq<Field>)
    requires |f| == 8 && ParseGrant(ownerRealm, f).Ok?
    ensures var g := ParseGrant(ownerRealm, f).value; ValidateTime(g.issuedAt, g.expiresAt).Ok?
  {
    hide ParseBytes32; hide ParseNonZeroU64; hide ParseUuid; hide ParseI64; hide ValidateTime;
  }
}
