/** The closed table of sensitive actions and the policy fixed for each. */
module Actions {
  import opened Basics
  import opened Accounts
  import opened Wire

  datatype Action =
    | SendSubmit | MailSeen | MailStarred | MailMove | MailArchive | MailSafeDelete
    | StoreEnroll | AccountCreate | AccountUpdate | AccountRemove
    | CredentialSet | CredentialDelete | CredentialCleanup
    | PolicyUpdate | AssuranceUpdate | OwnerRotate | RecoveryRotate | OwnerRecover | AmbiguousClose

  const ALL: seq<Action> := [
    SendSubmit, MailSeen, MailStarred, MailMove, MailArchive, MailSafeDelete,
    StoreEnroll, AccountCreate, AccountUpdate, AccountRemove,
    CredentialSet, CredentialDelete, CredentialCleanup,
    PolicyUpdate, AssuranceUpdate, OwnerRotate, RecoveryRotate, OwnerRecover, AmbiguousClose]

  function Code(a: Action): u16 {
    match a
    case SendSubmit => 0x0001
    case MailSeen => 0x0010
    case MailStarred => 0x0011
    case MailMove => 0x0012
    case MailArchive => 0x0013
    case MailSafeDelete => 0x0014
    case StoreEnroll => 0x0100
    case AccountCreate => 0x0110
    case AccountUpdate => 0x0111
    case AccountRemove => 0x0112
    case CredentialSet => 0x0120
    case CredentialDelete => 0x0121
    case CredentialCleanup => 0x0122
    case PolicyUpdate => 0x0200
    case AssuranceUpdate => 0x0201
    case OwnerRotate => 0x0210
    case RecoveryRotate => 0x0211
    case OwnerRecover => 0x0212
    case AmbiguousClose => 0x0220
  }

  /** `ALL.into_iter().find(..)`. */
  function FindCode(actions: seq<Action>, code: u16): Result<Action> {
    if |actions| == 0 then Err(UnsupportedCapability)
    else if Code(actions[0]) == code then Ok(actions[0])
    else FindCode(actions[1..], code)
  }

  function FromCode(code: u16): Result<Action> { FindCode(ALL, code) }

  lemma CodesAreDistinct(a: Action, b: Action)
    requires Code(a) == Code(b)
    ensures a == b
  {
  }

  lemma {:induction false} FindCodeFinds(actions: seq<Action>, i: nat)
    requires i < |actions|
    ensures FindCode(actions, Code(actions[i])) == Ok(actions[i])
  {
    if Code(actions[0]) == Code(actions[i]) {
      CodesAreDistinct(actions[0], actions[i]);
    } else {
      FindCodeFinds(actions[1..], i - 1);
    }
  }

  function Position(a: Action): nat {
    match a
    case SendSubmit => 0 case MailSeen => 1 case MailStarred => 2 case MailMove => 3 case MailArchive => 4
    case MailSafeDelete => 5 case StoreEnroll => 6 case AccountCreate => 7 case AccountUpdate => 8
    case AccountRemove => 9 case CredentialSet => 10 case CredentialDelete => 11 case CredentialCleanup => 12
    case PolicyUpdate => 13 case AssuranceUpdate => 14 case OwnerRotate => 15 case RecoveryRotate => 16
    case OwnerRecover => 17 case AmbiguousClose => 18
  }

  /** Every action is found again from its permanent code. */
  lemma CodeRoundTrip(a: Action)
    ensures FromCode(Code(a)) == Ok(a)
  {
    assert ALL[Position(a)] == a;
    FindCodeFinds(ALL, Position(a));
  }

  // ----- policy -----

  datatype TargetKind =
    | Operation | Store | Account | Credential | Cleanup | Policy | Assurance | TrustEpoch | RemoteEffect

  function TargetKindCode(k: TargetKind): u16 {
    match k
    case Operation => 1 case Store => 2 case Account => 3 case Credential => 4 case Cleanup => 5
    case Policy => 6 case Assurance => 7 case TrustEpoch => 8 case RemoteEffect => 9
  }

  function TargetKindFromCode(code: u16): Result<TargetKind> {
    match code
    case 1 => Ok(Operation) case 2 => Ok(Store) case 3 => Ok(Account) case 4 => Ok(Credential) case 5 => Ok(Cleanup)
    case 6 => Ok(Policy) case 7 => Ok(Assurance) case 8 => Ok(TrustEpoch) case 9 => Ok(RemoteEffect)
    case _ => Err(AuthorizationMalformed)
  }

  datatype EffectKind = NoEffect | SmtpSubmit | ImapSeen | ImapStarred | ImapMove | ImapArchive | ImapSafeDelete

  function EffectKindCode(k: EffectKind): u16 {
    match k
    case NoEffect => 0 case SmtpSubmit => 1 case ImapSeen => 2 case ImapStarred => 3
    case ImapMove => 4 case ImapArchive => 5 case ImapSafeDelete => 6
  }

  function EffectKindFromCode(code: u16): Result<EffectKind> {
    match code
    case 0 => Ok(NoEffect) case 1 => Ok(SmtpSubmit) case 2 => Ok(ImapSeen) case 3 => Ok(ImapStarred)
    case 4 => Ok(ImapMove) case 5 => Ok(ImapArchive) case 6 => Ok(ImapSafeDelete)
    case _ => Err(AuthorizationMalformed)
  }

  lemma KindCodesRoundTrip(t: TargetKind, e: EffectKind)
    ensures TargetKindFromCode(TargetKindCode(t)) == Ok(t)
    ensures EffectKindFromCode(EffectKindCode(e)) == Ok(e)
  {
  }

  function TargetKindOf(a: Action): TargetKind {
    match a
    case SendSubmit | MailSeen | MailStarred | MailMove | MailArchive | MailSafeDelete => Operation
    case StoreEnroll => Store
    case AccountCreate | AccountUpdate | AccountRemove => Account
    case CredentialSet | CredentialDelete => Credential
    case CredentialCleanup => Cleanup
    case PolicyUpdate => Policy
    case AssuranceUpdate => Assurance
    case OwnerRotate | RecoveryRotate | OwnerRecover => TrustEpoch
    case AmbiguousClose => RemoteEffect
  }

  function EffectOf(a: Action): EffectKind {
    match a
    case SendSubmit => SmtpSubmit
    case MailSeen => ImapSeen
    case MailStarred => ImapStarred
    case MailMove => ImapMove
    case MailArchive => ImapArchive
    case MailSafeDelete => ImapSafeDelete
    case _ => NoEffect
  }

  predicate ManifestSupported(a: Action) {
    !(a.PolicyUpdate? || a.AssuranceUpdate?)
  }

  // ----- targets -----

  datatype Target =
    | OperationTarget(id: Uuid4) | StoreTarget(id: Uuid4) | AccountTarget(id: Uuid4) | CredentialTarget(id: Uuid4)
    | CleanupTarget(id: Uuid4) | PolicyTarget | AssuranceTarget | TrustEpochTarget(epoch: NonZeroU64)
    | RemoteEffectTarget(id: Uuid4)

  function KindOfTarget(t: Target): TargetKind {
    match t
    case OperationTarget(_) => Operation
    case StoreTarget(_) => Store
    case AccountTarget(_) => Account
    case CredentialTarget(_) => Credential
    case CleanupTarget(_) => Cleanup
    case PolicyTarget => Policy
    case AssuranceTarget => Assurance
    case TrustEpochTarget(_) => TrustEpoch
    case RemoteEffectTarget(_) => RemoteEffect
  }

  function TargetBytes(t: Target): (b: seq<byte>)
    ensures |b| <= 16
  {
    match t
    case PolicyTarget | AssuranceTarget => []
    case TrustEpochTarget(epoch) => NonZeroU64Bytes(epoch)
    case _ => UuidBytes(t.id)
  }

  function ParseTarget(kind: TargetKind, bytes: seq<byte>): Result<Target> {
    match kind
    case Operation => var id :- ParseUuid(bytes); Ok(OperationTarget(id))
    case Store => var id :- ParseUuid(bytes); Ok(StoreTarget(id))
    case Account => var id :- ParseUuid(bytes); Ok(AccountTarget(id))
    case Credential => var id :- ParseUuid(bytes); Ok(CredentialTarget(id))
    case Cleanup => var id :- ParseUuid(bytes); Ok(CleanupTarget(id))
    case Policy => if bytes == [] then Ok(PolicyTarget) else Err(AuthorizationMalformed)
    case Assurance => if bytes == [] then Ok(AssuranceTarget) else Err(AuthorizationMalformed)
    case TrustEpoch => var epoch :- ParseNonZeroU64(bytes); Ok(TrustEpochTarget(epoch))
    case RemoteEffect => var id :- ParseUuid(bytes); Ok(RemoteEffectTarget(id))
  }

  /** A target is read back from its kind and its bytes. */
  lemma TargetRoundTrip(t: Target)
    ensures ParseTarget(KindOfTarget(t), TargetBytes(t)) == Ok(t)
  {
    hide ParseUuid;
    hide ParseNonZeroU64;
    if !(t.PolicyTarget? || t.AssuranceTarget? || t.TrustEpochTarget?) {
      assert ParseUuid(UuidBytes(t.id)) == Ok(t.id);
    }
  }
}
