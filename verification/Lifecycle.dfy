/** The life of an account over whole chains of sealed manifests, in which each
    mutation starts from the snapshot the previous one ended with. */
module Lifecycle {
  import opened Basics
  import opened Accounts
  import opened ManifestTypes
  import opened AccountCodec
  import opened Manifests
  import Actions
  import opened Authorization

  /** The account mutation inside a payload that changes an account. */
  function MutationOf(p: Payload): Option<AccountMutation> {
    match p
    case AccountCreate(v) => Some(v)
    case AccountUpdate(v) => Some(v)
    case AccountRemove(v) => Some(v)
    case CredentialSet(v) => Some(v.account)
    case CredentialDelete(v) => Some(v.account)
    case _ => None
  }

  function Before(m: Manifest): Option<AccountSnapshot> {
    var v := MutationOf(m.payload);
    if v.Some? then v.value.before else None
  }

  function After(m: Manifest): Option<AccountSnapshot> {
    var v := MutationOf(m.payload);
    if v.Some? then v.value.after else None
  }

  /** The snapshot a chain ends with. */
  function End(ms: seq<Manifest>): Option<AccountSnapshot> {
    if |ms| == 0 then None else After(ms[|ms| - 1])
  }

  /** Sealed mutations, each starting where the previous one ended. */
  predicate Chain(env: Env, ms: seq<Manifest>) {
    |ms| > 0 ==>
      var init, last := ms[..|ms| - 1], ms[|ms| - 1];
      Chain(env, init) && Sealed(env, last) && MutationOf(last.payload).Some? && Before(last) == End(init)
  }

  // ----- the automaton of account actions -----

  datatype Phase = Absent | Created | Reentry | Holding | Empty

  /** Which actions a phase admits, and where they lead. */
  function Next(phase: Phase, action: Action): Option<Phase> {
    match action
    case AccountCreate => if phase.Absent? then Some(Created) else None
    case AccountUpdate => if phase.Absent? then None else Some(Reentry)
    case AccountRemove => if phase.Absent? then None else Some(Absent)
    case CredentialSet => if phase.Created? || phase.Reentry? || phase.Empty? then Some(Holding) else None
    case CredentialDelete => if phase.Holding? then Some(Empty) else None
    case _ => None
  }

  /** The phase an action word leads to from no account at all. */
  function Run(actions: seq<Action>): Option<Phase> {
    if |actions| == 0 then Some(Absent)
    else
      var before := Run(actions[..|actions| - 1]);
      if before.None? then None else Next(before.value, actions[|actions| - 1])
  }

  function Word(ms: seq<Manifest>): (w: seq<Action>)
    ensures |w| == |ms|
  {
    if |ms| == 0 then [] else Word(ms[..|ms| - 1]) + [ActionOf(ms[|ms| - 1].payload)]
  }

  /** How many mutations ago the account was created. */
  function Age(actions: seq<Action>): nat {
    if |actions| == 0 || actions[|actions| - 1].AccountCreate? then 0 else Age(actions[..|actions| - 1]) + 1
  }

  /** What a snapshot must look like in a phase. */
  predicate Describes(phase: Phase, s: Option<AccountSnapshot>) {
    match phase
    case Absent => s.None?
    case Created => s.Some? && s.value.bindingState.Proposed? && s.value.credentialState.ReentryRequired?
    case Reentry => s.Some? && s.value.bindingState.Authorized? && s.value.credentialState.ReentryRequired?
    case Holding => s.Some? && s.value.bindingState.Authorized? && s.value.credentialState.Bound?
    case Empty => s.Some? && s.value.bindingState.Authorized? && s.value.credentialState.Missing?
  }

  // ----- one accepted mutation -----

  /** Everything one sealed mutation guarantees about its two snapshots. */
  predicate GoodStep(env: Env, action: Action, before: Option<AccountSnapshot>, after: Option<AccountSnapshot>) {
    && (before.Some? ==> ValidateSnapshot(env, before.value).Ok?)
    && (after.Some? ==> ValidateSnapshot(env, after.value).Ok?)
    && (before.Some? && after.Some? ==> before.value.accountId == after.value.accountId)
    && if action.AccountCreate? || action.AccountUpdate? || action.AccountRemove?
       then MutationShape(action, before, after)
       else
         && before.Some? && after.Some? && CredentialShape(action, before.value, after.value)
         && before.value.displayId == after.value.displayId
         && ExactIncrement(before.value.generation, after.value.generation)
         && SameMaterial(before.value, after.value)
  }

  lemma SealedStep(env: Env, m: Manifest)
    requires Sealed(env, m) && MutationOf(m.payload).Some?
    ensures GoodStep(env, ActionOf(m.payload), Before(m), After(m))
  {
    hide ValidateCommon; hide EncodePayload; hide CommonFields; hide ValidateSnapshot; hide MutationShape;
    hide CredentialShape;
    hide SameMaterial; hide SignedBinding; hide ValidateMutation; hide ValidateCredential;
    hide Framing.EncodeFields; hide GoodStep;
    match m.payload {
      case AccountCreate(v) => MutationStep(env, m.context, Actions.AccountCreate, v);
      case AccountUpdate(v) => MutationStep(env, m.context, Actions.AccountUpdate, v);
      case AccountRemove(v) => MutationStep(env, m.context, Actions.AccountRemove, v);
      case CredentialSet(v) => CredentialStep(env, m.context, Actions.CredentialSet, v);
      case CredentialDelete(v) => CredentialStep(env, m.context, Actions.CredentialDelete, v);
    }
  }

  lemma MutationStep(env: Env, c: Context, action: Action, v: AccountMutation)
    requires ValidateMutation(env, c, action, v).Ok?
    ensures GoodStep(env, action, v.before, v.after)
  {
    hide ValidateSnapshot; hide SignedBinding;
  }

  lemma CredentialStep(env: Env, c: Context, action: Action, v: CredentialMutation)
    requires ValidateCredential(env, c, action, v).Ok?
    ensures GoodStep(env, action, v.account.before, v.account.after)
  {
    hide ValidateSnapshot; hide SameMaterial;
  }

  lemma StepFollowsAutomaton(
    env: Env, phase: Phase, action: Action, before: Option<AccountSnapshot>, after: Option<AccountSnapshot>)
    requires GoodStep(env, action, before, after) && Describes(phase, before)
    ensures Next(phase, action).Some? && Describes(Next(phase, action).value, after)
    ensures after.Some? ==>
      after.value.generation == if action.AccountCreate? || before.None? then 1 else before.value.generation + 1
    ensures after.Some? && before.None? ==> action.AccountCreate?
    ensures before.Some? ==> !action.AccountCreate?
    ensures after.Some? ==> ValidateSnapshot(env, after.value).Ok?
  {
    hide ValidateSnapshot; hide MaterialChanged; hide SameMaterial;
  }

  // ----- whole chains -----

  /** In every chain the actions spell a run of the automaton, the final
      snapshot is what its phase describes and is itself valid, and its
      generation is one more than the mutations since the account's creation. */
  lemma {:induction false} ChainsRunTheAutomaton(env: Env, ms: seq<Manifest>)
    requires Chain(env, ms)
    ensures Run(Word(ms)).Some? && Describes(Run(Word(ms)).value, End(ms))
    ensures End(ms).Some? ==> End(ms).value.generation == 1 + Age(Word(ms))
    ensures End(ms).Some? ==> ValidateSnapshot(env, End(ms).value).Ok?
  {
    hide ValidateSnapshot; hide Sealed; hide MutationOf; hide ActionOf; hide GoodStep; hide Describes; hide Next;
    hide Before; hide After;
    if |ms| == 0 {
      NothingYet();
    } else {
      var init, last := ms[..|ms| - 1], ms[|ms| - 1];
      ChainsRunTheAutomaton(env, init);
      SealedStep(env, last);
      assert Word(ms)[..|ms| - 1] == Word(init);
      StepFollowsAutomaton(env, Run(Word(init)).value, ActionOf(last.payload), Before(last), After(last));
    }
  }

  lemma NothingYet()
    ensures Describes(Absent, None)
  {
  }

  /** A Bound snapshot is authorized and not OAuth2, and the mutation that ended
      the chain is the CredentialSet that bound it. */
  lemma BoundMeansJustSet(env: Env, ms: seq<Manifest>)
    requires Chain(env, ms) && End(ms).Some?
    ensures End(ms).value.credentialState.Bound? <==> ms[|ms| - 1].payload.CredentialSet?
    ensures End(ms).value.credentialState.Bound? ==>
      End(ms).value.bindingState.Authorized? && !End(ms).value.credentialKind.OAuth2?
  {
    hide Sealed; hide Describes; hide MutationShape; hide SameMaterial; hide CredentialShape; hide GoodStep;
    ChainsRunTheAutomaton(env, ms);
    LastAction(ms);
    BoundShape(env, Run(Word(ms)).value, End(ms).value);
  }

  lemma LastAction(ms: seq<Manifest>)
    requires |ms| > 0
    ensures Word(ms)[|ms| - 1] == ActionOf(ms[|ms| - 1].payload)
    ensures Run(Word(ms)).Some? ==>
      (Run(Word(ms)).value.Holding? <==> ms[|ms| - 1].payload.CredentialSet?)
  {
    hide ActionOf; hide Next;
    var p := ms[|ms| - 1].payload;
    SetIsSet(p);
    if Run(Word(ms)).Some? {
      OnlySetHolds(Run(Word(ms)[..|ms| - 1]).value, ActionOf(p));
    }
  }

  lemma SetIsSet(p: Payload)
    ensures ActionOf(p).CredentialSet? <==> p.CredentialSet?
  {
  }

  lemma OnlySetHolds(phase: Phase, action: Action)
    requires Next(phase, action).Some?
    ensures Next(phase, action).value.Holding? <==> action.CredentialSet?
  {
  }

  lemma BoundShape(env: Env, phase: Phase, s: AccountSnapshot)
    requires Describes(phase, Some(s)) && ValidateSnapshot(env, s).Ok?
    ensures s.credentialState.Bound? <==> phase.Holding?
    ensures phase.Holding? ==> s.bindingState.Authorized? && !s.credentialKind.OAuth2?
  {
    hide EncodeEndpoint; hide OptionalEndpointBytes; hide ValidConfig; hide BindingBytes; hide ConfigOf;
    hide ValidDisplayId; hide ValidEmail; hide ValidUsername; hide NoDuplicates;
  }

  /** `ms[i..]` after its first element stays within one account and one material. */
  predicate NoRebinding(ms: seq<Manifest>, from: nat) {
    forall k | from <= k < |ms| :: ms[k].payload.CredentialSet? || ms[k].payload.CredentialDelete?
  }

  predicate OneAccount(ms: seq<Manifest>, from: nat) {
    forall k | from <= k < |ms| :: !ms[k].payload.AccountCreate? && !ms[k].payload.AccountRemove?
  }

  /** The account id and the display id never change between creation and removal. */
  lemma {:induction false} IdentityIsConstant(env: Env, ms: seq<Manifest>, i: nat)
    requires Chain(env, ms) && 0 < i <= |ms| && OneAccount(ms, i) && End(ms[..i]).Some?
    ensures End(ms).Some?
    ensures End(ms).value.accountId == End(ms[..i]).value.accountId
    ensures End(ms).value.displayId == End(ms[..i]).value.displayId
    decreases |ms|
  {
    hide ValidateSnapshot; hide Sealed; hide MutationOf; hide MaterialChanged; hide SameMaterial;
    if i == |ms| {
      assert ms[..i] == ms;
    } else {
      var init := ms[..|ms| - 1];
      assert init[..i] == ms[..i];
      IdentityIsConstant(env, init, i);
      SealedStep(env, ms[|ms| - 1]);
    }
  }

  /** Setting and deleting credentials never touches what they are bound to:
      only an update can. */
  lemma {:induction false} MaterialIsConstant(env: Env, ms: seq<Manifest>, i: nat)
    requires Chain(env, ms) && 0 < i <= |ms| && NoRebinding(ms, i) && End(ms[..i]).Some?
    ensures End(ms).Some? && SameMaterial(End(ms[..i]).value, End(ms).value)
    decreases |ms|
  {
    hide ValidateSnapshot; hide Sealed; hide MutationOf; hide CredentialShape; hide MutationShape;
    if i == |ms| {
      assert ms[..i] == ms;
    } else {
      var init := ms[..|ms| - 1];
      assert init[..i] == ms[..i];
      MaterialIsConstant(env, init, i);
      SealedStep(env, ms[|ms| - 1]);
    }
  }

  /** Once an update has been accepted, no later snapshot of the chain is Bound
      before a new CredentialSet. */
  lemma UpdateUnbinds(env: Env, ms: seq<Manifest>, i: nat)
    requires Chain(env, ms) && i < |ms| && ms[i].payload.AccountUpdate?
    requires forall k | i < k < |ms| :: !ms[k].payload.CredentialSet?
    ensures End(ms).Some? ==> !End(ms).value.credentialState.Bound?
  {
    hide Chain; hide ValidateSnapshot;
    if End(ms).Some? {
      BoundMeansJustSet(env, ms);
    }
  }

  /** A Bound snapshot carries the credential id and binding digest that the
      last CredentialSet's own context was signed for. */
  lemma BoundIsWhatWasSigned(env: Env, ms: seq<Manifest>)
    requires Chain(env, ms) && End(ms).Some? && End(ms).value.credentialState.Bound?
    ensures var signed := ms[|ms| - 1];
      && signed.payload.CredentialSet?
      && signed.context.target == Actions.CredentialTarget(End(ms).value.credentialId)
      && signed.context.binding == Some(End(ms).value.bindingSha256)
      && signed.context.accountId == Some(End(ms).value.accountId)
  {
    hide ValidateSnapshot; hide Sealed;
    BoundMeansJustSet(env, ms);
    SignedSet(env, ms[|ms| - 1]);
  }

  lemma SignedSet(env: Env, m: Manifest)
    requires Sealed(env, m) && m.payload.CredentialSet?
    ensures After(m).Some?
    ensures m.context.target == Actions.CredentialTarget(After(m).value.credentialId)
    ensures m.context.binding == Some(After(m).value.bindingSha256)
    ensures m.context.accountId == Some(After(m).value.accountId)
  {
    hide ValidateCommon; hide EncodePayload; hide CommonFields; hide ValidateSnapshot; hide CredentialShape;
    hide SameMaterial; hide Framing.EncodeFields; hide ExactIncrement;
  }

  // ----- the digest that is bound -----

  lemma DigestOfConfig(env: Env, s: AccountSnapshot)
    requires ValidateSnapshot(env, s).Ok?
    ensures BindingBytes(env, ConfigOf(s)).Ok?
    ensures s.bindingSha256 == (env.sha256)(BindingBytes(env, ConfigOf(s)).value)
  {
    hide EncodeEndpoint; hide OptionalEndpointBytes; hide ValidConfig; hide BindingBytes; hide ConfigOf;
    hide ValidDisplayId; hide ValidEmail; hide ValidUsername; hide NoDuplicates;
  }

  /** Two valid snapshots whose configurations bind the same material carry one
      digest, so an update that only respells a host keeps it and the fresh
      credential id alone separates the two. Snapshots that bind different
      material share a digest only through a collision of the hash. */
  lemma DigestsTellMaterialApart(env: Env, a: AccountSnapshot, b: AccountSnapshot)
    requires ValidateSnapshot(env, a).Ok? && ValidateSnapshot(env, b).Ok?
    ensures BindingBytes(env, ConfigOf(a)).Ok? && BindingBytes(env, ConfigOf(b)).Ok?
    ensures var x, y := BindingBytes(env, ConfigOf(a)).value, BindingBytes(env, ConfigOf(b)).value;
      if SameBindingMaterial(env, ConfigOf(a), ConfigOf(b)) then a.bindingSha256 == b.bindingSha256
      else x != y && (a.bindingSha256 == b.bindingSha256 <==> (env.sha256)(x) == (env.sha256)(y))
  {
    hide ValidateSnapshot; hide BindingBytes; hide SameBindingMaterial; hide ConfigOf;
    DigestOfConfig(env, a);
    DigestOfConfig(env, b);
    BindingIsInjective(env, ConfigOf(a), ConfigOf(b));
  }

  /** Validation looks at the two states only through the state table. */
  lemma StatesSwap(env: Env, s: AccountSnapshot, t: AccountSnapshot)
    requires ValidateSnapshot(env, s).Ok?
    requires t == s.(generation := t.generation, bindingState := t.bindingState, credentialState := t.credentialState)
    ensures ValidateSnapshot(env, t).Ok? <==> ValidStates(t)
  {
    hide EncodeEndpoint; hide OptionalEndpointBytes; hide ValidConfig; hide BindingBytes;
    hide ValidDisplayId; hide ValidEmail; hide ValidUsername; hide NoDuplicates;
    assert ConfigOf(s) == ConfigOf(t);
  }

  /** One snapshot alone promises less than a chain: making a valid snapshot Bound
      keeps it valid exactly when it is not OAuth2 and its binding is Authorized,
      or else Mismatch, which no chain reaches. */
  lemma BoundSnapshotStates(env: Env, s: AccountSnapshot, binding: BindingState)
    requires ValidateSnapshot(env, s).Ok?
    ensures ValidateSnapshot(env, s.(bindingState := binding, credentialState := Bound)).Ok? <==>
      !s.credentialKind.OAuth2? && (binding.Authorized? || binding.Mismatch?)
  {
    hide ValidateSnapshot;
    StatesSwap(env, s, s.(bindingState := binding, credentialState := Bound));
  }
}
