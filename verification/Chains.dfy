/** Which chains of account manifests exist: exactly those whose actions spell a
    run of the lifecycle automaton. */
module Chains {
  import opened Basics
  import opened Utf8
  import opened Framing
  import opened Accounts
  import opened Wire
  import opened ManifestTypes
  import opened AccountCodec
  import opened Manifests
  import opened Authorization
  import opened Lifecycle
  import opened Sealing
  import Actions
  import Domains

  // ----- chains go on -----

  /** Any chain can be continued by any step the rules admit. */
  lemma ChainsExtend(env: Env, ms: seq<Manifest>, action: Action, after: Option<AccountSnapshot>, v: Cover)
    requires Chain(env, ms) && GoodStep(env, action, End(ms), after) && GoodCover(v)
    ensures End(ms).Some? || after.Some?
    ensures ManifestFor(env, action, End(ms), after, v).Ok?
    ensures var longer := ms + [ManifestFor(env, action, End(ms), after, v).value];
      Chain(env, longer) && End(longer) == after
  {
    hide ManifestFor; hide GoodStep; hide Sealed; hide Before; hide After; hide MutationOf;
    GoodStepIsSealable(env, action, End(ms), after, v);
    var m := ManifestFor(env, action, End(ms), after, v).value;
    var longer := ms + [m];
    assert longer[..|longer| - 1] == ms && longer[|longer| - 1] == m;
    assert Chain(env, longer) by { ChainOfOneMore(env, ms, m); }
    assert End(longer) == After(m);
  }

  lemma ChainOfOneMore(env: Env, ms: seq<Manifest>, m: Manifest)
    requires Chain(env, ms) && Sealed(env, m) && MutationOf(m.payload).Some? && Before(m) == End(ms)
    ensures Chain(env, ms + [m])
  {
    hide Sealed; hide MutationOf; hide Before; hide End;
    assert (ms + [m])[..|ms|] == ms;
  }

  // ----- every edge of the automaton -----

  function OtherId(id: Uuid4): (other: Uuid4)
    ensures other != id
  {
    var first := if id[0] == 0 then 1 else 0;
    assert id[0 := first][0] != id[0];
    id[0 := first]
  }

  /** An account as an update leaves it, but for the digest: another port, another
      credential id, a password where OAuth2 was, and nothing bound. */
  function Moved(s: AccountSnapshot): AccountSnapshot
    requires s.generation < U64_MAX
  {
    s.(generation := s.generation + 1, credentialId := OtherId(s.credentialId),
       credentialKind := if s.credentialKind.OAuth2? then Password else s.credentialKind,
       incoming := s.incoming.(port := if s.incoming.port == 1 then 2 else 1),
       bindingState := BindingState.Authorized, credentialState := ReentryRequired)
  }

  /** ... and with the digest of its new material. */
  function Updated(env: Env, s: AccountSnapshot): AccountSnapshot
    requires s.generation < U64_MAX
  {
    var moved := Moved(s);
    match BindingBytes(env, ConfigOf(moved))
    case Err(_) => moved
    case Ok(binding) => moved.(bindingSha256 := (env.sha256)(binding))
  }

  /** Where an action leads from a snapshot, with `newcomer` as the account to create. */
  function AfterEdge(env: Env, before: Option<AccountSnapshot>, newcomer: AccountSnapshot, action: Action)
    : Option<AccountSnapshot>
    requires before.Some? ==> before.value.generation < U64_MAX
  {
    match action
    case AccountCreate =>
      Some(newcomer.(generation := 1, bindingState := Proposed, credentialState := ReentryRequired))
    case AccountUpdate => if before.None? then None else Some(Updated(env, before.value))
    case CredentialSet => if before.None? then None else Some(Stated(before.value, Bound))
    case CredentialDelete => if before.None? then None else Some(Stated(before.value, Missing))
    case _ => None
  }

  function Stated(s: AccountSnapshot, state: CredentialState): AccountSnapshot
    requires s.generation < U64_MAX
  {
    s.(generation := s.generation + 1, bindingState := BindingState.Authorized, credentialState := state)
  }

  lemma SameButStates(s: AccountSnapshot, t: AccountSnapshot)
    requires t == s.(generation := t.generation, bindingState := t.bindingState, credentialState := t.credentialState)
    ensures SameMaterial(s, t)
  {
  }

  lemma EndpointReencodes(env: Env, e: EndpointSnapshot, port: u16)
    requires EncodeEndpoint(env, e).Ok? && port != 0
    ensures EncodeEndpoint(env, e.(port := port)).Ok?
  {
    hide EncodeFields; hide ValidUtf8; hide AnyControl; hide IsAscii; hide ParseText; hide ParseU16; hide U16Bytes;
    hide CanonicalHostMatches; hide ParseProtocol; hide ParseHostKind; hide ParseSecurity;
    var f := e.(port := port);
    assert CanonicalHostMatches(env, f) by { SameHosts(env, e, f); }
    EncodeFieldsExact(Domains.Bytes(Domains.EndpointHost), EndpointFields(e));
    EncodeFieldsExact(Domains.Bytes(Domains.EndpointHost), EndpointFields(f));
  }

  lemma SameHosts(env: Env, e: EndpointSnapshot, f: EndpointSnapshot)
    requires f == e.(port := f.port)
    ensures CanonicalHostMatches(env, e) <==> CanonicalHostMatches(env, f)
  {
    hide LowerAscii;
  }

  /** A binding transcript does not depend on the port or the credential kind to exist. */
  lemma BindingReencodes(env: Env, c: MailAccountConfig, d: MailAccountConfig)
    requires BindingBytes(env, c).Ok?
    requires d == c.(credentialKind := d.credentialKind, incoming := c.incoming.(port := d.incoming.port))
    ensures BindingBytes(env, d).Ok?
  {
    hide EncodeFields; hide ValidUtf8; hide Be; hide NormalizedHostBytes; hide OutgoingFields;
    var domain := Domains.Bytes(Domains.AccountBinding);
    var f, g := BindingFields(env, c).value, BindingFields(env, d).value;
    EncodeFieldsExact(domain, f);
    assert |f| == |g| && forall i | 0 <= i < |f| :: f[i].tag == g[i].tag;
    assert forall i | 0 <= i < |f| :: |f[i].value| == |g[i].value|;
    EncodeFieldsExact(domain, g);
  }

  lemma UpdatedIsValid(env: Env, s: AccountSnapshot)
    requires ValidateSnapshot(env, s).Ok? && s.generation < U64_MAX
    ensures ValidateSnapshot(env, Updated(env, s)).Ok?
  {
    hide EncodeEndpoint; hide OptionalEndpointBytes; hide BindingBytes; hide ValidHost;
    hide ValidDisplayId; hide ValidEmail; hide ValidUsername; hide NoDuplicates; hide ValidConfigEmail;
    EndpointReencodes(env, s.incoming, Moved(s).incoming.port);
    BindingReencodes(env, ConfigOf(s), ConfigOf(Moved(s)));
    assert ConfigOf(Updated(env, s)) == ConfigOf(Moved(s));
  }

  lemma UpdatedChanges(env: Env, s: AccountSnapshot)
    requires s.generation < U64_MAX
    ensures var t := Updated(env, s);
      && t.credentialId != s.credentialId && MaterialChanged(s, t) && t.generation == s.generation + 1
      && t.displayId == s.displayId && t.accountId == s.accountId && !t.credentialKind.OAuth2?
      && t.bindingState.Authorized? && t.credentialState.ReentryRequired?
  {
    hide BindingBytes; hide ConfigOf;
    assert s.incoming.port != Updated(env, s).incoming.port;
  }

  /** Every edge of the automaton is taken: from any valid snapshot in a phase, an
      action is admitted exactly when the automaton admits it there, but that an
      OAuth2 account can never be bound. */
  lemma EdgesAreRealised(
    env: Env, phase: Phase, before: Option<AccountSnapshot>, newcomer: AccountSnapshot, action: Action)
    requires Describes(phase, before) && ValidIfAny(env, before) && ValidateSnapshot(env, newcomer).Ok?
    requires before.Some? ==> before.value.generation < U64_MAX
    ensures GoodStep(env, action, before, AfterEdge(env, before, newcomer, action)) <==>
      Next(phase, action).Some? && !(action.CredentialSet? && before.Some? && before.value.credentialKind.OAuth2?)
  {
    hide ValidateSnapshot; hide SameMaterial; hide Updated; hide MaterialChanged; hide ValidStates;
    var after := AfterEdge(env, before, newcomer, action);
    match action {
      case AccountCreate => StatesSwap(env, newcomer, after.value); ProposedIsAState(after.value);
      case AccountUpdate =>
        if before.Some? { UpdatedIsValid(env, before.value); UpdatedChanges(env, before.value); }
      case CredentialSet | CredentialDelete =>
        if before.Some? {
          StatesSwap(env, before.value, after.value);
          SameButStates(before.value, after.value);
          BoundStates(env, before.value, after.value);
        }
      case _ =>
    }
  }

  lemma ProposedIsAState(s: AccountSnapshot)
    requires s.bindingState.Proposed? && s.credentialState.ReentryRequired?
    ensures ValidStates(s)
  {
  }

  lemma BoundStates(env: Env, s: AccountSnapshot, t: AccountSnapshot)
    requires ValidateSnapshot(env, s).Ok? && t.credentialKind == s.credentialKind
    requires t.bindingState.Authorized? && (t.credentialState.Bound? || t.credentialState.Missing?)
    ensures ValidStates(t) <==> !s.credentialKind.OAuth2?
    ensures s.bindingState.Authorized? ==> !s.credentialKind.OAuth2?
  {
    hide EncodeEndpoint; hide OptionalEndpointBytes; hide BindingBytes; hide ValidConfig; hide ConfigOf;
    hide ValidDisplayId; hide ValidEmail; hide ValidUsername; hide NoDuplicates;
  }

  // ----- every run of the automaton -----

  lemma OneMoreWord(env: Env, ms: seq<Manifest>, m: Manifest)
    ensures Word(ms + [m]) == Word(ms) + [ActionOf(m.payload)]
  {
    hide ActionOf;
    assert (ms + [m])[..|ms|] == ms;
  }

  lemma {:induction false} AgeIsShort(w: seq<Action>)
    ensures Age(w) <= |w|
  {
    if |w| > 0 { AgeIsShort(w[..|w| - 1]); }
  }

  /** The automaton's language is exact. Every chain spells one of its runs, and
      here every run is spelled by some chain, under any configuration token and
      for any valid account that is not OAuth2, as long as the 64-bit generation
      does not run out. So updates, and Bound accounts to update, do occur. */
  lemma {:induction false} EveryRunIsAChain(env: Env, newcomer: AccountSnapshot, v: Cover, w: seq<Action>)
    returns (ms: seq<Manifest>)
    requires ValidateSnapshot(env, newcomer).Ok? && !newcomer.credentialKind.OAuth2? && GoodCover(v)
    requires Run(w).Some? && |w| < U64_MAX
    ensures Chain(env, ms) && Word(ms) == w
    ensures End(ms).Some? ==> !End(ms).value.credentialKind.OAuth2?
    decreases |w|
  {
    hide ValidateSnapshot; hide GoodStep; hide Describes; hide Next; hide AfterEdge; hide ManifestFor; hide Chain;
    hide ActionOf; hide End; hide Word; hide Sealed; hide MutationOf; hide Before; hide After; hide Age;
    if |w| == 0 {
      ms := [];
      EmptyChain(env);
      assert w == [];
    } else {
      var init, action := w[..|w| - 1], w[|w| - 1];
      var shorter := EveryRunIsAChain(env, newcomer, v, init);
      ChainsRunTheAutomaton(env, shorter);
      AgeIsShort(init);
      EdgesAreRealised(env, Run(init).value, End(shorter), newcomer, action);
      var after := AfterEdge(env, End(shorter), newcomer, action);
      ChainsExtend(env, shorter, action, after, v);
      GoodStepIsSealable(env, action, End(shorter), after, v);
      var m := ManifestFor(env, action, End(shorter), after, v).value;
      ms := shorter + [m];
      OneMoreWord(env, shorter, m);
      StaysPassword(env, End(shorter), newcomer, action);
      assert w == init + [action];
    }
  }

  lemma EmptyChain(env: Env)
    ensures Chain(env, []) && End([]) == None && Word([]) == []
  {
  }

  lemma StaysPassword(env: Env, before: Option<AccountSnapshot>, newcomer: AccountSnapshot, action: Action)
    requires before.Some? ==> before.value.generation < U64_MAX && !before.value.credentialKind.OAuth2?
    requires !newcomer.credentialKind.OAuth2?
    ensures var after := AfterEdge(env, before, newcomer, action);
      after.Some? ==> !after.value.credentialKind.OAuth2?
  {
    hide Updated;
    if before.Some? { UpdatedChanges(env, before.value); }
  }

  // ----- a first account -----

  const NO_HASH: Env := Env(_ => seq(32, _ => 0), _ => None)

  const LETTER: seq<byte> := [0x61]
  const EMAIL: seq<byte> := [0x61, 0x40, 0x62, 0x2E]

  lemma SampleTexts()
    ensures ValidUtf8(LETTER) && Chars(LETTER) == [0x61] && ValidUtf8(EMAIL) && Chars(EMAIL) == [0x61, 0x40, 0x62, 0x2E]
  {
    hide Decode;
    DecodeAscii(LETTER);
    DecodeAscii(EMAIL);
  }

  lemma SampleEmail()
    requires ValidUtf8(EMAIL) && Chars(EMAIL) == [0x61, 0x40, 0x62, 0x2E]
    ensures ValidEmail(EMAIL) && ValidConfigEmail(EMAIL)
  {
    hide Decode;
    assert AfterLast(EMAIL, 0x40) == Some(2) by {
      assert EMAIL[..3] == [0x61, 0x40, 0x62] && EMAIL[..3][..2] == [0x61, 0x40];
    }
    assert EMAIL[2..] == [0x62, 0x2E] && EMAIL[..1] == [0x61];
  }

  lemma SampleHost()
    requires ValidUtf8(LETTER) && Chars(LETTER) == [0x61]
    ensures ValidHost(NO_HASH, LETTER) && ValidUsername(LETTER) && ValidDisplayId(LETTER) && !AnyControl(LETTER)
    ensures IsAscii(LETTER) && LowerAscii(LETTER) == LETTER
  {
    hide Decode;
    var rest := Split(LETTER[1..], '.' as byte);
    assert LETTER[1..] == [];
    assert rest == [[]];
    assert [LETTER[0]] + rest[0] == LETTER && rest[1..] == [];
    assert Split(LETTER, '.' as byte) == [LETTER];
  }

  /** A small account as it is first proposed. */
  function SampleAccount(): AccountSnapshot
    requires ValidUtf8(LETTER) && ValidUtf8(EMAIL)
  {
    AccountSnapshot(LETTER, seq(16, _ => 0x40), 1, EMAIL, LETTER, Password, seq(16, _ => 0x40), 1, seq(32, _ => 0),
      Proposed, ReentryRequired, None, EndpointSnapshot(Imap, LETTER, Dns, LETTER, 993, ImplicitTls), None, [])
  }

  /** There is an account to begin with, so there are chains for every run; for
      one, an account that is created, bound, and then updated. */
  lemma BoundAccountsAreUpdated(v: Cover)
    requires GoodCover(v)
    ensures exists env, ms, bound ::
      && Chain(env, ms) && Word(ms) == [Actions.AccountCreate, Actions.CredentialSet, Actions.AccountUpdate]
      && bound == ms[..2] && End(bound).Some? && End(bound).value.credentialState.Bound?
  {
    hide ValidateSnapshot; hide SampleAccount; hide Decode; hide Chain; hide ActionOf; hide Before; hide After;
    SampleTexts();
    SampleIsValid();
    SampleShape();
    var w := [Actions.AccountCreate, Actions.CredentialSet, Actions.AccountUpdate];
    SampleRun(w);
    var ms := EveryRunIsAChain(NO_HASH, SampleAccount(), v, w);
    var bound := ms[..2];
    ChainPrefix(NO_HASH, ms);
    WordPrefix(ms);
    assert w[..2] == [Actions.AccountCreate, Actions.CredentialSet];
    SampleRun(w);
    ChainsRunTheAutomaton(NO_HASH, bound);
  }

  lemma SampleRun(w: seq<Action>)
    requires w == [Actions.AccountCreate, Actions.CredentialSet, Actions.AccountUpdate]
    ensures Run(w).Some? && Run(w[..2]) == Some(Holding)
  {
    assert w[..2][..1] == [Actions.AccountCreate] && w[..2][..1][..0] == [];
    assert Run(w[..2][..1]) == Some(Created);
  }

  lemma ChainPrefix(env: Env, ms: seq<Manifest>)
    requires Chain(env, ms) && |ms| == 3
    ensures Chain(env, ms[..2])
  {
    hide Sealed; hide MutationOf; hide End;
  }

  lemma WordPrefix(ms: seq<Manifest>)
    requires |ms| == 3
    ensures Word(ms[..2]) == Word(ms)[..2]
  {
    hide ActionOf;
  }

  /** A manifest with 101 cleanup descriptors that seals and does not parse. */
  lemma SomeSealedManifestDoesNotParse(v: Cover, d: CleanupDescriptor)
    requires GoodCover(v)
    ensures exists env, c, p ::
      && NewManifest(env, c, p).Ok? && CleanupCount(p) == 101
      && ParseManifest(env, NewManifest(env, c, p).value.bytes) == Err(ResourceLimit)
  {
    hide ValidateSnapshot; hide SampleAccount; hide Decode; hide GoodStep; hide NewManifest; hide ParseManifest;
    hide PayloadFor; hide ContextFor; hide CleanupCount;
    SampleTexts();
    var s := SampleAccount();
    SampleIsValid();
    SampleShape();
    CreationIsGood(NO_HASH, s);
    var long := v.(cleanup := seq(101, _ => d));
    LongCleanupSealsButDoesNotParse(NO_HASH, Actions.AccountCreate, None, Some(s), long);
    CleanupOfPayload(Actions.AccountCreate, None, Some(s), long);
    var c, p := ContextFor(Actions.AccountCreate, None, Some(s), long),
      PayloadFor(Actions.AccountCreate, None, Some(s), long);
    assert NewManifest(NO_HASH, c, p).Ok?;
  }

  /** A valid snapshot that is Bound under Mismatch. */
  lemma SomeSnapshotIsBoundUnderMismatch()
    ensures exists env, s :: ValidateSnapshot(env, s).Ok? && s.credentialState.Bound? && s.bindingState.Mismatch?
  {
    hide ValidateSnapshot; hide SampleAccount; hide Decode;
    SampleTexts();
    SampleIsValid();
    SampleShape();
    BoundSnapshotStates(NO_HASH, SampleAccount(), Mismatch);
    var s := SampleAccount().(bindingState := Mismatch, credentialState := Bound);
    assert ValidateSnapshot(NO_HASH, s).Ok?;
  }

  lemma SampleShape()
    requires ValidUtf8(LETTER) && ValidUtf8(EMAIL)
    ensures var s := SampleAccount();
      s.generation == 1 && s.bindingState.Proposed? && s.credentialState.ReentryRequired? && !s.credentialKind.OAuth2?
  {
  }

  /** A valid, newly proposed snapshot is a creation. */
  lemma CreationIsGood(env: Env, s: AccountSnapshot)
    requires ValidateSnapshot(env, s).Ok?
    requires s.generation == 1 && s.bindingState.Proposed? && s.credentialState.ReentryRequired?
    ensures GoodStep(env, Actions.AccountCreate, None, Some(s))
  {
    hide ValidateSnapshot;
  }

  lemma SampleIsValid()
    requires ValidUtf8(LETTER) && Chars(LETTER) == [0x61]
    requires ValidUtf8(EMAIL) && Chars(EMAIL) == [0x61, 0x40, 0x62, 0x2E]
    ensures ValidateSnapshot(NO_HASH, SampleAccount()).Ok?
  {
    hide Decode; hide EncodeEndpoint; hide BindingBytes; hide ValidHost; hide ValidUsername; hide ValidDisplayId;
    hide ValidEmail;
    hide ValidConfigEmail; hide AnyControl;
    SampleEmail();
    SampleHost();
    SampleEndpoint();
    SampleBinding();
  }

  lemma SampleEndpoint()
    requires ValidUtf8(LETTER) && !AnyControl(LETTER) && IsAscii(LETTER) && LowerAscii(LETTER) == LETTER
    ensures EncodeEndpoint(NO_HASH, EndpointSnapshot(Imap, LETTER, Dns, LETTER, 993, ImplicitTls)).Ok?
  {
    hide EncodeFields; hide ValidUtf8; hide AnyControl; hide IsAscii; hide ParseText; hide ParseU16; hide U16Bytes;
    EncodeFieldsExact(Domains.Bytes(Domains.EndpointHost),
      EndpointFields(EndpointSnapshot(Imap, LETTER, Dns, LETTER, 993, ImplicitTls)));
  }

  lemma SampleBinding()
    requires ValidUtf8(LETTER) && ValidUtf8(EMAIL) && IsAscii(LETTER)
    ensures BindingBytes(NO_HASH, ConfigOf(SampleAccount())).Ok?
  {
    hide EncodeFields; hide ValidUtf8; hide IsAscii; hide Be;
    var c := ConfigOf(SampleAccount());
    EncodeFieldsExact(Domains.Bytes(Domains.AccountBinding), BindingFields(NO_HASH, c).value);
  }
}
