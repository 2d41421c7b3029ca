/** Exactly what can be sealed, read off the context and the payload themselves:
    no validator of the modelled program is used to say it. */
module Acceptance {
  import opened Basics
  import opened Utf8
  import opened Framing
  import opened Accounts
  import opened Wire
  import opened ManifestTypes
  import opened SendCodec
  import opened MailboxCodec
  import opened AccountCodec
  import opened TrustCodec
  import opened Manifests
  import opened TextRules
  import opened Sealing
  import Actions
  import Domains

  // ----- account snapshots -----

  predicate Distinct<T(==)>(items: seq<T>) {
    forall i, j | 0 <= i < |items| && 0 <= j < |items| && items[i] == items[j] :: i == j
  }

  predicate Trimmed(t: Text) {
    |Scalars(t)| > 0 ==> Scalars(t)[0] !in SPACES && Scalars(t)[|Scalars(t)| - 1] !in SPACES
  }

  /** A reachable endpoint: a DNS name with its lower-case spelling, or an address
      literal with its canonical one. */
  ghost predicate GoodEndpoint(env: Env, e: EndpointSnapshot, protocol: Protocol) {
    && e.protocol == protocol && e.port != 0 && e.security != Https && |e.exactHost| <= 253
    && match e.hostKind
       case Dns =>
         && IsDnsName(e.exactHost) && e.canonicalHost == LowerAscii(e.exactHost)
         && (env.parseIp)(e.exactHost) == None && (env.parseIp)(e.canonicalHost) == None
       case _ =>
         && |e.exactHost| > 0 && Trimmed(e.exactHost) && Printable(e.exactHost)
         && 1 <= |e.canonicalHost| <= 4096 && (forall i | 0 <= i < |e.canonicalHost| :: e.canonicalHost[i] < 128)
         && (env.parseIp)(e.exactHost) == Some(Ip(if e.hostKind.Ipv4? then V4 else V6, e.canonicalHost))
  }

  /** The credential states that go with a binding state. */
  function States(b: BindingState): seq<CredentialState> {
    match b
    case Quarantined => [LegacyQuarantined]
    case Proposed => [ReentryRequired, Missing]
    case Authorized => [ReentryRequired, Missing, Bound]
    case Invalidated => [LegacyQuarantined, ReentryRequired, Missing, CredentialInvalidated]
    case Mismatch => [LegacyQuarantined, ReentryRequired, Missing, Bound, CredentialInvalidated]
  }

  /** What a snapshot's digest is of: its own canonical spellings. */
  function BoundEndpoint(e: EndpointSnapshot, tag: u16): seq<Field>
    requires tag <= 0x100
  {
    [Field(tag, [match e.protocol case Imap => 1 case Smtp => 2 case Jmap => 3]),
     Field(tag + 1, [match e.hostKind case Dns => 1 case Ipv4 => 2 case Ipv6 => 3] + e.canonicalHost),
     Field(tag + 2, [e.port / 256, e.port % 256]),
     Field(tag + 3, [match e.security case ImplicitTls => 1 case StartTls => 2 case Https => 3])]
  }

  function BoundFields(s: AccountSnapshot): seq<Field> {
    [Field(1, s.email), Field(2, s.username),
     Field(3, [match s.credentialKind case Password => 1 case AppPassword => 2 case OAuth2 => 3])]
      + BoundEndpoint(s.incoming, 0x10)
      + match s.outgoing
        case None => [Field(0x20, [0]), Field(0x21, []), Field(0x22, []), Field(0x23, []), Field(0x24, [])]
        case Some(e) => [Field(0x20, [1])] + BoundEndpoint(e, 0x21)
  }

  ghost predicate GoodSnapshot(env: Env, s: AccountSnapshot) {
    && 1 <= |s.displayId| <= 64
    && (forall i | 0 <= i < |s.displayId| ::
          IsLetterOrDigit(s.displayId[i]) || s.displayId[i] in ['-' as byte, '_' as byte])
    && (exists at: nat :: IsMailbox(s.email, at)) && |s.email| <= 320 && Solid(s.email) && Printable(s.email)
    && (exists i | 0 <= i < |Scalars(s.username)| :: Scalars(s.username)[i] !in SPACES)
    && |s.username| <= 1024 && Printable(s.username)
    && s.bindingVersion == 1 && |s.cleanupIds| <= 100 && Distinct(s.cleanupIds)
    && GoodEndpoint(env, s.incoming, Imap) && (s.outgoing.Some? ==> GoodEndpoint(env, s.outgoing.value, Smtp))
    && s.credentialState in States(s.bindingState)
    && (s.credentialKind == OAuth2 ==> s.bindingState != Authorized && s.credentialState != Bound)
    && s.bindingSha256 == (env.sha256)(Transcript(Domains.Bytes(Domains.AccountBinding), BoundFields(s)))
  }

  lemma LowerTwice(b: seq<byte>)
    ensures LowerAscii(LowerAscii(b)) == LowerAscii(b)
    ensures IsAscii(LowerAscii(b)) <==> IsAscii(b)
  {
  }

  lemma {:induction false} JoinedLabelsAreAscii(labels: seq<seq<byte>>)
    requires |labels| >= 1 && forall l | l in labels :: IsLabel(l)
    ensures var h := Join(labels, '.' as byte);
      |h| > 0 && forall i | 0 <= i < |h| :: 0x20 < h[i] < 0x7F
  {
    assert labels[0] in labels;
    if |labels| > 1 { JoinedLabelsAreAscii(labels[1..]); }
  }

  lemma NoSpaceInRange(c: int)
    requires 0x20 < c < 0x7F
    ensures c !in SPACES
  {
  }

  lemma PlainBytes(t: seq<byte>)
    requires |t| > 0 && forall i | 0 <= i < |t| :: 0x20 < t[i] < 0x7F
    ensures ValidUtf8(t) && IsAscii(t) && Trimmed(t) && Printable(t)
  {
    hide Decode;
    DecodeAscii(t);
    NoSpaceInRange(t[0]);
    NoSpaceInRange(t[|t| - 1]);
  }

  /** A DNS name is plain ASCII: nothing in it is a space or a control. */
  lemma DnsNamesArePlain(host: Text)
    requires IsDnsName(host)
    ensures |host| > 0 && IsAscii(host) && Trimmed(host) && Printable(host)
  {
    hide IsLabel; hide Trimmed; hide Printable; hide Join;
    var labels: seq<seq<byte>> :| |labels| >= 1 && Join(labels, '.' as byte) == host
      && forall l | l in labels :: IsLabel(l);
    JoinedLabelsAreAscii(labels);
    PlainBytes(host);
  }

  /** An endpoint passes the snapshot's own check and the configuration's exactly
      when it is good, and then its normalised host is its canonical one. */
  lemma EndpointIsExact(env: Env, e: EndpointSnapshot, protocol: Protocol)
    requires protocol == Imap || protocol == Smtp
    ensures ValidEndpointSnapshot(env, e) && ValidEndpoint(env, EndpointOf(e), protocol)
      <==> GoodEndpoint(env, e, protocol)
    ensures GoodEndpoint(env, e, protocol) ==>
      NormalizedHostBytes(env, e.exactHost)
        == Ok([match e.hostKind case Dns => 1 case Ipv4 => 2 case Ipv6 => 3] + e.canonicalHost)
  {
    hide IsDnsName; hide ValidHost; hide AnyControl; hide Scalars; hide Printable; hide Trimmed; hide IsTrimmed;
    ClassesAreExact(e.exactHost);
    assert Trimmed(e.exactHost) <==> IsTrimmed(e.exactHost) by { TrimmedIsExact(e.exactHost); }
    HostIsExact(env, e.exactHost);
    LowerTwice(e.exactHost);
    LowerTwice(e.canonicalHost);
    if IsDnsName(e.exactHost) { DnsNamesArePlain(e.exactHost); }
  }

  lemma TrimmedIsExact(t: Text)
    ensures Trimmed(t) <==> IsTrimmed(t)
  {
    hide IsTrimmed; hide Scalars;
    ClassesAreExact(t);
  }

  // ----- the digest a snapshot carries -----

  lemma PortBytes(port: u16)
    ensures Be(port, 2) == [port / 256, port % 256]
  {
    assert Be(port, 2) == Be(port / 256, 1) + [port % 256];
  }

  predicate Spelled(env: Env, e: EndpointSnapshot) {
    NormalizedHostBytes(env, e.exactHost)
      == Ok([match e.hostKind case Dns => 1 case Ipv4 => 2 case Ipv6 => 3] + e.canonicalHost)
  }

  lemma OutgoingIsBound(env: Env, e: Option<EndpointSnapshot>)
    requires e.Some? ==> Spelled(env, e.value)
    ensures OutgoingFields(env, if e.None? then None else Some(EndpointOf(e.value))) == Ok(
      match e
      case None => [Field(0x21, []), Field(0x22, []), Field(0x23, []), Field(0x24, [])]
      case Some(e) => BoundEndpoint(e, 0x21))
  {
    hide NormalizedHostBytes; hide Be;
    if e.Some? {
      PortBytes(e.value.port);
      var f := OutgoingFields(env, Some(EndpointOf(e.value))).value;
      var g := BoundEndpoint(e.value, 0x21);
      assert f[0] == g[0] && f[1] == g[1] && f[2] == g[2] && f[3] == g[3];
      assert f == g;
    }
  }

  /** The fields before those of the outgoing endpoint. */
  function Leading(s: AccountSnapshot, host: seq<byte>): seq<Field> {
    [Field(0x01, s.email), Field(0x02, s.username), Field(0x03, [CredentialKindCode(s.credentialKind)]),
     Field(0x10, [ProtocolCode(s.incoming.protocol)]), Field(0x11, host),
     Field(0x12, Be(s.incoming.port, 2)), Field(0x13, [SecurityCode(s.incoming.security)]),
     Field(0x20, [if s.outgoing.Some? then 1 else 0])]
  }

  lemma LeadingIsBound(env: Env, s: AccountSnapshot)
    requires Spelled(env, s.incoming)
    ensures Leading(s, NormalizedHostBytes(env, s.incoming.exactHost).value) ==
      [Field(1, s.email), Field(2, s.username), Field(3, [CredentialKindCode(s.credentialKind)])]
        + BoundEndpoint(s.incoming, 0x10) + [Field(0x20, [if s.outgoing.Some? then 1 else 0])]
  {
    hide NormalizedHostBytes; hide Be;
    PortBytes(s.incoming.port);
  }

  lemma FieldsAreBound(env: Env, s: AccountSnapshot)
    requires Spelled(env, s.incoming) && (s.outgoing.Some? ==> Spelled(env, s.outgoing.value))
    ensures BindingFields(env, ConfigOf(s)) == Ok(BoundFields(s))
  {
    hide NormalizedHostBytes; hide Be; hide OutgoingFields; hide BoundEndpoint;
    OutgoingIsBound(env, s.outgoing);
    LeadingIsBound(env, s);
    var outgoing := match s.outgoing
      case None => [Field(0x21, []), Field(0x22, []), Field(0x23, []), Field(0x24, [])]
      case Some(e) => BoundEndpoint(e, 0x21);
    var leading := Leading(s, NormalizedHostBytes(env, s.incoming.exactHost).value);
    assert BindingFields(env, ConfigOf(s)) == Ok(leading + outgoing);
    assert BoundFields(s) == leading + outgoing;
  }

  lemma BoundFieldsEncode(s: AccountSnapshot)
    requires |s.email| <= 320 && |s.username| <= 1024 && |s.incoming.canonicalHost| <= 4096
    requires s.outgoing.Some? ==> |s.outgoing.value.canonicalHost| <= 4096
    ensures Encodable(BoundFields(s))
  {
  }

  /** The binding transcript of a good snapshot's configuration is the transcript
      of its own canonical spellings. */
  lemma BindingIsOfCanonical(env: Env, s: AccountSnapshot)
    requires GoodEndpoint(env, s.incoming, Imap) && (s.outgoing.Some? ==> GoodEndpoint(env, s.outgoing.value, Smtp))
    requires |s.email| <= 320 && |s.username| <= 1024
    ensures BindingBytes(env, ConfigOf(s)) == Ok(Transcript(Domains.Bytes(Domains.AccountBinding), BoundFields(s)))
  {
    hide NormalizedHostBytes; hide EncodeFields; hide Transcript; hide Domains.Bytes; hide BoundFields;
    hide BindingFields; hide IsDnsName; hide Printable; hide Trimmed; hide ConfigOf;
    EndpointIsExact(env, s.incoming, Imap);
    if s.outgoing.Some? { EndpointIsExact(env, s.outgoing.value, Smtp); }
    FieldsAreBound(env, s);
    BoundFieldsEncode(s);
    EncodeFieldsExact(Domains.Bytes(Domains.AccountBinding), BoundFields(s));
  }

  // ----- snapshots, exactly -----

  lemma EndpointEncodes(env: Env, e: EndpointSnapshot)
    ensures EncodeEndpoint(env, e).Ok? <==> ValidEndpointSnapshot(env, e)
  {
    hide EncodeFields; hide AnyControl; hide CanonicalHostMatches; hide U16Bytes;
    if ValidEndpointSnapshot(env, e) {
      EncodableWhenSmall(Domains.Bytes(Domains.EndpointHost), EndpointFields(e));
    }
  }

  lemma EmailsAgree(email: Text)
    requires ValidEmail(email)
    ensures ValidConfigEmail(email)
  {
  }

  lemma StatesAreExact(s: AccountSnapshot)
    ensures ValidStates(s) <==>
      && s.credentialState in States(s.bindingState)
      && (s.credentialKind == OAuth2 ==> s.bindingState != Authorized && s.credentialState != Bound)
  {
    match s.bindingState {
      case Quarantined => assert s.credentialState in [LegacyQuarantined] <==> s.credentialState.LegacyQuarantined?;
      case Proposed =>
      case Authorized =>
      case Invalidated =>
      case Mismatch => assert s.credentialState in States(s.bindingState);
    }
  }

  /** Validation, with everything that is checked twice said once. */
  lemma SnapshotParts(env: Env, s: AccountSnapshot)
    ensures ValidateSnapshot(env, s).Ok? <==>
      && ValidDisplayId(s.displayId) && ValidEmail(s.email) && ValidUsername(s.username)
      && s.bindingVersion == 1 && |s.cleanupIds| <= 100 && NoDuplicates(s.cleanupIds)
      && ValidEndpointSnapshot(env, s.incoming) && ValidEndpoint(env, EndpointOf(s.incoming), Imap)
      && (s.outgoing.Some? ==>
            ValidEndpointSnapshot(env, s.outgoing.value) && ValidEndpoint(env, EndpointOf(s.outgoing.value), Smtp))
      && ValidStates(s) && BindingBytes(env, ConfigOf(s)).Ok?
      && s.bindingSha256 == (env.sha256)(BindingBytes(env, ConfigOf(s)).value)
  {
    hide ValidDisplayId; hide ValidEmail; hide ValidUsername; hide NoDuplicates; hide ValidEndpointSnapshot;
    hide ValidStates; hide BindingBytes; hide EncodeEndpoint; hide ValidHost; hide ValidConfigEmail;
    EndpointEncodes(env, s.incoming);
    if s.outgoing.Some? { EndpointEncodes(env, s.outgoing.value); }
    if ValidEmail(s.email) { EmailsAgree(s.email); }
  }

  predicate ValidNames(s: AccountSnapshot) {
    && ValidDisplayId(s.displayId) && ValidEmail(s.email) && ValidUsername(s.username)
    && NoDuplicates(s.cleanupIds)
  }

  lemma NamesAreExact(s: AccountSnapshot)
    ensures ValidNames(s) <==>
      && 1 <= |s.displayId| <= 64
      && (forall i | 0 <= i < |s.displayId| ::
            IsLetterOrDigit(s.displayId[i]) || s.displayId[i] in ['-' as byte, '_' as byte])
      && (exists at: nat :: IsMailbox(s.email, at)) && |s.email| <= 320 && Solid(s.email) && Printable(s.email)
      && (exists i | 0 <= i < |Scalars(s.username)| :: Scalars(s.username)[i] !in SPACES)
      && |s.username| <= 1024 && Printable(s.username) && Distinct(s.cleanupIds)
  {
    hide ValidDisplayId; hide ValidEmail; hide IsBlank; hide AnyControl; hide Printable; hide Solid; hide Scalars;
    hide IsMailbox; hide IsLetterOrDigit;
    DisplayIdIsExact(s.displayId);
    EmailIsExact(s.email);
    ClassesAreExact(s.username);
  }

  /** A snapshot validates exactly when it is good: nothing else is asked, and
      nothing less. */
  lemma SnapshotIsExact(env: Env, s: AccountSnapshot)
    ensures ValidateSnapshot(env, s).Ok? <==> GoodSnapshot(env, s)
  {
    hide ValidateSnapshot; hide ValidDisplayId; hide ValidEmail; hide ValidUsername; hide NoDuplicates; hide Distinct;
    hide ValidEndpointSnapshot; hide ValidEndpoint; hide ValidStates; hide BindingBytes; hide GoodEndpoint;
    hide Printable; hide Solid; hide Scalars; hide IsMailbox; hide IsLetterOrDigit; hide Transcript; hide BoundFields;
    hide ConfigOf;
    SnapshotParts(env, s);
    NamesAreExact(s);
    StatesAreExact(s);
    EndpointIsExact(env, s.incoming, Imap);
    if s.outgoing.Some? { EndpointIsExact(env, s.outgoing.value, Smtp); }
    if GoodEndpoint(env, s.incoming, Imap) && (s.outgoing.Some? ==> GoodEndpoint(env, s.outgoing.value, Smtp))
      && |s.email| <= 320 && |s.username| <= 1024
    {
      BindingIsOfCanonical(env, s);
    }
  }

  // ----- configurations, exactly -----

  /** The configuration's own email rule looks at the last `@` only. */
  predicate IsConfigMailbox(email: seq<byte>, at: nat) {
    && 1 <= at && at + 1 < |email| && email[at] == '@' as byte
    && (forall i | at < i < |email| :: email[i] != '@' as byte)
    && exists i | at < i < |email| :: email[i] == '.' as byte
  }

  lemma ConfigEmailIsExact(email: Text)
    ensures ValidConfigEmail(email) <==>
      (exists at: nat :: IsConfigMailbox(email, at)) && |email| <= 320 && Solid(email) && Printable(email)
  {
    hide Decode; hide Solid; hide Printable;
    ClassesAreExact(email);
    LastIs(email, '@' as byte);
    var last := AfterLast(email, '@' as byte);
    if at: nat :| IsConfigMailbox(email, at) {
      assert last.Some? && last.value == at + 1;
      var i :| at < i < |email| && email[i] == '.' as byte;
      assert email[at + 1..][i - at - 1] == '.' as byte;
    }
    if ValidConfigEmail(email) {
      var p := last.value;
      var j :| 0 <= j < |email[p..]| && email[p..][j] == '.' as byte;
      assert email[p + j] == '.' as byte;
      assert IsConfigMailbox(email, p - 1);
    }
  }

  ghost predicate GoodServer(env: Env, e: Endpoint, protocol: Protocol) {
    && e.protocol == protocol && e.port != 0 && e.security != Https
    && 1 <= |e.host| <= 253 && Trimmed(e.host) && ((env.parseIp)(e.host).Some? || IsDnsName(e.host))
  }

  /** What an account configuration must be; OAuth2 is refused there. */
  lemma ConfigIsExact(env: Env, c: MailAccountConfig)
    ensures ValidConfig(env, c) <==>
      && 1 <= |c.id| <= 64
      && (forall i | 0 <= i < |c.id| :: IsLetterOrDigit(c.id[i]) || c.id[i] in ['-' as byte, '_' as byte])
      && (exists at: nat :: IsConfigMailbox(c.email, at)) && |c.email| <= 320 && Solid(c.email) && Printable(c.email)
      && (exists i | 0 <= i < |Scalars(c.username)| :: Scalars(c.username)[i] !in SPACES)
      && |c.username| <= 1024 && Printable(c.username)
      && GoodServer(env, c.incoming, Imap) && (c.outgoing.Some? ==> GoodServer(env, c.outgoing.value, Smtp))
      && c.credentialKind in [Password, AppPassword]
  {
    hide ValidDisplayId; hide ValidConfigEmail; hide ValidHost; hide IsConfigMailbox; hide Solid; hide Printable;
    hide Scalars; hide IsLetterOrDigit; hide Trimmed; hide IsTrimmed; hide IsBlank; hide AnyControl; hide IsDnsName;
    DisplayIdIsExact(c.id);
    ConfigEmailIsExact(c.email);
    ClassesAreExact(c.username);
    ServerIsExact(env, c.incoming, Imap);
    if c.outgoing.Some? { ServerIsExact(env, c.outgoing.value, Smtp); }
  }

  lemma ServerIsExact(env: Env, e: Endpoint, protocol: Protocol)
    ensures ValidEndpoint(env, e, protocol) <==> GoodServer(env, e, protocol)
  {
    hide ValidHost; hide Trimmed; hide IsTrimmed; hide IsDnsName;
    HostIsExact(env, e.host);
    TrimmedIsExact(e.host);
  }
}
