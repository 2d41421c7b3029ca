/** Account configuration, its validation, and the canonical transcripts that
    bind an account and locate its configuration file. */
module Accounts {
  import opened Basics
  import opened Utf8
  import opened Framing
  import Domains

  // ----- identities and the functions this model does not look inside -----

  type Bytes32 = b: seq<byte> | |b| == 32 witness seq(32, _ => 0)
  type Digest = Bytes32

  /** A UUID the identifier types accept: version nibble 4. */
  type Uuid4 = b: seq<byte> | |b| == 16 && b[6] / 16 == 4 witness seq(16, _ => 0x40)

  datatype IpFamily = V4 | V6
  datatype Ip = Ip(family: IpFamily, canonical: Text)

  /** SHA-256 and the textual IP parser stay uninterpreted: every result below
      holds for all choices of them. */
  datatype Env = Env(sha256: seq<byte> -> Digest, parseIp: Text -> Option<Ip>)

  // ----- configuration -----

  datatype Protocol = Imap | Smtp | Jmap
  datatype TransportSecurity = ImplicitTls | StartTls | Https
  datatype CredentialKind = Password | AppPassword | OAuth2

  datatype Endpoint = Endpoint(protocol: Protocol, host: Text, port: u16, security: TransportSecurity)

  datatype MailAccountConfig = MailAccountConfig(
    id: Text, email: Text, username: Text,
    incoming: Endpoint, outgoing: Option<Endpoint>,
    credentialKind: CredentialKind)

  function ProtocolCode(p: Protocol): byte {
    match p case Imap => 1 case Smtp => 2 case Jmap => 3
  }

  function SecurityCode(s: TransportSecurity): byte {
    match s case ImplicitTls => 1 case StartTls => 2 case Https => 3
  }

  function CredentialKindCode(k: CredentialKind): byte {
    match k case Password => 1 case AppPassword => 2 case OAuth2 => 3
  }

  predicate ValidDisplayId(id: seq<byte>) {
    1 <= |id| <= 64 && forall x | x in id :: IsAlnum(x) || x == '-' as byte || x == '_' as byte
  }

  /** The byte position after the last `x`, if `x` occurs. */
  function AfterLast(b: seq<byte>, x: byte): (p: Option<nat>)
    ensures p.Some? ==> 0 < p.value <= |b| && b[p.value - 1] == x
  {
    if |b| == 0 then None
    else if b[|b| - 1] == x then Some(|b|)
    else AfterLast(b[..|b| - 1], x)
  }

  predicate ValidConfigEmail(email: Text) {
    match AfterLast(email, '@' as byte)
    case None => false
    case Some(p) =>
      && p - 1 > 0 && p < |email|
      && '.' as byte in email[p..]
      && |email| <= 320
      && !AnyWhitespace(email) && !AnyControl(email)
  }

  predicate ValidUsername(username: Text) {
    !IsBlank(username) && |username| <= 1024 && !AnyControl(username)
  }

  /** `split`: the pieces of `b` between occurrences of `x`. */
  function Split(b: seq<byte>, x: byte): (pieces: seq<seq<byte>>)
    ensures |pieces| >= 1
  {
    if |b| == 0 then [[]]
    else
      var rest := Split(b[1..], x);
      if b[0] == x then [[]] + rest else [[b[0]] + rest[0]] + rest[1..]
  }

  predicate ValidLabel(piece: seq<byte>) {
    && 1 <= |piece| <= 63
    && (forall x | x in piece :: IsAlnum(x) || x == '-' as byte)
    && IsAlnum(piece[0]) && IsAlnum(piece[|piece| - 1])
  }

  predicate ValidHost(env: Env, host: Text) {
    && 1 <= |host| <= 253 && IsTrimmed(host)
    && ((env.parseIp)(host).Some? || forall piece | piece in Split(host, '.' as byte) :: ValidLabel(piece))
  }

  predicate ValidEndpoint(env: Env, e: Endpoint, protocol: Protocol) {
    e.protocol == protocol && ValidHost(env, e.host) && e.port != 0 && !e.security.Https?
  }

  /** `MailAccountConfig::validate`; all its failures are `InvalidInput`. */
  predicate ValidConfig(env: Env, c: MailAccountConfig) {
    && ValidDisplayId(c.id)
    && ValidConfigEmail(c.email)
    && ValidUsername(c.username)
    && ValidEndpoint(env, c.incoming, Imap)
    && (c.outgoing.Some? ==> ValidEndpoint(env, c.outgoing.value, Smtp))
    && !c.credentialKind.OAuth2?
  }

  // ----- the account binding transcript -----

  function NormalizedHostBytes(env: Env, host: Text): Result<seq<byte>> {
    match (env.parseIp)(host)
    case Some(ip) => Ok([if ip.family.V4? then 2 else 3] + ip.canonical)
    case None =>
      if !IsAscii(host) then Err(InvalidInput) else Ok([1] + LowerAscii(host))
  }

  function OutgoingFields(env: Env, outgoing: Option<Endpoint>): Result<seq<Field>> {
    match outgoing
    case None => Ok([Field(0x21, []), Field(0x22, []), Field(0x23, []), Field(0x24, [])])
    case Some(e) =>
      var host :- NormalizedHostBytes(env, e.host);
      Ok([Field(0x21, [ProtocolCode(e.protocol)]), Field(0x22, host),
          Field(0x23, Be(e.port, 2)), Field(0x24, [SecurityCode(e.security)])])
  }

  function BindingFields(env: Env, c: MailAccountConfig): Result<seq<Field>> {
    var host :- NormalizedHostBytes(env, c.incoming.host);
    var outgoing :- OutgoingFields(env, c.outgoing);
    Ok([Field(0x01, c.email), Field(0x02, c.username), Field(0x03, [CredentialKindCode(c.credentialKind)]),
        Field(0x10, [ProtocolCode(c.incoming.protocol)]), Field(0x11, host),
        Field(0x12, Be(c.incoming.port, 2)), Field(0x13, [SecurityCode(c.incoming.security)]),
        Field(0x20, [if c.outgoing.Some? then 1 else 0])] + outgoing)
  }

  /** `AccountBinding::from_validated_config(..).canonical_bytes`. */
  function BindingBytes(env: Env, c: MailAccountConfig): Result<seq<byte>> {
    var fields :- BindingFields(env, c);
    EncodeFields(Domains.Bytes(Domains.AccountBinding), fields)
  }

  /** Hosts an account binding does not tell apart: spellings of one IP address,
      or DNS names equal up to ASCII case. */
  predicate SameHost(env: Env, a: Text, b: Text) {
    match ((env.parseIp)(a), (env.parseIp)(b))
    case (Some(x), Some(y)) => x == y
    case (None, None) => LowerAscii(a) == LowerAscii(b)
    case _ => false
  }

  predicate SameEndpoint(env: Env, a: Endpoint, b: Endpoint) {
    a.protocol == b.protocol && SameHost(env, a.host, b.host) && a.port == b.port && a.security == b.security
  }

  predicate SameBindingMaterial(env: Env, a: MailAccountConfig, b: MailAccountConfig) {
    && a.email == b.email && a.username == b.username && a.credentialKind == b.credentialKind
    && SameEndpoint(env, a.incoming, b.incoming)
    && match (a.outgoing, b.outgoing)
       case (None, None) => true
       case (Some(x), Some(y)) => SameEndpoint(env, x, y)
       case _ => false
  }

  lemma NormalizedHostExact(env: Env, a: Text, b: Text)
    requires NormalizedHostBytes(env, a).Ok? && NormalizedHostBytes(env, b).Ok?
    ensures NormalizedHostBytes(env, a) == NormalizedHostBytes(env, b) <==> SameHost(env, a, b)
  {
    var x, y := NormalizedHostBytes(env, a).value, NormalizedHostBytes(env, b).value;
    if x == y {
      assert x[0] == y[0] && x[1..] == y[1..];
      match ((env.parseIp)(a), (env.parseIp)(b)) {
        case (Some(p), Some(q)) => assert x[1..] == p.canonical && y[1..] == q.canonical;
        case (None, None) => assert x[1..] == LowerAscii(a) && y[1..] == LowerAscii(b);
        case _ =>
      }
    }
  }

  lemma PortExact(a: u16, b: u16)
    ensures Be(a, 2) == Be(b, 2) <==> a == b
  {
    Widths();
    FromBeBe(a, 2);
    FromBeBe(b, 2);
  }

  lemma U64Exact(a: u64, b: u64)
    ensures Be(a, 8) == Be(b, 8) <==> a == b
  {
    Widths();
    FromBeBe(a, 8);
    FromBeBe(b, 8);
  }

  lemma OutgoingExact(env: Env, a: Option<Endpoint>, b: Option<Endpoint>)
    requires OutgoingFields(env, a).Ok? && OutgoingFields(env, b).Ok?
    requires a.Some? <==> b.Some?
    ensures OutgoingFields(env, a) == OutgoingFields(env, b) <==>
      (a.Some? ==> SameEndpoint(env, a.value, b.value))
  {
    hide NormalizedHostBytes;
    hide SameHost;
    if a.Some? {
      var x, y := OutgoingFields(env, a).value, OutgoingFields(env, b).value;
      NormalizedHostExact(env, a.value.host, b.value.host);
      PortExact(a.value.port, b.value.port);
      if x == y {
        assert x[0].value == y[0].value && x[1].value == y[1].value
          && x[2].value == y[2].value && x[3].value == y[3].value;
        assert x[0].value[0] == y[0].value[0] && x[3].value[0] == y[3].value[0];
      }
    }
  }

  lemma BindingFieldsExact(env: Env, a: MailAccountConfig, b: MailAccountConfig)
    requires BindingFields(env, a).Ok? && BindingFields(env, b).Ok?
    ensures BindingFields(env, a) == BindingFields(env, b) <==> SameBindingMaterial(env, a, b)
  {
    hide NormalizedHostBytes;
    hide OutgoingFields;
    hide SameHost;
    var x, y := BindingFields(env, a).value, BindingFields(env, b).value;
    NormalizedHostExact(env, a.incoming.host, b.incoming.host);
    PortExact(a.incoming.port, b.incoming.port);
    if a.outgoing.Some? <==> b.outgoing.Some? {
      OutgoingExact(env, a.outgoing, b.outgoing);
    }
    assert x[8..] == OutgoingFields(env, a.outgoing).value && y[8..] == OutgoingFields(env, b.outgoing).value;
    if x == y {
      assert forall i | 0 <= i < 8 :: x[i].value == y[i].value;
      assert x[0].value == y[0].value && x[1].value == y[1].value
        && x[4].value == y[4].value && x[5].value == y[5].value;
      assert x[2].value[0] == y[2].value[0] && x[3].value[0] == y[3].value[0];
      assert x[6].value[0] == y[6].value[0] && x[7].value[0] == y[7].value[0];
    }
  }

  /** The binding transcript is injective modulo host normalisation: equal bytes
      exactly when the bound material is the same. */
  lemma BindingIsInjective(env: Env, a: MailAccountConfig, b: MailAccountConfig)
    requires BindingBytes(env, a).Ok? && BindingBytes(env, b).Ok?
    ensures BindingBytes(env, a) == BindingBytes(env, b) <==> SameBindingMaterial(env, a, b)
  {
    hide OutgoingFields;
    hide SameBindingMaterial;
    hide EncodeFields;
    BindingFieldsExact(env, a, b);
    if BindingBytes(env, a) == BindingBytes(env, b) {
      EncodingIsInjective(Domains.Bytes(Domains.AccountBinding), BindingFields(env, a).value,
        BindingFields(env, b).value);
    }
  }

  // ----- the configuration location transcript -----

  const MAX_LOCATION_COMPONENT_BYTES := 4096

  datatype Location =
    | Unix(parentDevice: u64, parentInode: u64, component: seq<byte>)
    | Windows(volumeSerial: u64, parentFileIndex: u64, componentUtf16: seq<u16>)

  /** UTF-16 units, little-endian. */
  function Utf16Le(units: seq<u16>): (b: seq<byte>)
    ensures |b| == 2 * |units|
  {
    if |units| == 0 then [] else [units[0] % 256, units[0] / 256] + Utf16Le(units[1..])
  }

  function LocationBytes(l: Location): Result<seq<byte>> {
    match l
    case Unix(device, inode, component) =>
      var _ :- Need(|component| > 0, InvalidInput);
      var _ :- Need(|component| <= MAX_LOCATION_COMPONENT_BYTES, ResourceLimit);
      EncodeFields(Domains.Bytes(Domains.ConfigLocation), LocationFields(l))
    case Windows(serial, index, units) =>
      var _ :- Need(|units| > 0, InvalidInput);
      var _ :- Need(2 * |units| <= MAX_LOCATION_COMPONENT_BYTES, ResourceLimit);
      EncodeFields(Domains.Bytes(Domains.ConfigLocation), LocationFields(l))
  }

  function LocationFields(l: Location): seq<Field> {
    match l
    case Unix(device, inode, component) =>
      [Field(0x01, [1]), Field(0x10, Be(device, 8)), Field(0x11, Be(inode, 8)), Field(0x12, component)]
    case Windows(serial, index, units) =>
      [Field(0x01, [2]), Field(0x20, Be(serial, 8)), Field(0x21, Be(index, 8)), Field(0x22, Utf16Le(units))]
  }

  lemma {:induction false} Utf16LeIsInjective(a: seq<u16>, b: seq<u16>)
    requires Utf16Le(a) == Utf16Le(b)
    ensures a == b
  {
    if |a| > 0 {
      var x, y := Utf16Le(a), Utf16Le(b);
      assert x[0] == y[0] && x[1] == y[1];
      assert x[2..] == Utf16Le(a[1..]) && y[2..] == Utf16Le(b[1..]);
      Utf16LeIsInjective(a[1..], b[1..]);
      assert a == [a[0]] + a[1..] && b == [b[0]] + b[1..];
    }
  }

  /** Unix and Windows locations share one injective transcript: different
      locations, of either kind, never have the same bytes. */
  lemma LocationIsInjective(a: Location, b: Location)
    requires LocationBytes(a).Ok? && LocationBytes(a) == LocationBytes(b)
    ensures a == b
  {
    hide EncodeFields;
    hide Be;
    var x, y := LocationFields(a), LocationFields(b);
    EncodingIsInjective(Domains.Bytes(Domains.ConfigLocation), x, y);
    assert x[0].value[0] == y[0].value[0];
    assert x[1].value == y[1].value && x[2].value == y[2].value && x[3].value == y[3].value;
    match a {
      case Unix(device, inode, _) =>
        U64Exact(device, b.parentDevice);
        U64Exact(inode, b.parentInode);
      case Windows(serial, index, units) =>
        U64Exact(serial, b.volumeSerial);
        U64Exact(index, b.parentFileIndex);
        Utf16LeIsInjective(units, b.componentUtf16);
    }
  }

  /** A location encodes exactly when its final component is non-empty and at
      most 4096 bytes long. */
  lemma LocationEncodesExactly(l: Location)
    ensures LocationBytes(l).Ok? <==>
      match l
      case Unix(_, _, component) => 1 <= |component| <= 4096
      case Windows(_, _, units) => 1 <= |units| <= 2048
  {
    hide EncodeFields;
    var fields := LocationFields(l);
    EncodeFieldsExact(Domains.Bytes(Domains.ConfigLocation), fields);
  }
}
