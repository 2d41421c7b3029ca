/** What the text validators accept, said of the characters and pieces of a text
    rather than of the way the validators look for them. */
module TextRules {
  import opened Basics
  import opened Utf8
  import opened Accounts
  import opened ManifestTypes
  import opened SendCodec

  // ----- characters -----

  /** The Unicode scalars of a text. */
  function Scalars(t: Text): seq<int> { Decode(t).value }

  /** No C0 control, DEL or C1 control. */
  predicate Printable(t: Text) {
    forall i | 0 <= i < |Scalars(t)| :: var c := Scalars(t)[i]; c >= 0x20 && !(0x7F <= c < 0xA0)
  }

  /** The Unicode White_Space scalars. */
  const SPACES: set<int> := {
    0x09, 0x0A, 0x0B, 0x0C, 0x0D, 0x20, 0x85, 0xA0, 0x1680, 0x2000, 0x2001, 0x2002, 0x2003, 0x2004, 0x2005, 0x2006,
    0x2007, 0x2008, 0x2009, 0x200A, 0x2028, 0x2029, 0x202F, 0x205F, 0x3000}

  lemma SpacesAreWhitespace(c: Scalar)
    ensures IsWhitespace(c) <==> c in SPACES
  {
  }

  predicate Solid(t: Text) { forall i | 0 <= i < |Scalars(t)| :: Scalars(t)[i] !in SPACES }

  lemma ClassesAreExact(t: Text)
    ensures !AnyControl(t) <==> Printable(t)
    ensures !AnyWhitespace(t) <==> Solid(t)
    ensures !IsBlank(t) <==> exists i | 0 <= i < |Scalars(t)| :: Scalars(t)[i] !in SPACES
    ensures IsTrimmed(t) <==>
      var s := Scalars(t); |s| == 0 || (s[0] !in SPACES && s[|s| - 1] !in SPACES)
    ensures CharCount(t) == |Scalars(t)|
  {
    hide IsWhitespace; hide Decode;
    forall c: Scalar ensures IsWhitespace(c) <==> c in SPACES { SpacesAreWhitespace(c); }
    var s: seq<Scalar> := Chars(t);
    assert forall i | 0 <= i < |s| :: s[i] in s && s[i] == Scalars(t)[i];
  }

  // ----- addresses -----

  /** `local@domain`, with one `@` and a dot in the domain. */
  predicate IsMailbox(email: seq<byte>, at: nat) {
    && 1 <= at && at + 1 < |email| && email[at] == '@' as byte
    && (forall i | 0 <= i < |email| && email[i] == '@' as byte :: i == at)
    && exists i | at < i < |email| :: email[i] == '.' as byte
  }

  lemma {:induction false} LastIs(b: seq<byte>, x: byte)
    ensures AfterLast(b, x).None? <==> x !in b
    ensures AfterLast(b, x).Some? ==> forall i | AfterLast(b, x).value <= i < |b| :: b[i] != x
  {
    if |b| > 0 && b[|b| - 1] != x {
      LastIs(b[..|b| - 1], x);
      assert b == b[..|b| - 1] + [b[|b| - 1]];
    }
  }

  /** The validator wants exactly one `@` with something on both sides, a dot after
      it, at most 320 bytes, and neither spaces nor controls. */
  lemma EmailIsExact(email: Text)
    ensures ValidEmail(email) <==>
      (exists at: nat :: IsMailbox(email, at)) && |email| <= 320 && Solid(email) && Printable(email)
  {
    hide Decode; hide Solid; hide Printable;
    ClassesAreExact(email);
    LastIs(email, '@' as byte);
    var last := AfterLast(email, '@' as byte);
    if at: nat :| IsMailbox(email, at) {
      assert last.Some? && last.value == at + 1;
      assert '@' as byte !in email[..at];
      var i :| at < i < |email| && email[i] == '.' as byte;
      assert email[at + 1..][i - at - 1] == '.' as byte;
    }
    if ValidEmail(email) {
      var p := last.value;
      var j :| 0 <= j < |email[p..]| && email[p..][j] == '.' as byte;
      assert email[p + j] == '.' as byte;
      assert forall i | 0 <= i < p - 1 :: email[i] in email[..p - 1];
      assert IsMailbox(email, p - 1);
    }
  }

  // ----- hosts -----

  function Join(pieces: seq<seq<byte>>, x: byte): seq<byte>
    requires |pieces| >= 1
  {
    if |pieces| == 1 then pieces[0] else pieces[0] + [x] + Join(pieces[1..], x)
  }

  lemma {:induction false} SplitJoins(b: seq<byte>, x: byte)
    ensures Join(Split(b, x), x) == b && forall p | p in Split(b, x) :: x !in p
  {
    if |b| > 0 {
      SplitJoins(b[1..], x);
      var rest := Split(b[1..], x);
      assert b == [b[0]] + b[1..];
      if b[0] == x {
        assert ([[]] + rest)[1..] == rest;
      } else {
        assert ([[b[0]] + rest[0]] + rest[1..])[1..] == rest[1..];
        assert rest == [rest[0]] + rest[1..];
      }
    }
  }

  lemma {:induction false} JoinSplits(pieces: seq<seq<byte>>, x: byte)
    requires |pieces| >= 1 && forall p | p in pieces :: x !in p
    ensures Split(Join(pieces, x), x) == pieces
    decreases |Join(pieces, x)|
  {
    var b, head, rest := Join(pieces, x), pieces[0], pieces[1..];
    assert pieces == [head] + rest;
    if |head| == 0 {
      if |pieces| > 1 {
        assert b[1..] == Join(rest, x);
        JoinSplits(rest, x);
      }
    } else {
      var shorter := [head[1..]] + rest;
      assert head == [head[0]] + head[1..] && head in pieces && head[0] in head;
      assert shorter[1..] == rest;
      assert b[1..] == Join(shorter, x);
      JoinSplits(shorter, x);
    }
  }

  /** Splitting finds the one way to read a text as pieces joined by a separator
      that none of them holds. */
  lemma SplitIsExact(b: seq<byte>, x: byte, pieces: seq<seq<byte>>)
    requires |pieces| >= 1
    ensures Split(b, x) == pieces <==> Join(pieces, x) == b && forall p | p in pieces :: x !in p
  {
    SplitJoins(b, x);
    if Join(pieces, x) == b && forall p | p in pieces :: x !in p {
      JoinSplits(pieces, x);
    }
  }

  predicate IsLetterOrDigit(x: byte) {
    '0' as byte <= x <= '9' as byte || 'A' as byte <= x <= 'Z' as byte || 'a' as byte <= x <= 'z' as byte
  }

  /** A DNS label: 1 to 63 letters, digits and hyphens, with no hyphen at either end. */
  predicate IsLabel(l: seq<byte>) {
    && 1 <= |l| <= 63 && l[0] != '-' as byte && l[|l| - 1] != '-' as byte
    && forall i | 0 <= i < |l| :: IsLetterOrDigit(l[i]) || l[i] == '-' as byte
  }

  ghost predicate IsDnsName(host: seq<byte>) {
    exists labels: seq<seq<byte>> :: |labels| >= 1 && Join(labels, '.' as byte) == host
      && forall l | l in labels :: IsLabel(l)
  }

  lemma LabelIsExact(l: seq<byte>)
    ensures ValidLabel(l) <==> IsLabel(l)
    ensures IsLabel(l) ==> '.' as byte !in l
  {
    assert forall i | 0 <= i < |l| :: l[i] in l;
  }

  /** A host is at most 253 bytes, has no space at either end, and is an address
      literal or dot-separated labels. */
  lemma HostIsExact(env: Env, host: Text)
    ensures ValidHost(env, host) <==>
      && 1 <= |host| <= 253 && IsTrimmed(host)
      && ((env.parseIp)(host).Some? || IsDnsName(host))
  {
    hide IsTrimmed; hide ValidLabel; hide IsLabel; hide Split;
    forall l: seq<byte> ensures ValidLabel(l) <==> IsLabel(l) { LabelIsExact(l); }
    SplitJoins(host, '.' as byte);
    if IsDnsName(host) {
      var labels: seq<seq<byte>> :| |labels| >= 1 && Join(labels, '.' as byte) == host
        && forall l | l in labels :: IsLabel(l);
      forall l | l in labels ensures '.' as byte !in l { LabelIsExact(l); }
      SplitIsExact(host, '.' as byte, labels);
    }
  }

  // ----- MIME types -----

  /** `type/subtype`, with letters, digits, `+`, `-` and `.` around the one slash. */
  predicate IsMimeType(m: seq<byte>, slash: nat) {
    && 1 <= slash && slash + 1 < |m| && m[slash] == '/' as byte
    && forall i | 0 <= i < |m| && i != slash ::
         IsLetterOrDigit(m[i]) || m[i] in ['+' as byte, '-' as byte, '.' as byte]
  }

  lemma MimeByteIsExact(x: byte)
    ensures IsMimeByte(x) <==> IsLetterOrDigit(x) || x in ['+' as byte, '-' as byte, '.' as byte]
  {
  }

  lemma TwoPieces(a: seq<byte>, b: seq<byte>)
    ensures Join([a, b], '/' as byte) == a + ['/' as byte] + b
  {
    assert [a, b][1..] == [b];
  }

  lemma SlashInside(m: seq<byte>, slash: nat)
    requires IsMimeType(m, slash)
    ensures 1 <= slash && slash + 1 < |m|
  {
  }

  lemma TypeOfPieces(m: seq<byte>, a: seq<byte>, b: seq<byte>)
    requires m == a + ['/' as byte] + b && |a| > 0 && |b| > 0
    requires (forall x | x in a :: IsMimeByte(x)) && forall x | x in b :: IsMimeByte(x)
    ensures IsMimeType(m, |a|)
  {
    hide IsMimeByte; hide IsLetterOrDigit;
    forall i | 0 <= i < |m| && i != |a|
      ensures IsLetterOrDigit(m[i]) || m[i] in ['+' as byte, '-' as byte, '.' as byte]
    {
      assert if i < |a| then m[i] in a else m[i] in b;
      MimeByteIsExact(m[i]);
    }
  }

  lemma PiecesOfType(m: seq<byte>, slash: nat, a: seq<byte>, b: seq<byte>)
    requires IsMimeType(m, slash) && a == m[..slash] && b == m[slash + 1..]
    ensures m == a + ['/' as byte] + b && |a| > 0 && |b| > 0
    ensures (forall x | x in a :: IsMimeByte(x)) && forall x | x in b :: IsMimeByte(x)
    ensures forall p | p in [a, b] :: '/' as byte !in p
  {
    hide IsMimeByte; hide IsLetterOrDigit;
    forall i | 0 <= i < |m| && i != slash ensures IsMimeByte(m[i]) { MimeByteIsExact(m[i]); }
    assert !IsMimeByte('/' as byte) by { SlashIsNoMimeByte(); }
    assert forall i | 0 <= i < |a| :: a[i] == m[i];
    assert forall i | 0 <= i < |b| :: b[i] == m[slash + 1 + i];
  }

  lemma SlashIsNoMimeByte()
    ensures !IsMimeByte('/' as byte)
  {
  }

  lemma MimeIsExact(mime: Text)
    ensures ValidMime(mime) <==> exists slash: nat :: IsMimeType(mime, slash)
  {
    hide Split; hide IsMimeType; hide IsMimeByte; hide Join;
    SplitJoins(mime, '/' as byte);
    var pieces := Split(mime, '/' as byte);
    if ValidMime(mime) {
      TwoPieces(pieces[0], pieces[1]);
      assert pieces == [pieces[0], pieces[1]];
      TypeOfPieces(mime, pieces[0], pieces[1]);
    }
    if slash: nat :| IsMimeType(mime, slash) {
      SlashInside(mime, slash);
      var left, right := mime[..slash], mime[slash + 1..];
      TwoPieces(left, right);
      PiecesOfType(mime, slash, left, right);
      SplitIsExact(mime, '/' as byte, [left, right]);
    }
  }
  // ----- message identifiers and boundaries -----

  lemma TokensAreExact(t: Text)
    ensures ValidMessageId(t) <==>
      && 3 <= |t| <= 998 && t[0] == '<' as byte && t[|t| - 1] == '>' as byte
      && forall i | 0 <= i < |t| :: '!' as byte <= t[i] <= '~' as byte
    ensures ValidAsciiToken(t) <==> 1 <= |t| <= 256 && forall i | 0 <= i < |t| :: '!' as byte <= t[i] <= '~' as byte
  {
  }

  lemma DisplayIdIsExact(id: seq<byte>)
    ensures ValidDisplayId(id) <==>
      && 1 <= |id| <= 64
      && forall i | 0 <= i < |id| :: IsLetterOrDigit(id[i]) || id[i] in ['-' as byte, '_' as byte]
  {
    assert forall i | 0 <= i < |id| :: id[i] in id;
  }
}
