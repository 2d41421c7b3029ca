/** The lexical pass over a request document: one scan of the bytes with an
    explicit stack, before anything is deserialised. */
module Preflight {
  import opened Basics
  import opened Utf8
  import opened JsonText

  const MAX_DEPTH := 32
  const MAX_ITEMS := 500
  const MAX_MEMBERS := 128
  const MAX_NAME_BYTES := 128
  const MAX_RECIPIENTS := 50
  const MAX_ATTACHMENTS := 25
  const MAX_NESTED_ITEMS := 100
  const MAX_ATTACHMENT_BYTES := 1024 * 1024
  const MAX_TOTAL_ATTACHMENT_BYTES := 8 * 1024 * 1024
  const MAX_SUBJECT_CHARS := 998
  const MAX_BODY_CHARS := 262_144
  const MAX_REMOTE_VALUE_BYTES := 4096

  const OPEN_OBJECT: byte := 0x7B
  const CLOSE_OBJECT: byte := 0x7D
  const OPEN_ARRAY: byte := 0x5B
  const CLOSE_ARRAY: byte := 0x5D
  const COMMA: byte := 0x2C
  const COLON: byte := 0x3A

  /** A decoded member name. */
  type Name = seq<Scalar>

  function Named(s: string): (n: Name)
    ensures |n| == |s|
  {
    seq(|s|, i requires 0 <= i < |s| => if s[i] as int < 0xD800 then s[i] as int else 0)
  }

  /** A name is spelled as it is written, so different names differ. */
  lemma NamedSpells(s: string, t: string)
    requires forall i | 0 <= i < |s| :: s[i] < 128 as char
    requires forall i | 0 <= i < |t| :: t[i] < 128 as char
    ensures forall i | 0 <= i < |s| :: Named(s)[i] == s[i] as int
    ensures Named(s) == Named(t) <==> s == t
  {
    if Named(s) == Named(t) {
      forall i | 0 <= i < |s| ensures s[i] == t[i] {
        assert Named(s)[i] == s[i] as int && Named(t)[i] == t[i] as int;
      }
    }
  }

  datatype Shape =
    | SendShape | DraftShape | SearchShape | SyncShape | LocalSearchShape | MailboxOperationShape
    | AttachmentReadShape | MessageReadShape | ProofShape

  // ----- what depends on a name -----

  predicate Is(key: Name, s: string) { key == Named(s) }

  function CharLimit(shape: Shape, key: Name): nat {
    var search := shape.SearchShape? || shape.LocalSearchShape?;
    if Is(key, "subject") then if search then 1024 else MAX_SUBJECT_CHARS
    else if (Is(key, "from") || Is(key, "to")) && search then 1024
    else if Is(key, "text") then if search then 1024 else MAX_BODY_CHARS
    else if Is(key, "html") || Is(key, "sanitized_html") then MAX_BODY_CHARS
    else if Is(key, "name") then 256
    else if Is(key, "email") then 320
    else if Is(key, "filename") then 255
    else if Is(key, "mime_type") then 127
    else if Is(key, "account_id") then 64
    else if Is(key, "mailbox") || Is(key, "destination") then 4096
    else if Is(key, "part_id") then 128
    else if Is(key, "message_id") || Is(key, "in_reply_to") then MAX_SUBJECT_CHARS
    else if Is(key, "signature_base64url") then 86
    else if Is(key, "content_base64") then 4 * ((MAX_ATTACHMENT_BYTES + 2) / 3)
    else Max(MAX_REMOTE_VALUE_BYTES, MAX_BODY_CHARS)
  }

  function Max(a: nat, b: nat): nat { if a < b then b else a }

  predicate IsRecipientKey(key: Option<Name>) {
    key == Some(Named("to")) || key == Some(Named("cc")) || key == Some(Named("bcc"))
  }

  function ItemLimit(key: Option<Name>, topLevel: bool): (n: nat)
    ensures 1 <= n <= MAX_ITEMS
  {
    if IsRecipientKey(key) then MAX_RECIPIENTS
    else if key == Some(Named("attachments")) && topLevel then MAX_ATTACHMENTS
    else if key == Some(Named("attachments")) || key == Some(Named("from")) || key == Some(Named("reply_to"))
      || key == Some(Named("references")) then MAX_NESTED_ITEMS
    else MAX_ITEMS
  }

  // ----- the scanner's state -----

  datatype Container =
    | Object(members: nat)
    | Array(field: Option<Name>, items: nat, maximum: nat, recipients: bool)

  /** The last name read, and the two running totals. */
  datatype Totals = Totals(key: Option<Name>, attachments: nat, recipients: nat)

  /** The innermost container is the last of the stack. */
  datatype Lex = Lex(stack: seq<Container>, totals: Totals)

  const START := Lex([], Totals(None, 0, 0))

  function Push(st: Lex, c: Container): Lex { st.(stack := st.stack + [c]) }

  function Popped(st: Lex): Lex
    requires st.stack != []
  {
    st.(stack := st.stack[..|st.stack| - 1])
  }

  function Top(st: Lex): Container
    requires st.stack != []
  {
    st.stack[|st.stack| - 1]
  }

  function WithTop(st: Lex, c: Container): Lex
    requires st.stack != []
  {
    st.(stack := st.stack[..|st.stack| - 1] + [c])
  }

  predicate IsSpace(x: byte) { x == 0x20 || x == 0x0A || x == 0x0D || x == 0x09 }

  function SkipSpace(b: seq<byte>): seq<byte> {
    if |b| > 0 && IsSpace(b[0]) then SkipSpace(b[1..]) else b
  }

  /** The next byte that is not whitespace is `x`. */
  predicate NextIs(b: seq<byte>, x: byte) {
    var rest := SkipSpace(b);
    |rest| > 0 && rest[0] == x
  }

  method SkipWhitespace(bytes: seq<byte>, start: nat) returns (cursor: nat)
    requires start <= |bytes|
    ensures start <= cursor <= |bytes| && bytes[cursor..] == SkipSpace(bytes[start..])
  {
    cursor := start;
    while cursor < |bytes| && IsSpace(bytes[cursor])
      invariant start <= cursor <= |bytes|
      invariant SkipSpace(bytes[start..]) == SkipSpace(bytes[cursor..])
    {
      assert bytes[cursor..][1..] == bytes[cursor + 1..];
      cursor := cursor + 1;
    }
  }

  /** A string value under the last name read. */
  function StringValue(shape: Shape, t: Totals, raw: seq<byte>): Result<Totals> {
    if t.key.None? then Ok(t)
    else
      var key := t.key.value;
      var characters :- CountChars(raw);
      var maximum := CharLimit(shape, key);
      var _ :- Need(characters <= maximum && |raw| <= maximum * 12, ResourceLimit);
      if key != Named("content_base64") then Ok(t)
      else
        var _ :- Need(BACKSLASH !in raw, InvalidInput);
        var decoded :- Base64Length(raw);
        var _ :- Need(decoded <= MAX_ATTACHMENT_BYTES, ResourceLimit);
        var _ :- Need(t.attachments + decoded <= MAX_TOTAL_ATTACHMENT_BYTES, ResourceLimit);
        Ok(t.(attachments := t.attachments + decoded))
  }

  function OpenedArray(t: Totals, depth: nat, empty: bool): Container {
    var topLevel := depth == 1;
    Array(t.key, if empty then 0 else 1, ItemLimit(t.key, topLevel), topLevel && IsRecipientKey(t.key))
  }

  function ClosedArray(t: Totals, c: Container): Result<Totals>
    requires c.Array?
  {
    var _ :- Need(c.items <= c.maximum, ResourceLimit);
    if c.recipients && IsRecipientKey(c.field) then
      var _ :- Need(t.recipients + c.items <= MAX_RECIPIENTS, ResourceLimit);
      Ok(t.(recipients := t.recipients + c.items))
    else Ok(t)
  }

  function ReadName(raw: seq<byte>): Result<Name> {
    var _ :- Need(|raw| <= MAX_NAME_BYTES, ResourceLimit);
    var name := DecodeString(raw);
    if name.None? then Err(InvalidInput) else Ok(name.value)
  }

  /** A member name: it becomes the current one, and counts in its object. */
  function MemberName(st: Lex, raw: seq<byte>): Result<Lex> {
    var name :- ReadName(raw);
    var named := st.(totals := st.totals.(key := Some(name)));
    if st.stack == [] || !Top(st).Object? then Ok(named)
    else
      var _ :- Need(Top(st).members + 1 <= MAX_MEMBERS, ResourceLimit);
      Ok(WithTop(named, Object(Top(st).members + 1)))
  }

  datatype Moved = Moved(st: Lex, width: nat)

  /** One round of the scanning loop: the new state and the bytes consumed. */
  function Step(shape: Shape, b: seq<byte>, st: Lex): (r: Result<Moved>)
    requires |b| > 0
    ensures r.Ok? ==> 1 <= r.value.width <= |b|
  {
    if b[0] == OPEN_OBJECT then
      var _ :- Need(|st.stack| + 1 <= MAX_DEPTH, InputNestingLimit);
      Ok(Moved(Push(st, Object(0)), 1))
    else if b[0] == OPEN_ARRAY then
      var _ :- Need(|st.stack| + 1 <= MAX_DEPTH, InputNestingLimit);
      Ok(Moved(Push(st, OpenedArray(st.totals, |st.stack|, NextIs(b[1..], CLOSE_ARRAY))), 1))
    else if b[0] == CLOSE_OBJECT then
      var _ :- Need(st.stack != [] && Top(st).Object?, InvalidInput);
      Ok(Moved(Popped(st), 1))
    else if b[0] == CLOSE_ARRAY then
      var _ :- Need(st.stack != [] && Top(st).Array?, InvalidInput);
      var totals :- ClosedArray(st.totals, Top(st));
      Ok(Moved(Popped(st).(totals := totals), 1))
    else if b[0] == COMMA then
      if st.stack == [] || !Top(st).Array? then Ok(Moved(st, 1))
      else
        var _ :- Need(Top(st).items + 1 <= Top(st).maximum, ResourceLimit);
        Ok(Moved(WithTop(st, Top(st).(items := Top(st).items + 1)), 1))
    else if b[0] == QUOTE then
      var n :- StringEnd(b[1..], false);
      var raw := b[1..][..n];
      if NextIs(b[1..][n + 1..], COLON) then
        var named :- MemberName(st, raw);
        Ok(Moved(named, n + 2))
      else
        var totals :- StringValue(shape, st.totals, raw);
        Ok(Moved(st.(totals := totals), n + 2))
    else Ok(Moved(st, 1))
  }

  /** `lexical_preflight` from a position and a state. */
  function Scan(shape: Shape, b: seq<byte>, st: Lex): Result<()>
    decreases |b|
  {
    if |b| == 0 then Need(st.stack == [], InputDocumentIncomplete)
    else
      var moved :- Step(shape, b, st);
      Scan(shape, b[moved.width..], moved.st)
  }

  lemma ScanRound(shape: Shape, bytes: seq<byte>, cursor: nat, st: Lex)
    requires cursor < |bytes|
    ensures var step := Step(shape, bytes[cursor..], st);
      Scan(shape, bytes[cursor..], st) ==
        if step.Err? then Err(step.error) else Scan(shape, bytes[cursor + step.value.width..], step.value.st)
  {
    hide Step;
    var step := Step(shape, bytes[cursor..], st);
    if step.Ok? {
      assert bytes[cursor..][step.value.width..] == bytes[cursor + step.value.width..];
    }
  }

  lemma ScanDone(shape: Shape, bytes: seq<byte>, st: Lex)
    ensures Scan(shape, bytes[|bytes|..], st) == Need(st.stack == [], InputDocumentIncomplete)
  {
  }

  // ----- the pass as the source runs it -----

  /** The string case of the loop: where the string ends, and the state after it. */
  method ScanStringToken(bytes: seq<byte>, cursor: nat, shape: Shape, st: Lex) returns (r: Result<Moved>)
    requires cursor < |bytes| && bytes[cursor] == QUOTE
    ensures r == Step(shape, bytes[cursor..], st)
  {
    hide StringEnd; hide MemberName; hide StringValue; hide NextIs;
    ghost var b := bytes[cursor..];
    assert b[1..] == bytes[cursor + 1..];
    var found := ScanJsonString(bytes, cursor);
    if found.Err? { return Err(found.error); }
    var end, hasEscape := found.value.0, found.value.1;
    var raw := bytes[cursor + 1..end];
    ghost var n := end - cursor - 1;
    assert raw == b[1..][..n];
    assert bytes[end + 1..] == b[1..][n + 1..];
    var next := SkipWhitespace(bytes, end + 1);
    assert (next < |bytes| && bytes[next] == COLON) <==>
      NextIs(bytes[end + 1..], COLON) by { NextByte(bytes, end + 1, next); }
    if next < |bytes| && bytes[next] == COLON {
      var named := MemberName(st, raw);
      if named.Err? { return Err(named.error); }
      return Ok(Moved(named.value, end + 1 - cursor));
    }
    var totals := CheckStringValue(shape, st.totals, raw, hasEscape);
    if totals.Err? { return Err(totals.error); }
    return Ok(Moved(st.(totals := totals.value), end + 1 - cursor));
  }

  lemma NextByte(bytes: seq<byte>, start: nat, next: nat)
    requires start <= next <= |bytes| && bytes[next..] == SkipSpace(bytes[start..])
    ensures forall x :: (next < |bytes| && bytes[next] == x) <==> NextIs(bytes[start..], x)
  {
    assert next < |bytes| ==> bytes[next..][0] == bytes[next];
  }

  /** The checks on one string value, with the escape flag the scan already has. */
  method CheckStringValue(shape: Shape, t: Totals, raw: seq<byte>, hasEscape: bool) returns (r: Result<Totals>)
    requires hasEscape <==> BACKSLASH in raw
    ensures r == StringValue(shape, t, raw)
  {
    hide CharLimit; hide Named; hide CountChars; hide Base64Length;
    if t.key.None? { return Ok(t); }
    var key := t.key.value;
    var characters := DecodedJsonStringChars(raw);
    if characters.Err? { return Err(characters.error); }
    var maximum := CharLimit(shape, key);
    if characters.value > maximum || |raw| > maximum * 12 { return Err(ResourceLimit); }
    if key == Named("content_base64") {
      if hasEscape { return Err(InvalidInput); }
      var decoded := Base64Length(raw);
      if decoded.Err? { return Err(decoded.error); }
      if decoded.value > MAX_ATTACHMENT_BYTES { return Err(ResourceLimit); }
      var total := t.attachments + decoded.value;
      if total > MAX_TOTAL_ATTACHMENT_BYTES { return Err(ResourceLimit); }
      return Ok(t.(attachments := total));
    }
    return Ok(t);
  }

  /** Whether an opening bracket is directly followed by the closing one. */
  method LooksEmpty(bytes: seq<byte>, cursor: nat) returns (empty: bool)
    requires cursor < |bytes|
    ensures empty == NextIs(bytes[cursor..][1..], CLOSE_ARRAY)
  {
    assert bytes[cursor..][1..] == bytes[cursor + 1..];
    var next := SkipWhitespace(bytes, cursor + 1);
    NextByte(bytes, cursor + 1, next);
    empty := next < |bytes| && bytes[next] == CLOSE_ARRAY;
  }

  /** The loop: cursor, depth, stack and totals, with the depth counter equal to
      the height of the stack throughout. */
  method LexicalPreflight(bytes: seq<byte>, shape: Shape) returns (r: Result<()>)
    ensures r == Scan(shape, bytes, START)
  {
    hide Scan; hide StringValue; hide MemberName; hide NextIs; hide StringEnd; hide OpenedArray; hide ClosedArray;
    var cursor, depth: nat := 0, 0;
    var containers: seq<Container> := [];
    var totals := Totals(None, 0, 0);
    assert bytes[0..] == bytes;
    while cursor < |bytes|
      invariant cursor <= |bytes|
      invariant depth == |containers| <= MAX_DEPTH
      invariant Scan(shape, bytes, START) == Scan(shape, bytes[cursor..], Lex(containers, totals))
      decreases |bytes| - cursor
    {
      ghost var st := Lex(containers, totals);
      ScanRound(shape, bytes, cursor, st);
      var byte := bytes[cursor];
      if byte == OPEN_OBJECT {
        depth := depth + 1;
        if depth > MAX_DEPTH { return Err(InputNestingLimit); }
        containers := containers + [Object(0)];
        cursor := cursor + 1;
      } else if byte == OPEN_ARRAY {
        depth := depth + 1;
        if depth > MAX_DEPTH { return Err(InputNestingLimit); }
        var empty := LooksEmpty(bytes, cursor);
        containers := containers + [OpenedArray(totals, |containers|, empty)];
        cursor := cursor + 1;
      } else if byte == CLOSE_OBJECT {
        depth := if depth > 0 then depth - 1 else 0;
        if containers == [] || !containers[|containers| - 1].Object? { return Err(InvalidInput); }
        containers := containers[..|containers| - 1];
        cursor := cursor + 1;
      } else if byte == CLOSE_ARRAY {
        depth := if depth > 0 then depth - 1 else 0;
        if containers == [] || !containers[|containers| - 1].Array? { return Err(InvalidInput); }
        var closed := ClosedArray(totals, containers[|containers| - 1]);
        if closed.Err? { return Err(closed.error); }
        containers, totals := containers[..|containers| - 1], closed.value;
        cursor := cursor + 1;
      } else if byte == COMMA {
        if containers != [] && containers[|containers| - 1].Array? {
          var top := containers[|containers| - 1];
          if top.items + 1 > top.maximum { return Err(ResourceLimit); }
          containers := containers[..|containers| - 1] + [top.(items := top.items + 1)];
        }
        cursor := cursor + 1;
      } else if byte == QUOTE {
        var token := ScanStringToken(bytes, cursor, shape, Lex(containers, totals));
        if token.Err? { return Err(token.error); }
        assert |token.value.st.stack| == |containers| by { StringKeepsDepth(shape, bytes[cursor..], st); }
        containers, totals := token.value.st.stack, token.value.st.totals;
        cursor := cursor + token.value.width;
      } else {
        cursor := cursor + 1;
      }
    }
    ScanDone(shape, bytes, Lex(containers, totals));
    return if containers == [] then Ok(()) else Err(InputDocumentIncomplete);
  }

  lemma StringKeepsDepth(shape: Shape, b: seq<byte>, st: Lex)
    requires |b| > 0 && b[0] == QUOTE && Step(shape, b, st).Ok?
    ensures |Step(shape, b, st).value.st.stack| == |st.stack|
  {
  }
}
