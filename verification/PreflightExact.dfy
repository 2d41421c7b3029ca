/** Which documents the pass accepts, read off the document's own parts: no scan,
    no stack, and none of the checks the pass is made of. */
module PreflightExact {
  import opened Basics
  import opened Utf8
  import opened JsonText
  import opened Preflight
  import opened PreflightTree

  // ----- the parts of a document -----

  /** A member name; a container inside `depth` others; a string value. Lists and
      strings stand under the last member name before them. */
  datatype Part =
    | NamePart(raw: seq<byte>)
    | ObjectPart(depth: nat, members: nat)
    | ListPart(depth: nat, key: Option<Name>, items: nat)
    | TextPart(key: Option<Name>, raw: seq<byte>)

  /** The last member name up to the end of a value. */
  function KeyAfter(v: Json, key: Option<Name>): Option<Name>
    decreases v
  {
    match v
    case Arr(elems) => ElemsKey(elems, key)
    case Obj(members) => MembersKey(members)
    case _ => key
  }

  function ElemsKey(es: Elems, key: Option<Name>): Option<Name>
    decreases es
  {
    var next := KeyAfter(es.value, key);
    if es.LastElem? then next else ElemsKey(es.rest, next)
  }

  function MembersKey(ms: Members): Option<Name>
    decreases ms
  {
    if ms.LastMember? then KeyAfter(ms.value, DecodeString(ms.name)) else MembersKey(ms.rest)
  }

  /** All parts of a value, in document order. */
  function Parts(v: Json, depth: nat, key: Option<Name>): seq<Part>
    decreases v
  {
    match v
    case Atom(_) => []
    case Str(raw) => [TextPart(key, raw)]
    case EmptyArr(_) => [ListPart(depth, key, 0)]
    case EmptyObj(_) => [ObjectPart(depth, 0)]
    case Arr(elems) => [ListPart(depth, key, ElemCount(elems))] + ElemParts(elems, depth + 1, key)
    case Obj(members) => [ObjectPart(depth, MemberCount(members))] + MemberParts(members, depth + 1)
  }

  function ElemParts(es: Elems, depth: nat, key: Option<Name>): seq<Part>
    decreases es
  {
    Parts(es.value, depth, key) + if es.LastElem? then [] else ElemParts(es.rest, depth, KeyAfter(es.value, key))
  }

  function MemberParts(ms: Members, depth: nat): seq<Part>
    decreases ms
  {
    [NamePart(ms.name)] + Parts(ms.value, depth, DecodeString(ms.name))
      + if ms.LastMember? then [] else MemberParts(ms.rest, depth)
  }

  // ----- the limits, as tables -----

  predicate OneOf(key: Option<Name>, names: seq<Name>) { key.Some? && key.value in names }

  predicate Called(key: Name, s: string) { key == Named(s) }

  /** How many characters a string under a name may have. */
  function MostChars(shape: Shape, key: Name): nat {
    if shape in [SearchShape, LocalSearchShape]
      && (Called(key, "subject") || Called(key, "from") || Called(key, "to") || Called(key, "text")) then 1024
    else if Called(key, "subject") then 998
    else if Called(key, "text") || Called(key, "html") || Called(key, "sanitized_html") then 262_144
    else if Called(key, "name") then 256
    else if Called(key, "email") then 320
    else if Called(key, "filename") then 255
    else if Called(key, "mime_type") then 127
    else if Called(key, "account_id") then 64
    else if Called(key, "mailbox") || Called(key, "destination") then 4096
    else if Called(key, "part_id") then 128
    else if Called(key, "message_id") || Called(key, "in_reply_to") then 998
    else if Called(key, "signature_base64url") then 86
    else if Called(key, "content_base64") then 1_398_104
    else 262_144
  }

  /** How many items a list under a name may have; `topLevel` is directly inside
      the outermost container. */
  function MostItems(key: Option<Name>, topLevel: bool): nat {
    if OneOf(key, [Named("to"), Named("cc"), Named("bcc")]) then 50
    else if topLevel && OneOf(key, [Named("attachments")]) then 25
    else if OneOf(key, [Named("attachments"), Named("from"), Named("reply_to"), Named("references")]) then 100
    else 500
  }

  predicate IsContent(key: Option<Name>) { OneOf(key, [Named("content_base64")]) }

  predicate NamesRecipients(key: Option<Name>) { OneOf(key, [Named("to"), Named("cc"), Named("bcc")]) }

  // ----- when a part is in order -----

  predicate TooDeep(p: Part) { (p.ObjectPart? || p.ListPart?) && p.depth >= 32 }

  /** A name or a string under a name that does not decode, or a `content_base64`
      that has an escape or is no Base64. */
  predicate Malformed(p: Part) {
    match p
    case NamePart(raw) => DecodeString(raw).None?
    case TextPart(key, raw) =>
      key.Some? && (DecodeString(raw).None? || (IsContent(key) && (BACKSLASH in raw || DecodeBase64(raw).None?)))
    case _ => false
  }

  predicate Oversized(shape: Shape, p: Part) {
    match p
    case NamePart(raw) => |raw| > 128
    case ObjectPart(_, members) => members > 128
    case ListPart(depth, key, items) => items > MostItems(key, depth == 1)
    case TextPart(key, raw) =>
      key.Some? && (
        || (DecodeString(raw).Some? && |DecodeString(raw).value| > MostChars(shape, key.value))
        || |raw| > 12 * MostChars(shape, key.value)
        || (IsContent(key) && DecodeBase64(raw).Some? && |DecodeBase64(raw).value| > 1_048_576))
  }

  predicate PartOk(shape: Shape, p: Part) { !TooDeep(p) && !Malformed(p) && !Oversized(shape, p) }

  /** The decoded bytes of all `content_base64` strings. */
  function ContentBytes(ps: seq<Part>): nat {
    if |ps| == 0 then 0
    else ContentBytes(ps[..|ps| - 1]) + PartBytes(ps[|ps| - 1])
  }

  function PartBytes(p: Part): nat { if p.TextPart? && IsContent(p.key) then DecodedSize(p.raw) else 0 }

  /** The items of the recipient lists directly inside the outermost container. */
  function Recipients(ps: seq<Part>): nat {
    if |ps| == 0 then 0
    else Recipients(ps[..|ps| - 1]) + PartRecipients(ps[|ps| - 1])
  }

  function PartRecipients(p: Part): nat {
    if p.ListPart? && p.depth == 1 && NamesRecipients(p.key) then p.items else 0
  }

  predicate AllOk(shape: Shape, ps: seq<Part>) { forall i | 0 <= i < |ps| :: PartOk(shape, ps[i]) }

  /** The parts fit, on top of what `t` has counted. */
  predicate Fits(shape: Shape, ps: seq<Part>, t: Totals) {
    AllOk(shape, ps) && t.attachments + ContentBytes(ps) <= 8_388_608 && t.recipients + Recipients(ps) <= 50
  }

  function Counted(ps: seq<Part>, t: Totals, key: Option<Name>): Totals {
    Totals(key, t.attachments + ContentBytes(ps), t.recipients + Recipients(ps))
  }

  lemma {:induction false} SumsConcat(a: seq<Part>, b: seq<Part>)
    ensures ContentBytes(a + b) == ContentBytes(a) + ContentBytes(b)
    ensures Recipients(a + b) == Recipients(a) + Recipients(b)
    decreases |b|
  {
    hide PartBytes; hide PartRecipients;
    if |b| == 0 {
      assert a + b == a;
    } else {
      SumsConcat(a, b[..|b| - 1]);
      assert (a + b)[..|a + b| - 1] == a + b[..|b| - 1];
    }
  }

  /** Two lists of parts fit together when the first fits, and the second on top of it. */
  lemma FitsConcat(shape: Shape, a: seq<Part>, b: seq<Part>, t: Totals, key: Option<Name>)
    ensures Fits(shape, a + b, t) <==> Fits(shape, a, t) && Fits(shape, b, Counted(a, t, key))
    ensures forall k :: Counted(a + b, t, k) == Counted(b, Counted(a, t, key), k)
  {
    hide ContentBytes; hide Recipients; hide PartOk;
    SumsConcat(a, b);
    AllOkConcat(shape, a, b);
  }

  lemma AllOkConcat(shape: Shape, a: seq<Part>, b: seq<Part>)
    ensures AllOk(shape, a + b) <==> AllOk(shape, a) && AllOk(shape, b)
  {
    hide PartOk;
    if AllOk(shape, a + b) {
      forall i | 0 <= i < |a| ensures PartOk(shape, a[i]) { assert (a + b)[i] == a[i]; }
      forall i | 0 <= i < |b| ensures PartOk(shape, b[i]) { assert (a + b)[|a| + i] == b[i]; }
    }
  }

  lemma OnePart(shape: Shape, p: Part)
    ensures ContentBytes([p]) == PartBytes(p) && Recipients([p]) == PartRecipients(p)
    ensures AllOk(shape, [p]) <==> PartOk(shape, p)
  {
    hide PartBytes; hide PartRecipients; hide PartOk;
    assert [p][..0] == [] && ContentBytes([]) == 0 && Recipients([]) == 0 && [p][0] == p;
  }

  lemma FitsOne(shape: Shape, p: Part, t: Totals)
    ensures Fits(shape, [p], t) <==>
      PartOk(shape, p) && t.attachments + PartBytes(p) <= 8_388_608 && t.recipients + PartRecipients(p) <= 50
    ensures forall key ::
      Counted([p], t, key) == Totals(key, t.attachments + PartBytes(p), t.recipients + PartRecipients(p))
  {
    hide PartOk; hide PartBytes; hide PartRecipients; hide AllOk; hide ContentBytes; hide Recipients;
    OnePart(shape, p);
  }

  lemma FitsNone(shape: Shape, t: Totals)
    ensures Fits(shape, [], t) <==> t.attachments <= 8_388_608 && t.recipients <= 50
    ensures forall key :: Counted([], t, key) == t.(key := key)
  {
  }

  // ----- the checks mean the tables -----

  lemma CharsAgree(shape: Shape, key: Name)
    ensures CharLimit(shape, key) == MostChars(shape, key)
  {
    hide Is; hide Called;
    forall s ensures Is(key, s) <==> Called(key, s) { SameName(key, s); }
  }

  lemma SameName(key: Name, s: string)
    ensures Is(key, s) <==> Called(key, s)
  {
  }

  lemma ItemsAgree(key: Option<Name>, topLevel: bool)
    ensures ItemLimit(key, topLevel) == MostItems(key, topLevel)
    ensures IsRecipientKey(key) <==> NamesRecipients(key)
  {
  }

  // ----- the walk accepts what fits -----

  lemma TextFits(shape: Shape, raw: seq<byte>, t: Totals)
    requires t.attachments <= 8_388_608 && t.recipients <= 50
    ensures StringValue(shape, t, raw).Ok? <==> Fits(shape, [TextPart(t.key, raw)], t)
    ensures StringValue(shape, t, raw).Ok? ==>
      StringValue(shape, t, raw).value == Counted([TextPart(t.key, raw)], t, t.key)
  {
    hide CharLimit; hide MostChars; hide CountChars; hide DecodeString; hide Base64Length; hide DecodeBase64;
    hide Named;
    FitsOne(shape, TextPart(t.key, raw), t);
    CountIsDecodedLength(raw);
    Base64LengthIsDecodedLength(raw);
    if t.key.Some? { CharsAgree(shape, t.key.value); }
  }

  lemma NameFits(shape: Shape, raw: seq<byte>)
    ensures ReadName(raw).Ok? <==> PartOk(shape, NamePart(raw))
    ensures ReadName(raw).Ok? ==> DecodeString(raw) == Some(ReadName(raw).value)
  {
    hide DecodeString;
  }

  lemma {:induction false} WalkFits(shape: Shape, v: Json, depth: nat, t: Totals)
    requires t.attachments <= 8_388_608 && t.recipients <= 50
    ensures var ps := Parts(v, depth, t.key);
      && (Walk(shape, v, depth, t).Ok? <==> Fits(shape, ps, t))
      && (Walk(shape, v, depth, t).Ok? ==> Walk(shape, v, depth, t).value == Counted(ps, t, KeyAfter(v, t.key)))
    decreases v
  {
    hide Fits; hide Counted; hide StringValue; hide WalkElems; hide WalkMembers; hide CountList;
    match v {
      case Atom(_) => FitsNone(shape, t);
      case Str(raw) => TextFits(shape, raw, t);
      case EmptyObj(_) => ObjectFits(shape, depth, 0, t);
      case EmptyArr(_) => ListFits(shape, depth, 0, t);
      case Obj(members) =>
        var p := ObjectPart(depth, MemberCount(members));
        ObjectFits(shape, depth, MemberCount(members), t);
        FitsConcat(shape, [p], MemberParts(members, depth + 1), t, t.key);
        MembersFit(shape, members, 0, depth + 1, t);
      case Arr(elems) =>
        ElemsFit(shape, elems, 1, ItemLimit(t.key, depth == 1), depth + 1, t);
        ArrayFits(shape, elems, depth, t);
    }
  }

  lemma ObjectFits(shape: Shape, depth: nat, members: nat, t: Totals)
    requires t.attachments <= 8_388_608 && t.recipients <= 50
    ensures Fits(shape, [ObjectPart(depth, members)], t) <==> depth + 1 <= MAX_DEPTH && members <= MAX_MEMBERS
    ensures Counted([ObjectPart(depth, members)], t, t.key) == t
  {
    FitsOne(shape, ObjectPart(depth, members), t);
  }

  lemma ListFits(shape: Shape, depth: nat, items: nat, t: Totals)
    requires t.attachments <= 8_388_608 && t.recipients <= 50
    ensures var p := ListPart(depth, t.key, items);
      && (Fits(shape, [p], t) <==>
            depth + 1 <= MAX_DEPTH && items <= ItemLimit(t.key, depth == 1) && CountList(t.key, depth, items, t).Ok?)
      && (CountList(t.key, depth, items, t).Ok? ==> CountList(t.key, depth, items, t).value == Counted([p], t, t.key))
  {
    hide ItemLimit; hide MostItems; hide IsRecipientKey; hide NamesRecipients;
    FitsOne(shape, ListPart(depth, t.key, items), t);
    ItemsAgree(t.key, depth == 1);
  }

  /** What a list counts is the same before and after its elements. */
  lemma ArrayFits(shape: Shape, elems: Elems, depth: nat, t: Totals)
    requires t.attachments <= 8_388_608 && t.recipients <= 50
    requires var inside := WalkElems(shape, elems, 1, ItemLimit(t.key, depth == 1), depth + 1, t);
      var ps := ElemParts(elems, depth + 1, t.key);
      && (inside.Ok? <==> ElemCount(elems) <= ItemLimit(t.key, depth == 1) && Fits(shape, ps, t))
      && (inside.Ok? ==> inside.value == Counted(ps, t, ElemsKey(elems, t.key)))
    ensures var v := Arr(elems);
      var ps := Parts(v, depth, t.key);
      && (Walk(shape, v, depth, t).Ok? <==> Fits(shape, ps, t))
      && (Walk(shape, v, depth, t).Ok? ==> Walk(shape, v, depth, t).value == Counted(ps, t, KeyAfter(v, t.key)))
  {
    hide ItemLimit; hide IsRecipientKey; hide NamesRecipients; hide WalkElems; hide ElemParts; hide ElemCount;
    hide MostItems; hide ContentBytes; hide Recipients;
    var ps := ElemParts(elems, depth + 1, t.key);
    var p := ListPart(depth, t.key, ElemCount(elems));
    ItemsAgree(t.key, depth == 1);
    SumsConcat([p], ps);
    AllOkConcat(shape, [p], ps);
    OnePart(shape, p);
  }

  lemma KeyFree(shape: Shape, ps: seq<Part>, t: Totals, key: Option<Name>)
    ensures Fits(shape, ps, t.(key := key)) <==> Fits(shape, ps, t)
    ensures forall k :: Counted(ps, t.(key := key), k) == Counted(ps, t, k)
  {
  }

  lemma FitsBound(shape: Shape, ps: seq<Part>, t: Totals, key: Option<Name>)
    requires Fits(shape, ps, t)
    ensures var after := Counted(ps, t, key); after.attachments <= 8_388_608 && after.recipients <= 50
    ensures t.attachments <= 8_388_608 && t.recipients <= 50 && Counted(ps, t, key).key == key
  {
  }

  lemma {:induction false} ElemsFit(shape: Shape, es: Elems, n: nat, maximum: nat, depth: nat, t: Totals)
    requires t.attachments <= 8_388_608 && t.recipients <= 50 && 1 <= n <= maximum
    ensures var ps := ElemParts(es, depth, t.key);
      var walked := WalkElems(shape, es, n, maximum, depth, t);
      && (walked.Ok? <==> n - 1 + ElemCount(es) <= maximum && Fits(shape, ps, t))
      && (walked.Ok? ==> walked.value == Counted(ps, t, ElemsKey(es, t.key)))
    decreases es
  {
    hide Fits; hide Counted; hide Walk; hide Parts; hide KeyAfter;
    var first := Parts(es.value, depth, t.key);
    WalkFits(shape, es.value, depth, t);
    if es.LastElem? {
      assert first + [] == first;
    } else {
      var next := KeyAfter(es.value, t.key);
      FitsConcat(shape, first, ElemParts(es.rest, depth, next), t, next);
      if Fits(shape, first, t) {
        FitsBound(shape, first, t, next);
        if n + 1 <= maximum { ElemsFit(shape, es.rest, n + 1, maximum, depth, Counted(first, t, next)); }
      }
    }
  }

  lemma {:induction false} MembersFit(shape: Shape, ms: Members, n: nat, depth: nat, t: Totals)
    requires t.attachments <= 8_388_608 && t.recipients <= 50 && n <= MAX_MEMBERS
    ensures var ps := MemberParts(ms, depth);
      var walked := WalkMembers(shape, ms, n, depth, t);
      && (walked.Ok? <==> n + MemberCount(ms) <= MAX_MEMBERS && Fits(shape, ps, t))
      && (walked.Ok? ==> walked.value == Counted(ps, t, MembersKey(ms)))
    decreases ms
  {
    hide Fits; hide Counted; hide Walk; hide Parts; hide KeyAfter; hide ReadName; hide PartOk; hide DecodeString;
    var key := DecodeString(ms.name);
    var value := Parts(ms.value, depth, key);
    var named := t.(key := key);
    var more := if ms.LastMember? then [] else MemberParts(ms.rest, depth);
    assert MemberParts(ms, depth) == [NamePart(ms.name)] + (value + more);
    NameFits(shape, ms.name);
    NameCounts(shape, ms.name, t, key);
    FitsConcat(shape, [NamePart(ms.name)], value + more, t, key);
    WalkFits(shape, ms.value, depth, named);
    if ms.LastMember? {
      assert value + [] == value;
    } else {
      var next := KeyAfter(ms.value, key);
      FitsConcat(shape, value, more, named, next);
      if Fits(shape, value, named) {
        FitsBound(shape, value, named, next);
        if n + 1 <= MAX_MEMBERS { MembersFit(shape, ms.rest, n + 1, depth, Counted(value, named, next)); }
      }
    }
  }

  lemma NameCounts(shape: Shape, raw: seq<byte>, t: Totals, key: Option<Name>)
    requires t.attachments <= 8_388_608 && t.recipients <= 50
    ensures Fits(shape, [NamePart(raw)], t) <==> PartOk(shape, NamePart(raw))
    ensures Counted([NamePart(raw)], t, key) == t.(key := key)
  {
    FitsOne(shape, NamePart(raw), t);
  }

  // ----- which error a refusal is -----

  /** Some part has the fault the error stands for, or a sum passes its limit. */
  predicate Blames(shape: Shape, e: ErrorCode, ps: seq<Part>, t: Totals) {
    match e
    case InputNestingLimit => exists i | 0 <= i < |ps| :: TooDeep(ps[i])
    case InvalidInput => exists i | 0 <= i < |ps| :: Malformed(ps[i])
    case ResourceLimit =>
      || t.attachments + ContentBytes(ps) > 8_388_608 || t.recipients + Recipients(ps) > 50
      || exists i | 0 <= i < |ps| :: Oversized(shape, ps[i])
    case _ => false
  }

  lemma BlamesConcat(shape: Shape, e: ErrorCode, a: seq<Part>, b: seq<Part>, t: Totals, key: Option<Name>)
    requires Blames(shape, e, a, t) || Blames(shape, e, b, Counted(a, t, key))
    ensures Blames(shape, e, a + b, t)
  {
    hide ContentBytes; hide Recipients; hide TooDeep; hide Malformed; hide Oversized;
    SumsConcat(a, b);
    var all := a + b;
    if i :| 0 <= i < |a| && (TooDeep(a[i]) || Malformed(a[i]) || Oversized(shape, a[i])) { assert all[i] == a[i]; }
    forall i | 0 <= i < |a| ensures all[i] == a[i] {}
    forall i | 0 <= i < |b| ensures all[|a| + i] == b[i] {}
  }

  lemma BlamesOne(shape: Shape, e: ErrorCode, p: Part, t: Totals)
    requires match e
      case InputNestingLimit => TooDeep(p)
      case InvalidInput => Malformed(p)
      case ResourceLimit =>
        Oversized(shape, p) || t.attachments + PartBytes(p) > 8_388_608 || t.recipients + PartRecipients(p) > 50
      case _ => false
    ensures Blames(shape, e, [p], t)
  {
    hide TooDeep; hide Malformed; hide Oversized; hide PartBytes; hide PartRecipients; hide ContentBytes;
    hide Recipients;
    OnePart(shape, p);
    assert [p][0] == p;
  }

  lemma TextBlames(shape: Shape, raw: seq<byte>, t: Totals)
    requires StringValue(shape, t, raw).Err?
    ensures Blames(shape, StringValue(shape, t, raw).error, [TextPart(t.key, raw)], t)
  {
    hide CharLimit; hide MostChars; hide CountChars; hide DecodeString; hide Base64Length; hide DecodeBase64;
    hide Named;
    CountIsDecodedLength(raw);
    Base64LengthIsDecodedLength(raw);
    CharsAgree(shape, t.key.value);
    assert Base64Length(raw).Err? ==> Base64Length(raw).error == InvalidInput by { LengthError(raw); }
    BlamesOne(shape, StringValue(shape, t, raw).error, TextPart(t.key, raw), t);
  }

  lemma LengthError(raw: seq<byte>)
    ensures Base64Length(raw).Err? ==> Base64Length(raw).error == InvalidInput
  {
  }

  lemma {:induction false} WalkBlames(shape: Shape, v: Json, depth: nat, t: Totals)
    requires t.attachments <= 8_388_608 && t.recipients <= 50 && Walk(shape, v, depth, t).Err?
    ensures Blames(shape, Walk(shape, v, depth, t).error, Parts(v, depth, t.key), t)
    decreases v
  {
    hide Fits; hide Counted; hide StringValue; hide WalkElems; hide WalkMembers; hide Blames;
    hide IsRecipientKey; hide NamesRecipients; hide MostItems; hide ItemLimit;
    ItemsAgree(t.key, depth == 1);
    var e := Walk(shape, v, depth, t).error;
    match v {
      case Str(raw) => TextBlames(shape, raw, t);
      case EmptyObj(_) => BlamesOne(shape, e, ObjectPart(depth, 0), t);
      case EmptyArr(_) => BlamesOne(shape, e, ListPart(depth, t.key, 0), t);
      case Obj(members) =>
        var p, ps := ObjectPart(depth, MemberCount(members)), MemberParts(members, depth + 1);
        CountsNothing(p, t);
        if depth + 1 <= MAX_DEPTH { MembersBlame(shape, members, 0, depth + 1, t); }
        if depth + 1 > MAX_DEPTH || (e == ResourceLimit && MemberCount(members) > MAX_MEMBERS) {
          BlamesOne(shape, e, p, t);
        }
        BlamesConcat(shape, e, [p], ps, t, t.key);
      case Arr(elems) => ArrayBlames(shape, elems, depth, t);
      case Atom(_) =>
    }
  }

  lemma CountsNothing(p: Part, t: Totals)
    requires p.ObjectPart? || p.NamePart?
    ensures forall key :: Counted([p], t, key) == t.(key := key)
  {
    OnePart(SendShape, p);
  }

  lemma {:induction false} ArrayBlames(shape: Shape, elems: Elems, depth: nat, t: Totals)
    requires t.attachments <= 8_388_608 && t.recipients <= 50 && Walk(shape, Arr(elems), depth, t).Err?
    ensures Blames(shape, Walk(shape, Arr(elems), depth, t).error, Parts(Arr(elems), depth, t.key), t)
    decreases elems, 1
  {
    hide Fits; hide Counted; hide WalkElems; hide Blames; hide ElemParts; hide ElemCount;
    hide IsRecipientKey; hide NamesRecipients; hide MostItems; hide ItemLimit;
    var e := Walk(shape, Arr(elems), depth, t).error;
    var p, ps := ListPart(depth, t.key, ElemCount(elems)), ElemParts(elems, depth + 1, t.key);
    var maximum := ItemLimit(t.key, depth == 1);
    ItemsAgree(t.key, depth == 1);
    if depth + 1 > MAX_DEPTH {
      BlamesOne(shape, e, p, t);
      BlamesConcat(shape, e, [p], ps, t, t.key);
    } else if WalkElems(shape, elems, 1, maximum, depth + 1, t).Err? {
      ElemsBlame(shape, elems, 1, maximum, depth + 1, t);
      if e == ResourceLimit && ElemCount(elems) > maximum {
        BlamesOne(shape, e, p, t);
        BlamesConcat(shape, e, [p], ps, t, t.key);
      } else {
        StillBlames(shape, e, p, ps, t);
      }
    } else {
      ElemsFit(shape, elems, 1, maximum, depth + 1, t);
      ListTips(shape, elems, depth, t);
    }
  }

  /** A fault of the parts is a fault of the list they stand in. */
  lemma StillBlames(shape: Shape, e: ErrorCode, p: Part, ps: seq<Part>, t: Totals)
    requires Blames(shape, e, ps, t)
    ensures Blames(shape, e, [p] + ps, t)
  {
    hide TooDeep; hide Malformed; hide Oversized; hide ContentBytes; hide Recipients;
    SumsConcat([p], ps);
    forall i | 0 <= i < |ps| ensures ([p] + ps)[i + 1] == ps[i] {}
  }

  /** The list itself makes the recipients too many. */
  lemma ListTips(shape: Shape, elems: Elems, depth: nat, t: Totals)
    requires var inside := WalkElems(shape, elems, 1, ItemLimit(t.key, depth == 1), depth + 1, t);
      && inside.Ok? && inside.value == Counted(ElemParts(elems, depth + 1, t.key), t, ElemsKey(elems, t.key))
      && CountList(t.key, depth, ElemCount(elems), inside.value).Err? && depth + 1 <= MAX_DEPTH
    ensures Walk(shape, Arr(elems), depth, t).Err?
    ensures Blames(shape, Walk(shape, Arr(elems), depth, t).error, Parts(Arr(elems), depth, t.key), t)
  {
    hide IsRecipientKey; hide NamesRecipients; hide ItemLimit; hide WalkElems; hide ElemParts; hide ElemCount;
    hide MostItems; hide ContentBytes; hide Recipients; hide Oversized;
    var ps, p := ElemParts(elems, depth + 1, t.key), ListPart(depth, t.key, ElemCount(elems));
    ItemsAgree(t.key, depth == 1);
    SumsConcat([p], ps);
    OnePart(shape, p);
  }

  lemma {:induction false} ElemsBlame(shape: Shape, es: Elems, n: nat, maximum: nat, depth: nat, t: Totals)
    requires t.attachments <= 8_388_608 && t.recipients <= 50 && 1 <= n <= maximum
    requires WalkElems(shape, es, n, maximum, depth, t).Err?
    ensures var e := WalkElems(shape, es, n, maximum, depth, t).error;
      || (e == ResourceLimit && n - 1 + ElemCount(es) > maximum)
      || Blames(shape, e, ElemParts(es, depth, t.key), t)
    decreases es, 0
  {
    hide Fits; hide Counted; hide Walk; hide Parts; hide KeyAfter; hide Blames;
    var e := WalkElems(shape, es, n, maximum, depth, t).error;
    var first, next := Parts(es.value, depth, t.key), KeyAfter(es.value, t.key);
    var more := if es.LastElem? then [] else ElemParts(es.rest, depth, next);
    WalkFits(shape, es.value, depth, t);
    if Walk(shape, es.value, depth, t).Err? {
      WalkBlames(shape, es.value, depth, t);
      BlamesConcat(shape, e, first, more, t, next);
    } else if n + 1 <= maximum {
      var after := Counted(first, t, next);
      FitsBound(shape, first, t, next);
      ElemsBlame(shape, es.rest, n + 1, maximum, depth, after);
      if Blames(shape, e, more, after) { BlamesConcat(shape, e, first, more, t, next); }
    }
  }

  lemma {:induction false} MembersBlame(shape: Shape, ms: Members, n: nat, depth: nat, t: Totals)
    requires t.attachments <= 8_388_608 && t.recipients <= 50 && n <= MAX_MEMBERS
    requires WalkMembers(shape, ms, n, depth, t).Err?
    ensures var e := WalkMembers(shape, ms, n, depth, t).error;
      || (e == ResourceLimit && n + MemberCount(ms) > MAX_MEMBERS)
      || Blames(shape, e, MemberParts(ms, depth), t)
    decreases ms
  {
    hide Fits; hide Counted; hide Walk; hide Parts; hide KeyAfter; hide ReadName; hide PartOk; hide DecodeString;
    hide Blames;
    var e := WalkMembers(shape, ms, n, depth, t).error;
    var key := DecodeString(ms.name);
    var name, named := NamePart(ms.name), t.(key := key);
    var value, next := Parts(ms.value, depth, key), KeyAfter(ms.value, key);
    var more := if ms.LastMember? then [] else MemberParts(ms.rest, depth);
    assert MemberParts(ms, depth) == [name] + (value + more);
    NameFits(shape, ms.name);
    CountsNothing(name, t);
    if ReadName(ms.name).Err? {
      NameBlames(shape, ms.name, t);
      BlamesConcat(shape, e, [name], value + more, t, key);
    } else if n + 1 <= MAX_MEMBERS {
      WalkFits(shape, ms.value, depth, named);
      if Walk(shape, ms.value, depth, named).Err? {
        WalkBlames(shape, ms.value, depth, named);
        BlamesConcat(shape, e, value, more, named, next);
        BlamesConcat(shape, e, [name], value + more, t, key);
      } else {
        var after := Counted(value, named, next);
        FitsBound(shape, value, named, next);
        MembersBlame(shape, ms.rest, n + 1, depth, after);
        if Blames(shape, e, more, after) {
          BlamesConcat(shape, e, value, more, named, next);
          BlamesConcat(shape, e, [name], value + more, t, key);
        }
      }
    }
  }

  lemma NameBlames(shape: Shape, raw: seq<byte>, t: Totals)
    requires ReadName(raw).Err?
    ensures Blames(shape, ReadName(raw).error, [NamePart(raw)], t)
  {
    hide DecodeString;
    BlamesOne(shape, ReadName(raw).error, NamePart(raw), t);
  }

  // ----- the pass accepts exactly what fits -----

  /** Every part is in order; the `content_base64` strings decode to at most 8 MiB
      together; the three top-level recipient lists have at most 50 items. */
  predicate Acceptable(shape: Shape, v: Json) {
    var ps := Parts(v, 0, None);
    AllOk(shape, ps) && ContentBytes(ps) <= 8_388_608 && Recipients(ps) <= 50
  }

  /** The pass accepts a JSON document, printed with any whitespace, exactly when
      the document is acceptable, and a refusal names a fault the document has. */
  lemma AcceptedExactly(shape: Shape, d: Document)
    requires IsDocument(d)
    ensures Scan(shape, PreflightTree.Text(d), START).Ok? <==> Acceptable(shape, d.root)
    ensures Scan(shape, PreflightTree.Text(d), START).Err? ==>
      Blames(shape, Scan(shape, PreflightTree.Text(d), START).error, Parts(d.root, 0, None), START.totals)
  {
    hide Scan; hide PreflightTree.Text; hide IsDocument; hide Walk; hide Parts; hide AllOk; hide Blames;
    hide ContentBytes; hide Recipients; hide KeyAfter; hide Counted;
    PreflightIsWalk(shape, d);
    WalkFits(shape, d.root, 0, START.totals);
    if Walk(shape, d.root, 0, START.totals).Err? {
      WalkBlames(shape, d.root, 0, START.totals);
    }
  }

  // ----- any text -----

  predicate IsOpener(x: byte) { x == OPEN_OBJECT || x == OPEN_ARRAY }

  predicate IsCloser(x: byte) { x == CLOSE_OBJECT || x == CLOSE_ARRAY }

  /** The brackets outside strings, unless a string does not end. */
  function Delimiters(b: seq<byte>): Option<seq<byte>>
    decreases |b|
  {
    if |b| == 0 then Some([])
    else if b[0] == QUOTE then
      match StringEnd(b[1..], false)
      case Err(_) => None
      case Ok(n) => Delimiters(b[n + 2..])
    else if IsOpener(b[0]) || IsCloser(b[0]) then Cons(b[0], Delimiters(b[1..]))
    else Delimiters(b[1..])
  }

  /** Every closing bracket closes the innermost open one, and none stays open. */
  predicate Matched(open: seq<byte>, ds: seq<byte>)
    decreases |ds|
  {
    if |ds| == 0 then open == []
    else if IsOpener(ds[0]) then Matched(open + [ds[0]], ds[1..])
    else
      && open != [] && (open[|open| - 1] == OPEN_OBJECT <==> ds[0] == CLOSE_OBJECT)
      && Matched(open[..|open| - 1], ds[1..])
  }

  function Openers(stack: seq<Container>): (open: seq<byte>)
    ensures |open| == |stack|
  {
    seq(|stack|, i requires 0 <= i < |stack| => if stack[i].Object? then OPEN_OBJECT else OPEN_ARRAY)
  }

  /** What one round does to the open brackets. */
  lemma StepOpeners(shape: Shape, b: seq<byte>, st: Lex)
    requires |b| > 0 && Step(shape, b, st).Ok?
    ensures var after := Openers(Step(shape, b, st).value.st.stack);
      var open := Openers(st.stack);
      if IsOpener(b[0]) then after == open + [b[0]]
      else if IsCloser(b[0]) then
        && open != [] && (open[|open| - 1] == OPEN_OBJECT <==> b[0] == CLOSE_OBJECT)
        && after == open[..|open| - 1]
      else after == open
    ensures b[0] == QUOTE ==>
      StringEnd(b[1..], false).Ok? && Step(shape, b, st).value.width == StringEnd(b[1..], false).value + 2
    ensures b[0] != QUOTE ==> Step(shape, b, st).value.width == 1
  {
    hide StringEnd; hide StringValue; hide ReadName; hide NextIs; hide ItemLimit; hide IsRecipientKey;
  }

  /** Whatever the text, one that is accepted has its brackets matched and its
      strings closed; so no document cut short inside one is accepted. */
  lemma AcceptedTextIsBalanced(shape: Shape, b: seq<byte>)
    requires Scan(shape, b, START).Ok?
    ensures Delimiters(b).Some? && Matched([], Delimiters(b).value)
  {
    hide Scan; hide Delimiters; hide Matched;
    ScanIsBalanced(shape, b, START);
    assert Openers(START.stack) == [];
  }

  lemma {:induction false} ScanIsBalanced(shape: Shape, b: seq<byte>, st: Lex)
    requires Scan(shape, b, st).Ok?
    ensures Delimiters(b).Some? && Matched(Openers(st.stack), Delimiters(b).value)
    decreases |b|
  {
    hide Step; hide StringEnd;
    if |b| > 0 {
      StepOpeners(shape, b, st);
      var moved := Step(shape, b, st).value;
      ScanIsBalanced(shape, b[moved.width..], moved.st);
      if IsOpener(b[0]) || IsCloser(b[0]) {
        assert Delimiters(b).value[1..] == Delimiters(b[1..]).value;
      }
    }
  }
}
