/** The same checks on a parsed document, and the proof that scanning its text
    and walking its tree come to the same verdict. */
module PreflightTree {
  import opened Basics
  import opened Utf8
  import opened JsonText
  import opened Preflight

  // ----- documents with their whitespace -----

  datatype Json =
    | Atom(text: seq<byte>)
    | Str(raw: seq<byte>)
    | EmptyArr(space: seq<byte>)
    | Arr(elems: Elems)
    | EmptyObj(space: seq<byte>)
    | Obj(members: Members)

  datatype Elems =
    | LastElem(before: seq<byte>, value: Json, after: seq<byte>)
    | MoreElems(before: seq<byte>, value: Json, after: seq<byte>, rest: Elems)

  datatype Members =
    | LastMember(before: seq<byte>, name: seq<byte>, gap: seq<byte>, lead: seq<byte>, value: Json, after: seq<byte>)
    | MoreMembers(
        before: seq<byte>, name: seq<byte>, gap: seq<byte>, lead: seq<byte>, value: Json, after: seq<byte>,
        rest: Members)

  function Print(v: Json): seq<byte> {
    match v
    case Atom(text) => text
    case Str(raw) => [QUOTE] + raw + [QUOTE]
    case EmptyArr(space) => [OPEN_ARRAY] + space + [CLOSE_ARRAY]
    case Arr(elems) => [OPEN_ARRAY] + PrintElems(elems) + [CLOSE_ARRAY]
    case EmptyObj(space) => [OPEN_OBJECT] + space + [CLOSE_OBJECT]
    case Obj(members) => [OPEN_OBJECT] + PrintMembers(members) + [CLOSE_OBJECT]
  }

  function PrintElems(es: Elems): seq<byte> {
    match es
    case LastElem(before, value, after) => before + Print(value) + after
    case MoreElems(before, value, after, rest) => before + Print(value) + after + [COMMA] + PrintElems(rest)
  }

  function PrintMembers(ms: Members): seq<byte> {
    var head := ms.before + [QUOTE] + ms.name + [QUOTE] + ms.gap + [COLON] + ms.lead + Print(ms.value) + ms.after;
    if ms.LastMember? then head else head + [COMMA] + PrintMembers(ms.rest)
  }

  predicate AllSpace(b: seq<byte>) { forall x | x in b :: x in [0x20, 0x09, 0x0A, 0x0D] }

  /** A byte the scanner passes over. */
  predicate IsOther(x: byte) {
    x != OPEN_OBJECT && x != CLOSE_OBJECT && x != OPEN_ARRAY && x != CLOSE_ARRAY && x != COMMA && x != QUOTE
  }

  /** Numbers and literals. */
  predicate IsAtom(b: seq<byte>) { |b| > 0 && forall x | x in b :: IsOther(x) && !IsSpace(x) && x != COLON }

  /** A string body: the quote that follows it is the first unescaped one. */
  predicate IsBody(raw: seq<byte>) { StringEnd(raw + [QUOTE], false) == Ok(|raw|) }

  predicate WellFormed(v: Json) {
    match v
    case Atom(text) => IsAtom(text)
    case Str(raw) => IsBody(raw)
    case EmptyArr(space) => AllSpace(space)
    case Arr(elems) => ElemsWellFormed(elems)
    case EmptyObj(space) => AllSpace(space)
    case Obj(members) => MembersWellFormed(members)
  }

  predicate ElemsWellFormed(es: Elems) {
    AllSpace(es.before) && AllSpace(es.after) && WellFormed(es.value) && (es.MoreElems? ==> ElemsWellFormed(es.rest))
  }

  predicate MembersWellFormed(ms: Members) {
    && AllSpace(ms.before) && IsBody(ms.name) && AllSpace(ms.gap) && AllSpace(ms.lead) && AllSpace(ms.after)
    && WellFormed(ms.value) && (ms.MoreMembers? ==> MembersWellFormed(ms.rest))
  }

  // ----- the checks, on the tree -----

  function ElemCount(es: Elems): nat { if es.LastElem? then 1 else 1 + ElemCount(es.rest) }

  function MemberCount(ms: Members): nat { if ms.LastMember? then 1 else 1 + MemberCount(ms.rest) }

  /** Walk a value that stands inside `depth` containers. */
  function Walk(shape: Shape, v: Json, depth: nat, t: Totals): Result<Totals>
    decreases v
  {
    match v
    case Atom(_) => Ok(t)
    case Str(raw) => StringValue(shape, t, raw)
    case EmptyObj(_) =>
      var _ :- Need(depth + 1 <= MAX_DEPTH, InputNestingLimit);
      Ok(t)
    case Obj(members) =>
      var _ :- Need(depth + 1 <= MAX_DEPTH, InputNestingLimit);
      WalkMembers(shape, members, 0, depth + 1, t)
    case EmptyArr(_) =>
      var _ :- Need(depth + 1 <= MAX_DEPTH, InputNestingLimit);
      CountList(t.key, depth, 0, t)
    case Arr(elems) =>
      var _ :- Need(depth + 1 <= MAX_DEPTH, InputNestingLimit);
      var inside :- WalkElems(shape, elems, 1, ItemLimit(t.key, depth == 1), depth + 1, t);
      CountList(t.key, depth, ElemCount(elems), inside)
  }

  /** A list directly inside the outermost container counts when its name is a
      recipient field. */
  function CountList(key: Option<Name>, depth: nat, n: nat, t: Totals): Result<Totals> {
    if depth == 1 && IsRecipientKey(key) then
      var _ :- Need(t.recipients + n <= MAX_RECIPIENTS, ResourceLimit);
      Ok(t.(recipients := t.recipients + n))
    else Ok(t)
  }

  function WalkElems(shape: Shape, es: Elems, n: nat, maximum: nat, depth: nat, t: Totals): Result<Totals>
    decreases es
  {
    var after :- Walk(shape, es.value, depth, t);
    if es.LastElem? then Ok(after)
    else
      var _ :- Need(n + 1 <= maximum, ResourceLimit);
      WalkElems(shape, es.rest, n + 1, maximum, depth, after)
  }

  function WalkMembers(shape: Shape, ms: Members, n: nat, depth: nat, t: Totals): Result<Totals>
    decreases ms
  {
    var name :- ReadName(ms.name);
    var _ :- Need(n + 1 <= MAX_MEMBERS, ResourceLimit);
    var after :- Walk(shape, ms.value, depth, t.(key := Some(name)));
    if ms.LastMember? then Ok(after) else WalkMembers(shape, ms.rest, n + 1, depth, after)
  }

  // ----- the scanner, token by token -----

  lemma {:induction false} ScanPassesOver(shape: Shape, p: seq<byte>, rest: seq<byte>, st: Lex)
    requires forall x | x in p :: IsOther(x)
    ensures Scan(shape, p + rest, st) == Scan(shape, rest, st)
  {
    if |p| == 0 {
      assert p + rest == rest;
    } else {
      var b := p + rest;
      assert IsOther(b[0]) by { assert p[0] in p; }
      assert b[1..] == p[1..] + rest;
      ScanPassesOver(shape, p[1..], rest, st);
      assert Step(shape, b, st) == Ok(Moved(st, 1));
    }
  }

  lemma SpaceIsOther(b: seq<byte>)
    requires AllSpace(b)
    ensures forall x | x in b :: IsOther(x)
  {
  }

  lemma {:induction false} SkipSpacePast(space: seq<byte>, rest: seq<byte>)
    requires AllSpace(space)
    ensures SkipSpace(space + rest) == SkipSpace(rest)
  {
    if |space| == 0 {
      assert space + rest == rest;
    } else {
      assert (space + rest)[1..] == space[1..] + rest;
      assert IsSpace(space[0]) by { assert space[0] in space; }
      SkipSpacePast(space[1..], rest);
    }
  }

  lemma NextAfterSpace(space: seq<byte>, x: byte, rest: seq<byte>)
    requires AllSpace(space) && !IsSpace(x)
    ensures forall y :: NextIs(space + [x] + rest, y) <==> x == y
  {
    assert space + [x] + rest == space + ([x] + rest);
    SkipSpacePast(space, [x] + rest);
  }

  lemma {:induction false} StringEndCut(raw: seq<byte>, rest: seq<byte>, escaped: bool)
    requires StringEnd(raw + [QUOTE], escaped) == Ok(|raw|)
    ensures StringEnd(raw + [QUOTE] + rest, escaped) == Ok(|raw|)
    decreases |raw|
  {
    var short, long := raw + [QUOTE], raw + [QUOTE] + rest;
    if |raw| > 0 {
      assert short[0] == raw[0] && long[0] == raw[0];
      assert short[1..] == raw[1..] + [QUOTE] && long[1..] == raw[1..] + [QUOTE] + rest;
      StringEndCut(raw[1..], rest, !escaped && raw[0] == BACKSLASH);
    }
  }

  /** Scan on from where a step or a value has led, unless it failed. */
  function GoOn(shape: Shape, r: Result<Lex>, rest: seq<byte>): Result<()> {
    match r case Err(e) => Err(e) case Ok(st) => Scan(shape, rest, st)
  }

  function Then(shape: Shape, r: Result<Totals>, stack: seq<Container>, rest: seq<byte>): Result<()> {
    match r case Err(e) => Err(e) case Ok(t) => Scan(shape, rest, Lex(stack, t))
  }

  /** One string token at the front of the text. */
  lemma StepString(shape: Shape, raw: seq<byte>, rest: seq<byte>, st: Lex)
    requires IsBody(raw)
    ensures Scan(shape, [QUOTE] + raw + [QUOTE] + rest, st) ==
      if NextIs(rest, COLON) then GoOn(shape, MemberName(st, raw), rest)
      else Then(shape, StringValue(shape, st.totals, raw), st.stack, rest)
  {
    hide StringEnd; hide NextIs; hide MemberName; hide StringValue;
    var b := [QUOTE] + raw + [QUOTE] + rest;
    assert b[1..] == raw + [QUOTE] + rest;
    StringEndCut(raw, rest, false);
    assert b[1..][..|raw|] == raw && b[1..][|raw| + 1..] == rest && b[|raw| + 2..] == rest;
  }

  lemma StepOne(shape: Shape, x: byte, rest: seq<byte>, st: Lex)
    requires x != QUOTE
    ensures var step := Step(shape, [x] + rest, st);
      Scan(shape, [x] + rest, st) == if step.Err? then Err(step.error) else Scan(shape, rest, step.value.st)
    ensures Step(shape, [x] + rest, st).Ok? ==> Step(shape, [x] + rest, st).value.width == 1
    ensures ([x] + rest)[1..] == rest
  {
    assert ([x] + rest)[1..] == rest;
  }

  /** A value never starts with whitespace, a closing bracket or a colon. */
  lemma FirstByte(v: Json)
    requires WellFormed(v)
    ensures |Print(v)| > 0 && !IsSpace(Print(v)[0]) && Print(v)[0] != CLOSE_ARRAY
  {
    if v.Atom? { assert v.text[0] in v.text; }
  }

  // ----- scanning a printed tree is walking it -----

  lemma ScanSpace(shape: Shape, space: seq<byte>, rest: seq<byte>, st: Lex)
    requires AllSpace(space)
    ensures Scan(shape, space + rest, st) == Scan(shape, rest, st)
  {
    SpaceIsOther(space);
    ScanPassesOver(shape, space, rest, st);
  }

  /** Scanning the text of a value has the effect that walking the value has,
      error for error, and then goes on with the text that follows. */
  lemma {:induction false} ScanIsWalk(shape: Shape, v: Json, rest: seq<byte>, stack: seq<Container>, t: Totals)
    requires WellFormed(v) && !NextIs(rest, COLON)
    ensures Scan(shape, Print(v) + rest, Lex(stack, t)) == Then(shape, Walk(shape, v, |stack|, t), stack, rest)
    decreases v, 0
  {
    hide Step; hide Scan; hide NextIs; hide StringValue; hide OpenedArray; hide ClosedArray; hide IsBody; hide AllSpace;
    match v {
      case Atom(text) => ScanPassesOver(shape, text, rest, Lex(stack, t));
      case Str(raw) =>
        assert Print(v) + rest == [QUOTE] + raw + [QUOTE] + rest;
        StepString(shape, raw, rest, Lex(stack, t));
      case EmptyObj(space) => EmptyObjectIsWalk(shape, v, rest, stack, t);
      case EmptyArr(space) => EmptyArrayIsWalk(shape, v, rest, stack, t);
      case Obj(members) => ObjectIsWalk(shape, members, rest, stack, t);
      case Arr(elems) => ArrayIsWalk(shape, elems, rest, stack, t);
    }
  }

  lemma {:induction false} ObjectIsWalk(shape: Shape, ms: Members, rest: seq<byte>, stack: seq<Container>, t: Totals)
    requires MembersWellFormed(ms)
    ensures Scan(shape, Print(Obj(ms)) + rest, Lex(stack, t)) ==
      Then(shape, Walk(shape, Obj(ms), |stack|, t), stack, rest)
    decreases ms, 1
  {
    hide Scan; hide PrintMembers; hide MembersWellFormed; hide WalkMembers;
    var tail := [CLOSE_OBJECT] + rest;
    assert Print(Obj(ms)) + rest == [OPEN_OBJECT] + (PrintMembers(ms) + tail);
    OpenObjectStep(shape, PrintMembers(ms) + tail, Lex(stack, t));
    if |stack| + 1 <= MAX_DEPTH {
      MembersAreWalk(shape, ms, 0, rest, stack, t);
      var walked := WalkMembers(shape, ms, 0, |stack| + 1, t);
      if walked.Ok? {
        CloseObjectStep(shape, rest, stack, MemberCount(ms), walked.value);
      }
    }
  }

  lemma {:induction false} ArrayIsWalk(shape: Shape, es: Elems, rest: seq<byte>, stack: seq<Container>, t: Totals)
    requires ElemsWellFormed(es)
    ensures Scan(shape, Print(Arr(es)) + rest, Lex(stack, t)) ==
      Then(shape, Walk(shape, Arr(es), |stack|, t), stack, rest)
    decreases es, 1
  {
    hide Scan; hide PrintElems; hide ElemsWellFormed; hide WalkElems; hide NextIs; hide OpenedArray; hide ClosedArray;
    hide ItemLimit; hide IsRecipientKey; hide CountList;
    var tail := [CLOSE_ARRAY] + rest;
    assert Print(Arr(es)) + rest == [OPEN_ARRAY] + (PrintElems(es) + tail);
    ElemsStart(es, tail);
    OpenArrayStep(shape, PrintElems(es) + tail, Lex(stack, t));
    if |stack| + 1 <= MAX_DEPTH {
      var field, maximum, recipients := t.key, ItemLimit(t.key, |stack| == 1), |stack| == 1 && IsRecipientKey(t.key);
      OpenedIs(t, |stack|);
      ElemsAreWalk(shape, es, 1, field, maximum, recipients, rest, stack, t);
      var walked := WalkElems(shape, es, 1, maximum, |stack| + 1, t);
      if walked.Ok? {
        WalkedElemsFit(shape, es, 1, maximum, |stack| + 1, t);
        CloseArrayStep(shape, rest, stack, Array(field, ElemCount(es), maximum, recipients), walked.value);
        ClosingList(field, |stack|, ElemCount(es), walked.value);
      }
    }
  }

  lemma OpenedIs(t: Totals, depth: nat)
    ensures OpenedArray(t, depth, false) ==
      Array(t.key, 1, ItemLimit(t.key, depth == 1), depth == 1 && IsRecipientKey(t.key))
    ensures OpenedArray(t, depth, true) ==
      Array(t.key, 0, ItemLimit(t.key, depth == 1), depth == 1 && IsRecipientKey(t.key))
  {
  }

  lemma OpenObjectStep(shape: Shape, b: seq<byte>, st: Lex)
    ensures Scan(shape, [OPEN_OBJECT] + b, st) ==
      if |st.stack| + 1 <= MAX_DEPTH then Scan(shape, b, Push(st, Object(0))) else Err(InputNestingLimit)
  {
    hide Scan;
    StepOne(shape, OPEN_OBJECT, b, st);
  }

  lemma OpenArrayStep(shape: Shape, b: seq<byte>, st: Lex)
    ensures Scan(shape, [OPEN_ARRAY] + b, st) ==
      if |st.stack| + 1 <= MAX_DEPTH
      then Scan(shape, b, Push(st,
        OpenedArray(st.totals, |st.stack|, NextIs(b, CLOSE_ARRAY)))) else Err(InputNestingLimit)
  {
    hide Scan; hide NextIs;
    StepOne(shape, OPEN_ARRAY, b, st);
  }

  lemma CloseObjectStep(shape: Shape, rest: seq<byte>, stack: seq<Container>, members: nat, t: Totals)
    ensures Scan(shape, [CLOSE_OBJECT] + rest, Lex(stack + [Object(members)], t)) == Scan(shape, rest, Lex(stack, t))
  {
    hide Scan;
    var st := Lex(stack + [Object(members)], t);
    StepOne(shape, CLOSE_OBJECT, rest, st);
    assert Popped(st).stack == stack;
  }

  lemma CloseArrayStep(shape: Shape, rest: seq<byte>, stack: seq<Container>, c: Container, t: Totals)
    requires c.Array?
    ensures Scan(shape, [CLOSE_ARRAY] + rest, Lex(stack + [c], t)) == Then(shape, ClosedArray(t, c), stack, rest)
  {
    hide Scan; hide ClosedArray;
    var st := Lex(stack + [c], t);
    StepOne(shape, CLOSE_ARRAY, rest, st);
    assert Top(st) == c && Popped(st).stack == stack;
  }

  lemma CommaStep(shape: Shape, rest: seq<byte>, stack: seq<Container>, c: Container, t: Totals)
    ensures Scan(shape, [COMMA] + rest, Lex(stack + [c], t)) ==
      if c.Object? then Scan(shape, rest, Lex(stack + [c], t))
      else if c.items + 1 <= c.maximum then Scan(shape, rest, Lex(stack + [c.(items := c.items + 1)], t))
      else Err(ResourceLimit)
  {
    hide Scan;
    var st := Lex(stack + [c], t);
    StepOne(shape, COMMA, rest, st);
    assert Top(st) == c && st.stack[..|st.stack| - 1] == stack;
  }

  lemma NameStep(shape: Shape, raw: seq<byte>, rest: seq<byte>, stack: seq<Container>, n: nat, t: Totals)
    requires IsBody(raw) && NextIs(rest, COLON)
    ensures Scan(shape, [QUOTE] + raw + [QUOTE] + rest, Lex(stack + [Object(n)], t)) ==
      if ReadName(raw).Err? then Err(ReadName(raw).error)
      else if n + 1 > MAX_MEMBERS then Err(ResourceLimit)
      else Scan(shape, rest, Lex(stack + [Object(n + 1)], t.(key := Some(ReadName(raw).value))))
  {
    hide Scan; hide ReadName; hide NextIs; hide IsBody;
    var st := Lex(stack + [Object(n)], t);
    StepString(shape, raw, rest, st);
    assert Top(st) == Object(n) && st.stack[..|st.stack| - 1] == stack;
  }

  lemma EmptyObjectIsWalk(shape: Shape, v: Json, rest: seq<byte>, stack: seq<Container>, t: Totals)
    requires WellFormed(v) && v.EmptyObj?
    ensures Scan(shape, Print(v) + rest, Lex(stack, t)) == Then(shape, Walk(shape, v, |stack|, t), stack, rest)
  {
    hide Scan; hide Step;
    var b := v.space + ([CLOSE_OBJECT] + rest);
    assert Print(v) + rest == [OPEN_OBJECT] + b;
    OpenObjectStep(shape, b, Lex(stack, t));
    ScanSpace(shape, v.space, [CLOSE_OBJECT] + rest, Lex(stack + [Object(0)], t));
    CloseObjectStep(shape, rest, stack, 0, t);
  }

  lemma EmptyArrayIsWalk(shape: Shape, v: Json, rest: seq<byte>, stack: seq<Container>, t: Totals)
    requires WellFormed(v) && v.EmptyArr?
    ensures Scan(shape, Print(v) + rest, Lex(stack, t)) == Then(shape, Walk(shape, v, |stack|, t), stack, rest)
  {
    hide Scan; hide Step; hide NextIs; hide OpenedArray; hide ItemLimit; hide IsRecipientKey;
    var b := v.space + ([CLOSE_ARRAY] + rest);
    assert Print(v) + rest == [OPEN_ARRAY] + b;
    assert b == v.space + [CLOSE_ARRAY] + rest;
    NextAfterSpace(v.space, CLOSE_ARRAY, rest);
    OpenArrayStep(shape, b, Lex(stack, t));
    OpenedIs(t, |stack|);
    var c := OpenedArray(t, |stack|, true);
    ScanSpace(shape, v.space, [CLOSE_ARRAY] + rest, Lex(stack + [c], t));
    CloseArrayStep(shape, rest, stack, c, t);
    ClosingList(t.key, |stack|, 0, t);
  }

  /** Closing a list that stayed within its boundary is counting it. */
  lemma ClosingList(key: Option<Name>, depth: nat, n: nat, t: Totals)
    requires n <= ItemLimit(key, depth == 1)
    ensures ClosedArray(t, Array(key, n, ItemLimit(key, depth == 1), depth == 1 && IsRecipientKey(key))) ==
      CountList(key, depth, n, t)
  {
  }

  lemma {:induction false} WalkedElemsFit(shape: Shape, es: Elems, n: nat, maximum: nat, depth: nat, t: Totals)
    requires WalkElems(shape, es, n, maximum, depth, t).Ok? && n <= maximum
    ensures n + ElemCount(es) - 1 <= maximum
    decreases es
  {
    if es.MoreElems? {
      WalkedElemsFit(shape, es.rest, n + 1, maximum, depth, Walk(shape, es.value, depth, t).value);
    }
  }

  /** An element list never looks empty. */
  lemma ElemsStart(es: Elems, tail: seq<byte>)
    requires ElemsWellFormed(es)
    ensures !NextIs(PrintElems(es) + tail, CLOSE_ARRAY)
  {
    FirstByte(es.value);
    var text := PrintElems(es) + tail;
    var first := Print(es.value)[0];
    var rest := text[|es.before| + 1..];
    assert text == es.before + [first] + rest;
    NextAfterSpace(es.before, first, rest);
  }

  /** A value between its whitespace and the mark that follows it. */
  lemma {:induction false} ValueIsWalk(
    shape: Shape, lead: seq<byte>, value: Json, after: seq<byte>, mark: byte, more: seq<byte>,
    stack: seq<Container>, t: Totals)
    requires AllSpace(lead) && WellFormed(value) && AllSpace(after) && !IsSpace(mark) && mark != COLON
    ensures Scan(shape, lead + (Print(value) + (after + ([mark] + more))), Lex(stack, t)) ==
      Then(shape, Walk(shape, value, |stack|, t), stack, [mark] + more)
    decreases value, 1
  {
    hide Scan; hide NextIs; hide AllSpace; hide WellFormed; hide Print; hide IsSpace; hide Walk;
    var follow := after + ([mark] + more);
    assert follow == after + [mark] + more;
    NextAfterSpace(after, mark, more);
    ScanSpace(shape, lead, Print(value) + follow, Lex(stack, t));
    ScanIsWalk(shape, value, follow, stack, t);
    if Walk(shape, value, |stack|, t).Ok? {
      ScanSpace(shape, after, [mark] + more, Lex(stack, Walk(shape, value, |stack|, t).value));
    }
  }

  lemma {:induction false} ElemsAreWalk(
    shape: Shape, es: Elems, n: nat, field: Option<Name>, maximum: nat, recipients: bool, rest: seq<byte>,
    stack: seq<Container>, t: Totals)
    requires ElemsWellFormed(es)
    ensures Scan(shape, PrintElems(es) +
      ([CLOSE_ARRAY] + rest), Lex(stack + [Array(field, n, maximum, recipients)], t)) ==
      Then(shape, WalkElems(shape, es, n, maximum, |stack| + 1, t),
        stack + [Array(field, n + ElemCount(es) - 1, maximum, recipients)], [CLOSE_ARRAY] + rest)
    decreases es, 0
  {
    hide Scan; hide AllSpace; hide WellFormed; hide Print; hide PrintElems; hide Walk;
    var inside := stack + [Array(field, n, maximum, recipients)];
    var mark := if es.LastElem? then CLOSE_ARRAY else COMMA;
    var more := if es.LastElem? then rest else PrintElems(es.rest) + ([CLOSE_ARRAY] + rest);
    ElemText(es, rest, more, mark);
    ValueIsWalk(shape, es.before, es.value, es.after, mark, more, inside, t);
    if es.MoreElems? && Walk(shape, es.value, |stack| + 1, t).Ok? {
      var after := Walk(shape, es.value, |stack| + 1, t).value;
      CommaStep(shape, more, stack, Array(field, n, maximum, recipients), after);
      if n + 1 <= maximum {
        ElemsAreWalk(shape, es.rest, n + 1, field, maximum, recipients, rest, stack, after);
      }
    }
  }

  lemma ElemText(es: Elems, rest: seq<byte>, more: seq<byte>, mark: byte)
    requires if es.LastElem? then mark == CLOSE_ARRAY && more == rest
             else mark == COMMA && more == PrintElems(es.rest) + ([CLOSE_ARRAY] + rest)
    ensures PrintElems(es) + ([CLOSE_ARRAY] + rest) == es.before + (Print(es.value) + (es.after + ([mark] + more)))
  {
    hide Print;
  }

  lemma {:induction false} MembersAreWalk(
    shape: Shape, ms: Members, n: nat, rest: seq<byte>, stack: seq<Container>, t: Totals)
    requires MembersWellFormed(ms)
    ensures Scan(shape, PrintMembers(ms) + ([CLOSE_OBJECT] + rest), Lex(stack + [Object(n)], t)) ==
      Then(shape, WalkMembers(shape, ms, n, |stack| + 1, t), stack + [Object(n + MemberCount(ms))], [CLOSE_OBJECT] +
        rest)
    decreases ms, 0
  {
    hide Scan; hide AllSpace; hide WellFormed; hide ReadName; hide IsBody; hide Print; hide PrintMembers; hide Walk;
    var mark := if ms.LastMember? then CLOSE_OBJECT else COMMA;
    var more := if ms.LastMember? then rest else PrintMembers(ms.rest) + ([CLOSE_OBJECT] + rest);
    var value := ms.lead + (Print(ms.value) + (ms.after + ([mark] + more)));
    MemberText(ms, rest, more, mark);
    NameIsRead(shape, ms.before, ms.name, ms.gap, value, stack, n, t);
    if ReadName(ms.name).Ok? && n + 1 <= MAX_MEMBERS {
      var inside, named := stack + [Object(n + 1)], t.(key := Some(ReadName(ms.name).value));
      ValueIsWalk(shape, ms.lead, ms.value, ms.after, mark, more, inside, named);
      if ms.MoreMembers? && Walk(shape, ms.value, |stack| + 1, named).Ok? {
        var after := Walk(shape, ms.value, |stack| + 1, named).value;
        CommaStep(shape, more, stack, Object(n + 1), after);
        MembersAreWalk(shape, ms.rest, n + 1, rest, stack, after);
      }
    }
  }

  /** A member name with its whitespace and colon. */
  lemma NameIsRead(
    shape: Shape, before: seq<byte>, raw: seq<byte>, gap: seq<byte>, value: seq<byte>, stack: seq<Container>,
    n: nat, t: Totals)
    requires AllSpace(before) && IsBody(raw) && AllSpace(gap)
    ensures Scan(shape, before + ([QUOTE] + raw + [QUOTE] + (gap + ([COLON] + value))), Lex(stack + [Object(n)], t)) ==
      if ReadName(raw).Err? then Err(ReadName(raw).error)
      else if n + 1 > MAX_MEMBERS then Err(ResourceLimit)
      else Scan(shape, value, Lex(stack + [Object(n + 1)], t.(key := Some(ReadName(raw).value))))
  {
    hide Scan; hide NextIs; hide AllSpace; hide ReadName; hide IsBody;
    var colon := gap + ([COLON] + value);
    ScanSpace(shape, before, [QUOTE] + raw + [QUOTE] + colon, Lex(stack + [Object(n)], t));
    assert colon == gap + [COLON] + value;
    NextAfterSpace(gap, COLON, value);
    NameStep(shape, raw, colon, stack, n, t);
    if ReadName(raw).Ok? {
      var named := Lex(stack + [Object(n + 1)], t.(key := Some(ReadName(raw).value)));
      ScanSpace(shape, gap, [COLON] + value, named);
      ScanPassesOver(shape, [COLON], value, named);
    }
  }

  lemma MemberText(ms: Members, rest: seq<byte>, more: seq<byte>, mark: byte)
    requires if ms.LastMember? then mark == CLOSE_OBJECT && more == rest
             else mark == COMMA && more == PrintMembers(ms.rest) + ([CLOSE_OBJECT] + rest)
    ensures PrintMembers(ms) + ([CLOSE_OBJECT] + rest) ==
      ms.before + ([QUOTE] + ms.name + [QUOTE] +
        (ms.gap + ([COLON] + (ms.lead + (Print(ms.value) + (ms.after + ([mark] + more)))))))
  {
    hide Print;
  }

  // ----- documents -----

  datatype Document = Document(before: seq<byte>, root: Json, after: seq<byte>)

  function Text(d: Document): seq<byte> { d.before + Print(d.root) + d.after }

  predicate IsDocument(d: Document) { AllSpace(d.before) && WellFormed(d.root) && AllSpace(d.after) }

  function Verdict(r: Result<Totals>): Result<()> { if r.Err? then Err(r.error) else Ok(()) }

  /** The verdict of the scan on any JSON document, printed with any whitespace,
      is the verdict of the tree walk, error for error. */
  lemma PreflightIsWalk(shape: Shape, d: Document)
    requires IsDocument(d)
    ensures Scan(shape, Text(d), START) ==
      Verdict(Walk(shape, d.root, 0, START.totals))
  {
    hide Scan; hide Walk; hide WellFormed; hide AllSpace;
    assert Text(d) == d.before + (Print(d.root) + d.after);
    ScanSpace(shape, d.before, Print(d.root) + d.after, START);
    NothingAfter(d.after);
    ScanIsWalk(shape, d.root, d.after, [], START.totals);
    if Walk(shape, d.root, 0, START.totals).Ok? {
      var st := Lex([], Walk(shape, d.root, 0, START.totals).value);
      assert d.after + [] == d.after;
      ScanSpace(shape, d.after, [], st);
      assert Scan(shape, [], st) == Ok(()) by { ScanEmpty(shape, st.totals); }
    }
  }

  lemma ScanEmpty(shape: Shape, t: Totals)
    ensures Scan(shape, [], Lex([], t)) == Ok(())
  {
  }

  lemma NothingAfter(space: seq<byte>)
    requires AllSpace(space)
    ensures !NextIs(space, COLON)
  {
    assert space + [] == space;
    SkipSpacePast(space, []);
  }

  // ----- what an accepted document measures -----

  function Nesting(v: Json): nat
    decreases v
  {
    match v
    case Atom(_) => 0
    case Str(_) => 0
    case EmptyArr(_) => 1
    case EmptyObj(_) => 1
    case Arr(elems) => 1 + ElemsNesting(elems)
    case Obj(members) => 1 + MembersNesting(members)
  }

  function ElemsNesting(es: Elems): nat
    decreases es
  {
    if es.LastElem? then Nesting(es.value) else Max(Nesting(es.value), ElemsNesting(es.rest))
  }

  function MembersNesting(ms: Members): nat
    decreases ms
  {
    if ms.LastMember? then Nesting(ms.value) else Max(Nesting(ms.value), MembersNesting(ms.rest))
  }

  /** Every array at any depth has at most 500 elements, every object at most 128 members. */
  predicate SmallContainers(v: Json)
    decreases v
  {
    match v
    case Arr(elems) => ElemCount(elems) <= 500 && ElemsSmall(elems)
    case Obj(members) => MemberCount(members) <= 128 && MembersSmall(members)
    case _ => true
  }

  predicate ElemsSmall(es: Elems)
    decreases es
  {
    SmallContainers(es.value) && (es.MoreElems? ==> ElemsSmall(es.rest))
  }

  predicate MembersSmall(ms: Members)
    decreases ms
  {
    SmallContainers(ms.value) && (ms.MoreMembers? ==> MembersSmall(ms.rest))
  }

  /** The length of the bytes a Base64 text stands for. */
  function DecodedSize(raw: seq<byte>): nat {
    match DecodeBase64(raw) case None => 0 case Some(bytes) => |bytes|
  }

  /** The bytes behind all strings that are the value of a `content_base64` member. */
  function AttachmentBytes(v: Json): nat
    decreases v
  {
    match v
    case Arr(elems) => ElemsBytes(elems)
    case Obj(members) => MembersBytes(members)
    case _ => 0
  }

  function ElemsBytes(es: Elems): nat
    decreases es
  {
    AttachmentBytes(es.value) + if es.LastElem? then 0 else ElemsBytes(es.rest)
  }

  function MembersBytes(ms: Members): nat
    decreases ms
  {
    (if ms.value.Str? && DecodeString(ms.name) == Some(Named("content_base64")) then DecodedSize(ms.value.raw)
     else AttachmentBytes(ms.value))
    + if ms.LastMember? then 0 else MembersBytes(ms.rest)
  }

  /** What a value inside `depth` containers adds to the recipients. */
  function ListItems(v: Json, depth: nat, key: Option<Name>): nat {
    if depth == 1 && IsRecipientKey(key) && v.Arr? then ElemCount(v.elems) else 0
  }

  /** The elements of the lists directly under `to`, `cc` and `bcc`. */
  function RecipientItems(ms: Members): nat {
    (if IsRecipientKey(DecodeString(ms.name)) && ms.value.Arr? then ElemCount(ms.value.elems) else 0)
    + if ms.LastMember? then 0 else RecipientItems(ms.rest)
  }

  lemma {:induction false} WalkMeasures(shape: Shape, v: Json, depth: nat, t: Totals)
    requires Walk(shape, v, depth, t).Ok? && depth <= MAX_DEPTH
    ensures depth + Nesting(v) <= MAX_DEPTH && SmallContainers(v)
    ensures t.attachments + AttachmentBytes(v) <= Walk(shape, v, depth, t).value.attachments
    ensures v.Str? && t.key == Some(Named("content_base64")) ==>
      t.attachments + DecodedSize(v.raw) <= Walk(shape, v, depth, t).value.attachments
    ensures t.attachments <= MAX_TOTAL_ATTACHMENT_BYTES ==>
      Walk(shape, v, depth, t).value.attachments <= MAX_TOTAL_ATTACHMENT_BYTES
    ensures depth >= 1 ==> Walk(shape, v, depth, t).value.recipients == t.recipients + ListItems(v, depth, t.key)
    decreases v
  {
    hide Named; hide CharLimit; hide ItemLimit; hide CountChars;
    match v {
      case Str(raw) => StringMeasures(shape, raw, t);
      case Obj(members) => MembersMeasure(shape, members, 0, depth + 1, t);
      case Arr(elems) =>
        ElemsMeasure(shape, elems, 1, ItemLimit(t.key, depth == 1), depth + 1, t);
        WalkedElemsFit(shape, elems, 1, ItemLimit(t.key, depth == 1), depth + 1, t);
        ItemLimitBound(t.key, depth == 1);
      case _ =>
    }
  }

  lemma ItemLimitBound(key: Option<Name>, topLevel: bool)
    ensures ItemLimit(key, topLevel) <= MAX_ITEMS
  {
  }

  lemma StringMeasures(shape: Shape, raw: seq<byte>, t: Totals)
    requires StringValue(shape, t, raw).Ok?
    ensures var after := StringValue(shape, t, raw).value;
      && after.recipients == t.recipients && t.attachments <= after.attachments
      && (t.key == Some(Named("content_base64")) ==> after.attachments == t.attachments + DecodedSize(raw))
      && (t.attachments <= MAX_TOTAL_ATTACHMENT_BYTES ==> after.attachments <= MAX_TOTAL_ATTACHMENT_BYTES)
  {
    hide Named; hide CharLimit; hide CountChars; hide Base64Length; hide DecodeBase64;
    Base64LengthIsDecodedLength(raw);
  }

  lemma {:induction false} ElemsMeasure(shape: Shape, es: Elems, n: nat, maximum: nat, depth: nat, t: Totals)
    requires WalkElems(shape, es, n, maximum, depth, t).Ok? && 1 <= depth <= MAX_DEPTH
    ensures depth + ElemsNesting(es) <= MAX_DEPTH && ElemsSmall(es)
    ensures t.attachments + ElemsBytes(es) <= WalkElems(shape, es, n, maximum, depth, t).value.attachments
    ensures t.attachments <= MAX_TOTAL_ATTACHMENT_BYTES ==>
      WalkElems(shape, es, n, maximum, depth, t).value.attachments <= MAX_TOTAL_ATTACHMENT_BYTES
    ensures depth >= 2 ==> WalkElems(shape, es, n, maximum, depth, t).value.recipients == t.recipients
    decreases es
  {
    hide Named; hide StringValue; hide CountList; hide Walk; hide SmallContainers; hide AttachmentBytes; hide Nesting;
    WalkMeasures(shape, es.value, depth, t);
    if es.MoreElems? {
      ElemsMeasure(shape, es.rest, n + 1, maximum, depth, Walk(shape, es.value, depth, t).value);
    }
  }

  lemma {:induction false} MembersMeasure(shape: Shape, ms: Members, n: nat, depth: nat, t: Totals)
    requires WalkMembers(shape, ms, n, depth, t).Ok? && 1 <= depth <= MAX_DEPTH
    ensures depth + MembersNesting(ms) <= MAX_DEPTH && MembersSmall(ms) && n + MemberCount(ms) <= MAX_MEMBERS
    ensures t.attachments + MembersBytes(ms) <= WalkMembers(shape, ms, n, depth, t).value.attachments
    ensures t.attachments <= MAX_TOTAL_ATTACHMENT_BYTES ==>
      WalkMembers(shape, ms, n, depth, t).value.attachments <= MAX_TOTAL_ATTACHMENT_BYTES
    ensures WalkMembers(shape, ms, n, depth, t).value.recipients ==
      t.recipients + if depth == 1 then RecipientItems(ms) else 0
    decreases ms
  {
    hide Named; hide StringValue; hide CountList; hide Walk; hide SmallContainers; hide AttachmentBytes;
    hide Nesting; hide DecodedSize;
    hide DecodeString; hide IsRecipientKey;
    var named := t.(key := Some(ReadName(ms.name).value));
    WalkMeasures(shape, ms.value, depth, named);
    if ms.MoreMembers? {
      MembersMeasure(shape, ms.rest, n + 1, depth, Walk(shape, ms.value, depth, named).value);
    }
  }

  /** A scan that accepts a document has bounded it: nesting at most 32, every
      array at most 500 elements, every object at most 128 members, the bytes
      behind its `content_base64` members at most 8 MiB together, and, at the top
      level, at most 50 recipients over the three lists. */
  lemma AcceptedDocumentsAreBounded(shape: Shape, d: Document)
    requires IsDocument(d) && Scan(shape, Text(d), START).Ok?
    ensures Nesting(d.root) <= 32
    ensures SmallContainers(d.root)
    ensures AttachmentBytes(d.root) <= 8_388_608
    ensures d.root.Obj? ==> RecipientItems(d.root.members) <= 50
  {
    hide Scan; hide Text; hide IsDocument; hide WalkMembers; hide SmallContainers;
    PreflightIsWalk(shape, d);
    WalkMeasures(shape, d.root, 0, START.totals);
    if d.root.Obj? {
      MembersMeasure(shape, d.root.members, 0, 1, START.totals);
      RecipientsStayBounded(shape, d.root, 0, START.totals);
    }
  }

  /** The recipient total never passes its bound. */
  lemma {:induction false} RecipientsStayBounded(shape: Shape, v: Json, depth: nat, t: Totals)
    requires Walk(shape, v, depth, t).Ok? && t.recipients <= MAX_RECIPIENTS
    ensures Walk(shape, v, depth, t).value.recipients <= MAX_RECIPIENTS
    decreases v
  {
    hide StringValue;
    match v {
      case Str(raw) => StringMeasures(shape, raw, t);
      case Obj(members) => MembersStayBounded(shape, members, 0, depth + 1, t);
      case Arr(elems) => ElemsStayBounded(shape, elems, 1, ItemLimit(t.key, depth == 1), depth + 1, t);
      case _ =>
    }
  }

  lemma {:induction false} ElemsStayBounded(shape: Shape, es: Elems, n: nat, maximum: nat, depth: nat, t: Totals)
    requires WalkElems(shape, es, n, maximum, depth, t).Ok? && t.recipients <= MAX_RECIPIENTS
    ensures WalkElems(shape, es, n, maximum, depth, t).value.recipients <= MAX_RECIPIENTS
    decreases es
  {
    hide Walk;
    RecipientsStayBounded(shape, es.value, depth, t);
    if es.MoreElems? {
      ElemsStayBounded(shape, es.rest, n + 1, maximum, depth, Walk(shape, es.value, depth, t).value);
    }
  }

  lemma {:induction false} MembersStayBounded(shape: Shape, ms: Members, n: nat, depth: nat, t: Totals)
    requires WalkMembers(shape, ms, n, depth, t).Ok? && t.recipients <= MAX_RECIPIENTS
    ensures WalkMembers(shape, ms, n, depth, t).value.recipients <= MAX_RECIPIENTS
    decreases ms
  {
    hide Walk;
    var named := t.(key := Some(ReadName(ms.name).value));
    RecipientsStayBounded(shape, ms.value, depth, named);
    if ms.MoreMembers? {
      MembersStayBounded(shape, ms.rest, n + 1, depth, Walk(shape, ms.value, depth, named).value);
    }
  }
}
