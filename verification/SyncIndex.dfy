/** One bounded mailbox sync: choosing UIDs, and storing the batch in the local
    index. */
module SyncIndex {
  import opened Basics

  type Uid = NonZeroU32

  const MAX_SYNC_LIMIT := 500

  datatype Scope = Scope(account: string, mailbox: string)

  datatype Key = Key(scope: Scope, validity: u32, uid: u32)

  datatype Message = Message(scope: Scope, validity: Option<u32>, uid: u32, content: string)

  datatype State = State(validity: u32, highest: Option<u32>, initialComplete: bool, remoteTotal: Option<nat>)

  datatype Batch = Batch(
    scope: Scope, validity: u32, messages: seq<Message>, remoteTotal: Option<nat>, hasMore: bool, resetRequired: bool)

  datatype Report = Report(state: State, indexed: nat, fetched: nat, reset: bool, hasMore: bool)

  datatype Db = Db(messages: map<Key, string>, states: map<Scope, State>)

  // ----- choosing UIDs -----

  predicate Before(a: Uid, b: Uid, ascending: bool) { if ascending then a <= b else b <= a }

  predicate Ordered(s: seq<Uid>, ascending: bool) {
    forall i, j | 0 <= i < j < |s| :: Before(s[i], s[j], ascending)
  }

  function Insert(x: Uid, s: seq<Uid>, ascending: bool): (r: seq<Uid>)
    ensures multiset(r) == multiset(s) + multiset{x} && |r| == |s| + 1
  {
    if |s| == 0 then [x]
    else if Before(x, s[0], ascending) then [x] + s
    else
      assert s == [s[0]] + s[1..];
      [s[0]] + Insert(x, s[1..], ascending)
  }

  lemma {:induction false} InsertKeepsOrder(x: Uid, s: seq<Uid>, ascending: bool)
    requires Ordered(s, ascending)
    ensures Ordered(Insert(x, s, ascending), ascending)
  {
    if |s| > 0 && !Before(x, s[0], ascending) {
      var rest := Insert(x, s[1..], ascending);
      InsertKeepsOrder(x, s[1..], ascending);
      forall i | 0 <= i < |rest| ensures Before(s[0], rest[i], ascending) {
        assert rest[i] in multiset(rest);
        assert rest[i] in s[1..] || rest[i] == x;
      }
    }
  }

  function Sort(s: seq<Uid>, ascending: bool): (r: seq<Uid>)
    ensures Ordered(r, ascending) && multiset(r) == multiset(s) && |r| == |s|
  {
    if |s| == 0 then []
    else
      assert s == [s[0]] + s[1..];
      var rest := Sort(s[1..], ascending);
      InsertKeepsOrder(s[0], rest, ascending);
      Insert(s[0], rest, ascending)
  }

  function FirstN<T>(s: seq<T>, n: nat): seq<T> { if |s| <= n then s else s[..n] }

  /** The UIDs one sync asks for. */
  function Window(found: seq<Uid>, limit: nat, incremental: bool): seq<Uid> {
    FirstN(Sort(found, incremental), limit)
  }

  /** The vector of UIDs that `select_sync_uids` rearranges in place. */
  class UidList {
    var items: seq<Uid>

    constructor (items: seq<Uid>)
      ensures this.items == items
    {
      this.items := items;
    }

    method Truncate(n: nat)
      modifies this
      ensures items == FirstN(old(items), n)
    {
      if |items| > n {
        items := items[..n];
      }
    }

    method SelectSyncUids(limit: nat, incremental: bool) returns (hasMore: bool)
      modifies this
      ensures items == Window(old(items), limit, incremental)
      ensures hasMore <==> |old(items)| > limit
    {
      items := Sort(items, incremental);
      Truncate(limit + 1);
      hasMore := |items| > limit;
      if hasMore {
        items := items[..|items| - 1];
      }
    }
  }

  predicate Distinct(s: seq<Uid>) { forall i, j | 0 <= i < j < |s| :: s[i] != s[j] }

  /** Counts tell membership and distinctness. */
  lemma {:induction false} DistinctCounts(s: seq<Uid>)
    ensures Distinct(s) <==> forall x | x in s :: multiset(s)[x] == 1
  {
    if |s| > 0 {
      var rest := s[1..];
      assert s == [s[0]] + rest;
      DistinctCounts(rest);
      if Distinct(s) {
        assert forall x | x in rest :: multiset(rest)[x] == 1;
        assert s[0] !in rest;
      }
      if forall x | x in s :: multiset(s)[x] == 1 {
        assert multiset(s)[s[0]] == 1 && multiset(rest)[s[0]] == 0;
        forall x | x in rest ensures multiset(rest)[x] == 1 {
          assert x in s;
        }
      }
    }
  }

  /** Among distinct UIDs the window is exactly the `limit` smallest (or, for a
      first window, the largest) of them: nothing skipped, nothing doubled. */
  lemma WindowIsExtreme(found: seq<Uid>, limit: nat, incremental: bool)
    requires Distinct(found)
    ensures var w := Window(found, limit, incremental);
      && Distinct(w) && |w| == (if |found| <= limit then |found| else limit)
      && (forall u | u in w :: u in found)
      && (|found| <= limit ==> forall u | u in found :: u in w)
      && (forall u, v | u in w && v in found && v !in w :: if incremental then u < v else v < u)
  {
    var all := Sort(found, incremental);
    var w := Window(found, limit, incremental);
    assert forall u :: u in found <==> u in multiset(found);
    assert forall u :: u in all <==> u in multiset(all);
    DistinctCounts(found);
    DistinctCounts(all);
    forall u, v | u in w && v in found && v !in w ensures if incremental then u < v else v < u {
      var i :| 0 <= i < |w| && w[i] == u;
      var j :| 0 <= j < |all| && all[j] == v;
      assert all[i] == u;
      assert j < |w| ==> v in w;
      assert Before(all[i], all[j], incremental);
    }
  }

  // ----- what a sync reads from the server -----

  datatype Cursor = Cursor(validity: u32, highest: Option<u32>)

  /** The server's side of one session: the UIDs the search returned, those it
      returned envelopes for, and their contents. */
  datatype Session = Session(
    validity: Option<Uid>, found: seq<Uid>, answered: set<Uid>, content: Uid -> string, total: Option<nat>)

  /** The UID the search starts after, if any. */
  function SearchAfter(cursor: Option<Cursor>, validity: u32): Option<u32> {
    if cursor.Some? && cursor.value.validity == validity then cursor.value.highest else None
  }

  /** Each asked UID takes its own envelope out of the answer, once. */
  function Envelopes(scope: Scope, validity: u32, uids: seq<Uid>, s: Session): (ms: seq<Message>)
    ensures forall m | m in ms :: m.scope == scope && m.validity == Some(validity) && m.uid != 0
    ensures |ms| <= |uids|
  {
    if |uids| == 0 then []
    else if uids[0] in s.answered then
      [Message(scope, Some(validity), uids[0], s.content(uids[0]))]
        + Envelopes(scope, validity, uids[1..], s.(answered := s.answered - {uids[0]}))
    else Envelopes(scope, validity, uids[1..], s)
  }

  /** `sync_mailbox` of the IMAP reader. */
  function FetchBatch(scope: Scope, cursor: Option<Cursor>, limit: nat, s: Session): Result<Batch> {
    if s.validity.None? then Err(InvalidInput)
    else
      var validity := s.validity.value;
      var after := SearchAfter(cursor, validity);
      var uids: seq<Uid> := if after == Some(U32_MAX) then [] else s.found;
      var window := Window(uids, limit, after.Some?);
      Ok(Batch(scope, validity, Envelopes(scope, validity, window, s), s.total, |uids| > limit,
        cursor.Some? && cursor.value.validity != validity))
  }

  // ----- storing a batch -----

  function KeyOf(m: Message): Key
    requires m.validity.Some?
  {
    Key(m.scope, m.validity.value, m.uid)
  }

  /** `validate_batch`; the scope syntax is a parameter. */
  predicate ValidBatch(b: Batch, validScope: Scope -> bool) {
    && validScope(b.scope)
    && b.validity != 0 && |b.messages| <= MAX_SYNC_LIMIT
    && forall m | m in b.messages :: m.uid != 0 && m.scope == b.scope && m.validity == Some(b.validity)
  }

  function Upserted(messages: map<Key, string>, ms: seq<Message>): map<Key, string>
    requires forall m | m in ms :: m.validity.Some?
    decreases |ms|
  {
    if |ms| == 0 then messages else Upserted(messages[KeyOf(ms[0]) := ms[0].content], ms[1..])
  }

  function MaxUid(ms: seq<Message>): Option<u32> {
    if |ms| == 0 then None else Larger(MaxUid(ms[..|ms| - 1]), Some(ms[|ms| - 1].uid))
  }

  function Larger(a: Option<u32>, b: Option<u32>): Option<u32> {
    if a.None? then b else if b.None? then a else if a.value < b.value then b else a
  }

  function Resets(db: Db, b: Batch, replace: bool): bool {
    replace || b.resetRequired || (b.scope in db.states && db.states[b.scope].validity != b.validity)
  }

  function Without(messages: map<Key, string>, scope: Scope): map<Key, string> {
    map k | k in messages && k.scope != scope :: messages[k]
  }

  function StateAfter(db: Db, b: Batch, replace: bool): State {
    var reset := Resets(db, b, replace);
    var known := b.scope in db.states;
    State(b.validity,
      if reset || !known then MaxUid(b.messages) else Larger(db.states[b.scope].highest, MaxUid(b.messages)),
      if reset || !known then !b.hasMore else db.states[b.scope].initialComplete,
      b.remoteTotal)
  }

  function Stored(messages: map<Key, string>, scope: Scope): set<Key> {
    set k | k in messages && k.scope == scope
  }

  function Applied(db: Db, b: Batch, replace: bool): (r: (Db, Report))
    requires forall m | m in b.messages :: m.validity.Some?
  {
    var reset := Resets(db, b, replace);
    var messages := Upserted(if reset then Without(db.messages, b.scope) else db.messages, b.messages);
    var state := StateAfter(db, b, replace);
    (Db(messages, db.states[b.scope := state]),
     Report(state, |Stored(messages, b.scope)|, |b.messages|, reset, b.hasMore))
  }

  class Index {
    var messages: map<Key, string>
    var states: map<Scope, State>

    constructor ()
      ensures Now() == Db(map[], map[])
    {
      messages := map[];
      states := map[];
    }

    function Now(): Db
      reads this
    {
      Db(messages, states)
    }

    /** `apply_sync`: a batch outside the limits is refused whole. */
    method ApplySync(b: Batch, replace: bool, validScope: Scope -> bool) returns (r: Result<Report>)
      modifies this
      ensures r.Ok? <==>
        && validScope(b.scope) && b.validity != 0 && |b.messages| <= 500
        && forall m | m in b.messages :: m.uid != 0 && m.scope == b.scope && m.validity == Some(b.validity)
      ensures r.Ok? ==> (Now(), r.value) == Applied(old(Now()), b, replace)
      ensures r.Err? ==> r == Err(InvalidInput) && Now() == old(Now())
    {
      if !ValidBatch(b, validScope) {
        return Err(InvalidInput);
      }
      var known := b.scope in states;
      var reset := replace || b.resetRequired || (known && states[b.scope].validity != b.validity);
      if reset {
        messages := map k | k in messages && k.scope != b.scope :: messages[k];
      }
      ghost var start := messages;
      assert b.messages[0..] == b.messages;
      for i := 0 to |b.messages|
        invariant Upserted(messages, b.messages[i..]) == Upserted(start, b.messages)
        invariant states == old(states)
      {
        var m := b.messages[i];
        assert b.messages[i..][0] == m && b.messages[i..][1..] == b.messages[i + 1..];
        messages := messages[KeyOf(m) := m.content];
      }
      var batchHighest: Option<u32> := None;
      for i := 0 to |b.messages|
        invariant batchHighest == MaxUid(b.messages[..i])
      {
        assert b.messages[..i + 1][..i] == b.messages[..i];
        batchHighest := Larger(batchHighest, Some(b.messages[i].uid));
      }
      assert b.messages[..|b.messages|] == b.messages;
      var state := State(b.validity,
        if reset || !known then batchHighest else Larger(states[b.scope].highest, batchHighest),
        if reset || !known then !b.hasMore else states[b.scope].initialComplete,
        b.remoteTotal);
      states := states[b.scope := state];
      return Ok(Report(state, |Stored(messages, b.scope)|, |b.messages|, reset, b.hasMore));
    }
  }

  // ----- what storing a batch means -----

  function BatchKeys(b: Batch): set<Key>
    requires forall m | m in b.messages :: m.validity.Some?
  {
    set m | m in b.messages :: KeyOf(m)
  }

  lemma {:induction false} UpsertedKeys(messages: map<Key, string>, ms: seq<Message>)
    requires forall m | m in ms :: m.validity.Some?
    ensures forall k :: k in Upserted(messages, ms) <==> k in messages || exists m | m in ms :: KeyOf(m) == k
    ensures forall k | k in messages && !(exists m | m in ms :: KeyOf(m) == k) ::
      Upserted(messages, ms)[k] == messages[k]
    decreases |ms|
  {
    if |ms| > 0 {
      UpsertedKeys(messages[KeyOf(ms[0]) := ms[0].content], ms[1..]);
      assert ms == [ms[0]] + ms[1..];
    }
  }

  lemma {:induction false} MaxUidIsMax(ms: seq<Message>)
    ensures MaxUid(ms).None? <==> ms == []
    ensures MaxUid(ms).Some? ==>
      (exists m | m in ms :: m.uid == MaxUid(ms).value) && forall m | m in ms :: m.uid <= MaxUid(ms).value
  {
    if |ms| > 0 {
      MaxUidIsMax(ms[..|ms| - 1]);
      assert ms == ms[..|ms| - 1] + [ms[|ms| - 1]];
    }
  }

  /** The stored UIDs of a mailbox after a batch are those before it (none, after
      a reset) and those of the batch; other mailboxes are untouched. */
  lemma AppliedStores(db: Db, b: Batch, replace: bool)
    requires forall m | m in b.messages :: m.scope == b.scope && m.validity == Some(b.validity)
    ensures var next := Applied(db, b, replace).0;
      && Stored(next.messages, b.scope) ==
           (if Resets(db, b, replace) then {} else Stored(db.messages, b.scope)) + BatchKeys(b)
      && (forall k: Key | k.scope != b.scope :: k in next.messages <==> k in db.messages)
      && (forall k: Key | k.scope != b.scope && k in db.messages :: next.messages[k] == db.messages[k])
      && (forall scope: Scope | scope != b.scope && scope in db.states ::
        scope in next.states && next.states[scope] == db.states[scope])
  {
    hide Upserted; hide MaxUid; hide Larger; hide Resets; hide StateAfter;
    var base := if Resets(db, b, replace) then Without(db.messages, b.scope) else db.messages;
    StoredAfter(base, b);
    OthersAfter(base, b);
  }

  lemma StoredAfter(base: map<Key, string>, b: Batch)
    requires forall m | m in b.messages :: m.scope == b.scope && m.validity == Some(b.validity)
    ensures Stored(Upserted(base, b.messages), b.scope) == Stored(base, b.scope) + BatchKeys(b)
  {
    hide Upserted;
    UpsertedKeys(base, b.messages);
  }

  lemma OthersAfter(base: map<Key, string>, b: Batch)
    requires forall m | m in b.messages :: m.scope == b.scope && m.validity == Some(b.validity)
    ensures forall k: Key | k.scope != b.scope :: k in Upserted(base, b.messages) <==> k in base
    ensures forall k: Key | k.scope != b.scope && k in base :: Upserted(base, b.messages)[k] == base[k]
  {
    hide Upserted;
    UpsertedKeys(base, b.messages);
  }

  lemma {:induction false} EnvelopesAnswered(scope: Scope, validity: u32, uids: seq<Uid>, s: Session)
    ensures forall u: u32 ::
      (exists m | m in Envelopes(scope, validity, uids, s) :: m.uid == u) <==> u in uids && u in s.answered
  {
    if |uids| > 0 {
      var left := if uids[0] in s.answered then s.(answered := s.answered - {uids[0]}) else s;
      EnvelopesAnswered(scope, validity, uids[1..], left);
      var rest := Envelopes(scope, validity, uids[1..], left);
      var all := Envelopes(scope, validity, uids, s);
      assert uids == [uids[0]] + uids[1..];
      forall u: u32 ensures (exists m | m in all :: m.uid == u) <==> u in uids && u in s.answered {
        assert (exists m | m in rest :: m.uid == u) <==> u in uids[1..] && u in left.answered;
        if uids[0] in s.answered {
          assert all == [all[0]] + rest && all[0].uid == uids[0];
          if u == uids[0] { assert all[0] in all; }
          if m :| m in rest && m.uid == u { assert m in all; }
        }
      }
    }
  }
}
