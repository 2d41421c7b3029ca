/** What is stored under a key, and what a sync reports: contents never move from
    one UID to another, within one sync or over a history. */
module SyncContent {
  import opened Basics
  import opened SyncIndex
  import opened SyncRuns

  function AnsweredOf(uids: seq<Uid>, answered: set<Uid>): set<Uid> { set u | u in uids && u in answered }

  /** The answered part of one window. */
  function Returned(db: Db, scope: Scope, limit: nat, refresh: bool, s: Session): set<Uid>
    requires s.validity.Some?
  {
    AnsweredOf(Asked(db, scope, limit, refresh, s), s.answered)
  }

  /** The key is that of a returned UID. */
  predicate Renewed(db: Db, scope: Scope, limit: nat, refresh: bool, s: Session, k: Key)
    requires s.validity.Some?
  {
    && k.scope == scope && Some(k.validity) == s.validity && k.uid != 0
    && k.uid in Returned(db, scope, limit, refresh, s)
  }

  // ----- one batch -----

  lemma {:induction false} EnvelopesCarry(scope: Scope, validity: u32, uids: seq<Uid>, s: Session)
    ensures forall m | m in Envelopes(scope, validity, uids, s) :: m.uid != 0 && m.content == s.content(m.uid)
    ensures |Envelopes(scope, validity, uids, s)| == |AnsweredOf(uids, s.answered)|
  {
    if |uids| > 0 {
      var u := uids[0];
      var left := if u in s.answered then s.(answered := s.answered - {u}) else s;
      EnvelopesCarry(scope, validity, uids[1..], left);
      TakeOne(uids, s.answered);
    }
  }

  lemma TakeOne(uids: seq<Uid>, answered: set<Uid>)
    requires |uids| > 0
    ensures |AnsweredOf(uids, answered)| == |AnsweredOf(uids[1..], answered - {uids[0]})|
      + if uids[0] in answered then 1 else 0
    ensures uids[0] !in answered ==> AnsweredOf(uids, answered) == AnsweredOf(uids[1..], answered)
  {
    assert uids == [uids[0]] + uids[1..];
    var rest := AnsweredOf(uids[1..], answered - {uids[0]});
    if uids[0] in answered {
      assert AnsweredOf(uids, answered) == {uids[0]} + rest;
    } else {
      assert AnsweredOf(uids, answered) == rest;
    }
  }

  /** When all messages of one UID agree, an upsert stores just their content. */
  lemma {:induction false} UpsertedContent(messages: map<Key, string>, ms: seq<Message>, m: Message)
    requires forall n | n in ms :: n.validity.Some?
    requires m in ms && forall n | n in ms && KeyOf(n) == KeyOf(m) :: n.content == m.content
    ensures KeyOf(m) in Upserted(messages, ms) && Upserted(messages, ms)[KeyOf(m)] == m.content
    decreases |ms|
  {
    var first := messages[KeyOf(ms[0]) := ms[0].content];
    assert ms == [ms[0]] + ms[1..];
    if n :| n in ms[1..] && KeyOf(n) == KeyOf(m) {
      UpsertedContent(first, ms[1..], n);
    } else {
      assert m == ms[0];
      UpsertedKeys(first, ms[1..]);
    }
  }

  // ----- one sync -----

  /** One sync stores, under each UID it asked for and was answered, that very
      UID's envelope; every other row it keeps is as it was. */
  lemma SyncStoresContent(db: Db, scope: Scope, limit: nat, refresh: bool, s: Session)
    requires s.validity.Some? && 1 <= limit <= 500
    ensures var next := SyncMailbox(db, scope, limit, refresh, s).0;
      var v := s.validity.value;
      && (forall u: Uid | u in Returned(db, scope, limit, refresh, s) ::
            Has(next, scope, v, u) && next.messages[Key(scope, v, u)] == s.content(u))
      && (forall k: Key | k in next.messages && !Renewed(db, scope, limit, refresh, s, k) ::
            k in db.messages && next.messages[k] == db.messages[k])
  {
    hide Window; hide StateAfter; hide Resets; hide Upserted; hide Envelopes; hide Asked;
    var v := s.validity.value;
    var window := Asked(db, scope, limit, refresh, s);
    var b := BatchOf(db, scope, limit, refresh, s);
    var base := if Resets(db, b, refresh || b.resetRequired) then Without(db.messages, scope) else db.messages;
    var next := SyncMailbox(db, scope, limit, refresh, s).0;
    assert next.messages == Upserted(base, b.messages);
    EnvelopesAnswered(scope, v, window, s);
    EnvelopesCarry(scope, v, window, s);
    forall u: Uid | u in Returned(db, scope, limit, refresh, s)
      ensures Has(next, scope, v, u) && next.messages[Key(scope, v, u)] == s.content(u)
    {
      var m :| m in b.messages && m.uid == u;
      UpsertedContent(base, b.messages, m);
    }
    UpsertedKeys(base, b.messages);
  }

  function BatchOf(db: Db, scope: Scope, limit: nat, refresh: bool, s: Session): (b: Batch)
    requires s.validity.Some?
    ensures FetchBatch(scope, CursorOf(db, scope, refresh), limit, s) == Ok(b)
    ensures b.messages == Envelopes(scope, s.validity.value, Asked(db, scope, limit, refresh, s), s)
    ensures b.scope == scope && b.validity == s.validity.value && b.remoteTotal == s.total
  {
    FetchBatch(scope, CursorOf(db, scope, refresh), limit, s).value
  }

  /** What the cursor is for a session at `validity`, and what one sync reports
      and records, in the terms of the request and the session. */
  lemma SyncReports(db: Db, scope: Scope, limit: nat, refresh: bool, s: Session)
    ensures s.validity.None? || limit == 0 || limit > 500 ==> SyncMailbox(db, scope, limit, refresh, s) == (db, None)
    ensures s.validity.Some? && 1 <= limit <= 500 ==>
      var (next, report) := SyncMailbox(db, scope, limit, refresh, s);
      var after := After(db, scope, refresh, s.validity.value);
      var clears := Clears(db, scope, refresh, s.validity.value);
      && (after.Some? ==> scope in db.states && !clears && db.states[scope].highest == after)
      && (scope in db.states && !clears ==> after == db.states[scope].highest)
      && report.Some? && next.states.Keys == db.states.Keys + {scope} && report.value.state == next.states[scope]
      && report.value.reset == clears && report.value.fetched == |Returned(db, scope, limit, refresh, s)|
      && (report.value.hasMore <==> |s.found| > limit && after != Some(U32_MAX))
      && report.value.indexed == |Stored(next.messages, scope)|
      && next.states[scope].remoteTotal == s.total
      && (next.states[scope].initialComplete <==>
            if clears || scope !in db.states then |s.found| <= limit else db.states[scope].initialComplete)
  {
    hide Window; hide Upserted; hide Envelopes; hide MaxUid; hide Larger; hide Stored;
    if s.validity.Some? && 1 <= limit <= 500 {
      var b := BatchOf(db, scope, limit, refresh, s);
      EnvelopesCarry(scope, b.validity, Asked(db, scope, limit, refresh, s), s);
    }
  }

  // ----- a history -----

  /** The world just before event `i`. */
  ghost function Before(w: World, scope: Scope, events: seq<Event>, i: nat): World
    requires i <= |events|
  {
    Run(w, scope, events[..i])
  }

  /** Event `i` is a sync that ran. */
  ghost predicate Synced(w: World, scope: Scope, events: seq<Event>, i: nat)
    requires i < |events|
  {
    && events[i].Sync? && 1 <= events[i].limit <= 500
    && Possible(Before(w, scope, events, i), scope, events[i]) && events[i].session.validity.Some?
  }

  /** Event `i` is a sync whose session, at the key's UIDVALIDITY, was asked for
      that UID and returned it. */
  ghost predicate Returns(w: World, scope: Scope, events: seq<Event>, i: nat, k: Key)
    requires i < |events|
  {
    && Synced(w, scope, events, i) && events[i].session.validity == Some(k.validity) && k.uid != 0
    && k.uid in Returned(Before(w, scope, events, i).db, scope, events[i].limit, events[i].refresh, events[i].session)
  }

  lemma BeforeShifts(w: World, scope: Scope, events: seq<Event>, i: nat)
    requires i < |events|
    ensures Before(w, scope, events, i + 1) == Before(Took(w, scope, events[0]), scope, events[1..], i)
    ensures Before(w, scope, events, 0) == w
  {
    assert events[..i + 1][1..] == events[1..][..i];
  }

  lemma ReturnsShifts(w: World, scope: Scope, events: seq<Event>, i: nat, k: Key)
    requires i + 1 < |events|
    ensures Returns(w, scope, events, i + 1, k) <==> Returns(Took(w, scope, events[0]), scope, events[1..], i, k)
  {
    hide Run; hide Possible; hide Next; hide Asked; hide Took;
    BeforeShifts(w, scope, events, i);
  }

  lemma EventKeepsContent(w: World, scope: Scope, e: Event, k: Key)
    requires k.scope == scope && k in Took(w, scope, e).db.messages
    ensures var next := Took(w, scope, e).db.messages[k];
      if Returns(w, scope, [e], 0, k) then next == e.session.content(k.uid)
      else k in w.db.messages && next == w.db.messages[k]
  {
    hide SyncMailbox; hide Asked; hide Answers; hide Changed; hide ChangedAll; hide LowAfter; hide Returned;
    BeforeShifts(w, scope, [e], 0);
    if Possible(w, scope, e) {
      match e {
        case ServerChange(_) =>
        case Renumber(_, _, _) =>
        case Sync(limit, refresh, s, meanwhile) =>
          assert s.validity.Some? by { SessionHasValidity(w, scope, e); }
          if 1 <= limit <= 500 {
            SyncStoresContent(w.db, scope, limit, refresh, s);
          } else {
            SyncReports(w.db, scope, limit, refresh, s);
          }
        case OtherSync(other, limit, refresh, s) =>
          SyncReports(w.db, other, limit, refresh, s);
          if 1 <= limit <= 500 {
            SyncStoresContent(w.db, other, limit, refresh, s);
          }
      }
    }
  }

  lemma SessionHasValidity(w: World, scope: Scope, e: Event)
    requires e.Sync? && Possible(w, scope, e)
    ensures e.session.validity.Some?
  {
  }

  /** The last sync that returned the key, if one did, told its content. */
  ghost predicate Told(w: World, scope: Scope, events: seq<Event>, k: Key, content: string, i: nat)
    requires i < |events|
  {
    && Returns(w, scope, events, i, k) && content == events[i].session.content(k.uid)
    && forall j | i < j < |events| :: !Returns(w, scope, events, j, k)
  }

  /** Over any history, a row holds what the last session of its UIDVALIDITY that
      was asked for its UID and returned it returned for that very UID; a row no
      session returned is as it was at the start. */
  lemma {:induction false} RowsHoldTheLastAnswer(w: World, scope: Scope, events: seq<Event>, k: Key)
    requires k.scope == scope && k in Run(w, scope, events).db.messages
    ensures var content := Run(w, scope, events).db.messages[k];
      || (exists i | 0 <= i < |events| :: Told(w, scope, events, k, content, i))
      || (k in w.db.messages && content == w.db.messages[k]
          && forall j | 0 <= j < |events| :: !Returns(w, scope, events, j, k))
    decreases |events|
  {
    hide Took; hide Returns;
    if |events| > 0 {
      var next, rest := Took(w, scope, events[0]), events[1..];
      var content := Run(w, scope, events).db.messages[k];
      RowsHoldTheLastAnswer(next, scope, rest, k);
      forall j | 0 <= j < |rest| ensures Returns(w, scope, events, j + 1, k) <==> Returns(next, scope, rest, j, k) {
        ReturnsShifts(w, scope, events, j, k);
      }
      if i :| 0 <= i < |rest| && Told(next, scope, rest, k, content, i) {
        LaterNever(w, scope, events, k, i + 1);
        assert Told(w, scope, events, k, content, i + 1);
      } else {
        EventKeepsContent(w, scope, events[0], k);
        FirstReturns(w, scope, events, k);
        LaterNever(w, scope, events, k, 0);
        if Returns(w, scope, events, 0, k) {
          assert Told(w, scope, events, k, content, 0);
        }
      }
    }
  }

  lemma FirstReturns(w: World, scope: Scope, events: seq<Event>, k: Key)
    requires |events| > 0
    ensures Returns(w, scope, events, 0, k) <==> Returns(w, scope, [events[0]], 0, k)
  {
    hide Run; hide Possible; hide Asked;
    BeforeShifts(w, scope, events, 0);
    BeforeShifts(w, scope, [events[0]], 0);
  }

  /** No return after `i` in the tail is no return after it in the whole. */
  lemma LaterNever(w: World, scope: Scope, events: seq<Event>, k: Key, i: nat)
    requires |events| > 0 && i <= |events|
    requires forall j | 0 <= j < |events| - 1 ::
      Returns(w, scope, events, j + 1, k) <==> Returns(Took(w, scope, events[0]), scope, events[1..], j, k)
    requires forall j | i <= j < |events| - 1 :: !Returns(Took(w, scope, events[0]), scope, events[1..], j, k)
    ensures forall j | i < j < |events| :: !Returns(w, scope, events, j, k)
  {
    hide Returns; hide Took;
    forall j | i < j < |events| ensures !Returns(w, scope, events, j, k) {
      assert !Returns(Took(w, scope, events[0]), scope, events[1..], j - 1, k);
      assert Returns(w, scope, events, (j - 1) + 1, k)
        <==> Returns(Took(w, scope, events[0]), scope, events[1..], j - 1, k);
    }
  }

  /** From an empty cache, then, every indexed row holds what some session of that
      UIDVALIDITY returned for that very UID. */
  lemma EveryRowWasReturned(scope: Scope, r: Remote, events: seq<Event>, k: Key)
    requires var w := World(Db(map[], map[]), r, None); k.scope == scope && k in Run(w, scope, events).db.messages
    ensures var w := World(Db(map[], map[]), r, None);
      exists i | 0 <= i < |events| :: Told(w, scope, events, k, Run(w, scope, events).db.messages[k], i)
  {
    RowsHoldTheLastAnswer(World(Db(map[], map[]), r, None), scope, events, k);
  }
}
