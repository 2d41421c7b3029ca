/** Whole histories of one mailbox: a server that grows, expunges and renumbers,
    and syncs that must neither miss nor forget what lies in their range. */
module SyncRuns {
  import opened Basics
  import opened SyncIndex

  // ----- the server -----

  /** `ever` holds every UID assigned under the current UIDVALIDITY. */
  datatype Remote = Remote(validity: Uid, ever: set<Uid>, present: set<Uid>)

  predicate RemoteOk(r: Remote) { r.present <= r.ever }

  datatype Change = Arrive(uid: Uid) | Expunge(uid: Uid)

  /** A UID may only be assigned above every earlier one. */
  function Changed(r: Remote, c: Change): Remote {
    match c
    case Arrive(uid) =>
      if forall u | u in r.ever :: u < uid then r.(ever := r.ever + {uid}, present := r.present + {uid}) else r
    case Expunge(uid) => r.(present := r.present - {uid})
  }

  function ChangedAll(r: Remote, cs: seq<Change>): Remote
    decreases |cs|
  {
    if |cs| == 0 then r else ChangedAll(Changed(r, cs[0]), cs[1..])
  }

  /** What can happen to the server while UIDVALIDITY stands: what was assigned
      stays assigned, arrivals are above it, and nothing expunged comes back. */
  predicate Evolves(r: Remote, later: Remote) {
    && later.validity == r.validity && r.ever <= later.ever
    && (forall u | u in later.present && u in r.ever :: u in r.present)
    && (forall u, v | u in r.ever && v in later.ever && v !in r.ever :: u < v)
  }

  lemma {:induction false} ChangesEvolve(r: Remote, cs: seq<Change>)
    requires RemoteOk(r)
    ensures RemoteOk(ChangedAll(r, cs)) && Evolves(r, ChangedAll(r, cs))
    decreases |cs|
  {
    if |cs| > 0 {
      ChangesEvolve(Changed(r, cs[0]), cs[1..]);
    }
  }

  /** Section 6.4.8 of RFC 3501: `start:*` stands for the UIDs between `start`
      and the largest one in the mailbox, in either order. */
  predicate InRange(u: Uid, start: int, star: Uid) {
    if start <= star then start <= u <= star else star <= u <= start
  }

  predicate IsMax(u: Uid, present: set<Uid>) { u in present && forall v | v in present :: v <= u }

  /** So the range holds everything from `start` on, and always the last message. */
  lemma RangeIsTailAndLast(u: Uid, start: int, star: Uid, present: set<Uid>)
    requires IsMax(star, present) && u in present
    ensures InRange(u, start, star) <==> start <= u || IsMax(u, present)
  {
  }

  /** `sync_search_keys`: ALL, or the range that starts just above the cursor. */
  predicate Matches(u: Uid, after: Option<u32>, present: set<Uid>) {
    u in present && (after.None? || exists star | star in present ::
      IsMax(star, present) && InRange(u, after.value + 1, star))
  }

  lemma MatchesAbove(u: Uid, after: u32, present: set<Uid>, star: Uid)
    requires IsMax(star, present)
    ensures Matches(u, Some(after), present) <==> u in present && (after < u || u == star)
  {
    if u in present {
      RangeIsTailAndLast(u, after + 1, star, present);
    }
  }

  /** The session of one sync: the search sees the server at one moment, the
      fetch at a later one; a search result is distinct but in any order. */
  ghost predicate Answers(s: Session, after: Option<u32>, searched: Remote, fetched: Remote) {
    && s.validity == Some(searched.validity)
    && Distinct(s.found) && (forall u :: u in s.found <==> Matches(u, after, searched.present))
    && s.answered == fetched.present
  }

  // ----- the runtime's sync -----

  function CursorOf(db: Db, scope: Scope, refresh: bool): Option<Cursor> {
    if refresh || scope !in db.states then None
    else Some(Cursor(db.states[scope].validity, db.states[scope].highest))
  }

  /** `MailService::sync_mailbox`: a request outside the limits, or a mailbox
      without UIDVALIDITY, changes nothing. */
  function SyncMailbox(db: Db, scope: Scope, limit: nat, refresh: bool, s: Session): (Db, Option<Report>) {
    if !(1 <= limit <= MAX_SYNC_LIMIT) then (db, None)
    else
      match FetchBatch(scope, CursorOf(db, scope, refresh), limit, s)
      case Err(_) => (db, None)
      case Ok(b) =>
        var out := Applied(db, b, refresh || b.resetRequired);
        (out.0, Some(out.1))
  }

  /** The store never refuses a batch the reader built. */
  lemma FetchedBatchIsValid(scope: Scope, cursor: Option<Cursor>, limit: nat, s: Session, validScope: Scope -> bool)
    requires limit <= 500 && validScope(scope) && FetchBatch(scope, cursor, limit, s).Ok?
    ensures ValidBatch(FetchBatch(scope, cursor, limit, s).value, validScope)
  {
  }

  /** The same call over the index object. */
  method SyncMailboxCall(index: Index, scope: Scope, limit: nat, refresh: bool, s: Session, validScope: Scope -> bool)
    returns (r: Option<Report>)
    requires validScope(scope)
    modifies index
    ensures (index.Now(), r) == SyncMailbox(old(index.Now()), scope, limit, refresh, s)
  {
    if !(1 <= limit <= MAX_SYNC_LIMIT) { return None; }
    var cursor := CursorOf(index.Now(), scope, refresh);
    var batch := FetchBatch(scope, cursor, limit, s);
    if batch.Err? { return None; }
    FetchedBatchIsValid(scope, cursor, limit, s, validScope);
    var report := index.ApplySync(batch.value, refresh || batch.value.resetRequired, validScope);
    return Some(report.value);
  }

  /** What the cache promises about one mailbox by itself. */
  predicate IndexOk(db: Db, scope: Scope) {
    if scope !in db.states then Stored(db.messages, scope) == {}
    else
      var st := db.states[scope];
      && st.validity != 0
      && (forall k | k in Stored(db.messages, scope) :: k.validity == st.validity && k.uid != 0)
      && match st.highest
         case None => Stored(db.messages, scope) == {}
         case Some(h) =>
           Key(scope, st.validity, h) in db.messages && forall k | k in Stored(db.messages, scope) :: k.uid <= h
  }

  predicate Has(db: Db, scope: Scope, validity: u32, u: Uid) { Key(scope, validity, u) in db.messages }

  /** The UID just searched after, for a session at `validity`. */
  function After(db: Db, scope: Scope, refresh: bool, validity: u32): Option<u32> {
    SearchAfter(CursorOf(db, scope, refresh), validity)
  }

  /** The window of one sync, as UIDs. */
  function Asked(db: Db, scope: Scope, limit: nat, refresh: bool, s: Session): seq<Uid>
    requires s.validity.Some?
  {
    var after := After(db, scope, refresh, s.validity.value);
    Window(if after == Some(U32_MAX) then [] else s.found, limit, after.Some?)
  }

  // ----- one sync in set terms -----

  predicate Clears(db: Db, scope: Scope, refresh: bool, validity: u32) {
    refresh || (scope in db.states && db.states[scope].validity != validity)
  }

  /** A sync stores exactly the answered part of its window, on top of what it
      does not clear, moves the cursor to the new maximum, and keeps the cache's
      promise. */
  lemma SyncStores(db: Db, scope: Scope, limit: nat, refresh: bool, s: Session)
    requires IndexOk(db, scope) && s.validity.Some? && 1 <= limit <= 500
    ensures var next := SyncMailbox(db, scope, limit, refresh, s).0;
      var v := s.validity.value;
      && IndexOk(next, scope) && scope in next.states && next.states[scope].validity == v
      && (forall u: Uid :: Has(next, scope, v, u) <==>
            (u in Asked(db, scope, limit, refresh, s) && u in s.answered)
            || (!Clears(db, scope, refresh, v) && Has(db, scope, v, u)))
  {
    hide Window; hide StateAfter; hide Resets; hide Upserted; hide Envelopes; hide MaxUid;
    var v := s.validity.value;
    var window := Asked(db, scope, limit, refresh, s);
    var b := FetchBatch(scope, CursorOf(db, scope, refresh), limit, s).value;
    var replace := refresh || b.resetRequired;
    EnvelopesAnswered(scope, v, window, s);
    AppliedStores(db, b, replace);
    ResetsIffClears(db, scope, limit, refresh, s);
    var next := Applied(db, b, replace).0;
    forall u: Uid
      ensures Has(next, scope, v, u) <==>
        (u in window && u in s.answered) || (!Clears(db, scope, refresh, v) && Has(db, scope, v, u))
    {
      StoredIsHas(next.messages, scope, v, u);
      StoredIsHas(db.messages, scope, v, u);
      KeysOfEnvelopes(b, scope, v, u);
    }
    CursorIsMax(db, b, replace);
  }

  lemma StoredIsHas(messages: map<Key, string>, scope: Scope, validity: u32, u: u32)
    ensures Key(scope, validity, u) in messages <==> Key(scope, validity, u) in Stored(messages, scope)
  {
  }

  lemma KeysOfEnvelopes(b: Batch, scope: Scope, validity: u32, u: u32)
    requires forall m | m in b.messages :: m.scope == scope && m.validity == Some(validity)
    ensures Key(scope, validity, u) in BatchKeys(b) <==> exists m | m in b.messages :: m.uid == u
  {
    if m :| m in b.messages && m.uid == u {
      assert KeyOf(m) == Key(scope, validity, u);
    }
  }

  lemma ResetsIffClears(db: Db, scope: Scope, limit: nat, refresh: bool, s: Session)
    requires s.validity.Some?
    ensures var b := FetchBatch(scope, CursorOf(db, scope, refresh), limit, s).value;
      Resets(db, b, refresh || b.resetRequired) <==> Clears(db, scope, refresh, s.validity.value)
  {
  }

  /** The stored cursor is the maximum of what is stored, whatever was cleared. */
  lemma CursorIsMax(db: Db, b: Batch, replace: bool)
    requires IndexOk(db, b.scope) && b.validity != 0
    requires forall m | m in b.messages :: m.scope == b.scope && m.validity == Some(b.validity) && m.uid != 0
    ensures IndexOk(Applied(db, b, replace).0, b.scope)
    ensures b.scope in Applied(db, b, replace).0.states
    ensures Applied(db, b, replace).0.states[b.scope].validity == b.validity
  {
    hide Upserted; hide MaxUid; hide Stored;
    var next := Applied(db, b, replace).0;
    var kept := if Resets(db, b, replace) then {} else Stored(db.messages, b.scope);
    var before := if Resets(db, b, replace) || b.scope !in db.states then None else db.states[b.scope].highest;
    AppliedStores(db, b, replace);
    assert next.states[b.scope].highest == Larger(before, MaxUid(b.messages));
    assert IsCursor(kept, before, b.scope, b.validity) by { KeptCursor(db, b, replace); }
    BatchCursor(b);
    CursorUnion(kept, before, BatchKeys(b), MaxUid(b.messages), b.scope, b.validity);
    CursorIsIndexOk(next, b.scope, b.validity);
  }

  /** `highest` is exactly the largest UID of a set of keys of one namespace. */
  predicate IsCursor(keys: set<Key>, highest: Option<u32>, scope: Scope, validity: u32) {
    && (forall k | k in keys :: k.scope == scope && k.validity == validity && k.uid != 0)
    && match highest
       case None => keys == {}
       case Some(h) => Key(scope, validity, h) in keys && forall k | k in keys :: k.uid <= h
  }

  lemma KeptCursor(db: Db, b: Batch, replace: bool)
    requires IndexOk(db, b.scope)
    ensures var kept := if Resets(db, b, replace) then {} else Stored(db.messages, b.scope);
      var before := if Resets(db, b, replace) || b.scope !in db.states then None else db.states[b.scope].highest;
      IsCursor(kept, before, b.scope, b.validity)
  {
  }

  lemma BatchCursor(b: Batch)
    requires forall m | m in b.messages :: m.scope == b.scope && m.validity == Some(b.validity) && m.uid != 0
    ensures IsCursor(BatchKeys(b), MaxUid(b.messages), b.scope, b.validity)
  {
    MaxUidIsMax(b.messages);
    if MaxUid(b.messages).Some? {
      KeysOfEnvelopes(b, b.scope, b.validity, MaxUid(b.messages).value);
    }
  }

  lemma CursorUnion(a: set<Key>, x: Option<u32>, b: set<Key>, y: Option<u32>, scope: Scope, validity: u32)
    requires IsCursor(a, x, scope, validity) && IsCursor(b, y, scope, validity)
    ensures IsCursor(a + b, Larger(x, y), scope, validity)
  {
  }

  lemma CursorIsIndexOk(db: Db, scope: Scope, validity: u32)
    requires scope in db.states && db.states[scope].validity == validity != 0
    requires IsCursor(Stored(db.messages, scope), db.states[scope].highest, scope, validity)
    ensures IndexOk(db, scope)
  {
  }

  // ----- no hole -----

  /** Every UID present on the server between the low mark and the cursor is
      indexed, and nothing is indexed that was never assigned. */
  ghost predicate NoHole(db: Db, scope: Scope, r: Remote, low: Option<Uid>) {
    && IndexOk(db, scope) && RemoteOk(r)
    && (scope in db.states ==> db.states[scope].validity <= r.validity)
    && (scope in db.states && db.states[scope].validity == r.validity ==>
          && (forall u: Uid | Has(db, scope, r.validity, u) :: u in r.ever)
          && (db.states[scope].highest.Some? ==>
                low.Some? && forall u | u in r.present && low.value <= u <= db.states[scope].highest.value ::
                  Has(db, scope, r.validity, u)))
  }

  /** The low mark: the smallest UID asked for by the first window, since the
      last reset, that stored anything. */
  function LowAfter(db: Db, scope: Scope, limit: nat, refresh: bool, s: Session, low: Option<Uid>): Option<Uid>
    requires s.validity.Some?
  {
    var asked := Asked(db, scope, limit, refresh, s);
    if After(db, scope, refresh, s.validity.value).Some? then low
    else if exists u | u in asked :: u in s.answered then Some(asked[|asked| - 1])
    else None
  }

  lemma OlderStaysCovered(r: Remote, later: Remote, u: Uid, bound: u32)
    requires RemoteOk(r) && RemoteOk(later) && Evolves(r, later) && u in later.present && u <= bound
    requires exists b | b in r.ever :: bound <= b
    ensures u in r.present
  {
  }

  /** A window above nothing: all that is present from its smallest UID on was asked for. */
  lemma FirstWindowCovers(s: Session, limit: nat, r: Remote, u: Uid)
    requires Distinct(s.found) && (forall x :: x in s.found <==> x in r.present)
    requires var w := Window(s.found, limit, false); |w| > 0 && u in r.present && w[|w| - 1] <= u
    ensures u in Window(s.found, limit, false)
  {
    hide Window;
    WindowIsExtreme(s.found, limit, false);
    var w := Window(s.found, limit, false);
    assert w[|w| - 1] in w;
  }

  lemma LastMessage(present: set<Uid>) returns (star: Uid)
    requires present != {}
    ensures IsMax(star, present)
  {
    var u :| u in present;
    var others := present - {u};
    assert forall v | v in present :: v == u || v in others;
    if others == {} {
      star := u;
    } else {
      var rest := LastMessage(others);
      star := if u < rest then rest else u;
    }
  }

  lemma AboveMatches(u: Uid, after: u32, present: set<Uid>)
    requires u in present && after < u
    ensures Matches(u, Some(after), present)
  {
    var star := LastMessage(present);
    MatchesAbove(u, after, present, star);
  }

  lemma IndexFacts(db: Db, scope: Scope)
    requires IndexOk(db, scope)
    ensures scope in db.states ==> forall u: Uid | Has(db, scope, db.states[scope].validity, u) ::
      db.states[scope].highest.Some? && u <= db.states[scope].highest.value
    ensures scope in db.states && db.states[scope].highest.Some? ==>
      db.states[scope].highest.value != 0 && Has(db, scope, db.states[scope].validity, db.states[scope].highest.value)
    ensures scope !in db.states ==> forall v, u: Uid :: !Has(db, scope, v, u)
  {
    if scope in db.states && db.states[scope].highest.Some? {
      StoredIsHas(db.messages, scope, db.states[scope].validity, db.states[scope].highest.value);
    }
    if scope !in db.states {
      forall v, u: Uid ensures !Has(db, scope, v, u) {
        StoredIsHas(db.messages, scope, v, u);
      }
    } else {
      forall u: Uid | Has(db, scope, db.states[scope].validity, u)
        ensures db.states[scope].highest.Some? && u <= db.states[scope].highest.value
      {
        StoredIsHas(db.messages, scope, db.states[scope].validity, u);
      }
    }
  }

  /** Everything indexed after a sync was assigned before its search. */
  lemma SyncStoresAssigned(
    db: Db, scope: Scope, r: Remote, limit: nat, refresh: bool, s: Session, low: Option<Uid>, later: Remote, u: Uid)
    requires NoHole(db, scope, r, low) && 1 <= limit <= 500
    requires Answers(s, After(db, scope, refresh, r.validity), r, later)
    requires Has(SyncMailbox(db, scope, limit, refresh, s).0, scope, r.validity, u)
    ensures u in r.ever
  {
    hide SyncMailbox; hide Window; hide IndexOk;
    SyncStores(db, scope, limit, refresh, s);
    WindowIsExtreme(s.found, limit, After(db, scope, refresh, r.validity).Some?);
    WindowIsExtreme([], limit, After(db, scope, refresh, r.validity).Some?);
    IndexFacts(db, scope);
    if u in Asked(db, scope, limit, refresh, s) {
      assert u in s.found;
    }
  }

  /** A first window: all that is present between its smallest UID and the new
      cursor was asked for and answered. */
  lemma FirstSyncCovers(
    db: Db, scope: Scope, r: Remote, later: Remote, limit: nat, refresh: bool, s: Session, low: Option<Uid>, u: Uid)
    requires NoHole(db, scope, r, low) && RemoteOk(later) && Evolves(r, later) && 1 <= limit <= 500
    requires Answers(s, After(db, scope, refresh, r.validity), r, later) && After(db, scope, refresh, r.validity).None?
    requires var next := SyncMailbox(db, scope, limit, refresh, s).0;
      scope in next.states && next.states[scope].highest.Some? && u <= next.states[scope].highest.value
      && Has(next, scope, r.validity, next.states[scope].highest.value)
    requires u in later.present
    ensures var low' := LowAfter(db, scope, limit, refresh, s, low);
      low'.Some? && (low'.value <= u ==> Has(SyncMailbox(db, scope, limit, refresh, s).0, scope, r.validity, u))
  {
    hide SyncMailbox; hide Window; hide IndexOk;
    var next := SyncMailbox(db, scope, limit, refresh, s).0;
    var h := next.states[scope].highest.value;
    SyncStores(db, scope, limit, refresh, s);
    IndexFacts(db, scope);
    SyncStoresAssigned(db, scope, r, limit, refresh, s, low, later, h);
    assert h in Asked(db, scope, limit, refresh, s) && h in s.answered;
    var low' := LowAfter(db, scope, limit, refresh, s, low);
    if low'.value <= u {
      OlderStaysCovered(r, later, u, h);
      FirstWindowCovers(s, limit, r, u);
    }
  }

  /** An incremental window: up to the new cursor, all that is above the old one
      was asked for and answered. */
  lemma IncrementCovers(
    db: Db, scope: Scope, r: Remote, later: Remote, limit: nat, refresh: bool, s: Session, low: Option<Uid>, u: Uid)
    requires NoHole(db, scope, r, low) && RemoteOk(later) && Evolves(r, later) && 1 <= limit <= 500
    requires Answers(s, After(db, scope, refresh, r.validity), r, later) && After(db, scope, refresh, r.validity).Some?
    requires var next := SyncMailbox(db, scope, limit, refresh, s).0;
      scope in next.states && next.states[scope].highest.Some? && u <= next.states[scope].highest.value
      && Has(next, scope, r.validity, next.states[scope].highest.value)
    requires u in later.present && low.Some? && low.value <= u
    ensures Has(SyncMailbox(db, scope, limit, refresh, s).0, scope, r.validity, u)
  {
    hide SyncMailbox; hide Window; hide IndexOk; hide Matches;
    var next := SyncMailbox(db, scope, limit, refresh, s).0;
    var after := After(db, scope, refresh, r.validity).value;
    var h := next.states[scope].highest.value;
    SyncStores(db, scope, limit, refresh, s);
    IndexFacts(db, scope);
    SyncStoresAssigned(db, scope, r, limit, refresh, s, low, later, h);
    OlderStaysCovered(r, later, u, h);
    if after < u {
      assert h in Asked(db, scope, limit, refresh, s);
      AboveMatches(u, after, r.present);
      WindowIsExtreme(s.found, limit, true);
    }
  }

  lemma SyncKeepsNoHole(
    db: Db, scope: Scope, r: Remote, later: Remote, limit: nat, refresh: bool, s: Session, low: Option<Uid>)
    requires NoHole(db, scope, r, low) && RemoteOk(later) && Evolves(r, later) && 1 <= limit <= 500
    requires Answers(s, After(db, scope, refresh, r.validity), r, later)
    ensures NoHole(SyncMailbox(db, scope, limit, refresh, s).0, scope, later,
      LowAfter(db, scope, limit, refresh, s, low))
  {
    hide SyncMailbox; hide Window; hide IndexOk; hide Asked; hide Answers; hide LowAfter; hide Evolves;
    var v := r.validity;
    var next := SyncMailbox(db, scope, limit, refresh, s).0;
    SameValidity(s, After(db, scope, refresh, v), r, later);
    var low' := LowAfter(db, scope, limit, refresh, s, low);
    SyncStores(db, scope, limit, refresh, s);
    IndexFacts(next, scope);
    forall u: Uid | Has(next, scope, v, u) ensures u in later.ever {
      SyncStoresAssigned(db, scope, r, limit, refresh, s, low, later, u);
    }
    if next.states[scope].highest.Some? {
      var h := next.states[scope].highest.value;
      if After(db, scope, refresh, v).None? {
        assert low'.Some? by { HighestWasAsked(db, scope, r, limit, refresh, s, low); }
        forall u | u in later.present && low'.value <= u <= h ensures Has(next, scope, v, u) {
          FirstSyncCovers(db, scope, r, later, limit, refresh, s, low, u);
        }
      } else {
        assert low' == low by { LowStays(db, scope, limit, refresh, s, low); }
        CursorHasLow(db, scope, r, low, refresh);
        forall u | u in later.present && low'.value <= u <= h ensures Has(next, scope, v, u) {
          IncrementCovers(db, scope, r, later, limit, refresh, s, low, u);
        }
      }
    }
  }

  lemma SameValidity(s: Session, after: Option<u32>, r: Remote, later: Remote)
    requires Answers(s, after, r, later) && Evolves(r, later)
    ensures s.validity == Some(r.validity) && later.validity == r.validity && r.ever <= later.ever
  {
  }

  lemma LowStays(db: Db, scope: Scope, limit: nat, refresh: bool, s: Session, low: Option<Uid>)
    requires s.validity.Some? && After(db, scope, refresh, s.validity.value).Some?
    ensures LowAfter(db, scope, limit, refresh, s, low) == low
  {
  }

  lemma CursorHasLow(db: Db, scope: Scope, r: Remote, low: Option<Uid>, refresh: bool)
    requires NoHole(db, scope, r, low) && After(db, scope, refresh, r.validity).Some?
    ensures low.Some?
  {
  }

  lemma HighestWasAsked(db: Db, scope: Scope, r: Remote, limit: nat, refresh: bool, s: Session, low: Option<Uid>)
    requires NoHole(db, scope, r, low) && s.validity == Some(r.validity) && 1 <= limit <= 500
    requires After(db, scope, refresh, r.validity).None?
    requires var next := SyncMailbox(db, scope, limit, refresh, s).0;
      scope in next.states && next.states[scope].highest.Some? && next.states[scope].highest.value != 0
      && Has(next, scope, r.validity, next.states[scope].highest.value)
    ensures LowAfter(db, scope, limit, refresh, s, low).Some?
  {
    hide SyncMailbox; hide Window; hide IndexOk;
    SyncStores(db, scope, limit, refresh, s);
    IndexFacts(db, scope);
    var h: Uid := SyncMailbox(db, scope, limit, refresh, s).0.states[scope].highest.value;
    assert h in Asked(db, scope, limit, refresh, s) && h in s.answered;
  }

  // ----- histories -----

  datatype Event =
    | ServerChange(change: Change)
    | Renumber(validity: Uid, ever: set<Uid>, present: set<Uid>)
    | Sync(limit: nat, refresh: bool, session: Session, meanwhile: seq<Change>)
    | OtherSync(scope: Scope, limit: nat, refresh: bool, session: Session)

  datatype World = World(db: Db, remote: Remote, low: Option<Uid>)

  /** Syncs of the mailbox do not overlap; the server may change between a search
      and its fetch, and other mailboxes are synced at will. */
  ghost predicate Possible(w: World, scope: Scope, e: Event) {
    match e
    case ServerChange(_) => true
    case Renumber(validity, ever, present) => w.remote.validity < validity && present <= ever
    case Sync(_, refresh, s, meanwhile) =>
      Answers(s, After(w.db, scope, refresh, w.remote.validity), w.remote, ChangedAll(w.remote, meanwhile))
    case OtherSync(other, _, _, s) => other != scope && s.validity.Some?
  }

  ghost function Next(w: World, scope: Scope, e: Event): World
    requires Possible(w, scope, e)
  {
    match e
    case ServerChange(c) => w.(remote := Changed(w.remote, c))
    case Renumber(validity, ever, present) => w.(remote := Remote(validity, ever, present))
    case Sync(limit, refresh, s, meanwhile) =>
      World(SyncMailbox(w.db, scope, limit, refresh, s).0, ChangedAll(w.remote, meanwhile),
        if 1 <= limit <= MAX_SYNC_LIMIT then LowAfter(w.db, scope, limit, refresh, s, w.low) else w.low)
    case OtherSync(other, limit, refresh, s) => w.(db := SyncMailbox(w.db, other, limit, refresh, s).0)
  }

  ghost function Took(w: World, scope: Scope, e: Event): World {
    if Possible(w, scope, e) then Next(w, scope, e) else w
  }

  /** A history: what cannot happen changes nothing. */
  ghost function Run(w: World, scope: Scope, events: seq<Event>): World
    decreases |events|
  {
    if |events| == 0 then w else Run(Took(w, scope, events[0]), scope, events[1..])
  }

  lemma EvolvingKeepsNoHole(db: Db, scope: Scope, r: Remote, later: Remote, low: Option<Uid>)
    requires NoHole(db, scope, r, low) && RemoteOk(later) && Evolves(r, later)
    ensures NoHole(db, scope, later, low)
  {
    hide IndexOk;
    if scope in db.states && db.states[scope].validity == r.validity && db.states[scope].highest.Some? {
      IndexFacts(db, scope);
      forall u | u in later.present && low.value <= u <= db.states[scope].highest.value
        ensures Has(db, scope, r.validity, u)
      {
        OlderStaysCovered(r, later, u, db.states[scope].highest.value);
      }
    }
  }

  lemma OtherSyncKeepsNoHole(
    db: Db, scope: Scope, r: Remote, low: Option<Uid>, other: Scope, limit: nat, refresh: bool, s: Session)
    requires NoHole(db, scope, r, low) && other != scope
    ensures NoHole(SyncMailbox(db, other, limit, refresh, s).0, scope, r, low)
  {
    hide NoHole; hide Applied; hide Window; hide Envelopes;
    if 1 <= limit <= MAX_SYNC_LIMIT && s.validity.Some? {
      var b := FetchBatch(other, CursorOf(db, other, refresh), limit, s).value;
      var next := Applied(db, b, refresh || b.resetRequired).0;
      AppliedStores(db, b, refresh || b.resetRequired);
      AppliedStates(db, b, refresh || b.resetRequired, scope);
      SameMailbox(db, next, scope, r, low);
    }
  }

  lemma SameMailbox(db: Db, next: Db, scope: Scope, r: Remote, low: Option<Uid>)
    requires NoHole(db, scope, r, low)
    requires forall k: Key | k.scope == scope :: k in next.messages <==> k in db.messages
    requires scope in next.states <==> scope in db.states
    requires scope in db.states ==> next.states[scope] == db.states[scope]
    ensures NoHole(next, scope, r, low)
  {
    assert Stored(next.messages, scope) == Stored(db.messages, scope);
    assert forall v, u: Uid :: Has(next, scope, v, u) <==> Has(db, scope, v, u);
  }

  lemma AppliedStates(db: Db, b: Batch, replace: bool, scope: Scope)
    requires scope != b.scope && forall m | m in b.messages :: m.validity.Some?
    ensures scope in Applied(db, b, replace).0.states <==> scope in db.states
  {
  }

  /** No hole, ever: over any history of arrivals above all earlier UIDs,
      expunges, renumberings, and syncs whose search and fetch see the server at
      different moments, everything still present between the low mark and the
      cursor is indexed, each row carries the recorded UIDVALIDITY, and the
      cursor is exactly the largest stored UID. */
  lemma NoHoleEver(scope: Scope, r: Remote, events: seq<Event>)
    requires RemoteOk(r)
    ensures var w := Run(World(Db(map[], map[]), r, None), scope, events); NoHole(w.db, scope, w.remote, w.low)
  {
    var empty: map<Key, string> := map[];
    assert Stored(empty, scope) == {};
    RunKeepsNoHole(World(Db(map[], map[]), r, None), scope, events);
  }

  lemma {:induction false} RunKeepsNoHole(w: World, scope: Scope, events: seq<Event>)
    requires NoHole(w.db, scope, w.remote, w.low)
    ensures var last := Run(w, scope, events); NoHole(last.db, scope, last.remote, last.low)
    decreases |events|
  {
    hide NoHole; hide Possible; hide Next;
    if |events| > 0 {
      if Possible(w, scope, events[0]) {
        EventKeepsNoHole(w, scope, events[0]);
        RunKeepsNoHole(Next(w, scope, events[0]), scope, events[1..]);
      } else {
        RunKeepsNoHole(w, scope, events[1..]);
      }
    }
  }

  lemma EventKeepsNoHole(w: World, scope: Scope, e: Event)
    requires NoHole(w.db, scope, w.remote, w.low) && Possible(w, scope, e)
    ensures var next := Next(w, scope, e); NoHole(next.db, scope, next.remote, next.low)
  {
    hide IndexOk; hide Answers; hide LowAfter; hide Has; hide Changed; hide Evolves; hide ChangedAll; hide FetchBatch;
    match e {
      case ServerChange(c) =>
        ChangesEvolve(w.remote, [c]);
        OneChange(w.remote, c);
        EvolvingKeepsNoHole(w.db, scope, w.remote, Changed(w.remote, c), w.low);
      case Renumber(_, _, _) =>
      case Sync(limit, refresh, s, meanwhile) =>
        var later := ChangedAll(w.remote, meanwhile);
        ChangesEvolve(w.remote, meanwhile);
        if 1 <= limit <= MAX_SYNC_LIMIT {
          SyncKeepsNoHole(w.db, scope, w.remote, later, limit, refresh, s, w.low);
        } else {
          EvolvingKeepsNoHole(w.db, scope, w.remote, later, w.low);
        }
      case OtherSync(other, limit, refresh, s) =>
        OtherSyncKeepsNoHole(w.db, scope, w.remote, w.low, other, limit, refresh, s);
    }
  }

  lemma OneChange(r: Remote, c: Change)
    ensures ChangedAll(r, [c]) == Changed(r, c)
  {
    assert [c][1..] == [];
  }
}
