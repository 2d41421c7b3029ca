/** What every ledger transaction keeps: reconciliation row by row, and an audit
    log that spells the history of each row. */
module LedgerFacts {
  import opened Basics
  import opened Ledger

  ghost predicate Sound(o: Oracle, db: Db) {
    forall id | id in db.operations :: db.operations[id].digest == (o.digest)(db.operations[id].payload)
  }

  // ----- the log of one operation -----

  lemma LogOfAppend(events: seq<Event>, e: Event, id: Id)
    ensures LogOf(events + [e], id) == if e.id == id then LogOf(events, id) + [e] else LogOf(events, id)
  {
    assert (events + [e])[..|events|] == events;
  }

  // ----- reconciliation, row by row -----

  predicate Distinct(ids: seq<Id>) {
    forall i, j | 0 <= i < j < |ids| :: ids[i] != ids[j]
  }

  lemma {:induction false} SelectIsDistinct(sweep: Sweep, db: Db, order: seq<Id>, now: Time)
    requires Distinct(order)
    ensures Distinct(Select(sweep, db, order, now))
    decreases |order|
  {
    if |order| > 0 {
      SelectIsDistinct(sweep, db, order[1..], now);
    }
  }

  function SweepEvent(sweep: Sweep, id: Id, row: Row, now: Time): Event {
    Event(id, EventKindOf(sweep), StatusOf(sweep), now, row.digest)
  }

  /** What a sweep that does or does not reach `id` leaves of its row and log. */
  predicate SweptAt(sweep: Sweep, db: Db, next: Db, id: Id, reached: bool, now: Time) {
    && (id in next.operations <==> id in db.operations)
    && if id in db.operations && reached
       then
         && next.operations[id] == Changed(sweep, db.operations[id], now)
         && LogOf(next.events, id) == LogOf(db.events, id) + [SweepEvent(sweep, id, db.operations[id], now)]
       else
         && (id in db.operations ==> next.operations[id] == db.operations[id])
         && LogOf(next.events, id) == LogOf(db.events, id)
  }

  lemma SweepOneRow(o: Oracle, sweep: Sweep, db: Db, target: Id, now: Time, id: Id)
    requires Sound(o, db) && target in db.operations && Guarded(sweep, db.operations[target])
    ensures SweepOne(o, sweep, db, target, now).Ok?
    ensures var next := SweepOne(o, sweep, db, target, now).value;
      Sound(o, next) && SweptAt(sweep, db, next, id, id == target, now)
  {
    LogOfAppend(db.events, SweepEvent(sweep, target, db.operations[target], now), id);
  }

  lemma {:induction false} SweepPointwise(o: Oracle, sweep: Sweep, db: Db, ids: seq<Id>, now: Time, id: Id)
    requires Sound(o, db) && Distinct(ids)
    requires forall x | x in ids :: x in db.operations && Guarded(sweep, db.operations[x])
    ensures SweepAll(o, sweep, db, ids, now).Ok?
    ensures var next := SweepAll(o, sweep, db, ids, now).value;
      Sound(o, next) && SweptAt(sweep, db, next, id, id in ids, now)
    decreases |ids|
  {
    hide SweepOne; hide LogOf; hide Changed; hide Guarded; hide SweepEvent;
    if |ids| > 0 {
      SweepOneRow(o, sweep, db, ids[0], now, id);
      var mid := SweepOne(o, sweep, db, ids[0], now).value;
      forall x | x in ids[1..] ensures x in mid.operations && Guarded(sweep, mid.operations[x]) {
        SweepOneRow(o, sweep, db, ids[0], now, x);
      }
      SweepPointwise(o, sweep, mid, ids[1..], now, id);
    }
  }

  /** What reconciliation makes of a row. */
  function Settled(row: Row, now: Time): Row {
    if Selected(Expiry, row, now) then Changed(Expiry, row, now)
    else if Selected(Staleness, row, now) then Changed(Staleness, row, now)
    else row
  }

  function SettledLog(id: Id, row: Row, now: Time): seq<Event> {
    if Selected(Expiry, row, now) then [SweepEvent(Expiry, id, row, now)]
    else if Selected(Staleness, row, now) then [SweepEvent(Staleness, id, row, now)]
    else []
  }

  predicate SettledAt(db: Db, next: Db, id: Id, now: Time) {
    && (id in next.operations <==> id in db.operations)
    && if id in db.operations
       then
         && next.operations[id] == Settled(db.operations[id], now)
         && LogOf(next.events, id) == LogOf(db.events, id) + SettledLog(id, db.operations[id], now)
       else LogOf(next.events, id) == LogOf(db.events, id)
  }

  lemma SelectReaches(sweep: Sweep, db: Db, order: seq<Id>, now: Time, id: Id)
    requires Lists(order, db)
    ensures Distinct(Select(sweep, db, order, now))
    ensures id in Select(sweep, db, order, now) <==> id in db.operations && Selected(sweep, db.operations[id], now)
  {
    SelectIsDistinct(sweep, db, order, now);
  }

  /** On a sound store reconciliation never fails, and in whatever order the
      engine returns the rows it settles each of them on its own: the loops
      amount to one pointwise update and at most one new event per row. */
  lemma ReconcileIsPointwise(o: Oracle, db: Db, now: Time, scan: Scan, id: Id)
    requires Sound(o, db) && Scans(scan, db)
    ensures Reconcile(o, db, now, scan).Ok?
    ensures Sound(o, Reconcile(o, db, now, scan).value)
    ensures SettledAt(db, Reconcile(o, db, now, scan).value, id, now)
  {
    hide LogOf; hide SweepAll; hide Lists; hide Distinct; hide SweepEvent;
    var first := Select(Expiry, db, scan.expiry, now);
    SelectReaches(Expiry, db, scan.expiry, now, id);
    SweepPointwise(o, Expiry, db, first, now, id);
    var mid := SweepAll(o, Expiry, db, first, now).value;
    forall x ensures x in mid.operations <==> x in db.operations {
      SweepPointwise(o, Expiry, db, first, now, x);
    }
    SameKeysSameLists(scan.stale, db, mid);
    var second := Select(Staleness, mid, scan.stale, now);
    SelectReaches(Staleness, mid, scan.stale, now, id);
    SweepPointwise(o, Staleness, mid, second, now, id);
    assert LogOf(db.events, id) + [] == LogOf(db.events, id);
  }

  lemma SameKeysSameLists(order: seq<Id>, db: Db, next: Db)
    requires Lists(order, db) && forall id :: id in next.operations <==> id in db.operations
    ensures Lists(order, next)
  {
  }

  /** Reconciling twice at one time changes nothing the second time, not even
      the log. */
  lemma ReconcileIsIdempotent(o: Oracle, db: Db, now: Time, scan: Scan, again: Scan)
    requires Sound(o, db) && Scans(scan, db)
    ensures Reconcile(o, db, now, scan).Ok?
    ensures Reconcile(o, Reconcile(o, db, now, scan).value, now, again) == Reconcile(o, db, now, scan)
  {
    hide Select; hide SweepEvent; hide LogOf; hide SettledLog; hide Scans;
    ReconcileIsPointwise(o, db, now, scan, "");
    var next := Reconcile(o, db, now, scan).value;
    forall sweep: Sweep, id | id in next.operations ensures !Selected(sweep, next.operations[id], now) {
      ReconcileIsPointwise(o, db, now, scan, id);
    }
    NothingSelected(Expiry, next, again.expiry, now);
    NothingSelected(Staleness, next, again.stale, now);
  }

  lemma {:induction false} NothingSelected(sweep: Sweep, db: Db, order: seq<Id>, now: Time)
    requires forall id | id in db.operations :: !Selected(sweep, db.operations[id], now)
    ensures Select(sweep, db, order, now) == []
    decreases |order|
  {
    if |order| > 0 {
      NothingSelected(sweep, db, order[1..], now);
    }
  }

  // ----- the audit log -----

  predicate Started(s: Status) { !(s.Planned? || s.Approved? || s.Expired?) }

  predicate Terminal(s: Status) { s.Succeeded? || s.Failed? || s.Ambiguous? || s.Expired? }

  /** The automaton an operation's statuses follow. */
  predicate Edge(s: Status, t: Status) {
    match s
    case Planned => t.Approved? || t.Expired?
    case Approved => t.Applying? || t.Expired?
    case Applying => t.Succeeded? || t.Failed? || t.Ambiguous?
    case _ => false
  }

  function Rank(s: Status): nat {
    match s case Planned => 1 case Approved => 2 case Applying => 3 case _ => 4
  }

  predicate Path(log: seq<Event>, draft: bool) {
    forall i | 0 <= i < |log| - 1 ::
      Edge(log[i].status, log[i + 1].status) || (draft && log[i].status.Planned? && log[i + 1].status.Planned?)
  }

  /** Each kind of event reports statuses of its own. */
  predicate KindFits(e: Event) {
    match e.kind
    case CreatedEvent | UpdatedEvent | DiscardedEvent => e.status.Planned?
    case TransitionedEvent => e.status.Approved? || e.status.Applying?
    case FinalizedEvent => e.status.Succeeded? || e.status.Failed? || e.status.Ambiguous?
    case ExpiredEvent => e.status.Expired?
    case ReconciledEvent => e.status.Ambiguous?
  }

  /** The log of one operation ends in its row's state and got there by a path
      of the automaton. */
  predicate LogTells(row: Row, log: seq<Event>) {
    && |log| > 0
    && log[0].kind.CreatedEvent? && log[0].status.Planned?
    && log[|log| - 1].status == row.status && log[|log| - 1].digest == row.digest
    && log[|log| - 1].occurredAt == row.updatedAt
    && Path(log, row.kind == DRAFT)
    && (forall i | 0 <= i < |log| :: KindFits(log[i]))
    && (row.kind != DRAFT ==> forall i | 0 <= i < |log| :: log[i].digest == row.digest)
  }

  predicate RowTells(row: Row) {
    && row.attempts == (if Started(row.status) then 1 else 0)
    && (row.status.Planned? ==> row.approvedAt.None?)
    && (row.status.Approved? || Started(row.status) ==> row.approvedAt.Some?)
    && (row.status.Ambiguous? ==> row.lastError.Some? && !row.lastError.value.retryable)
    && (row.status.Failed? ==> row.lastError.Some?)
    && (row.receipt.Some? <==> row.status.Succeeded?)
    && (row.kind == DRAFT ==> (row.status.Planned? || row.status.Expired?) && row.approvedAt.None?)
  }

  /** The log tells the row, but for discards that came after a draft had expired:
      each of those is logged without having changed the row. */
  predicate LogFollows(row: Row, log: seq<Event>)
    decreases |log|
  {
    LogTells(row, log) || (DiscardedLate(row, log) && LogFollows(row, log[..|log| - 1]))
  }

  /** The last event is a discard of a draft that had already expired. */
  predicate DiscardedLate(row: Row, log: seq<Event>) {
    && row.kind == DRAFT && row.status.Expired? && |log| > 0
    && log[|log| - 1].kind.DiscardedEvent? && log[|log| - 1].status.Planned? && log[|log| - 1].digest == row.digest
  }

  predicate TellsAt(db: Db, id: Id) {
    if id in db.operations then RowTells(db.operations[id]) && LogFollows(db.operations[id], LogOf(db.events, id))
    else LogOf(db.events, id) == []
  }

  /** A log that follows its row tells it exactly when its last event is not a
      late discard; so always for an operation that is no draft, and for a draft
      without an expiry. */
  lemma FollowedLogTells(row: Row, log: seq<Event>)
    requires LogFollows(row, log)
    ensures LogTells(row, log) <==> !DiscardedLate(row, log)
  {
    if LogTells(row, log) { assert KindFits(log[|log| - 1]); }
  }

  ghost predicate AuditOk(o: Oracle, db: Db) {
    Sound(o, db) && forall id :: TellsAt(db, id)
  }

  /** A non-draft operation has at most four events. */
  lemma PathIsShort(row: Row, log: seq<Event>)
    requires LogTells(row, log) && row.kind != DRAFT
    ensures |log| <= Rank(row.status) <= 4
  {
    PathClimbs(log, |log| - 1);
  }

  lemma {:induction false} PathClimbs(log: seq<Event>, i: nat)
    requires i < |log| && Path(log, false)
    ensures Rank(log[i].status) >= i + 1
  {
    if i > 0 {
      PathClimbs(log, i - 1);
      assert Edge(log[i - 1].status, log[i - 1 + 1].status);
    }
  }

  // ----- calls -----

  datatype Call =
    | CreateCall(id: Id, row: Row)
    | LookCall(id: Id, now: Time, scan: Scan)
    | ApproveCall(id: Id, now: Time, scan: Scan)
    | ClaimCall(id: Id, now: Time, scan: Scan)
    | FinishCall(id: Id, now: Time, ending: Ending)
    | UpdateCall(id: Id, accountId: string, payload: string, now: Time)
    | DiscardCall(id: Id, payload: string, now: Time)

  /** `discard_draft` writes only after it has read a draft. */
  ghost predicate Possible(db: Db, call: Call) {
    match call
    case LookCall(_, _, scan) => Scans(scan, db)
    case ApproveCall(_, _, scan) => Scans(scan, db)
    case ClaimCall(_, _, scan) => Scans(scan, db)
    case DiscardCall(id, _, _) => id in db.operations && db.operations[id].kind == DRAFT
    case _ => true
  }

  function After(o: Oracle, db: Db, call: Call): Db {
    match call
    case CreateCall(id, row) => Create(o, db, id, row).db
    case LookCall(id, now, scan) => (match LookTx(o, db, id, now, scan) case Ok((next, _)) => next case Err(_) => db)
    case ApproveCall(id, now, scan) => Approve(o, db, id, now, scan).db
    case ClaimCall(id, now, scan) => Claim(o, db, id, now, scan).db
    case FinishCall(id, now, ending) => Finish(o, db, id, now, ending).db
    case UpdateCall(id, accountId, payload, now) => UpdateDraft(o, db, id, accountId, payload, now).db
    case DiscardCall(id, payload, now) => Discard(o, db, id, payload, now).db
  }

  ghost predicate PossibleRun(o: Oracle, db: Db, calls: seq<Call>)
    decreases |calls|
  {
    |calls| > 0 ==> Possible(db, calls[0]) && PossibleRun(o, After(o, db, calls[0]), calls[1..])
  }

  function AfterAll(o: Oracle, db: Db, calls: seq<Call>): Db
    decreases |calls|
  {
    if |calls| == 0 then db else AfterAll(o, After(o, db, calls[0]), calls[1..])
  }

  // ----- one row at a time -----

  lemma ReconcileKeepsAudit(o: Oracle, db: Db, now: Time, scan: Scan)
    requires AuditOk(o, db) && Scans(scan, db)
    ensures Reconcile(o, db, now, scan).Ok? && AuditOk(o, Reconcile(o, db, now, scan).value)
  {
    hide LogOf; hide LogFollows; hide RowTells; hide Reconcile; hide Settled; hide SettledLog; hide Scans;
    ReconcileIsPointwise(o, db, now, scan, "");
    var next := Reconcile(o, db, now, scan).value;
    forall id ensures TellsAt(next, id) {
      ReconcileIsPointwise(o, db, now, scan, id);
      assert TellsAt(db, id);
      if id in db.operations {
        SettledTells(id, db.operations[id], LogOf(db.events, id), now);
      }
    }
  }

  lemma SettledTells(id: Id, row: Row, log: seq<Event>, now: Time)
    requires RowTells(row) && LogFollows(row, log)
    ensures RowTells(Settled(row, now)) && LogFollows(Settled(row, now), log + SettledLog(id, row, now))
  {
    if SettledLog(id, row, now) == [] {
      assert log + [] == log;
    } else {
      var e := SettledLog(id, row, now)[0];
      FollowedLogTells(row, log);
      PathExtends(log, e, row.kind == DRAFT);
      assert LogTells(Settled(row, now), log + [e]);
    }
  }

  lemma PathExtends(log: seq<Event>, e: Event, draft: bool)
    requires Path(log, draft) && |log| > 0
    requires Edge(log[|log| - 1].status, e.status) || (draft && log[|log| - 1].status.Planned? && e.status.Planned?)
    ensures Path(log + [e], draft)
  {
  }

  /** The frame of every single-row transaction. */
  lemma RowWrittenKeepsAudit(o: Oracle, db: Db, id: Id, row: Row, kind: EventKind)
    requires AuditOk(o, db) && id in db.operations
    requires row.digest == (o.digest)(row.payload) && RowTells(row) && row.kind == db.operations[id].kind
    requires KindFits(Event(id, kind, row.status, row.updatedAt, row.digest))
    requires if row.kind == DRAFT then db.operations[id].status.Planned? && row.status.Planned?
             else Edge(db.operations[id].status, row.status) && row.digest == db.operations[id].digest
    ensures AuditOk(o, Append(Put(db, id, row), id, row, kind, row.status))
  {
    hide LogOf; hide RowTells; hide LogFollows;
    var next := Append(Put(db, id, row), id, row, kind, row.status);
    var e := Event(id, kind, row.status, row.updatedAt, row.digest);
    forall x ensures TellsAt(next, x) {
      LogOfAppend(db.events, e, x);
      assert TellsAt(db, x);
      if x == id {
        EventExtendsLog(db.operations[id], row, LogOf(db.events, id), e);
      }
    }
  }

  lemma EventExtendsLog(row: Row, next: Row, log: seq<Event>, e: Event)
    requires LogFollows(row, log) && next.kind == row.kind && KindFits(e)
    requires e.status == next.status && e.digest == next.digest && e.occurredAt == next.updatedAt
    requires if row.kind == DRAFT then row.status.Planned? && next.status.Planned?
             else Edge(row.status, next.status) && next.digest == row.digest
    ensures LogFollows(next, log + [e])
  {
    FollowedLogTells(row, log);
    PathExtends(log, e, row.kind == DRAFT);
    assert LogTells(next, log + [e]);
  }

  // ----- every call keeps the audit log exact -----

  lemma CreateKeepsAudit(o: Oracle, db: Db, id: Id, row: Row)
    requires AuditOk(o, db)
    ensures AuditOk(o, Create(o, db, id, row).db)
  {
    hide LogOf; hide CreateTx; hide LogFollows; hide RowTells;
    var next := Create(o, db, id, row).db;
    if CreateTx(o, db, id, row).Ok? {
      CreatedRow(o, db, id, row);
      var e := Event(id, CreatedEvent, Planned, row.updatedAt, row.digest);
      assert [] + [e] == [e];
      forall x ensures TellsAt(next, x) {
        LogOfAppend(db.events, e, x);
        assert TellsAt(db, x);
      }
    }
  }

  lemma CreatedRow(o: Oracle, db: Db, id: Id, row: Row)
    requires CreateTx(o, db, id, row).Ok?
    ensures id !in db.operations
    ensures var stored := row.(approvedAt := None, attempts := 0, lastError := None, receipt := None);
      && Create(o, db, id, row).db == Append(Put(db, id, stored), id, row, CreatedEvent, Planned)
      && RowTells(stored) && LogFollows(stored, [Event(id, CreatedEvent, Planned, row.updatedAt, row.digest)])
      && stored.digest == (o.digest)(stored.payload)
  {
  }

  lemma TransitionKeepsAudit(o: Oracle, db: Db, id: Id, now: Time, from: Status, to: Status, approve: bool, scan: Scan)
    requires AuditOk(o, db) && Scans(scan, db)
    requires (from.Planned? && to.Approved? && approve) || (from.Approved? && to.Applying? && !approve)
    ensures AuditOk(o, Atomically(db, TransitionTx(o, db, id, now, from, to, approve, scan)).db)
  {
    hide LogOf; hide LogFollows; hide Reconcile;
    ReconcileKeepsAudit(o, db, now, scan);
    var next := Reconcile(o, db, now, scan).value;
    if TransitionTx(o, db, id, now, from, to, approve, scan).Ok? {
      assert TellsAt(next, id);
      RowWrittenKeepsAudit(o, next, id, Moved(next.operations[id], now, to, approve), TransitionedEvent);
    }
  }

  lemma FinishKeepsAudit(o: Oracle, db: Db, id: Id, now: Time, e: Ending)
    requires AuditOk(o, db)
    ensures AuditOk(o, Finish(o, db, id, now, e).db)
  {
    hide LogOf; hide LogFollows;
    if FinishTx(o, db, id, now, e).Ok? {
      assert TellsAt(db, id);
      RowWrittenKeepsAudit(o, db, id, Ended(db.operations[id], now, e), FinalizedEvent);
    }
  }

  lemma DraftCallsKeepAudit(o: Oracle, db: Db, id: Id, accountId: string, payload: string, now: Time)
    requires AuditOk(o, db)
    ensures AuditOk(o, UpdateDraft(o, db, id, accountId, payload, now).db)
    ensures id in db.operations && db.operations[id].kind == DRAFT ==> AuditOk(o, Discard(o, db, id, payload, now).db)
  {
    hide LogOf; hide LogFollows;
    if id in db.operations && db.operations[id].kind == DRAFT {
      var row := db.operations[id];
      assert TellsAt(db, id);
      if row.status.Planned? {
        RowWrittenKeepsAudit(o, db, id, Redrafted(o, row, accountId, payload, now), UpdatedEvent);
        RowWrittenKeepsAudit(o, db, id, Redrafted(o, row, row.accountId, payload, now), DiscardedEvent);
      } else {
        LateDiscardKeepsAudit(o, db, id);
      }
    }
  }

  /** A discard that changes no row: its event is logged behind the expiry. */
  lemma LateDiscardKeepsAudit(o: Oracle, db: Db, id: Id)
    requires AuditOk(o, db) && id in db.operations
    requires db.operations[id].kind == DRAFT && db.operations[id].status.Expired?
    ensures AuditOk(o, Append(db, id, db.operations[id], DiscardedEvent, Planned))
  {
    hide LogOf; hide RowTells; hide LogTells;
    var row := db.operations[id];
    var next := Append(db, id, row, DiscardedEvent, Planned);
    var e := Event(id, DiscardedEvent, Planned, row.updatedAt, row.digest);
    forall x ensures TellsAt(next, x) {
      LogOfAppend(db.events, e, x);
      assert TellsAt(db, x);
      if x == id {
        var log := LogOf(db.events, id);
        assert (log + [e])[..|log + [e]| - 1] == log;
      }
    }
  }

  lemma CallKeepsAudit(o: Oracle, db: Db, call: Call)
    requires AuditOk(o, db) && Possible(db, call)
    ensures AuditOk(o, After(o, db, call))
  {
    hide AuditOk; hide Reconcile; hide Create; hide FinishTx; hide UpdateDraft; hide Discard; hide MoveTx;
    match call {
      case CreateCall(id, row) => CreateKeepsAudit(o, db, id, row);
      case LookCall(id, now, scan) => ReconcileKeepsAudit(o, db, now, scan);
      case ApproveCall(id, now, scan) => TransitionKeepsAudit(o, db, id, now, Planned, Approved, true, scan);
      case ClaimCall(id, now, scan) => TransitionKeepsAudit(o, db, id, now, Approved, Applying, false, scan);
      case FinishCall(id, now, ending) => FinishKeepsAudit(o, db, id, now, ending);
      case UpdateCall(id, accountId, payload, now) => DraftCallsKeepAudit(o, db, id, accountId, payload, now);
      case DiscardCall(id, payload, now) => DraftCallsKeepAudit(o, db, id, "", payload, now);
    }
  }

  /** In every reachable state of a fresh ledger each row's counters agree with
      its status, and its log ends with the current status, digest and time and
      spells a path of the automaton: exactly unless the row is an expired draft
      that was discarded afterwards. */
  lemma AuditRefinesRows(o: Oracle, calls: seq<Call>)
    requires PossibleRun(o, EMPTY, calls)
    ensures var db := AfterAll(o, EMPTY, calls);
      && AuditOk(o, db)
      && forall id | id in db.operations ::
           var row, log := db.operations[id], LogOf(db.events, id);
           && RowTells(row) && (LogTells(row, log) <==> !DiscardedLate(row, log))
           && (row.kind != DRAFT || row.expiresAt.None? || row.status.Planned? ==> LogTells(row, log))
  {
    hide LogOf; hide LogTells; hide After;
    EmptyTells(o);
    RunKeepsAudit(o, EMPTY, calls);
    var db := AfterAll(o, EMPTY, calls);
    RunExpires(o, EMPTY, calls);
    forall id | id in db.operations
      ensures RowTells(db.operations[id])
      ensures LogTells(db.operations[id], LogOf(db.events, id)) <==>
        !DiscardedLate(db.operations[id], LogOf(db.events, id))
    {
      assert TellsAt(db, id);
      FollowedLogTells(db.operations[id], LogOf(db.events, id));
    }
  }

  lemma EmptyTells(o: Oracle)
    ensures AuditOk(o, EMPTY)
  {
  }

  /** Only what has an expiry can be expired. */
  ghost predicate ExpiryOk(db: Db) {
    forall id | id in db.operations :: db.operations[id].status.Expired? ==> db.operations[id].expiresAt.Some?
  }

  lemma {:induction false} RunExpires(o: Oracle, db: Db, calls: seq<Call>)
    requires AuditOk(o, db) && ExpiryOk(db) && PossibleRun(o, db, calls)
    ensures ExpiryOk(AfterAll(o, db, calls))
    decreases |calls|
  {
    hide AuditOk; hide After; hide ExpiryOk;
    if |calls| > 0 {
      CallKeepsAudit(o, db, calls[0]);
      CallKeepsExpiry(o, db, calls[0]);
      RunExpires(o, After(o, db, calls[0]), calls[1..]);
    }
  }

  lemma CallKeepsExpiry(o: Oracle, db: Db, call: Call)
    requires AuditOk(o, db) && ExpiryOk(db) && Possible(db, call)
    ensures ExpiryOk(After(o, db, call))
  {
    hide LogOf; hide LogFollows; hide Reconcile; hide Moved; hide RowTells;
    if Reconciling(call) {
      forall id | id in After(o, db, call).operations
        ensures After(o, db, call).operations[id].status.Expired? ==> After(o, db, call).operations[id].expiresAt.Some?
      {
        ReconcileIsPointwise(o, db, call.now, call.scan, id);
      }
    }
  }

  lemma {:induction false} RunKeepsAudit(o: Oracle, db: Db, calls: seq<Call>)
    requires AuditOk(o, db) && PossibleRun(o, db, calls)
    ensures AuditOk(o, AfterAll(o, db, calls))
    decreases |calls|
  {
    hide AuditOk; hide After;
    if |calls| > 0 {
      CallKeepsAudit(o, db, calls[0]);
      RunKeepsAudit(o, After(o, db, calls[0]), calls[1..]);
    }
  }

  /** The calls that reconcile first. */
  predicate Reconciling(call: Call) { call.LookCall? || call.ApproveCall? || call.ClaimCall? }

  // ----- what never changes -----

  /** How one call may change one existing row. */
  predicate RowStep(row: Row, next: Row) {
    && next.kind == row.kind && next.expiresAt == row.expiresAt && next.createdAt == row.createdAt
    && next.messageId == row.messageId
    && (Terminal(row.status) ==> next == row)
    && (row.kind != DRAFT ==>
          next.payload == row.payload && next.digest == row.digest && next.accountId == row.accountId)
    && (next.status == row.status || Edge(row.status, next.status))
    && next.attempts == row.attempts + (if row.status != next.status && next.status.Applying? then 1 else 0)
  }

  /** Whatever is called, no operation disappears, no terminal row changes again,
      and what a non-draft operation will do stays exactly what was planned. */
  lemma CallsFollowRowStep(o: Oracle, db: Db, call: Call, id: Id)
    requires AuditOk(o, db) && Possible(db, call) && id in db.operations
    ensures id in After(o, db, call).operations
    ensures RowStep(db.operations[id], After(o, db, call).operations[id])
  {
    hide LogOf; hide LogFollows; hide Reconcile; hide RowStep; hide Settled;
    assert TellsAt(db, id);
    match call {
      case LookCall(_, now, scan) =>
        ReconcileIsPointwise(o, db, now, scan, id);
        SettledStep(db.operations[id], now);
        SameRowStep(db.operations[id]);
      case ApproveCall(target, now, scan) =>
        TransitionFollowsRowStep(o, db, target, now, Planned, Approved, true, scan, id);
      case ClaimCall(target, now, scan) =>
        TransitionFollowsRowStep(o, db, target, now, Approved, Applying, false, scan, id);
      case FinishCall(target, now, e) => EndedStep(db.operations[id], now, e); SameRowStep(db.operations[id]);
      case UpdateCall(target, accountId, payload, now) =>
        RedraftedStep(o, db.operations[id], accountId, payload, now); SameRowStep(db.operations[id]);
      case DiscardCall(target, payload, now) =>
        RedraftedStep(o, db.operations[id], db.operations[id].accountId, payload, now); SameRowStep(db.operations[id]);
      case CreateCall(_, _) => SameRowStep(db.operations[id]);
    }
  }

  lemma TransitionFollowsRowStep(
    o: Oracle, db: Db, target: Id, now: Time, from: Status, to: Status, approve: bool, scan: Scan, id: Id)
    requires Sound(o, db) && Scans(scan, db) && id in db.operations
    requires (from.Planned? && to.Approved?) || (from.Approved? && to.Applying?)
    ensures var next := Atomically(db, TransitionTx(o, db, target, now, from, to, approve, scan)).db;
      id in next.operations && RowStep(db.operations[id], next.operations[id])
  {
    hide LogOf; hide Reconcile; hide SettledLog; hide Sound; hide Scans;
    ReconcileIsPointwise(o, db, now, scan, id);
    SettledStep(db.operations[id], now);
  }

  lemma SameRowStep(row: Row)
    ensures RowStep(row, row)
  {
  }

  lemma EndedStep(row: Row, now: Time, e: Ending)
    ensures row.status.Applying? ==> RowStep(row, Ended(row, now, e))
  {
  }

  lemma RedraftedStep(o: Oracle, row: Row, accountId: string, payload: string, now: Time)
    ensures row.kind == DRAFT && row.status.Planned? ==> RowStep(row, Redrafted(o, row, accountId, payload, now))
  {
  }

  lemma SettledStep(row: Row, now: Time)
    ensures RowStep(row, Settled(row, now))
  {
  }

  /** The event log is append-only: no call removes, reorders or rewrites an event. */
  lemma LogsOnlyGrow(o: Oracle, db: Db, call: Call)
    ensures db.events <= After(o, db, call).events
  {
    hide SweepAll;
    if Reconciling(call) {
      var first := Select(Expiry, db, call.scan.expiry, call.now);
      SweepGrows(o, Expiry, db, first, call.now);
      if SweepAll(o, Expiry, db, first, call.now).Ok? {
        var mid := SweepAll(o, Expiry, db, first, call.now).value;
        SweepGrows(o, Staleness, mid, Select(Staleness, mid, call.scan.stale, call.now), call.now);
      }
    }
  }

  lemma {:induction false} SweepGrows(o: Oracle, sweep: Sweep, db: Db, ids: seq<Id>, now: Time)
    ensures SweepAll(o, sweep, db, ids, now).Ok? ==> db.events <= SweepAll(o, sweep, db, ids, now).value.events
    decreases |ids|
  {
    if |ids| > 0 && SweepOne(o, sweep, db, ids[0], now).Ok? {
      SweepGrows(o, sweep, SweepOne(o, sweep, db, ids[0], now).value, ids[1..], now);
    }
  }

  // ----- discarding a draft that had expired -----

  /** `discard_draft` appends its event even when its update matched no row, so
      for a draft stored with an expiry the log tells the row's state exactly
      when the draft was still planned as the second transaction ran. */
  lemma DiscardTellsExactlyPlanned(o: Oracle, db: Db, id: Id, payload: string, now: Time)
    requires Sound(o, db) && id in db.operations && db.operations[id].kind == DRAFT
    requires LogTells(db.operations[id], LogOf(db.events, id))
    ensures Discard(o, db, id, payload, now).result.Ok?
    ensures var next := Discard(o, db, id, payload, now).db;
      LogTells(next.operations[id], LogOf(next.events, id)) <==> db.operations[id].status.Planned?
  {
    hide LogOf;
    var next := Discard(o, db, id, payload, now).db;
    var row := next.operations[id];
    var e := Event(id, DiscardedEvent, Planned, row.updatedAt, row.digest);
    LogOfAppend(db.events, e, id);
    if db.operations[id].status.Planned? {
      PathExtends(LogOf(db.events, id), e, true);
    }
  }

  /** Such a ledger is reached: a draft stored with an expiry, looked at after it,
      and discarded. Its log then ends in planned, its row is expired. */
  lemma ExpiredDraftIsDiscarded(o: Oracle, id: Id, payload: string, created: Time, expiry: Time, later: Time)
    requires (o.validId)(id) && payload != "" && expiry <= later
    ensures var row := Row(DRAFT, "", None, payload, (o.digest)(payload), Planned,
        created, Some(expiry), None, created, 0, None, None);
      var scan := Scan([id], [id]);
      var calls := [CreateCall(id, row), LookCall(id, later, scan), DiscardCall(id, payload, later)];
      var db := AfterAll(o, EMPTY, calls);
      && PossibleRun(o, EMPTY, calls) && id in db.operations
      && db.operations[id].status.Expired? && DiscardedLate(db.operations[id], LogOf(db.events, id))
      && !LogTells(db.operations[id], LogOf(db.events, id))
  {
    hide LogOf; hide Reconcile; hide LogTells; hide LogFollows;
    var row := Row(DRAFT, "", None, payload, (o.digest)(payload), Planned,
      created, Some(expiry), None, created, 0, None, None);
    var scan := Scan([id], [id]);
    var create, look, discard := CreateCall(id, row), LookCall(id, later, scan), DiscardCall(id, payload, later);
    var one := After(o, EMPTY, create);
    assert one.operations == map[id := row];
    var two := After(o, one, look);
    ReconcileIsPointwise(o, one, later, scan, id);
    var three := After(o, two, discard);
    var e := Event(id, DiscardedEvent, Planned, later, row.digest);
    assert three == two.(events := two.events + [e]);
    LogOfAppend(two.events, e, id);
    Unrolled(o, create, look, discard);
    EmptyTells(o);
    RunKeepsAudit(o, EMPTY, [create, look, discard]);
    assert TellsAt(three, id);
    FollowedLogTells(three.operations[id], LogOf(three.events, id));
  }

  lemma Unrolled(o: Oracle, a: Call, b: Call, c: Call)
    ensures AfterAll(o, EMPTY, [a, b, c]) == After(o, After(o, After(o, EMPTY, a), b), c)
    ensures PossibleRun(o, EMPTY, [a, b, c]) <==>
      Possible(EMPTY, a) && Possible(After(o, EMPTY, a), b) && Possible(After(o, After(o, EMPTY, a), b), c)
  {
    hide After; hide Possible;
    assert [a, b, c][1..] == [b, c] && [b, c][1..] == [c] && [c][1..] == [];
    var one, two := After(o, EMPTY, a), After(o, After(o, EMPTY, a), b);
    assert AfterAll(o, two, [c]) == After(o, two, c);
    assert AfterAll(o, one, [b, c]) == After(o, two, c);
    assert PossibleRun(o, two, [c]) <==> Possible(two, c);
    assert PossibleRun(o, one, [b, c]) <==> Possible(one, b) && Possible(two, c);
  }
}
