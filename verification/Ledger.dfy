/** The ledger of governed operations: rows updated in place, an append-only
    event log, and one atomic transaction per call. */
module Ledger {
  import opened Basics

  type Id = string
  /** Microseconds on the wall clock. */
  type Time = int

  const DRAFT := "draft"
  const SEND := "send"
  const STALE_APPLY := 15 * 60 * 1_000_000

  /** What the ledger takes from elsewhere: the payload digest and the UUID syntax. */
  datatype Oracle = Oracle(digest: string -> string, validId: string -> bool)

  datatype Status = Planned | Approved | Applying | Succeeded | Failed | Ambiguous | Expired

  datatype Failure = Failure(message: string, retryable: bool)

  const INTERRUPTED := Failure("previous remote operation ended without a final result", false)

  datatype Row = Row(
    kind: string, accountId: string, messageId: Option<string>, payload: string, digest: string, status: Status,
    createdAt: Time, expiresAt: Option<Time>, approvedAt: Option<Time>, updatedAt: Time,
    attempts: nat, lastError: Option<Failure>, receipt: Option<string>)

  datatype EventKind =
    | CreatedEvent | UpdatedEvent | DiscardedEvent | TransitionedEvent | FinalizedEvent
    | ExpiredEvent | ReconciledEvent

  datatype Event = Event(id: Id, kind: EventKind, status: Status, occurredAt: Time, digest: string)

  datatype Db = Db(operations: map<Id, Row>, events: seq<Event>)

  const EMPTY := Db(map[], [])

  // ----- reading a row, and writing one together with its event -----

  /** A stored row is refused when its digest does not match its payload. */
  function ReadRow(o: Oracle, db: Db, id: Id): Result<Option<Row>> {
    if id !in db.operations then Ok(None)
    else if db.operations[id].digest != (o.digest)(db.operations[id].payload) then Err(StoreRead)
    else Ok(Some(db.operations[id]))
  }

  function Existing(o: Oracle, db: Db, id: Id): Result<Row> {
    var row :- ReadRow(o, db, id);
    if row.None? then Err(PlanNotFound) else Ok(row.value)
  }

  function Put(db: Db, id: Id, row: Row): Db {
    db.(operations := db.operations[id := row])
  }

  function Append(db: Db, id: Id, row: Row, kind: EventKind, status: Status): Db {
    db.(events := db.events + [Event(id, kind, status, row.updatedAt, row.digest)])
  }

  /** After an update the row is read back, and its event records what was read. */
  function Record(o: Oracle, db: Db, id: Id, kind: EventKind, status: Status): Result<Committed> {
    var row :- Existing(o, db, id);
    Ok(Committed(Append(db, id, row, kind, status), row))
  }

  // ----- transactions -----

  datatype Committed = Committed(db: Db, row: Row)

  datatype Outcome = Outcome(db: Db, result: Result<Row>)

  /** An error rolls the whole transaction back. */
  function Atomically(db: Db, body: Result<Committed>): Outcome {
    match body
    case Ok(c) => Outcome(c.db, Ok(c.row))
    case Err(e) => Outcome(db, Err(e))
  }

  // ----- lazy expiry and recovery of interrupted applies -----

  datatype Sweep = Expiry | Staleness

  /** The WHERE clause of the selecting query. */
  predicate Selected(sweep: Sweep, row: Row, now: Time) {
    match sweep
    case Expiry => (row.status.Planned? || row.status.Approved?) && row.expiresAt.Some? && row.expiresAt.value <= now
    case Staleness => row.kind != DRAFT && row.status.Applying? && row.updatedAt <= now - STALE_APPLY
  }

  /** The WHERE clause of the update that follows. */
  predicate Guarded(sweep: Sweep, row: Row) {
    match sweep
    case Expiry => row.status.Planned? || row.status.Approved?
    case Staleness => row.status.Applying?
  }

  function Changed(sweep: Sweep, row: Row, now: Time): Row {
    match sweep
    case Expiry => row.(status := Expired, updatedAt := now)
    case Staleness => row.(status := Ambiguous, updatedAt := now, lastError := Some(INTERRUPTED))
  }

  function EventKindOf(sweep: Sweep): EventKind { if sweep.Expiry? then ExpiredEvent else ReconciledEvent }

  function StatusOf(sweep: Sweep): Status { if sweep.Expiry? then Expired else Ambiguous }

  /** The order in which the engine happens to return the rows of each query. */
  datatype Scan = Scan(expiry: seq<Id>, stale: seq<Id>)

  ghost predicate Lists(order: seq<Id>, db: Db) {
    && (forall i, j | 0 <= i < j < |order| :: order[i] != order[j])
    && (forall id :: id in order <==> id in db.operations)
  }

  ghost predicate Scans(scan: Scan, db: Db) {
    Lists(scan.expiry, db) && Lists(scan.stale, db)
  }

  function Select(sweep: Sweep, db: Db, order: seq<Id>, now: Time): (ids: seq<Id>)
    ensures forall id :: id in ids <==> id in order && id in db.operations && Selected(sweep, db.operations[id], now)
    decreases |order|
  {
    if |order| == 0 then []
    else
      var rest := Select(sweep, db, order[1..], now);
      if order[0] in db.operations && Selected(sweep, db.operations[order[0]], now) then [order[0]] + rest else rest
  }

  lemma SelectNext(sweep: Sweep, db: Db, order: seq<Id>, i: nat, now: Time)
    requires i < |order|
    ensures Select(sweep, db, order[i..], now) ==
      (if order[i] in db.operations && Selected(sweep, db.operations[order[i]], now) then [order[i]] else [])
      + Select(sweep, db, order[i + 1..], now)
  {
    hide Selected;
    assert order[i..][1..] == order[i + 1..];
  }

  lemma SelectEnd(sweep: Sweep, db: Db, order: seq<Id>, now: Time)
    ensures Select(sweep, db, order[|order|..], now) == []
  {
  }

  function SweepOne(o: Oracle, sweep: Sweep, db: Db, id: Id, now: Time): Result<Db> {
    var updated :=
      if id in db.operations && Guarded(sweep, db.operations[id]) then Put(db, id,
        Changed(sweep, db.operations[id], now)) else db;
    var row :- ReadRow(o, updated, id);
    if row.None? then Ok(updated) else Ok(Append(updated, id, row.value, EventKindOf(sweep), StatusOf(sweep)))
  }

  function SweepAll(o: Oracle, sweep: Sweep, db: Db, ids: seq<Id>, now: Time): Result<Db>
    decreases |ids|
  {
    if |ids| == 0 then Ok(db)
    else
      var next :- SweepOne(o, sweep, db, ids[0], now);
      SweepAll(o, sweep, next, ids[1..], now)
  }

  function Reconcile(o: Oracle, db: Db, now: Time, scan: Scan): Result<Db> {
    var expired :- SweepAll(o, Expiry, db, Select(Expiry, db, scan.expiry, now), now);
    SweepAll(o, Staleness, expired, Select(Staleness, expired, scan.stale, now), now)
  }

  // ----- the calls -----

  function CreateTx(o: Oracle, db: Db, id: Id, row: Row): Result<Committed> {
    var _ :- Need((o.validId)(id), InvalidInput);
    var _ :- Need(row.status.Planned? && row.payload != "" && row.digest == (o.digest)(row.payload), PlanState);
    var _ :- Need(id !in db.operations, PlanState);
    var stored := row.(approvedAt := None, attempts := 0, lastError := None, receipt := None);
    Ok(Committed(Append(Put(db, id, stored), id, row, CreatedEvent, Planned), row))
  }

  function Create(o: Oracle, db: Db, id: Id, row: Row): Outcome { Atomically(db, CreateTx(o, db, id, row)) }

  /** `get_operation`: reconciles, commits, and only then reports. */
  function LookTx(o: Oracle, db: Db, id: Id, now: Time, scan: Scan): Result<(Db, Option<Row>)> {
    var _ :- Need((o.validId)(id), InvalidInput);
    var next :- Reconcile(o, db, now, scan);
    var row :- ReadRow(o, next, id);
    Ok((next, row))
  }

  /** A transition leaves what is to be done alone. */
  function Moved(row: Row, now: Time, to: Status, approve: bool): (moved: Row)
    ensures moved.kind == row.kind && moved.payload == row.payload && moved.digest == row.digest
    ensures moved.expiresAt == row.expiresAt && moved.accountId == row.accountId && moved.status == to
  {
    row.(status := to, approvedAt := if approve then Some(now) else row.approvedAt, updatedAt := now,
      attempts := row.attempts + if to.Applying? then 1 else 0)
  }

  /** The part of a transition that follows reconciliation. */
  function MoveTx(o: Oracle, db: Db, id: Id, now: Time, from: Status, to: Status, approve: bool): Result<Committed> {
    var row :- Existing(o, db, id);
    var _ :- Need(row.kind != DRAFT, PlanState);
    var _ :- Need(row.status == from, PlanState);
    Record(o, Put(db, id, Moved(row, now, to, approve)), id, TransitionedEvent, to)
  }

  function TransitionTx(
    o: Oracle, db: Db, id: Id, now: Time, from: Status, to: Status, approve: bool, scan: Scan): Result<Committed> {
    var _ :- Need((o.validId)(id), InvalidInput);
    var next :- Reconcile(o, db, now, scan);
    MoveTx(o, next, id, now, from, to, approve)
  }

  function Approve(o: Oracle, db: Db, id: Id, now: Time, scan: Scan): Outcome {
    Atomically(db, TransitionTx(o, db, id, now, Planned, Approved, true, scan))
  }

  function Claim(o: Oracle, db: Db, id: Id, now: Time, scan: Scan): Outcome {
    Atomically(db, TransitionTx(o, db, id, now, Approved, Applying, false, scan))
  }

  /** How a claimed operation ends. */
  datatype Ending = EndSucceeded(receipt: string) | EndFailed(error: Failure) | EndAmbiguous(error: Failure)

  function EndStatus(e: Ending): Status {
    match e case EndSucceeded(_) => Succeeded case EndFailed(_) => Failed case EndAmbiguous(_) => Ambiguous
  }

  function Ended(row: Row, now: Time, e: Ending): Row {
    var done := row.(status := EndStatus(e), updatedAt := now);
    match e
    case EndSucceeded(receipt) => done.(lastError := None, receipt := Some(receipt))
    case EndFailed(error) => done.(lastError := Some(error), receipt := None)
    case EndAmbiguous(error) => done.(lastError := Some(error.(retryable := false)), receipt := None)
  }

  /** `finish_operation` does not reconcile. */
  function FinishTx(o: Oracle, db: Db, id: Id, now: Time, e: Ending): Result<Committed> {
    var _ :- Need((o.validId)(id), InvalidInput);
    var row :- Existing(o, db, id);
    var _ :- Need(row.status.Applying?, PlanState);
    Record(o, Put(db, id, Ended(row, now, e)), id, FinalizedEvent, EndStatus(e))
  }

  function Finish(
    o: Oracle, db: Db, id: Id, now: Time, e: Ending): Outcome { Atomically(db, FinishTx(o, db, id, now, e)) }

  function Redrafted(o: Oracle, row: Row, accountId: string, payload: string, now: Time): Row {
    row.(accountId := accountId, payload := payload, digest := (o.digest)(payload), updatedAt := now)
  }

  function UpdateDraftTx(o: Oracle, db: Db, id: Id, accountId: string, payload: string, now: Time): Result<Committed> {
    var row :- Existing(o, db, id);
    var _ :- Need(row.kind == DRAFT && row.status.Planned?, PlanState);
    Record(o, Put(db, id, Redrafted(o, row, accountId, payload, now)), id, UpdatedEvent, Planned)
  }

  function UpdateDraft(o: Oracle, db: Db, id: Id, accountId: string, payload: string, now: Time): Outcome {
    Atomically(db, UpdateDraftTx(o, db, id, accountId, payload, now))
  }

  /** The second transaction of `discard_draft`: the update is guarded, the event
      is not. */
  function DiscardTx(o: Oracle, db: Db, id: Id, payload: string, now: Time): Result<Committed> {
    var updated :=
      if id in db.operations && db.operations[id].kind == DRAFT && db.operations[id].status.Planned?
      then Put(db, id, Redrafted(o, db.operations[id], db.operations[id].accountId, payload, now)) else db;
    Record(o, updated, id, DiscardedEvent, Planned)
  }

  function Discard(o: Oracle, db: Db, id: Id, payload: string, now: Time): Outcome {
    Atomically(db, DiscardTx(o, db, id, payload, now))
  }

  // ----- the store as the source runs it -----

  class Store {
    const oracle: Oracle
    var operations: map<Id, Row>
    var events: seq<Event>

    constructor (oracle: Oracle)
      ensures Now() == EMPTY && this.oracle == oracle
    {
      this.oracle := oracle;
      operations := map[];
      events := [];
    }

    function Now(): Db
      reads this
    {
      Db(operations, events)
    }

    /** What a dropped transaction does. */
    method Rollback(begun: Db)
      modifies this
      ensures Now() == begun
    {
      operations, events := begun.operations, begun.events;
    }

    method AppendEvent(id: Id, row: Row, kind: EventKind, status: Status)
      modifies this`events
      ensures Now() == Append(old(Now()), id, row, kind, status)
    {
      events := events + [Event(id, kind, status, row.updatedAt, row.digest)];
    }

    method OperationInTransaction(id: Id) returns (r: Result<Option<Row>>)
      ensures r == ReadRow(oracle, Now(), id)
    {
      if id !in operations {
        return Ok(None);
      }
      if operations[id].digest != (oracle.digest)(operations[id].payload) {
        return Err(StoreRead);
      }
      return Ok(Some(operations[id]));
    }

    /** Read back and append, as every transaction that touches one row ends. A
        caller that has just written a row it had read cannot see this fail. */
    method RecordEvent(id: Id, kind: EventKind, status: Status) returns (r: Result<Row>)
      modifies this`events
      ensures match Record(oracle, old(Now()), id, kind, status)
              case Ok(c) => r == Ok(c.row) && Now() == c.db
              case Err(e) => r == Err(e)
    {
      var found := OperationInTransaction(id);
      if found.Err? { return Err(found.error); }
      if found.value.None? { return Err(PlanNotFound); }
      AppendEvent(id, found.value.value, kind, status);
      return Ok(found.value.value);
    }

    method SelectIds(sweep: Sweep, order: seq<Id>, now: Time) returns (ids: seq<Id>)
      ensures ids == Select(sweep, Now(), order, now)
    {
      hide Select; hide Selected;
      ids := [];
      assert order[0..] == order;
      for i := 0 to |order|
        invariant Select(sweep, Now(), order, now) == ids + Select(sweep, Now(), order[i..], now)
      {
        SelectNext(sweep, Now(), order, i, now);
        if order[i] in operations && Selected(sweep, operations[order[i]], now) {
          ids := ids + [order[i]];
        }
      }
      SelectEnd(sweep, Now(), order, now);
    }

    /** One of the two loops of `reconcile_operations`. */
    method SweepRows(sweep: Sweep, order: seq<Id>, now: Time) returns (r: Result<()>)
      modifies this
      ensures match SweepAll(oracle, sweep, old(Now()), Select(sweep, old(Now()), order, now), now)
              case Ok(db) => r == Ok(()) && Now() == db
              case Err(e) => r == Err(e)
    {
      var ids := SelectIds(sweep, order, now);
      ghost var whole := SweepAll(oracle, sweep, Now(), ids, now);
      assert ids[0..] == ids;
      for i := 0 to |ids|
        invariant SweepAll(oracle, sweep, Now(), ids[i..], now) == whole
      {
        var id := ids[i];
        assert ids[i..][0] == id && ids[i..][1..] == ids[i + 1..];
        if id in operations && Guarded(sweep, operations[id]) {
          operations := operations[id := Changed(sweep, operations[id], now)];
        }
        var row := OperationInTransaction(id);
        if row.Err? { return Err(row.error); }
        if row.value.Some? {
          AppendEvent(id, row.value.value, EventKindOf(sweep), StatusOf(sweep));
        }
      }
      return Ok(());
    }

    method ReconcileOperations(now: Time, scan: Scan) returns (r: Result<()>)
      modifies this
      ensures match Reconcile(oracle, old(Now()), now, scan)
              case Ok(db) => r == Ok(()) && Now() == db
              case Err(e) => r == Err(e)
    {
      r := SweepRows(Expiry, scan.expiry, now);
      if r.Err? { return; }
      r := SweepRows(Staleness, scan.stale, now);
    }

    method CreateOperation(id: Id, row: Row) returns (r: Result<Row>)
      modifies this
      ensures Outcome(Now(), r) == Create(oracle, old(Now()), id, row)
    {
      if !(oracle.validId)(id) { return Err(InvalidInput); }
      if !row.status.Planned? || row.payload == "" || row.digest != (oracle.digest)(row.payload) {
        return Err(PlanState);
      }
      if id in operations { return Err(PlanState); }
      operations := operations[id := row.(approvedAt := None, attempts := 0, lastError := None, receipt := None)];
      AppendEvent(id, row, CreatedEvent, Planned);
      return Ok(row);
    }

    method GetOperation(id: Id, now: Time, scan: Scan) returns (r: Result<Option<Row>>)
      modifies this
      ensures match LookTx(oracle, old(Now()), id, now, scan)
              case Ok((db, row)) => r == Ok(row) && Now() == db
              case Err(e) => r == Err(e) && Now() == old(Now())
    {
      if !(oracle.validId)(id) { return Err(InvalidInput); }
      var begun := Now();
      var reconciled := ReconcileOperations(now, scan);
      if reconciled.Err? { Rollback(begun); return Err(reconciled.error); }
      r := OperationInTransaction(id);
      if r.Err? { Rollback(begun); }
    }

    method MoveRow(id: Id, now: Time, from: Status, to: Status, approve: bool) returns (r: Result<Row>)
      modifies this
      ensures Outcome(Now(), r) == Atomically(old(Now()), MoveTx(oracle, old(Now()), id, now, from, to, approve))
    {
      hide Moved;
      var found := OperationInTransaction(id);
      if found.Err? { return Err(found.error); }
      if found.value.None? { return Err(PlanNotFound); }
      var existing := found.value.value;
      if existing.kind == DRAFT { return Err(PlanState); }
      if existing.status != from { return Err(PlanState); }
      operations := operations[id := Moved(existing, now, to, approve)];
      r := RecordEvent(id, TransitionedEvent, to);
    }

    method OperationTransition(
      id: Id, now: Time, from: Status, to: Status, approve: bool, scan: Scan) returns (r: Result<Row>)
      modifies this
      ensures Outcome(Now(), r) == Atomically(old(Now()),
        TransitionTx(oracle, old(Now()), id, now, from, to, approve, scan))
    {
      hide Reconcile; hide MoveTx;
      if !(oracle.validId)(id) { return Err(InvalidInput); }
      var begun := Now();
      var reconciled := ReconcileOperations(now, scan);
      if reconciled.Err? { Rollback(begun); return Err(reconciled.error); }
      r := MoveRow(id, now, from, to, approve);
      if r.Err? { Rollback(begun); }
    }

    method FinishOperation(id: Id, now: Time, e: Ending) returns (r: Result<Row>)
      modifies this
      ensures Outcome(Now(), r) == Finish(oracle, old(Now()), id, now, e)
    {
      if !(oracle.validId)(id) { return Err(InvalidInput); }
      var found := OperationInTransaction(id);
      if found.Err? { return Err(found.error); }
      if found.value.None? { return Err(PlanNotFound); }
      var existing := found.value.value;
      if !existing.status.Applying? { return Err(PlanState); }
      operations := operations[id := Ended(existing, now, e)];
      r := RecordEvent(id, FinalizedEvent, EndStatus(e));
    }

    method UpdateDraftRow(id: Id, accountId: string, payload: string, now: Time) returns (r: Result<Row>)
      modifies this
      ensures Outcome(Now(), r) == UpdateDraft(oracle, old(Now()), id, accountId, payload, now)
    {
      var found := OperationInTransaction(id);
      if found.Err? { return Err(found.error); }
      if found.value.None? { return Err(PlanNotFound); }
      var existing := found.value.value;
      if existing.kind != DRAFT || !existing.status.Planned? { return Err(PlanState); }
      operations := operations[id := Redrafted(oracle, existing, accountId, payload, now)];
      r := RecordEvent(id, UpdatedEvent, Planned);
    }

    method DiscardDraftRow(id: Id, payload: string, now: Time) returns (r: Result<Row>)
      modifies this
      ensures Outcome(Now(), r) == Discard(oracle, old(Now()), id, payload, now)
    {
      var begun := Now();
      if id in operations && operations[id].kind == DRAFT && operations[id].status.Planned? {
        operations := operations[id := Redrafted(oracle, operations[id], operations[id].accountId, payload, now)];
      }
      r := RecordEvent(id, DiscardedEvent, Planned);
      if r.Err? { Rollback(begun); }
    }

    /** `audit`: the oldest `limit` events of one operation, in append order. */
    method Audit(id: Id, limit: nat) returns (r: Result<seq<Event>>)
      ensures r == if !(oracle.validId)(id) || limit == 0 || limit > 100 then Err(InvalidInput)
                   else Ok(FirstN(LogOf(events, id), limit))
    {
      if !(oracle.validId)(id) || limit == 0 || limit > MAX_OPERATION_LIMIT {
        return Err(InvalidInput);
      }
      var found: seq<Event> := [];
      for i := 0 to |events|
        invariant found == FirstN(LogOf(events[..i], id), limit)
      {
        assert events[..i + 1][..i] == events[..i];
        if events[i].id == id && |found| < limit {
          found := found + [events[i]];
        }
      }
      assert events[..|events|] == events;
      return Ok(found);
    }
  }

  const MAX_OPERATION_LIMIT := 100

  function FirstN<T>(s: seq<T>, n: nat): seq<T> { if |s| <= n then s else s[..n] }

  /** The events of one operation, oldest first. */
  function LogOf(events: seq<Event>, id: Id): seq<Event> {
    if |events| == 0 then []
    else
      var rest, last := LogOf(events[..|events| - 1], id), events[|events| - 1];
      if last.id == id then rest + [last] else rest
  }
}
