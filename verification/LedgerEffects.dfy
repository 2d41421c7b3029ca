/** What each ledger call does to each row, in closed form. */
module LedgerEffects {
  import opened Basics
  import opened Ledger
  import opened LedgerFacts

  /** Whether a row can still be approved or claimed at a time. */
  predicate Live(row: Row, now: Time) {
    (row.status.Planned? || row.status.Approved?) && !(row.expiresAt.Some? && row.expiresAt.value <= now)
  }

  // ----- what a transition decides -----

  /** The outcome of approve and claim as a function of the row before the
      transaction, with no reconciliation in sight. */
  function Decision(o: Oracle, db: Db, id: Id, now: Time, from: Status, to: Status, approve: bool): Result<Row> {
    var _ :- Need((o.validId)(id), InvalidInput);
    var _ :- Need(id in db.operations, PlanNotFound);
    var row := db.operations[id];
    var _ :- Need(row.kind != DRAFT && Live(row, now) && row.status == from, PlanState);
    Ok(Moved(row, now, to, approve))
  }

  lemma TransitionIsDecided(o: Oracle, db: Db, id: Id, now: Time, from: Status, to: Status, approve: bool, scan: Scan)
    requires Sound(o, db) && Scans(scan, db)
    requires from.Planned? || from.Approved?
    ensures Atomically(db, TransitionTx(o, db, id, now, from, to, approve, scan)).result ==
      Decision(o, db, id, now, from, to, approve)
  {
    hide Reconcile; hide LogOf; hide Scans; hide SettledLog; hide Moved;
    ReconcileIsPointwise(o, db, now, scan, id);
  }

  // ----- the effect of a call on one row -----

  /** A call leaves any other row alone, up to settling, and the called row in
      one of three ways. */
  predicate RowAfter(o: Oracle, call: Call, db: Db, next: Db, id: Id) {
    match call
    case CreateCall(target, row) =>
      if id == target && CreateTx(o, db, target, row).Ok?
      then
        && id in next.operations
        && next.operations[id] == row.(approvedAt := None, attempts := 0, lastError := None, receipt := None)
      else Untouched(db, next, id)
    case LookCall(_, now, _) => Untouched(db, next, id) || SettledRow(db, next, id, now)
    case ApproveCall(target, now, _) => MovedAt(o, db, next, target, now, Planned, Approved, true, id)
    case ClaimCall(target, now, _) => MovedAt(o, db, next, target, now, Approved, Applying, false, id)
    case FinishCall(target, now, e) =>
      || Untouched(db, next, id)
      || (id == target && id in db.operations && id in next.operations && db.operations[id].status.Applying?
          && next.operations[id] == Ended(db.operations[id], now, e))
    case UpdateCall(target, accountId, payload, now) =>
      if id == target && ActiveDraft(db, id) then RewrittenAt(o, db, next, id, accountId, payload, now)
      else Untouched(db, next, id)
    case DiscardCall(target, payload, now) =>
      if id == target && ActiveDraft(db, id)
      then RewrittenAt(o, db, next, id, db.operations[id].accountId, payload, now)
      else Untouched(db, next, id)
  }

  predicate Untouched(db: Db, next: Db, id: Id) {
    (id in next.operations <==> id in db.operations)
      && (id in db.operations ==> next.operations[id] == db.operations[id])
  }

  predicate SettledRow(db: Db, next: Db, id: Id, now: Time) {
    && (id in next.operations <==> id in db.operations)
    && (id in db.operations ==> next.operations[id] == Settled(db.operations[id], now))
  }

  predicate ActiveDraft(db: Db, id: Id) {
    id in db.operations && db.operations[id].kind == DRAFT && db.operations[id].status.Planned?
  }

  /** The draft now holds the new payload under its own digest, and nothing else of it changed. */
  predicate RewrittenAt(o: Oracle, db: Db, next: Db, id: Id, accountId: string, payload: string, now: Time)
    requires id in db.operations
  {
    && id in next.operations
    && next.operations[id] == db.operations[id].(
         accountId := accountId, payload := payload, digest := (o.digest)(payload), updatedAt := now)
  }

  predicate MovedAt(
    o: Oracle, db: Db, next: Db, target: Id, now: Time, from: Status, to: Status, approve: bool, id: Id) {
    var d := Decision(o, db, target, now, from, to, approve);
    if d.Ok? && id == target then id in next.operations && next.operations[id] == d.value
    else Untouched(db, next, id) || SettledRow(db, next, id, now)
  }

  lemma CallEffect(o: Oracle, db: Db, call: Call, id: Id)
    requires Sound(o, db) && Possible(db, call)
    ensures Sound(o, After(o, db, call)) && RowAfter(o, call, db, After(o, db, call), id)
  {
    hide Reconcile; hide LogOf; hide Scans; hide SettledLog; hide MovedAt; hide SettledAt; hide TransitionTx;
    hide RowAfter;
    match call {
      case LookCall(_, now, scan) =>
        ReconcileIsPointwise(o, db, now, scan, id);
        LookEffect(o, db, call, id);
      case ApproveCall(target, now, scan) =>
        TransitionEffect(o, db, target, now, Planned, Approved, true, scan, id); ApproveOrClaim(o, db, call, id);
      case ClaimCall(target, now, scan) =>
        TransitionEffect(o, db, target, now, Approved, Applying, false, scan, id); ApproveOrClaim(o, db, call, id);
      case _ => PlainEffect(o, db, call, id);
    }
  }

  lemma LookEffect(o: Oracle, db: Db, call: Call, id: Id)
    requires call.LookCall? && Sound(o, db)
    requires Reconcile(o, db, call.now, call.scan).Ok?
    requires Sound(o, Reconcile(o, db, call.now, call.scan).value)
    requires SettledAt(db, Reconcile(o, db, call.now, call.scan).value, id, call.now)
    ensures Sound(o, After(o, db, call)) && RowAfter(o, call, db, After(o, db, call), id)
  {
    hide Reconcile; hide LogOf; hide Settled;
  }

  lemma ApproveOrClaim(o: Oracle, db: Db, call: Call, id: Id)
    requires call.ApproveCall? || call.ClaimCall?
    requires MovedAt(o, db, After(o, db, call), call.id, call.now, if call.ApproveCall? then Planned else Approved,
      if call.ApproveCall? then Approved else Applying, call.ApproveCall?, id)
    ensures RowAfter(o, call, db, After(o, db, call), id)
  {
    hide MovedAt; hide TransitionTx;
  }

  lemma PlainEffect(o: Oracle, db: Db, call: Call, id: Id)
    requires Sound(o, db) && !Reconciling(call)
    ensures Sound(o, After(o, db, call)) && RowAfter(o, call, db, After(o, db, call), id)
  {
    hide Decision; hide LogOf;
  }

  lemma TransitionEffect(
    o: Oracle, db: Db, target: Id, now: Time, from: Status, to: Status, approve: bool, scan: Scan, id: Id)
    requires Sound(o, db) && Scans(scan, db)
    requires from.Planned? || from.Approved?
    ensures var next := Atomically(db, TransitionTx(o, db, target, now, from, to, approve, scan)).db;
      Sound(o, next) && MovedAt(o, db, next, target, now, from, to, approve, id)
  {
    hide Reconcile; hide Scans; hide SettledLog; hide Decision; hide LogOf; hide Settled; hide Moved; hide MoveTx;
    hide Sound;
    TransitionIsDecided(o, db, target, now, from, to, approve, scan);
    ReconcileIsPointwise(o, db, now, scan, id);
    if TransitionTx(o, db, target, now, from, to, approve, scan).Ok? {
      MoveEffect(o, Reconcile(o, db, now, scan).value, target, now, from, to, approve);
    }
  }

  lemma MoveEffect(o: Oracle, db: Db, target: Id, now: Time, from: Status, to: Status, approve: bool)
    requires Sound(o, db) && MoveTx(o, db, target, now, from, to, approve).Ok?
    ensures var done := MoveTx(o, db, target, now, from, to, approve).value;
      Sound(o, done.db) && target in db.operations && done.db.operations == db.operations[target := done.row]
  {
    hide Moved;
  }
}
