/** The ledger seen from outside: for every call, what each row and each log is
    afterwards and what is answered, written out field by field, and the proof
    that the transactions do just that. */
module LedgerReference {
  import opened Basics
  import opened Ledger
  import opened LedgerFacts
  import opened LedgerEffects

  // ----- what time does to a row -----

  /** Not yet approved or claimed, and its expiry is not in the future. */
  predicate Lapsed(row: Row, now: Time) {
    (row.status == Planned || row.status == Approved) && row.expiresAt.Some? && !(now < row.expiresAt.value)
  }

  /** Claimed fifteen minutes ago or earlier, and never finished. */
  predicate Abandoned(row: Row, now: Time) {
    row.kind != "draft" && row.status == Applying && row.updatedAt + 900_000_000 <= now
  }

  function Aged(row: Row, now: Time): Row {
    if Lapsed(row, now) then row.(status := Expired, updatedAt := now)
    else if Abandoned(row, now) then
      row.(status := Ambiguous, updatedAt := now,
           lastError := Some(Failure("previous remote operation ended without a final result", false)))
    else row
  }

  function AgedLog(id: Id, row: Row, now: Time): seq<Event> {
    if Lapsed(row, now) then [Event(id, ExpiredEvent, Expired, now, row.digest)]
    else if Abandoned(row, now) then [Event(id, ReconciledEvent, Ambiguous, now, row.digest)]
    else []
  }

  lemma AgedIsSettled(id: Id, row: Row, now: Time)
    ensures Aged(row, now) == Settled(row, now) && AgedLog(id, row, now) == SettledLog(id, row, now)
  {
  }

  // ----- what is granted -----

  /** A new operation is stored exactly under a UUID not yet taken, as planned,
      with a payload and its digest. */
  predicate Storable(o: Oracle, db: Db, id: Id, row: Row) {
    && (o.validId)(id) && id !in db.operations
    && row.status == Planned && |row.payload| > 0 && (o.digest)(row.payload) == row.digest
  }

  /** An operation moves on from a status exactly when it is there, is no draft, has
      that status, and has not lapsed. */
  predicate Movable(o: Oracle, db: Db, id: Id, now: Time, from: Status) {
    && (o.validId)(id) && id in db.operations
    && db.operations[id].kind != "draft" && db.operations[id].status == from && !Lapsed(db.operations[id], now)
  }

  predicate Finishable(o: Oracle, db: Db, id: Id) {
    (o.validId)(id) && id in db.operations && db.operations[id].status == Applying
  }

  predicate Editable(db: Db, id: Id) {
    id in db.operations && db.operations[id].kind == "draft" && db.operations[id].status == Planned
  }

  predicate Granted(o: Oracle, db: Db, call: Call) {
    match call
    case CreateCall(id, row) => Storable(o, db, id, row)
    case LookCall(id, _, _) => (o.validId)(id)
    case ApproveCall(id, now, _) => Movable(o, db, id, now, Planned)
    case ClaimCall(id, now, _) => Movable(o, db, id, now, Approved)
    case FinishCall(id, _, _) => Finishable(o, db, id)
    case UpdateCall(id, _, _, _) => Editable(db, id)
    case DiscardCall(id, _, _) => id in db.operations
  }

  // ----- the reference -----

  /** The called row after a granted call. */
  function Written(o: Oracle, call: Call, row: Row): Row {
    match call
    case CreateCall(_, made) => made.(approvedAt := None, attempts := 0, lastError := None, receipt := None)
    case LookCall(_, now, _) => Aged(row, now)
    case ApproveCall(_, now, _) => row.(status := Approved, approvedAt := Some(now), updatedAt := now)
    case ClaimCall(_, now, _) => row.(status := Applying, updatedAt := now, attempts := row.attempts + 1)
    case FinishCall(_, now, EndSucceeded(receipt)) =>
      row.(status := Succeeded, updatedAt := now, lastError := None, receipt := Some(receipt))
    case FinishCall(_, now, EndFailed(error)) =>
      row.(status := Failed, updatedAt := now, lastError := Some(error), receipt := None)
    case FinishCall(_, now, EndAmbiguous(error)) =>
      row.(status := Ambiguous, updatedAt := now, lastError := Some(Failure(error.message, false)), receipt := None)
    case UpdateCall(_, accountId, payload, now) =>
      row.(accountId := accountId, payload := payload, digest := (o.digest)(payload), updatedAt := now)
    case DiscardCall(_, payload, now) =>
      if row.kind == "draft" && row.status == Planned
      then row.(payload := payload, digest := (o.digest)(payload), updatedAt := now)
      else row
  }

  /** The event it leaves. */
  function Logged(o: Oracle, call: Call, row: Row): seq<Event> {
    match call
    case CreateCall(id, made) => [Event(id, CreatedEvent, Planned, made.updatedAt, made.digest)]
    case LookCall(id, now, _) => AgedLog(id, row, now)
    case ApproveCall(id, now, _) => [Event(id, TransitionedEvent, Approved, now, row.digest)]
    case ClaimCall(id, now, _) => [Event(id, TransitionedEvent, Applying, now, row.digest)]
    case FinishCall(id, now, EndSucceeded(_)) => [Event(id, FinalizedEvent, Succeeded, now, row.digest)]
    case FinishCall(id, now, EndFailed(_)) => [Event(id, FinalizedEvent, Failed, now, row.digest)]
    case FinishCall(id, now, EndAmbiguous(_)) => [Event(id, FinalizedEvent, Ambiguous, now, row.digest)]
    case UpdateCall(id, _, payload, now) => [Event(id, UpdatedEvent, Planned, now, (o.digest)(payload))]
    case DiscardCall(id, payload, now) =>
      if row.kind == "draft" && row.status == Planned
      then [Event(id, DiscardedEvent, Planned, now, (o.digest)(payload))]
      else [Event(id, DiscardedEvent, Planned, row.updatedAt, row.digest)]
  }

  /** What one row and its log are after a call: the called row is written, every
      other one ages if the call reconciles, and a call that is not granted
      changes nothing at all. */
  predicate Meets(o: Oracle, call: Call, db: Db, next: Db, id: Id) {
    var before, after := LogOf(db.events, id), LogOf(next.events, id);
    if !Granted(o, db, call) then Untouched(db, next, id) && after == before
    else if id == call.id && (call.CreateCall? || id in db.operations) then
      var row := if call.CreateCall? then call.row else db.operations[id];
      id in next.operations && next.operations[id] == Written(o, call, row) && after == before + Logged(o, call, row)
    else if Reconciling(call) && id in db.operations then
      && id in next.operations
      && next.operations[id] == Aged(db.operations[id], call.now)
      && after == before + AgedLog(id, db.operations[id], call.now)
    else Untouched(db, next, id) && after == before
  }

  /** Every call meets the reference at every row. */
  lemma CallMeetsReference(o: Oracle, db: Db, call: Call, id: Id)
    requires Sound(o, db) && Possible(db, call)
    ensures Meets(o, call, db, After(o, db, call), id)
  {
    hide LogOf; hide Reconcile; hide Meets; hide Scans; hide MoveTx;
    match call {
      case LookCall(_, _, _) => LookMeets(o, db, call, id);
      case ApproveCall(target, now, scan) => MoveMeets(o, db, call, id);
      case ClaimCall(target, now, scan) => MoveMeets(o, db, call, id);
      case _ => PlainMeets(o, db, call, id);
    }
  }

  lemma LookMeets(o: Oracle, db: Db, call: Call, id: Id)
    requires Sound(o, db) && Possible(db, call) && call.LookCall?
    ensures Meets(o, call, db, After(o, db, call), id)
  {
    hide LogOf; hide Reconcile; hide Scans; hide Settled; hide SettledLog; hide Aged; hide AgedLog;
    if (o.validId)(call.id) {
      ReconcileIsPointwise(o, db, call.now, call.scan, id);
      if id in db.operations { AgedIsSettled(id, db.operations[id], call.now); }
    }
  }

  lemma PlainMeets(o: Oracle, db: Db, call: Call, id: Id)
    requires Sound(o, db) && Possible(db, call) && !Reconciling(call)
    ensures Meets(o, call, db, After(o, db, call), id)
  {
    hide LogOf;
    var next := After(o, db, call);
    if next.events != db.events {
      var e := next.events[|db.events|];
      assert next.events == db.events + [e];
      LogOfAppend(db.events, e, id);
    }
  }

  lemma MoveMeets(o: Oracle, db: Db, call: Call, id: Id)
    requires Sound(o, db) && Possible(db, call) && (call.ApproveCall? || call.ClaimCall?)
    ensures Meets(o, call, db, After(o, db, call), id)
  {
    hide LogOf; hide Reconcile; hide Scans; hide MoveTx; hide Settled; hide SettledLog; hide Aged; hide AgedLog;
    hide Moved;
    var (from, to, approve) := if call.ApproveCall? then (Planned, Approved, true) else (Approved, Applying, false);
    GrantIsDecision(o, db, call.id, call.now, from, to, approve);
    TransitionIsDecided(o, db, call.id, call.now, from, to, approve, call.scan);
    ReconcileIsPointwise(o, db, call.now, call.scan, call.id);
    ReconcileIsPointwise(o, db, call.now, call.scan, id);
    var mid := Reconcile(o, db, call.now, call.scan).value;
    if id in db.operations { AgedIsSettled(id, db.operations[id], call.now); }
    if Granted(o, db, call) {
      MoveAppends(o, mid, call.id, call.now, from, to, approve, id);
      LiveStays(db.operations[call.id], call.now);
      MovedIsWritten(db.operations[call.id], call.now, to, approve);
    }
  }

  lemma GrantIsDecision(o: Oracle, db: Db, id: Id, now: Time, from: Status, to: Status, approve: bool)
    requires from.Planned? || from.Approved?
    ensures Decision(o, db, id, now, from, to, approve).Ok? <==> Movable(o, db, id, now, from)
    ensures Movable(o, db, id, now, from) ==>
      Decision(o, db, id, now, from, to, approve) == Ok(Moved(db.operations[id], now, to, approve))
    ensures !Movable(o, db, id, now, from) ==> Decision(o, db, id, now, from, to, approve) == Err(
      if !(o.validId)(id) then InvalidInput else if id in db.operations then PlanState else PlanNotFound)
  {
    hide Moved;
  }

  lemma LiveStays(row: Row, now: Time)
    requires !Lapsed(row, now) && (row.status.Planned? || row.status.Approved?)
    ensures Settled(row, now) == row && SettledLog("", row, now) == []
    ensures forall id :: SettledLog(id, row, now) == []
  {
  }

  lemma MovedIsWritten(row: Row, now: Time, to: Status, approve: bool)
    ensures to.Approved? && approve ==>
      Moved(row, now, to, approve) == row.(status := Approved, approvedAt := Some(now), updatedAt := now)
    ensures to.Applying? && !approve ==>
      Moved(row, now, to, approve) == row.(status := Applying, updatedAt := now, attempts := row.attempts + 1)
  {
  }

  lemma MoveAppends(o: Oracle, db: Db, target: Id, now: Time, from: Status, to: Status, approve: bool, id: Id)
    requires Sound(o, db) && MoveTx(o, db, target, now, from, to, approve).Ok?
    ensures target in db.operations
    ensures var done := MoveTx(o, db, target, now, from, to, approve).value;
      && done.db.operations == db.operations[target := Moved(db.operations[target], now, to, approve)]
      && LogOf(done.db.events, id) == LogOf(db.events, id) +
           if id == target
           then [Event(target, TransitionedEvent, to, Moved(db.operations[target], now, to, approve).updatedAt,
                  db.operations[target].digest)]
           else []
  {
    hide LogOf; hide Moved;
    var row := Moved(db.operations[target], now, to, approve);
    LogOfAppend(db.events, Event(target, TransitionedEvent, to, row.updatedAt, row.digest), id);
    assert LogOf(db.events, id) + [] == LogOf(db.events, id);
  }

  // ----- what is answered -----

  /** Why a call is refused. */
  function Refusal(o: Oracle, db: Db, call: Call): ErrorCode {
    match call
    case CreateCall(id, _) => if (o.validId)(id) then PlanState else InvalidInput
    case UpdateCall(id, _, _, _) => if id in db.operations then PlanState else PlanNotFound
    case DiscardCall(_, _, _) => PlanNotFound
    case _ =>
      if !(o.validId)(call.id) then InvalidInput else if call.id in db.operations then PlanState else PlanNotFound
  }

  /** The answer of a call that returns a row: the row as written, exactly when
      the call is granted, and otherwise the reason. */
  lemma AnswersAreRows(o: Oracle, db: Db, call: Call, scan: Scan)
    requires Sound(o, db) && Scans(scan, db)
    ensures var out := match call
        case CreateCall(id, row) => Create(o, db, id, row)
        case LookCall(id, now, _) => Outcome(db, Err(StoreRead))
        case ApproveCall(id, now, _) => Approve(o, db, id, now, scan)
        case ClaimCall(id, now, _) => Claim(o, db, id, now, scan)
        case FinishCall(id, now, e) => Finish(o, db, id, now, e)
        case UpdateCall(id, accountId, payload, now) => UpdateDraft(o, db, id, accountId, payload, now)
        case DiscardCall(id, payload, now) => Discard(o, db, id, payload, now);
      !call.LookCall? ==>
        && (out.result.Ok? <==> Granted(o, db, call))
        && (out.result.Err? ==> out.db == db && out.result.error == Refusal(o, db, call))
        && (out.result.Ok? && !call.CreateCall? ==> out.result.value == Written(o, call, db.operations[call.id]))
        && (out.result.Ok? && call.CreateCall? ==> out.result.value == call.row)
  {
    hide Reconcile; hide LogOf; hide Scans; hide MoveTx; hide Moved; hide Decision;
    match call {
      case ApproveCall(id, now, _) =>
        TransitionIsDecided(o, db, id, now, Planned, Approved, true, scan);
        GrantIsDecision(o, db, id, now, Planned, Approved, true);
        if id in db.operations { MovedIsWritten(db.operations[id], now, Approved, true); }
      case ClaimCall(id, now, _) =>
        TransitionIsDecided(o, db, id, now, Approved, Applying, false, scan);
        GrantIsDecision(o, db, id, now, Approved, Applying, false);
        if id in db.operations { MovedIsWritten(db.operations[id], now, Applying, false); }
      case _ =>
    }
  }

  /** A look answers with the row as it has aged, or with none. */
  lemma LookAnswers(o: Oracle, db: Db, id: Id, now: Time, scan: Scan)
    requires Sound(o, db) && Scans(scan, db)
    ensures var look := LookTx(o, db, id, now, scan);
      if !(o.validId)(id) then look == Err(InvalidInput)
      else look.Ok? && look.value.1 == if id in db.operations then Some(Aged(db.operations[id], now)) else None
  {
    hide Reconcile; hide LogOf; hide Scans; hide Settled; hide SettledLog; hide Aged; hide AgedLog;
    ReconcileIsPointwise(o, db, now, scan, id);
    if id in db.operations { AgedIsSettled(id, db.operations[id], now); }
  }

  // ----- what it means over time -----

  /** An operation that was claimed and not finished is found applying by every
      look in the fifteen minutes that follow, and ambiguous by every later one. */
  lemma ClaimsHaveFifteenMinutes(o: Oracle, db: Db, id: Id, claimed: Time, scan: Scan, now: Time, again: Scan)
    requires Sound(o, db) && Scans(scan, db) && Movable(o, db, id, claimed, Approved)
    requires Scans(again, After(o, db, ClaimCall(id, claimed, scan)))
    ensures var later := After(o, After(o, db, ClaimCall(id, claimed, scan)), LookCall(id, now, again));
      && id in later.operations
      && later.operations[id].status == if now - claimed < 15 * 60 * 1_000_000 then Applying else Ambiguous
  {
    hide LogOf; hide After; hide Reconcile; hide Scans;
    CallMeetsReference(o, db, ClaimCall(id, claimed, scan), id);
    var mid := After(o, db, ClaimCall(id, claimed, scan));
    CallEffect(o, db, ClaimCall(id, claimed, scan), id);
    CallMeetsReference(o, mid, LookCall(id, now, again), id);
  }
}
