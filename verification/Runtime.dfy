/** The service calls that apply one governed operation, as straight-line code
    over the ledger store and the remote client. */
module Runtime {
  import opened Basics
  import opened Ledger
  import opened LedgerFacts
  import LedgerEffects
  import ImapAdapter
  import LedgerRuns

  /** The clock readings and row orders of the transactions of one call. */
  datatype Moments = Moments(look: Time, lookScan: Scan, claim: Time, claimScan: Scan, finish: Time)

  /** What both calls ask of the operation before anything remote: a valid id, an
      approved row, and a deadline, if any, still ahead at every reading of the clock. */
  predicate Ready(o: Oracle, db: Db, id: Id, readings: seq<Time>) {
    && (o.validId)(id) && id in db.operations && db.operations[id].status.Approved?
    && (db.operations[id].expiresAt.Some? ==> forall now | now in readings :: now < db.operations[id].expiresAt.value)
  }

  predicate MailReady(o: Oracle, db: Db, id: Id, m: Moments) {
    Ready(o, db, id, [m.look, m.claim]) && db.operations[id].kind != "send" && db.operations[id].kind != "draft"
  }

  predicate SendReady(o: Oracle, db: Db, id: Id, m: Moments) {
    Ready(o, db, id, [m.claim]) && db.operations[id].kind != "draft"
  }

  /** Why an operation is not ready: a malformed id, none of that id, or its state. */
  function Refusal(o: Oracle, db: Db, id: Id): ErrorCode {
    if !(o.validId)(id) then InvalidInput else if id in db.operations then PlanState else PlanNotFound
  }

  /** The commands a row and an environment lead to, if any may be sent. */
  function MailCommands(
    ps: LedgerRuns.Payloads, row: Row, env: LedgerRuns.Environment): Option<seq<ImapAdapter.Command>> {
    var request := ps.mail(row.payload);
    if request.Some? && ps.kindName(request.value.kind) == row.kind && request.value.accountId == row.accountId
      && env.credentials
    then ImapAdapter.Commands(request.value, env.session) else None
  }

  function SendCommands(row: Row, env: LedgerRuns.Environment): Option<seq<ImapAdapter.Command>> {
    if env.credentials && env.sendable && row.messageId.Some?
    then Some([ImapAdapter.SubmitCommand(row.messageId.value)]) else None
  }

  /** What the client has sent: the commands, up to the first one refused. */
  predicate SentUpTo(commands: Option<seq<ImapAdapter.Command>>, issued: seq<ImapAdapter.Command>, acknowledged: nat) {
    match commands
    case None => issued == [] && acknowledged == 0
    case Some(cs) => issued <= cs && (acknowledged == |issued| == |cs| || acknowledged + 1 == |issued|)
  }

  /** The final row: failed when there was nothing to send, succeeded when all of
      it was acknowledged, ambiguous otherwise; one attempt, the time of the
      finish, the receipt or the error, and all else as it was approved. */
  predicate Final(
    was: Row, row: Row, commands: Option<seq<ImapAdapter.Command>>, acknowledged: nat, now: Time, receipt: string,
    error: Failure)
  {
    && row.attempts == 1 && row.updatedAt == now
    && row.(status := was.status, attempts := was.attempts, updatedAt := was.updatedAt, lastError := was.lastError,
         receipt := was.receipt) == was
    && if commands.None? then row.status.Failed? && row.lastError == Some(error) && row.receipt.None?
       else if acknowledged == |commands.value| then
         row.status.Succeeded? && row.lastError.None? && row.receipt == Some(receipt)
       else row.status.Ambiguous? && row.lastError == Some(Failure(error.message, false)) && row.receipt.None?
  }

  /** `apply_mail_operation`: it answers with a row exactly when the operation was
      ready, and then the row, the commands and the replies agree. */
  method ApplyMailOperation(
    store: Store, client: ImapAdapter.Client, ps: LedgerRuns.Payloads, id: Id, env: LedgerRuns.Environment,
    m: Moments, receipt: string)
    returns (r: Result<Row>)
    requires AuditOk(store.oracle, store.Now()) && Scans(m.lookScan, store.Now()) && Scans(m.claimScan, store.Now())
    requires client.issued == [] && client.acknowledged == 0
    modifies store, client
    ensures r.Ok? <==> MailReady(store.oracle, old(store.Now()), id, m)
    ensures r.Err? ==> r.error == Refusal(store.oracle, old(store.Now()), id)
    ensures r.Err? ==> client.issued == [] && client.acknowledged == 0
    ensures r.Ok? ==> id in store.operations && store.operations[id] == r.value
    ensures r.Ok? ==>
      var was := old(store.operations)[id];
      var commands := MailCommands(ps, was, env);
      && SentUpTo(commands, client.issued, client.acknowledged)
      && (commands.Some? ==> client.issued == ImapAdapter.Outcome(commands.value, client.replies, 0).0)
      && Final(was, r.value, commands, client.acknowledged, m.finish, receipt, env.error)
    ensures AuditOk(store.oracle, store.Now())
  {
    hide AuditOk; hide LookTx; hide TransitionTx; hide Finish; hide Scans; hide ImapAdapter.Commands; hide Ended;
    hide ImapAdapter.Outcome; hide Moved; hide Final; hide LedgerEffects.Decision; hide Ready;
    var o := store.oracle;
    ghost var start := store.Now();
    var found := store.GetOperation(id, m.look, m.lookScan);
    ReadyIsClaimable(o, start, id, m);
    if found.Err? { return Err(found.error); }
    LookFacts(o, start, id, m.look, m.lookScan, m.claimScan);
    if found.value.None? { return Err(PlanNotFound); }
    var pending := found.value.value;
    if pending.kind == SEND || pending.kind == DRAFT { return Err(PlanState); }
    ghost var looked := store.Now();
    var claimed := store.OperationTransition(id, m.claim, Approved, Applying, false, m.claimScan);
    ClaimIsDecided(o, looked, id, m.claim, m.claimScan);
    ClaimFacts(o, looked, id, m.claim, m.claimScan);
    if claimed.Err? { return Err(claimed.error); }
    var row := claimed.value;
    var ending;
    match ps.mail(row.payload) {
      case None => ending := EndFailed(env.error);
      case Some(request) =>
        if row.kind != ps.kindName(request.kind) || row.accountId != request.accountId || !env.credentials {
          ending := EndFailed(env.error);
        } else {
          var attempt := client.Apply(request, env.session);
          ending := match attempt
            case Applied(_) => EndSucceeded(receipt)
            case RefusedBefore => EndFailed(env.error)
            case FailedAfter => EndAmbiguous(env.error);
        }
    }
    FinishFacts(o, store.Now(), id, m.finish, ending);
    r := store.FinishOperation(id, m.finish, ending);
    ghost var commands := MailCommands(ps, row, env);
    assert ending == Verdict(commands, client.acknowledged, receipt, env.error);
    EndedIsFinal(o, start, id, row, m.claim, m.finish, commands, client.acknowledged, receipt, env.error);
  }

  /** The ending that the number of acknowledged commands calls for. */
  function Verdict(
    commands: Option<seq<ImapAdapter.Command>>, acknowledged: nat, receipt: string, error: Failure): Ending {
    if commands.None? then EndFailed(error)
    else if acknowledged == |commands.value| then EndSucceeded(receipt)
    else EndAmbiguous(error)
  }

  lemma EndedIsFinal(
    o: Oracle, db: Db, id: Id, row: Row, claim: Time, now: Time, commands: Option<seq<ImapAdapter.Command>>,
    acknowledged: nat, receipt: string, error: Failure)
    requires AuditOk(o, db) && id in db.operations && db.operations[id].status.Approved?
    requires row == Moved(db.operations[id], claim, Applying, false)
    ensures Final(db.operations[id], Ended(row, now, Verdict(commands, acknowledged, receipt, error)), commands,
      acknowledged, now, receipt, error)
  {
    hide LogFollows; hide LogOf;
    assert TellsAt(db, id);
  }

  /** The first look finds a ready operation as it was, and the claim that follows
      is decided as it would have been before. */
  lemma ReadyIsClaimable(o: Oracle, db: Db, id: Id, m: Moments)
    requires AuditOk(o, db) && Scans(m.lookScan, db)
    ensures var look := LookTx(o, db, id, m.look, m.lookScan);
      if look.Err? then !MailReady(o, db, id, m) && look.error == Refusal(o, db, id)
      else if look.value.1.None? then !MailReady(o, db, id, m) && Refusal(o, db, id) == PlanNotFound
      else
        var row := look.value.1.value;
        && id in db.operations && row.kind == db.operations[id].kind && Refusal(o, db, id) == PlanState
        && var claim := LedgerEffects.Decision(o, look.value.0, id, m.claim, Approved, Applying, false);
        && (claim.Err? ==> claim.error == PlanState)
        && (MailReady(o, db, id, m) ==> row == db.operations[id])
        && (MailReady(o, db, id, m) <==>
              row.kind != SEND && row.kind != DRAFT
              && claim.Ok?)
  {
    hide Reconcile; hide LogOf; hide LogFollows; hide Scans; hide SettledLog; hide Moved;
    ReconcileIsPointwise(o, db, m.look, m.lookScan, id);
    assert m.look in [m.look, m.claim] && m.claim in [m.look, m.claim];
    var look := LookTx(o, db, id, m.look, m.lookScan);
    assert look.Err? ==> !(o.validId)(id);
    if look.Ok? && id in db.operations {
      assert look.value.1 == Some(Settled(db.operations[id], m.look));
      assert look.value.0.operations[id] == Settled(db.operations[id], m.look);
    }
  }

  lemma LookFacts(o: Oracle, db: Db, id: Id, now: Time, scan: Scan, later: Scan)
    requires AuditOk(o, db) && Scans(scan, db) && Scans(later, db) && LookTx(o, db, id, now, scan).Ok?
    ensures var (next, row) := LookTx(o, db, id, now, scan).value;
      && AuditOk(o, next) && Scans(later, next) && (o.validId)(id)
      && (row.Some? ==>
            && id in db.operations && id in next.operations
            && next.operations[id] == row.value == Settled(db.operations[id], now))
  {
    hide Reconcile; hide LogOf; hide LogFollows; hide Settled; hide SettledLog; hide Lists;
    ReconcileKeepsAudit(o, db, now, scan);
    ReconcileIsPointwise(o, db, now, scan, id);
    var next := Reconcile(o, db, now, scan).value;
    forall x ensures x in next.operations <==> x in db.operations {
      ReconcileIsPointwise(o, db, now, scan, x);
    }
    SameKeysSameLists(later.expiry, db, next);
    SameKeysSameLists(later.stale, db, next);
  }

  lemma ClaimFacts(o: Oracle, db: Db, id: Id, now: Time, scan: Scan)
    requires AuditOk(o, db) && Scans(scan, db)
    ensures var out := Claim(o, db, id, now, scan);
      && AuditOk(o, out.db)
      && (out.result.Ok? ==>
            && id in db.operations && db.operations[id].status.Approved? && id in out.db.operations
            && out.db.operations[id] == out.result.value == Moved(db.operations[id], now, Applying, false))
  {
    hide TransitionTx; hide Scans; hide LogFollows; hide LogOf; hide Moved; hide AuditOk;
    CallKeepsAudit(o, db, ClaimCall(id, now, scan));
    if Claim(o, db, id, now, scan).result.Ok? {
      LedgerRuns.ClaimedRow(o, db, id, now, scan);
    }
  }

  lemma FinishFacts(o: Oracle, db: Db, id: Id, now: Time, e: Ending)
    requires AuditOk(o, db) && (o.validId)(id) && id in db.operations && db.operations[id].status.Applying?
    ensures var out := Finish(o, db, id, now, e);
      && out.result == Ok(Ended(db.operations[id], now, e))
      && AuditOk(o, out.db) && id in out.db.operations && out.db.operations[id] == out.result.value
      && out.result.value.status == EndStatus(e) && out.result.value.attempts == 1
  {
    hide LogOf; hide LogFollows;
    CallKeepsAudit(o, db, FinishCall(id, now, e));
    assert TellsAt(db, id);
  }

  /** The submission of one message: a single command. */
  method Submit(client: ImapAdapter.Client, messageId: string) returns (attempt: ImapAdapter.Attempt)
    requires client.issued == [] && client.acknowledged == 0
    modifies client
    ensures client.issued == [ImapAdapter.SubmitCommand(messageId)]
    ensures attempt == if client.acknowledged == 1 then ImapAdapter.Applied(true) else ImapAdapter.FailedAfter
    ensures client.acknowledged == if client.replies(0) then 1 else 0
  {
    var ok := client.Send(ImapAdapter.SubmitCommand(messageId));
    attempt := if ok then ImapAdapter.Applied(true) else ImapAdapter.FailedAfter;
  }

  /** A send plan that reads back as one. */
  predicate IsSendPlan(ps: LedgerRuns.Payloads, row: Row) {
    row.kind == "send" && ps.send(row.payload) && row.messageId.Some? && row.expiresAt.Some?
  }

  /** `apply_send`: it answers with a row exactly when the operation was ready and
      a readable send plan. A ready operation that is not one is claimed all the
      same, and left applying. */
  method ApplySend(
    store: Store, client: ImapAdapter.Client, ps: LedgerRuns.Payloads, id: Id, env: LedgerRuns.Environment,
    m: Moments, receipt: string)
    returns (r: Result<Row>)
    requires AuditOk(store.oracle, store.Now()) && Scans(m.claimScan, store.Now())
    requires client.issued == [] && client.acknowledged == 0
    modifies store, client
    ensures r.Ok? <==>
      SendReady(store.oracle, old(store.Now()), id, m) && IsSendPlan(ps, old(store.operations)[id])
    ensures r.Err? ==>
      var ready := SendReady(store.oracle, old(store.Now()), id, m);
      var unreadable := ready && old(store.operations)[id].kind == "send";
      r.error == if unreadable then StoreRead else Refusal(store.oracle, old(store.Now()), id)
    ensures r.Err? ==> client.issued == [] && client.acknowledged == 0
    ensures !SendReady(store.oracle, old(store.Now()), id, m) ==> store.Now() == old(store.Now())
    ensures SendReady(store.oracle, old(store.Now()), id, m) && r.Err? ==>
      var was := old(store.operations)[id];
      && id in store.operations
      && store.operations[id] == was.(status := Applying, attempts := 1, updatedAt := m.claim)
    ensures r.Ok? ==> id in store.operations && store.operations[id] == r.value
    ensures r.Ok? ==>
      var was := old(store.operations)[id];
      var commands := SendCommands(was, env);
      && client.issued == (if commands.None? then [] else commands.value)
      && client.acknowledged == (if commands.Some? && client.replies(0) then 1 else 0)
      && Final(was, r.value, commands, client.acknowledged, m.finish, receipt, env.error)
    ensures AuditOk(store.oracle, store.Now())
  {
    hide AuditOk; hide TransitionTx; hide Finish; hide Scans; hide Ended; hide LedgerEffects.Decision; hide Moved;
    hide Final; hide Ready;
    var o := store.oracle;
    ghost var start := store.Now();
    var claimed := store.OperationTransition(id, m.claim, Approved, Applying, false, m.claimScan);
    SendIsClaimed(o, start, id, m);
    ClaimFacts(o, start, id, m.claim, m.claimScan);
    ClaimIsDecided(o, start, id, m.claim, m.claimScan);
    if claimed.Err? { return Err(claimed.error); }
    var row := claimed.value;
    if !LedgerRuns.SendReadable(ps, row) { return Err(if row.kind != SEND then PlanState else StoreRead); }
    var ending;
    if !env.credentials || !env.sendable {
      ending := EndFailed(env.error);
    } else {
      var attempt := Submit(client, row.messageId.value);
      ending := if attempt.Applied? then EndSucceeded(receipt) else EndAmbiguous(env.error);
    }
    assert (o.validId)(id) by { ClaimedIdIsValid(o, start, id, m.claim, m.claimScan); }
    FinishFacts(o, store.Now(), id, m.finish, ending);
    r := store.FinishOperation(id, m.finish, ending);
    ghost var commands := SendCommands(row, env);
    assert ending == Verdict(commands, client.acknowledged, receipt, env.error);
    EndedIsFinal(o, start, id, row, m.claim, m.finish, commands, client.acknowledged, receipt, env.error);
  }

  lemma SendIsClaimed(o: Oracle, db: Db, id: Id, m: Moments)
    requires AuditOk(o, db)
    ensures SendReady(o, db, id, m) <==> LedgerEffects.Decision(o, db, id, m.claim, Approved, Applying, false).Ok?
    ensures !SendReady(o, db, id, m) ==>
      LedgerEffects.Decision(o, db, id, m.claim, Approved, Applying, false) == Err(Refusal(o, db, id))
    ensures SendReady(o, db, id, m) ==> Refusal(o, db, id) == PlanState
    ensures SendReady(o, db, id, m) ==>
      Moved(db.operations[id], m.claim, Applying, false)
        == db.operations[id].(status := Applying, attempts := 1, updatedAt := m.claim)
  {
    hide LogFollows; hide LogOf;
    assert m.claim in [m.claim] && TellsAt(db, id);
  }

  /** Whether the claim inside succeeds, as a function of the row before the call. */
  lemma ClaimIsDecided(o: Oracle, db: Db, id: Id, now: Time, scan: Scan)
    requires AuditOk(o, db) && Scans(scan, db)
    ensures Claim(o, db, id, now, scan).result == LedgerEffects.Decision(o, db, id, now, Approved, Applying, false)
    ensures Claim(o, db, id, now, scan).result.Err? ==> Claim(o, db, id, now, scan).db == db
    ensures Claim(o, db, id, now, scan).result.Ok? ==>
      var row := Claim(o, db, id, now, scan).result.value;
      && id in db.operations && row == Moved(db.operations[id], now, Applying, false)
      && row.messageId == db.operations[id].messageId
  {
    hide TransitionTx; hide Scans;
    LedgerEffects.TransitionIsDecided(o, db, id, now, Approved, Applying, false, scan);
  }

  lemma ClaimedIdIsValid(o: Oracle, db: Db, id: Id, now: Time, scan: Scan)
    requires Claim(o, db, id, now, scan).result.Ok?
    ensures (o.validId)(id)
  {
    hide Reconcile; hide MoveTx;
  }
}
