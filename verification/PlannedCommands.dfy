/** What the processes of the whole system send: the commands of the payload that
    was approved, and nothing else. */
module PlannedCommands {
  import opened Basics
  import opened Ledger
  import opened LedgerFacts
  import opened LedgerEffects
  import opened LedgerReference
  import opened LedgerRuns
  import ImapAdapter

  /** The parts of an operation that are fixed once it is no draft. */
  predicate Same(row: Row, was: Row) {
    && row.kind == was.kind && row.accountId == was.accountId && row.messageId == was.messageId
    && row.payload == was.payload && row.digest == was.digest && row.expiresAt == was.expiresAt
  }

  /** The commands carry out the request in the row's payload: the one submission
      of a readable send plan, or the commands of a mailbox request of the row's
      own kind and account, in some session. */
  ghost predicate CarriesOut(ps: Payloads, row: Row, commands: seq<Command>) {
    if row.kind == SEND then
      SendReadable(ps, row) && commands == [ImapAdapter.SubmitCommand(row.messageId.value)]
    else
      && ps.mail(row.payload).Some?
      && var request := ps.mail(row.payload).value;
         && row.kind == ps.kindName(request.kind) && row.accountId == request.accountId
         && exists s :: ImapAdapter.Commands(request, s) == Some(commands)
  }

  ghost predicate PlanAt(ps: Payloads, w: World, id: Id) {
    id in w.db.operations && TraceOf(w, id).planned != [] ==>
      w.db.operations[id].kind != DRAFT && CarriesOut(ps, w.db.operations[id], TraceOf(w, id).planned)
  }

  /** A process about to open an operation has its row as it is, and has checked
      it when it is a send plan. */
  predicate ClaimAt(ps: Payloads, w: World, pid: nat) {
    pid in w.procs && w.procs[pid].Claimed? ==>
      && w.procs[pid].id in w.db.operations && Same(w.db.operations[w.procs[pid].id], w.procs[pid].row)
      && w.procs[pid].row.kind != DRAFT
      && (w.procs[pid].row.kind == SEND ==> SendReadable(ps, w.procs[pid].row))
  }

  ghost predicate Planned(ps: Payloads, w: World) {
    (forall id :: PlanAt(ps, w, id)) && (forall pid :: ClaimAt(ps, w, pid))
  }

  predicate KeptAt(db: Db, next: Db, id: Id) {
    id in db.operations && db.operations[id].kind != DRAFT ==>
      id in next.operations && Same(next.operations[id], db.operations[id])
  }

  /** No call changes what is fixed. */
  lemma CallKeeps(o: Oracle, db: Db, call: Call, id: Id)
    requires AuditOk(o, db) && Possible(db, call)
    ensures KeptAt(db, After(o, db, call), id)
  {
    hide After; hide Possible; hide LogOf; hide AuditOk; hide Lapsed; hide Abandoned;
    AuditTells(o, db, id);
    CallMeetsReference(o, db, call, id);
  }

  lemma CarriesSame(ps: Payloads, row: Row, was: Row, commands: seq<Command>)
    requires Same(row, was)
    ensures CarriesOut(ps, row, commands) <==> CarriesOut(ps, was, commands)
  {
  }

  // ----- one step -----

  /** A step makes one ledger call, or none. */
  lemma StepIsCall(o: Oracle, ps: Payloads, w: World, act: Act) returns (call: Option<Call>)
    requires Inv(o, w) && Offers(w, act)
    ensures call.Some? ==> Possible(w.db, call.value)
    ensures Take(o, ps, w, act).db == if call.Some? then After(o, w.db, call.value) else w.db
  {
    hide Scans; hide TransitionTx; hide Reconcile; hide FinishTx; hide DiscardTx; hide SendReadable; hide Open;
    match act {
      case Local(local) => call := Some(local);
      case ApproveAct(id, now, scan) => call := Some(ApproveCall(id, now, scan));
      case ReadDraft(_, id, now, scan) => call := Some(LookCall(id, now, scan));
      case ReadMail(_, id, now, scan) => call := Some(LookCall(id, now, scan));
      case WriteDiscard(pid, payload, now) =>
        assert PcFitsAt(w, pid);
        call := Some(DiscardCall(w.procs[pid].id, payload, now));
      case ClaimMail(pid, now, scan) => call := Some(ClaimCall(w.procs[pid].id, now, scan));
      case ClaimSend(_, id, now, scan) => call := Some(ClaimCall(id, now, scan));
      case Finalize(pid, now) => call := Some(FinishCall(w.procs[pid].id, now, w.procs[pid].ending));
      case _ => call := None;
    }
  }

  lemma StepKeepsRows(o: Oracle, ps: Payloads, w: World, act: Act, id: Id)
    requires Inv(o, w) && Offers(w, act)
    ensures KeptAt(w.db, Take(o, ps, w, act).db, id)
  {
    hide AuditOk; hide After; hide Offers; hide Next; hide Take; hide Possible;
    var call := StepIsCall(o, ps, w, act);
    if call.Some? {
      CallKeeps(o, w.db, call.value, id);
    }
  }

  /** Only the opening of a claimed operation plans anything. */
  lemma StepPlans(o: Oracle, ps: Payloads, w: World, act: Act, id: Id)
    requires Offers(w, act)
    ensures var planned := TraceOf(Take(o, ps, w, act), id).planned;
      if act.Begin? && w.procs[act.pid].id == id && Open(ps, w.procs[act.pid].row, act.env).commands.Some?
      then planned == Open(ps, w.procs[act.pid].row, act.env).commands.value
      else planned == TraceOf(w, id).planned
  {
    hide After; hide TransitionTx; hide SendReadable; hide Open; hide Possible; hide Scans;
  }

  lemma OpenCarriesOut(ps: Payloads, row: Row, env: Environment)
    requires Open(ps, row, env).commands.Some? && (row.kind == SEND ==> SendReadable(ps, row))
    ensures CarriesOut(ps, row, Open(ps, row, env).commands.value)
  {
    hide ImapAdapter.Commands;
  }

  lemma StepKeepsPlanAt(o: Oracle, ps: Payloads, w: World, act: Act, id: Id)
    requires Inv(o, w) && Planned(ps, w) && Offers(w, act)
    ensures PlanAt(ps, Take(o, ps, w, act), id)
  {
    hide AuditOk; hide Offers; hide Next; hide Take; hide Open; hide CarriesOut; hide SendReadable;
    var w' := Take(o, ps, w, act);
    StepKeepsRows(o, ps, w, act, id);
    StepPlans(o, ps, w, act, id);
    assert FitsAt(w, id) && PlanAt(ps, w, id);
    if id in w'.db.operations && TraceOf(w', id).planned != [] {
      var row' := w'.db.operations[id];
      if TraceOf(w', id).planned == TraceOf(w, id).planned {
        CarriesSame(ps, row', w.db.operations[id], TraceOf(w, id).planned);
      } else {
        OfferedBegin(w, act);
        assert ClaimAt(ps, w, act.pid);
        var was := w.procs[act.pid].row;
        OpenCarriesOut(ps, was, act.env);
        CarriesSame(ps, row', was, TraceOf(w', id).planned);
      }
    }
  }

  lemma OfferedBegin(w: World, act: Act)
    requires Offers(w, act) && act.Begin?
    ensures act.pid in w.procs && w.procs[act.pid].Claimed?
  {
  }

  /** A process newly holding a claim has just claimed it. */
  lemma NewClaim(o: Oracle, ps: Payloads, w: World, act: Act, pid: nat)
    requires Offers(w, act)
    requires var w' := Take(o, ps, w, act);
      pid in w'.procs && w'.procs[pid].Claimed? && !(pid in w.procs && w.procs[pid] == w'.procs[pid])
    ensures (act.ClaimMail? || act.ClaimSend?) && act.pid == pid && (act.ClaimMail? ==> pid in w.procs)
    ensures var id := if act.ClaimMail? then w.procs[pid].id else act.id;
      var row := Take(o, ps, w, act).procs[pid].row;
      && Claim(o, w.db, id, act.now, act.scan).result == Ok(row)
      && Take(o, ps, w, act).procs[pid].id == id && Take(o, ps, w, act).db == Claim(o, w.db, id, act.now, act.scan).db
      && (act.ClaimSend? ==> SendReadable(ps, row)) && (act.ClaimMail? ==> w.procs[pid].MailRead?)
      && Scans(act.scan, w.db)
  {
    hide After; hide TransitionTx; hide SendReadable; hide Open; hide Possible; hide Scans;
  }

  lemma StepKeepsClaimAt(o: Oracle, ps: Payloads, w: World, act: Act, pid: nat)
    requires Inv(o, w) && Planned(ps, w) && Offers(w, act)
    ensures ClaimAt(ps, Take(o, ps, w, act), pid)
  {
    hide AuditOk; hide Offers; hide Next; hide Take; hide CarriesOut; hide SendReadable; hide Scans;
    hide TransitionTx; hide Moved; hide Granted;
    var w' := Take(o, ps, w, act);
    if pid in w'.procs && w'.procs[pid].Claimed? {
      var id, row := w'.procs[pid].id, w'.procs[pid].row;
      if pid in w.procs && w.procs[pid] == w'.procs[pid] {
        assert ClaimAt(ps, w, pid);
        StepKeepsRows(o, ps, w, act, id);
      } else {
        NewClaim(o, ps, w, act, pid);
        ClaimedRow(o, w.db, id, act.now, act.scan);
        AuditTells(o, w.db, id);
        ClaimIsNoDraft(o, w.db, id, act.now, act.scan);
        if act.ClaimMail? { assert PcFitsAt(w, pid); }
      }
    }
  }

  lemma ClaimIsNoDraft(o: Oracle, db: Db, id: Id, now: Time, scan: Scan)
    requires AuditOk(o, db) && Scans(scan, db) && Claim(o, db, id, now, scan).result.Ok?
    ensures id in db.operations && db.operations[id].kind != DRAFT
  {
    hide Reconcile; hide Scans; hide MoveTx; hide Moved; hide LogOf;
    AuditTells(o, db, id);
    AnswersAreRows(o, db, ClaimCall(id, now, scan), scan);
  }

  lemma StepKeepsPlanned(o: Oracle, ps: Payloads, w: World, act: Act)
    requires Inv(o, w) && Planned(ps, w) && Offers(w, act)
    ensures Planned(ps, Take(o, ps, w, act))
  {
    hide Inv; hide Offers; hide Next; hide Take; hide PlanAt; hide ClaimAt;
    forall id ensures PlanAt(ps, Take(o, ps, w, act), id) { StepKeepsPlanAt(o, ps, w, act, id); }
    forall pid ensures ClaimAt(ps, Take(o, ps, w, act), pid) { StepKeepsClaimAt(o, ps, w, act, pid); }
  }

  // ----- whole runs -----

  lemma {:induction false} RunKeepsPlanned(o: Oracle, ps: Payloads, w: World, acts: seq<Act>)
    requires Inv(o, w) && Planned(ps, w)
    ensures Planned(ps, Run(o, ps, w, acts))
    decreases |acts|
  {
    hide Inv; hide Offers; hide Next; hide Planned;
    if |acts| > 0 {
      if Offers(w, acts[0]) {
        StepKeepsInv(o, ps, w, acts[0]);
        StepKeepsPlanned(o, ps, w, acts[0]);
      }
      RunKeepsPlanned(o, ps, Take(o, ps, w, acts[0]), acts[1..]);
    }
  }

  /** Over every interleaving, a command goes out only for an operation approved
      once, with the payload its row still carries, and what goes out is a prefix
      of the commands that carry that payload out. */
  lemma SentIsWhatWasApproved(o: Oracle, ps: Payloads, acts: seq<Act>, id: Id)
    ensures var w := Run(o, ps, START, acts);
      var t := TraceOf(w, id);
      t.issued > 0 ==>
        && id in w.db.operations && t.approved == [JobOf(w.db.operations[id])] && t.issued <= |t.planned|
        && CarriesOut(ps, w.db.operations[id], t.planned)
  {
    hide CarriesOut; hide Next; hide Offers;
    StartIsFine(o);
    assert Planned(ps, START) by {
      forall x ensures PlanAt(ps, START, x) {}
      forall p ensures ClaimAt(ps, START, p) {}
    }
    RunKeepsInv(o, ps, START, acts);
    RunKeepsPlanned(o, ps, START, acts);
    AtMostOnce(o, ps, acts, id);
    var w := Run(o, ps, START, acts);
    assert FitsAt(w, id) && PlanAt(ps, w, id);
  }
}
