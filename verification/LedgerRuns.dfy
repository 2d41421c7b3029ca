/** The whole system: any number of processes over one ledger, each step one
    transaction or one remote command, with crashes and arbitrary clocks. */
module LedgerRuns {
  import opened Basics
  import opened Ledger
  import opened LedgerFacts
  import opened LedgerEffects
  import ImapAdapter

  type Command = ImapAdapter.Command

  /** Stored payloads read back as requests. */
  datatype Payloads = Payloads(
    mail: string -> Option<ImapAdapter.MailRequest>, send: string -> bool, kindName: ImapAdapter.MailKind -> string)

  /** What is to be done, as it was approved or handed to the adapter. */
  datatype Job = Job(payload: string, digest: string)

  /** What happened to one operation outside its row. */
  datatype Trace = Trace(approved: seq<Job>, invoked: seq<Job>, planned: seq<Command>, issued: nat, acked: nat)

  const QUIET := Trace([], [], [], 0, 0)

  /** Where a process is between two of its steps. */
  datatype Pc =
    | DraftRead(id: Id)
    | MailRead(id: Id)
    | Claimed(id: Id, row: Row)
    | Working(id: Id, row: Row)
    | Finishing(id: Id, ending: Ending)

  predicate Holds(pc: Pc) { pc.Claimed? || pc.Working? || pc.Finishing? }

  datatype World = World(db: Db, procs: map<nat, Pc>, traces: map<Id, Trace>)

  const START := World(EMPTY, map[], map[])

  function TraceOf(w: World, id: Id): Trace { if id in w.traces then w.traces[id] else QUIET }

  /** What one process meets when it starts an operation it has claimed. */
  datatype Environment = Environment(credentials: bool, session: ImapAdapter.Session, sendable: bool, error: Failure)

  datatype Act =
    | Local(call: Call)
    | ApproveAct(id: Id, now: Time, scan: Scan)
    | ReadDraft(pid: nat, id: Id, now: Time, scan: Scan)
    | WriteDiscard(pid: nat, payload: string, now: Time)
    | ReadMail(pid: nat, id: Id, now: Time, scan: Scan)
    | ClaimMail(pid: nat, now: Time, scan: Scan)
    | ClaimSend(pid: nat, id: Id, now: Time, scan: Scan)
    | Begin(pid: nat, env: Environment)
    | Issue(pid: nat)
    | Reply(pid: nat, ok: bool, error: Failure)
    | Receive(pid: nat, receipt: Option<string>)
    | Finalize(pid: nat, now: Time)
    | Crash(pid: nat)

  predicate SendReadable(ps: Payloads, row: Row) {
    row.kind == SEND && ps.send(row.payload) && row.messageId.Some? && row.expiresAt.Some?
  }

  /** The commands the adapter will send for a claimed row, or the failure that
      is reported before any. `invoked` tells whether the adapter was called. */
  datatype Opening = Opening(invoked: bool, commands: Option<seq<Command>>)

  function Open(ps: Payloads, row: Row, env: Environment): Opening {
    if row.kind == SEND then
      if !env.credentials then Opening(false, None)
      else Opening(true,
        if env.sendable && row.messageId.Some? then Some([ImapAdapter.SubmitCommand(row.messageId.value)]) else None)
    else
      match ps.mail(row.payload)
      case None => Opening(false, None)
      case Some(request) =>
        if row.kind != ps.kindName(request.kind) || row.accountId != request.accountId || !env.credentials
        then Opening(false, None)
        else Opening(true, ImapAdapter.Commands(request, env.session))
  }

  function Leave(w: World, pid: nat): World { w.(procs := w.procs - {pid}) }

  function Enter(w: World, pid: nat, pc: Pc): World { w.(procs := w.procs[pid := pc]) }

  function Note(w: World, id: Id, t: Trace): World { w.(traces := w.traces[id := t]) }

  function JobOf(row: Row): Job { Job(row.payload, row.digest) }

  // ----- the steps -----

  /** Which steps a world offers. */
  ghost predicate Offers(w: World, act: Act) {
    match act
    case Local(call) => (call.CreateCall? || call.LookCall? || call.UpdateCall?) && Possible(w.db, call)
    case ApproveAct(_, _, scan) => Scans(scan, w.db)
    case ReadDraft(pid, _, _, scan) => pid !in w.procs && Scans(scan, w.db)
    case WriteDiscard(pid, _, _) => pid in w.procs && w.procs[pid].DraftRead?
    case ReadMail(pid, _, _, scan) => pid !in w.procs && Scans(scan, w.db)
    case ClaimMail(pid, _, scan) => pid in w.procs && w.procs[pid].MailRead? && Scans(scan, w.db)
    case ClaimSend(pid, _, _, scan) => pid !in w.procs && Scans(scan, w.db)
    case Begin(pid, _) => pid in w.procs && w.procs[pid].Claimed?
    case Issue(pid) => pid in w.procs && w.procs[pid].Working? && CanIssue(TraceOf(w, w.procs[pid].id))
    case Reply(pid, _, _) => pid in w.procs && w.procs[pid].Working? && Pending(TraceOf(w, w.procs[pid].id))
    case Receive(pid, _) => pid in w.procs && w.procs[pid].Working? && Done(TraceOf(w, w.procs[pid].id))
    case Finalize(pid, _) => pid in w.procs && w.procs[pid].Finishing?
    case Crash(pid) => pid in w.procs
  }

  predicate Pending(t: Trace) { t.issued > t.acked }
  predicate Done(t: Trace) { t.acked == |t.planned| }
  predicate CanIssue(t: Trace) { t.issued == t.acked < |t.planned| }

  function ClaimBy(o: Oracle, ps: Payloads, w: World, pid: nat, id: Id, now: Time, scan: Scan, send: bool): World {
    var out := Claim(o, w.db, id, now, scan);
    var next := w.(db := out.db);
    match out.result
    case Err(_) => Leave(next, pid)
    case Ok(row) =>
      if send && !SendReadable(ps, row) then Leave(next, pid)   // claimed, and stranded in applying
      else Enter(next, pid, Claimed(id, row))
  }

  function Next(o: Oracle, ps: Payloads, w: World, act: Act): World
    requires act.WriteDiscard? || act.ClaimMail? || act.Begin? || act.Issue? || act.Reply? || act.Receive?
      || act.Finalize?
      ==> act.pid in w.procs
    requires act.Begin? ==> w.procs[act.pid].Claimed?
    requires act.Finalize? ==> w.procs[act.pid].Finishing?
  {
    match act
    case Local(call) => w.(db := After(o, w.db, call))
    case ApproveAct(id, now, scan) =>
      var out := Approve(o, w.db, id, now, scan);
      var t := TraceOf(w, id);
      var next := w.(db := out.db);
      if out.result.Ok? then Note(next, id, t.(approved := t.approved + [JobOf(out.result.value)])) else next
    case ReadDraft(pid, id, now, scan) =>
      var db := After(o, w.db, LookCall(id, now, scan));
      var next := w.(db := db);
      if id in db.operations && db.operations[id].kind == DRAFT then Enter(next, pid, DraftRead(id)) else next
    case WriteDiscard(pid, payload, now) =>
      Leave(w.(db := After(o, w.db, DiscardCall(w.procs[pid].id, payload, now))), pid)
    case ReadMail(pid, id, now, scan) =>
      var db := After(o, w.db, LookCall(id, now, scan));
      var next := w.(db := db);
      if id in db.operations && db.operations[id].kind != SEND && db.operations[id].kind != DRAFT
      then Enter(next, pid, MailRead(id)) else next
    case ClaimMail(pid, now, scan) => ClaimBy(o, ps, w, pid, w.procs[pid].id, now, scan, false)
    case ClaimSend(pid, id, now, scan) => ClaimBy(o, ps, w, pid, id, now, scan, true)
    case Begin(pid, env) =>
      var (id, row) := (w.procs[pid].id, w.procs[pid].row);
      var opening := Open(ps, row, env);
      var t := TraceOf(w, id);
      var noted := if opening.invoked then Note(w, id, t.(invoked := t.invoked + [JobOf(row)])) else w;
      (match opening.commands
       case None => Enter(noted, pid, Finishing(id, EndFailed(env.error)))
       case Some(commands) => Enter(Note(noted, id, TraceOf(noted, id).(planned := commands)), pid, Working(id, row)))
    case Issue(pid) =>
      var id := w.procs[pid].id;
      Note(w, id, TraceOf(w, id).(issued := TraceOf(w, id).issued + 1))
    case Reply(pid, ok, error) =>
      var id := w.procs[pid].id;
      if ok then Note(w, id, TraceOf(w, id).(acked := TraceOf(w, id).acked + 1))
      else Enter(w, pid, Finishing(id, EndAmbiguous(error)))
    case Receive(pid, receipt) =>
      if receipt.None? then Leave(w, pid) else Enter(w, pid, Finishing(w.procs[pid].id, EndSucceeded(receipt.value)))
    case Finalize(pid, now) =>
      Leave(w.(db := After(o, w.db, FinishCall(w.procs[pid].id, now, w.procs[pid].ending))), pid)
    case Crash(pid) => Leave(w, pid)
  }

  /** A run takes the steps the world offers; others change nothing. */
  ghost function Take(o: Oracle, ps: Payloads, w: World, act: Act): World {
    if Offers(w, act) then Next(o, ps, w, act) else w
  }

  ghost function Run(o: Oracle, ps: Payloads, w: World, acts: seq<Act>): World
    decreases |acts|
  {
    if |acts| == 0 then w
    else Run(o, ps, Take(o, ps, w, acts[0]), acts[1..])
  }

  // ----- the invariant -----

  /** A row and what happened outside it. */
  predicate Fits(row: Row, t: Trace) {
    && t.approved == (if row.approvedAt.Some? then [JobOf(row)] else [])
    && (t.invoked == [] || (t.invoked == [JobOf(row)] && Started(row.status)))
    && t.acked <= t.issued <= t.acked + 1 && t.issued <= |t.planned|
    && (t.invoked == [] ==> t.planned == [])
    && (row.status.Failed? ==> t.issued == 0)
    && (row.status.Succeeded? ==> t.invoked != [] && t.acked == |t.planned|)
  }

  predicate FitsAt(w: World, id: Id) {
    if id in w.db.operations then Fits(w.db.operations[id], TraceOf(w, id)) else TraceOf(w, id) == QUIET
  }

  /** A held operation is applying, or was declared ambiguous meanwhile, and its
      trace is where its process is. */
  predicate PcFits(pc: Pc, row: Row, t: Trace) {
    match pc
    case DraftRead(_) => row.kind == DRAFT
    case MailRead(_) => row.kind != DRAFT && row.kind != SEND
    case Claimed(_, was) => Held(row) && JobOf(was) == JobOf(row) && t.invoked == []
    case Working(_, was) => Held(row) && JobOf(was) == JobOf(row) && t.invoked != []
    case Finishing(_, ending) =>
      && Held(row)
      && (ending.EndFailed? ==> t.issued == 0)
      && (ending.EndSucceeded? ==> t.invoked != [] && t.acked == |t.planned|)
  }

  predicate Held(row: Row) { row.status.Applying? || row.status.Ambiguous? }

  predicate PcFitsAt(w: World, pid: nat) {
    pid in w.procs ==>
      var id := w.procs[pid].id;
      id in w.db.operations && PcFits(w.procs[pid], w.db.operations[id], TraceOf(w, id))
  }

  predicate Alone(w: World, p: nat, q: nat) {
    p in w.procs && q in w.procs && p != q && Holds(w.procs[p]) && Holds(w.procs[q]) ==> w.procs[p].id != w.procs[q].id
  }

  ghost predicate Inv(o: Oracle, w: World) {
    && AuditOk(o, w.db)
    && (forall id :: FitsAt(w, id))
    && (forall pid :: PcFitsAt(w, pid))
    && (forall p, q :: Alone(w, p, q))
  }

  // ----- frames -----

  /** A change to a row that no trace and no process notices. */
  predicate QuietRow(row: Row, next: Row) {
    && next.kind == row.kind && RowTells(next) && RowTells(row)
    && (row.kind != DRAFT ==>
          && JobOf(next) == JobOf(row) && next.approvedAt == row.approvedAt && next.attempts == row.attempts
          && (next.status == row.status || next.status.Expired? || (row.status.Applying? && next.status.Ambiguous?)))
  }

  predicate QuietAt(db: Db, next: Db, id: Id) {
    (id in db.operations <==> id in next.operations)
      && (id in db.operations ==> QuietRow(db.operations[id], next.operations[id]))
  }

  lemma QuietRowFits(row: Row, next: Row, t: Trace, pc: Pc)
    requires QuietRow(row, next) && Fits(row, t)
    ensures Fits(next, t)
    ensures PcFits(pc, row, t) ==> PcFits(pc, next, t)
  {
  }

  lemma SettledIsQuiet(row: Row, now: Time)
    requires RowTells(row)
    ensures QuietRow(row, Settled(row, now))
  {
  }

  /** One step concerns one operation and at most one process; everything else
      only settles. */
  lemma FocusedStep(o: Oracle, w: World, w': World, pid: Option<nat>, id: Id)
    requires Inv(o, w) && AuditOk(o, w'.db)
    requires forall x | x != id :: QuietAt(w.db, w'.db, x) && TraceOf(w', x) == TraceOf(w, x)
    requires forall q | pid != Some(q) ::
      (q in w.procs <==> q in w'.procs) && (q in w.procs ==> w'.procs[q] == w.procs[q])
    requires FitsAt(w', id)
    requires forall q | pid != Some(q) && q in w.procs && w.procs[q].id == id :: PcFitsAt(w', q)
    requires pid.Some? && pid.value in w'.procs ==> PcFitsAt(w', pid.value)
    requires pid.Some? && pid.value in w'.procs && Holds(w'.procs[pid.value]) ==>
      w'.procs[pid.value].id == id && NoOtherHolds(w, pid, id)
    ensures Inv(o, w')
  {
    hide AuditOk; hide Fits; hide PcFits; hide Holds; hide QuietRow;
    forall x ensures FitsAt(w', x) {
      assert FitsAt(w, x);
      if x != id && x in w.db.operations {
        QuietRowFits(w.db.operations[x], w'.db.operations[x], TraceOf(w, x), DraftRead(x));
      }
    }
    forall q ensures PcFitsAt(w', q) {
      assert PcFitsAt(w, q);
      if q in w.procs && pid != Some(q) && w.procs[q].id != id {
        var x := w.procs[q].id;
        assert FitsAt(w, x);
        QuietRowFits(w.db.operations[x], w'.db.operations[x], TraceOf(w, x), w.procs[q]);
      }
    }
    forall p, q ensures Alone(w', p, q) {
      assert Alone(w, p, q);
    }
  }

  predicate HeldBy(w: World, q: nat, id: Id) { q in w.procs && Holds(w.procs[q]) && w.procs[q].id == id }

  ghost predicate NoOtherHolds(w: World, pid: Option<nat>, id: Id) {
    forall q: nat | pid != Some(q) :: !HeldBy(w, q, id)
  }

  /** Only a held row can be held: an unstarted operation has no holder. */
  lemma NobodyHolds(o: Oracle, w: World, id: Id)
    requires Inv(o, w) && id in w.db.operations && !Held(w.db.operations[id])
    ensures NoOtherHolds(w, None, id)
  {
    forall q ensures !HeldBy(w, q, id) {
      assert PcFitsAt(w, q);
    }
  }

  lemma HolderIsAlone(o: Oracle, w: World, pid: nat, id: Id)
    requires Inv(o, w) && HeldBy(w, pid, id)
    ensures NoOtherHolds(w, Some(pid), id)
  {
    forall q | q != pid ensures !HeldBy(w, q, id) {
      assert Alone(w, pid, q);
    }
  }

  // ----- every step keeps the invariant -----

  lemma UnchangedIsQuiet(row: Row)
    requires RowTells(row)
    ensures QuietRow(row, row)
  {
  }

  lemma DraftsAreQuiet(row: Row, next: Row)
    requires RowTells(row) && RowTells(next)
    ensures row.kind == DRAFT && next.kind == DRAFT ==> QuietRow(row, next)
  {
  }

  /** A call is quiet everywhere but at its target; looks and draft edits are
      quiet there too. */
  lemma QuietElsewhere(o: Oracle, db: Db, call: Call, id: Id)
    requires AuditOk(o, db) && Possible(db, call)
    ensures AuditOk(o, After(o, db, call))
    ensures id != call.id || call.LookCall? || call.UpdateCall? || call.DiscardCall? ==>
      QuietAt(db, After(o, db, call), id)
  {
    hide After; hide Possible; hide LogFollows; hide RowTells; hide LogOf; hide QuietRow; hide Settled; hide Decision;
    var next := After(o, db, call);
    CallKeepsAudit(o, db, call);
    CallEffect(o, db, call, id);
    assert TellsAt(db, id) && TellsAt(next, id);
    if id in db.operations {
      var row := db.operations[id];
      SettledIsQuiet(row, if Reconciling(call) then call.now else 0);
      UnchangedIsQuiet(row);
      if id in next.operations { DraftsAreQuiet(row, next.operations[id]); }
    }
  }

  /** Worlds that differ only quietly satisfy the invariant together, also when
      one process forgets what it was doing. */
  lemma QuietWorld(o: Oracle, w: World, w': World, pid: Option<nat>)
    requires Inv(o, w) && AuditOk(o, w'.db) && w'.traces == w.traces
    requires forall id :: QuietAt(w.db, w'.db, id)
    requires forall q | pid != Some(q) ::
      (q in w.procs <==> q in w'.procs) && (q in w.procs ==> w'.procs[q] == w.procs[q])
    requires pid.Some? && pid.value in w'.procs ==> PcFitsAt(w', pid.value) && !Holds(w'.procs[pid.value])
    ensures Inv(o, w')
  {
    hide AuditOk; hide Fits; hide PcFits; hide QuietRow; hide Holds;
    assert FitsAt(w, "") && QuietAt(w.db, w'.db, "");
    if "" in w.db.operations {
      QuietRowFits(w.db.operations[""], w'.db.operations[""], TraceOf(w, ""), DraftRead(""));
    }
    forall q | pid != Some(q) && q in w.procs && w.procs[q].id == "" ensures PcFitsAt(w', q) {
      assert PcFitsAt(w, q);
      QuietRowFits(w.db.operations[""], w'.db.operations[""], TraceOf(w, ""), w.procs[q]);
    }
    FocusedStep(o, w, w', pid, "");
  }

  /** A process that holds nothing does not care what happens to the operation. */
  lemma BystanderFits(o: Oracle, w: World, w': World, q: nat)
    requires Inv(o, w) && q in w.procs && q in w'.procs && w'.procs[q] == w.procs[q] && !Holds(w.procs[q])
    requires var id := w.procs[q].id;
      id in w.db.operations ==> id in w'.db.operations && w'.db.operations[id].kind == w.db.operations[id].kind
    ensures PcFitsAt(w', q)
  {
    assert PcFitsAt(w, q);
  }

  /** A process whose held operation's trace moves on. */
  lemma HolderStep(o: Oracle, w: World, w': World, pid: nat, id: Id)
    requires Inv(o, w) && HeldBy(w, pid, id) && AuditOk(o, w'.db)
    requires forall x | x != id :: QuietAt(w.db, w'.db, x) && TraceOf(w', x) == TraceOf(w, x)
    requires forall q | q != pid :: (q in w.procs <==> q in w'.procs) && (q in w.procs ==> w'.procs[q] == w.procs[q])
    requires id in w.db.operations && id in w'.db.operations && w'.db.operations[id].kind == w.db.operations[id].kind
    requires Fits(w'.db.operations[id], TraceOf(w', id))
    requires pid in w'.procs ==> PcFitsAt(w', pid) && w'.procs[pid].id == id
    ensures Inv(o, w')
  {
    hide AuditOk; hide Fits; hide PcFits; hide QuietRow; hide Holds;
    HolderIsAlone(o, w, pid, id);
    forall q | q != pid && q in w.procs && w.procs[q].id == id ensures PcFitsAt(w', q) {
      assert !HeldBy(w, q, id);
      BystanderFits(o, w, w', q);
    }
    FocusedStep(o, w, w', Some(pid), id);
  }

  lemma CreateKeepsInv(o: Oracle, w: World, id: Id, row: Row)
    requires Inv(o, w) && Possible(w.db, CreateCall(id, row))
    ensures Inv(o, w.(db := Create(o, w.db, id, row).db))
  {
    hide AuditOk; hide QuietRow; hide PcFits; hide Create;
    var call := CreateCall(id, row);
    var w' := w.(db := After(o, w.db, call));
    forall x ensures x != id ==> QuietAt(w.db, w'.db, x) && TraceOf(w', x) == TraceOf(w, x) {
      QuietElsewhere(o, w.db, call, x);
    }
    assert AuditOk(o, w'.db) by { QuietElsewhere(o, w.db, call, ""); }
    assert FitsAt(w, id);
    forall q | q in w.procs && w.procs[q].id == id ensures PcFitsAt(w', q) {
      assert PcFitsAt(w, q);
      CreatedOnce(o, w.db, id, row);
    }
    assert FitsAt(w', id) by { CreatedOnce(o, w.db, id, row); }
    FocusedStep(o, w, w', None, id);
  }

  lemma CreatedOnce(o: Oracle, db: Db, id: Id, row: Row)
    ensures var next := Create(o, db, id, row).db;
      if id in db.operations || id !in next.operations then next == db
      else next.operations[id].approvedAt.None? && next.operations[id].status.Planned?
  {
  }

  lemma QuietCallKeepsInv(o: Oracle, w: World, w': World, call: Call, pid: Option<nat>)
    requires Inv(o, w) && Possible(w.db, call) && (call.LookCall? || call.UpdateCall? || call.DiscardCall?)
    requires w'.db == After(o, w.db, call) && w'.traces == w.traces
    requires forall q | pid != Some(q) ::
      (q in w.procs <==> q in w'.procs) && (q in w.procs ==> w'.procs[q] == w.procs[q])
    requires pid.Some? && pid.value in w'.procs ==> PcFitsAt(w', pid.value) && !Holds(w'.procs[pid.value])
    ensures Inv(o, w')
  {
    hide AuditOk; hide After; hide Possible; hide PcFits; hide Fits; hide Holds; hide QuietRow;
    forall id ensures QuietAt(w.db, w'.db, id) && AuditOk(o, w'.db) {
      QuietElsewhere(o, w.db, call, id);
    }
    assert QuietAt(w.db, w'.db, "");
    QuietWorld(o, w, w', pid);
  }

  lemma ApproveKeepsInv(o: Oracle, ps: Payloads, w: World, id: Id, now: Time, scan: Scan)
    requires Inv(o, w) && Scans(scan, w.db)
    ensures Inv(o, Next(o, ps, w, ApproveAct(id, now, scan)))
  {
    hide AuditOk; hide QuietRow; hide TransitionTx; hide Scans; hide PcFits; hide Fits;
    var call := ApproveCall(id, now, scan);
    var w' := Next(o, ps, w, ApproveAct(id, now, scan));
    if Approve(o, w.db, id, now, scan).result.Ok? {
      forall x ensures AuditOk(o, w'.db) && (x != id ==> QuietAt(w.db, w'.db, x) && TraceOf(w', x) == TraceOf(w, x)) {
        QuietElsewhere(o, w.db, call, x);
      }
      assert AuditOk(o, w'.db) by { QuietElsewhere(o, w.db, call, ""); }
      ApprovedRow(o, w.db, id, now, scan);
      assert FitsAt(w, id) && TellsAt(w.db, id) by { AuditTells(o, w.db, id); }
      ApprovedFits(w.db.operations[id], now, TraceOf(w, id));
      NobodyHolds(o, w, id);
      forall q | q in w.procs && w.procs[q].id == id ensures PcFitsAt(w', q) {
        assert !HeldBy(w, q, id);
        BystanderFits(o, w, w', q);
      }
      FocusedStep(o, w, w', None, id);
    }
  }

  lemma AuditTells(o: Oracle, db: Db, id: Id)
    requires AuditOk(o, db)
    ensures TellsAt(db, id) && Sound(o, db)
  {
  }

  lemma ApprovedRow(o: Oracle, db: Db, id: Id, now: Time, scan: Scan)
    requires AuditOk(o, db) && Scans(scan, db) && Approve(o, db, id, now, scan).result.Ok?
    ensures id in db.operations && db.operations[id].status.Planned?
    ensures var out := Approve(o, db, id, now, scan);
      && id in out.db.operations && out.db.operations[id] == out.result.value
      && out.result.value == Moved(db.operations[id], now, Approved, true)
  {
    hide TransitionTx; hide Scans; hide LogFollows; hide LogOf; hide Moved;
    TransitionIsDecided(o, db, id, now, Planned, Approved, true, scan);
    CallEffect(o, db, ApproveCall(id, now, scan), id);
  }

  lemma ApprovedFits(row: Row, now: Time, t: Trace)
    requires RowTells(row) && row.status.Planned? && Fits(row, t)
    ensures Fits(Moved(row, now, Approved, true), t.(approved := t.approved + [JobOf(Moved(row, now, Approved, true))]))
  {
  }

  lemma ClaimedRow(o: Oracle, db: Db, id: Id, now: Time, scan: Scan)
    requires AuditOk(o, db) && Scans(scan, db) && Claim(o, db, id, now, scan).result.Ok?
    ensures id in db.operations && db.operations[id].status.Approved?
    ensures var out := Claim(o, db, id, now, scan);
      && id in out.db.operations && out.db.operations[id] == out.result.value
      && out.result.value == Moved(db.operations[id], now, Applying, false)
  {
    hide TransitionTx; hide Scans; hide LogFollows; hide LogOf; hide Moved;
    TransitionIsDecided(o, db, id, now, Approved, Applying, false, scan);
    CallEffect(o, db, ClaimCall(id, now, scan), id);
  }

  lemma ClaimedFits(row: Row, now: Time, t: Trace, was: Row)
    requires RowTells(row) && row.status.Approved? && Fits(row, t) && was == Moved(row, now, Applying, false)
    ensures Fits(was, t) && forall id :: PcFits(Claimed(id, was), was, t)
  {
  }

  lemma ClaimKeepsInv(o: Oracle, ps: Payloads, w: World, pid: nat, id: Id, now: Time, scan: Scan, send: bool)
    requires Inv(o, w) && Scans(scan, w.db)
    requires pid in w.procs ==> !Holds(w.procs[pid])
    ensures Inv(o, ClaimBy(o, ps, w, pid, id, now, scan, send))
  {
    hide AuditOk; hide QuietRow; hide TransitionTx; hide Scans; hide PcFits; hide Fits; hide SendReadable; hide Holds;
    var call := ClaimCall(id, now, scan);
    var w' := ClaimBy(o, ps, w, pid, id, now, scan, send);
    if Claim(o, w.db, id, now, scan).result.Ok? {
      forall x ensures AuditOk(o, w'.db) && (x != id ==> QuietAt(w.db, w'.db, x) && TraceOf(w', x) == TraceOf(w, x)) {
        QuietElsewhere(o, w.db, call, x);
      }
      assert AuditOk(o, w'.db) by { QuietElsewhere(o, w.db, call, ""); }
      ClaimedRow(o, w.db, id, now, scan);
      AuditTells(o, w.db, id);
      assert FitsAt(w, id);
      ClaimedFits(w.db.operations[id], now, TraceOf(w, id), w'.db.operations[id]);
      NobodyHolds(o, w, id);
      forall q | q != pid && q in w.procs && w.procs[q].id == id ensures PcFitsAt(w', q) {
        assert !HeldBy(w, q, id);
        BystanderFits(o, w, w', q);
      }
      FocusedStep(o, w, w', Some(pid), id);
    } else {
      LeaveKeepsInv(o, w, pid);
    }
  }

  lemma LeaveKeepsInv(o: Oracle, w: World, pid: nat)
    requires Inv(o, w)
    ensures Inv(o, Leave(w, pid))
  {
    hide AuditOk; hide Fits; hide PcFits; hide QuietRow; hide Holds; hide RowTells; hide LogFollows;
    forall id ensures QuietAt(w.db, w.db, id) {
      AuditTells(o, w.db, id);
      if id in w.db.operations { UnchangedIsQuiet(w.db.operations[id]); }
    }
    QuietWorld(o, w, Leave(w, pid), Some(pid));
  }

  lemma BeginKeepsInv(o: Oracle, ps: Payloads, w: World, pid: nat, env: Environment)
    requires Inv(o, w) && pid in w.procs && w.procs[pid].Claimed?
    ensures Inv(o, Next(o, ps, w, Begin(pid, env)))
  {
    hide AuditOk; hide QuietRow; hide RowTells; hide LogFollows; hide Open; hide Fits; hide PcFits;
    var id, row := w.procs[pid].id, w.procs[pid].row;
    var w' := Next(o, ps, w, Begin(pid, env));
    NoDbChange(o, w);
    assert FitsAt(w, id) && PcFitsAt(w, pid);
    InvokedOnlyWithCommands(ps, row, env);
    BegunFits(w.db.operations[id], TraceOf(w, id), row, Open(ps, row, env), id, env.error);
    HolderStep(o, w, w', pid, id);
  }

  lemma NoDbChange(o: Oracle, w: World)
    requires AuditOk(o, w.db)
    ensures forall x :: QuietAt(w.db, w.db, x)
  {
    hide AuditOk; hide QuietRow; hide RowTells; hide LogFollows; hide LogOf;
    forall x ensures QuietAt(w.db, w.db, x) {
      AuditTells(o, w.db, x);
      if x in w.db.operations { UnchangedIsQuiet(w.db.operations[x]); }
    }
  }

  lemma InvokedOnlyWithCommands(ps: Payloads, row: Row, env: Environment)
    ensures Open(ps, row, env).commands.Some? ==> Open(ps, row, env).invoked
  {
    hide ImapAdapter.Commands;
  }

  /** The trace of a claimed operation once its process has opened it. */
  function Begun(t: Trace, was: Row, opening: Opening): Trace {
    var noted := if opening.invoked then t.(invoked := t.invoked + [JobOf(was)]) else t;
    if opening.commands.Some? then noted.(planned := opening.commands.value) else noted
  }

  lemma BegunFits(row: Row, t: Trace, was: Row, opening: Opening, id: Id, error: Failure)
    requires Fits(row, t) && PcFits(Claimed(id, was), row, t)
    requires opening.commands.Some? ==> opening.invoked
    ensures Fits(row, Begun(t, was, opening))
    ensures PcFits(if opening.commands.Some? then Working(id, was) else Finishing(id, EndFailed(error)), row,
      Begun(t, was, opening))
  {
  }

  /** Sending, hearing back, and taking the receipt. */
  lemma CommandKeepsInv(o: Oracle, ps: Payloads, w: World, act: Act)
    requires Inv(o, w) && Offers(w, act) && (act.Issue? || act.Reply? || act.Receive?)
    ensures Inv(o, Next(o, ps, w, act))
  {
    hide AuditOk; hide QuietRow; hide RowTells; hide LogFollows; hide LogOf;
    var id := w.procs[act.pid].id;
    NoDbChange(o, w);
    assert FitsAt(w, id) && PcFitsAt(w, act.pid);
    if act.Receive? && act.receipt.None? {
      LeaveKeepsInv(o, w, act.pid);
    } else {
      HolderStep(o, w, Next(o, ps, w, act), act.pid, id);
    }
  }

  lemma FinalizeKeepsInv(o: Oracle, ps: Payloads, w: World, pid: nat, now: Time)
    requires Inv(o, w) && pid in w.procs && w.procs[pid].Finishing?
    ensures Inv(o, Next(o, ps, w, Finalize(pid, now)))
  {
    hide AuditOk; hide QuietRow; hide FinishTx; hide Fits; hide PcFits; hide After;
    var id, ending := w.procs[pid].id, w.procs[pid].ending;
    var call := FinishCall(id, now, ending);
    var w' := Next(o, ps, w, Finalize(pid, now));
    assert FitsAt(w, id) && PcFitsAt(w, pid);
    assert AuditOk(o, w'.db) by { QuietElsewhere(o, w.db, call, ""); }
    forall x ensures x != id ==> QuietAt(w.db, w'.db, x) {
      QuietElsewhere(o, w.db, call, x);
    }
    FinishedRow(o, w.db, id, now, ending);
    FinishedFits(w.db.operations[id], TraceOf(w, id), now, ending, id);
    HolderStep(o, w, w', pid, id);
  }

  lemma FinishedRow(o: Oracle, db: Db, id: Id, now: Time, e: Ending)
    requires id in db.operations
    ensures var next := After(o, db, FinishCall(id, now, e));
      && id in next.operations
      && (next.operations[id] == db.operations[id]
          || (db.operations[id].status.Applying? && next.operations[id] == Ended(db.operations[id], now, e)))
  {
  }

  lemma FinishedFits(row: Row, t: Trace, now: Time, e: Ending, id: Id)
    requires Fits(row, t) && PcFits(Finishing(id, e), row, t)
    ensures row.status.Applying? ==> Fits(Ended(row, now, e), t)
    ensures Ended(row, now, e).kind == row.kind
  {
  }

  lemma ReadsKeepInv(o: Oracle, ps: Payloads, w: World, act: Act)
    requires Inv(o, w) && Offers(w, act) && (act.ReadDraft? || act.ReadMail? || act.WriteDiscard?)
    ensures Inv(o, Next(o, ps, w, act))
  {
    hide AuditOk; hide Fits; hide After; hide QuietRow; hide FitsAt;
    var w' := Next(o, ps, w, act);
    if act.WriteDiscard? {
      assert PcFitsAt(w, act.pid);
      QuietCallKeepsInv(o, w, w', DiscardCall(w.procs[act.pid].id, act.payload, act.now), Some(act.pid));
    } else {
      QuietCallKeepsInv(o, w, w', LookCall(act.id, act.now, act.scan), Some(act.pid));
    }
  }

  lemma StepKeepsInv(o: Oracle, ps: Payloads, w: World, act: Act)
    requires Inv(o, w) && Offers(w, act)
    ensures Inv(o, Next(o, ps, w, act))
  {
    hide Inv; hide ClaimBy; hide TransitionTx; hide Possible; hide Reconcile;
    match act {
      case Local(CreateCall(id, row)) => CreateKeepsInv(o, w, id, row);
      case Local(call) => QuietCallKeepsInv(o, w, w.(db := After(o, w.db, call)), call, None);
      case ApproveAct(id, now, scan) => ApproveKeepsInv(o, ps, w, id, now, scan);
      case ClaimMail(pid, now, scan) => ClaimKeepsInv(o, ps, w, pid, w.procs[pid].id, now, scan, false);
      case ClaimSend(pid, id, now, scan) => ClaimKeepsInv(o, ps, w, pid, id, now, scan, true);
      case Begin(pid, env) => BeginKeepsInv(o, ps, w, pid, env);
      case Issue(_) => CommandKeepsInv(o, ps, w, act);
      case Reply(_, _, _) => CommandKeepsInv(o, ps, w, act);
      case Receive(_, _) => CommandKeepsInv(o, ps, w, act);
      case Finalize(pid, now) => FinalizeKeepsInv(o, ps, w, pid, now);
      case Crash(pid) => LeaveKeepsInv(o, w, pid);
      case ReadDraft(_, _, _, _) => ReadsKeepInv(o, ps, w, act);
      case ReadMail(_, _, _, _) => ReadsKeepInv(o, ps, w, act);
      case WriteDiscard(_, _, _) => ReadsKeepInv(o, ps, w, act);
    }
  }

  lemma {:induction false} RunKeepsInv(o: Oracle, ps: Payloads, w: World, acts: seq<Act>)
    requires Inv(o, w)
    ensures Inv(o, Run(o, ps, w, acts))
    decreases |acts|
  {
    hide Inv; hide Offers; hide Next;
    if |acts| > 0 {
      if Offers(w, acts[0]) {
        StepKeepsInv(o, ps, w, acts[0]);
      }
      RunKeepsInv(o, ps, Take(o, ps, w, acts[0]), acts[1..]);
    }
  }

  // ----- the two promises -----

  /** At most once: over every interleaving of any number of processes, with
      crashes anywhere and any clocks, an operation is handed to the remote
      adapter at most once, only when it has been approved, and with exactly the
      payload and digest that were approved and that the row still carries. */
  lemma AtMostOnce(o: Oracle, ps: Payloads, acts: seq<Act>, id: Id)
    ensures var w := Run(o, ps, START, acts); var t := TraceOf(w, id);
      && |t.invoked| <= 1
      && (t.invoked != [] ==>
            && id in w.db.operations && t.approved == t.invoked == [JobOf(w.db.operations[id])]
            && w.db.operations[id].attempts == 1
            && w.db.operations[id].digest == (o.digest)(w.db.operations[id].payload))
  {
    StartIsFine(o);
    RunKeepsInv(o, ps, START, acts);
    var w := Run(o, ps, START, acts);
    assert FitsAt(w, id) && TellsAt(w.db, id);
  }

  lemma StartIsFine(o: Oracle)
    ensures Inv(o, START)
  {
    forall id ensures FitsAt(START, id) && TellsAt(EMPTY, id) {}
    forall p, q ensures PcFitsAt(START, p) && Alone(START, p, q) {}
  }

  /** Certainty is never overstated: failed means that no mutating command was
      sent, succeeded that every command of the operation was acknowledged; once
      one has been sent, nothing but applying, ambiguous or a fully acknowledged
      success can be recorded, and an unacknowledged command rules success out. */
  lemma CertaintyIsNeverOverstated(o: Oracle, ps: Payloads, acts: seq<Act>, id: Id)
    ensures var w := Run(o, ps, START, acts); var t := TraceOf(w, id);
      id in w.db.operations ==>
        var status := w.db.operations[id].status;
        && (status.Failed? ==> t.issued == 0)
        && (status.Succeeded? ==> |t.invoked| == 1 && t.issued == t.acked == |t.planned|)
        && (t.issued > 0 ==> status.Applying? || status.Ambiguous? || status.Succeeded?)
        && (t.issued > t.acked || t.acked < |t.planned| ==> !status.Succeeded?)
  {
    StartIsFine(o);
    RunKeepsInv(o, ps, START, acts);
    assert FitsAt(Run(o, ps, START, acts), id);
  }

  /** The audit log of every operation stays exact in these runs as well. */
  lemma AuditHoldsInRuns(o: Oracle, ps: Payloads, acts: seq<Act>)
    ensures AuditOk(o, Run(o, ps, START, acts).db)
  {
    StartIsFine(o);
    RunKeepsInv(o, ps, START, acts);
  }

  /** A refusal of any command, the STORE after an acknowledged COPY included,
      leads to ambiguous unless the ledger had already moved on. */
  lemma RefusalIsAmbiguous(o: Oracle, ps: Payloads, w: World, pid: nat, error: Failure, now: Time)
    requires Inv(o, w) && Offers(w, Reply(pid, false, error)) && (o.validId)(w.procs[pid].id)
    ensures var refused := Next(o, ps, w, Reply(pid, false, error));
      var done := Next(o, ps, refused, Finalize(pid, now));
      var id := w.procs[pid].id;
      id in done.db.operations && done.db.operations[id].status.Ambiguous? && pid !in done.procs
  {
    assert PcFitsAt(w, pid);
  }

  /** Applying a send plan through an id of another kind claims it and then
      stops: the operation stays applying with nothing invoked. */
  lemma OtherKindIsStranded(o: Oracle, ps: Payloads, w: World, pid: nat, id: Id, now: Time, scan: Scan)
    requires Inv(o, w) && Offers(w, ClaimSend(pid, id, now, scan))
    requires id in w.db.operations && w.db.operations[id].kind != SEND
    requires Claim(o, w.db, id, now, scan).result.Ok?
    ensures var next := Next(o, ps, w, ClaimSend(pid, id, now, scan));
      && id in next.db.operations && next.db.operations[id].status.Applying?
      && pid !in next.procs && TraceOf(next, id).invoked == []
  {
    hide TransitionTx; hide Scans; hide Moved;
    ClaimedRow(o, w.db, id, now, scan);
    assert FitsAt(w, id);
    AuditTells(o, w.db, id);
  }

  // ----- one process left to itself -----

  /** The steps of a process that sends its commands one by one, up to the first
      refusal or the last acknowledgement. */
  function Driving(pid: nat, p: ImapAdapter.Progress, replies: nat -> bool, error: Failure): seq<Act>
    requires ImapAdapter.Sound(p)
    decreases |p.commands| - p.acked, |p.commands| - p.issued
  {
    if p.issued > p.acked then
      if replies(p.acked) then [Reply(pid, true, error)] + Driving(pid, p.(acked := p.acked + 1), replies, error)
      else [Reply(pid, false, error)]
    else if p.issued < |p.commands| then [Issue(pid)] + Driving(pid, p.(issued := p.issued + 1), replies, error)
    else []
  }

  function ProgressOf(t: Trace): ImapAdapter.Progress { ImapAdapter.Progress(t.planned, t.issued, t.acked) }

  /** The adapter's own step machine is this machine, run for one process: the
      same replies lead to the same commands sent and acknowledged, and to a
      process that waits for its receipt exactly when all were. */
  lemma {:induction false} DriveIsARun(
    o: Oracle, ps: Payloads, w: World, pid: nat, replies: nat -> bool, error: Failure) returns (last: World)
    requires Inv(o, w) && pid in w.procs && w.procs[pid].Working?
    ensures ImapAdapter.Sound(ProgressOf(TraceOf(w, w.procs[pid].id)))
    ensures var id, start := w.procs[pid].id, ProgressOf(TraceOf(w, w.procs[pid].id));
      var done := ImapAdapter.Drive(start, replies);
      && last == Run(o, ps, w, Driving(pid, start, replies, error)) && last.db == w.db
      && ProgressOf(TraceOf(last, id)) == done && TraceOf(last, id).invoked == TraceOf(w, id).invoked
      && pid in last.procs
      && last.procs[pid] ==
           if ImapAdapter.Complete(done) then w.procs[pid] else Finishing(id, EndAmbiguous(error))
    decreases |TraceOf(w, w.procs[pid].id).planned| - TraceOf(w, w.procs[pid].id).acked,
      |TraceOf(w, w.procs[pid].id).planned| - TraceOf(w, w.procs[pid].id).issued
  {
    var id := w.procs[pid].id;
    var t := TraceOf(w, id);
    assert FitsAt(w, id) && PcFitsAt(w, pid);
    hide Inv; hide Run; hide Fits; hide PcFits;
    var p := ProgressOf(t);
    if Done(t) {
      last := w;
      RunEnds(o, ps, w);
    } else {
      var act := if Pending(t) then Reply(pid, replies(t.acked), error) else Issue(pid);
      var next := Next(o, ps, w, act);
      StepKeepsInv(o, ps, w, act);
      var refused := act.Reply? && !act.ok;
      var rest := if refused then [] else Driving(pid, ProgressOf(TraceOf(next, id)), replies, error);
      assert Driving(pid, p, replies, error) == [act] + rest;
      RunSteps(o, ps, w, act, rest);
      if refused {
        last := next;
        RunEnds(o, ps, next);
      } else {
        last := DriveIsARun(o, ps, next, pid, replies, error);
      }
    }
  }

  lemma RunEnds(o: Oracle, ps: Payloads, w: World)
    ensures Run(o, ps, w, []) == w
  {
  }

  lemma RunSteps(o: Oracle, ps: Payloads, w: World, act: Act, rest: seq<Act>)
    requires Offers(w, act)
    ensures Run(o, ps, w, [act] + rest) == Run(o, ps, Next(o, ps, w, act), rest)
  {
    assert ([act] + rest)[1..] == rest;
  }
}
