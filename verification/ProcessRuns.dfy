/** The service calls are runs of one process of the whole system, left alone. */
module ProcessRuns {
  import opened Basics
  import opened Ledger
  import opened LedgerFacts
  import opened LedgerRuns
  import opened Runtime
  import LedgerEffects
  import ImapAdapter

  lemma {:induction false} RunConcat(o: Oracle, ps: Payloads, w: World, a: seq<Act>, b: seq<Act>)
    ensures Run(o, ps, w, a + b) == Run(o, ps, Run(o, ps, w, a), b)
    decreases |a|
  {
    hide Take;
    if |a| == 0 {
      assert a + b == b;
    } else {
      assert (a + b)[1..] == a[1..] + b;
      RunConcat(o, ps, Take(o, ps, w, a[0]), a[1..], b);
    }
  }

  lemma OneRun(o: Oracle, ps: Payloads, w: World, act: Act)
    ensures Run(o, ps, w, [act]) == Take(o, ps, w, act)
  {
    hide Take;
    assert [act][1..] == [];
  }

  /** An operation that is only approved has no remote history. */
  lemma ApprovedIsQuiet(o: Oracle, w: World, id: Id)
    requires Inv(o, w) && id in w.db.operations && w.db.operations[id].status.Approved?
    ensures TraceOf(w, id).invoked == [] && TraceOf(w, id).planned == []
    ensures TraceOf(w, id).issued == TraceOf(w, id).acked == 0
  {
    assert FitsAt(w, id);
  }

  lemma ReadStep(o: Oracle, ps: Payloads, w: World, pid: nat, id: Id, m: Moments)
    requires Inv(o, w) && pid !in w.procs && Scans(m.lookScan, w.db) && Scans(m.claimScan, w.db)
    requires MailReady(o, w.db, id, m)
    ensures var next := Take(o, ps, w, ReadMail(pid, id, m.look, m.lookScan));
      && Inv(o, next) && pid in next.procs && next.procs[pid] == MailRead(id) && Scans(m.claimScan, next.db)
      && id in next.db.operations && next.db.operations[id] == w.db.operations[id]
      && TraceOf(next, id) == TraceOf(w, id)
      && LedgerEffects.Decision(o, next.db, id, m.claim, Approved, Applying, false).Ok?
  {
    hide Inv; hide AuditOk; hide Scans; hide LookTx; hide LedgerEffects.Decision; hide Ready;
    var act := ReadMail(pid, id, m.look, m.lookScan);
    assert AuditOk(o, w.db) by { InvAudit(o, w); }
    ReadyIsClaimable(o, w.db, id, m);
    LookFacts(o, w.db, id, m.look, m.lookScan, m.claimScan);
    StepKeepsInv(o, ps, w, act);
  }

  lemma InvAudit(o: Oracle, w: World)
    requires Inv(o, w)
    ensures AuditOk(o, w.db)
  {
  }

  lemma ClaimStep(o: Oracle, ps: Payloads, w: World, pid: nat, id: Id, now: Time, scan: Scan)
    requires Inv(o, w) && pid in w.procs && w.procs[pid] == MailRead(id) && Scans(scan, w.db)
    requires LedgerEffects.Decision(o, w.db, id, now, Approved, Applying, false).Ok?
    ensures var next := Take(o, ps, w, ClaimMail(pid, now, scan));
      && Inv(o, next) && id in w.db.operations && id in next.db.operations
      && next.db.operations[id] == Moved(w.db.operations[id], now, Applying, false)
      && pid in next.procs && next.procs[pid] == Claimed(id, next.db.operations[id])
      && TraceOf(next, id) == TraceOf(w, id)
  {
    hide Inv; hide AuditOk; hide Scans; hide TransitionTx; hide LedgerEffects.Decision; hide Moved; hide SendReadable;
    assert AuditOk(o, w.db) by { InvAudit(o, w); }
    ClaimIsDecided(o, w.db, id, now, scan);
    ClaimFacts(o, w.db, id, now, scan);
    StepKeepsInv(o, ps, w, ClaimMail(pid, now, scan));
  }

  function CommandsOf(ps: Payloads, row: Row, env: Environment): Option<seq<Command>> {
    if row.kind == SEND then SendCommands(row, env) else MailCommands(ps, row, env)
  }

  /** Whether the adapter is called at all: with credentials, for a payload that
      reads back as a request of the row's own kind and account. */
  predicate Reached(ps: Payloads, row: Row, env: Environment) {
    && env.credentials
    && (row.kind == "send" ||
          (ps.mail(row.payload).Some? && ps.kindName(ps.mail(row.payload).value.kind) == row.kind
           && ps.mail(row.payload).value.accountId == row.accountId))
  }

  /** Opening a claimed operation finds the commands its row and the environment
      lead to, and notes that the adapter was called exactly when it was. */
  lemma BeginStep(o: Oracle, ps: Payloads, w: World, pid: nat, id: Id, row: Row, env: Environment)
    requires Inv(o, w) && pid in w.procs && w.procs[pid] == Claimed(id, row)
    ensures var next := Take(o, ps, w, Begin(pid, env));
      var commands := CommandsOf(ps, row, env);
      && Inv(o, next) && next.db == w.db && pid in next.procs
      && next.procs[pid] == (if commands.None? then Finishing(id, EndFailed(env.error)) else Working(id, row))
      && TraceOf(next, id).issued == TraceOf(w, id).issued && TraceOf(next, id).acked == TraceOf(w, id).acked
      && TraceOf(next, id).planned == (if commands.None? then TraceOf(w, id).planned else commands.value)
      && TraceOf(next, id).invoked == TraceOf(w, id).invoked + (if Reached(ps, row, env) then [JobOf(row)] else [])
      && TraceOf(next, id).approved == TraceOf(w, id).approved
  {
    hide Inv; hide ImapAdapter.Commands;
    StepKeepsInv(o, ps, w, Begin(pid, env));
  }

  /** Recording the end of an operation that is still applying. */
  lemma FinalizeStep(o: Oracle, ps: Payloads, w: World, pid: nat, id: Id, ending: Ending, now: Time)
    requires Inv(o, w) && pid in w.procs && w.procs[pid] == Finishing(id, ending) && (o.validId)(id)
    requires id in w.db.operations && w.db.operations[id].status.Applying?
    ensures var next := Take(o, ps, w, Finalize(pid, now));
      && Inv(o, next) && pid !in next.procs && id in next.db.operations
      && next.db.operations[id] == Ended(w.db.operations[id], now, ending) && TraceOf(next, id) == TraceOf(w, id)
  {
    hide Inv; hide AuditOk; hide FinishTx; hide Ended;
    assert AuditOk(o, w.db) by { InvAudit(o, w); }
    FinishFacts(o, w.db, id, now, ending);
    StepKeepsInv(o, ps, w, Finalize(pid, now));
  }

  /** Sending to the end: all commands, or up to the first refusal. */
  lemma WorkRun(
    o: Oracle, ps: Payloads, w: World, pid: nat, id: Id, row: Row, replies: nat -> bool, receipt: string,
    error: Failure) returns (acts: seq<Act>, last: World)
    requires Inv(o, w) && pid in w.procs && w.procs[pid] == Working(id, row)
    requires TraceOf(w, id).issued == TraceOf(w, id).acked == 0
    ensures last == Run(o, ps, w, acts) && Inv(o, last) && last.db == w.db
    ensures var t := TraceOf(last, id);
      var (sent, done) := ImapAdapter.Outcome(TraceOf(w, id).planned, replies, 0);
      && t.planned == TraceOf(w, id).planned && t.issued <= |t.planned| && t.planned[..t.issued] == sent
      && t.invoked == TraceOf(w, id).invoked
      && (done <==> t.acked == |t.planned|)
      && pid in last.procs
      && last.procs[pid] == Finishing(id, if done then EndSucceeded(receipt) else EndAmbiguous(error))
  {
    hide Inv; hide Run; hide ImapAdapter.Outcome; hide Take;
    var start := ProgressOf(TraceOf(w, id));
    last := DriveIsARun(o, ps, w, pid, replies, error);
    acts := Driving(pid, start, replies, error);
    RunKeepsInv(o, ps, w, acts);
    ImapAdapter.DriveMatchesOutcome(start, replies);
    assert start.commands[0..] == start.commands && start.commands[..0] == [];
    var t := TraceOf(last, id);
    assert start.commands[..t.issued] == [] + ImapAdapter.Outcome(start.commands, replies, 0).0;
    if t.acked == |t.planned| {
      ReceiveStep(o, ps, last, pid, id, row, receipt);
      RunConcat(o, ps, w, acts, [Receive(pid, Some(receipt))]);
      OneRun(o, ps, last, Receive(pid, Some(receipt)));
      acts, last := acts + [Receive(pid, Some(receipt))], Take(o, ps, last, Receive(pid, Some(receipt)));
    }
  }

  lemma ReceiveStep(o: Oracle, ps: Payloads, w: World, pid: nat, id: Id, row: Row, receipt: string)
    requires Inv(o, w) && pid in w.procs && w.procs[pid] == Working(id, row)
    requires TraceOf(w, id).acked == |TraceOf(w, id).planned|
    ensures var next := Take(o, ps, w, Receive(pid, Some(receipt)));
      && Inv(o, next) && next.db == w.db && pid in next.procs && next.procs[pid] == Finishing(id, EndSucceeded(receipt))
      && TraceOf(next, id) == TraceOf(w, id)
  {
    hide Inv;
    StepKeepsInv(o, ps, w, Receive(pid, Some(receipt)));
  }

  /** What an undisturbed run leaves: the final row of the service call, and a
      record of the same commands sent and acknowledged. */
  ghost predicate Carried(
    was: Row, last: World, pid: nat, id: Id, commands: Option<seq<Command>>, reached: bool, now: Time,
    receipt: string, error: Failure, replies: nat -> bool)
  {
    var t := TraceOf(last, id);
    && t.invoked == (if reached then [JobOf(was)] else [])
    && pid !in last.procs && id in last.db.operations
    && Final(was, last.db.operations[id], commands, t.acked, now, receipt, error)
    && if commands.None? then t.issued == 0
       else
         && t.planned == commands.value && t.issued <= |t.planned|
         && t.planned[..t.issued] == ImapAdapter.Outcome(commands.value, replies, 0).0
  }

  /** From a fresh claim to the recorded end. */
  lemma ClaimedRun(
    o: Oracle, ps: Payloads, db: Db, w: World, pid: nat, id: Id, env: Environment, m: Moments,
    replies: nat -> bool, receipt: string) returns (acts: seq<Act>)
    requires AuditOk(o, db) && id in db.operations && db.operations[id].status.Approved? && (o.validId)(id)
    requires Inv(o, w) && id in w.db.operations
    requires w.db.operations[id] == Moved(db.operations[id], m.claim, Applying, false)
    requires pid in w.procs && w.procs[pid] == Claimed(id, w.db.operations[id])
    requires TraceOf(w, id).invoked == [] && TraceOf(w, id).planned == []
    requires TraceOf(w, id).issued == TraceOf(w, id).acked == 0
    ensures Carried(db.operations[id], Run(o, ps, w, acts), pid, id, CommandsOf(ps, db.operations[id], env),
      Reached(ps, db.operations[id], env), m.finish, receipt, env.error, replies)
  {
    hide Inv; hide AuditOk; hide Run; hide Take; hide Moved; hide Ended; hide Final; hide CommandsOf;
    hide ImapAdapter.Outcome; hide Reached;
    var row, claimed := db.operations[id], w.db.operations[id];
    BeginStep(o, ps, w, pid, id, claimed, env);
    var w3 := Take(o, ps, w, Begin(pid, env));
    SameCommands(ps, row, m.claim, env);
    OneRun(o, ps, w, Begin(pid, env));
    var more, w4 := [], w3;
    if w3.procs[pid].Working? {
      more, w4 := WorkRun(o, ps, w3, pid, id, claimed, replies, receipt, env.error);
      RunConcat(o, ps, w, [Begin(pid, env)], more);
    } else {
      assert [Begin(pid, env)] + more == [Begin(pid, env)];
    }
    var ending := w4.procs[pid].ending;
    FinalizeStep(o, ps, w4, pid, id, ending, m.finish);
    acts := [Begin(pid, env)] + more + [Finalize(pid, m.finish)];
    RunConcat(o, ps, w, [Begin(pid, env)] + more, [Finalize(pid, m.finish)]);
    OneRun(o, ps, w4, Finalize(pid, m.finish));
    var commands := CommandsOf(ps, row, env);
    assert ending == Verdict(commands, TraceOf(w4, id).acked, receipt, env.error);
    EndedIsFinal(o, db, id, claimed, m.claim, m.finish, commands, TraceOf(w4, id).acked, receipt, env.error);
  }

  /** Applying a ready mailbox operation is a run of one process: reading, claiming,
      opening, sending one command after the other, and recording the end come to
      what the straight-line call comes to, for the same readings of the clock, the
      same environment and the same replies. */
  lemma ApplyIsARun(
    o: Oracle, ps: Payloads, w: World, pid: nat, id: Id, env: Environment, m: Moments, replies: nat -> bool,
    receipt: string) returns (acts: seq<Act>)
    requires Inv(o, w) && pid !in w.procs && Scans(m.lookScan, w.db) && Scans(m.claimScan, w.db)
    requires MailReady(o, w.db, id, m)
    ensures Carried(w.db.operations[id], Run(o, ps, w, acts), pid, id, MailCommands(ps, w.db.operations[id], env),
      Reached(ps, w.db.operations[id], env), m.finish, receipt, env.error, replies)
  {
    hide Inv; hide AuditOk; hide Scans; hide Run; hide Take; hide Moved; hide Carried; hide MailCommands;
    hide LedgerEffects.Decision;
    ApprovedIsQuiet(o, w, id);
    InvAudit(o, w);
    var read, claim := ReadMail(pid, id, m.look, m.lookScan), ClaimMail(pid, m.claim, m.claimScan);
    ReadStep(o, ps, w, pid, id, m);
    var w1 := Take(o, ps, w, read);
    ClaimStep(o, ps, w1, pid, id, m.claim, m.claimScan);
    var w2 := Take(o, ps, w1, claim);
    var rest := ClaimedRun(o, ps, w.db, w2, pid, id, env, m, replies, receipt);
    OneRun(o, ps, w, read);
    OneRun(o, ps, w1, claim);
    RunConcat(o, ps, w, [read], [claim]);
    acts := [read] + [claim] + rest;
    RunConcat(o, ps, w, [read] + [claim], rest);
  }

  lemma ClaimSendStep(o: Oracle, ps: Payloads, w: World, pid: nat, id: Id, m: Moments)
    requires Inv(o, w) && pid !in w.procs && Scans(m.claimScan, w.db) && SendReady(o, w.db, id, m)
    ensures var next := Take(o, ps, w, ClaimSend(pid, id, m.claim, m.claimScan));
      && Inv(o, next) && id in next.db.operations && TraceOf(next, id) == TraceOf(w, id)
      && next.db.operations[id] == Moved(w.db.operations[id], m.claim, Applying, false)
      && (if SendReadable(ps, w.db.operations[id])
          then pid in next.procs && next.procs[pid] == Claimed(id, next.db.operations[id])
          else pid !in next.procs)
  {
    hide Inv; hide AuditOk; hide Scans; hide TransitionTx; hide LedgerEffects.Decision; hide Moved; hide SendReadable;
    InvAudit(o, w);
    SendIsClaimed(o, w.db, id, m);
    ClaimIsDecided(o, w.db, id, m.claim, m.claimScan);
    ClaimFacts(o, w.db, id, m.claim, m.claimScan);
    SameReadable(ps, w.db.operations[id], m.claim);
    StepKeepsInv(o, ps, w, ClaimSend(pid, id, m.claim, m.claimScan));
  }

  lemma SameReadable(ps: Payloads, row: Row, now: Time)
    ensures SendReadable(ps, Moved(row, now, Applying, false)) <==> SendReadable(ps, row)
  {
  }

  /** Applying a ready, readable send plan, likewise. */
  lemma SendIsARun(
    o: Oracle, ps: Payloads, w: World, pid: nat, id: Id, env: Environment, m: Moments, replies: nat -> bool,
    receipt: string) returns (acts: seq<Act>)
    requires Inv(o, w) && pid !in w.procs && Scans(m.claimScan, w.db)
    requires SendReady(o, w.db, id, m) && SendReadable(ps, w.db.operations[id])
    ensures Carried(w.db.operations[id], Run(o, ps, w, acts), pid, id, SendCommands(w.db.operations[id], env),
      Reached(ps, w.db.operations[id], env), m.finish, receipt, env.error, replies)
  {
    hide Inv; hide AuditOk; hide Scans; hide Run; hide Take; hide Moved; hide Carried; hide SendCommands;
    ApprovedIsQuiet(o, w, id);
    InvAudit(o, w);
    var claim := ClaimSend(pid, id, m.claim, m.claimScan);
    ClaimSendStep(o, ps, w, pid, id, m);
    var rest := ClaimedRun(o, ps, w.db, Take(o, ps, w, claim), pid, id, env, m, replies, receipt);
    OneRun(o, ps, w, claim);
    acts := [claim] + rest;
    RunConcat(o, ps, w, [claim], rest);
  }

  lemma SameCommands(ps: Payloads, row: Row, now: Time, env: Environment)
    ensures CommandsOf(ps, Moved(row, now, Applying, false), env) == CommandsOf(ps, row, env)
    ensures Reached(ps, Moved(row, now, Applying, false), env) <==> Reached(ps, row, env)
    ensures JobOf(Moved(row, now, Applying, false)) == JobOf(row)
  {
    hide ImapAdapter.Commands;
  }
}
