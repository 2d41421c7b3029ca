/** Lazy reconciliation grants exactly what eager reconciliation would: extra
    passes, anywhere in a run, never change an approve or a claim. */
module LazyReconcile {
  import opened Basics
  import opened Ledger
  import opened LedgerFacts
  import opened LedgerEffects

  // ----- runs with extra passes -----

  /** One call of a run; an extra one is a pure look that only the eager run makes. */
  datatype Step = Step(call: Call, extra: bool)

  /** The clock the reconciling calls read never goes back. */
  predicate Clocked(steps: seq<Step>, since: Time)
    decreases |steps|
  {
    |steps| > 0 ==>
      var call := steps[0].call;
      (Reconciling(call) ==> since <= call.now) && Clocked(steps[1..], Later(call, since))
  }

  function Later(call: Call, since: Time): Time { if Reconciling(call) then call.now else since }

  ghost predicate PossibleSteps(o: Oracle, db: Db, steps: seq<Step>)
    decreases |steps|
  {
    |steps| > 0 ==>
      && Possible(db, steps[0].call) && (steps[0].extra ==> steps[0].call.LookCall?)
      && PossibleSteps(o, After(o, db, steps[0].call), steps[1..])
  }

  function Granted(o: Oracle, db: Db, call: Call): seq<Result<Row>> {
    match call
    case ApproveCall(id, now, scan) => [Approve(o, db, id, now, scan).result]
    case ClaimCall(id, now, scan) => [Claim(o, db, id, now, scan).result]
    case _ => []
  }

  /** What every approve and claim of a run returned, with or without the extra passes. */
  function Decisions(o: Oracle, db: Db, steps: seq<Step>, eager: bool): seq<Result<Row>>
    decreases |steps|
  {
    if |steps| == 0 then []
    else if steps[0].extra && !eager then Decisions(o, db, steps[1..], eager)
    else Granted(o, db, steps[0].call) + Decisions(o, After(o, db, steps[0].call), steps[1..], eager)
  }

  // ----- the simulation -----

  predicate SameGrants(a: Row, b: Row, now: Time) {
    && a.kind == b.kind
    && (a.kind != DRAFT ==> if Live(a, now) then a == b else !Live(b, now))
  }

  predicate SimAt(a: Db, b: Db, now: Time, id: Id) {
    && (id in a.operations <==> id in b.operations)
    && (id in a.operations ==> SameGrants(a.operations[id], b.operations[id], now))
  }

  ghost predicate Sim(o: Oracle, a: Db, b: Db, now: Time) {
    Sound(o, a) && Sound(o, b) && forall id :: SimAt(a, b, now, id)
  }

  lemma ScansTransfer(o: Oracle, a: Db, b: Db, now: Time, call: Call)
    requires Sim(o, a, b, now) && Possible(b, call)
    ensures Possible(a, call)
  {
    forall id ensures id in a.operations <==> id in b.operations {
      assert SimAt(a, b, now, id);
    }
    if call.DiscardCall? {
      assert SimAt(a, b, now, call.id);
    }
    if Reconciling(call) {
      SameKeysSameLists(call.scan.expiry, b, a);
      SameKeysSameLists(call.scan.stale, b, a);
    }
  }

  lemma GrantsAgree(o: Oracle, a: Db, b: Db, since: Time, call: Call)
    requires Sim(o, a, b, since) && Possible(a, call) && Possible(b, call)
    requires Reconciling(call) ==> since <= call.now
    ensures Granted(o, a, call) == Granted(o, b, call)
  {
    hide TransitionTx;
    if call.ApproveCall? || call.ClaimCall? {
      var (from, to, approve) := if call.ApproveCall? then (Planned, Approved, true) else (Approved, Applying, false);
      TransitionIsDecided(o, a, call.id, call.now, from, to, approve, call.scan);
      TransitionIsDecided(o, b, call.id, call.now, from, to, approve, call.scan);
      assert SimAt(a, b, since, call.id);
    }
  }

  /** Settling a row does not change what it grants from then on. */
  lemma SettlingGrantsTheSame(a: Row, b: Row, since: Time, now: Time)
    requires SameGrants(a, b, since) && since <= now
    ensures SameGrants(a, b, now) && SameGrants(Settled(a, now), b, now) && SameGrants(a, Settled(b, now), now)
    ensures SameGrants(Settled(a, now), Settled(b, now), now)
  {
  }

  /** The same call on both sides keeps the simulation. */
  lemma CallKeepsSim(o: Oracle, a: Db, b: Db, since: Time, call: Call)
    requires Sim(o, a, b, since) && Possible(a, call) && Possible(b, call)
    requires Reconciling(call) ==> since <= call.now
    ensures Sim(o, After(o, a, call), After(o, b, call), Later(call, since))
  {
    hide After; hide Sound; hide Possible;
    CallEffect(o, a, call, "");
    CallEffect(o, b, call, "");
    forall id ensures SimAt(After(o, a, call), After(o, b, call), Later(call, since), id) {
      assert SimAt(a, b, since, id);
      CallEffect(o, a, call, id);
      CallEffect(o, b, call, id);
      RowsKeepSim(o, a, b, After(o, a, call), After(o, b, call), since, call, id);
    }
  }

  lemma RowsKeepSim(o: Oracle, a: Db, b: Db, a': Db, b': Db, since: Time, call: Call, id: Id)
    requires SimAt(a, b, since, id)
    requires RowAfter(o, call, a, a', id) && RowAfter(o, call, b, b', id)
    requires Reconciling(call) ==> since <= call.now
    ensures SimAt(a', b', Later(call, since), id)
  {
    hide Settled; hide SettledLog; hide LogOf; hide Moved;
    if id in a.operations && Reconciling(call) {
      SettlingGrantsTheSame(a.operations[id], b.operations[id], since, call.now);
    }
  }

  /** An extra pass on the eager side keeps it too. */
  lemma LookKeepsSim(o: Oracle, a: Db, b: Db, since: Time, call: Call)
    requires Sim(o, a, b, since) && Possible(b, call) && call.LookCall? && since <= call.now
    ensures Sim(o, a, After(o, b, call), call.now)
  {
    hide After; hide Sound; hide Possible;
    CallEffect(o, b, call, "");
    forall id ensures SimAt(a, After(o, b, call), call.now, id) {
      hide Settled; hide SettledLog; hide LogOf;
      assert SimAt(a, b, since, id);
      CallEffect(o, b, call, id);
      if id in a.operations {
        SettlingGrantsTheSame(a.operations[id], b.operations[id], since, call.now);
      }
    }
  }

  lemma {:induction false} SimulatedRuns(o: Oracle, a: Db, b: Db, since: Time, steps: seq<Step>)
    requires Sim(o, a, b, since) && Clocked(steps, since) && PossibleSteps(o, b, steps)
    ensures Decisions(o, a, steps, false) == Decisions(o, b, steps, true)
    decreases |steps|
  {
    hide After; hide Sim; hide Granted; hide Possible;
    if |steps| > 0 {
      var call := steps[0].call;
      if steps[0].extra {
        LookKeepsSim(o, a, b, since, call);
        SimulatedRuns(o, a, After(o, b, call), Later(call, since), steps[1..]);
        assert Granted(o, b, call) == [] by { LooksGrantNothing(o, b, call); }
      } else {
        ScansTransfer(o, a, b, since, call);
        GrantsAgree(o, a, b, since, call);
        CallKeepsSim(o, a, b, since, call);
        SimulatedRuns(o, After(o, a, call), After(o, b, call), Later(call, since), steps[1..]);
      }
    }
  }

  lemma LooksGrantNothing(o: Oracle, db: Db, call: Call)
    requires call.LookCall?
    ensures Granted(o, db, call) == []
  {
  }

  /** Lazy equals eager: over any run with a non-decreasing clock, dropping all
      extra reconciling passes leaves every approve and every claim with exactly
      the result it had, row for row and error for error. */
  lemma LazyEqualsEager(o: Oracle, db: Db, since: Time, steps: seq<Step>)
    requires Sound(o, db) && Clocked(steps, since) && PossibleSteps(o, db, steps)
    ensures Decisions(o, db, steps, false) == Decisions(o, db, steps, true)
  {
    assert Sim(o, db, db, since) by {
      forall id ensures SimAt(db, db, since, id) {}
    }
    SimulatedRuns(o, db, db, since, steps);
  }

  // ----- where the two differ -----

  /** Finishing does not reconcile: an interrupted apply past its deadline can
      still be finished, unless somebody looks first. */
  lemma FinishSeesTheDifference(o: Oracle, db: Db, id: Id, now: Time, e: Ending, scan: Scan)
    requires Sound(o, db) && Scans(scan, db) && (o.validId)(id) && id in db.operations
    requires db.operations[id].status.Applying? && db.operations[id].kind != DRAFT
    ensures Finish(o, db, id, now, e).result.Ok?
    ensures Finish(o, After(o, db, LookCall(id, now, scan)), id, now, e).result.Ok? <==>
      db.operations[id].updatedAt > now - STALE_APPLY
  {
    hide Reconcile; hide LogOf; hide SettledLog; hide Scans;
    ReconcileIsPointwise(o, db, now, scan, id);
  }

  /** With a clock that went back, an extra pass can deny what the lazy run grants. */
  lemma ClockMustNotGoBack(o: Oracle, db: Db, id: Id, early: Time, late: Time, scan: Scan, again: Scan)
    requires Sound(o, db) && Scans(scan, db) && Scans(again, After(o, db, LookCall(id, late, scan))) && (o.validId)(id)
    requires id in db.operations && db.operations[id].status.Planned? && db.operations[id].kind != DRAFT
    requires db.operations[id].expiresAt.Some? && early < db.operations[id].expiresAt.value <= late
    ensures Approve(o, db, id, early, scan).result.Ok?
    ensures Approve(o, After(o, db, LookCall(id, late, scan)), id, early, again).result == Err(PlanState)
  {
    hide Reconcile; hide LogOf; hide SettledLog; hide Scans; hide TransitionTx; hide Moved;
    TransitionIsDecided(o, db, id, early, Planned, Approved, true, scan);
    ReconcileIsPointwise(o, db, late, scan, id);
    TransitionIsDecided(o, After(o, db, LookCall(id, late, scan)), id, early, Planned, Approved, true, again);
  }
}
