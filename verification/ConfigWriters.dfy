/** Any number of processes adding accounts to one configuration file at once. */
module ConfigWriters {
  import opened Basics
  import opened ConfigFile

  /** One `create` under way: what it loaded, and what it wants to save. */
  datatype Job = Job(account: Account, base: Document, expected: Option<nat>, content: Document)

  datatype Stage = Prepared | Locked | Checked | Staged(temporary: nat) | Rechecked(temporary: nat) | Renamed

  datatype Pc = Pc(job: Job, stage: Stage)

  /** `next` numbers the files ever made, `known` bounds the identities the
      destination has had; `confirmed` are the accounts whose `create` returned
      Ok, `wins` the expectations that renames have consumed. */
  datatype World = World(
    file: Option<File>, next: nat, known: nat, lock: Option<nat>, procs: map<nat, Pc>,
    confirmed: set<Account>, wins: seq<Option<nat>>)

  datatype Act =
    | Load(pid: nat, account: Account)
    | Lock(pid: nat)
    | Check(pid: nat)
    | StageFile(pid: nat, identity: nat)
    | Recheck(pid: nat)
    | Rename(pid: nat)
    | Settle(pid: nat, ok: bool)
    | GiveUp(pid: nat)

  function Loaded(w: World): Document { if w.file.None? then [] else w.file.value.content }

  function IdentityOf(w: World): Option<nat> { if w.file.None? then None else Some(w.file.value.identity) }

  function Leave(w: World, pid: nat): World {
    w.(procs := w.procs - {pid}, lock := if w.lock == Some(pid) then None else w.lock)
  }

  function At(w: World, pid: nat, stage: Stage): World
    requires pid in w.procs
  {
    w.(procs := w.procs[pid := w.procs[pid].(stage := stage)])
  }

  /** Which steps a world offers. A new file gets an identity of its own; only
      where identities are reused can it be one that an earlier file had. */
  predicate Offers(w: World, act: Act, reuse: bool) {
    match act
    case Load(pid, _) => pid !in w.procs
    case Lock(pid) => pid in w.procs && w.procs[pid].stage.Prepared? && w.lock.None?
    case Check(pid) => pid in w.procs && w.procs[pid].stage.Locked?
    case StageFile(pid, identity) =>
      && pid in w.procs && w.procs[pid].stage.Checked?
      && if reuse then IdentityOf(w) != Some(identity) else w.next <= identity
    case Recheck(pid) => pid in w.procs && w.procs[pid].stage.Staged?
    case Rename(pid) => pid in w.procs && w.procs[pid].stage.Rechecked?
    case Settle(pid, _) => pid in w.procs && w.procs[pid].stage.Renamed?
    case GiveUp(pid) => pid in w.procs
  }

  /** Giving up stands for an I/O error, a crash, or a full disk at any moment;
      the advisory lock goes with its holder. */
  function Next(w: World, act: Act): World
    requires Offers(w, act, true) || Offers(w, act, false)
  {
    match act
    case Load(pid, account) =>
      (match Added(Loaded(w), account)
       case Err(_) => w
       case Ok(content) => w.(procs := w.procs[pid := Pc(Job(account, Loaded(w), IdentityOf(w), content), Prepared)]))
    case Lock(pid) => At(w, pid, Locked).(lock := Some(pid))
    case Check(pid) =>
      if Holds(w.file, ExpectationOf(w.procs[pid].job.expected)) then At(w, pid, Checked) else Leave(w, pid)
    case StageFile(pid, identity) =>
      At(w, pid, Staged(identity)).(next := if identity < w.next then w.next else identity + 1)
    case Recheck(pid) =>
      if Holds(w.file, ExpectationOf(w.procs[pid].job.expected))
      then At(w, pid, Rechecked(w.procs[pid].stage.temporary)) else Leave(w, pid)
    case Rename(pid) =>
      var (job, temporary) := (w.procs[pid].job, w.procs[pid].stage.temporary);
      At(w, pid, Renamed).(
        file := Some(File(temporary, job.content)), known := temporary + 1, wins := w.wins + [job.expected])
    case Settle(pid, ok) =>
      var left := Leave(w, pid);
      if ok then left.(confirmed := left.confirmed + {w.procs[pid].job.account}) else left
    case GiveUp(pid) => Leave(w, pid)
  }

  /** A run takes the steps the world offers; others change nothing. */
  function Run(w: World, acts: seq<Act>, reuse: bool): World
    decreases |acts|
  {
    if |acts| == 0 then w
    else Run(if Offers(w, acts[0], reuse) then Next(w, acts[0]) else w, acts[1..], reuse)
  }

  // ----- the invariant -----

  predicate FileOk(w: World) {
    && w.known <= w.next
    && match w.file
       case None => w.confirmed == {} && w.wins == []
       case Some(f) => f.identity < w.known && GoodDocument(f.content) && forall a | a in w.confirmed :: a in f.content
  }

  /** A job knows the content of the identity it expects. */
  predicate JobOk(w: World, job: Job) {
    && UniqueIds(job.base) && Added(job.base, job.account) == Ok(job.content)
    && match job.expected
       case None => job.base == []
       case Some(i) => i < w.known && (w.file.Some? && w.file.value.identity == i ==> w.file.value.content == job.base)
  }

  predicate PcOk(w: World, pid: nat) {
    pid in w.procs ==>
      var pc := w.procs[pid];
      && JobOk(w, pc.job)
      && (!pc.stage.Prepared? ==> w.lock == Some(pid))
      && (pc.stage.Staged? || pc.stage.Rechecked? ==> w.known <= pc.stage.temporary < w.next)
      && (pc.stage.Rechecked? ==> Holds(w.file, ExpectationOf(pc.job.expected)))
      && (pc.stage.Renamed? ==> w.file.Some? && pc.job.account in w.file.value.content)
  }

  /** A consumed expectation can never hold again. */
  predicate Spent(w: World, expected: Option<nat>) {
    match expected
    case None => w.file.Some?
    case Some(i) => i < w.known && w.file.Some? && w.file.value.identity != i
  }

  predicate WinsOk(w: World) {
    && (forall e | e in w.wins :: Spent(w, e))
    && forall i, j | 0 <= i < j < |w.wins| :: w.wins[i] != w.wins[j]
  }

  ghost predicate Inv(w: World) {
    FileOk(w) && WinsOk(w) && forall pid :: PcOk(w, pid)
  }

  lemma LoadKeepsInv(w: World, pid: nat, account: Account)
    requires Inv(w) && pid !in w.procs
    ensures Inv(Next(w, Load(pid, account)))
  {
    hide SortedById; hide UniqueIds; hide Added;
    var w' := Next(w, Load(pid, account));
    EmptyIsUnique();
    forall q ensures PcOk(w', q) {
      assert PcOk(w, q);
      if q == pid && q in w'.procs {
        assert JobOk(w', w'.procs[q].job);
      }
    }
  }

  lemma EmptyIsUnique()
    ensures UniqueIds([])
  {
  }

  /** Moves that touch neither the file nor what is known of it. */
  lemma QuietKeepsInv(w: World, act: Act)
    requires Inv(w) && Offers(w, act, false) && !act.Load? && !act.Rename? && !act.Settle?
    ensures Inv(Next(w, act))
  {
    hide GoodDocument; hide UniqueIds; hide Added;
    var w' := Next(w, act);
    assert PcOk(w, act.pid);
    forall q ensures PcOk(w', q) {
      assert PcOk(w, q);
    }
  }

  lemma SettleKeepsInv(w: World, pid: nat, ok: bool)
    requires Inv(w) && Offers(w, Settle(pid, ok), false)
    ensures Inv(Next(w, Settle(pid, ok)))
  {
    hide GoodDocument; hide UniqueIds; hide Added;
    var w' := Next(w, Settle(pid, ok));
    assert PcOk(w, pid);
    forall q ensures PcOk(w', q) {
      assert PcOk(w, q);
    }
  }

  /** The rename: what it replaces is exactly what its process had loaded. */
  lemma RenameKeepsInv(w: World, pid: nat)
    requires Inv(w) && Offers(w, Rename(pid), false)
    ensures Inv(Next(w, Rename(pid)))
  {
    hide GoodDocument; hide UniqueIds; hide Added;
    var w' := Next(w, Rename(pid));
    var job := w.procs[pid].job;
    assert PcOk(w, pid);
    assert job.base == Loaded(w);
    AddedIsGood(job.base, job.account);
    forall q ensures PcOk(w', q) {
      assert PcOk(w, q);
    }
    assert !Spent(w, job.expected);
    forall e | e in w'.wins ensures Spent(w', e) {
      assert e in w.wins || e == job.expected;
    }
  }

  lemma {:induction false} RunKeepsInv(w: World, acts: seq<Act>)
    requires Inv(w)
    ensures Inv(Run(w, acts, false))
    decreases |acts|
  {
    hide Inv; hide Offers; hide Next;
    if |acts| > 0 {
      var act := acts[0];
      if Offers(w, act, false) {
        StepKeepsInv(w, act);
        RunKeepsInv(Next(w, act), acts[1..]);
      } else {
        RunKeepsInv(w, acts[1..]);
      }
    }
  }

  lemma StepKeepsInv(w: World, act: Act)
    requires Inv(w) && Offers(w, act, false)
    ensures Inv(Next(w, act))
  {
    hide Inv; hide Next;
    match act {
      case Load(pid, account) => LoadKeepsInv(w, pid, account);
      case Rename(pid) => RenameKeepsInv(w, pid);
      case Settle(pid, ok) => SettleKeepsInv(w, pid, ok);
      case _ => QuietKeepsInv(w, act);
    }
  }

  /** A directory before anyone has started. */
  predicate Fresh(w: World) {
    && w.lock.None? && w.procs == map[] && w.confirmed == {} && w.wins == [] && w.known == w.next
    && (w.file.Some? ==> w.file.value.identity < w.next && GoodDocument(w.file.value.content))
  }

  /** No lost creations: under any interleaving of any number of processes, with
      failures at any step, every account whose `create` returned Ok is in the
      file, and the file stays sorted, without duplicate ids, within 100. */
  lemma NoLostCreations(w: World, acts: seq<Act>)
    requires Fresh(w)
    ensures var last := Run(w, acts, false);
      && (forall a | a in last.confirmed :: last.file.Some? && a in last.file.value.content)
      && (last.file.Some? ==> GoodDocument(last.file.value.content))
  {
    FreshIsFine(w);
    RunKeepsInv(w, acts);
  }

  /** Among the writers that expect one identity, or the file's absence, at most
      one ever replaces the file. */
  lemma AtMostOneWinner(w: World, acts: seq<Act>, i: nat, j: nat)
    requires Fresh(w)
    requires i < j < |Run(w, acts, false).wins|
    ensures Run(w, acts, false).wins[i] != Run(w, acts, false).wins[j]
  {
    FreshIsFine(w);
    RunKeepsInv(w, acts);
  }

  lemma FreshIsFine(w: World)
    requires Fresh(w)
    ensures Inv(w)
  {
    forall pid ensures PcOk(w, pid) {}
  }

  lemma StepGrows(w: World, act: Act)
    requires Inv(w) && Offers(w, act, false)
    ensures forall a | a in Loaded(w) :: a in Loaded(Next(w, act))
    ensures forall a | a in Loaded(Next(w, act)) ::
      a in Loaded(w) || (act.Rename? && a == w.procs[act.pid].job.account)
  {
    hide GoodDocument; hide UniqueIds; hide Added;
    if act.Rename? {
      var job := w.procs[act.pid].job;
      assert PcOk(w, act.pid);
      assert job.base == Loaded(w);
      AddedIsGood(job.base, job.account);
    }
  }

  /** The accounts of the file, and those some process wants to add, are all from
      a given set. */
  predicate From(w: World, accounts: set<Account>) {
    (forall a | a in Loaded(w) :: a in accounts) && forall pid | pid in w.procs :: w.procs[pid].job.account in accounts
  }

  /** Whom a history asks to create. */
  function Asked(acts: seq<Act>): set<Account> {
    set i | 0 <= i < |acts| && acts[i].Load? :: acts[i].account
  }

  lemma {:induction false} RunGrows(w: World, acts: seq<Act>, accounts: set<Account>)
    requires Inv(w) && From(w, accounts)
    ensures forall a | a in Loaded(w) :: a in Loaded(Run(w, acts, false))
    ensures forall a | a in Loaded(Run(w, acts, false)) :: a in accounts || a in Asked(acts)
    decreases |acts|
  {
    hide Inv; hide Offers; hide Next; hide From; hide Loaded; hide Asked;
    if |acts| > 0 {
      var act, rest := acts[0], acts[1..];
      var next := if Offers(w, act, false) then Next(w, act) else w;
      var more := if act.Load? then accounts + {act.account} else accounts;
      AskedFirst(acts);
      StepFrom(w, act, accounts);
      if Offers(w, act, false) { StepKeepsInv(w, act); }
      RunGrows(next, rest, more);
    } else {
      AllFrom(w, accounts);
    }
  }

  lemma AllFrom(w: World, accounts: set<Account>)
    requires From(w, accounts)
    ensures forall a | a in Loaded(w) :: a in accounts
  {
  }

  lemma AskedFirst(acts: seq<Act>)
    requires |acts| > 0
    ensures Asked(acts) == Asked(acts[1..]) + if acts[0].Load? then {acts[0].account} else {}
  {
    var rest := acts[1..];
    assert forall i | 0 <= i < |rest| :: rest[i] == acts[i + 1];
    assert forall i | 1 <= i < |acts| :: acts[i] == rest[i - 1];
  }

  lemma StepFrom(w: World, act: Act, accounts: set<Account>)
    requires Inv(w) && From(w, accounts)
    ensures var next := if Offers(w, act, false) then Next(w, act) else w;
      && From(next, if act.Load? then accounts + {act.account} else accounts)
      && forall a | a in Loaded(w) :: a in Loaded(next)
  {
    hide Inv; hide Added; hide GoodDocument;
    if Offers(w, act, false) { StepGrows(w, act); }
  }

  /** Nothing the file held is lost either, and nothing is in it that it did not
      hold and nobody asked to create. */
  lemma OnlyCreationsAreAdded(w: World, acts: seq<Act>)
    requires Fresh(w)
    ensures forall a | a in Loaded(w) :: a in Loaded(Run(w, acts, false))
    ensures forall a | a in Loaded(Run(w, acts, false)) :: a in Loaded(w) || a in Asked(acts)
  {
    hide Inv;
    FreshIsFine(w);
    var accounts := set a | a in Loaded(w);
    RunGrows(w, acts, accounts);
  }

  // ----- when identities are reused -----

  lemma {:induction false} RunConcat(w: World, a: seq<Act>, b: seq<Act>, reuse: bool)
    ensures Run(w, a + b, reuse) == Run(Run(w, a, reuse), b, reuse)
    decreases |a|
  {
    hide Offers; hide Next;
    if |a| == 0 {
      assert a + b == b;
    } else {
      assert (a + b)[1..] == a[1..] + b;
      RunConcat(if Offers(w, a[0], reuse) then Next(w, a[0]) else w, a[1..], b, reuse);
    }
  }

  /** What is left to do for a process that has loaded. */
  function Saving(pid: nat, identity: nat): seq<Act> {
    [Lock(pid), Check(pid), StageFile(pid, identity)] + [Recheck(pid), Rename(pid), Settle(pid, true)]
  }

  /** A loaded process that is not disturbed saves, if its expectation holds. */
  lemma SaveRuns(w: World, pid: nat, identity: nat)
    requires pid in w.procs && w.procs[pid].stage.Prepared? && w.lock.None?
    requires Holds(w.file, ExpectationOf(w.procs[pid].job.expected)) && IdentityOf(w) != Some(identity)
    ensures var job := w.procs[pid].job;
      Run(w, Saving(pid, identity), true) == w.(
        file := Some(File(identity, job.content)), next := if identity < w.next then w.next else identity + 1,
        known := identity + 1, procs := w.procs - {pid}, confirmed := w.confirmed + {job.account},
        wins := w.wins + [job.expected])
  {
    hide Run; hide Offers; hide Next;
    var staged := StagedBy(w, pid, identity);
    RunConcat(w, [Lock(pid), Check(pid), StageFile(pid, identity)],
      [Recheck(pid), Rename(pid), Settle(pid, true)], true);
    StagingRuns(w, pid, identity);
    CommittingRuns(staged, pid, identity);
    assert staged.procs - {pid} == w.procs - {pid};
  }

  function StagedBy(w: World, pid: nat, identity: nat): World
    requires pid in w.procs
  {
    At(w, pid, Staged(identity)).(lock := Some(pid), next := if identity < w.next then w.next else identity + 1)
  }

  lemma StagingRuns(w: World, pid: nat, identity: nat)
    requires pid in w.procs && w.procs[pid].stage.Prepared? && w.lock.None?
    requires Holds(w.file, ExpectationOf(w.procs[pid].job.expected)) && IdentityOf(w) != Some(identity)
    ensures Run(w, [Lock(pid), Check(pid), StageFile(pid, identity)], true) == StagedBy(w, pid, identity)
  {
    hide Run;
    ThreeRuns(w, Lock(pid), Check(pid), StageFile(pid, identity));
  }

  lemma CommittingRuns(w: World, pid: nat, identity: nat)
    requires pid in w.procs && w.procs[pid].stage == Staged(identity) && w.lock == Some(pid)
    requires Holds(w.file, ExpectationOf(w.procs[pid].job.expected))
    ensures var job := w.procs[pid].job;
      Run(w, [Recheck(pid), Rename(pid), Settle(pid, true)], true) == w.(
        file := Some(File(identity, job.content)), known := identity + 1, lock := None,
        procs := w.procs - {pid}, confirmed := w.confirmed + {job.account}, wins := w.wins + [job.expected])
  {
    hide Run;
    ThreeRuns(w, Recheck(pid), Rename(pid), Settle(pid, true));
    var two := Took(Took(w, Recheck(pid)), Rename(pid));
    assert two.procs - {pid} == w.procs - {pid};
  }

  lemma ThreeRuns(w: World, a: Act, b: Act, c: Act)
    ensures Run(w, [a, b, c], true) == Took(Took(Took(w, a), b), c)
  {
    hide Offers; hide Next;
    assert [a, b, c][1..] == [b, c] && [b, c][1..] == [c] && [c][1..] == [];
    assert Run(Took(Took(w, a), b), [c], true) == Took(Took(Took(w, a), b), c);
    assert Run(Took(w, a), [b, c], true) == Run(Took(Took(w, a), b), [c], true);
  }

  function Took(w: World, act: Act): World { if Offers(w, act, true) then Next(w, act) else w }

  /** The files of the run below: one account, and others added one at a time. */
  lemma AddedFour(a: Account, b: Account, c: Account, d: Account)
    requires a.id != b.id && a.id != c.id && a.id != d.id && b.id != c.id && b.id != d.id && c.id != d.id
    ensures Added([a], c).Ok? && b !in Added([a], c).value && c in Added([a], c).value
    ensures Added([a], b).Ok? && Added(Added([a], b).value, d).Ok?
  {
    assert UniqueIds([a]);
    AddedIsGood([a], b);
    AddedIsGood([a], c);
    var two := Added([a], b).value;
    assert |two| == 2;
    forall i | 0 <= i < |two| ensures two[i].id != d.id {
      assert two[i] in two;
    }
  }

  /** Identities must not be reused. In this run of four creations the stale
      writer loads first; two others then replace the file, the second under the
      identity it had at first; the stale writer's checks pass, all four creations
      that ran to their end returned Ok, and two accounts are gone. */
  lemma ReusedIdentityLosesAccounts(a: Account, b: Account, c: Account, d: Account)
    requires a.id != b.id && a.id != c.id && a.id != d.id && b.id != c.id && b.id != d.id && c.id != d.id
    ensures exists w, acts ::
      && Fresh(w) && w.file == Some(File(0, [a]))
      && var last := Run(w, acts, true);
         && last.confirmed == {b, c, d} && last.file.Some?
         && c in last.file.value.content && b !in last.file.value.content
  {
    hide Run; hide Saving; hide Offers; hide Next; hide Added; hide GoodDocument;
    AddedFour(a, b, c, d);
    var w := World(Some(File(0, [a])), 1, 1, None, map[], {}, []);
    assert Fresh(w) by { OneIsGood(a); }
    var w1 := Run(w, [Load(1, c)], true);
    LoadRuns(w, 1, c);
    var w2 := Run(w1, [Load(2, b)] + Saving(2, 1), true);
    CreateRuns(w1, 2, b, 1);
    var w3 := Run(w2, [Load(3, d)] + Saving(3, 0), true);
    CreateRuns(w2, 3, d, 0);
    var last := Run(w3, Saving(1, 2), true);
    SaveRuns(w3, 1, 2);
    assert w3.confirmed == {b, d};
    assert last.confirmed == {b, c, d};
    var acts := Joined(w, [Load(1, c)], [Load(2, b)] + Saving(2, 1), [Load(3, d)] + Saving(3, 0), Saving(1, 2));
    assert Run(w, acts, true) == last;
  }

  lemma OneIsGood(a: Account)
    ensures GoodDocument([a])
  {
  }

  lemma Joined(w: World, a: seq<Act>, b: seq<Act>, c: seq<Act>, d: seq<Act>) returns (acts: seq<Act>)
    ensures Run(w, acts, true) == Run(Run(Run(Run(w, a, true), b, true), c, true), d, true)
  {
    hide Run;
    acts := a + b + c + d;
    RunConcat(w, a + b + c, d, true);
    RunConcat(w, a + b, c, true);
    RunConcat(w, a, b, true);
  }

  lemma LoadRuns(w: World, pid: nat, account: Account)
    requires pid !in w.procs && Added(Loaded(w), account).Ok?
    ensures Run(w, [Load(pid, account)], true) == w.(
      procs := w.procs[pid := Pc(Job(account, Loaded(w), IdentityOf(w), Added(Loaded(w), account).value), Prepared)])
  {
    assert [Load(pid, account)][1..] == [];
  }

  /** A creation that is not disturbed. */
  lemma CreateRuns(w: World, pid: nat, account: Account, identity: nat)
    requires pid !in w.procs && w.lock.None? && Added(Loaded(w), account).Ok? && IdentityOf(w) != Some(identity)
    ensures Run(w, [Load(pid, account)] + Saving(pid, identity), true) == w.(
      file := Some(File(identity, Added(Loaded(w), account).value)),
      next := if identity < w.next then w.next else identity + 1, known := identity + 1,
      confirmed := w.confirmed + {account}, wins := w.wins + [IdentityOf(w)])
  {
    var loaded := Run(w, [Load(pid, account)], true);
    LoadRuns(w, pid, account);
    RunConcat(w, [Load(pid, account)], Saving(pid, identity), true);
    SaveRuns(loaded, pid, identity);
    assert loaded.procs - {pid} == w.procs;
  }
}
