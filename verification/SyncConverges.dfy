/** Repeated incremental syncs of a server at rest: how many there are, what they
    leave, and what a further one does. */
module SyncConverges {
  import opened Basics
  import opened SyncIndex
  import opened SyncRuns

  function AboveSet(present: set<Uid>, h: u32): set<Uid> { set u | u in present && h < u }

  /** The mailbox has a cursor `h` of the server's own UIDVALIDITY. */
  predicate AtCursor(db: Db, scope: Scope, r: Remote, h: u32) {
    && IndexOk(db, scope) && RemoteOk(r)
    && scope in db.states && db.states[scope].validity == r.validity && db.states[scope].highest == Some(h)
  }

  function Items(s: seq<Uid>): (r: set<Uid>)
    ensures forall u :: u in r <==> u in s
  {
    if |s| == 0 then {}
    else
      assert s == [s[0]] + s[1..];
      {s[0]} + Items(s[1..])
  }

  lemma {:induction false} DistinctSize(s: seq<Uid>)
    requires Distinct(s)
    ensures |Items(s)| == |s|
  {
    if |s| > 0 {
      DistinctSize(s[1..]);
      assert s[0] !in s[1..];
    }
  }

  lemma SizeOfFound(s: seq<Uid>, items: set<Uid>)
    requires Distinct(s) && forall u :: u in s <==> u in items
    ensures |s| == |items|
  {
    DistinctSize(s);
    assert Items(s) == items;
  }

  lemma InAboveSet(present: set<Uid>, h: u32, u: Uid)
    ensures u in AboveSet(present, h) <==> u in present && h < u
  {
  }

  lemma HasMoreIsOverflow(db: Db, scope: Scope, limit: nat, refresh: bool, s: Session)
    requires s.validity.Some? && 1 <= limit <= 500
    ensures var after := After(db, scope, refresh, s.validity.value);
      ReportsMore(SyncMailbox(db, scope, limit, refresh, s).1, after != Some(U32_MAX) && |s.found| > limit)
  {
    hide Window; hide Envelopes; hide Upserted; hide StateAfter;
  }

  /** While something lies above the cursor, `n:*` returns just that. */
  lemma FoundAbove(r: Remote, h: u32, s: Session)
    requires Answers(s, Some(h), r, r) && AboveSet(r.present, h) != {}
    ensures |s.found| == |AboveSet(r.present, h)| && forall u :: u in s.found <==> u in AboveSet(r.present, h)
  {
    var star := LastMessage(r.present);
    forall u ensures u in s.found <==> u in AboveSet(r.present, h) {
      MatchesAbove(u, h, r.present, star);
    }
    SizeOfFound(s.found, AboveSet(r.present, h));
  }

  /** When nothing does, it still returns the last message, and only that. */
  lemma FoundLast(r: Remote, h: u32, s: Session)
    requires Answers(s, Some(h), r, r) && AboveSet(r.present, h) == {}
    ensures |s.found| <= 1 && (forall u :: u in s.found <==> IsMax(u, r.present))
  {
    if r.present == {} {
      forall u ensures u !in s.found { assert !Matches(u, Some(h), r.present); }
      SizeOfFound(s.found, {});
    } else {
      var star := LastMessage(r.present);
      forall u ensures u in s.found <==> u in {star} {
        MatchesAbove(u, h, r.present, star);
        InAboveSet(r.present, h, u);
      }
      SizeOfFound(s.found, {star});
    }
  }

  /** What is left above the cursor after a batch, and what was indexed. */
  ghost predicate Advanced(db: Db, next: Db, scope: Scope, r: Remote, h: u32, h': u32) {
    && AtCursor(next, scope, r, h') && h <= h'
    && forall u: Uid :: Has(next, scope, r.validity, u) <==>
      Has(db, scope, r.validity, u) || (u in r.present && h < u <= h')
  }

  /** One batch takes the `limit` smallest UIDs above the cursor, and reports
      more exactly when there are more. */
  lemma OneBatch(db: Db, scope: Scope, r: Remote, h: u32, limit: nat, s: Session) returns (h': u32)
    requires AtCursor(db, scope, r, h) && 1 <= limit <= 500
    requires Answers(s, Some(h), r, r) && AboveSet(r.present, h) != {}
    ensures var (next, report) := SyncMailbox(db, scope, limit, false, s);
      Advanced(db, next, scope, r, h, h') && report.Some?
        && (report.value.hasMore <==> |AboveSet(r.present, h)| > limit)
    ensures |AboveSet(r.present, h')| ==
      if |AboveSet(r.present, h)| <= limit then 0 else |AboveSet(r.present, h)| - limit
  {
    hide Window; hide IndexOk; hide SyncMailbox; hide Answers;
    var next := SyncMailbox(db, scope, limit, false, s).0;
    var w := Window(s.found, limit, true);
    assert s.validity == Some(r.validity) && Distinct(s.found) && s.answered == r.present by { AnswersFacts(s, h, r); }
    FoundAbove(r, h, s);
    WindowIsExtreme(s.found, limit, true);
    HasMoreIsOverflow(db, scope, limit, false, s);
    assert h < U32_MAX by { var u :| u in AboveSet(r.present, h); }
    h' := BatchReaches(db, scope, r, h, limit, s);
    DistinctSize(w);
    assert AboveSet(r.present, h') == AboveSet(r.present, h) - Items(w);
    assert Items(w) <= AboveSet(r.present, h);
  }

  lemma AnswersFacts(s: Session, h: u32, r: Remote)
    requires Answers(s, Some(h), r, r)
    ensures s.validity == Some(r.validity) && Distinct(s.found) && s.answered == r.present
  {
  }

  /** The new cursor is the largest UID of the window, and the window is just
      what lies between the two. */
  lemma BatchReaches(db: Db, scope: Scope, r: Remote, h: u32, limit: nat, s: Session) returns (h': u32)
    requires AtCursor(db, scope, r, h) && 1 <= limit <= 500 && h < U32_MAX
    requires s.validity == Some(r.validity) && Distinct(s.found) && s.answered == r.present && s.found != []
    requires forall u :: u in s.found <==> u in AboveSet(r.present, h)
    ensures var w := Window(s.found, limit, true); forall u: Uid :: u in w <==> u in r.present && h < u <= h'
    ensures Advanced(db, SyncMailbox(db, scope, limit, false, s).0, scope, r, h, h')
  {
    hide Window; hide IndexOk; hide SyncMailbox;
    var next := SyncMailbox(db, scope, limit, false, s).0;
    var w := Window(s.found, limit, true);
    WindowIsExtreme(s.found, limit, true);
    SyncStores(db, scope, limit, false, s);
    IndexFacts(db, scope);
    IndexFacts(next, scope);
    assert Asked(db, scope, limit, false, s) == w;
    assert w[0] in w && Has(next, scope, r.validity, w[0]);
    h' := next.states[scope].highest.value;
    assert Has(next, scope, r.validity, h');
    assert Has(next, scope, r.validity, h) by { assert Has(db, scope, r.validity, h); }
    forall u: Uid ensures u in w <==> u in r.present && h < u <= h' {
      if u in w { assert Has(next, scope, r.validity, u); }
      if u in r.present && h < u <= h' {
        InAboveSet(r.present, h, u);
        assert h' in w;
      }
    }
  }

  // ----- repeated syncs -----

  /** The results of successive non-refreshing syncs, oldest first. */
  function Syncs(db: Db, scope: Scope, limit: nat, sessions: seq<Session>): (Db, seq<Option<Report>>)
    decreases |sessions|
  {
    if |sessions| == 0 then (db, [])
    else
      var (next, report) := SyncMailbox(db, scope, limit, false, sessions[0]);
      var rest := Syncs(next, scope, limit, sessions[1..]);
      (rest.0, [report] + rest.1)
  }

  /** Every session is answered by the same server. */
  ghost predicate AnsweredAll(db: Db, scope: Scope, limit: nat, sessions: seq<Session>, r: Remote)
    decreases |sessions|
  {
    |sessions| > 0 ==>
      && Answers(sessions[0], After(db, scope, false, r.validity), r, r)
      && AnsweredAll(SyncMailbox(db, scope, limit, false, sessions[0]).0, scope, limit, sessions[1..], r)
  }

  predicate ReportsMore(r: Option<Report>, more: bool) { r.Some? && r.value.hasMore == more }

  /** Convergence: with N >= 1 UIDs above the cursor and no change on the server,
      exactly ceil(N / limit) syncs are needed. All but the last report more, the
      last does not, and then everything above the old cursor is indexed and
      nothing else was added. */
  lemma {:induction false} SyncsConverge(
    db: Db, scope: Scope, r: Remote, h: u32, limit: nat, sessions: seq<Session>) returns (h': u32)
    requires AtCursor(db, scope, r, h) && 1 <= limit <= 500
    requires AnsweredAll(db, scope, limit, sessions, r)
    requires AboveSet(r.present, h) != {}
    requires (|sessions| - 1) * limit < |AboveSet(r.present, h)| <= |sessions| * limit
    ensures var (last, reports) := Syncs(db, scope, limit, sessions);
      && |reports| == |sessions| && (forall i | 0 <= i < |reports| :: ReportsMore(reports[i], i < |reports| - 1))
      && Advanced(db, last, scope, r, h, h') && AboveSet(r.present, h') == {}
      && Has(last, scope, r.validity, h') && (exists star | star in r.present :: IsMax(star, r.present) && star == h')
    decreases |sessions|
  {
    hide SyncMailbox; hide IndexOk; hide Answers;
    assert |sessions| > 0;
    var n := |AboveSet(r.present, h)|;
    var (next, report) := SyncMailbox(db, scope, limit, false, sessions[0]);
    var mid := OneBatch(db, scope, r, h, limit, sessions[0]);
    var rest := sessions[1..];
    if |sessions| == 1 {
      h' := mid;
      assert Syncs(next, scope, limit, rest) == (next, []);
      assert AboveSet(r.present, h') == {};
      LastIsCursor(next, scope, r, h, h', db);
    } else {
      assert (|sessions| - 1) * limit == (|rest| - 1) * limit + limit && |sessions| * limit == |rest| * limit + limit;
      Positive(|rest|, limit);
      assert n > limit;
      h' := SyncsConverge(next, scope, r, mid, limit, rest);
      var tail := Syncs(next, scope, limit, rest).1;
      assert Syncs(db, scope, limit, sessions).1 == [report] + tail;
      forall i | 0 <= i < |sessions| ensures ReportsMore(([report] + tail)[i], i < |sessions| - 1) {
        if i > 0 { assert ReportsMore(tail[i - 1], i - 1 < |tail| - 1); }
      }
    }
  }

  lemma Positive(a: nat, b: nat)
    requires a >= 1 && b >= 1
    ensures a * b >= b
  {
  }

  /** Once nothing is above it, an advanced cursor is the last message itself. */
  lemma LastIsCursor(next: Db, scope: Scope, r: Remote, h: u32, h': u32, db: Db)
    requires Advanced(db, next, scope, r, h, h') && AtCursor(db, scope, r, h)
    requires AboveSet(r.present, h') == {} && AboveSet(r.present, h) != {}
    ensures h' != 0 && h' in r.present && IsMax(h', r.present) && Has(next, scope, r.validity, h')
  {
    hide IndexOk;
    IndexFacts(db, scope);
    IndexFacts(next, scope);
    var u :| u in AboveSet(r.present, h);
    InAboveSet(r.present, h', u);
    assert Has(next, scope, r.validity, h');
    assert !Has(db, scope, r.validity, h');
    forall v | v in r.present ensures v <= h' {
      InAboveSet(r.present, h', v);
    }
  }

  /** A sync with nothing above the cursor moves no cursor and reports no more;
      because `n:*` still returns the last message, it leaves the indexed UIDs as
      they are exactly when the server has no message, or the last one is already
      indexed, or the cursor is the largest UID there can be. */
  lemma IdleSync(db: Db, scope: Scope, r: Remote, h: u32, limit: nat, s: Session)
    requires AtCursor(db, scope, r, h) && 1 <= limit <= 500
    requires Answers(s, Some(h), r, r) && AboveSet(r.present, h) == {}
    ensures var (next, report) := SyncMailbox(db, scope, limit, false, s);
      && AtCursor(next, scope, r, h) && ReportsMore(report, false)
      && ((forall u: Uid :: Has(next, scope, r.validity, u) <==> Has(db, scope, r.validity, u)) <==>
            h == U32_MAX || forall star | star in r.present && IsMax(star, r.present) ::
              Has(db, scope, r.validity, star))
  {
    hide Window; hide IndexOk; hide Applied; hide Matches;
    var next := SyncMailbox(db, scope, limit, false, s).0;
    FoundLast(r, h, s);
    WindowIsExtreme(s.found, limit, true);
    WindowIsExtreme([], limit, true);
    SyncStores(db, scope, limit, false, s);
    IndexFacts(db, scope);
    IndexFacts(next, scope);
    HasMoreIsOverflow(db, scope, limit, false, s);
    assert After(db, scope, false, r.validity) == Some(h);
    assert Has(db, scope, r.validity, h) && Has(next, scope, r.validity, h);
    var h' := next.states[scope].highest.value;
    assert Has(next, scope, r.validity, h');
    assert h' == h by {
      if h' > h {
        assert h' in s.found;
        InAboveSet(r.present, h, h');
      }
    }
    forall u: Uid
      ensures Has(next, scope, r.validity, u) <==>
        Has(db, scope, r.validity, u) || (h != U32_MAX && u in r.present && IsMax(u, r.present))
    {
      assert u in Asked(db, scope, limit, false, s) <==> h != U32_MAX && u in s.found;
    }
  }

  /** So after convergence a further sync changes neither the indexed UIDs nor
      the cursor. */
  lemma ConvergedIsStable(db: Db, scope: Scope, r: Remote, h: u32, limit: nat, s: Session)
    requires AtCursor(db, scope, r, h) && 1 <= limit <= 500
    requires h != 0 && h in r.present && IsMax(h, r.present) && Answers(s, Some(h), r, r)
    ensures var (next, report) := SyncMailbox(db, scope, limit, false, s);
      && AtCursor(next, scope, r, h) && ReportsMore(report, false)
      && forall u: Uid :: Has(next, scope, r.validity, u) <==> Has(db, scope, r.validity, u)
  {
    hide IndexOk; hide SyncMailbox; hide Answers;
    assert AboveSet(r.present, h) == {};
    IdleSync(db, scope, r, h, limit, s);
    IndexFacts(db, scope);
  }

  // ----- an idle sync that indexes an older message -----

  /** Two messages, of which a first sync of one takes the newer; it is expunged. */
  function TwoMessages(): Remote { Remote(1, {1, 2}, {1, 2}) }

  function FirstSession(content: Uid -> string): Session { Session(Some(1), [2, 1], {1, 2}, content, None) }

  function IdleSession(content: Uid -> string): Session { Session(Some(1), [1], {1}, content, None) }

  /** This happens: after these three events the cursor is where it was after the
      first, nothing on the server is above it, and the older message, which the
      first sync did not take, has been indexed by the last. */
  lemma OlderMessageIsIndexed(scope: Scope, content: Uid -> string)
    ensures var start := World(Db(map[], map[]), TwoMessages(), None);
      var first := Sync(1, false, FirstSession(content), []);
      var expunge := ServerChange(Expunge(2));
      var idle := Sync(1, false, IdleSession(content), []);
      var before, after := Run(start, scope, [first, expunge]), Run(start, scope, [first, expunge, idle]);
      && Possible(start, scope, first) && Possible(before, scope, idle)
      && AtCursor(before.db, scope, before.remote, 2) && AtCursor(after.db, scope, after.remote, 2)
      && AboveSet(before.remote.present, 2) == {}
      && !Has(before.db, scope, 1, 1) && Has(after.db, scope, 1, 1)
  {
    hide Run; hide SyncMailbox; hide IndexOk; hide Answers;
    var start := World(Db(map[], map[]), TwoMessages(), None);
    var first, expunge := Sync(1, false, FirstSession(content), []), ServerChange(Expunge(2));
    var idle := Sync(1, false, IdleSession(content), []);
    FirstAnswers(scope, content);
    var one := Took(start, scope, first);
    FirstSyncTakesNewer(scope, content);
    var two := Took(one, scope, expunge);
    assert two.remote == Remote(1, {1, 2}, {1}) by { assert {1, 2} - {2} == {1}; }
    IdleAnswers(content, two.remote);
    var three := Took(two, scope, idle);
    TwoEvents(start, scope, first, expunge, idle);
    assert AtCursor(two.db, scope, two.remote, 2);
    assert AboveSet(two.remote.present, 2) == {};
    IdleSync(two.db, scope, two.remote, 2, 1, IdleSession(content));
    IdleTakesOlder(two.db, scope, two.remote, content);
  }

  lemma TwoEvents(w: World, scope: Scope, a: Event, b: Event, c: Event)
    ensures Run(w, scope, [a, b]) == Took(Took(w, scope, a), scope, b)
    ensures Run(w, scope, [a, b, c]) == Took(Took(Took(w, scope, a), scope, b), scope, c)
  {
    hide Took;
    assert [a, b][1..] == [b] && [b][1..] == [] && [a, b, c][1..] == [b, c] && [b, c][1..] == [c] && [c][1..] == [];
    var one := Took(w, scope, a);
    var two := Took(one, scope, b);
    assert Run(two, scope, []) == two && Run(one, scope, [b]) == two;
    assert Run(two, scope, [c]) == Took(two, scope, c);
    assert Run(one, scope, [b, c]) == Run(two, scope, [c]);
  }

  lemma FirstAnswers(scope: Scope, content: Uid -> string)
    ensures Answers(FirstSession(content), None, TwoMessages(), TwoMessages())
    ensures After(Db(map[], map[]), scope, false, 1) == None
  {
  }

  lemma FirstSyncTakesNewer(scope: Scope, content: Uid -> string)
    ensures var next := SyncMailbox(Db(map[], map[]), scope, 1, false, FirstSession(content)).0;
      && AtCursor(next, scope, TwoMessages(), 2) && !Has(next, scope, 1, 1)
  {
    hide SyncMailbox; hide Window; hide IndexOk;
    var db, s := Db(map[], map[]), FirstSession(content);
    assert IndexOk(db, scope) by { NothingStored(scope); }
    SyncStores(db, scope, 1, false, s);
    var next := SyncMailbox(db, scope, 1, false, s).0;
    WindowIsExtreme(s.found, 1, false);
    var w := Window(s.found, 1, false);
    assert w[0] in w && w[0] in s.found;
    var newer: Uid := 2;
    assert s.found[0] == newer && newer in s.found;
    assert newer in w;
    assert forall u :: u in w <==> u == 2;
    assert Asked(db, scope, 1, false, s) == w;
    assert Has(next, scope, 1, 2) && !Has(next, scope, 1, 1);
    IndexFacts(next, scope);
    var h := next.states[scope].highest.value;
    assert Has(next, scope, 1, h);
    assert h == 2;
  }

  lemma NothingStored(scope: Scope)
    ensures IndexOk(Db(map[], map[]), scope)
  {
  }

  lemma IdleAnswers(content: Uid -> string, r: Remote)
    requires r == Remote(1, {1, 2}, {1})
    ensures Answers(IdleSession(content), Some(2), r, r)
  {
    var one: Uid := 1;
    assert IsMax(one, r.present);
    forall u ensures u in [one] <==> Matches(u, Some(2), r.present) {
      MatchesAbove(u, 2, r.present, one);
    }
  }

  lemma IdleTakesOlder(db: Db, scope: Scope, r: Remote, content: Uid -> string)
    requires AtCursor(db, scope, r, 2) && r.validity == 1
    ensures Has(SyncMailbox(db, scope, 1, false, IdleSession(content)).0, scope, 1, 1)
  {
    hide SyncMailbox; hide Window; hide IndexOk;
    var s := IdleSession(content);
    SyncStores(db, scope, 1, false, s);
    WindowIsExtreme(s.found, 1, true);
    var one: Uid := 1;
    assert one in s.found && one in Asked(db, scope, 1, false, s);
  }
}
