/** The account configuration file: loading, adding an account, and replacing the
    file only if it is still the one that was loaded. */
module ConfigFile {
  import opened Basics

  const MAX_ACCOUNTS := 100

  datatype Account = Account(id: string, settings: string)

  type Document = seq<Account>

  // ----- the order of account ids -----

  predicate IdLe(a: string, b: string) {
    |a| == 0 || (|b| > 0 && (a[0] < b[0] || (a[0] == b[0] && IdLe(a[1..], b[1..]))))
  }

  lemma {:induction false} IdLeTotal(a: string, b: string)
    ensures IdLe(a, b) || IdLe(b, a)
    ensures IdLe(a, b) && IdLe(b, a) ==> a == b
  {
    if |a| > 0 && |b| > 0 && a[0] == b[0] {
      IdLeTotal(a[1..], b[1..]);
      assert a == [a[0]] + a[1..] && b == [b[0]] + b[1..];
    }
  }

  lemma {:induction false} IdLeTransitive(a: string, b: string, c: string)
    requires IdLe(a, b) && IdLe(b, c)
    ensures IdLe(a, c)
  {
    if |a| > 0 && a[0] == b[0] && b[0] == c[0] {
      IdLeTransitive(a[1..], b[1..], c[1..]);
    }
  }

  /** The first difference of two ids is at `k`, and `a` has the smaller character. */
  predicate SmallerAt(a: string, b: string, k: nat) {
    k < |a| && k < |b| && a[..k] == b[..k] && a[k] < b[k]
  }

  lemma SmallerLater(a: string, b: string, k: nat)
    requires |a| > 0 && |b| > 0 && a[0] == b[0]
    ensures SmallerAt(a, b, k + 1) <==> SmallerAt(a[1..], b[1..], k)
    ensures !SmallerAt(a, b, 0)
  {
    if k < |a| - 1 && k < |b| - 1 {
      assert a[..k + 1] == [a[0]] + a[1..][..k] && b[..k + 1] == [b[0]] + b[1..][..k];
      assert a[..k + 1][1..] == a[1..][..k] && b[..k + 1][1..] == b[1..][..k];
    }
  }

  /** The order is lexicographic: one id is a prefix of the other, or they differ
      first at a place where the smaller one has the smaller character. */
  lemma {:induction false} IdLeIsLexicographic(a: string, b: string)
    ensures IdLe(a, b) <==> a <= b || exists k: nat :: SmallerAt(a, b, k)
    decreases |a|
  {
    hide SmallerAt;
    if |a| == 0 {
    } else if |b| == 0 || a[0] != b[0] {
      HeadsDiffer(a, b);
    } else {
      IdLeIsLexicographic(a[1..], b[1..]);
      assert a == [a[0]] + a[1..] && b == [b[0]] + b[1..];
      if k: nat :| SmallerAt(a[1..], b[1..], k) { SmallerLater(a, b, k); }
      if k: nat :| SmallerAt(a, b, k) {
        SmallerLater(a, b, if k == 0 then 0 else k - 1);
      }
    }
  }

  lemma HeadsDiffer(a: string, b: string)
    requires |a| > 0 && (|b| == 0 || a[0] != b[0])
    ensures !(a <= b) && (IdLe(a, b) <==> exists k: nat :: SmallerAt(a, b, k))
  {
    if |b| > 0 && a[0] < b[0] { assert SmallerAt(a, b, 0); }
    assert forall k: nat | 0 < k < |a| :: a[..k][0] == a[0];
    assert forall k: nat | 0 < k < |b| :: b[..k][0] == b[0];
  }

  predicate SortedById(d: Document) {
    forall i, j | 0 <= i < j < |d| :: IdLe(d[i].id, d[j].id)
  }

  predicate UniqueIds(d: Document) {
    forall i, j | 0 <= i < j < |d| :: d[i].id != d[j].id
  }

  function InsertById(a: Account, d: Document): (r: Document)
    ensures multiset(r) == multiset(d) + multiset{a} && |r| == |d| + 1
  {
    if |d| == 0 then [a]
    else if IdLe(a.id, d[0].id) then [a] + d
    else
      assert d == [d[0]] + d[1..];
      [d[0]] + InsertById(a, d[1..])
  }

  /** `sort_by(|left, right| left.id.cmp(&right.id))`. */
  function SortById(d: Document): (r: Document)
    ensures multiset(r) == multiset(d) && |r| == |d|
  {
    if |d| == 0 then []
    else
      assert d == [d[0]] + d[1..];
      InsertById(d[0], SortById(d[1..]))
  }

  lemma {:induction false} InsertKeepsOrder(a: Account, d: Document)
    requires SortedById(d)
    ensures SortedById(InsertById(a, d))
  {
    if |d| > 0 {
      if IdLe(a.id, d[0].id) {
        forall j | 0 <= j < |d| ensures IdLe(a.id, d[j].id) {
          if j > 0 { IdLeTransitive(a.id, d[0].id, d[j].id); }
        }
      } else {
        var rest := InsertById(a, d[1..]);
        InsertKeepsOrder(a, d[1..]);
        IdLeTotal(a.id, d[0].id);
        forall j | 0 <= j < |rest| ensures IdLe(d[0].id, rest[j].id) {
          assert rest[j] in multiset(rest);
          assert rest[j] in d[1..] || rest[j] == a;
        }
      }
    }
  }

  lemma {:induction false} SortSorts(d: Document)
    ensures SortedById(SortById(d))
  {
    if |d| > 0 {
      SortSorts(d[1..]);
      InsertKeepsOrder(d[0], SortById(d[1..]));
    }
  }

  // ----- adding an account -----

  predicate HasId(d: Document, id: string) { exists i | 0 <= i < |d| :: d[i].id == id }

  /** What `create` makes of a loaded document. */
  function Added(d: Document, a: Account): Result<Document> {
    var _ :- Need(!HasId(d, a.id), AccountAlreadyExists);
    var _ :- Need(|d| < MAX_ACCOUNTS, ResourceLimit);
    Ok(SortById(d + [a]))
  }

  /** An account is refused exactly when its id is taken, or else when there are a
      hundred already. */
  lemma AddedExactly(d: Document, a: Account)
    ensures Added(d, a) == Err(AccountAlreadyExists) <==> exists x | x in d :: x.id == a.id
    ensures Added(d, a) == Err(ResourceLimit) <==> (forall x | x in d :: x.id != a.id) && |d| >= 100
    ensures Added(d, a).Ok? <==> (forall x | x in d :: x.id != a.id) && |d| < 100
    ensures Added(d, a).Ok? ==> multiset(Added(d, a).value) == multiset(d) + multiset{a}
  {
    assert forall i | 0 <= i < |d| :: d[i] in d;
  }

  predicate GoodDocument(d: Document) { SortedById(d) && UniqueIds(d) && |d| <= MAX_ACCOUNTS }

  /** Uniqueness is a matter of counting. */
  function IdCount(d: Document, id: string): nat {
    if |d| == 0 then 0 else (if d[0].id == id then 1 else 0) + IdCount(d[1..], id)
  }

  lemma {:induction false} CountedOnce(d: Document)
    ensures UniqueIds(d) <==> forall a | a in d :: IdCount(d, a.id) <= 1
  {
    if |d| > 0 {
      hide UniqueIds; hide HasId;
      var rest := d[1..];
      CountedOnce(rest);
      UniqueStep(d);
      CountIsPresence(rest, d[0].id);
      assert d == [d[0]] + rest;
      if forall a | a in d :: IdCount(d, a.id) <= 1 {
        assert d[0] in d;
        forall a | a in rest ensures IdCount(rest, a.id) <= 1 { assert a in d; }
      }
      if UniqueIds(d) {
        forall a | a in d ensures IdCount(d, a.id) <= 1 {
          if a in rest { OtherId(rest, a, d[0].id); }
        }
      }
    }
  }

  lemma UniqueStep(d: Document)
    requires |d| > 0
    ensures UniqueIds(d) <==> UniqueIds(d[1..]) && !HasId(d[1..], d[0].id)
  {
    var rest := d[1..];
    assert forall i | 0 <= i < |rest| :: rest[i] == d[i + 1];
    assert forall i | 1 <= i < |d| :: d[i] == rest[i - 1];
  }

  lemma {:induction false} CountIsPresence(d: Document, id: string)
    ensures IdCount(d, id) == 0 <==> !HasId(d, id)
  {
    if |d| > 0 {
      CountIsPresence(d[1..], id);
      if HasId(d[1..], id) {
        var i :| 0 <= i < |d[1..]| && d[1..][i].id == id;
        assert d[i + 1].id == id;
      }
      if HasId(d, id) && d[0].id != id {
        var i :| 0 <= i < |d| && d[i].id == id;
        assert d[1..][i - 1].id == id;
      }
    }
  }

  lemma {:induction false} InsertCounts(a: Account, d: Document, id: string)
    ensures IdCount(InsertById(a, d), id) == IdCount(d, id) + if a.id == id then 1 else 0
  {
    if |d| > 0 && !IdLe(a.id, d[0].id) {
      InsertCounts(a, d[1..], id);
    }
  }

  lemma {:induction false} SortCounts(d: Document, id: string)
    ensures IdCount(SortById(d), id) == IdCount(d, id)
  {
    if |d| > 0 {
      SortCounts(d[1..], id);
      InsertCounts(d[0], SortById(d[1..]), id);
    }
  }

  lemma {:induction false} AppendCounts(d: Document, a: Account, id: string)
    ensures IdCount(d + [a], id) == IdCount(d, id) + if a.id == id then 1 else 0
  {
    if |d| > 0 {
      assert (d + [a])[1..] == d[1..] + [a];
      AppendCounts(d[1..], a, id);
    } else {
      assert d + [a] == [a];
    }
  }

  /** Adding to a document with unique ids gives a sorted one with unique ids
      within the limit that holds exactly the old accounts and the new one, even
      if the loaded document was not in order. */
  lemma AddedIsGood(d: Document, a: Account)
    requires UniqueIds(d) && Added(d, a).Ok?
    ensures GoodDocument(Added(d, a).value)
    ensures forall x :: x in Added(d, a).value <==> x in d || x == a
  {
    var r := Added(d, a).value;
    SortSorts(d + [a]);
    forall x ensures x in r <==> x in d || x == a {
      assert x in r <==> x in multiset(r);
      assert x in d + [a] <==> x in multiset(d + [a]);
    }
    CountIsPresence(d, a.id);
    CountedOnce(d);
    forall x | x in r ensures IdCount(r, x.id) <= 1 {
      SortCounts(d + [a], x.id);
      AppendCounts(d, a, x.id);
      if x == a { } else { assert IdCount(d, x.id) <= 1; OtherId(d, x, a.id); }
    }
    CountedOnce(r);
  }

  lemma OtherId(d: Document, x: Account, id: string)
    requires x in d && !HasId(d, id)
    ensures x.id != id
  {
    var i :| 0 <= i < |d| && d[i] == x;
  }

  // ----- compare and swap -----

  /** A file's identity is its device and inode, a number here. */
  datatype File = File(identity: nat, content: Document)

  datatype Expectation = Missing | Matches(identity: nat) | Any

  predicate Holds(file: Option<File>, expected: Expectation) {
    match expected
    case Missing => file.None?
    case Matches(identity) => file.Some? && file.value.identity == identity
    case Any => true
  }

  function ExpectationOf(identity: Option<nat>): Expectation {
    if identity.None? then Missing else Matches(identity.value)
  }

  /** Which step of a replacement the operating system lets fail, and what a
      writer that ignores the lock puts in place: while the temporary is written,
      or later, between the second check and the rename. */
  datatype Faults = Faults(
    lock: bool, create: bool, write: bool, rename: bool, settle: bool,
    intruder: Option<Document>, late: Option<Document>)

  /** The file as the intruders leave it. */
  function Intruded(file: Option<File>, next: nat, f: Faults): Option<File> {
    match (f.intruder, f.late)
    case (None, None) => file
    case (Some(first), None) => Some(File(next, first))
    case (None, Some(second)) => Some(File(next, second))
    case (Some(_), Some(second)) => Some(File(next + 1, second))
  }

  /** One directory with its configuration file, and the temporary files in it. */
  class Directory {
    var file: Option<File>
    var nextIdentity: nat
    var temporaries: set<nat>

    constructor ()
      ensures file == None && nextIdentity == 0 && temporaries == {}
    {
      file, nextIdentity, temporaries := None, 0, {};
    }

    ghost predicate Valid()
      reads this
    {
      && (file.Some? ==> file.value.identity < nextIdentity)
      && forall t | t in temporaries :: t < nextIdentity
    }

    method VerifyExpectation(expected: Expectation) returns (r: Result<()>)
      ensures r == Need(Holds(file, expected), IdentityConflict)
    {
      match expected {
        case Missing => return if file.None? then Ok(()) else Err(IdentityConflict);
        case Matches(identity) =>
          if file.None? || file.value.identity != identity { return Err(IdentityConflict); }
          return Ok(());
        case Any => return Ok(());
      }
    }

    /** Somebody who does not take the lock replaces the file. */
    method Intrude(content: Document)
      requires Valid()
      modifies this
      ensures Valid() && temporaries == old(temporaries) && nextIdentity == old(nextIdentity) + 1
      ensures file == Some(File(old(nextIdentity), content))
    {
      file := Some(File(nextIdentity, content));
      nextIdentity := nextIdentity + 1;
    }

    /** `replace_private_inner`. Left to itself it leaves the file alone or makes
        it wholly the new content under a new identity; no temporary file stays
        behind; an error after the rename does not undo it. What an intruder puts
        in place before the second check is not overwritten, unless anything may
        be; what one puts in place after that check is, if the rename succeeds. */
    method ReplacePrivate(expected: Expectation, content: Document, f: Faults) returns (r: Result<nat>)
      requires Valid()
      modifies this
      ensures Valid() && temporaries == old(temporaries)
      ensures r.Ok? ==> Holds(old(file), expected) && r.value >= old(nextIdentity)
      ensures r.Ok? ==> file == Some(File(r.value, content))
      ensures f.intruder.None? && f.late.None? && file != old(file) ==>
        && Holds(old(file), expected) && file.Some? && file.value.content == content
        && file.value.identity >= old(nextIdentity)
      ensures f.intruder.Some? && !expected.Any? ==>
        r.Err? && (file == old(file) || (file.Some? && file.value.content == f.intruder.value))
      ensures !Holds(old(file), expected) && !f.lock ==> r == Err(IdentityConflict) && file == old(file)
      ensures f.lock || f.create || f.write ==> r.Err? && file == old(file)
      ensures Holds(old(file), expected) && !f.lock && !f.create && !f.write && (f.intruder.None? || expected.Any?) ==>
        if f.rename then r.Err? && (f.late.Some? ==> file.Some? && file.value.content == f.late.value)
        else file.Some? && file.value.content == content && (r.Ok? <==> !f.settle)
      ensures r.Err? && file != old(file) ==> f.settle || f.intruder.Some? || f.late.Some?
    {
      if f.lock { return Err(StoreRead); }
      var verified := VerifyExpectation(expected);
      if verified.Err? { return Err(verified.error); }
      if f.create { return Err(StoreRead); }
      var temporary := nextIdentity;
      nextIdentity := nextIdentity + 1;
      temporaries := temporaries + {temporary};
      r := Commit(temporary, expected, content, f);
      if r.Err? { temporaries := temporaries - {temporary}; }
    }

    /** The closure whose failure makes the caller remove the temporary file. */
    method Commit(temporary: nat, expected: Expectation, content: Document, f: Faults) returns (r: Result<nat>)
      requires Valid() && temporary in temporaries && Holds(file, expected)
      modifies this
      ensures Valid()
      ensures temporaries == old(temporaries) || temporaries == old(temporaries) - {temporary}
      ensures r.Ok? ==> temporaries == old(temporaries) - {temporary} && r.value == temporary
      ensures if f.write then r.Err? && file == old(file)
              else if f.intruder.Some? && !expected.Any?
                then r == Err(IdentityConflict) && file == Some(File(old(nextIdentity), f.intruder.value))
              else if f.rename then r.Err? && file == Intruded(old(file), old(nextIdentity), f)
              else file == Some(File(temporary, content)) && (r.Ok? <==> !f.settle)
    {
      if f.write { return Err(StoreRead); }
      if f.intruder.Some? { Intrude(f.intruder.value); }
      var verified := VerifyExpectation(expected);
      if verified.Err? { return Err(verified.error); }
      if f.late.Some? { Intrude(f.late.value); }
      if f.rename { return Err(StoreRead); }
      file := Some(File(temporary, content));
      temporaries := temporaries - {temporary};
      if f.settle { return Err(StoreRead); }
      return Ok(temporary);
    }

    /** `TomlAccountRepository::create`: load, add, sort, save if unchanged. */
    method Create(account: Account, f: Faults) returns (r: Result<()>)
      requires Valid() && (file.Some? ==> UniqueIds(file.value.content))
      modifies this
      ensures Valid()
      ensures var before := if old(file).None? then [] else old(file).value.content;
        match Added(before, account)
        case Err(e) => r == Err(e) && file == old(file)
        case Ok(added) =>
          || file == old(file)
          || (file.Some? && file.value.content == added && GoodDocument(added) && f.intruder.None?)
          || (file.Some? && r.Err? && (f.intruder == Some(file.value.content) || f.late == Some(file.value.content)))
      ensures r.Ok? ==> file.Some? && account in file.value.content && GoodDocument(file.value.content)
      ensures var added := Added(if old(file).None? then [] else old(file).value.content, account);
        added.Ok? && !f.lock && !f.create && !f.write && !f.rename && f.intruder.None? ==>
          file.Some? && file.value.content == added.value && (r.Ok? <==> !f.settle)
    {
      var (document, identity) := if file.None? then ([], None) else (file.value.content, Some(file.value.identity));
      if HasId(document, account.id) { return Err(AccountAlreadyExists); }
      if |document| >= MAX_ACCOUNTS { return Err(ResourceLimit); }
      AddedIsGood(document, account);
      var added := SortById(document + [account]);
      var saved := ReplacePrivate(ExpectationOf(identity), added, f);
      return if saved.Ok? then Ok(()) else Err(saved.error);
    }
  }
}
