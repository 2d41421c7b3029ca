/** How one governed IMAP mutation turns into remote commands, and what an
    outcome says about the commands that were sent. */
module ImapAdapter {
  import opened Basics

  datatype MailKind = SetRead | SetStarred | Move | Archive | Delete

  datatype MailRequest = MailRequest(
    accountId: string, kind: MailKind, referenceAccount: string, mailbox: string,
    uidValidity: Option<u32>, uid: u32, value: Option<bool>, destination: Option<string>)

  datatype Flag = SeenFlag | FlaggedFlag | DeletedFlag

  /** The remote commands that change something. */
  datatype Command =
    | StoreCommand(uid: u32, add: bool, flag: Flag)
    | MoveCommand(uid: u32, destination: string)
    | CopyCommand(uid: u32, destination: string)
    | SubmitCommand(messageId: string)

  /** What the adapter meets outside: syntax checks, the account, the connection
      and the selected mailbox. */
  datatype Session = Session(
    accountId: string, accountValid: bool, validScope: string -> bool, validDestination: string -> bool,
    connects: bool, selects: bool, selectedValidity: Option<u32>, hasMove: bool, mailboxSyntax: string -> bool)

  predicate IsFlagKind(k: MailKind) { k.SetRead? || k.SetStarred? }

  /** `MailboxOperationRequest::validate`. */
  predicate ValidRequest(r: MailRequest, s: Session) {
    && s.validScope(r.accountId) && s.validScope(r.mailbox) && r.uid != 0
    && r.uidValidity.Some?
    && r.referenceAccount == r.accountId
    && if IsFlagKind(r.kind) then r.value.Some? && r.destination.None?
       else (r.destination.Some? ==> s.validDestination(r.destination.value)) && (r.kind.Move? ==> r.destination.Some?)
  }

  /** Everything checked before the first mutating command, in one guard: all
      these failures report that no mutation was started. */
  predicate Opens(r: MailRequest, s: Session) {
    && ValidRequest(r, s)
    && s.accountValid && s.accountId == r.accountId
    && s.connects && s.mailboxSyntax(r.mailbox) && s.selects
    && r.uidValidity == s.selectedValidity
  }

  /** The commands of an operation, or None when it is refused before any. */
  function Commands(r: MailRequest, s: Session): Option<seq<Command>> {
    if !Opens(r, s) then None
    else if IsFlagKind(r.kind) then
      Some([StoreCommand(r.uid, r.value == Some(true), if r.kind.SetRead? then SeenFlag else FlaggedFlag)])
    else if r.destination.None? then None
    else
      var destination := r.destination.value;
      if destination == r.mailbox then Some([])
      else if !s.mailboxSyntax(destination) then None
      else if s.hasMove then Some([MoveCommand(r.uid, destination)])
      else Some([CopyCommand(r.uid, destination), StoreCommand(r.uid, true, DeletedFlag)])
  }

  datatype Attempt = Applied(changed: bool) | RefusedBefore | FailedAfter

  /** How a command list ends when the server's replies are fixed in advance: it
      stops at the first refusal. */
  function Outcome(commands: seq<Command>, replies: nat -> bool, from: nat): (r: (seq<Command>, bool))
    ensures r.0 <= commands
    decreases |commands|
  {
    if |commands| == 0 then ([], true)
    else if !replies(from) then ([commands[0]], false)
    else
      var rest := Outcome(commands[1..], replies, from + 1);
      ([commands[0]] + rest.0, rest.1)
  }

  lemma ShortOutcomes(c: Command, d: Command, replies: nat -> bool)
    ensures Outcome([c], replies, 0) == ([c], replies(0))
    ensures Outcome([c, d], replies, 0) == if replies(0) then ([c, d], replies(1)) else ([c], false)
  {
    var none: seq<Command> := [];
    assert [c] + none == [c] && [d] + none == [d] && [c] + [d] == [c, d];
    assert [c][1..] == [] && [c, d][1..] == [d] && [d][1..] == [];
    assert Outcome([d], replies, 1) == ([d], replies(1));
  }

  /** One connected client: what it sent and how much of it was acknowledged. */
  class Client {
    const replies: nat -> bool
    var issued: seq<Command>
    var acknowledged: nat

    constructor (replies: nat -> bool)
      ensures issued == [] && acknowledged == 0 && this.replies == replies
    {
      this.replies := replies;
      issued := [];
      acknowledged := 0;
    }

    method Send(c: Command) returns (ok: bool)
      modifies this
      ensures issued == old(issued) + [c]
      ensures ok == replies(|old(issued)|)
      ensures acknowledged == old(acknowledged) + if ok then 1 else 0
    {
      ok := replies(|issued|);
      issued := issued + [c];
      if ok {
        acknowledged := acknowledged + 1;
      }
    }

    /** `MailboxMutator::apply`. The commands follow `Commands`; an error before
        the first command says so, an error after it never does. */
    method Apply(r: MailRequest, s: Session) returns (attempt: Attempt)
      requires issued == [] && acknowledged == 0
      modifies this
      ensures match Commands(r, s)
              case None => attempt == RefusedBefore && issued == []
              case Some(commands) =>
                && issued == Outcome(commands, replies, 0).0
                && attempt == if Outcome(commands, replies, 0).1 then Applied(commands != []) else FailedAfter
      ensures attempt.RefusedBefore? ==> issued == [] && acknowledged == 0
      ensures attempt.Applied? ==> acknowledged == |issued| && Some(issued) == Commands(r, s)
      ensures attempt.FailedAfter? ==> issued != [] && acknowledged == |issued| - 1
    {
      if !Opens(r, s) { return RefusedBefore; }
      if IsFlagKind(r.kind) {
        var flag := if r.kind.SetRead? then SeenFlag else FlaggedFlag;
        var command := StoreCommand(r.uid, r.value == Some(true), flag);
        ShortOutcomes(command, command, replies);
        var ok := Send(command);
        return if ok then Applied(true) else FailedAfter;
      }
      if r.destination.None? { return RefusedBefore; }
      var destination := r.destination.value;
      if destination == r.mailbox { return Applied(false); }
      if !s.mailboxSyntax(destination) { return RefusedBefore; }
      if s.hasMove {
        var command := MoveCommand(r.uid, destination);
        ShortOutcomes(command, command, replies);
        var ok := Send(command);
        return if ok then Applied(true) else FailedAfter;
      }
      ShortOutcomes(CopyCommand(r.uid, destination), StoreCommand(r.uid, true, DeletedFlag), replies);
      var ok := Send(CopyCommand(r.uid, destination));
      if !ok { return FailedAfter; }
      ok := Send(StoreCommand(r.uid, true, DeletedFlag));
      if !ok { return FailedAfter; }
      return Applied(true);
    }
  }

  // ----- one step at a time -----

  /** The adapter between two commands: some were sent, and all of those but
      possibly the last have been acknowledged. */
  datatype Progress = Progress(commands: seq<Command>, issued: nat, acked: nat)

  predicate Sound(p: Progress) {
    p.acked <= p.issued <= p.acked + 1 && p.issued <= |p.commands|
  }

  predicate Complete(p: Progress) { p.acked == |p.commands| }

  /** Run the small steps to the end: send, read the reply, stop at a refusal. */
  function Drive(p: Progress, replies: nat -> bool): Progress
    requires Sound(p)
    decreases |p.commands| - p.acked, |p.commands| - p.issued
  {
    if p.issued > p.acked then if replies(p.acked) then Drive(p.(acked := p.acked + 1), replies) else p
    else if p.issued < |p.commands| then Drive(p.(issued := p.issued + 1), replies)
    else p
  }

  /** The step machine and the straight-line code send the same commands and
      agree on success. */
  lemma {:induction false} DriveMatchesOutcome(p: Progress, replies: nat -> bool)
    requires Sound(p) && p.issued == p.acked
    ensures var done := Drive(p, replies);
      && Sound(done) && done.commands == p.commands
      && p.commands[..p.acked] + Outcome(p.commands[p.acked..], replies, p.acked).0 == p.commands[..done.issued]
      && (Complete(done) <==> Outcome(p.commands[p.acked..], replies, p.acked).1)
    decreases |p.commands| - p.acked
  {
    if p.acked < |p.commands| {
      var rest := p.commands[p.acked..];
      var next := p.(issued := p.issued + 1, acked := p.acked + 1);
      assert rest[0] == p.commands[p.acked] && rest[1..] == p.commands[p.acked + 1..];
      if replies(p.acked) {
        assert Drive(p, replies) == Drive(next, replies);
        DriveMatchesOutcome(next, replies);
        assert p.commands[..p.acked + 1] == p.commands[..p.acked] + [rest[0]];
      } else {
        assert Drive(p, replies) == p.(issued := p.issued + 1);
        assert p.commands[..p.acked + 1] == p.commands[..p.acked] + [rest[0]];
      }
    }
  }
}
