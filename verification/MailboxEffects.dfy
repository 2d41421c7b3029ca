/** What the commands of a governed mailbox operation do to the mailboxes. */
module MailboxEffects {
  import opened Basics
  import opened ImapAdapter

  /** One message of a mailbox. */
  datatype Mail = Mail(content: string, flags: set<Flag>)

  type Mailbox = map<int, Mail>

  type Server = map<string, Mailbox>

  // ----- the commands, by section 6.4 of RFC 3501 and RFC 6851 -----

  function Flagged(m: Mail, flag: Flag, add: bool): Mail {
    m.(flags := if add then m.flags + {flag} else m.flags - {flag})
  }

  /** The effect of an acknowledged command in the selected mailbox. `given` is
      the UID the server gives to a message that arrives in another mailbox. A
      command for a UID that is not there does nothing. */
  function Effect(server: Server, selected: string, c: Command, given: u32): Server
    requires Accepts(server, selected, c)
  {
    var box := server[selected];
    match c
    case StoreCommand(uid, add, flag) =>
      if uid !in box then server else server[selected := box[uid := Flagged(box[uid], flag, add)]]
    case CopyCommand(uid, destination) =>
      if uid !in box then server else server[destination := server[destination][given := box[uid]]]
    case MoveCommand(uid, destination) =>
      if uid !in box then server
      else
        var arrived := server[destination := server[destination][given := box[uid]]];
        arrived[selected := arrived[selected] - {uid}]
    case SubmitCommand(_) => server
  }

  /** What the server must have for it to acknowledge a command. */
  predicate Accepts(server: Server, selected: string, c: Command) {
    && selected in server
    && match c
       case MoveCommand(_, destination) => destination in server
       case CopyCommand(_, destination) => destination in server
       case _ => true
  }

  /** All the commands acknowledged, one after the other. */
  function Effects(server: Server, selected: string, cs: seq<Command>, given: u32): Option<Server> {
    if |cs| == 0 then Some(server)
    else if !Accepts(server, selected, cs[0]) then None
    else Effects(Effect(server, selected, cs[0], given), selected, cs[1..], given)
  }

  // ----- what an operation is for -----

  /** Nothing but the named messages of the named mailboxes differs. */
  ghost predicate UnchangedBut(before: Server, after: Server, touched: set<(string, int)>) {
    && after.Keys == before.Keys
    && forall name, uid | name in before && (name, uid) !in touched ::
         (uid in before[name] <==> uid in after[name])
         && (uid in before[name] ==> after[name][uid] == before[name][uid])
  }

  /** The flag an operation of this kind is about. */
  function FlagOf(k: MailKind): Flag { if k.SetRead? then SeenFlag else FlaggedFlag }

  /** What the request asks for has happened to its message, and nothing else has
      happened: a flag is set exactly when the value says so; a message to be
      moved is in its destination with its content and flags, and is gone from
      its mailbox or marked deleted there. */
  ghost predicate Done(r: MailRequest, before: Server, after: Server, given: u32)
    requires r.mailbox in before && r.uid in before[r.mailbox]
  {
    var was := before[r.mailbox][r.uid];
    match r.kind
    case SetRead | SetStarred =>
      && UnchangedBut(before, after, {(r.mailbox, r.uid)})
      && r.uid in after[r.mailbox] && after[r.mailbox][r.uid].content == was.content
      && forall flag :: flag in after[r.mailbox][r.uid].flags <==>
           if flag == FlagOf(r.kind) then r.value == Some(true) else flag in was.flags
    case Move | Archive | Delete =>
      r.destination.Some? &&
      var destination := r.destination.value;
      if destination == r.mailbox then after == before
      else
        && UnchangedBut(before, after, {(r.mailbox, r.uid), (destination, given)})
        && destination in after && given in after[destination] && after[destination][given] == was
        && (r.uid in after[r.mailbox] ==>
              after[r.mailbox][r.uid] == was.(flags := was.flags + {DeletedFlag}))
  }

  /** An operation whose commands are all acknowledged does what it is for: for
      every opened request, on every server that holds the message, with any UID
      the server assigns on arrival. */
  lemma CommandsDoTheOperation(r: MailRequest, s: Session, server: Server, given: u32)
    requires Commands(r, s).Some? && Effects(server, r.mailbox, Commands(r, s).value, given).Some?
    requires r.mailbox in server && r.uid in server[r.mailbox]
    requires forall name | name in server :: given !in server[name]
    ensures Done(r, server, Effects(server, r.mailbox, Commands(r, s).value, given).value, given)
    ensures !IsFlagKind(r.kind) && r.destination != Some(r.mailbox) ==>
      (s.hasMove <==> r.uid !in Effects(server, r.mailbox, Commands(r, s).value, given).value[r.mailbox])
  {
    hide Opens;
    var cs := Commands(r, s).value;
    if |cs| == 1 {
      OneEffect(server, r.mailbox, cs[0], given);
      assert cs == [cs[0]];
    } else if |cs| == 2 {
      assert cs == [cs[0], cs[1]];
      TwoEffects(server, r.mailbox, cs[0], cs[1], given);
    }
  }

  lemma OneEffect(server: Server, selected: string, c: Command, given: u32)
    ensures Effects(server, selected, [c], given) ==
      if Accepts(server, selected, c) then Some(Effect(server, selected, c, given)) else None
  {
    assert [c][1..] == [];
  }

  lemma TwoEffects(server: Server, selected: string, c: Command, d: Command, given: u32)
    ensures Effects(server, selected, [c, d], given) ==
      if !Accepts(server, selected, c) then None
      else if !Accepts(Effect(server, selected, c, given), selected, d) then None
      else Some(Effect(Effect(server, selected, c, given), selected, d, given))
  {
    assert [c, d][1..] == [d];
    if Accepts(server, selected, c) {
      OneEffect(Effect(server, selected, c, given), selected, d, given);
    }
  }

  /** Commands go out exactly for a request of the account the session is for, in
      a mailbox whose UIDVALIDITY is still the one the message was named under, with
      the value or the destination its kind needs; and every one of them names that
      message and no other destination. */
  lemma CommandsAreScoped(r: MailRequest, s: Session)
    ensures Commands(r, s).Some? <==>
      && s.validScope(r.accountId) && s.validScope(r.mailbox) && s.mailboxSyntax(r.mailbox) && r.uid != 0
      && r.uidValidity.Some? && s.selectedValidity == r.uidValidity
      && r.accountId == r.referenceAccount == s.accountId && s.accountValid && s.connects && s.selects
      && (if r.kind in [SetRead, SetStarred] then r.value.Some? && r.destination.None?
          else
            && r.destination.Some? && s.validDestination(r.destination.value)
            && (r.destination.value == r.mailbox || s.mailboxSyntax(r.destination.value)))
    ensures Commands(r, s).Some? ==> forall c | c in Commands(r, s).value ::
      match c
      case StoreCommand(uid, _, _) => uid == r.uid
      case MoveCommand(uid, destination) => uid == r.uid && r.destination == Some(destination) && s.hasMove
      case CopyCommand(uid, destination) => uid == r.uid && r.destination == Some(destination) && !s.hasMove
      case SubmitCommand(_) => false
    ensures Commands(r, s).Some? ==>
      (Commands(r, s).value == [] <==> r.kind !in [SetRead, SetStarred] && r.destination == Some(r.mailbox))
  {
  }
}
