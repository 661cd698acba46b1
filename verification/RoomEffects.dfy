/**
 What a room is, as a function of its log alone: who is a member in which role, who publishes, whether
 it has ended. And what it therefore answers to any command.
 */
module RoomEffects {
  import opened Prelude
  import opened RoomDomain
  import opened RoomHistory

  // ----- Reading a log -----

  /** The role an event gives to a user, if it gives one. */
  function GivesRole(kind: RoomEventKind, user: UserId): Option<MemberRole> {
    match kind
    case Created(host, _) => if host == user then Some(Host) else None
    case MemberJoined(joined, role) => if joined == user then Some(role) else None
    case RoleChanged(changed, role) => if changed == user then Some(role) else None
    case _ => None
  }

  predicate EndsMembership(kind: RoomEventKind, user: UserId) { kind == MemberLeft(user) }

  /** Event `k` gave the role and nothing later speaks about the user's membership. */
  ghost predicate LastWord(log: seq<RoomEvent>, k: nat, user: UserId, role: MemberRole) {
    k < |log| && GivesRole(log[k].kind, user) == Some(role)
    && forall j :: k < j < |log| ==>
         GivesRole(log[j].kind, user).None? && !EndsMembership(log[j].kind, user)
  }

  /** The latest event about the user's membership gave this role. */
  ghost predicate HasRole(log: seq<RoomEvent>, user: UserId, role: MemberRole) {
    exists k :: LastWord(log, k, user, role)
  }

  /** Stopping, leaving, the end of the room, or a role that only watches. */
  predicate EndsPublishing(kind: RoomEventKind, user: UserId) {
    kind == PublishingStopped(user) || EndsMembership(kind, user) || kind.Ended?
    || kind == MemberJoined(user, Audience) || kind == RoleChanged(user, Audience)
  }

  ghost predicate Publishes(log: seq<RoomEvent>, user: UserId) {
    exists k :: 0 <= k < |log| && log[k].kind == PublishingStarted(user)
                && forall j :: k < j < |log| ==> !EndsPublishing(log[j].kind, user)
  }

  ghost predicate HasEnded(log: seq<RoomEvent>) {
    exists k :: 0 <= k < |log| && log[k].kind.Ended?
  }

  // ----- One more event -----

  lemma RoleAfterOneMore(log: seq<RoomEvent>, event: RoomEvent, user: UserId, role: MemberRole)
    ensures HasRole(log + [event], user, role)
            <==> GivesRole(event.kind, user) == Some(role)
                 || (GivesRole(event.kind, user).None? && !EndsMembership(event.kind, user)
                     && HasRole(log, user, role))
  {
    hide GivesRole, EndsMembership;
    var longer, n := log + [event], |log|;
    assert forall i :: 0 <= i < n ==> longer[i] == log[i];
    assert longer[n] == event;
    if HasRole(longer, user, role) {
      var k: nat :| LastWord(longer, k, user, role);
      if k < n { assert LastWord(log, k, user, role); }
    }
    if GivesRole(event.kind, user) == Some(role) { assert LastWord(longer, n, user, role); }
    if GivesRole(event.kind, user).None? && !EndsMembership(event.kind, user) && HasRole(log, user, role) {
      var k: nat :| LastWord(log, k, user, role);
      assert LastWord(longer, k, user, role);
    }
  }

  lemma PublishesAfterOneMore(log: seq<RoomEvent>, event: RoomEvent, user: UserId)
    ensures Publishes(log + [event], user)
            <==> event.kind == PublishingStarted(user)
                 || (!EndsPublishing(event.kind, user) && Publishes(log, user))
  {
    var longer := log + [event];
    assert forall i :: 0 <= i < |log| ==> longer[i] == log[i];
    assert longer[|log|] == event;
    if Publishes(longer, user) {
      var k :| 0 <= k < |longer| && longer[k].kind == PublishingStarted(user)
               && forall j :: k < j < |longer| ==> !EndsPublishing(longer[j].kind, user);
      if k < |log| { assert log[k].kind == PublishingStarted(user); }
    }
    if event.kind == PublishingStarted(user) { assert longer[|log|].kind == PublishingStarted(user); }
    if !EndsPublishing(event.kind, user) && Publishes(log, user) {
      var k :| 0 <= k < |log| && log[k].kind == PublishingStarted(user)
               && forall j :: k < j < |log| ==> !EndsPublishing(log[j].kind, user);
      assert longer[k].kind == PublishingStarted(user);
    }
  }

  lemma EndedAfterOneMore(log: seq<RoomEvent>, event: RoomEvent)
    ensures HasEnded(log + [event]) <==> event.kind.Ended? || HasEnded(log)
  {
    var longer := log + [event];
    assert forall i :: 0 <= i < |log| ==> longer[i] == log[i];
    assert longer[|log|] == event;
    if HasEnded(log) {
      var k :| 0 <= k < |log| && log[k].kind.Ended?;
      assert longer[k].kind.Ended?;
    }
  }

  /** What applying one event does to one user and to the room. */
  lemma ApplyEffects(s: RoomState, event: RoomEvent, user: UserId)
    ensures var s' := Apply(s, event);
            && (user in s'.members <==>
                  GivesRole(event.kind, user).Some?
                  || (!EndsMembership(event.kind, user) && user in s.members))
            && (user in s'.members ==>
                  s'.members[user] == if GivesRole(event.kind, user).Some? then GivesRole(event.kind, user).value
                                      else if user in s.members then s.members[user] else Audience)
            && (user in s'.publishers <==>
                  event.kind == PublishingStarted(user)
                  || (!EndsPublishing(event.kind, user) && user in s.publishers))
            && (s'.ended <==> event.kind.Ended? || s.ended)
  {
    hide Remember;
  }

  // ----- Whole logs -----

  ghost predicate StateReads(s: RoomState, log: seq<RoomEvent>) {
    && (forall user, role :: user in s.members && s.members[user] == role <==> HasRole(log, user, role))
    && (forall user :: user in s.publishers <==> Publishes(log, user))
    && (s.ended <==> HasEnded(log))
  }

  lemma StateReadsOneMore(s: RoomState, log: seq<RoomEvent>, event: RoomEvent)
    requires StateReads(s, log)
    ensures StateReads(Apply(s, event), log + [event])
  {
    hide Apply, HasRole, Publishes, HasEnded, GivesRole, EndsMembership, EndsPublishing;
    var s' := Apply(s, event);
    EndedAfterOneMore(log, event);
    ApplyEffects(s, event, 0);
    forall user, role
      ensures user in s'.members && s'.members[user] == role <==> HasRole(log + [event], user, role)
    {
      ApplyEffects(s, event, user);
      RoleAfterOneMore(log, event, user, role);
    }
    forall user ensures user in s'.publishers <==> Publishes(log + [event], user) {
      ApplyEffects(s, event, user);
      PublishesAfterOneMore(log, event, user);
    }
  }

  /**
   After any event stream, members and their roles, publishers and the end of the room are what the
   stream says: the last word on each user, and whether the room was ended.
   */
  lemma {:induction false} ReplayReadsTheLog(id: RoomId, mode: RoomMode, policy: RoomPolicy, log: seq<RoomEvent>)
    ensures StateReads(Replay(EmptyRoom(id, mode, policy), log), log)
  {
    if log != [] {
      hide Apply, StateReads;
      var n := |log| - 1;
      ReplayReadsTheLog(id, mode, policy, log[..n]);
      StateReadsOneMore(Replay(EmptyRoom(id, mode, policy), log[..n]), log[..n], log[n]);
      assert log == log[..n] + [log[n]];
    }
  }

  // ----- Answers -----

  /** Nothing follows the end of a room. */
  lemma {:induction false} EndIsLast(id: RoomId, mode: RoomMode, policy: RoomPolicy, log: seq<RoomEvent>, k: nat)
    requires LegalLog(id, mode, policy, log) && k < |log| && log[k].kind.Ended?
    ensures k == |log| - 1
  {
    hide Apply, Decide;
    if k < |log| - 1 {
      var n := |log| - 1;
      assert LegalEvent(StateAt(id, mode, policy, log, n), log[n]);
      assert log[..n][k] == log[k];
      ReplayReadsTheLog(id, mode, policy, log[..n]);
    }
  }

  /**
   In every reachable room a command is answered Duplicate exactly if its identifier is among the last
   4096, RoomEnded exactly if it is not and the log contains the end of the room, and is applied exactly
   if neither holds, the rules of the room allow it and the sequence is not exhausted. Then it adds the
   event that records it under the next number; otherwise nothing changes.
   */
  lemma {:induction false} ExecuteAnswersExactly(
    id: RoomId, mode: RoomMode, policy: RoomPolicy, log: seq<RoomEvent>, a: Attempt)
    requires LegalLog(id, mode, policy, log)
    ensures var s := StateAt(id, mode, policy, log, |log|);
            var (s', answer) := ExecuteCommand(s, a.commandId, a.timestampMillis, a.command);
            && (answer == Ok(Duplicate) <==> InWindow(log, a.commandId))
            && (answer == Err(RoomEnded) <==> !InWindow(log, a.commandId) && HasEnded(log))
            && (answer.Ok? && answer.value.Applied? <==>
                  !InWindow(log, a.commandId) && !HasEnded(log) && Authorized(s, a.command) && |log| < U64_MAX)
            && (answer.Ok? && answer.value.Applied? ==>
                  var e := answer.value.event;
                  && e.sequence == |log| + 1 && e.commandId == a.commandId
                  && e.timestampMillis == a.timestampMillis && Records(a.command, e.kind)
                  && StateReads(s', log + [e]))
            && (!(answer.Ok? && answer.value.Applied?) ==> s' == s)
  {
    var s := StateAt(id, mode, policy, log, |log|);
    assert |log| > 0 && log[..|log|] == log;
    ReplayReadsTheLog(id, mode, policy, log);
    EveryRoomIsSound(id, mode, policy, log, |log|);
    DuplicateExactlyInsideTheWindow(id, mode, policy, log, a.commandId, a.timestampMillis, a.command);
    WindowOf(id, mode, policy, log, a.commandId);
    AcceptedExactlyWhenAuthorized(s, a.command);
    NoDecisionIsRoomEnded(s, a.command);
    hide LegalLog, Replay, RoomInvariant, Decide, Apply, Authorized, Records, HasEnded, InWindow;
    assert s.ended <==> HasEnded(log);
    var (s', answer) := ExecuteCommand(s, a.commandId, a.timestampMillis, a.command);
    hide StateReads;
    if answer.Ok? && answer.value.Applied? { StateReadsOneMore(s, log, answer.value.event); }
  }

  lemma WindowOf(id: RoomId, mode: RoomMode, policy: RoomPolicy, log: seq<RoomEvent>, commandId: CommandId)
    requires LegalLog(id, mode, policy, log)
    ensures commandId in StateAt(id, mode, policy, log, |log|).commandOrder <==> InWindow(log, commandId)
  {
    assert |log| > 0 && log[..|log|] == log;
    WindowsHoldTheMostRecent(id, mode, policy, log, |log|);
    WindowMembers(log, commandId);
    hide LegalLog, StateAt, InWindow;
  }

  lemma NoDecisionIsRoomEnded(s: RoomState, command: RoomCommand)
    ensures Decide(s, command) != Err(RoomEnded) && Decide(s, command) != Err(SequenceExhausted)
  {
    hide ValidReceipt, ValidCustomNamespace, Utf8Length;
  }

  // ----- Reasons -----

  /** The user a command speaks for; someone else it names comes second. */
  function Speaker(command: RoomCommand): UserId {
    match command
    case Join(user) => user
    case Leave(user) => user
    case SetRole(actor, _, _) => actor
    case StartPublishing(user) => user
    case StopPublishing(user) => user
    case SendChat(user, _, _) => user
    case RecordVerifiedGift(sender, _) => sender
    case SendCustomData(user, _) => user
    case End(actor) => actor
  }

  ghost predicate AllMembers(s: RoomState, command: RoomCommand) {
    forall u | u in Participants(command) :: u in s.members
  }

  /** What an error says about the room and the command. */
  ghost predicate Blames(s: RoomState, command: RoomCommand, error: RoomError) {
    match error
    case NotMember(u) =>
      u in Participants(command) && u !in s.members && (u == Speaker(command) || Speaker(command) in s.members)
    case AlreadyMember(u) => command == Join(u) && u in s.members
    case MemberLimit => command.Join? && command.user !in s.members && |s.members| >= s.policy.maxMembers
    case HostCannotLeave =>
      command.Leave? && AllMembers(s, command) && Rank(s.members[command.user]) == 3
    case PermissionDenied(u) =>
      && u == Speaker(command) && AllMembers(s, command)
      && (match command
          case SetRole(_, user, role) =>
            Rank(s.members[u]) < 2 || Rank(s.members[u]) <= Rank(s.members[user]) || Rank(role) == 3
          case StartPublishing(_) => s.mode == Vod || s.members[u] == Audience
          case End(_) => Rank(s.members[u]) < 3
          case _ => false)
    case AlreadyPublishing(u) => command == StartPublishing(u) && u in s.publishers
    case PublisherLimit =>
      command.StartPublishing? && command.user !in s.publishers && |s.publishers| >= s.policy.maxPublishers
    case NotPublishing(u) => command == StopPublishing(u) && u !in s.publishers
    case InvalidChatLength(n) =>
      command.SendChat? && n == Utf8Length(command.text) && (n == 0 || n > s.policy.maxChatBytes)
    case InvalidGiftReceipt => command.RecordVerifiedGift? && !ValidReceipt(command.receipt)
    case DuplicateGiftTransaction =>
      command.RecordVerifiedGift? && ValidReceipt(command.receipt)
      && command.receipt.transactionId in s.giftOrder
    case GiftValueOverflow =>
      command.RecordVerifiedGift? && command.receipt.unitValue * command.receipt.quantity > U64_MAX
    case InvalidCustomData =>
      command.SendCustomData?
      && (!ValidCustomNamespace(command.data.namespace)
          || |command.data.payload| > s.policy.maxCustomDataBytes)
    case _ => false
  }

  /** A refused command is told a reason that holds. */
  lemma RefusedForItsReason(s: RoomState, command: RoomCommand)
    ensures Decide(s, command).Err? ==> Blames(s, command, Decide(s, command).error)
  {
    hide ValidReceipt, ValidCustomNamespace, Utf8Length;
    match command {
      case SendChat(_, _, text) => TextHasBytes(text);
      case RecordVerifiedGift(sender, receipt) =>
        assert receipt.unitValue * receipt.quantity >= 0;
      case _ =>
    }
  }
}
