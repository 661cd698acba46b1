/**
 Whole histories of a room. A log is legal when it is a creation followed by events that were each
 decided on the state the events before it produce. Legal logs are exactly what the live command
 path can emit, and every guarantee of the aggregate is a theorem about all of them.
 */
module RoomHistory {
  import opened Prelude
  import opened RoomDomain

  /** `event` is what some fresh command on `s` would have produced. */
  ghost predicate LegalEvent(s: RoomState, event: RoomEvent) {
    !s.ended && event.sequence == s.sequence + 1 && event.commandId !in s.commandOrder
    && exists command :: Decide(s, command) == Ok(event.kind)
  }

  /** The state after the first `k` events of a room. */
  function StateAt(id: RoomId, mode: RoomMode, policy: RoomPolicy, log: seq<RoomEvent>, k: nat)
    : RoomState
    requires k <= |log|
  {
    Replay(EmptyRoom(id, mode, policy), log[..k])
  }

  ghost predicate LegalLog(id: RoomId, mode: RoomMode, policy: RoomPolicy, log: seq<RoomEvent>) {
    |log| > 0 && log[0].sequence == 1 && log[0].kind.Created? && log[0].kind.mode == mode
    && forall k :: 1 <= k < |log| ==> LegalEvent(StateAt(id, mode, policy, log, k), log[k])
  }

  lemma ReplaySnoc(s: RoomState, events: seq<RoomEvent>, event: RoomEvent)
    ensures Replay(s, events + [event]) == Apply(Replay(s, events), event)
  {
    assert (events + [event])[..|events|] == events;
  }

  lemma StateAtNext(id: RoomId, mode: RoomMode, policy: RoomPolicy, log: seq<RoomEvent>, k: nat)
    requires k < |log|
    ensures StateAt(id, mode, policy, log, k + 1) == Apply(StateAt(id, mode, policy, log, k), log[k])
  {
    assert log[..k + 1] == log[..k] + [log[k]];
    ReplaySnoc(EmptyRoom(id, mode, policy), log[..k], log[k]);
  }

  /** Growing a log changes no earlier state. */
  lemma StateAtPrefix(id: RoomId, mode: RoomMode, policy: RoomPolicy, log: seq<RoomEvent>,
                      longer: seq<RoomEvent>, k: nat)
    requires log <= longer && k <= |log|
    ensures StateAt(id, mode, policy, log, k) == StateAt(id, mode, policy, longer, k)
  {
    assert log[..k] == longer[..k];
  }

  lemma {:induction false} LegalPrefix(id: RoomId, mode: RoomMode, policy: RoomPolicy, log: seq<RoomEvent>, n: nat)
    requires LegalLog(id, mode, policy, log) && 1 <= n <= |log|
    ensures LegalLog(id, mode, policy, log[..n])
  {
    forall k | 1 <= k < n ensures LegalEvent(StateAt(id, mode, policy, log[..n], k), log[..n][k]) {
      StateAtPrefix(id, mode, policy, log[..n], log, k);
    }
  }

  lemma {:induction false} LegalExtend(id: RoomId, mode: RoomMode, policy: RoomPolicy, log: seq<RoomEvent>,
                    event: RoomEvent)
    requires LegalLog(id, mode, policy, log)
    requires LegalEvent(StateAt(id, mode, policy, log, |log|), event)
    ensures LegalLog(id, mode, policy, log + [event])
  {
    var longer := log + [event];
    forall k | 1 <= k < |longer| ensures LegalEvent(StateAt(id, mode, policy, longer, k), longer[k]) {
      StateAtPrefix(id, mode, policy, log, longer, k);
    }
  }

  // ----- The invariant of every reachable room -----

  /** One host; publishers are members whose role allows it; capacities; an ended room is silent. */
  ghost predicate MembershipSound(s: RoomState, host: UserId) {
    host in s.members
    && (forall u :: u in s.members && s.members[u] == Host <==> u == host)
    && (forall u :: u in s.publishers ==> u in s.members && s.members[u].CanPublish())
    && |s.members| <= Max(1, s.policy.maxMembers)
    && |s.publishers| <= s.policy.maxPublishers
    && (s.ended ==> s.publishers == {})
  }

  /** Bounded windows without repetitions; the gift window holds only well-formed identifiers. */
  ghost predicate HistoriesSound(s: RoomState) {
    Distinct(s.commandOrder) && 1 <= |s.commandOrder| <= COMMAND_HISTORY_LIMIT
    && Distinct(s.giftOrder) && |s.giftOrder| <= GIFT_TRANSACTION_HISTORY_LIMIT
    && (forall t :: t in s.giftOrder ==> BoundedText(t, MAX_GIFT_TRANSACTION_ID_BYTES))
  }

  ghost predicate Sound(s: RoomState, host: UserId) {
    MembershipSound(s, host) && HistoriesSound(s)
  }

  ghost predicate RoomInvariant(s: RoomState, host: UserId) {
    Sound(s, host) && (s.mode == Vod ==> s.publishers == {})
  }

  lemma CreationSound(id: RoomId, mode: RoomMode, policy: RoomPolicy, event: RoomEvent)
    requires event.kind.Created?
    ensures RoomInvariant(Apply(EmptyRoom(id, mode, policy), event), event.kind.host)
  {
    var s := Apply(EmptyRoom(id, mode, policy), event);
    assert s.members == map[event.kind.host := Host];
    assert s.commandOrder == [event.commandId];
  }

  lemma RememberNonempty<T>(order: seq<T>, x: T, limit: nat)
    requires limit > 0
    ensures |Remember(order, x, limit)| >= 1
    ensures forall y :: y in Remember(order, x, limit) ==> y in order || y == x
  {
  }

  lemma ApplyHistories(s: RoomState, event: RoomEvent)
    ensures Apply(s, event).commandOrder
            == Remember(s.commandOrder, event.commandId, COMMAND_HISTORY_LIMIT)
    ensures Apply(s, event).giftOrder
            == if event.kind.GiftRecorded?
               then Remember(s.giftOrder, event.kind.receipt.transactionId,
                             GIFT_TRANSACTION_HISTORY_LIMIT)
               else s.giftOrder
    ensures var t := Apply(s, event); t.id == s.id && t.mode == s.mode && t.policy == s.policy
  {
  }

  /** A recorded gift is well formed, unknown to the window, and worth quantity times unit value. */
  lemma DecidedGift(s: RoomState, command: RoomCommand, kind: RoomEventKind)
    requires Decide(s, command) == Ok(kind) && kind.GiftRecorded?
    ensures ValidReceipt(kind.receipt) && kind.receipt.transactionId !in s.giftOrder
    ensures kind.totalValue == kind.receipt.unitValue * kind.receipt.quantity
    ensures kind.sender in s.members && kind.receipt.recipient in s.members
  {
  }

  /** What any decided membership change guarantees about the state it was decided on. */
  ghost predicate Permitted(s: RoomState, kind: RoomEventKind) {
    match kind
    case Created(_, _) => false
    case MemberJoined(user, role) =>
      user !in s.members && |s.members| < s.policy.maxMembers && role == Audience
    case MemberLeft(user) => user in s.members && s.members[user] != Host
    case RoleChanged(user, role) => user in s.members && s.members[user] != Host && role != Host
    case PublishingStarted(user) =>
      user in s.members && s.members[user].CanPublish() && s.mode != Vod
      && |s.publishers| < s.policy.maxPublishers
    case _ => true
  }

  lemma DecisionsArePermitted(s: RoomState, command: RoomCommand, kind: RoomEventKind)
    requires Decide(s, command) == Ok(kind)
    ensures Permitted(s, kind)
  {
  }

  lemma JoinKeepsMembership(s: RoomState, kind: RoomEventKind, host: UserId)
    requires MembershipSound(s, host) && !s.ended && Permitted(s, kind) && kind.MemberJoined?
    ensures MembershipSound(ApplyKind(s, kind), host)
    ensures ApplyKind(s, kind).publishers <= s.publishers
  {
    var t := ApplyKind(s, kind);
    assert t.members.Keys == s.members.Keys + {kind.user};
    SubsetCardinality(t.publishers, s.publishers);
  }

  lemma LeaveKeepsMembership(s: RoomState, kind: RoomEventKind, host: UserId)
    requires MembershipSound(s, host) && !s.ended && Permitted(s, kind) && kind.MemberLeft?
    ensures MembershipSound(ApplyKind(s, kind), host)
    ensures ApplyKind(s, kind).publishers <= s.publishers
  {
    var t := ApplyKind(s, kind);
    SubsetCardinality(t.members.Keys, s.members.Keys);
    SubsetCardinality(t.publishers, s.publishers);
  }

  lemma RoleChangeKeepsMembership(s: RoomState, kind: RoomEventKind, host: UserId)
    requires MembershipSound(s, host) && !s.ended && Permitted(s, kind) && kind.RoleChanged?
    ensures MembershipSound(ApplyKind(s, kind), host)
    ensures ApplyKind(s, kind).publishers <= s.publishers
  {
    var t := ApplyKind(s, kind);
    assert t.members.Keys == s.members.Keys;
    SubsetCardinality(t.publishers, s.publishers);
  }

  lemma PermittedKeepsMembership(s: RoomState, kind: RoomEventKind, host: UserId)
    requires MembershipSound(s, host) && !s.ended && Permitted(s, kind)
    ensures MembershipSound(ApplyKind(s, kind), host)
    ensures kind.PublishingStarted? ==> s.mode != Vod
    ensures !kind.PublishingStarted? ==> ApplyKind(s, kind).publishers <= s.publishers
  {
    match kind {
      case MemberJoined(_, _) => JoinKeepsMembership(s, kind, host);
      case MemberLeft(_) => LeaveKeepsMembership(s, kind, host);
      case RoleChanged(_, _) => RoleChangeKeepsMembership(s, kind, host);
      case PublishingStopped(user) => SubsetCardinality(s.publishers - {user}, s.publishers);
      case _ =>
    }
  }

  lemma DecisionKeepsHistories(s: RoomState, command: RoomCommand, event: RoomEvent)
    requires HistoriesSound(s) && Decide(s, command) == Ok(event.kind)
    ensures HistoriesSound(Apply(s, event))
  {
    ApplyHistories(s, event);
    RememberKeeps(s.commandOrder, event.commandId, COMMAND_HISTORY_LIMIT);
    RememberNonempty(s.commandOrder, event.commandId, COMMAND_HISTORY_LIMIT);
    if event.kind.GiftRecorded? {
      DecidedGift(s, command, event.kind);
      var transaction := event.kind.receipt.transactionId;
      RememberKeeps(s.giftOrder, transaction, GIFT_TRANSACTION_HISTORY_LIMIT);
      RememberNonempty(s.giftOrder, transaction, GIFT_TRANSACTION_HISTORY_LIMIT);
    }
  }

  /** One applied command keeps the invariant; it also keeps the part that snapshots are checked for. */
  lemma {:induction false} DecisionSound(s: RoomState, command: RoomCommand, event: RoomEvent, host: UserId)
    requires Sound(s, host) && !s.ended && Decide(s, command) == Ok(event.kind)
    ensures Sound(Apply(s, event), host)
    ensures RoomInvariant(s, host) ==> RoomInvariant(Apply(s, event), host)
  {
    DecisionsArePermitted(s, command, event.kind);
    PermittedKeepsMembership(s, event.kind, host);
    DecisionKeepsHistories(s, command, event);
    ApplyHistories(s, event);
  }

  /** Exactly one host, always the creator; publishers, capacities, VOD and ended rooms as promised. */
  lemma {:induction false} EveryRoomIsSound(
    id: RoomId, mode: RoomMode, policy: RoomPolicy, log: seq<RoomEvent>, k: nat)
    requires LegalLog(id, mode, policy, log) && 1 <= k <= |log|
    ensures RoomInvariant(StateAt(id, mode, policy, log, k), log[0].kind.host)
    ensures var s := StateAt(id, mode, policy, log, k);
            s.id == id && s.mode == mode && s.policy == policy && s.sequence == k
            && log[k - 1].sequence == k
  {
    StateAtNext(id, mode, policy, log, k - 1);
    if k == 1 {
      CreationSound(id, mode, policy, log[0]);
    } else {
      EveryRoomIsSound(id, mode, policy, log, k - 1);
      var before := StateAt(id, mode, policy, log, k - 1);
      assert LegalEvent(before, log[k - 1]);
      var command :| Decide(before, command) == Ok(log[k - 1].kind);
      DecisionSound(before, command, log[k - 1], log[0].kind.host);
      ApplyHistories(before, log[k - 1]);
    }
  }

  // ----- The bounded idempotency windows -----

  function CommandIds(log: seq<RoomEvent>): seq<CommandId> {
    seq(|log|, i requires 0 <= i < |log| => log[i].commandId)
  }

  /** The transactions of all recorded gifts, oldest first. */
  function GiftIds(log: seq<RoomEvent>): seq<string> {
    if log == [] then []
    else
      var last := log[|log| - 1];
      GiftIds(log[..|log| - 1])
      + if last.kind.GiftRecorded? then [last.kind.receipt.transactionId] else []
  }

  lemma RememberFresh<T>(history: seq<T>, x: T, limit: nat)
    requires x !in LastN(history, limit) && limit > 0
    ensures Remember(LastN(history, limit), x, limit) == LastN(history + [x], limit)
  {
  }

  lemma GiftIdsSnoc(log: seq<RoomEvent>, k: nat)
    requires 1 <= k <= |log|
    ensures GiftIds(log[..k])
            == GiftIds(log[..k - 1])
               + if log[k - 1].kind.GiftRecorded? then [log[k - 1].kind.receipt.transactionId] else []
    ensures CommandIds(log[..k]) == CommandIds(log[..k - 1]) + [log[k - 1].commandId]
  {
    assert log[..k][..k - 1] == log[..k - 1];
  }

  /** Both windows are exactly the most recent identifiers, in order. */
  lemma {:induction false} WindowsHoldTheMostRecent(
    id: RoomId, mode: RoomMode, policy: RoomPolicy, log: seq<RoomEvent>, k: nat)
    requires LegalLog(id, mode, policy, log) && 1 <= k <= |log|
    ensures StateAt(id, mode, policy, log, k).commandOrder
            == LastN(CommandIds(log[..k]), COMMAND_HISTORY_LIMIT)
    ensures StateAt(id, mode, policy, log, k).giftOrder
            == LastN(GiftIds(log[..k]), GIFT_TRANSACTION_HISTORY_LIMIT)
  {
    hide Decide, Apply;
    var before, event := StateAt(id, mode, policy, log, k - 1), log[k - 1];
    StateAtNext(id, mode, policy, log, k - 1);
    ApplyHistories(before, event);
    GiftIdsSnoc(log, k);
    if k == 1 {
      assert CommandIds(log[..0]) == [] && GiftIds(log[..0]) == [];
    } else {
      WindowsHoldTheMostRecent(id, mode, policy, log, k - 1);
      LegalEventIsFresh(before, event);
      RememberFresh(CommandIds(log[..k - 1]), event.commandId, COMMAND_HISTORY_LIMIT);
      if event.kind.GiftRecorded? {
        RememberFresh(GiftIds(log[..k - 1]), event.kind.receipt.transactionId,
                      GIFT_TRANSACTION_HISTORY_LIMIT);
      }
    }
  }

  lemma LegalEventIsFresh(s: RoomState, event: RoomEvent)
    requires LegalEvent(s, event)
    ensures event.commandId !in s.commandOrder
    ensures event.kind.GiftRecorded? ==> event.kind.receipt.transactionId !in s.giftOrder
  {
    var command :| Decide(s, command) == Ok(event.kind);
    if event.kind.GiftRecorded? {
      DecidedGift(s, command, event.kind);
    }
  }

  /** Recent entries are in the window. */
  lemma LastNHolds<T>(history: seq<T>, i: nat, limit: nat)
    requires |history| - limit <= i < |history|
    ensures history[i] in LastN(history, limit)
  {
    if |history| > limit {
      assert LastN(history, limit)[i - (|history| - limit)] == history[i];
    }
  }

  /** An identifier never returns within the next 4096 events. */
  lemma NoReuseInsideTheWindow(
    id: RoomId, mode: RoomMode, policy: RoomPolicy, log: seq<RoomEvent>, i: nat, j: nat)
    requires LegalLog(id, mode, policy, log) && i < j < |log| && j - i <= COMMAND_HISTORY_LIMIT
    ensures log[i].commandId != log[j].commandId
  {
    WindowsHoldTheMostRecent(id, mode, policy, log, j);
    var ids := CommandIds(log[..j]);
    assert LegalEvent(StateAt(id, mode, policy, log, j), log[j]);
    assert ids[i] == log[i].commandId;
    LastNHolds(ids, i, COMMAND_HISTORY_LIMIT);
  }

  /** The same law for gift transactions: none returns within the next 4096 recorded gifts. */
  lemma {:induction false} NoGiftReuseInsideTheWindow(
    id: RoomId, mode: RoomMode, policy: RoomPolicy, log: seq<RoomEvent>, k: nat, i: nat, j: nat)
    requires LegalLog(id, mode, policy, log) && k <= |log|
    requires i < j < |GiftIds(log[..k])| && j - i <= GIFT_TRANSACTION_HISTORY_LIMIT
    ensures GiftIds(log[..k])[i] != GiftIds(log[..k])[j]
  {
    assert GiftIds(log[..0]) == [];
    GiftIdsSnoc(log, k);
    var earlier := GiftIds(log[..k - 1]);
    if j < |earlier| {
      NoGiftReuseInsideTheWindow(id, mode, policy, log, k - 1, i, j);
    } else {
      WindowsHoldTheMostRecent(id, mode, policy, log, k - 1);
      LegalEventIsFresh(StateAt(id, mode, policy, log, k - 1), log[k - 1]);
      LastNHolds(earlier, i, GIFT_TRANSACTION_HISTORY_LIMIT);
    }
  }

  /** The identifier occurs among the last 4096 events. */
  ghost predicate InWindow(log: seq<RoomEvent>, commandId: CommandId) {
    exists j :: 0 <= j < |log| && |log| - (j + 1) <= 4095 && log[j].commandId == commandId
  }

  /**
   Any command identifier is answered Duplicate, without any change, exactly if it occurs among the last
   4096 events; for event `k` of `n` that did not come back, exactly while n - k <= 4095.
   */
  lemma {:induction false} DuplicateExactlyInsideTheWindow(
    id: RoomId, mode: RoomMode, policy: RoomPolicy, log: seq<RoomEvent>, commandId: CommandId,
    timestampMillis: u64, command: RoomCommand)
    requires LegalLog(id, mode, policy, log)
    ensures var s := StateAt(id, mode, policy, log, |log|);
            ExecuteCommand(s, commandId, timestampMillis, command) == (s, Ok(Duplicate))
            <==> InWindow(log, commandId)
  {
    assert |log| > 0;
    hide LegalLog, StateAt;
    WindowsHoldTheMostRecent(id, mode, policy, log, |log|);
    assert log[..|log|] == log;
    var s, ids := StateAt(id, mode, policy, log, |log|), CommandIds(log);
    WindowMembers(log, commandId);
    if !InWindow(log, commandId) { NotDuplicate(s, commandId, timestampMillis, command); }
    hide InWindow, Decide, Apply;
  }

  lemma WindowMembers(log: seq<RoomEvent>, commandId: CommandId)
    ensures commandId in LastN(CommandIds(log), COMMAND_HISTORY_LIMIT) <==> InWindow(log, commandId)
  {
    var ids := CommandIds(log);
    var w := LastN(ids, COMMAND_HISTORY_LIMIT);
    var d := |ids| - |w|;
    if commandId in w {
      var i :| 0 <= i < |w| && w[i] == commandId;
      assert log[d + i].commandId == commandId;
    }
    if InWindow(log, commandId) {
      var j :| 0 <= j < |log| && |log| - (j + 1) <= 4095 && log[j].commandId == commandId;
      assert w[j - d] == commandId;
    }
  }

  lemma NotDuplicate(s: RoomState, commandId: CommandId, timestampMillis: u64, command: RoomCommand)
    requires commandId !in s.commandOrder
    ensures ExecuteCommand(s, commandId, timestampMillis, command).1 != Ok(Duplicate)
  {
  }

  // ----- Authority -----

  /** Everyone a command speaks for or about must be in the room, except someone joining. */
  function Participants(command: RoomCommand): set<UserId> {
    match command
    case Join(_) => {}
    case Leave(user) => {user}
    case SetRole(actor, user, _) => {actor, user}
    case StartPublishing(user) => {user}
    case StopPublishing(user) => {user}
    case SendChat(user, _, _) => {user}
    case RecordVerifiedGift(sender, receipt) => {sender, receipt.recipient}
    case SendCustomData(user, _) => {user}
    case End(actor) => {actor}
  }

  function Rank(role: MemberRole): nat {
    match role
    case Host => 3
    case CoHost => 2
    case Publisher => 1
    case Audience => 1
  }

  /** The rules of the room, stated without the order in which they are checked. */
  ghost predicate Authorized(s: RoomState, command: RoomCommand) {
    && (forall u | u in Participants(command) :: u in s.members)
    && match command
       case Join(user) => user !in s.members && |s.members| < s.policy.maxMembers
       case Leave(user) => Rank(s.members[user]) < 3
       case SetRole(actor, user, role) =>
         Rank(s.members[actor]) >= 2 && Rank(s.members[actor]) > Rank(s.members[user]) && Rank(role) < 3
       case StartPublishing(user) =>
         s.mode != Vod && s.members[user] != Audience && user !in s.publishers
         && |s.publishers| < s.policy.maxPublishers
       case StopPublishing(user) => user in s.publishers
       case SendChat(_, _, text) => 1 <= Utf8Length(text) <= s.policy.maxChatBytes
       case RecordVerifiedGift(_, receipt) =>
         ValidReceipt(receipt) && receipt.transactionId !in s.giftOrder
         && receipt.unitValue * receipt.quantity <= U64_MAX
       case SendCustomData(_, data) =>
         ValidCustomNamespace(data.namespace) && |data.payload| <= s.policy.maxCustomDataBytes
       case End(actor) => Rank(s.members[actor]) == 3
  }

  /** What an accepted command leaves in the log. */
  ghost predicate Records(command: RoomCommand, kind: RoomEventKind) {
    match command
    case Join(user) => kind == MemberJoined(user, Audience)
    case Leave(user) => kind == MemberLeft(user)
    case SetRole(_, user, role) => kind == RoleChanged(user, role)
    case StartPublishing(user) => kind == PublishingStarted(user)
    case StopPublishing(user) => kind == PublishingStopped(user)
    case SendChat(user, messageId, text) => kind == ChatSent(user, messageId, text)
    case RecordVerifiedGift(sender, receipt) =>
      kind.GiftRecorded? && kind.sender == sender && kind.receipt == receipt
      && kind.totalValue == receipt.unitValue * receipt.quantity
    case SendCustomData(user, data) => kind == CustomDataSent(user, data)
    case End(actor) => kind == Ended(actor)
  }

  /** A command is accepted exactly if the rules allow it, and records exactly what was asked. */
  lemma AcceptedExactlyWhenAuthorized(s: RoomState, command: RoomCommand)
    ensures Decide(s, command).Ok? <==> Authorized(s, command)
    ensures forall kind :: Decide(s, command) == Ok(kind) ==> Records(command, kind)
  {
    hide ValidReceipt, ValidCustomNamespace, Utf8Length;
    match command {
      case SendChat(_, _, text) => TextHasBytes(text);
      case RecordVerifiedGift(sender, receipt) => GiftExactlyWhenAuthorized(s, sender, receipt);
      case _ =>
    }
  }

  lemma TextHasBytes(text: string)
    ensures text == [] <==> Utf8Length(text) == 0
  {
  }

  lemma GiftExactlyWhenAuthorized(s: RoomState, sender: UserId, receipt: GiftReceipt)
    ensures DecideGift(s, sender, receipt).Ok? <==> Authorized(s, RecordVerifiedGift(sender, receipt))
    ensures forall kind :: DecideGift(s, sender, receipt) == Ok(kind) ==>
              Records(RecordVerifiedGift(sender, receipt), kind)
  {
    hide ValidReceipt;
    assert receipt.unitValue * receipt.quantity >= 0;
  }

  /** Every event after the creation was authorized in the state it was applied to. */
  lemma {:induction false} EveryEventWasAuthorized(
    id: RoomId, mode: RoomMode, policy: RoomPolicy, log: seq<RoomEvent>, k: nat)
    requires LegalLog(id, mode, policy, log) && 1 <= k < |log|
    ensures exists command ::
              Authorized(StateAt(id, mode, policy, log, k), command) && Records(command, log[k].kind)
  {
    hide Decide, Apply, Authorized, Records, StateAt;
    assert LegalEvent(StateAt(id, mode, policy, log, k), log[k]);
    var command :| Decide(StateAt(id, mode, policy, log, k), command) == Ok(log[k].kind);
    AcceptedExactlyWhenAuthorized(StateAt(id, mode, policy, log, k), command);
  }

  // ----- The live path and the two directions of agreement with replay -----

  datatype Attempt = Attempt(commandId: CommandId, timestampMillis: u64, command: RoomCommand)

  /** The final state of a run of commands and the events it emitted, failures and repeats included. */
  function RunCommands(s: RoomState, attempts: seq<Attempt>): (RoomState, seq<RoomEvent>) {
    if attempts == [] then (s, [])
    else
      var (before, events) := RunCommands(s, attempts[..|attempts| - 1]);
      var a := attempts[|attempts| - 1];
      var (after, outcome) := ExecuteCommand(before, a.commandId, a.timestampMillis, a.command);
      (after, if outcome.Ok? && outcome.value.Applied? then events + [outcome.value.event] else events)
  }

  /** A command either applies one legal event or changes nothing. */
  lemma ExecuteAppliesOneLegalEvent(s: RoomState, a: Attempt)
    ensures var (after, outcome) := ExecuteCommand(s, a.commandId, a.timestampMillis, a.command);
            if outcome.Ok? && outcome.value.Applied?
            then LegalEvent(s, outcome.value.event) && after == Apply(s, outcome.value.event)
            else after == s
  {
    hide Apply;
    var (after, outcome) := ExecuteCommand(s, a.commandId, a.timestampMillis, a.command);
    if outcome.Ok? && outcome.value.Applied? {
      assert Decide(s, a.command) == Ok(outcome.value.event.kind) by { hide Decide; }
    }
  }

  lemma ReplayOneMore(id: RoomId, mode: RoomMode, policy: RoomPolicy, log: seq<RoomEvent>, event: RoomEvent)
    requires LegalLog(id, mode, policy, log)
    requires LegalEvent(StateAt(id, mode, policy, log, |log|), event)
    ensures LegalLog(id, mode, policy, log + [event])
    ensures StateAt(id, mode, policy, log + [event], |log| + 1)
            == Apply(StateAt(id, mode, policy, log, |log|), event)
  {
    LegalExtend(id, mode, policy, log, event);
    StateAtNext(id, mode, policy, log + [event], |log|);
    StateAtPrefix(id, mode, policy, log, log + [event], |log|);
    hide *;
  }

  /** Whatever commands a room receives, replaying the emitted events rebuilds its state. */
  lemma {:induction false} LiveRoomEqualsReplay(
    id: RoomId, mode: RoomMode, policy: RoomPolicy, creation: RoomEvent, attempts: seq<Attempt>)
    requires creation.sequence == 1 && creation.kind.Created? && creation.kind.mode == mode
    ensures var (s, events) := RunCommands(Apply(EmptyRoom(id, mode, policy), creation), attempts);
            LegalLog(id, mode, policy, [creation] + events)
            && s == StateAt(id, mode, policy, [creation] + events, |events| + 1)
  {
    hide Decide, Apply, ExecuteCommand;
    var created := Apply(EmptyRoom(id, mode, policy), creation);
    if attempts == [] {
      var log: seq<RoomEvent> := [creation] + [];
      assert log == [creation];
      StateAtNext(id, mode, policy, log, 0);
    } else {
      var shorter, a := attempts[..|attempts| - 1], attempts[|attempts| - 1];
      LiveRoomEqualsReplay(id, mode, policy, creation, shorter);
      var (before, events) := RunCommands(created, shorter);
      var (after, outcome) := ExecuteCommand(before, a.commandId, a.timestampMillis, a.command);
      var log := [creation] + events;
      ExecuteAppliesOneLegalEvent(before, a);
      hide LegalLog, StateAt, LegalEvent;
      if outcome.Ok? && outcome.value.Applied? {
        var event := outcome.value.event;
        assert [creation] + (events + [event]) == log + [event];
        ReplayOneMore(id, mode, policy, log, event);
      }
    }
  }

  lemma ExecuteLegalEvent(s: RoomState, event: RoomEvent, command: RoomCommand)
    requires LegalEvent(s, event) && Decide(s, command) == Ok(event.kind)
    ensures ExecuteCommand(s, event.commandId, event.timestampMillis, command)
            == (Apply(s, event), Ok(Applied(event)))
  {
    hide Decide, Apply;
  }

  /** Conversely, every legal log is the output of some run of commands, all of them applied. */
  lemma {:induction false} EveryLegalLogIsALiveRun(
    id: RoomId, mode: RoomMode, policy: RoomPolicy, log: seq<RoomEvent>)
    returns (attempts: seq<Attempt>)
    requires LegalLog(id, mode, policy, log)
    ensures |attempts| == |log| - 1
    ensures RunCommands(Apply(EmptyRoom(id, mode, policy), log[0]), attempts)
            == (StateAt(id, mode, policy, log, |log|), log[1..])
    decreases |log|
  {
    hide Decide, Apply, ExecuteCommand;
    var n := |log| - 1;
    StateAtNext(id, mode, policy, log, n);
    if n == 0 {
      attempts := [];
      assert log[..0] == [] && log[1..] == [];
    } else {
      LegalPrefix(id, mode, policy, log, n);
      var shorter := EveryLegalLogIsALiveRun(id, mode, policy, log[..n]);
      StateAtPrefix(id, mode, policy, log[..n], log, n);
      var before := StateAt(id, mode, policy, log, n);
      assert LegalEvent(before, log[n]);
      var command :| Decide(before, command) == Ok(log[n].kind);
      attempts := shorter + [Attempt(log[n].commandId, log[n].timestampMillis, command)];
      assert attempts[..n - 1] == shorter;
      ExecuteLegalEvent(before, log[n], command);
      assert RunCommands(Apply(EmptyRoom(id, mode, policy), log[0]), attempts[..n - 1])
          == (before, log[..n][1..]);
      assert log[1..] == log[..n][1..] + [log[n]];
    }
  }
}
