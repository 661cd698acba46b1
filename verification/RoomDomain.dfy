/**
 The event-sourced room aggregate: commands are decided against the current state, become events,
 and events are applied. `RoomState` is the value of an aggregate; class `Room` keeps the same
 data in mutable fields, with the two bounded identifier windows held both as a queue and a set.
 */
module RoomDomain {
  import opened Prelude

  const MAX_CHAT_BYTES: nat := 4096
  const MAX_CUSTOM_NAMESPACE_BYTES: nat := 64
  const MAX_CUSTOM_DATA_BYTES: nat := 60 * 1024
  const COMMAND_HISTORY_LIMIT: nat := 4096
  const GIFT_TRANSACTION_HISTORY_LIMIT: nat := 4096
  const MAX_GIFT_TRANSACTION_ID_BYTES: nat := 512
  const MAX_GIFT_ID_BYTES: nat := 256

  type RoomId = u128
  type UserId = u128
  type CommandId = u128

  datatype RoomMode = Sfu | P2p | Live | Vod

  datatype MemberRole = Host | CoHost | Publisher | Audience {
    predicate CanPublish() { Host? || CoHost? || Publisher? }
    predicate CanModerate() { Host? || CoHost? }
  }

  datatype RoomPolicy = RoomPolicy(
    maxMembers: nat, maxPublishers: nat, maxChatBytes: nat, maxCustomDataBytes: nat)

  datatype GiftReceipt = GiftReceipt(
    transactionId: string, giftId: string, quantity: u32, unitValue: u64, currency: string,
    recipient: UserId)

  datatype CustomData = CustomData(namespace: string, schemaVersion: u16, payload: seq<u8>)

  datatype RoomCommand =
    | Join(user: UserId)
    | Leave(user: UserId)
    | SetRole(actor: UserId, user: UserId, role: MemberRole)
    | StartPublishing(user: UserId)
    | StopPublishing(user: UserId)
    | SendChat(user: UserId, messageId: u128, text: string)
    | RecordVerifiedGift(sender: UserId, receipt: GiftReceipt)
    | SendCustomData(user: UserId, data: CustomData)
    | End(actor: UserId)

  datatype RoomEventKind =
    | Created(host: UserId, mode: RoomMode)
    | MemberJoined(user: UserId, role: MemberRole)
    | MemberLeft(user: UserId)
    | RoleChanged(user: UserId, role: MemberRole)
    | PublishingStarted(user: UserId)
    | PublishingStopped(user: UserId)
    | ChatSent(user: UserId, messageId: u128, text: string)
    | GiftRecorded(sender: UserId, receipt: GiftReceipt, totalValue: u64)
    | CustomDataSent(user: UserId, data: CustomData)
    | Ended(actor: UserId)

  datatype RoomEvent = RoomEvent(
    sequence: u64, commandId: CommandId, timestampMillis: u64, kind: RoomEventKind)

  datatype CommandOutcome = Applied(event: RoomEvent) | Duplicate

  datatype RoomError =
    | EmptyEventStream
    | InvalidCreationEvent
    | InvalidSnapshot
    | EventSequenceGap(expected: int, actual: u64)
    | SequenceExhausted
    | RoomEnded
    | AlreadyMember(user: UserId)
    | NotMember(user: UserId)
    | PermissionDenied(user: UserId)
    | HostCannotLeave
    | MemberLimit
    | PublisherLimit
    | AlreadyPublishing(user: UserId)
    | NotPublishing(user: UserId)
    | InvalidChatLength(length: nat)
    | InvalidGiftReceipt
    | DuplicateGiftTransaction
    | GiftValueOverflow
    | InvalidCustomData

  /** The value of a room; the two identifier sets of the aggregate are the elements of the queues. */
  datatype RoomState = RoomState(
    id: RoomId, mode: RoomMode, policy: RoomPolicy,
    members: map<UserId, MemberRole>, publishers: set<UserId>,
    ended: bool, sequence: u64,
    commandOrder: seq<CommandId>, giftOrder: seq<string>)

  function EmptyRoom(id: RoomId, mode: RoomMode, policy: RoomPolicy): RoomState {
    RoomState(id, mode, policy, map[], {}, false, 0, [], [])
  }

  // ----- Decisions -----

  predicate ValidCustomNamespace(value: string) {
    value != [] && Utf8Length(value) <= MAX_CUSTOM_NAMESPACE_BYTES
    && IsAsciiAlphanumeric(value[0]) && IsAsciiAlphanumeric(value[|value| - 1])
    && forall c | c in value :: IsAsciiAlphanumeric(c) || c in {'.', '_', '-'}
  }

  predicate ValidReceipt(receipt: GiftReceipt) {
    BoundedText(receipt.transactionId, MAX_GIFT_TRANSACTION_ID_BYTES)
    && BoundedText(receipt.giftId, MAX_GIFT_ID_BYTES)
    && receipt.quantity != 0
    && |receipt.currency| == 3
    && forall c | c in receipt.currency :: IsAsciiUppercase(c)
  }

  function DecideJoin(s: RoomState, user: UserId): Result<RoomEventKind, RoomError> {
    if user in s.members then Err(AlreadyMember(user))
    else if |s.members| >= s.policy.maxMembers then Err(MemberLimit)
    else Ok(MemberJoined(user, Audience))
  }

  function DecideLeave(s: RoomState, user: UserId): Result<RoomEventKind, RoomError> {
    if user !in s.members then Err(NotMember(user))
    else if s.members[user] == Host then Err(HostCannotLeave)
    else Ok(MemberLeft(user))
  }

  function DecideRoleChange(s: RoomState, actor: UserId, user: UserId, role: MemberRole)
    : Result<RoomEventKind, RoomError>
  {
    if actor !in s.members then Err(NotMember(actor))
    else if user !in s.members then Err(NotMember(user))
    else
      var actorRole, current := s.members[actor], s.members[user];
      if !actorRole.CanModerate()
         || (actorRole == CoHost && (current == Host || current == CoHost))
         || current == Host || role == Host
      then Err(PermissionDenied(actor))
      else Ok(RoleChanged(user, role))
  }

  function DecideStartPublishing(s: RoomState, user: UserId): Result<RoomEventKind, RoomError> {
    if user !in s.members then Err(NotMember(user))
    else if s.mode == Vod || !s.members[user].CanPublish() then Err(PermissionDenied(user))
    else if user in s.publishers then Err(AlreadyPublishing(user))
    else if |s.publishers| >= s.policy.maxPublishers then Err(PublisherLimit)
    else Ok(PublishingStarted(user))
  }

  function DecideStopPublishing(s: RoomState, user: UserId): Result<RoomEventKind, RoomError> {
    if user !in s.members then Err(NotMember(user))
    else if user !in s.publishers then Err(NotPublishing(user))
    else Ok(PublishingStopped(user))
  }

  function DecideChat(s: RoomState, user: UserId, messageId: u128, text: string)
    : Result<RoomEventKind, RoomError>
  {
    if user !in s.members then Err(NotMember(user))
    else if text == [] || Utf8Length(text) > s.policy.maxChatBytes
    then Err(InvalidChatLength(Utf8Length(text)))
    else Ok(ChatSent(user, messageId, text))
  }

  function DecideGift(s: RoomState, sender: UserId, receipt: GiftReceipt)
    : Result<RoomEventKind, RoomError>
  {
    if sender !in s.members then Err(NotMember(sender))
    else if receipt.recipient !in s.members then Err(NotMember(receipt.recipient))
    else if !ValidReceipt(receipt) then Err(InvalidGiftReceipt)
    else if receipt.transactionId in s.giftOrder then Err(DuplicateGiftTransaction)
    else
      var total := receipt.unitValue * receipt.quantity;
      if 0 <= total <= U64_MAX then Ok(GiftRecorded(sender, receipt, total)) else Err(GiftValueOverflow)
  }

  function DecideCustomData(s: RoomState, user: UserId, data: CustomData)
    : Result<RoomEventKind, RoomError>
  {
    if user !in s.members then Err(NotMember(user))
    else if !ValidCustomNamespace(data.namespace) || |data.payload| > s.policy.maxCustomDataBytes
    then Err(InvalidCustomData)
    else Ok(CustomDataSent(user, data))
  }

  function DecideEnd(s: RoomState, actor: UserId): Result<RoomEventKind, RoomError> {
    if actor !in s.members then Err(NotMember(actor))
    else if s.members[actor] != Host then Err(PermissionDenied(actor))
    else Ok(Ended(actor))
  }

  function Decide(s: RoomState, command: RoomCommand): Result<RoomEventKind, RoomError> {
    match command
    case Join(user) => DecideJoin(s, user)
    case Leave(user) => DecideLeave(s, user)
    case SetRole(actor, user, role) => DecideRoleChange(s, actor, user, role)
    case StartPublishing(user) => DecideStartPublishing(s, user)
    case StopPublishing(user) => DecideStopPublishing(s, user)
    case SendChat(user, messageId, text) => DecideChat(s, user, messageId, text)
    case RecordVerifiedGift(sender, receipt) => DecideGift(s, sender, receipt)
    case SendCustomData(user, data) => DecideCustomData(s, user, data)
    case End(actor) => DecideEnd(s, actor)
  }

  // ----- Events -----

  /** A bounded first-in-first-out memory without repetitions. */
  function Remember<T(==)>(order: seq<T>, x: T, limit: nat): seq<T> {
    LastN(if x in order then order else order + [x], limit)
  }

  function ApplyKind(s: RoomState, kind: RoomEventKind): RoomState {
    match kind
    case Created(host, _) => s.(members := s.members[host := Host])
    case MemberJoined(user, role) => SetMember(s, user, role)
    case RoleChanged(user, role) => SetMember(s, user, role)
    case MemberLeft(user) => s.(members := s.members - {user}, publishers := s.publishers - {user})
    case PublishingStarted(user) => s.(publishers := s.publishers + {user})
    case PublishingStopped(user) => s.(publishers := s.publishers - {user})
    case GiftRecorded(_, receipt, _) =>
      s.(giftOrder := Remember(s.giftOrder, receipt.transactionId, GIFT_TRANSACTION_HISTORY_LIMIT))
    case Ended(_) => s.(publishers := {}, ended := true)
    case ChatSent(_, _, _) => s
    case CustomDataSent(_, _) => s
  }

  function SetMember(s: RoomState, user: UserId, role: MemberRole): RoomState {
    s.(members := s.members[user := role],
       publishers := if role.CanPublish() then s.publishers else s.publishers - {user})
  }

  function Apply(s: RoomState, event: RoomEvent): RoomState {
    ApplyKind(s, event.kind).(
      sequence := event.sequence,
      commandOrder := Remember(s.commandOrder, event.commandId, COMMAND_HISTORY_LIMIT))
  }

  /** The state after a whole event stream. */
  function Replay(s: RoomState, events: seq<RoomEvent>): RoomState {
    if events == [] then s
    else Apply(Replay(s, events[..|events| - 1]), events[|events| - 1])
  }

  function CreationEvent(mode: RoomMode, host: UserId, commandId: CommandId, timestampMillis: u64)
    : RoomEvent
  {
    RoomEvent(1, commandId, timestampMillis, Created(host, mode))
  }

  /** One command: the state it leaves and what the caller is told. */
  function ExecuteCommand(s: RoomState, commandId: CommandId, timestampMillis: u64, command: RoomCommand)
    : (RoomState, Result<CommandOutcome, RoomError>)
  {
    if commandId in s.commandOrder then (s, Ok(Duplicate))
    else if s.ended then (s, Err(RoomEnded))
    else match Decide(s, command)
      case Err(error) => (s, Err(error))
      case Ok(kind) =>
        if s.sequence == U64_MAX then (s, Err(SequenceExhausted))
        else
          var event := RoomEvent(s.sequence + 1, commandId, timestampMillis, kind);
          (Apply(s, event), Ok(Applied(event)))
  }

  // ----- The mutable aggregate -----

  lemma RememberKeeps<T>(order: seq<T>, x: T, limit: nat)
    requires Distinct(order) && |order| <= limit
    ensures Distinct(Remember(order, x, limit)) && |Remember(order, x, limit)| <= limit
  {
  }

  class Room {
    var id: RoomId
    var mode: RoomMode
    var policy: RoomPolicy
    var members: map<UserId, MemberRole>
    var publishers: set<UserId>
    var ended: bool
    var sequence: u64
    var processedCommands: set<CommandId>
    var commandOrder: seq<CommandId>
    var giftTransactions: set<string>
    var giftTransactionOrder: seq<string>

    /** Each set holds exactly the entries of its queue, and each queue is bounded and distinct. */
    ghost predicate Valid()
      reads this
    {
      processedCommands == Elements(commandOrder) && Distinct(commandOrder)
      && |commandOrder| <= COMMAND_HISTORY_LIMIT
      && giftTransactions == Elements(giftTransactionOrder) && Distinct(giftTransactionOrder)
      && |giftTransactionOrder| <= GIFT_TRANSACTION_HISTORY_LIMIT
    }

    function State(): RoomState
      reads this
    {
      RoomState(id, mode, policy, members, publishers, ended, sequence, commandOrder,
                giftTransactionOrder)
    }

    constructor Empty(id: RoomId, mode: RoomMode, policy: RoomPolicy)
      ensures Valid() && State() == EmptyRoom(id, mode, policy)
    {
      this.id, this.mode, this.policy := id, mode, policy;
      members, publishers, ended, sequence := map[], {}, false, 0;
      processedCommands, commandOrder := {}, [];
      giftTransactions, giftTransactionOrder := {}, [];
    }

    /** Rebuilds both sets from the queues of a state with sound histories. */
    constructor FromState(s: RoomState)
      requires Distinct(s.commandOrder) && |s.commandOrder| <= COMMAND_HISTORY_LIMIT
      requires Distinct(s.giftOrder) && |s.giftOrder| <= GIFT_TRANSACTION_HISTORY_LIMIT
      ensures Valid() && State() == s
    {
      id, mode, policy := s.id, s.mode, s.policy;
      members, publishers, ended, sequence := s.members, s.publishers, s.ended, s.sequence;
      processedCommands, commandOrder := Elements(s.commandOrder), s.commandOrder;
      giftTransactions, giftTransactionOrder := Elements(s.giftOrder), s.giftOrder;
    }

    static method Create(id: RoomId, mode: RoomMode, host: UserId, policy: RoomPolicy,
                         commandId: CommandId, timestampMillis: u64)
      returns (room: Room, event: RoomEvent)
      ensures fresh(room) && room.Valid()
      ensures event == CreationEvent(mode, host, commandId, timestampMillis)
      ensures room.State() == Apply(EmptyRoom(id, mode, policy), event)
    {
      event := RoomEvent(1, commandId, timestampMillis, Created(host, mode));
      room := new Room.Empty(id, mode, policy);
      room.ApplyEvent(event);
    }

    /** Rebuilds the aggregate from an event stream, or reports the first thing wrong with it. */
    static method Restore(id: RoomId, mode: RoomMode, policy: RoomPolicy, events: seq<RoomEvent>)
      returns (r: Result<Room, RoomError>)
      ensures events == [] <==> r == Err(EmptyEventStream)
      ensures events != [] && !(events[0].kind.Created? && events[0].kind.mode == mode)
              <==> r == Err(InvalidCreationEvent)
      ensures r.Ok? <==> (events != [] && events[0].kind.Created? && events[0].kind.mode == mode
                          && forall k :: 0 <= k < |events| ==> events[k].sequence == k + 1)
      ensures r.Ok? ==> fresh(r.value) && r.value.Valid()
                        && r.value.State() == Replay(EmptyRoom(id, mode, policy), events)
      ensures r.Err? && r.error.EventSequenceGap? ==>
        exists k :: 0 <= k < |events| && events[k].sequence != k + 1
                    && r.error == EventSequenceGap(k + 1, events[k].sequence)
                    && forall j :: 0 <= j < k ==> events[j].sequence == j + 1
    {
      hide ApplyKind, Remember, Distinct, Elements;
      if events == [] { return Err(EmptyEventStream); }
      if !(events[0].kind.Created? && events[0].kind.mode == mode) {
        return Err(InvalidCreationEvent);
      }
      var room := new Room.Empty(id, mode, policy);
      for i := 0 to |events|
        invariant fresh(room) && room.Valid()
        invariant room.State() == Replay(EmptyRoom(id, mode, policy), events[..i])
        invariant room.sequence == i
        invariant forall k :: 0 <= k < i ==> events[k].sequence == k + 1
      {
        var expected := room.sequence + 1;
        if events[i].sequence != expected {
          return Err(EventSequenceGap(expected, events[i].sequence));
        }
        assert events[..i + 1][..i] == events[..i];
        room.ApplyEvent(events[i]);
      }
      assert events[..|events|] == events;
      r := Ok(room);
    }

    method Execute(commandId: CommandId, timestampMillis: u64, command: RoomCommand)
      returns (r: Result<CommandOutcome, RoomError>)
      requires Valid()
      modifies this
      ensures Valid()
      ensures (State(), r) == ExecuteCommand(old(State()), commandId, timestampMillis, command)
    {
      if commandId in processedCommands { return Ok(Duplicate); }
      if ended { return Err(RoomEnded); }
      var decision := Decide(State(), command);
      if decision.Err? { return Err(decision.error); }
      if sequence == U64_MAX { return Err(SequenceExhausted); }
      var event := RoomEvent(sequence + 1, commandId, timestampMillis, decision.value);
      ApplyEvent(event);
      r := Ok(Applied(event));
    }

    method ApplyEvent(event: RoomEvent)
      requires Valid()
      modifies this
      ensures Valid() && State() == Apply(old(State()), event)
    {
      hide Remember, Distinct, Elements;
      match event.kind {
        case Created(host, _) =>
          members := members[host := Host];
        case MemberJoined(user, role) =>
          members := members[user := role];
          if !role.CanPublish() { publishers := publishers - {user}; }
        case RoleChanged(user, role) =>
          members := members[user := role];
          if !role.CanPublish() { publishers := publishers - {user}; }
        case MemberLeft(user) =>
          members := members - {user};
          publishers := publishers - {user};
        case PublishingStarted(user) =>
          publishers := publishers + {user};
        case PublishingStopped(user) =>
          publishers := publishers - {user};
        case GiftRecorded(_, receipt, _) =>
          RememberGiftTransaction(receipt.transactionId);
        case Ended(_) =>
          publishers := {};
          ended := true;
        case ChatSent(_, _, _) =>
        case CustomDataSent(_, _) =>
      }
      sequence := event.sequence;
      RememberCommand(event.commandId);
    }

    method RememberCommand(commandId: CommandId)
      requires Valid()
      modifies `processedCommands, `commandOrder
      ensures Valid()
      ensures commandOrder == Remember(old(commandOrder), commandId, COMMAND_HISTORY_LIMIT)
    {
      if commandId !in processedCommands {
        processedCommands := processedCommands + {commandId};
        commandOrder := commandOrder + [commandId];
      }
      ghost var full := commandOrder;
      while |commandOrder| > COMMAND_HISTORY_LIMIT
        invariant |commandOrder| <= |full| && commandOrder == full[|full| - |commandOrder|..]
        invariant |commandOrder| >= Min(|full|, COMMAND_HISTORY_LIMIT)
        invariant Distinct(commandOrder) && processedCommands == Elements(commandOrder)
      {
        var expired := commandOrder[0];
        commandOrder := commandOrder[1..];
        processedCommands := processedCommands - {expired};
      }
    }

    method RememberGiftTransaction(transactionId: string)
      requires Valid()
      modifies `giftTransactions, `giftTransactionOrder
      ensures Valid()
      ensures giftTransactionOrder
              == Remember(old(giftTransactionOrder), transactionId, GIFT_TRANSACTION_HISTORY_LIMIT)
    {
      if transactionId !in giftTransactions {
        giftTransactions := giftTransactions + {transactionId};
        giftTransactionOrder := giftTransactionOrder + [transactionId];
      }
      ghost var full := giftTransactionOrder;
      while |giftTransactionOrder| > GIFT_TRANSACTION_HISTORY_LIMIT
        invariant |giftTransactionOrder| <= |full|
                  && giftTransactionOrder == full[|full| - |giftTransactionOrder|..]
        invariant |giftTransactionOrder| >= Min(|full|, GIFT_TRANSACTION_HISTORY_LIMIT)
        invariant Distinct(giftTransactionOrder)
                  && giftTransactions == Elements(giftTransactionOrder)
      {
        var expired := giftTransactionOrder[0];
        giftTransactionOrder := giftTransactionOrder[1..];
        giftTransactions := giftTransactions - {expired};
      }
    }
  }
}
