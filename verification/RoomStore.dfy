/**
 The durable side of a room: its conversion to and from a stored row, and the two transactions of
 the control store that write rooms, events, gift-ledger entries and outbox rows together.
 */
module RoomStore {
  import opened Prelude
  import opened RoomDomain
  import opened RoomSnapshots

  const SIDE_EFFECT_HISTORY_LIMIT: nat := 4096

  /** A cached room of one API replica; its signals are modelled separately. */
  datatype ManagedRoom = ManagedRoom(
    room: RoomState, creationEvent: RoomEvent, revision: u64, sideEffects: seq<CommandId>)

  /** The stored form: compact state, or a legacy event list. */
  datatype PersistedRoom = PersistedRoom(
    roomId: RoomId, mode: RoomMode, policy: RoomPolicy, events: seq<RoomEvent>,
    state: Option<RoomSnapshot>, creationEvent: Option<RoomEvent>, revision: u64,
    sideEffects: seq<CommandId>)

  datatype StoredRoom = StoredRoom(
    roomId: RoomId, creationCommand: CommandId, revision: u64, snapshot: PersistedRoom, ended: bool)

  datatype LoadError = CorruptSnapshot

  /** `Room.Restore` as a value: the whole stream or nothing. */
  function RestoreEvents(id: RoomId, mode: RoomMode, policy: RoomPolicy, events: seq<RoomEvent>)
    : Option<RoomState>
  {
    if events != [] && events[0].kind.Created? && events[0].kind.mode == mode
       && forall k | 0 <= k < |events| :: events[k].sequence == k + 1
    then Some(Replay(EmptyRoom(id, mode, policy), events))
    else None
  }

  function CreationOf(p: PersistedRoom): Option<RoomEvent> {
    if p.creationEvent.Some? then p.creationEvent
    else if p.events != [] then Some(p.events[0])
    else None
  }

  function RestoredState(p: PersistedRoom): Option<RoomState> {
    match p.state
    case Some(snapshot) =>
      (match RestoreSnapshot(snapshot) case Ok(s) => Some(s) case Err(_) => None)
    case None => RestoreEvents(p.roomId, p.mode, p.policy, p.events)
  }

  function ManagedFromPersisted(p: PersistedRoom): Result<ManagedRoom, LoadError> {
    if |p.sideEffects| > SIDE_EFFECT_HISTORY_LIMIT || |Elements(p.sideEffects)| != |p.sideEffects|
    then Err(CorruptSnapshot)
    else
      match (CreationOf(p), RestoredState(p))
      case (Some(creation), Some(room)) =>
        if room.id == p.roomId && room.mode == p.mode && room.policy == p.policy
           && room.sequence == p.revision
           && creation.kind.Created? && creation.sequence == 1 && creation.kind.mode == room.mode
           && creation.kind.host in room.members && room.members[creation.kind.host] == Host
        then Ok(ManagedRoom(room, creation, p.revision, p.sideEffects))
        else Err(CorruptSnapshot)
      case _ => Err(CorruptSnapshot)
  }

  function PersistedFrom(roomId: RoomId, m: ManagedRoom): PersistedRoom {
    PersistedRoom(roomId, m.room.mode, m.room.policy, [], Some(Snapshot(m.room)),
                  Some(m.creationEvent), m.revision, m.sideEffects)
  }

  function StoredFrom(roomId: RoomId, m: ManagedRoom): StoredRoom {
    StoredRoom(roomId, m.creationEvent.commandId, m.revision, PersistedFrom(roomId, m), m.room.ended)
  }

  /** Row checks followed by the aggregate checks. */
  function LoadManaged(stored: StoredRoom): Result<ManagedRoom, LoadError> {
    var creation := CreationOf(stored.snapshot);
    if stored.snapshot.roomId == stored.roomId && stored.snapshot.revision == stored.revision
       && creation.Some? && creation.value.commandId == stored.creationCommand
    then ManagedFromPersisted(stored.snapshot)
    else Err(CorruptSnapshot)
  }

  // ----- Tables -----

  datatype GiftRow = GiftRow(
    roomId: RoomId, eventSequence: u64, sender: UserId, receipt: GiftReceipt, totalValue: int)

  datatype OutboxEntry = OutboxEntry(
    aggregateId: RoomId, aggregateSequence: u64, eventType: string, payload: RoomEvent)

  /**
   Rooms by identifier, events by (room, sequence), the gift ledger by provider transaction, and
   every room row inserted into the outbox so far.
   */
  datatype Tables = Tables(
    rooms: map<RoomId, StoredRoom>, events: map<(RoomId, u64), RoomEvent>,
    ledger: map<string, GiftRow>, outbox: seq<OutboxEntry>)

  datatype StoreError =
    | InvalidInitialRevision
    | InvalidRevisionTransition(expected: int, actual: u64)
    | NumericRange
    | RoomNotFound
    | IdentifierCollision
    | InvalidGift
    | DuplicateGiftEntry
    | UniqueViolation

  datatype CreateOutcome = RoomCreated | CreateDuplicate(existing: StoredRoom)

  datatype AppendOutcome =
    | AppendApplied
    | AppendDuplicate(existing: StoredRoom)
    | RevisionConflict(actualRevision: u64)

  function EventType(kind: RoomEventKind): string {
    match kind
    case Created(_, _) => "room.created"
    case MemberJoined(_, _) => "room.member_joined"
    case MemberLeft(_) => "room.member_left"
    case RoleChanged(_, _) => "room.role_changed"
    case PublishingStarted(_) => "room.publishing_started"
    case PublishingStopped(_) => "room.publishing_stopped"
    case ChatSent(_, _, _) => "room.chat_sent"
    case GiftRecorded(_, _, _) => "room.gift_recorded"
    case CustomDataSent(_, _) => "room.custom_data_sent"
    case Ended(_) => "room.ended"
  }

  function Entry(roomId: RoomId, event: RoomEvent): OutboxEntry {
    OutboxEntry(roomId, event.sequence, EventType(event.kind), event)
  }

  function LedgerWrite(roomId: RoomId, event: RoomEvent): Option<GiftRow> {
    if event.kind.GiftRecorded?
    then Some(GiftRow(roomId, event.sequence, event.kind.sender, event.kind.receipt,
                      event.kind.totalValue))
    else None
  }

  predicate ValidGift(g: GiftRow) {
    ValidReceipt(g.receipt) && g.totalValue == g.receipt.unitValue * g.receipt.quantity
  }

  predicate EventExists(t: Tables, roomId: RoomId, commandId: CommandId) {
    exists key | key in t.events :: key.0 == roomId && t.events[key].commandId == commandId
  }

  /** The table's key on the creation command. */
  ghost predicate UniqueCreations(t: Tables) {
    forall a, b | a in t.rooms && b in t.rooms ::
      t.rooms[a].creationCommand == t.rooms[b].creationCommand ==> a == b
  }

  predicate CreationTaken(t: Tables, commandId: CommandId) {
    exists r | r in t.rooms :: t.rooms[r].creationCommand == commandId
  }

  /** The room a creation command already made. */
  ghost function RoomCreatedBy(t: Tables, commandId: CommandId): RoomId
    requires CreationTaken(t, commandId)
  {
    var r :| r in t.rooms && t.rooms[r].creationCommand == commandId;
    r
  }

  /** A failed create changes nothing; a repeated one returns the first room. */
  ghost function CreateRoom(t: Tables, room: StoredRoom, event: RoomEvent)
    : (Tables, Result<CreateOutcome, StoreError>)
  {
    if room.revision != 1 || event.sequence != 1 then (t, Err(InvalidInitialRevision))
    else if CreationTaken(t, room.creationCommand)
    then (t, Ok(CreateDuplicate(t.rooms[RoomCreatedBy(t, room.creationCommand)])))
    else if room.roomId in t.rooms then (t, Err(IdentifierCollision))
    else if (room.roomId, 1) in t.events || EventExists(t, room.roomId, event.commandId)
    then (t, Err(UniqueViolation))
    else (Tables(t.rooms[room.roomId := room], t.events[(room.roomId, 1) := event], t.ledger,
                 t.outbox + [Entry(room.roomId, event)]),
          Ok(RoomCreated))
  }

  /** Why a gift cannot enter the ledger. */
  function GiftRefusal(t: Tables, g: GiftRow): Option<StoreError> {
    if g.receipt.quantity > I32_MAX then Some(InvalidGift)
    else if g.receipt.unitValue > I64_MAX then Some(NumericRange)
    else if g.receipt.transactionId in t.ledger
            || (exists id | id in t.ledger ::
                  t.ledger[id].roomId == g.roomId && t.ledger[id].eventSequence == g.eventSequence)
    then Some(DuplicateGiftEntry)
    else None
  }

  /** Compare-and-swap append: the new tables and the answer. */
  function AppendRoomEvent(t: Tables, room: StoredRoom, expected: u64, event: RoomEvent,
                           gift: Option<GiftRow>)
    : (Tables, Result<AppendOutcome, StoreError>)
  {
    if event.sequence == 0 || room.revision == 0 then (t, Err(InvalidInitialRevision))
    else if room.revision != Min(expected + 1, U64_MAX)
    then (t, Err(InvalidRevisionTransition(Min(expected + 1, U64_MAX), room.revision)))
    else if gift.Some? && !ValidGift(gift.value) then (t, Err(InvalidGift))
    else if expected > I64_MAX || room.revision > I64_MAX || event.sequence > I64_MAX
    then (t, Err(NumericRange))
    else if room.roomId !in t.rooms then (t, Err(RoomNotFound))
    else
      var stored := t.rooms[room.roomId];
      if EventExists(t, room.roomId, event.commandId) then (t, Ok(AppendDuplicate(stored)))
      else if stored.revision != expected then (t, Ok(RevisionConflict(stored.revision)))
      else if (room.roomId, event.sequence) in t.events then (t, Err(UniqueViolation))
      else
        var updated := stored.(revision := room.revision, snapshot := room.snapshot,
                               ended := room.ended);
        var written := Tables(t.rooms[room.roomId := updated],
                              t.events[(room.roomId, event.sequence) := event], t.ledger,
                              t.outbox + [Entry(room.roomId, event)]);
        match gift
        case None => (written, Ok(AppendApplied))
        case Some(g) =>
          match GiftRefusal(t, g)
          case Some(error) => (t, Err(error))
          case None => (written.(ledger := t.ledger[g.receipt.transactionId := g]), Ok(AppendApplied))
  }

  /** Only an applied append writes anything. */
  lemma LosersChangeNothing(t: Tables, room: StoredRoom, expected: u64, event: RoomEvent,
                            gift: Option<GiftRow>)
    ensures var (t', r) := AppendRoomEvent(t, room, expected, event, gift);
            r != Ok(AppendApplied) <==> t' == t
  {
    var (t', r) := AppendRoomEvent(t, room, expected, event, gift);
    if r == Ok(AppendApplied) {
      assert |t'.outbox| == |t.outbox| + 1;
    }
  }

  /** The store as an object whose transactions update its tables in place. */
  class ControlStore {
    var rooms: map<RoomId, StoredRoom>
    var events: map<(RoomId, u64), RoomEvent>
    var ledger: map<string, GiftRow>
    var outbox: seq<OutboxEntry>

    function Contents(): Tables
      reads this
    {
      Tables(rooms, events, ledger, outbox)
    }

    ghost predicate Valid()
      reads this
    {
      UniqueCreations(Contents())
    }

    constructor ()
      ensures Valid() && Contents() == Tables(map[], map[], map[], [])
    {
      rooms, events, ledger, outbox := map[], map[], map[], [];
    }

    method Create(room: StoredRoom, event: RoomEvent)
      returns (r: Result<CreateOutcome, StoreError>)
      requires Valid()
      modifies this
      ensures Valid()
      ensures (Contents(), r) == CreateRoom(old(Contents()), room, event)
    {
      if room.revision != 1 || event.sequence != 1 { return Err(InvalidInitialRevision); }
      var duplicate := CreationTaken(Contents(), room.creationCommand);
      if room.roomId in rooms || duplicate {
        if duplicate {
          var existing :| existing in rooms
                          && rooms[existing].creationCommand == room.creationCommand;
          return Ok(CreateDuplicate(rooms[existing]));
        }
        return Err(IdentifierCollision);
      }
      if (room.roomId, 1) in events || EventExists(Contents(), room.roomId, event.commandId) {
        return Err(UniqueViolation);
      }
      rooms := rooms[room.roomId := room];
      events := events[(room.roomId, 1) := event];
      outbox := outbox + [Entry(room.roomId, event)];
      r := Ok(RoomCreated);
    }

    method AppendEvent(room: StoredRoom, expected: u64, event: RoomEvent, gift: Option<GiftRow>)
      returns (r: Result<AppendOutcome, StoreError>)
      requires Valid()
      modifies this
      ensures Valid()
      ensures (Contents(), r) == AppendRoomEvent(old(Contents()), room, expected, event, gift)
    {
      if event.sequence == 0 || room.revision == 0 { return Err(InvalidInitialRevision); }
      var next := Min(expected + 1, U64_MAX);
      if room.revision != next { return Err(InvalidRevisionTransition(next, room.revision)); }
      if gift.Some? && !ValidGift(gift.value) { return Err(InvalidGift); }
      if expected > I64_MAX || room.revision > I64_MAX || event.sequence > I64_MAX {
        return Err(NumericRange);
      }
      if room.roomId !in rooms { return Err(RoomNotFound); }
      var stored := rooms[room.roomId];
      if EventExists(Contents(), room.roomId, event.commandId) {
        return Ok(AppendDuplicate(stored));
      }
      if stored.revision != expected { return Ok(RevisionConflict(stored.revision)); }
      if (room.roomId, event.sequence) in events { return Err(UniqueViolation); }
      if gift.Some? {
        var refusal := GiftRefusal(Contents(), gift.value);
        if refusal.Some? { return Err(refusal.value); }
        ledger := ledger[gift.value.receipt.transactionId := gift.value];
      }
      rooms := rooms[room.roomId := stored.(revision := room.revision, snapshot := room.snapshot,
                                            ended := room.ended)];
      events := events[(room.roomId, event.sequence) := event];
      outbox := outbox + [Entry(room.roomId, event)];
      r := Ok(AppendApplied);
    }
  }
}
