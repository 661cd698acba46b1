/**
 Any number of API replicas sharing one control store. A replica answers commands from a cached
 room that may be stale: it executes on a clone, then tries to append. Steps of different replicas
 interleave freely, replicas crash, and a committed write may go unacknowledged. Over every run the
 stored log of each room is one serial history.
 */
module RoomReplicas {
  import opened Prelude
  import opened RoomDomain
  import opened RoomHistory
  import opened RoomSnapshots
  import opened RoomStore

  type ReplicaId = nat

  /** A clone with one executed command, waiting to be appended. */
  datatype Candidate = Candidate(
    roomId: RoomId, expected: u64, managed: ManagedRoom, event: RoomEvent)

  datatype System = System(
    db: Tables, caches: map<(ReplicaId, RoomId), ManagedRoom>, pending: map<ReplicaId, Candidate>)

  datatype Step =
    | CreateRoomOn(replica: ReplicaId, roomId: RoomId, mode: RoomMode, host: UserId,
                   maxMembers: Option<nat>, maxPublishers: Option<nat>, commandId: CommandId,
                   timestampMillis: u64, acknowledged: bool)
    | Refresh(replica: ReplicaId, roomId: RoomId)
    | Begin(replica: ReplicaId, roomId: RoomId, commandId: CommandId, timestampMillis: u64,
            command: RoomCommand)
    | Commit(replica: ReplicaId, acknowledged: bool)
    | RememberSideEffect(replica: ReplicaId, roomId: RoomId, commandId: CommandId)
    | Crash(replica: ReplicaId)

  function Initial(): System {
    System(Tables(map[], map[], map[], []), map[], map[])
  }

  function Clamp(value: nat, low: nat, high: nat): nat {
    if value < low then low else if value > high then high else value
  }

  /** The policy a creation request gets. */
  function RequestedPolicy(maxMembers: Option<nat>, maxPublishers: Option<nat>): RoomPolicy {
    RoomPolicy(
      if maxMembers.Some? then Clamp(maxMembers.value, 2, 100_000) else 10_000,
      if maxPublishers.Some? then Clamp(maxPublishers.value, 1, 1024) else 32,
      MAX_CHAT_BYTES, MAX_CUSTOM_DATA_BYTES)
  }

  function NewRoom(step: Step): ManagedRoom
    requires step.CreateRoomOn?
  {
    var event := CreationEvent(step.mode, step.host, step.commandId, step.timestampMillis);
    var policy := RequestedPolicy(step.maxMembers, step.maxPublishers);
    ManagedRoom(Apply(EmptyRoom(step.roomId, step.mode, policy), event), event, 1, [])
  }

  /** The cache entry after reading a stored row; a corrupt row leaves the cache alone. */
  function CacheStored(caches: map<(ReplicaId, RoomId), ManagedRoom>, replica: ReplicaId,
                       stored: StoredRoom)
    : map<(ReplicaId, RoomId), ManagedRoom>
  {
    match LoadManaged(stored)
    case Ok(managed) => caches[(replica, stored.roomId) := managed]
    case Err(_) => caches
  }

  /** Clones the cached room, executes, and keeps the result if it emitted an event. */
  function BeginCandidate(m: ManagedRoom, step: Step): Option<Candidate>
    requires step.Begin?
  {
    var (room, outcome) := ExecuteCommand(m.room, step.commandId, step.timestampMillis, step.command);
    if outcome.Ok? && outcome.value.Applied? && m.revision < U64_MAX
    then Some(Candidate(step.roomId, m.revision, m.(room := room, revision := m.revision + 1),
                        outcome.value.event))
    else None
  }

  function AppendCandidate(db: Tables, c: Candidate): (Tables, Result<AppendOutcome, StoreError>) {
    AppendRoomEvent(db, StoredFrom(c.roomId, c.managed), c.expected, c.event,
                    LedgerWrite(c.roomId, c.event))
  }

  ghost function Next(s: System, step: Step): System {
    match step
    case CreateRoomOn(replica, roomId, _, _, _, _, _, _, acknowledged) =>
      var managed := NewRoom(step);
      var (db, outcome) := CreateRoom(s.db, StoredFrom(roomId, managed), managed.creationEvent);
      var caches :=
        if !acknowledged || outcome.Err? then s.caches
        else if outcome.value.RoomCreated? then s.caches[(replica, roomId) := managed]
        else CacheStored(s.caches, replica, outcome.value.existing);
      s.(db := db, caches := caches)
    case Refresh(replica, roomId) =>
      if roomId !in s.db.rooms then s
      else s.(caches := CacheStored(s.caches, replica, s.db.rooms[roomId]))
    case Begin(replica, roomId, _, _, _) =>
      if replica in s.pending || (replica, roomId) !in s.caches then s
      else
        var candidate := BeginCandidate(s.caches[(replica, roomId)], step);
        if candidate.None? then s else s.(pending := s.pending[replica := candidate.value])
    case Commit(replica, acknowledged) =>
      if replica !in s.pending then s
      else
        var c := s.pending[replica];
        var (db, outcome) := AppendCandidate(s.db, c);
        var caches :=
          if !acknowledged || outcome.Err? || outcome.value.RevisionConflict? then s.caches
          else if outcome.value.AppendApplied? then s.caches[(replica, c.roomId) := c.managed]
          else CacheStored(s.caches, replica, outcome.value.existing);
        System(db, caches, s.pending - {replica})
    case RememberSideEffect(replica, roomId, commandId) =>
      if (replica, roomId) !in s.caches then s
      else
        var m := s.caches[(replica, roomId)];
        s.(caches := s.caches[(replica, roomId) := m.(sideEffects :=
             Remember(m.sideEffects, commandId, SIDE_EFFECT_HISTORY_LIMIT))])
    case Crash(replica) =>
      s.(caches := map key | key in s.caches && key.0 != replica :: s.caches[key],
         pending := s.pending - {replica})
  }

  ghost function RunSteps(s: System, steps: seq<Step>): System {
    if steps == [] then s
    else Next(RunSteps(s, steps[..|steps| - 1]), steps[|steps| - 1])
  }

  // ----- What the tables always satisfy -----

  ghost predicate Contiguous(t: Tables, r: RoomId) {
    r in t.rooms && forall k: u64 :: (r, k) in t.events <==> 1 <= k <= t.rooms[r].revision
  }

  /** All stored events of a room, in sequence order. */
  ghost function Log(t: Tables, r: RoomId): seq<RoomEvent>
    requires Contiguous(t, r)
  {
    seq(t.rooms[r].revision, i requires 0 <= i < t.rooms[r].revision => t.events[(r, i + 1)])
  }

  ghost predicate SideEffectsOk(order: seq<CommandId>) {
    Distinct(order) && |order| <= SIDE_EFFECT_HISTORY_LIMIT
  }

  /** `m` is exactly the room after the first `m.revision` events of `log`. */
  ghost predicate ManagedAt(r: RoomId, m: ManagedRoom, log: seq<RoomEvent>) {
    1 <= m.revision <= |log| && LegalLog(r, m.room.mode, m.room.policy, log)
    && PolicyAccepted(m.room.policy)
    && m.room == StateAt(r, m.room.mode, m.room.policy, log, m.revision)
    && m.creationEvent == log[0]
    && SideEffectsOk(m.sideEffects)
  }

  /** The row is the stored form of the room after its whole log, and no command occurs twice. */
  ghost predicate RoomOk(t: Tables, r: RoomId) {
    Contiguous(t, r) && 1 <= t.rooms[r].revision <= I64_MAX
    && Distinct(CommandIds(Log(t, r)))
    && exists m :: ManagedAt(r, m, Log(t, r)) && t.rooms[r] == StoredFrom(r, m)
                   && m.revision == |Log(t, r)|
  }

  ghost predicate NoOrphanEvents(t: Tables) {
    forall key :: key in t.events ==> key.0 in t.rooms && t.events[key].sequence == key.1
  }

  /** The ledger lists every recorded gift once, under its transaction, and nothing else. */
  ghost predicate LedgerOk(t: Tables) {
    && (forall id :: id in t.ledger ==>
          var g := t.ledger[id];
          id == g.receipt.transactionId && (g.roomId, g.eventSequence) in t.events
          && LedgerWrite(g.roomId, t.events[(g.roomId, g.eventSequence)]) == Some(g))
    && (forall key :: key in t.events && t.events[key].kind.GiftRecorded? ==>
          var id := t.events[key].kind.receipt.transactionId;
          id in t.ledger && LedgerWrite(key.0, t.events[key]) == Some(t.ledger[id]))
  }

  /** Every stored event has exactly one outbox row, written with it. */
  ghost predicate OutboxOk(t: Tables) {
    && (forall i :: 0 <= i < |t.outbox| ==>
          var e := t.outbox[i];
          (e.aggregateId, e.aggregateSequence) in t.events
          && e == Entry(e.aggregateId, t.events[(e.aggregateId, e.aggregateSequence)]))
    && (forall key :: key in t.events ==> Entry(key.0, t.events[key]) in t.outbox)
    && Distinct(t.outbox)
  }

  ghost predicate TablesOk(t: Tables) {
    UniqueCreations(t) && NoOrphanEvents(t) && LedgerOk(t) && OutboxOk(t)
    && forall r :: r in t.rooms ==> RoomOk(t, r)
  }

  ghost predicate CacheOk(t: Tables, r: RoomId, m: ManagedRoom) {
    r in t.rooms && Contiguous(t, r) && ManagedAt(r, m, Log(t, r))
    && m.room.mode == t.rooms[r].snapshot.mode && m.room.policy == t.rooms[r].snapshot.policy
  }

  /** A candidate extends some prefix of the stored log by one legal event. */
  ghost predicate CandidateOk(t: Tables, c: Candidate) {
    c.roomId in t.rooms && Contiguous(t, c.roomId) && c.managed.revision == c.expected + 1
    && exists base :: CacheOk(t, c.roomId, base) && base.revision == c.expected
                      && LegalEvent(base.room, c.event)
                      && c.managed == base.(room := Apply(base.room, c.event),
                                            revision := c.expected + 1)
  }

  ghost predicate SystemOk(s: System) {
    TablesOk(s.db)
    && (forall key :: key in s.caches ==> CacheOk(s.db, key.1, s.caches[key]))
    && (forall p :: p in s.pending ==> CandidateOk(s.db, s.pending[p]))
  }

  /** Rooms stay, and their logs and the outbox only grow. */
  ghost predicate Grows(t: Tables, t': Tables) {
    t.outbox <= t'.outbox
    && forall r :: r in t.rooms && Contiguous(t, r) ==>
      Contiguous(t', r) && Log(t, r) <= Log(t', r)
      && t'.rooms[r].snapshot.mode == t.rooms[r].snapshot.mode
      && t'.rooms[r].snapshot.policy == t.rooms[r].snapshot.policy
  }

  // ----- Rooms and rows -----

  /** What is stored is what is loaded. */
  lemma StoredRoundTrip(r: RoomId, m: ManagedRoom, log: seq<RoomEvent>)
    requires ManagedAt(r, m, log)
    ensures LoadManaged(StoredFrom(r, m)) == Ok(m)
  {
    hide LegalLog, StateAt, Snapshot, RestoreSnapshot, PolicyAccepted, HistoriesSound;
    EveryRoomIsSound(r, m.room.mode, m.room.policy, log, m.revision);
    CreationOpensTheLog(r, m.room.mode, m.room.policy, log);
    ReachableRoomsSurviveSnapshots(r, m.room.mode, m.room.policy, log, m.revision);
    ElementsCardinality(m.sideEffects);
  }

  /** The legacy stored form of a room: its events and nothing else. */
  function LegacyFrom(r: RoomId, m: ManagedRoom, log: seq<RoomEvent>): PersistedRoom {
    PersistedRoom(r, m.room.mode, m.room.policy, log, None, None, m.revision, m.sideEffects)
  }

  /** Replaying a legacy event list and reading a compact snapshot recover the same room. */
  lemma RecoveryPathsAgree(r: RoomId, m: ManagedRoom, log: seq<RoomEvent>)
    requires ManagedAt(r, m, log) && m.revision == |log|
    ensures ManagedFromPersisted(LegacyFrom(r, m, log)) == ManagedFromPersisted(PersistedFrom(r, m)) == Ok(m)
  {
    hide LegalLog, StateAt, Snapshot, RestoreSnapshot, PolicyAccepted, HistoriesSound, RestoreEvents;
    StoredRoundTrip(r, m, log);
    EveryRoomIsSound(r, m.room.mode, m.room.policy, log, m.revision);
    CreationOpensTheLog(r, m.room.mode, m.room.policy, log);
    LegacyEventsRestore(r, m.room.mode, m.room.policy, log);
    ElementsCardinality(m.sideEffects);
  }

  lemma {:induction false} LegacyEventsRestore(r: RoomId, mode: RoomMode, policy: RoomPolicy, log: seq<RoomEvent>)
    requires LegalLog(r, mode, policy, log)
    ensures RestoreEvents(r, mode, policy, log) == Some(StateAt(r, mode, policy, log, |log|))
  {
    CreationOpensTheLog(r, mode, policy, log);
    LegalLogIsNumbered(r, mode, policy, log);
    hide LegalLog, Replay;
    assert log[..|log|] == log;
  }

  lemma LegalLogIsNumbered(r: RoomId, mode: RoomMode, policy: RoomPolicy, log: seq<RoomEvent>)
    requires LegalLog(r, mode, policy, log)
    ensures forall k :: 0 <= k < |log| ==> log[k].sequence == k + 1
  {
    hide Apply, Decide;
    forall k | 0 <= k < |log| ensures log[k].sequence == k + 1 {
      if k > 0 { EveryRoomIsSound(r, mode, policy, log, k); }
    }
  }

  lemma CreationOpensTheLog(r: RoomId, mode: RoomMode, policy: RoomPolicy, log: seq<RoomEvent>)
    requires LegalLog(r, mode, policy, log)
    ensures |log| > 0 && log[0].sequence == 1 && log[0].kind.Created? && log[0].kind.mode == mode
  {
  }

  lemma {:induction false} ManagedAtLonger(r: RoomId, m: ManagedRoom, log: seq<RoomEvent>, longer: seq<RoomEvent>)
    requires ManagedAt(r, m, log) && log <= longer
    requires LegalLog(r, m.room.mode, m.room.policy, longer)
    ensures ManagedAt(r, m, longer)
  {
    StateAtPrefix(r, m.room.mode, m.room.policy, log, longer, m.revision);
    hide LegalLog, StateAt, PolicyAccepted;
  }

  /** Executing on the last state of a log and appending the event keeps state and log together. */
  lemma {:induction false} ManagedAtNext(r: RoomId, base: ManagedRoom, log: seq<RoomEvent>, event: RoomEvent)
    returns (next: ManagedRoom)
    requires ManagedAt(r, base, log) && base.revision == |log| < U64_MAX
    requires LegalEvent(base.room, event)
    ensures next == base.(room := Apply(base.room, event), revision := base.revision + 1)
    ensures ManagedAt(r, next, log + [event]) && event.sequence == |log| + 1
    ensures next.room.mode == base.room.mode && next.room.policy == base.room.policy
  {
    var mode, policy := base.room.mode, base.room.policy;
    next := base.(room := Apply(base.room, event), revision := base.revision + 1);
    ApplyHistories(base.room, event);
    LegalExtend(r, mode, policy, log, event);
    StateAtNext(r, mode, policy, log + [event], |log|);
    StateAtPrefix(r, mode, policy, log, log + [event], |log|);
    EveryRoomIsSound(r, mode, policy, log, |log|);
    hide LegalLog, StateAt, PolicyAccepted, Apply;
  }

  lemma {:induction false} CacheStaysOk(t: Tables, t': Tables, r: RoomId, m: ManagedRoom)
    requires CacheOk(t, r, m) && Grows(t, t') && TablesOk(t')
    ensures CacheOk(t', r, m)
  {
    hide LegalLog, StateAt, PolicyAccepted, Snapshot, LedgerOk, OutboxOk;
    assert RoomOk(t', r);
    var current :| ManagedAt(r, current, Log(t', r)) && t'.rooms[r] == StoredFrom(r, current)
                   && current.revision == |Log(t', r)|;
    ManagedAtLonger(r, m, Log(t, r), Log(t', r));
  }

  lemma {:induction false} CandidateStaysOk(t: Tables, t': Tables, c: Candidate)
    requires CandidateOk(t, c) && Grows(t, t') && TablesOk(t')
    ensures CandidateOk(t', c)
  {
    hide LegalLog, StateAt, PolicyAccepted, TablesOk, ManagedAt, LegalEvent, Apply;
    var base :| CacheOk(t, c.roomId, base) && base.revision == c.expected
                && LegalEvent(base.room, c.event)
                && c.managed == base.(room := Apply(base.room, c.event), revision := c.expected + 1);
    CacheStaysOk(t, t', c.roomId, base);
  }

  /** A stored row loads as the room after its whole log. */
  lemma {:induction false} StoredRowLoads(t: Tables, r: RoomId) returns (m: ManagedRoom)
    requires r in t.rooms && RoomOk(t, r)
    ensures LoadManaged(t.rooms[r]) == Ok(m) && CacheOk(t, r, m) && m.revision == |Log(t, r)|
    ensures t.rooms[r] == StoredFrom(r, m)
  {
    hide LegalLog, StateAt, PolicyAccepted, LoadManaged, Snapshot;
    m :| ManagedAt(r, m, Log(t, r)) && t.rooms[r] == StoredFrom(r, m)
         && m.revision == |Log(t, r)|;
    StoredRoundTrip(r, m, Log(t, r));
  }

  // ----- One committed write -----

  /** The common shape of a committed create and a committed append. */
  ghost predicate Writes(t: Tables, t': Tables, r: RoomId, row: StoredRoom, event: RoomEvent) {
    (r, event.sequence) !in t.events
    && t'.rooms == t.rooms[r := row]
    && t'.events == t.events[(r, event.sequence) := event]
    && t'.outbox == t.outbox + [Entry(r, event)]
    && match LedgerWrite(r, event)
       case None => t'.ledger == t.ledger
       case Some(g) => g.receipt.transactionId !in t.ledger
                       && t'.ledger == t.ledger[g.receipt.transactionId := g]
  }

  lemma WriteKeepsOutbox(t: Tables, t': Tables, r: RoomId, row: StoredRoom, event: RoomEvent)
    requires Writes(t, t', r, row, event) && OutboxOk(t)
    ensures OutboxOk(t')
  {
    hide EventType;
    var entry := Entry(r, event);
    assert t'.outbox[|t.outbox|] == entry;
    forall i | 0 <= i < |t.outbox| ensures t'.outbox[i] == t.outbox[i] && t.outbox[i] != entry {
    }
    forall key | key in t'.events ensures Entry(key.0, t'.events[key]) in t'.outbox {
      if key in t.events && key != (r, event.sequence) {
        assert Entry(key.0, t.events[key]) in t.outbox;
      }
    }
  }

  lemma WriteKeepsLedger(t: Tables, t': Tables, r: RoomId, row: StoredRoom, event: RoomEvent)
    requires Writes(t, t', r, row, event) && LedgerOk(t)
    ensures LedgerOk(t')
  {
  }

  lemma WriteKeepsOtherRooms(t: Tables, t': Tables, r: RoomId, row: StoredRoom, event: RoomEvent,
                             other: RoomId)
    requires Writes(t, t', r, row, event) && other != r && Contiguous(t, other)
    ensures Contiguous(t', other) && Log(t', other) == Log(t, other)
    ensures t'.rooms[other] == t.rooms[other]
    ensures RoomOk(t, other) ==> RoomOk(t', other)
  {
    hide ManagedAt, StoredFrom, Entry, LedgerWrite;
    forall k: u64 ensures (other, k) in t'.events <==> (other, k) in t.events {
    }
  }

  /** The written room: its log gains exactly the new event. */
  lemma WriteExtendsLog(t: Tables, t': Tables, r: RoomId, row: StoredRoom, event: RoomEvent,
                        log: seq<RoomEvent>)
    requires Writes(t, t', r, row, event)
    requires row.revision == event.sequence == |log| + 1
    requires forall k: u64 :: (r, k) in t.events <==> 1 <= k <= |log|
    requires forall k: u64 :: 1 <= k <= |log| ==> t.events[(r, k)] == log[k - 1]
    ensures Contiguous(t', r) && Log(t', r) == log + [event]
  {
    hide Entry, LedgerWrite;
  }

  lemma {:induction false} WrittenRoomOk(t': Tables, r: RoomId, m: ManagedRoom, log: seq<RoomEvent>, event: RoomEvent)
    requires Contiguous(t', r) && Log(t', r) == log + [event] && t'.rooms[r] == StoredFrom(r, m)
    requires ManagedAt(r, m, log + [event]) && m.revision == |log| + 1 <= I64_MAX
    requires Distinct(CommandIds(log)) && event.commandId !in CommandIds(log)
    ensures RoomOk(t', r) && CacheOk(t', r, m)
  {
    hide LegalLog, StateAt, PolicyAccepted, Snapshot;
    var ids := CommandIds(log + [event]);
    assert ids == CommandIds(log) + [event.commandId];
  }

  lemma WriteKeepsKeys(t: Tables, t': Tables, r: RoomId, row: StoredRoom, event: RoomEvent)
    requires Writes(t, t', r, row, event) && UniqueCreations(t) && NoOrphanEvents(t)
    requires forall a :: a in t.rooms && a != r ==> t.rooms[a].creationCommand != row.creationCommand
    ensures UniqueCreations(t') && NoOrphanEvents(t')
  {
    hide Entry, LedgerWrite;
  }

  lemma {:induction false} WriteKeepsRooms(t: Tables, t': Tables, r: RoomId, row: StoredRoom, event: RoomEvent)
    requires Writes(t, t', r, row, event) && RoomOk(t', r)
    requires forall a :: a in t.rooms ==> RoomOk(t, a)
    ensures forall a :: a in t'.rooms ==> RoomOk(t', a)
  {
    hide RoomOk, Log, Entry, LedgerWrite;
    forall a | a in t'.rooms ensures RoomOk(t', a) {
      if a != r {
        RoomOkIsContiguous(t, a);
        WriteKeepsOtherRooms(t, t', r, row, event, a);
      }
    }
  }

  lemma WriteGrows(t: Tables, t': Tables, r: RoomId, row: StoredRoom, event: RoomEvent)
    requires Writes(t, t', r, row, event) && Contiguous(t', r)
    requires r in t.rooms && Contiguous(t, r) ==>
               Log(t, r) <= Log(t', r) && row.snapshot.mode == t.rooms[r].snapshot.mode
               && row.snapshot.policy == t.rooms[r].snapshot.policy
    ensures Grows(t, t')
  {
    hide Log, Entry, LedgerWrite, Contiguous;
    forall a | a in t.rooms && Contiguous(t, a)
      ensures Contiguous(t', a) && Log(t, a) <= Log(t', a)
              && t'.rooms[a].snapshot.mode == t.rooms[a].snapshot.mode
              && t'.rooms[a].snapshot.policy == t.rooms[a].snapshot.policy
    {
      if a != r { WriteKeepsOtherRooms(t, t', r, row, event, a); }
    }
  }

  lemma {:induction false} WriteKeepsTables(t: Tables, t': Tables, r: RoomId, row: StoredRoom, event: RoomEvent)
    requires TablesOk(t) && Writes(t, t', r, row, event) && RoomOk(t', r)
    requires forall a :: a in t.rooms && a != r ==> t.rooms[a].creationCommand != row.creationCommand
    ensures TablesOk(t')
  {
    hide RoomOk, LedgerOk, OutboxOk, Writes, NoOrphanEvents, UniqueCreations;
    WriteKeepsOutbox(t, t', r, row, event);
    WriteKeepsLedger(t, t', r, row, event);
    WriteKeepsKeys(t, t', r, row, event);
    WriteKeepsRooms(t, t', r, row, event);
  }

  lemma {:induction false} RoomOkIsContiguous(t: Tables, r: RoomId)
    requires RoomOk(t, r)
    ensures Contiguous(t, r)
  {
  }

  lemma AppliedAppendWrites(t: Tables, c: Candidate)
    requires AppendCandidate(t, c).1 == Ok(AppendApplied)
    ensures var r := c.roomId;
            r in t.rooms && t.rooms[r].revision == c.expected && c.managed.revision <= I64_MAX
            && !EventExists(t, r, c.event.commandId)
            && Writes(t, AppendCandidate(t, c).0, r,
                      t.rooms[r].(revision := c.managed.revision,
                                  snapshot := PersistedFrom(r, c.managed),
                                  ended := c.managed.room.ended),
                      c.event)
  {
    hide PersistedFrom, EventExists, ValidGift, Entry;
  }

  lemma FreshCommandInLog(t: Tables, r: RoomId, commandId: CommandId)
    requires Contiguous(t, r) && !EventExists(t, r, commandId)
    ensures commandId !in CommandIds(Log(t, r))
  {
    forall i | 0 <= i < |Log(t, r)| ensures Log(t, r)[i].commandId != commandId {
      assert (r, i + 1) in t.events;
    }
  }

  /** A candidate whose base is the whole current log becomes the next stored room. */
  lemma {:induction false} CandidateIsNext(t: Tables, c: Candidate)
    requires CandidateOk(t, c) && c.expected == |Log(t, c.roomId)| < U64_MAX
    ensures ManagedAt(c.roomId, c.managed, Log(t, c.roomId) + [c.event])
    ensures c.event.sequence == c.managed.revision == |Log(t, c.roomId)| + 1
    ensures c.managed.creationEvent == Log(t, c.roomId)[0]
    ensures c.managed.room.mode == t.rooms[c.roomId].snapshot.mode
    ensures c.managed.room.policy == t.rooms[c.roomId].snapshot.policy
  {
    hide LegalLog, StateAt, PolicyAccepted, LegalEvent, Apply, Log, Contiguous;
    var r := c.roomId;
    var base :| CacheOk(t, r, base) && base.revision == c.expected && LegalEvent(base.room, c.event)
                && c.managed == base.(room := Apply(base.room, c.event), revision := c.expected + 1);
    var next := ManagedAtNext(r, base, Log(t, r), c.event);
  }

  lemma {:induction false} UpdatedRowIsStoredForm(t: Tables, c: Candidate)
    requires RoomOk(t, c.roomId) && c.managed.creationEvent == Log(t, c.roomId)[0]
    ensures t.rooms[c.roomId].(revision := c.managed.revision,
                               snapshot := PersistedFrom(c.roomId, c.managed),
                               ended := c.managed.room.ended)
            == StoredFrom(c.roomId, c.managed)
  {
    hide LegalLog, StateAt, PolicyAccepted, PersistedFrom;
    var stored := StoredRowLoads(t, c.roomId);
  }

  /** The written room of a won compare-and-swap. */
  lemma {:induction false} AppliedRoom(t: Tables, c: Candidate)
    requires RoomOk(t, c.roomId) && CandidateOk(t, c)
    requires AppendCandidate(t, c).1 == Ok(AppendApplied)
    ensures var t', r := AppendCandidate(t, c).0, c.roomId;
            Writes(t, t', r, StoredFrom(r, c.managed), c.event)
            && RoomOk(t', r) && CacheOk(t', r, c.managed)
            && Log(t', r) == Log(t, r) + [c.event]
            && c.managed.creationEvent == Log(t, r)[0]
            && t'.rooms[r].snapshot.mode == t.rooms[r].snapshot.mode
            && t'.rooms[r].snapshot.policy == t.rooms[r].snapshot.policy
  {
    hide AppendCandidate, EventExists, ManagedAt, Snapshot, LegalEvent, Apply, Entry, LedgerWrite;
    var t', r, log := AppendCandidate(t, c).0, c.roomId, Log(t, c.roomId);
    AppliedAppendWrites(t, c);
    CandidateIsNext(t, c);
    UpdatedRowIsStoredForm(t, c);
    WriteExtendsLog(t, t', r, StoredFrom(r, c.managed), c.event, log);
    FreshCommandInLog(t, r, c.event.commandId);
    WrittenRoomOk(t', r, c.managed, log, c.event);
  }

  /** The heart of the protocol: a won compare-and-swap extends the one serial history. */
  lemma {:induction false} AppliedAppendExtends(t: Tables, c: Candidate)
    requires TablesOk(t) && CandidateOk(t, c) && AppendCandidate(t, c).1 == Ok(AppendApplied)
    ensures var t' := AppendCandidate(t, c).0;
            TablesOk(t') && Grows(t, t') && CacheOk(t', c.roomId, c.managed)
            && Log(t', c.roomId) == Log(t, c.roomId) + [c.event]
  {
    hide AppendCandidate, Writes, LedgerOk, OutboxOk, ManagedAt, Log, Snapshot;
    var t', r := AppendCandidate(t, c).0, c.roomId;
    AppliedRoom(t, c);
    var stored := StoredRowLoads(t, r);
    assert t.rooms[r].creationCommand == c.managed.creationEvent.commandId by {
      UpdatedRowIsStoredForm(t, c);
    }
    WriteKeepsTables(t, t', r, StoredFrom(r, c.managed), c.event);
    WriteGrows(t, t', r, StoredFrom(r, c.managed), c.event);
  }

  lemma NewRoomManaged(step: Step)
    requires step.CreateRoomOn?
    ensures ManagedAt(step.roomId, NewRoom(step), [NewRoom(step).creationEvent])
    ensures NewRoom(step).creationEvent.sequence == 1 && NewRoom(step).revision == 1
    ensures LedgerWrite(step.roomId, NewRoom(step).creationEvent) == None
  {
    var m := NewRoom(step);
    var log := [m.creationEvent];
    ApplyHistories(EmptyRoom(step.roomId, step.mode, RequestedPolicy(step.maxMembers,
                   step.maxPublishers)), m.creationEvent);
    StateAtNext(step.roomId, m.room.mode, m.room.policy, log, 0);
    assert log[..0] == [];
  }

  lemma CreatedRoomWrites(t: Tables, row: StoredRoom, event: RoomEvent)
    requires CreateRoom(t, row, event).1 == Ok(RoomCreated) && NoOrphanEvents(t)
    requires LedgerWrite(row.roomId, event) == None
    ensures Writes(t, CreateRoom(t, row, event).0, row.roomId, row, event)
    ensures row.roomId !in t.rooms && !CreationTaken(t, row.creationCommand)
    ensures forall k: u64 :: (row.roomId, k) !in t.events
  {
    hide Entry, EventExists;
  }

  lemma {:induction false} CreatedRoomExtends(t: Tables, step: Step)
    requires TablesOk(t) && step.CreateRoomOn?
    requires var m := NewRoom(step);
             CreateRoom(t, StoredFrom(step.roomId, m), m.creationEvent).1 == Ok(RoomCreated)
    ensures var m := NewRoom(step);
            var t' := CreateRoom(t, StoredFrom(step.roomId, m), m.creationEvent).0;
            TablesOk(t') && Grows(t, t') && CacheOk(t', step.roomId, m)
  {
    hide NewRoom, ManagedAt, LedgerOk, OutboxOk, RoomOk, CreateRoom, PersistedFrom, LedgerWrite;
    var m, r := NewRoom(step), step.roomId;
    var row, event := StoredFrom(r, m), m.creationEvent;
    var t' := CreateRoom(t, row, event).0;
    NewRoomManaged(step);
    CreatedRoomWrites(t, row, event);
    WriteExtendsLog(t, t', r, row, event, []);
    assert [] + [event] == [event];
    WrittenRoomOk(t', r, m, [], event);
    WriteKeepsTables(t, t', r, row, event);
    WriteGrows(t, t', r, row, event);
  }

  // ----- Every step keeps the system sound -----

  ghost predicate CachesOk(t: Tables, caches: map<(ReplicaId, RoomId), ManagedRoom>) {
    forall key :: key in caches ==> CacheOk(t, key.1, caches[key])
  }

  ghost predicate PendingOk(t: Tables, pending: map<ReplicaId, Candidate>) {
    forall p :: p in pending ==> CandidateOk(t, pending[p])
  }

  lemma {:induction false} StaysOk(t: Tables, t': Tables, caches: map<(ReplicaId, RoomId), ManagedRoom>,
                pending: map<ReplicaId, Candidate>)
    requires Grows(t, t') && TablesOk(t') && CachesOk(t, caches) && PendingOk(t, pending)
    ensures CachesOk(t', caches) && PendingOk(t', pending)
  {
    hide Grows, TablesOk, CacheOk, CandidateOk;
    forall key | key in caches ensures CacheOk(t', key.1, caches[key]) {
      CacheStaysOk(t, t', key.1, caches[key]);
    }
    forall p | p in pending ensures CandidateOk(t', pending[p]) {
      CandidateStaysOk(t, t', pending[p]);
    }
  }

  lemma {:induction false} CacheStoredOk(t: Tables, caches: map<(ReplicaId, RoomId), ManagedRoom>, replica: ReplicaId,
                      r: RoomId)
    requires TablesOk(t) && CachesOk(t, caches) && r in t.rooms
    ensures CachesOk(t, CacheStored(caches, replica, t.rooms[r]))
  {
    hide CacheOk, RoomOk, LedgerOk, OutboxOk, LoadManaged, Snapshot;
    var m := StoredRowLoads(t, r);
  }

  lemma GrowsReflexive(t: Tables)
    ensures Grows(t, t)
  {
  }

  lemma {:induction false} CreateStepOk(s: System, step: Step)
    requires SystemOk(s) && step.CreateRoomOn?
    ensures SystemOk(Next(s, step)) && Grows(s.db, Next(s, step).db)
  {
    hide TablesOk, CacheOk, CandidateOk, Grows, NewRoom, StoredFrom, CreateRoom, CacheStored;
    var m := NewRoom(step);
    var (db, outcome) := CreateRoom(s.db, StoredFrom(step.roomId, m), m.creationEvent);
    if outcome == Ok(RoomCreated) {
      CreatedRoomExtends(s.db, step);
      StaysOk(s.db, db, s.caches, s.pending);
    } else {
      RefusedCreate(s.db, StoredFrom(step.roomId, m), m.creationEvent);
      GrowsReflexive(s.db);
      if outcome.Ok? {
        var r :| r in s.db.rooms && outcome.value.existing == s.db.rooms[r];
        CacheStoredOk(s.db, s.caches, step.replica, r);
      }
    }
  }

  /** A create that does not insert leaves the tables alone, and a repeat names a stored room. */
  lemma RefusedCreate(t: Tables, row: StoredRoom, event: RoomEvent)
    requires CreateRoom(t, row, event).1 != Ok(RoomCreated)
    ensures CreateRoom(t, row, event).0 == t
    ensures CreateRoom(t, row, event).1.Ok? ==>
              CreateRoom(t, row, event).1.value.CreateDuplicate?
              && exists r :: r in t.rooms
                             && CreateRoom(t, row, event).1.value.existing == t.rooms[r]
                             && t.rooms[r].creationCommand == row.creationCommand
  {
  }

  lemma {:induction false} BeginStepOk(s: System, step: Step)
    requires SystemOk(s) && step.Begin?
    ensures SystemOk(Next(s, step)) && Next(s, step).db == s.db
  {
    hide TablesOk, ManagedAt, ExecuteCommand, LegalEvent, Apply, Log, Contiguous;
    if step.replica !in s.pending && (step.replica, step.roomId) in s.caches {
      var m := s.caches[(step.replica, step.roomId)];
      ExecuteAppliesOneLegalEvent(m.room,
                                  Attempt(step.commandId, step.timestampMillis, step.command));
      var candidate := BeginCandidate(m, step);
      if candidate.Some? {
        assert CandidateOk(s.db, candidate.value) by { assert CacheOk(s.db, step.roomId, m); }
      }
    }
  }

  lemma {:induction false} CommitStepOk(s: System, step: Step)
    requires SystemOk(s) && step.Commit?
    ensures SystemOk(Next(s, step)) && Grows(s.db, Next(s, step).db)
  {
    hide TablesOk, CacheOk, CandidateOk, Grows, AppendCandidate, CacheStored;
    if step.replica !in s.pending {
      GrowsReflexive(s.db);
    } else {
      var c := s.pending[step.replica];
      var (db, outcome) := AppendCandidate(s.db, c);
      if outcome == Ok(AppendApplied) {
        AppliedAppendExtends(s.db, c);
        StaysOk(s.db, db, s.caches, s.pending);
      } else {
        RefusedAppend(s.db, c);
        GrowsReflexive(s.db);
        if outcome.Ok? && outcome.value.AppendDuplicate? {
          CacheStoredOk(s.db, s.caches, step.replica, c.roomId);
        }
      }
    }
  }

  lemma RefusedAppend(t: Tables, c: Candidate)
    requires AppendCandidate(t, c).1 != Ok(AppendApplied)
    ensures AppendCandidate(t, c).0 == t
    ensures AppendCandidate(t, c).1.Ok? && AppendCandidate(t, c).1.value.AppendDuplicate? ==>
              c.roomId in t.rooms && AppendCandidate(t, c).1.value.existing == t.rooms[c.roomId]
  {
    hide PersistedFrom, EventExists, ValidGift, Entry, GiftRefusal;
  }

  lemma {:induction false} LocalStepOk(s: System, step: Step)
    requires SystemOk(s) && (step.Refresh? || step.RememberSideEffect? || step.Crash?)
    ensures SystemOk(Next(s, step)) && Next(s, step).db == s.db
  {
    hide TablesOk, CandidateOk, CacheStored, LegalLog, StateAt, PolicyAccepted, Contiguous, Log;
    if step.Refresh? && step.roomId in s.db.rooms {
      CacheStoredOk(s.db, s.caches, step.replica, step.roomId);
    }
    if step.RememberSideEffect? && (step.replica, step.roomId) in s.caches {
      var m := s.caches[(step.replica, step.roomId)];
      RememberKeeps(m.sideEffects, step.commandId, SIDE_EFFECT_HISTORY_LIMIT);
    }
  }

  lemma {:induction false} NextOk(s: System, step: Step)
    requires SystemOk(s)
    ensures SystemOk(Next(s, step)) && Grows(s.db, Next(s, step).db)
  {
    hide SystemOk, Next, Grows;
    match step {
      case CreateRoomOn(_, _, _, _, _, _, _, _, _) => CreateStepOk(s, step);
      case Begin(_, _, _, _, _) => BeginStepOk(s, step); GrowsReflexive(s.db);
      case Commit(_, _) => CommitStepOk(s, step);
      case _ => LocalStepOk(s, step); GrowsReflexive(s.db);
    }
  }

  lemma GrowsTransitive(a: Tables, b: Tables, c: Tables)
    requires Grows(a, b) && Grows(b, c)
    ensures Grows(a, c)
  {
    hide Log;
    forall r | r in a.rooms && Contiguous(a, r)
      ensures Contiguous(c, r) && Log(a, r) <= Log(c, r)
    {
      assert Contiguous(b, r);
    }
  }

  lemma {:induction false} RunsStayOk(s: System, steps: seq<Step>)
    requires SystemOk(s)
    ensures SystemOk(RunSteps(s, steps)) && Grows(s.db, RunSteps(s, steps).db)
  {
    hide SystemOk, Next, Grows;
    if steps == [] {
      GrowsReflexive(s.db);
    } else {
      var before := RunSteps(s, steps[..|steps| - 1]);
      RunsStayOk(s, steps[..|steps| - 1]);
      NextOk(before, steps[|steps| - 1]);
      GrowsTransitive(s.db, before.db, RunSteps(s, steps).db);
    }
  }

  // ----- The guarantees -----

  /** `m` is what the row of `r` loads as, and `serial` is a sequential run that made its log. */
  ghost predicate SerialHistory(t: Tables, r: RoomId, m: ManagedRoom, serial: seq<Attempt>) {
    Contiguous(t, r)
    && LoadManaged(t.rooms[r]) == Ok(m)
    && LegalLog(r, m.room.mode, m.room.policy, Log(t, r))
    && m.room == Replay(EmptyRoom(r, m.room.mode, m.room.policy), Log(t, r))
    && m.room.sequence == m.revision == t.rooms[r].revision == |Log(t, r)|
    && Distinct(CommandIds(Log(t, r)))
    && RunCommands(Apply(EmptyRoom(r, m.room.mode, m.room.policy), Log(t, r)[0]), serial)
       == (m.room, Log(t, r)[1..])
  }

  lemma {:induction false} StoredRoomIsSerial(t: Tables, r: RoomId) returns (m: ManagedRoom, serial: seq<Attempt>)
    requires RoomOk(t, r)
    ensures SerialHistory(t, r, m, serial)
  {
    hide LoadManaged, RunCommands, LegalLog, Apply, Snapshot, PolicyAccepted, RoomInvariant;
    m := StoredRowLoads(t, r);
    var log := Log(t, r);
    assert log[..|log|] == log;
    EveryRoomIsSound(r, m.room.mode, m.room.policy, log, |log|);
    serial := EveryLegalLogIsALiveRun(r, m.room.mode, m.room.policy, log);
  }

  /**
   Serializability. After any run, for every stored room: the stored log is a legal serial history,
   the row loads as the replay of exactly that log, every command occurs once in the whole log, and
   some sequential list of commands on one room would have produced it.
   */
  lemma {:induction false} Serializability(steps: seq<Step>, r: RoomId)
    ensures var t := RunSteps(Initial(), steps).db;
            r in t.rooms ==> exists m, serial :: SerialHistory(t, r, m, serial)
  {
    InitialOk();
    RunsStayOk(Initial(), steps);
    hide RunSteps, RoomOk, LedgerOk, OutboxOk, CacheOk, CandidateOk, SerialHistory;
    if r in RunSteps(Initial(), steps).db.rooms {
      var m, serial := StoredRoomIsSerial(RunSteps(Initial(), steps).db, r);
    }
  }

  lemma InitialOk()
    ensures SystemOk(Initial())
  {
  }

  /** However stale, a cached room is the replay of a prefix of the stored log. */
  lemma {:induction false} CachesAreStoredPrefixes(steps: seq<Step>, replica: ReplicaId, r: RoomId)
    ensures var s := RunSteps(Initial(), steps);
            (replica, r) in s.caches ==>
              var m := s.caches[(replica, r)];
              Contiguous(s.db, r) && m.revision <= |Log(s.db, r)|
              && m.room == StateAt(r, m.room.mode, m.room.policy, Log(s.db, r), m.revision)
  {
    InitialOk();
    RunsStayOk(Initial(), steps);
    hide RunSteps, LegalLog, StateAt, TablesOk, PolicyAccepted, CandidateOk;
    var s := RunSteps(Initial(), steps);
    if (replica, r) in s.caches { assert CacheOk(s.db, r, s.caches[(replica, r)]); }
  }

  /** Nothing stored is ever lost or rewritten. */
  lemma {:induction false} StoredLogsOnlyGrow(steps: seq<Step>, more: seq<Step>, r: RoomId)
    ensures var t := RunSteps(Initial(), steps).db;
            var t' := RunSteps(RunSteps(Initial(), steps), more).db;
            r in t.rooms ==> Contiguous(t, r) && Contiguous(t', r) && Log(t, r) <= Log(t', r)
  {
    var s := RunSteps(Initial(), steps);
    InitialOk();
    RunsStayOk(Initial(), steps);
    RunsStayOk(s, more);
    hide RunSteps, ManagedAt, Snapshot, LedgerOk, OutboxOk, Log;
    assert r in s.db.rooms ==> RoomOk(s.db, r);
  }

  /** One provider transaction pays for at most one gift on the whole platform. */
  lemma {:induction false} GiftTransactionsArePaidOnce(steps: seq<Step>, a: (RoomId, u64), b: (RoomId, u64))
    ensures var t := RunSteps(Initial(), steps).db;
            (a in t.events && b in t.events
             && t.events[a].kind.GiftRecorded? && t.events[b].kind.GiftRecorded?
             && t.events[a].kind.receipt.transactionId == t.events[b].kind.receipt.transactionId)
            ==> a == b
  {
    var t := RunSteps(Initial(), steps).db;
    InitialOk();
    RunsStayOk(Initial(), steps);
    hide RunSteps, RoomOk, OutboxOk, CacheOk, CandidateOk;
    if a in t.events && b in t.events && t.events[a].kind.GiftRecorded? && t.events[b].kind.GiftRecorded?
       && t.events[a].kind.receipt.transactionId == t.events[b].kind.receipt.transactionId {
      var id := t.events[a].kind.receipt.transactionId;
      assert LedgerWrite(a.0, t.events[a]) == Some(t.ledger[id]) == LedgerWrite(b.0, t.events[b]);
    }
  }

  /** Entry `g` is the gift that event `key` records, field by field. */
  ghost predicate Accounts(t: Tables, g: GiftRow, key: (RoomId, u64)) {
    key in t.events && t.events[key].kind.GiftRecorded?
    && key == (g.roomId, g.eventSequence)
    && t.events[key].kind.sender == g.sender && t.events[key].kind.receipt == g.receipt
    && t.events[key].kind.totalValue == g.totalValue == g.receipt.unitValue * g.receipt.quantity
  }

  lemma {:induction false} LoggedTotal(r: RoomId, mode: RoomMode, policy: RoomPolicy, log: seq<RoomEvent>, k: nat)
    requires LegalLog(r, mode, policy, log) && k < |log| && log[k].kind.GiftRecorded?
    ensures log[k].kind.totalValue == log[k].kind.receipt.unitValue * log[k].kind.receipt.quantity
  {
    assert k > 0 && LegalEvent(StateAt(r, mode, policy, log, k), log[k]);
    DecidedTotal(StateAt(r, mode, policy, log, k), log[k]);
    hide *;
  }

  lemma StoredIsLogged(t: Tables, key: (RoomId, u64))
    requires NoOrphanEvents(t) && key in t.events && Contiguous(t, key.0)
    ensures 1 <= key.1 <= |Log(t, key.0)| && Log(t, key.0)[key.1 - 1] == t.events[key]
    ensures t.events[key].sequence == key.1
  {
    assert key == (key.0, key.1);
  }

  /** A recorded gift's total is its unit value times its quantity. */
  lemma {:induction false} GiftTotals(t: Tables, key: (RoomId, u64))
    requires TablesOk(t) && key in t.events && t.events[key].kind.GiftRecorded?
    ensures t.events[key].sequence == key.1
    ensures var kind := t.events[key].kind;
            kind.totalValue == kind.receipt.unitValue * kind.receipt.quantity
  {
    assert RoomOk(t, key.0);
    hide LedgerOk, OutboxOk, StateAt, PolicyAccepted, StoredFrom, LegalLog, Contiguous, Log;
    StoredIsLogged(t, key);
    var m :| ManagedAt(key.0, m, Log(t, key.0)) && t.rooms[key.0] == StoredFrom(key.0, m)
             && m.revision == |Log(t, key.0)|;
    LoggedTotal(key.0, m.room.mode, m.room.policy, Log(t, key.0), key.1 - 1);
  }

  lemma DecidedTotal(s: RoomState, event: RoomEvent)
    requires LegalEvent(s, event) && event.kind.GiftRecorded?
    ensures event.kind.totalValue == event.kind.receipt.unitValue * event.kind.receipt.quantity
  {
  }

  ghost predicate LedgerExact(t: Tables) {
    && (forall id :: id in t.ledger ==>
          t.ledger[id].receipt.transactionId == id
          && Accounts(t, t.ledger[id], (t.ledger[id].roomId, t.ledger[id].eventSequence)))
    && (forall key :: key in t.events && t.events[key].kind.GiftRecorded? ==>
          var id := t.events[key].kind.receipt.transactionId;
          id in t.ledger && Accounts(t, t.ledger[id], key))
  }

  lemma LedgerIsExact(t: Tables)
    requires LedgerOk(t)
    requires forall key :: key in t.events && t.events[key].kind.GiftRecorded? ==>
               && t.events[key].sequence == key.1
               && t.events[key].kind.totalValue
                  == t.events[key].kind.receipt.unitValue * t.events[key].kind.receipt.quantity
    ensures LedgerExact(t)
  {
  }

  /** After any run the ledger and the gifts in the stored logs correspond one to one. */
  lemma {:induction false} LedgerListsExactlyTheGifts(steps: seq<Step>)
    ensures LedgerExact(RunSteps(Initial(), steps).db)
  {
    InitialOk();
    RunsStayOk(Initial(), steps);
    var t := RunSteps(Initial(), steps).db;
    assert TablesOk(t) && LedgerOk(t);
    hide *;
    forall key | key in t.events && t.events[key].kind.GiftRecorded?
      ensures t.events[key].sequence == key.1
      ensures t.events[key].kind.totalValue
              == t.events[key].kind.receipt.unitValue * t.events[key].kind.receipt.quantity
    {
      GiftTotals(t, key);
    }
    LedgerIsExact(t);
  }
}
