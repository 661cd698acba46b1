/**
 Every run of the outbox protocol, and its composition with the room store: an event that was
 stored is on the event bus or still waiting to be sent, whatever crashed in between.
 */
module Delivery {
  import opened Prelude
  import opened Outbox
  import RoomDomain
  import RoomStore
  import RoomReplicas

  /** What a dispatcher process knows about a message it claimed. */
  datatype Stage = Claimed | Published | Failing

  /**
   The table and the clock, the memory of every dispatcher, and four records no process keeps: all
   payloads ever enqueued, the rows published, the rows acknowledged, and who claimed a row last.
   */
  datatype World<P> = World(
    now: nat, rows: Rows<P>, nextId: RowId, inbox: map<(OwnerId, RowId), Stage>,
    history: map<RowId, P>, published: set<RowId>, delivered: set<RowId>,
    lastClaimer: map<RowId, OwnerId>)

  datatype Step<P> =
    | Enqueue(payload: P)
    | Tick(millis: nat)
    | Claim(owner: OwnerId, chosen: set<RowId>, leaseMillis: nat)
    | Publish(owner: OwnerId, id: RowId, confirmed: bool)
    | FailToPublish(owner: OwnerId, id: RowId)
    | Acknowledge(owner: OwnerId, id: RowId, answered: bool)
    | Retry(owner: OwnerId, id: RowId, delayMillis: nat, error: string)
    | Crash(owner: OwnerId)
    | Prune(chosen: set<RowId>, retentionMillis: nat)

  function Start<P>(): World<P> {
    World(0, map[], 1, map[], map[], {}, {}, map[])
  }

  predicate At<P>(w: World<P>, owner: OwnerId, id: RowId, stage: Stage) {
    (owner, id) in w.inbox && w.inbox[(owner, id)] == stage
  }

  function EnqueueRow<P>(w: World<P>, payload: P): World<P> {
    w.(rows := w.rows[w.nextId := Row(payload, w.now, None, None, None, 0, None)],
       nextId := w.nextId + 1, history := w.history[w.nextId := payload])
  }

  /** A lease step may take any claimable rows: concurrent claims skip rows locked by each other. */
  predicate MayClaim<P>(w: World<P>, chosen: set<RowId>, leaseMillis: nat) {
    |chosen| <= MAX_CLAIM_BATCH && MIN_LEASE_MILLIS <= leaseMillis <= MAX_LEASE_MILLIS
    && forall id | id in chosen :: id in w.rows && Claimable(w.rows[id], w.now)
  }

  predicate MayPrune<P>(w: World<P>, chosen: set<RowId>, retentionMillis: nat) {
    |chosen| <= MAX_PRUNE_BATCH && MIN_RETENTION_MILLIS <= retentionMillis <= MAX_RETENTION_MILLIS
    && forall id | id in chosen :: id in w.rows && Expired(w.rows[id], w.now, retentionMillis)
  }

  function Next<P>(w: World<P>, step: Step<P>): World<P> {
    match step
    case Enqueue(payload) => EnqueueRow(w, payload)
    case Tick(millis) => w.(now := w.now + millis)
    case Claim(owner, chosen, leaseMillis) =>
      if !MayClaim(w, chosen, leaseMillis) then w
      else w.(rows := ClaimRows(w.rows, chosen, owner, w.now + leaseMillis),
              inbox := w.inbox + map id | id in chosen :: (owner, id) := Claimed,
              lastClaimer := w.lastClaimer + map id | id in chosen :: owner)
    case Publish(owner, id, confirmed) =>
      if !At(w, owner, id, Claimed) then w
      else w.(inbox := w.inbox[(owner, id) := if confirmed then Published else Failing],
              published := w.published + {id})
    case FailToPublish(owner, id) =>
      if !At(w, owner, id, Claimed) then w else w.(inbox := w.inbox[(owner, id) := Failing])
    case Acknowledge(owner, id, answered) =>
      if !At(w, owner, id, Published) then w
      else
        var (rows, ok) := AcknowledgeRow(w.rows, owner, id, w.now);
        w.(rows := rows, delivered := if ok then w.delivered + {id} else w.delivered,
           inbox := if ok && answered then w.inbox - {(owner, id)}
                    else w.inbox[(owner, id) := Failing])
    case Retry(owner, id, delayMillis, error) =>
      if !At(w, owner, id, Failing) || delayMillis > MAX_RETRY_DELAY_MILLIS then w
      else w.(rows := RetryRow(w.rows, owner, id, w.now + delayMillis, error).0,
              inbox := w.inbox - {(owner, id)})
    case Crash(owner) =>
      w.(inbox := map key | key in w.inbox && key.0 != owner :: w.inbox[key])
    case Prune(chosen, retentionMillis) =>
      if !MayPrune(w, chosen, retentionMillis) then w else w.(rows := w.rows - chosen)
  }

  function Run<P>(w: World<P>, steps: seq<Step<P>>): World<P> {
    if steps == [] then w else Next(Run(w, steps[..|steps| - 1]), steps[|steps| - 1])
  }

  // ----- The invariant -----

  /** Every payload enqueued is in its row, undelivered, unless it was delivered. */
  ghost predicate RowsAccounted<P>(rows: Rows<P>, nextId: RowId, history: map<RowId, P>,
                                   delivered: set<RowId>) {
    && nextId > 0
    && (forall id :: id in history <==> 0 < id < nextId)
    && (forall id :: id in rows ==> id in history && rows[id].payload == history[id])
    && (forall id :: id in history && id !in delivered ==> id in rows && rows[id].deliveredAt.None?)
    && (forall id :: id in rows && id in delivered ==> rows[id].deliveredAt.Some?)
  }

  ghost predicate Accounted<P>(w: World<P>) {
    RowsAccounted(w.rows, w.nextId, w.history, w.delivered)
  }

  ghost predicate PublishedFirst<P>(w: World<P>) {
    && w.delivered <= w.published
    && (forall id :: id in w.published ==> id in w.history)
    && (forall key :: key in w.inbox ==> key.1 in w.history)
    && (forall key :: key in w.inbox && w.inbox[key] == Published ==> key.1 in w.published)
  }

  ghost predicate LeasesTracked<P>(w: World<P>) {
    forall id :: id in w.rows && w.rows[id].leaseOwner.Some? ==>
      id in w.lastClaimer && w.lastClaimer[id] == w.rows[id].leaseOwner.value
  }

  /** No undelivered row is locked away for more than an hour. */
  ghost predicate ComesBack<P>(w: World<P>) {
    forall id :: id in w.rows && w.rows[id].deliveredAt.None? ==>
      w.rows[id].availableAt <= w.now + MAX_RETRY_DELAY_MILLIS
      && (w.rows[id].leaseUntil.Some? ==> w.rows[id].leaseUntil.value <= w.now + MAX_LEASE_MILLIS)
  }

  ghost predicate WorldOk<P>(w: World<P>) {
    Accounted(w) && PublishedFirst(w) && LeasesTracked(w) && ComesBack(w)
  }

  lemma EnqueueAccounted<P>(w: World<P>, payload: P)
    requires Accounted(w) && PublishedFirst(w)
    ensures Accounted(EnqueueRow(w, payload))
  {
    assert w.nextId !in w.delivered;
  }

  lemma ClaimAccounted<P>(w: World<P>, chosen: set<RowId>, owner: OwnerId, until: nat)
    requires Accounted(w)
    ensures RowsAccounted(ClaimRows(w.rows, chosen, owner, until), w.nextId, w.history, w.delivered)
  {
  }

  lemma AcknowledgeAccounted<P>(w: World<P>, owner: OwnerId, id: RowId)
    requires Accounted(w)
    ensures var (rows, ok) := AcknowledgeRow(w.rows, owner, id, w.now);
            RowsAccounted(rows, w.nextId, w.history, if ok then w.delivered + {id} else w.delivered)
  {
  }

  lemma RetryAccounted<P>(w: World<P>, owner: OwnerId, id: RowId, availableAt: nat, error: string)
    requires Accounted(w)
    ensures RowsAccounted(RetryRow(w.rows, owner, id, availableAt, error).0, w.nextId, w.history, w.delivered)
  {
  }

  lemma PruneAccounted<P>(w: World<P>, chosen: set<RowId>, retentionMillis: nat)
    requires Accounted(w) && MayPrune(w, chosen, retentionMillis)
    ensures RowsAccounted(w.rows - chosen, w.nextId, w.history, w.delivered)
  {
  }

  lemma NextAccounted<P>(w: World<P>, step: Step<P>)
    requires Accounted(w) && PublishedFirst(w)
    ensures Accounted(Next(w, step))
  {
    hide RowsAccounted, PublishedFirst, EnqueueRow, ClaimRows, AcknowledgeRow, RetryRow, MayPrune, MayClaim;
    match step {
      case Enqueue(payload) => EnqueueAccounted(w, payload);
      case Claim(owner, chosen, leaseMillis) => ClaimAccounted(w, chosen, owner, w.now + leaseMillis);
      case Acknowledge(owner, id, _) => AcknowledgeAccounted(w, owner, id);
      case Retry(owner, id, delay, error) => RetryAccounted(w, owner, id, w.now + delay, error);
      case Prune(chosen, retention) =>
        if MayPrune(w, chosen, retention) { PruneAccounted(w, chosen, retention); }
      case _ =>
    }
  }

  lemma NextPublishedFirst<P>(w: World<P>, step: Step<P>)
    requires Accounted(w) && PublishedFirst(w)
    ensures PublishedFirst(Next(w, step))
  {
  }

  lemma NextTracked<P>(w: World<P>, step: Step<P>)
    requires LeasesTracked(w)
    ensures LeasesTracked(Next(w, step))
  {
    hide Claimable, Expired;
  }

  lemma NextComesBack<P>(w: World<P>, step: Step<P>)
    requires ComesBack(w)
    ensures ComesBack(Next(w, step))
  {
  }

  lemma {:induction false} NextOk<P>(w: World<P>, step: Step<P>)
    requires WorldOk(w)
    ensures WorldOk(Next(w, step))
  {
    hide Next;
    NextAccounted(w, step);
    NextPublishedFirst(w, step);
    NextTracked(w, step);
    NextComesBack(w, step);
  }

  lemma {:induction false} RunOk<P>(w: World<P>, steps: seq<Step<P>>)
    requires WorldOk(w)
    ensures WorldOk(Run(w, steps))
  {
    hide WorldOk, Next;
    if steps != [] {
      RunOk(w, steps[..|steps| - 1]);
      NextOk(Run(w, steps[..|steps| - 1]), steps[|steps| - 1]);
    }
  }

  lemma StartOk<P>()
    ensures WorldOk(Start<P>())
  {
  }

  // ----- Safety over every run -----

  /**
   A row ever enqueued is either still there, undelivered and with its payload, or it was published
   and acknowledged. In particular only delivered rows are pruned and only published ones delivered.
   */
  lemma NoRowIsLost<P>(steps: seq<Step<P>>, id: RowId)
    requires id in Run(Start<P>(), steps).history
    ensures var w := Run(Start<P>(), steps);
            (id in w.delivered && id in w.published)
            || (id !in w.delivered && id in w.rows && w.rows[id].deliveredAt.None?
                && w.rows[id].payload == w.history[id])
    ensures var w := Run(Start<P>(), steps);
            id in w.rows && w.rows[id].deliveredAt.Some? ==> id in w.published
  {
    StartOk<P>();
    RunOk(Start<P>(), steps);
    hide Run;
  }

  /** After delivery a row never changes again, so it is never claimed again, until it is pruned. */
  lemma DeliveredRowsAreFrozen<P>(steps: seq<Step<P>>, step: Step<P>, id: RowId)
    requires id in Run(Start<P>(), steps).delivered
    ensures var w := Run(Start<P>(), steps);
            id in Next(w, step).delivered
            && (id in Next(w, step).rows ==> id in w.rows && Next(w, step).rows[id] == w.rows[id])
            && (step.Claim? && MayClaim(w, step.chosen, step.leaseMillis) ==> id !in step.chosen)
  {
    StartOk<P>();
    RunOk(Start<P>(), steps);
    hide Run;
  }

  /**
   Once another dispatcher has claimed the row, the earlier one neither delivers nor releases it:
   only the last claimer of a row can change it by acknowledging or retrying.
   */
  lemma {:induction false} StaleDispatcherChangesNothing<P>(steps: seq<Step<P>>, owner: OwnerId, id: RowId,
                                         availableAt: nat, error: string)
    requires var w := Run(Start<P>(), steps);
             id in w.lastClaimer && w.lastClaimer[id] != owner
    ensures var w := Run(Start<P>(), steps);
            AcknowledgeRow(w.rows, owner, id, w.now) == (w.rows, false)
            && RetryRow(w.rows, owner, id, availableAt, error) == (w.rows, false)
  {
    StartOk<P>();
    RunOk(Start<P>(), steps);
    hide Run;
  }

  /** Whatever happened before, one quiet hour makes every undelivered row claimable. */
  lemma {:induction false} UndeliveredRowsComeBack<P>(steps: seq<Step<P>>, id: RowId, millis: nat)
    requires var w := Run(Start<P>(), steps); id in w.history && id !in w.delivered
    requires millis >= MAX_RETRY_DELAY_MILLIS
    ensures var w := Next(Run(Start<P>(), steps), Tick(millis));
            id in w.rows && Claimable(w.rows[id], w.now)
  {
    StartOk<P>();
    RunOk(Start<P>(), steps);
    hide Run;
  }

  // ----- Rooms and outbox together -----

  datatype Platform = Platform(rooms: RoomReplicas.System, bus: World<RoomStore.OutboxEntry>)

  datatype PlatformStep =
    | RoomStep(room: RoomReplicas.Step)
    | BusStep(bus: Step<RoomStore.OutboxEntry>)

  function EnqueueAll<P>(w: World<P>, payloads: seq<P>): World<P>
    decreases |payloads|
  {
    if payloads == [] then w
    else EnqueueRow(EnqueueAll(w, payloads[..|payloads| - 1]), payloads[|payloads| - 1])
  }

  /** The outbox rows a room transaction inserts appear with the transaction. */
  ghost function NextPlatform(p: Platform, step: PlatformStep): Platform {
    match step
    case RoomStep(room) =>
      var rooms := RoomReplicas.Next(p.rooms, room);
      var written := |p.rooms.db.outbox|;
      Platform(rooms, if written <= |rooms.db.outbox|
                      then EnqueueAll(p.bus, rooms.db.outbox[written..]) else p.bus)
    case BusStep(bus) => if bus.Enqueue? then p else p.(bus := Next(p.bus, bus))
  }

  ghost function RunPlatform(steps: seq<PlatformStep>): Platform {
    if steps == [] then Platform(RoomReplicas.Initial(), Start())
    else NextPlatform(RunPlatform(steps[..|steps| - 1]), steps[|steps| - 1])
  }

  /** Row `k + 1` of the outbox table is entry `k` of the room store's insertions. */
  ghost predicate SameRows(p: Platform) {
    p.bus.nextId == |p.rooms.db.outbox| + 1
    && forall id :: id in p.bus.history ==>
         0 < id <= |p.rooms.db.outbox| && p.bus.history[id] == p.rooms.db.outbox[id - 1]
  }

  ghost predicate PlatformOk(p: Platform) {
    RoomReplicas.SystemOk(p.rooms) && WorldOk(p.bus) && SameRows(p)
  }

  lemma {:induction false} EnqueueAllOk<P>(w: World<P>, payloads: seq<P>)
    requires WorldOk(w)
    ensures var w' := EnqueueAll(w, payloads);
            WorldOk(w') && w'.nextId == w.nextId + |payloads|
            && (forall id :: id in w'.history ==>
                  if id < w.nextId then id in w.history && w'.history[id] == w.history[id]
                  else id - w.nextId < |payloads| && w'.history[id] == payloads[id - w.nextId])
    decreases |payloads|
  {
    if payloads != [] {
      var n := |payloads| - 1;
      EnqueueAllOk(w, payloads[..n]);
      var before := EnqueueAll(w, payloads[..n]);
      NextOk(before, Enqueue(payloads[n]));
      assert Next(before, Enqueue(payloads[n])) == EnqueueAll(w, payloads);
      hide WorldOk;
    }
  }

  lemma BusKeepsHistory<P>(w: World<P>, step: Step<P>)
    requires !step.Enqueue?
    ensures Next(w, step).history == w.history && Next(w, step).nextId == w.nextId
  {
  }

  lemma {:induction false} NextPlatformOk(p: Platform, step: PlatformStep)
    requires PlatformOk(p)
    ensures PlatformOk(NextPlatform(p, step))
  {
    hide RoomReplicas.SystemOk, WorldOk, RoomReplicas.Next, Next;
    match step {
      case RoomStep(room) =>
        RoomReplicas.NextOk(p.rooms, room);
        var rooms := RoomReplicas.Next(p.rooms, room);
        assert p.rooms.db.outbox <= rooms.db.outbox;
        EnqueueAllOk(p.bus, rooms.db.outbox[|p.rooms.db.outbox|..]);
      case BusStep(bus) =>
        if !bus.Enqueue? {
          NextOk(p.bus, bus);
          BusKeepsHistory(p.bus, bus);
        }
    }
  }

  lemma {:induction false} RunPlatformOk(steps: seq<PlatformStep>)
    ensures PlatformOk(RunPlatform(steps))
  {
    hide NextPlatform;
    if steps == [] {
      RoomReplicas.InitialOk();
      StartOk<RoomStore.OutboxEntry>();
    } else {
      RunPlatformOk(steps[..|steps| - 1]);
      NextPlatformOk(RunPlatform(steps[..|steps| - 1]), steps[|steps| - 1]);
    }
  }

  /** The row's event is on the bus, or the row is waiting with it. */
  ghost predicate OnItsWay(p: Platform, id: RowId, entry: RoomStore.OutboxEntry) {
    id in p.bus.history && p.bus.history[id] == entry
    && (id in p.bus.published
        || (id in p.bus.rows && p.bus.rows[id].deliveredAt.None? && p.bus.rows[id].payload == entry))
  }

  /** An event in any stored log was published, or its row is waiting to be claimed. */
  lemma {:induction false} StoredEventsReachTheBus(steps: seq<PlatformStep>, key: (RoomDomain.RoomId, u64))
    ensures var p := RunPlatform(steps);
            key in p.rooms.db.events ==>
              exists id :: OnItsWay(p, id, RoomStore.Entry(key.0, p.rooms.db.events[key]))
  {
    RunPlatformOk(steps);
    hide RunPlatform, RoomReplicas.RoomOk, RoomReplicas.LedgerOk, RoomReplicas.CacheOk,
         RoomReplicas.CandidateOk, RoomStore.EventType;
    var p := RunPlatform(steps);
    if key in p.rooms.db.events {
      var entry := RoomStore.Entry(key.0, p.rooms.db.events[key]);
      assert entry in p.rooms.db.outbox;
      var k :| 0 <= k < |p.rooms.db.outbox| && p.rooms.db.outbox[k] == entry;
      assert OnItsWay(p, k + 1, entry);
    }
  }

  /** Nothing else is ever published: every published row is a stored event. */
  lemma {:induction false} OnlyStoredEventsArePublished(steps: seq<PlatformStep>, id: RowId)
    ensures var p := RunPlatform(steps);
            id in p.bus.published ==>
              id in p.bus.history
              && var e := p.bus.history[id];
                 (e.aggregateId, e.aggregateSequence) in p.rooms.db.events
                 && e.payload == p.rooms.db.events[(e.aggregateId, e.aggregateSequence)]
  {
    RunPlatformOk(steps);
    hide RunPlatform, RoomReplicas.RoomOk, RoomReplicas.LedgerOk, RoomReplicas.CacheOk,
         RoomReplicas.CandidateOk, RoomStore.EventType;
    var p := RunPlatform(steps);
    if id in p.bus.published { assert p.bus.history[id] == p.rooms.db.outbox[id - 1]; }
  }
}
