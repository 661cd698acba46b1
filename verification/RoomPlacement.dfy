/**
 Placement of rooms on media nodes. There is no reservation counter here: the scheduler counts the
 placement rows themselves, which is what keeps nodes from being overbooked.
 */
module RoomPlacement {
  import opened Prelude
  import opened Placements
  import opened RoomDomain

  datatype Node = Node(
    region: string, endpoint: string, healthy: bool, draining: bool, roomsUsed: nat, roomsLimit: nat,
    sessionsUsed: nat, sessionsLimit: nat, publisherTracks: nat, heartbeatAt: nat)

  type Rooms = map<RoomId, Placement>

  datatype Tables = Tables(nodes: map<NodeId, Node>, placements: Rooms)

  datatype Placed = Placed(room: RoomId, node: NodeId, generation: nat, endpoint: string)

  datatype PlacementError = InvalidText | InvalidStaleWindow | NoCapacity | GenerationOverflow

  ghost predicate TablesOk(t: Tables) {
    && (forall n :: n in t.nodes ==> t.nodes[n].roomsLimit > 0 && t.nodes[n].sessionsLimit > 0)
    && (forall r :: r in t.placements ==>
          t.placements[r].node in t.nodes && 0 < t.placements[r].generation <= I64_MAX)
  }

  predicate ValidStale(staleMillis: nat) { MIN_STALE_MILLIS <= staleMillis <= MAX_STALE_MILLIS }

  /** A node that keeps the rooms it has, whatever region is asked for. */
  predicate Serves(n: Node, staleMillis: nat, now: nat) {
    n.healthy && !n.draining && n.heartbeatAt + staleMillis > now
  }

  /** The reported rooms or the placed ones, whichever are more. */
  function RoomsTaken(t: Tables, id: NodeId): int
    requires id in t.nodes
  {
    Max(t.nodes[id].roomsUsed, |Hosted(t.placements, id)|)
  }

  predicate Eligible(t: Tables, id: NodeId, region: string, staleMillis: nat, now: nat) {
    id in t.nodes && t.nodes[id].region == region && Serves(t.nodes[id], staleMillis, now)
    && RoomsTaken(t, id) < t.nodes[id].roomsLimit
    && t.nodes[id].sessionsUsed < t.nodes[id].sessionsLimit
  }

  predicate Settled(t: Tables, room: RoomId, staleMillis: nat, now: nat) {
    room in t.placements && t.placements[room].node in t.nodes
    && Serves(t.nodes[t.placements[room].node], staleMillis, now)
  }

  function PlaceOn(t: Tables, room: RoomId, chosen: NodeId): Tables {
    t.(placements := Assign(t.placements, room, chosen))
  }

  // ----- Choosing a node -----

  function RoomLoad(t: Tables, id: NodeId): real
    requires id in t.nodes && t.nodes[id].roomsLimit > 0
  {
    RoomsTaken(t, id) as real / t.nodes[id].roomsLimit as real
  }

  function SessionLoad(n: Node): real
    requires n.sessionsLimit > 0
  {
    n.sessionsUsed as real / n.sessionsLimit as real
  }

  /** The sort key of a node: relative rooms, relative sessions, tracks, name. */
  datatype Key = Key(rooms: real, sessions: real, tracks: nat, id: NodeId)

  function KeyOf(t: Tables, id: NodeId): Key
    requires id in t.nodes && t.nodes[id].roomsLimit > 0 && t.nodes[id].sessionsLimit > 0
  {
    Key(RoomLoad(t, id), SessionLoad(t.nodes[id]), t.nodes[id].publisherTracks, id)
  }

  predicate Before(a: Key, b: Key) {
    a.rooms < b.rooms
    || (a.rooms == b.rooms
        && (a.sessions < b.sessions
            || (a.sessions == b.sessions
                && (a.tracks < b.tracks || (a.tracks == b.tracks && TextBefore(a.id, b.id))))))
  }

  lemma BeforeTransitive(a: Key, b: Key, c: Key)
    requires Before(a, b) && Before(b, c)
    ensures Before(a, c)
  {
    if TextBefore(a.id, b.id) && TextBefore(b.id, c.id) { TextBeforeTransitive(a.id, b.id, c.id); }
  }

  lemma BeforeTotal(a: Key, b: Key)
    requires a.id != b.id
    ensures Before(a, b) || Before(b, a)
  {
    TextBeforeTotal(a.id, b.id);
  }

  ghost predicate LeastLoaded(t: Tables, chosen: NodeId, region: string, staleMillis: nat, now: nat)
    requires TablesOk(t)
  {
    Eligible(t, chosen, region, staleMillis, now)
    && forall n :: Eligible(t, n, region, staleMillis, now) && n != chosen ==>
         Before(KeyOf(t, chosen), KeyOf(t, n))
  }

  method SelectMediaNode(t: Tables, region: string, staleMillis: nat, now: nat)
    returns (best: Option<NodeId>)
    requires TablesOk(t)
    ensures best.None? ==> forall n :: !Eligible(t, n, region, staleMillis, now)
    ensures best.Some? ==> LeastLoaded(t, best.value, region, staleMillis, now)
  {
    hide Before, KeyOf, Hosted;
    var remaining := t.nodes.Keys;
    best := None;
    while remaining != {}
      invariant remaining <= t.nodes.Keys
      invariant best.None? ==>
        forall n :: n !in remaining ==> !Eligible(t, n, region, staleMillis, now)
      invariant best.Some? ==>
        && Eligible(t, best.value, region, staleMillis, now)
        && forall n | Eligible(t, n, region, staleMillis, now) ::
             n !in remaining && n != best.value ==> Before(KeyOf(t, best.value), KeyOf(t, n))
      decreases |remaining|
    {
      var n :| n in remaining;
      remaining := remaining - {n};
      if Eligible(t, n, region, staleMillis, now) {
        if best.None? {
          best := Some(n);
        } else if best.value != n {
          KeyIds(t, n, best.value);
          BeforeTotal(KeyOf(t, n), KeyOf(t, best.value));
          if Before(KeyOf(t, n), KeyOf(t, best.value)) {
            forall k | Eligible(t, k, region, staleMillis, now)
                       && Before(KeyOf(t, best.value), KeyOf(t, k))
              ensures Before(KeyOf(t, n), KeyOf(t, k))
            {
              BeforeTransitive(KeyOf(t, n), KeyOf(t, best.value), KeyOf(t, k));
            }
            best := Some(n);
          }
        }
      }
    }
  }

  lemma KeyIds(t: Tables, a: NodeId, b: NodeId)
    requires TablesOk(t) && a in t.nodes && b in t.nodes
    ensures KeyOf(t, a).id == a && KeyOf(t, b).id == b
  {
  }

  /** Fewer rooms for its limit, then fewer sessions for its limit, then fewer tracks, then the name. */
  ghost predicate Lighter(a: Node, aRooms: nat, aId: NodeId, b: Node, bRooms: nat, bId: NodeId) {
    || aRooms * b.roomsLimit < bRooms * a.roomsLimit
    || (aRooms * b.roomsLimit == bRooms * a.roomsLimit
        && (|| a.sessionsUsed * b.sessionsLimit < b.sessionsUsed * a.sessionsLimit
            || (a.sessionsUsed * b.sessionsLimit == b.sessionsUsed * a.sessionsLimit
                && (a.publisherTracks < b.publisherTracks
                    || (a.publisherTracks == b.publisherTracks && TextBefore(aId, bId))))))
  }

  lemma BeforeWhenLighter(t: Tables, a: NodeId, b: NodeId)
    requires TablesOk(t) && a in t.nodes && b in t.nodes
    ensures Before(KeyOf(t, a), KeyOf(t, b))
            <==> Lighter(t.nodes[a], RoomsTaken(t, a), a, t.nodes[b], RoomsTaken(t, b), b)
  {
    var x, y := t.nodes[a], t.nodes[b];
    CrossMultiplied(RoomsTaken(t, a), x.roomsLimit, RoomsTaken(t, b), y.roomsLimit);
    CrossMultiplied(x.sessionsUsed, x.sessionsLimit, y.sessionsUsed, y.sessionsLimit);
    hide Hosted, TextBefore;
  }

  /**
   A node can take a room when it is healthy, accepts rooms in that region, was heard of recently, and
   has room for one more by its own count, by the placements and in sessions.
   */
  ghost predicate Usable(t: Tables, id: NodeId, region: string, staleMillis: nat, now: nat)
    requires id in t.nodes
  {
    var n := t.nodes[id];
    && n.healthy && !n.draining && n.region == region && now - n.heartbeatAt < staleMillis
    && n.roomsUsed < n.roomsLimit && |Hosted(t.placements, id)| < n.roomsLimit
    && n.sessionsUsed < n.sessionsLimit
  }

  /** The chosen node can take the room, and no other that can is lighter. */
  lemma LeastLoadedAmongTheUsable(t: Tables, chosen: NodeId, region: string, staleMillis: nat, now: nat)
    requires TablesOk(t)
    ensures LeastLoaded(t, chosen, region, staleMillis, now) <==>
              && chosen in t.nodes && Usable(t, chosen, region, staleMillis, now)
              && forall n :: n in t.nodes && n != chosen && Usable(t, n, region, staleMillis, now) ==>
                   Lighter(t.nodes[chosen], RoomsTaken(t, chosen), chosen, t.nodes[n], RoomsTaken(t, n), n)
  {
    hide Hosted, Before, KeyOf, Lighter;
    assert forall n :: Eligible(t, n, region, staleMillis, now)
                       <==> n in t.nodes && Usable(t, n, region, staleMillis, now);
    if chosen in t.nodes {
      forall n | n in t.nodes
        ensures Before(KeyOf(t, chosen), KeyOf(t, n))
                <==> Lighter(t.nodes[chosen], RoomsTaken(t, chosen), chosen, t.nodes[n], RoomsTaken(t, n), n)
      {
        BeforeWhenLighter(t, chosen, n);
      }
    }
  }

  /** A room stays exactly when its node is healthy and recent, whatever its region and load. */
  lemma SettledWhateverTheLoad(t: Tables, room: RoomId, staleMillis: nat, now: nat)
    requires TablesOk(t)
    ensures Settled(t, room, staleMillis, now) <==>
              && room in t.placements
              && var n := t.nodes[t.placements[room].node];
              && n.healthy && !n.draining && now - n.heartbeatAt < staleMillis
  {
  }

  // ----- The scheduler in place -----

  class RoomScheduler {
    var nodes: map<NodeId, Node>
    var placements: Rooms

    function Contents(): Tables
      reads this
    {
      Tables(nodes, placements)
    }

    ghost predicate Valid()
      reads this
    {
      TablesOk(Contents())
    }

    constructor ()
      ensures Valid() && Contents() == Tables(map[], map[])
    {
      nodes, placements := map[], map[];
    }

    /** A settled room stays where it is; otherwise the least-loaded node of the region gets it. */
    method PlaceRoom(room: RoomId, region: string, staleMillis: nat, now: nat)
      returns (r: Result<Placed, PlacementError>)
      requires Valid()
      modifies `placements
      ensures Valid()
      ensures r.Err? ==> Contents() == old(Contents())
      ensures r.Ok? ==> BoundedText(region, 128) && ValidStale(staleMillis)
      ensures r.Ok? ==> room in placements && placements[room].node in nodes
                        && r.value == Placed(room, placements[room].node, placements[room].generation,
                                             nodes[placements[room].node].endpoint)
      ensures BoundedText(region, 128) && ValidStale(staleMillis)
              && old(Settled(Contents(), room, staleMillis, now)) ==>
                r.Ok? && Contents() == old(Contents())
      ensures r.Ok? && !old(Settled(Contents(), room, staleMillis, now)) ==>
                LeastLoaded(old(Contents()), r.value.node, region, staleMillis, now)
                && Contents() == PlaceOn(old(Contents()), room, r.value.node)
      ensures r == Err(NoCapacity) ==> forall n :: !Eligible(Contents(), n, region, staleMillis, now)
      ensures r.Ok? <==> BoundedText(region, 128) && ValidStale(staleMillis)
                         && (old(Settled(Contents(), room, staleMillis, now))
                             || (NextGeneration(old(placements), room) <= I64_MAX
                                 && exists n :: Eligible(old(Contents()), n, region, staleMillis, now)))
    {
      hide BoundedText, Before, KeyOf, Hosted;
      if !BoundedText(region, 128) { return Err(InvalidText); }
      if !ValidStale(staleMillis) { return Err(InvalidStaleWindow); }
      if room in placements {
        var existing := placements[room];
        if Serves(nodes[existing.node], staleMillis, now) {
          return Ok(Placed(room, existing.node, existing.generation, nodes[existing.node].endpoint));
        }
      }
      var best := SelectMediaNode(Contents(), region, staleMillis, now);
      if best.None? { return Err(NoCapacity); }
      var generation := if room in placements then placements[room].generation + 1 else 1;
      if generation > I64_MAX { return Err(GenerationOverflow); }
      placements := placements[room := Placement(best.value, generation)];
      r := Ok(Placed(room, best.value, generation, nodes[best.value].endpoint));
    }

    method RemovePlacement(room: RoomId) returns (removed: bool)
      requires Valid()
      modifies `placements
      ensures Valid() && removed == (room in old(placements)) && placements == old(placements) - {room}
    {
      removed := room in placements;
      placements := placements - {room};
    }
  }

  // ----- Every run -----

  /** `visited` lists the nodes a room was assigned to since its placement row was inserted. */
  datatype World = World(now: nat, tables: Tables, visited: map<RoomId, seq<NodeId>>)

  datatype Step =
    | Tick(millis: nat)
    | Heartbeat(id: NodeId, report: Node)
    | Place(room: RoomId, region: string, staleMillis: nat, chosen: NodeId)
    | Remove(room: RoomId)

  function Start(): World { World(0, Tables(map[], map[]), map[]) }

  predicate Writes(w: World, step: Step) {
    match step
    case Tick(_) => true
    case Heartbeat(_, report) => report.roomsLimit > 0 && report.sessionsLimit > 0
                                 && report.roomsUsed <= report.roomsLimit
                                 && report.sessionsUsed <= report.sessionsLimit
    case Place(room, region, stale, chosen) =>
      ValidStale(stale) && !Settled(w.tables, room, stale, w.now)
      && Eligible(w.tables, chosen, region, stale, w.now)
      && NextGeneration(w.tables.placements, room) <= I64_MAX
    case Remove(room) => room in w.tables.placements
  }

  function Visits(w: World, room: RoomId): seq<NodeId> {
    if room in w.visited then w.visited[room] else []
  }

  function Next(w: World, step: Step): World {
    if !Writes(w, step) then w
    else match step
      case Tick(millis) => w.(now := w.now + millis)
      case Heartbeat(id, report) =>
        w.(tables := w.tables.(nodes := w.tables.nodes[id := report.(heartbeatAt := w.now)]))
      case Place(room, _, _, chosen) =>
        w.(tables := PlaceOn(w.tables, room, chosen),
           visited := w.visited[room := Visits(w, room) + [chosen]])
      case Remove(room) =>
        w.(tables := w.tables.(placements := w.tables.placements - {room}),
           visited := w.visited - {room})
  }

  function Run(w: World, steps: seq<Step>): World {
    if steps == [] then w else Next(Run(w, steps[..|steps| - 1]), steps[|steps| - 1])
  }

  /** A generation counts the assignments, each to another node than the one before. */
  ghost predicate Itinerary(visited: seq<NodeId>, p: Placement) {
    |visited| == p.generation > 0 && visited[|visited| - 1] == p.node
    && forall i :: 0 < i < |visited| ==> visited[i - 1] != visited[i]
  }

  ghost predicate Tracked(w: World) {
    w.visited.Keys == w.tables.placements.Keys
    && forall r :: r in w.visited ==> Itinerary(w.visited[r], w.tables.placements[r])
  }

  ghost predicate WorldOk(w: World) { TablesOk(w.tables) && Tracked(w) }

  lemma UnsettledRoomsMove(t: Tables, room: RoomId, region: string, stale: nat, chosen: NodeId, now: nat)
    requires TablesOk(t) && Eligible(t, chosen, region, stale, now) && !Settled(t, room, stale, now)
    ensures room in t.placements ==> t.placements[room].node != chosen
    ensures Settled(PlaceOn(t, room, chosen), room, stale, now)
  {
  }

  lemma NextTablesOk(w: World, step: Step)
    requires TablesOk(w.tables)
    ensures TablesOk(Next(w, step).tables)
  {
    hide Hosted;
  }

  lemma NextTracked(w: World, step: Step)
    requires TablesOk(w.tables) && Tracked(w)
    ensures Tracked(Next(w, step))
  {
    hide Hosted, Itinerary;
    if step.Place? && Writes(w, step) {
      UnsettledRoomsMove(w.tables, step.room, step.region, step.staleMillis, step.chosen, w.now);
      ItineraryGrows(w.tables.placements, Visits(w, step.room), step.room, step.chosen);
    }
  }

  lemma ItineraryGrows(placements: Rooms, visited: seq<NodeId>, room: RoomId, chosen: NodeId)
    requires if room in placements then Itinerary(visited, placements[room]) else visited == []
    requires room in placements ==> placements[room].node != chosen
    ensures Itinerary(visited + [chosen], Assign(placements, room, chosen)[room])
  {
  }

  lemma NextOk(w: World, step: Step)
    requires WorldOk(w)
    ensures WorldOk(Next(w, step))
  {
    hide Next, TablesOk, Tracked;
    NextTablesOk(w, step);
    NextTracked(w, step);
  }

  lemma {:induction false} RunOk(w: World, steps: seq<Step>)
    requires WorldOk(w)
    ensures WorldOk(Run(w, steps))
  {
    if steps != [] {
      hide WorldOk, Next;
      RunOk(w, steps[..|steps| - 1]);
      NextOk(Run(w, steps[..|steps| - 1]), steps[|steps| - 1]);
    }
  }

  /** Every move goes to a different node and raises the generation by exactly one. */
  lemma GenerationCountsTheMoves(steps: seq<Step>, room: RoomId)
    requires room in Run(Start(), steps).tables.placements
    ensures var w := Run(Start(), steps);
            room in w.visited && Itinerary(w.visited[room], w.tables.placements[room])
  {
    RunOk(Start(), steps);
  }

  // ----- Stability -----

  /** Nobody removes the room, and whoever asks for it finds its node serving. */
  ghost predicate LeavesInPlace(w: World, steps: seq<Step>, room: RoomId) {
    forall k :: 0 <= k < |steps| ==>
      steps[k] != Remove(room)
      && (steps[k].Place? && steps[k].room == room ==>
            Settled(Run(w, steps[..k]).tables, room, steps[k].staleMillis, Run(w, steps[..k]).now))
  }

  /** Any number of calls, for this room and others, leaves a healthy assignment as it is. */
  lemma {:induction false} HealthyAssignmentsStay(w: World, steps: seq<Step>, room: RoomId)
    requires room in w.tables.placements && LeavesInPlace(w, steps, room)
    ensures room in Run(w, steps).tables.placements
            && Run(w, steps).tables.placements[room] == w.tables.placements[room]
  {
    if steps != [] {
      var n := |steps| - 1;
      assert forall k :: 0 <= k <= n ==> steps[..n][..k] == steps[..k];
      HealthyAssignmentsStay(w, steps[..n], room);
      hide Hosted, Serves;
    }
  }

  // ----- Capacity -----

  /** No node hosts more rooms than it allows. */
  ghost predicate WithinLimits(t: Tables) {
    forall n :: n in t.nodes ==> |Hosted(t.placements, n)| <= t.nodes[n].roomsLimit
  }

  /** A heartbeat that announces a limit below what is already placed. */
  ghost predicate Undercuts(w: World, step: Step) {
    step.Heartbeat? && Writes(w, step) && |Hosted(w.tables.placements, step.id)| > step.report.roomsLimit
  }

  lemma NextWithinLimits(w: World, step: Step)
    requires TablesOk(w.tables) && WithinLimits(w.tables)
    ensures WithinLimits(Next(w, step).tables) <==> !Undercuts(w, step)
  {
    if Writes(w, step) {
      var t' := Next(w, step).tables;
      match step {
        case Tick(_) =>
        case Heartbeat(id, _) =>
          hide Hosted;
          assert id in t'.nodes;
        case Place(room, region, stale, chosen) =>
          UnsettledRoomsMove(w.tables, room, region, stale, chosen, w.now);
          hide Hosted;
          forall n | n in t'.nodes ensures |Hosted(t'.placements, n)| <= t'.nodes[n].roomsLimit {
            HostedAfterAssign(w.tables.placements, room, chosen, n);
          }
        case Remove(room) =>
          hide Hosted;
          forall n | n in t'.nodes ensures |Hosted(t'.placements, n)| <= t'.nodes[n].roomsLimit {
            HostedAfterRemove(w.tables.placements, room, n);
          }
      }
    }
  }

  /** After every prefix of the run. */
  ghost predicate AlwaysWithinLimits(steps: seq<Step>) {
    WithinLimits(Run(Start(), steps).tables)
    && (steps != [] ==> AlwaysWithinLimits(steps[..|steps| - 1]))
  }

  /** At every step of the run. */
  ghost predicate NeverUndercut(steps: seq<Step>) {
    steps != [] ==>
      var n := |steps| - 1;
      !Undercuts(Run(Start(), steps[..n]), steps[n]) && NeverUndercut(steps[..n])
  }

  /**
   The rooms placed on a node exceed its limit at no point of a run, if and only if no heartbeat
   announces a limit below what is placed. Placements are atomic steps here: with those, placing alone
   never overbooks.
   */
  lemma {:induction false} OverbookedExactlyByHeartbeats(steps: seq<Step>)
    ensures AlwaysWithinLimits(steps) <==> NeverUndercut(steps)
  {
    if steps != [] {
      hide WithinLimits, Undercuts, Next, TablesOk;
      var n := |steps| - 1;
      OverbookedExactlyByHeartbeats(steps[..n]);
      RunTablesOk(steps[..n]);
      if WithinLimits(Run(Start(), steps[..n]).tables) {
        NextWithinLimits(Run(Start(), steps[..n]), steps[n]);
      }
    }
  }

  lemma RunTablesOk(steps: seq<Step>)
    ensures TablesOk(Run(Start(), steps).tables)
  {
    RunOk(Start(), steps);
  }

  /** Heartbeats that never lower a limit never undercut. */
  lemma RaisingHeartbeatsNeverUndercut(w: World, step: Step)
    requires WithinLimits(w.tables) && TablesOk(w.tables)
    requires step.Heartbeat? ==>
               step.id !in w.tables.nodes || w.tables.nodes[step.id].roomsLimit <= step.report.roomsLimit
    ensures !Undercuts(w, step)
  {
    if step.Heartbeat? && step.id !in w.tables.nodes {
      assert Hosted(w.tables.placements, step.id) == {};
    }
  }
}
