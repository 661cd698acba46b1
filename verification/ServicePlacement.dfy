/**
 Placement of transcoding, egress and other service resources on nodes with a limited number of jobs.
 A node's `jobsUsed` is reserved on placement and given back on moving away or removal, and each
 placement carries a generation that fences superseded attempts.
 */
module ServicePlacement {
  import opened Prelude
  import opened Placements

  datatype Resource = Resource(kind: string, id: string)

  datatype Node = Node(
    serviceKind: string, region: string, endpoint: string, healthy: bool, draining: bool,
    jobsUsed: nat, jobsLimit: nat, heartbeatAt: nat)

  datatype Tables = Tables(nodes: map<NodeId, Node>, placements: map<Resource, Placement>)

  /** What a caller asks for. */
  datatype Demand = Demand(serviceKind: string, region: string, staleMillis: nat)

  datatype Placed = Placed(resource: Resource, node: NodeId, generation: nat, endpoint: string)

  datatype PlacementError =
    | InvalidText
    | InvalidStaleWindow
    | InvalidCapacity
    | InvalidGeneration
    | NoCapacity
    | LostDatabaseLock
    | GenerationOverflow

  ghost predicate TablesOk(t: Tables) {
    && (forall n :: n in t.nodes ==> t.nodes[n].jobsUsed <= t.nodes[n].jobsLimit && t.nodes[n].jobsLimit > 0)
    && (forall r :: r in t.placements ==>
          && ValidResource(r) && t.placements[r].node in t.nodes
          && 0 < t.placements[r].generation <= I64_MAX)
  }

  predicate ValidResource(resource: Resource) {
    BoundedText(resource.kind, 64) && BoundedText(resource.id, 256)
  }

  predicate ValidDemand(d: Demand) {
    BoundedText(d.serviceKind, 64) && BoundedText(d.region, 128)
    && MIN_STALE_MILLIS <= d.staleMillis <= MAX_STALE_MILLIS
  }

  /** A node that may keep what it was given. */
  predicate Serves(n: Node, d: Demand, now: nat) {
    n.serviceKind == d.serviceKind && n.region == d.region && n.healthy && !n.draining
    && n.heartbeatAt + d.staleMillis >= now
  }

  /** A node that may be given something new. */
  predicate Eligible(n: Node, d: Demand, now: nat) {
    Serves(n, d, now) && n.jobsUsed < n.jobsLimit
  }

  predicate Settled(t: Tables, resource: Resource, d: Demand, now: nat) {
    resource in t.placements && t.placements[resource].node in t.nodes
    && Serves(t.nodes[t.placements[resource].node], d, now)
  }

  function Reserve(n: Node): Node { n.(jobsUsed := Min(n.jobsLimit, n.jobsUsed + 1)) }

  function GiveBack(n: Node): Node { n.(jobsUsed := Max(0, n.jobsUsed - 1)) }

  function GiveBackAt(nodes: map<NodeId, Node>, node: NodeId): map<NodeId, Node> {
    if node in nodes then nodes[node := GiveBack(nodes[node])] else nodes
  }

  /** The writes of a placement on a chosen node. */
  function PlaceOn(t: Tables, resource: Resource, chosen: NodeId): Tables
    requires chosen in t.nodes
  {
    var reserved := t.nodes[chosen := Reserve(t.nodes[chosen])];
    Tables(if resource in t.placements && t.placements[resource].node != chosen
           then GiveBackAt(reserved, t.placements[resource].node) else reserved,
           Assign(t.placements, resource, chosen))
  }

  function Bump(t: Tables, resource: Resource): Tables
    requires resource in t.placements
  {
    t.(placements := t.placements[resource := t.placements[resource].(
         generation := t.placements[resource].generation + 1)])
  }

  function Removed(t: Tables, resource: Resource): Tables
    requires resource in t.placements
  {
    Tables(GiveBackAt(t.nodes, t.placements[resource].node), t.placements - {resource})
  }

  // ----- Choosing a node -----

  function Load(n: Node): real
    requires n.jobsLimit > 0
  {
    n.jobsUsed as real / n.jobsLimit as real
  }

  /** Lower relative load first, then the more recent heartbeat, then the name. */
  ghost predicate Before(a: Node, aId: NodeId, b: Node, bId: NodeId)
    requires a.jobsLimit > 0 && b.jobsLimit > 0
  {
    Load(a) < Load(b)
    || (Load(a) == Load(b)
        && (a.heartbeatAt > b.heartbeatAt
            || (a.heartbeatAt == b.heartbeatAt && TextBefore(aId, bId))))
  }

  lemma BeforeTransitive(a: Node, aId: NodeId, b: Node, bId: NodeId, c: Node, cId: NodeId)
    requires a.jobsLimit > 0 && b.jobsLimit > 0 && c.jobsLimit > 0
    requires Before(a, aId, b, bId) && Before(b, bId, c, cId)
    ensures Before(a, aId, c, cId)
  {
    hide Load;
    if TextBefore(aId, bId) && TextBefore(bId, cId) { TextBeforeTransitive(aId, bId, cId); }
  }

  lemma BeforeTotal(a: Node, aId: NodeId, b: Node, bId: NodeId)
    requires a.jobsLimit > 0 && b.jobsLimit > 0 && aId != bId
    ensures Before(a, aId, b, bId) || Before(b, bId, a, aId)
  {
    hide Load;
    TextBeforeTotal(aId, bId);
  }

  /** First in the scheduling order among the eligible nodes. */
  ghost predicate LeastLoaded(nodes: map<NodeId, Node>, chosen: NodeId, d: Demand, now: nat)
    requires forall n :: n in nodes ==> nodes[n].jobsLimit > 0
  {
    chosen in nodes && Eligible(nodes[chosen], d, now)
    && forall n :: n in nodes && n != chosen && Eligible(nodes[n], d, now) ==>
         Before(nodes[chosen], chosen, nodes[n], n)
  }

  method SelectNode(nodes: map<NodeId, Node>, d: Demand, now: nat) returns (best: Option<NodeId>)
    requires forall n :: n in nodes ==> nodes[n].jobsLimit > 0
    ensures best.None? ==> forall n :: n in nodes ==> !Eligible(nodes[n], d, now)
    ensures best.Some? ==> LeastLoaded(nodes, best.value, d, now)
  {
    var remaining := nodes.Keys;
    best := None;
    while remaining != {}
      invariant remaining <= nodes.Keys
      invariant best.None? ==>
        forall n :: n in nodes && n !in remaining ==> !Eligible(nodes[n], d, now)
      invariant best.Some? ==>
        && best.value in nodes && Eligible(nodes[best.value], d, now)
        && forall n :: n in nodes && n !in remaining && n != best.value && Eligible(nodes[n], d, now) ==>
             Before(nodes[best.value], best.value, nodes[n], n)
      decreases |remaining|
    {
      var n :| n in remaining;
      remaining := remaining - {n};
      if Eligible(nodes[n], d, now) {
        if best.None? {
          best := Some(n);
        } else if best.value != n {
          var m := best.value;
          BeforeTotal(nodes[m], m, nodes[n], n);
          if Load(nodes[n]) < Load(nodes[m])
             || (Load(nodes[n]) == Load(nodes[m])
                 && (nodes[n].heartbeatAt > nodes[m].heartbeatAt
                     || (nodes[n].heartbeatAt == nodes[m].heartbeatAt && TextBefore(n, m)))) {
            forall k | k in nodes && Before(nodes[m], m, nodes[k], k)
              ensures Before(nodes[n], n, nodes[k], k)
            {
              BeforeTransitive(nodes[n], n, nodes[m], m, nodes[k], k);
            }
            best := Some(n);
          }
        }
      }
    }
  }

  /**
   The chosen node is healthy, accepts work of that kind in that region, was heard of recently and
   has a job to spare. Among those nodes no other is relatively less used; of equally used ones it
   was heard of last, and of those it has the first name.
   */
  lemma LeastLoadedAmongTheUsable(nodes: map<NodeId, Node>, chosen: NodeId, d: Demand, now: nat)
    requires forall n :: n in nodes ==> nodes[n].jobsLimit > 0
    ensures LeastLoaded(nodes, chosen, d, now) <==>
              && chosen in nodes
              && var best := nodes[chosen];
              && best.healthy && !best.draining
              && best.serviceKind == d.serviceKind && best.region == d.region
              && now - best.heartbeatAt <= d.staleMillis && best.jobsUsed < best.jobsLimit
              && forall n :: n in nodes && n != chosen ==>
                   var other := nodes[n];
                   || !other.healthy || other.draining
                   || other.serviceKind != d.serviceKind || other.region != d.region
                   || now - other.heartbeatAt > d.staleMillis || other.jobsUsed >= other.jobsLimit
                   || best.jobsUsed * other.jobsLimit < other.jobsUsed * best.jobsLimit
                   || (best.jobsUsed * other.jobsLimit == other.jobsUsed * best.jobsLimit
                       && (other.heartbeatAt < best.heartbeatAt
                           || (other.heartbeatAt == best.heartbeatAt && TextBefore(chosen, n))))
  {
    if chosen in nodes {
      var best := nodes[chosen];
      forall n | n in nodes
        ensures var other := nodes[n];
                Before(best, chosen, other, n) <==>
                  || best.jobsUsed * other.jobsLimit < other.jobsUsed * best.jobsLimit
                  || (best.jobsUsed * other.jobsLimit == other.jobsUsed * best.jobsLimit
                      && (other.heartbeatAt < best.heartbeatAt
                          || (other.heartbeatAt == best.heartbeatAt && TextBefore(chosen, n))))
      {
        CrossMultiplied(best.jobsUsed, best.jobsLimit, nodes[n].jobsUsed, nodes[n].jobsLimit);
      }
      hide Before;
    }
  }

  /** A resource stays exactly when its node is healthy, right and recent, however full it is. */
  lemma SettledWhateverTheLoad(t: Tables, resource: Resource, d: Demand, now: nat)
    requires TablesOk(t)
    ensures Settled(t, resource, d, now) <==>
              && resource in t.placements
              && var n := t.nodes[t.placements[resource].node];
              && n.healthy && !n.draining && n.serviceKind == d.serviceKind && n.region == d.region
              && now - n.heartbeatAt <= d.staleMillis
  {
  }

  // ----- The scheduler in place -----

  predicate NodeField(value: string, maximum: nat) {
    value != [] && Utf8Length(value) <= maximum
    && forall c | c in value :: IsAsciiAlphanumeric(c) || c == '-' || c == '_' || c == '.'
  }

  predicate ValidNode(id: NodeId, n: Node) {
    NodeField(id, 256) && NodeField(n.serviceKind, 64) && NodeField(n.region, 128)
    && BoundedText(n.endpoint, 2_048) && 0 < n.jobsLimit <= I64_MAX && n.jobsUsed <= n.jobsLimit
  }

  const MAX_METADATA_BYTES: nat := 65_536

  class Scheduler {
    var nodes: map<NodeId, Node>
    var placements: map<Resource, Placement>

    function Contents(): Tables
      reads this
    {
      Tables(nodes, placements)
    }

    ghost predicate Valid()
      reads this
    {
      TablesOk(Contents())
    }

    constructor ()
      ensures Valid() && Contents() == Tables(map[], map[])
    {
      nodes, placements := map[], map[];
    }

    /** `originOk` is the URL parser's answer about the endpoint, `metadataBytes` an encoded size. */
    method UpsertNode(id: NodeId, heartbeat: Node, originOk: bool, metadataBytes: nat, now: nat)
      returns (ok: bool)
      requires Valid()
      modifies `nodes
      ensures Valid()
      ensures ok == (ValidNode(id, heartbeat) && originOk && metadataBytes <= MAX_METADATA_BYTES)
      ensures nodes == if ok then old(nodes)[id := heartbeat.(heartbeatAt := now)] else old(nodes)
    {
      ok := ValidNode(id, heartbeat) && originOk && metadataBytes <= MAX_METADATA_BYTES;
      if ok { nodes := nodes[id := heartbeat.(heartbeatAt := now)]; }
    }

    /** A settled resource stays where it is; otherwise the least-loaded eligible node gets it. */
    method Place(resource: Resource, d: Demand, now: nat) returns (r: Result<Placed, PlacementError>)
      requires Valid()
      modifies this
      ensures Valid()
      ensures r.Err? ==> Contents() == old(Contents())
      ensures r.Ok? ==> ValidResource(resource) && ValidDemand(d)
      ensures r.Ok? ==> resource in placements && r.value.node in nodes
                        && r.value == Placed(resource, placements[resource].node,
                                             placements[resource].generation, nodes[r.value.node].endpoint)
      ensures ValidResource(resource) && ValidDemand(d) && Settled(old(Contents()), resource, d, now) ==>
                r.Ok? && Contents() == old(Contents())
      ensures r.Ok? && !Settled(old(Contents()), resource, d, now) ==>
                LeastLoaded(old(nodes), r.value.node, d, now)
                && Contents() == PlaceOn(old(Contents()), resource, r.value.node)
      ensures r == Err(NoCapacity) ==> forall n :: n in nodes ==> !Eligible(nodes[n], d, now)
      ensures r.Ok? <==> ValidResource(resource) && ValidDemand(d)
                         && (Settled(old(Contents()), resource, d, now)
                             || (NextGeneration(old(placements), resource) <= I64_MAX
                                 && exists n :: n in old(nodes) && Eligible(old(nodes)[n], d, now)))
    {
      hide BoundedText, Before;
      if !ValidResource(resource) || !BoundedText(d.serviceKind, 64) || !BoundedText(d.region, 128) {
        return Err(InvalidText);
      }
      if !(MIN_STALE_MILLIS <= d.staleMillis <= MAX_STALE_MILLIS) { return Err(InvalidStaleWindow); }
      if resource in placements {
        var current := placements[resource];
        if Serves(nodes[current.node], d, now) {
          return Ok(Placed(resource, current.node, current.generation, nodes[current.node].endpoint));
        }
      }
      var best := SelectNode(nodes, d, now);
      if best.None? { return Err(NoCapacity); }
      var chosen := best.value;
      var generation := if resource in placements then placements[resource].generation + 1 else 1;
      if generation > I64_MAX { return Err(GenerationOverflow); }
      PlaceOnOk(Contents(), resource, chosen, d, now);
      WritePlacement(resource, chosen);
      r := Ok(Placed(resource, chosen, generation, nodes[chosen].endpoint));
    }

    /** Records the assignment and moves the reservation. */
    method WritePlacement(resource: Resource, chosen: NodeId)
      requires chosen in nodes && (resource in placements ==> placements[resource].node in nodes)
      modifies this
      ensures Contents() == PlaceOn(old(Contents()), resource, chosen)
      ensures chosen in nodes && nodes[chosen].endpoint == old(nodes)[chosen].endpoint
    {
      var current := if resource in placements then Some(placements[resource].node) else None;
      var generation := if resource in placements then placements[resource].generation + 1 else 1;
      placements := placements[resource := Placement(chosen, generation)];
      nodes := nodes[chosen := nodes[chosen].(
                       jobsUsed := Min(nodes[chosen].jobsLimit, nodes[chosen].jobsUsed + 1))];
      if current.Some? && current.value != chosen {
        var n := nodes[current.value];
        nodes := nodes[current.value := n.(jobsUsed := Max(0, n.jobsUsed - 1))];
      }
    }

    /** The second transaction of an advance: raises the generation if the node is still the same. */
    method BumpGeneration(resource: Resource, node: NodeId) returns (r: Result<nat, PlacementError>)
      requires Valid()
      modifies `placements
      ensures Valid()
      ensures r.Ok? <==> old(CanBump(Contents(), resource, node))
      ensures r.Ok? <==> resource in old(placements) && old(placements)[resource].node == node
                         && old(placements)[resource].generation < I64_MAX
      ensures r.Err? ==> Contents() == old(Contents())
      ensures r.Ok? ==> Contents() == Bump(old(Contents()), resource)
                        && r.value == placements[resource].generation
    {
      if resource !in placements || placements[resource].node != node {
        return Err(LostDatabaseLock);
      }
      var p := placements[resource];
      if p.generation == I64_MAX { return Err(GenerationOverflow); }
      placements := placements[resource := p.(generation := p.generation + 1)];
      r := Ok(p.generation + 1);
    }

    /** Re-places the resource if its node no longer serves it and fences every earlier attempt. */
    method Advance(resource: Resource, d: Demand, now: nat) returns (r: Result<Placed, PlacementError>)
      requires Valid()
      modifies this
      ensures Valid()
      ensures r.Ok? ==>
        && resource in placements && r.value.node == placements[resource].node
        && r.value.generation == placements[resource].generation
        && r.value.generation > (if resource in old(placements) then old(placements)[resource].generation
                                 else 1)
        && (old(Settled(Contents(), resource, d, now)) ==>
              Contents() == Bump(old(Contents()), resource))
        && (!old(Settled(Contents(), resource, d, now)) ==>
              LeastLoaded(old(nodes), r.value.node, d, now)
              && Contents() == Bump(PlaceOn(old(Contents()), resource, r.value.node), resource))
    {
      hide BoundedText;
      r := Place(resource, d, now);
      if r.Err? { return; }
      var placed := r.value;
      var bumped := BumpGeneration(resource, placed.node);
      if bumped.Err? { return Err(bumped.error); }
      r := Ok(placed.(generation := bumped.value));
    }

    method RemovePlacement(resource: Resource, generation: Option<u64>)
      returns (r: Result<bool, PlacementError>)
      requires Valid()
      modifies this
      ensures Valid()
      ensures r.Ok? <==> ValidResource(resource) && (generation.Some? ==> generation.value <= I64_MAX)
      ensures r.Ok? ==> r.value == CanRemove(old(Contents()), resource, generation)
      ensures r.Ok? ==> (r.value <==> resource in old(placements)
                                      && generation in {None, Some(old(placements)[resource].generation)})
      ensures Contents() == if r.Ok? && r.value then Removed(old(Contents()), resource)
                            else old(Contents())
    {
      if !ValidResource(resource) { return Err(InvalidText); }
      if generation.Some? && generation.value > I64_MAX { return Err(InvalidGeneration); }
      if resource !in placements
         || (generation.Some? && placements[resource].generation != generation.value) {
        return Ok(false);
      }
      hide BoundedText;
      RemovedOk(Contents(), resource);
      var node := placements[resource].node;
      placements := placements - {resource};
      nodes := nodes[node := nodes[node].(jobsUsed := Max(0, nodes[node].jobsUsed - 1))];
      r := Ok(true);
    }
  }

  predicate CanBump(t: Tables, resource: Resource, node: NodeId) {
    resource in t.placements && t.placements[resource].node == node
    && t.placements[resource].generation < I64_MAX
  }

  /** Without a generation any placement is removed, with one only the placement that carries it. */
  predicate CanRemove(t: Tables, resource: Resource, generation: Option<u64>) {
    resource in t.placements
    && (generation.Some? ==> t.placements[resource].generation == generation.value)
  }

  lemma PlaceOnOk(t: Tables, resource: Resource, chosen: NodeId, d: Demand, now: nat)
    requires TablesOk(t) && ValidResource(resource) && chosen in t.nodes && Eligible(t.nodes[chosen], d, now)
    requires NextGeneration(t.placements, resource) <= I64_MAX
    ensures TablesOk(PlaceOn(t, resource, chosen))
  {
    hide BoundedText;
  }

  lemma RemovedOk(t: Tables, resource: Resource)
    requires TablesOk(t) && resource in t.placements
    ensures TablesOk(Removed(t, resource))
  {
    hide BoundedText;
  }

  /** The scheduler never reserves twice on one node for one resource. */
  lemma UnsettledResourcesMove(t: Tables, resource: Resource, chosen: NodeId, d: Demand, now: nat)
    requires TablesOk(t) && chosen in t.nodes && Eligible(t.nodes[chosen], d, now)
    requires !Settled(t, resource, d, now)
    ensures resource in t.placements ==> t.placements[resource].node != chosen
    ensures Settled(PlaceOn(t, resource, chosen), resource, d, now)
  {
  }

  // ----- Every run -----

  /** An advance that returned `generation`, in the row lifetime after `lifetime` removals. */
  datatype Advance = Advance(resource: Resource, lifetime: nat, generation: nat)

  datatype World = World(now: nat, tables: Tables, advances: seq<Advance>, removals: map<Resource, nat>)

  /** `chosen` is any eligible node: rows locked by concurrent schedulers are skipped. */
  datatype Step =
    | Tick(millis: nat)
    | Heartbeat(id: NodeId, report: Node)
    | PlaceStep(resource: Resource, demand: Demand, chosen: NodeId)
    | BumpStep(resource: Resource, node: NodeId)
    | RemoveStep(resource: Resource, generation: Option<u64>)

  function Start(): World { World(0, Tables(map[], map[]), [], map[]) }

  function Lifetime(w: World, resource: Resource): nat {
    if resource in w.removals then w.removals[resource] else 0
  }

  predicate Writes(w: World, step: Step) {
    match step
    case Tick(_) => true
    case Heartbeat(id, n) => ValidNode(id, n)
    case PlaceStep(resource, d, chosen) =>
      && ValidResource(resource) && ValidDemand(d) && !Settled(w.tables, resource, d, w.now)
      && chosen in w.tables.nodes && Eligible(w.tables.nodes[chosen], d, w.now)
      && NextGeneration(w.tables.placements, resource) <= I64_MAX
    case BumpStep(resource, node) => CanBump(w.tables, resource, node)
    case RemoveStep(resource, generation) =>
      ValidResource(resource) && CanRemove(w.tables, resource, generation)
  }

  function Next(w: World, step: Step): World {
    if !Writes(w, step) then w
    else match step
      case Tick(millis) => w.(now := w.now + millis)
      case Heartbeat(id, n) =>
        w.(tables := w.tables.(nodes := w.tables.nodes[id := n.(heartbeatAt := w.now)]))
      case PlaceStep(resource, d, chosen) => w.(tables := PlaceOn(w.tables, resource, chosen))
      case BumpStep(resource, node) =>
        w.(tables := Bump(w.tables, resource),
           advances := w.advances + [Advance(resource, Lifetime(w, resource),
                                             w.tables.placements[resource].generation + 1)])
      case RemoveStep(resource, _) =>
        w.(tables := Removed(w.tables, resource),
           removals := w.removals[resource := Lifetime(w, resource) + 1])
  }

  function Run(w: World, steps: seq<Step>): World {
    if steps == [] then w else Next(Run(w, steps[..|steps| - 1]), steps[|steps| - 1])
  }

  lemma NextTablesOk(w: World, step: Step)
    requires TablesOk(w.tables)
    ensures TablesOk(Next(w, step).tables)
  {
    hide BoundedText, NodeField;
    if Writes(w, step) {
      match step {
        case Tick(_) =>
        case Heartbeat(_, _) =>
        case PlaceStep(resource, d, chosen) => PlaceOnOk(w.tables, resource, chosen, d, w.now);
        case BumpStep(_, _) =>
        case RemoveStep(resource, _) => RemovedOk(w.tables, resource);
      }
    }
  }

  /** In every reachable state each node uses between zero and its limit of jobs. */
  lemma {:induction false} JobsStayWithinLimits(w: World, steps: seq<Step>)
    requires TablesOk(w.tables)
    ensures TablesOk(Run(w, steps).tables)
  {
    if steps != [] {
      hide TablesOk, Next;
      JobsStayWithinLimits(w, steps[..|steps| - 1]);
      NextTablesOk(Run(w, steps[..|steps| - 1]), steps[|steps| - 1]);
    }
  }

  // ----- Conservation of reservations -----

  ghost function Slack(t: Tables, n: NodeId): int
    requires n in t.nodes
  {
    t.nodes[n].jobsUsed - |Hosted(t.placements, n)|
  }

  /** Every node accounts for at least what is placed on it. */
  ghost predicate Covers(t: Tables) {
    forall n :: n in t.nodes ==> Slack(t, n) >= 0
  }

  ghost predicate SameSlack(t: Tables, t': Tables) {
    t'.nodes.Keys == t.nodes.Keys && forall n :: n in t.nodes ==> n in t'.nodes && Slack(t', n) == Slack(t, n)
  }

  lemma PlaceConserves(t: Tables, resource: Resource, chosen: NodeId)
    requires TablesOk(t) && Covers(t) && chosen in t.nodes
    requires t.nodes[chosen].jobsUsed < t.nodes[chosen].jobsLimit
    requires resource in t.placements ==> t.placements[resource].node != chosen
    ensures SameSlack(t, PlaceOn(t, resource, chosen))
  {
    var t' := PlaceOn(t, resource, chosen);
    forall n | n in t.nodes ensures n in t'.nodes && Slack(t', n) == Slack(t, n) {
      HostedAfterAssign(t.placements, resource, chosen, n);
      assert Slack(t, n) >= 0;
    }
  }

  lemma RemoveConserves(t: Tables, resource: Resource)
    requires TablesOk(t) && Covers(t) && resource in t.placements
    ensures SameSlack(t, Removed(t, resource))
  {
    var t' := Removed(t, resource);
    forall n | n in t.nodes ensures n in t'.nodes && Slack(t', n) == Slack(t, n) {
      HostedAfterRemove(t.placements, resource, n);
      assert Slack(t, n) >= 0;
    }
  }

  lemma BumpConserves(t: Tables, resource: Resource)
    requires resource in t.placements
    ensures SameSlack(t, Bump(t, resource))
  {
    forall n | n in t.nodes ensures Slack(Bump(t, resource), n) == Slack(t, n) {
      HostedAfterBump(t.placements, resource, t.placements[resource].generation + 1, n);
    }
  }

  lemma NextConserves(w: World, step: Step)
    requires TablesOk(w.tables) && Covers(w.tables) && !step.Heartbeat?
    ensures SameSlack(w.tables, Next(w, step).tables) && Covers(Next(w, step).tables)
  {
    hide BoundedText, Hosted, Slack;
    if Writes(w, step) {
      match step {
        case Tick(_) =>
        case PlaceStep(resource, d, chosen) =>
          UnsettledResourcesMove(w.tables, resource, chosen, d, w.now);
          PlaceConserves(w.tables, resource, chosen);
        case BumpStep(resource, _) => BumpConserves(w.tables, resource);
        case RemoveStep(resource, _) => RemoveConserves(w.tables, resource);
      }
    }
    hide TablesOk, Next;
  }

  ghost predicate Quiet(steps: seq<Step>) {
    forall i :: 0 <= i < |steps| ==> !steps[i].Heartbeat?
  }

  lemma {:induction false} QuietRunsConserve(w: World, steps: seq<Step>)
    requires TablesOk(w.tables) && Covers(w.tables) && Quiet(steps)
    ensures SameSlack(w.tables, Run(w, steps).tables) && Covers(Run(w, steps).tables)
  {
    if steps != [] {
      hide TablesOk, Next, Slack;
      var init := steps[..|steps| - 1];
      QuietRunsConserve(w, init);
      JobsStayWithinLimits(w, init);
      NextConserves(Run(w, init), steps[|steps| - 1]);
    }
  }

  /** Removing more than a node accounts for loses the difference. */
  lemma {:induction false} UncoveredNodeLosesSlack(w: World, n: NodeId) returns (steps: seq<Step>)
    requires TablesOk(w.tables) && n in w.tables.nodes && Slack(w.tables, n) < 0
    ensures Quiet(steps)
    ensures n !in Run(w, steps).tables.nodes || Slack(Run(w, steps).tables, n) != Slack(w.tables, n)
    decreases w.tables.nodes[n].jobsUsed
  {
    hide BoundedText, Run;
    var t := w.tables;
    assert Hosted(t.placements, n) != {};
    var resource :| resource in Hosted(t.placements, n);
    var step := RemoveStep(resource, None);
    var w' := Next(w, step);
    HostedAfterRemove(t.placements, resource, n);
    if t.nodes[n].jobsUsed == 0 {
      steps := [step] + [];
      RunCons(w, step, []);
      RunNothing(w');
    } else {
      RemovedOk(t, resource);
      var rest := UncoveredNodeLosesSlack(w', n);
      RunCons(w, step, rest);
      steps := [step] + rest;
    }
  }

  lemma RunNothing(w: World)
    ensures Run(w, []) == w
  {
  }

  lemma {:induction false} RunCons(w: World, step: Step, rest: seq<Step>)
    ensures Run(w, [step] + rest) == Run(Next(w, step), rest)
  {
    hide Next;
    var all := [step] + rest;
    if rest == [] {
      assert all[..0] == [] && all[0] == step;
    } else {
      var n := |rest| - 1;
      RunCons(w, step, rest[..n]);
      assert all[..|all| - 1] == [step] + rest[..n];
    }
  }

  /**
   The books are kept by every run without heartbeats, node by node, if and only if they start out
   covering what is placed.
   */
  lemma ConservedExactlyWhenCovered(w: World)
    requires TablesOk(w.tables)
    ensures (forall steps :: Quiet(steps) ==> SameSlack(w.tables, Run(w, steps).tables))
            <==> Covers(w.tables)
  {
    hide TablesOk, Run;
    if Covers(w.tables) {
      forall steps | Quiet(steps) ensures SameSlack(w.tables, Run(w, steps).tables) {
        QuietRunsConserve(w, steps);
      }
    } else {
      var n :| n in w.tables.nodes && Slack(w.tables, n) < 0;
      var steps := UncoveredNodeLosesSlack(w, n);
      assert Quiet(steps) && !SameSlack(w.tables, Run(w, steps).tables);
    }
  }

  // ----- Fencing -----

  ghost predicate FencesOk(w: World) {
    && (forall i :: 0 <= i < |w.advances| ==>
          var a := w.advances[i];
          a.lifetime <= Lifetime(w, a.resource)
          && (a.lifetime == Lifetime(w, a.resource) ==>
                a.resource in w.tables.placements
                && a.generation <= w.tables.placements[a.resource].generation))
    && (forall i, j | 0 <= i < j < |w.advances| && w.advances[i].resource == w.advances[j].resource ::
          w.advances[i].lifetime == w.advances[j].lifetime ==>
            w.advances[i].generation < w.advances[j].generation)
  }

  lemma NextFencesOk(w: World, step: Step)
    requires FencesOk(w)
    ensures FencesOk(Next(w, step))
  {
    hide BoundedText, NodeField, Serves;
  }

  lemma {:induction false} RunFencesOk(w: World, steps: seq<Step>)
    requires FencesOk(w)
    ensures FencesOk(Run(w, steps))
  {
    if steps != [] {
      hide FencesOk, Next;
      RunFencesOk(w, steps[..|steps| - 1]);
      NextFencesOk(Run(w, steps[..|steps| - 1]), steps[|steps| - 1]);
    }
  }

  /** Within one row lifetime every advance returns a higher generation than all before it. */
  lemma AdvancesNeverRepeat(steps: seq<Step>, i: nat, j: nat)
    requires var advances := Run(Start(), steps).advances;
             i < j < |advances| && advances[i].resource == advances[j].resource
             && advances[i].lifetime == advances[j].lifetime
    ensures Run(Start(), steps).advances[i].generation < Run(Start(), steps).advances[j].generation
  {
    RunFencesOk(Start(), steps);
  }

  /** Cleanup with the generation of a superseded advance removes nothing. */
  lemma SupersededCleanupDoesNothing(steps: seq<Step>, i: nat, j: nat)
    requires var w := Run(Start(), steps);
             i < j < |w.advances| && w.advances[i].resource == w.advances[j].resource
             && w.advances[i].lifetime == w.advances[j].lifetime
             && w.advances[j].lifetime == Lifetime(w, w.advances[j].resource)
             && w.advances[i].generation <= U64_MAX
    ensures var w := Run(Start(), steps);
            Next(w, RemoveStep(w.advances[i].resource, Some(w.advances[i].generation))) == w
  {
    hide BoundedText;
    RunFencesOk(Start(), steps);
  }

  lemma ShortNames(report: Node)
    requires report == Node("k", "z", "h", true, false, 0, 1, 0)
    ensures ValidNode("n", report) && ValidResource(Resource("k", "r")) && ValidDemand(Demand("k", "z", 1_000))
  {
  }

  /** Placing a resource that has no row and advancing it once returns generation 2. */
  lemma PlacedAndAdvanced(w: World, r: Resource, d: Demand, n: NodeId)
    requires r !in w.tables.placements && Writes(w, PlaceStep(r, d, n))
    ensures var w' := Next(Next(w, PlaceStep(r, d, n)), BumpStep(r, n));
            && w'.tables.placements == w.tables.placements[r := Placement(n, 2)]
            && w'.tables.nodes == w.tables.nodes[n := Reserve(w.tables.nodes[n])]
            && w'.advances == w.advances + [Advance(r, Lifetime(w, r), 2)]
            && w'.now == w.now && w'.removals == w.removals
  {
    hide BoundedText, Reserve;
    var w1 := Next(w, PlaceStep(r, d, n));
    assert w1.tables.placements[r] == Placement(n, 1);
  }

  /** Removing it again gives the reservation back, so that it can be placed there once more. */
  lemma RemovedAndPlaceable(w: World, w2: World, r: Resource, d: Demand, n: NodeId)
    requires r !in w.tables.placements && Writes(w, PlaceStep(r, d, n))
    requires w2.tables.placements == w.tables.placements[r := Placement(n, 2)]
    requires w2.tables.nodes == w.tables.nodes[n := Reserve(w.tables.nodes[n])] && w2.now == w.now
    ensures var w3 := Next(w2, RemoveStep(r, Some(2)));
            && r !in w3.tables.placements && w3.advances == w2.advances && Writes(w3, PlaceStep(r, d, n))
  {
    hide BoundedText;
  }

  lemma RemovesGeneration(w: World, r: Resource, n: NodeId)
    requires ValidResource(r) && r in w.tables.placements && w.tables.placements[r] == Placement(n, 2)
    ensures r !in Next(w, RemoveStep(r, Some(2))).tables.placements
  {
    hide BoundedText;
  }

  /**
   Removing the row forgets its generation: from any world in which a resource can be placed, in the
   next lifetime of its row an advance returns a generation that was given out before, so late cleanup
   of the first attempt removes the second.
   */
  lemma GenerationsRestartAfterRemoval(w: World, r: Resource, d: Demand, n: NodeId)
    requires r !in w.tables.placements && Writes(w, PlaceStep(r, d, n))
    ensures var first := Next(Next(w, PlaceStep(r, d, n)), BumpStep(r, n));
            var removed := Next(first, RemoveStep(r, Some(2)));
            var second := Next(Next(removed, PlaceStep(r, d, n)), BumpStep(r, n));
            var k := |w.advances|;
            && |first.advances| == k + 1 && |second.advances| == k + 2
            && second.advances[k].resource == second.advances[k + 1].resource == r
            && second.advances[k].generation == second.advances[k + 1].generation == 2
            && r in second.tables.placements
            && r !in Next(second, RemoveStep(r, Some(2))).tables.placements
  {
    assert ValidResource(r);
    hide *;
    var first := Next(Next(w, PlaceStep(r, d, n)), BumpStep(r, n));
    PlacedAndAdvanced(w, r, d, n);
    RemovedAndPlaceable(w, first, r, d, n);
    var removed := Next(first, RemoveStep(r, Some(2)));
    PlacedAndAdvanced(removed, r, d, n);
    RemovesGeneration(Next(Next(removed, PlaceStep(r, d, n)), BumpStep(r, n)), r, n);
  }

  /** Such a world is one heartbeat away from the start. */
  lemma PlaceableAfterAHeartbeat()
    ensures var w := Next(Start(), Heartbeat("n", Node("k", "z", "h", true, false, 0, 1, 0)));
            Resource("k", "r") !in w.tables.placements
            && Writes(w, PlaceStep(Resource("k", "r"), Demand("k", "z", 1_000), "n"))
  {
    ShortNames(Node("k", "z", "h", true, false, 0, 1, 0));
    hide BoundedText, NodeField;
  }
}
