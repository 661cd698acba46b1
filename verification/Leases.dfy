/**
 Fenced leases on shared resources. A lease is renewed by its owner, taken over by anyone once it has
 expired, and released by deleting its row. The promise is mutual exclusion between owners that only
 look at the deadline they were given.
 */
module Leases {
  import opened Prelude

  type OwnerId = string

  const MIN_TTL_MILLIS: nat := 1_000
  const MAX_TTL_MILLIS: nat := 300_000

  datatype Resource = Resource(kind: string, id: string)

  datatype LeaseRow = LeaseRow(owner: OwnerId, generation: nat, leaseUntil: nat, metadata: string)

  datatype Lease = Lease(resource: Resource, owner: OwnerId, generation: nat, metadata: string)

  datatype LeaseError = InvalidText | InvalidTtl | InvalidGeneration | GenerationOverflow

  type Rows = map<Resource, LeaseRow>

  predicate ValidNames(resource: Resource, owner: OwnerId) {
    BoundedText(resource.kind, 64) && BoundedText(resource.id, 256) && BoundedText(owner, 256)
  }

  predicate ValidTtl(ttlMillis: nat) { MIN_TTL_MILLIS <= ttlMillis <= MAX_TTL_MILLIS }

  /** The row is absent, the caller's own, or expired. */
  predicate Available(rows: Rows, now: nat, resource: Resource, owner: OwnerId) {
    resource in rows ==> rows[resource].owner == owner || rows[resource].leaseUntil <= now
  }

  /** A new row starts at generation 1, a renewal keeps it and a takeover raises it. */
  function GrantedGeneration(rows: Rows, resource: Resource, owner: OwnerId): nat {
    if resource !in rows then 1
    else if rows[resource].owner == owner then rows[resource].generation
    else rows[resource].generation + 1
  }

  function GrantRow(rows: Rows, resource: Resource, owner: OwnerId, until: nat, metadata: string): Rows {
    rows[resource := LeaseRow(owner, GrantedGeneration(rows, resource, owner), until, metadata)]
  }

  predicate HeldBy(rows: Rows, lease: Lease) {
    lease.resource in rows && rows[lease.resource].owner == lease.owner
    && rows[lease.resource].generation == lease.generation
  }

  // ----- The table -----

  class LeaseTable {
    var rows: Rows

    ghost predicate Valid()
      reads this
    {
      forall r :: r in rows ==> 0 < rows[r].generation <= I64_MAX
    }

    constructor ()
      ensures Valid() && rows == map[]
    {
      rows := map[];
    }

    method AcquireLease(resource: Resource, owner: OwnerId, ttlMillis: nat, metadata: string, now: nat)
      returns (r: Result<Option<Lease>, LeaseError>)
      requires Valid()
      modifies this
      ensures Valid()
      ensures r.Ok? <==>
              && ValidNames(resource, owner) && ValidTtl(ttlMillis)
              && (Available(old(rows), now, resource, owner) ==>
                    GrantedGeneration(old(rows), resource, owner) <= I64_MAX)
      ensures r.Ok? && r.value.Some? ==> Available(old(rows), now, resource, owner)
      ensures r.Ok? && Available(old(rows), now, resource, owner) ==>
                && rows == GrantRow(old(rows), resource, owner, now + ttlMillis, metadata)
                && r.value == Some(Lease(resource, owner, rows[resource].generation, metadata))
                && HeldBy(rows, r.value.value)
      ensures r.Err? || r.value.None? ==> rows == old(rows)
    {
      if !ValidNames(resource, owner) { return Err(InvalidText); }
      if !ValidTtl(ttlMillis) { return Err(InvalidTtl); }
      var generation := 1;
      if resource in rows {
        var row := rows[resource];
        if row.owner != owner && row.leaseUntil > now { return Ok(None); }
        generation := if row.owner == owner then row.generation else row.generation + 1;
      }
      if generation > I64_MAX { return Err(GenerationOverflow); }
      rows := rows[resource := LeaseRow(owner, generation, now + ttlMillis, metadata)];
      r := Ok(Some(Lease(resource, owner, generation, metadata)));
    }

    method ReleaseLease(lease: Lease) returns (r: Result<bool, LeaseError>)
      requires Valid()
      modifies this
      ensures Valid()
      ensures r.Ok? <==> ValidNames(lease.resource, lease.owner) && lease.generation <= I64_MAX
      ensures r.Ok? ==> r.value == HeldBy(old(rows), lease)
      ensures rows == if r.Ok? && r.value then old(rows) - {lease.resource} else old(rows)
    {
      if !ValidNames(lease.resource, lease.owner) { return Err(InvalidText); }
      if lease.generation > I64_MAX { return Err(InvalidGeneration); }
      if lease.resource in rows && rows[lease.resource].owner == lease.owner
         && rows[lease.resource].generation == lease.generation {
        rows := rows - {lease.resource};
        return Ok(true);
      }
      r := Ok(false);
    }
  }

  // ----- Every run -----

  /**
   What an owner was told: a deadline `until`. `end` is when its holding really ended or will end: a
   release or a shorter renewal by the same owner brings it forward. `lifetime` counts the releases of
   the resource before the grant.
   */
  datatype Grant = Grant(resource: Resource, owner: OwnerId, generation: nat, lifetime: nat, from: nat,
                         until: nat, end: nat)

  datatype World = World(now: nat, rows: Rows, grants: seq<Grant>, releases: map<Resource, nat>)

  datatype Step =
    | Tick(millis: nat)
    | Acquire(resource: Resource, owner: OwnerId, ttlMillis: nat, metadata: string)
    | Release(lease: Lease)

  function Start(): World { World(0, map[], [], map[]) }

  function Lifetime(w: World, resource: Resource): nat {
    if resource in w.releases then w.releases[resource] else 0
  }

  /** Brings the end of a resource's grants forward to `limit`. */
  function EndBy(grants: seq<Grant>, resource: Resource, limit: nat): seq<Grant> {
    seq(|grants|, i requires 0 <= i < |grants| =>
      if grants[i].resource == resource then grants[i].(end := Min(grants[i].end, limit)) else grants[i])
  }

  predicate Succeeds(w: World, step: Step) {
    match step
    case Tick(_) => true
    case Acquire(resource, owner, ttl, _) =>
      ValidNames(resource, owner) && ValidTtl(ttl) && Available(w.rows, w.now, resource, owner)
      && GrantedGeneration(w.rows, resource, owner) <= I64_MAX
    case Release(lease) => ValidNames(lease.resource, lease.owner) && HeldBy(w.rows, lease)
  }

  function NewGrant(w: World, resource: Resource, owner: OwnerId, until: nat): Grant {
    Grant(resource, owner, GrantedGeneration(w.rows, resource, owner), Lifetime(w, resource), w.now,
          until, until)
  }

  function Next(w: World, step: Step): World {
    if !Succeeds(w, step) then w
    else match step
      case Tick(millis) => w.(now := w.now + millis)
      case Acquire(resource, owner, ttl, metadata) =>
        var until := w.now + ttl;
        w.(rows := GrantRow(w.rows, resource, owner, until, metadata),
           grants := EndBy(w.grants, resource, until) + [NewGrant(w, resource, owner, until)])
      case Release(lease) =>
        w.(rows := w.rows - {lease.resource},
           grants := EndBy(w.grants, lease.resource, w.now),
           releases := w.releases[lease.resource := Lifetime(w, lease.resource) + 1])
  }

  function RunFrom(w: World, steps: seq<Step>): World {
    if steps == [] then w else Next(RunFrom(w, steps[..|steps| - 1]), steps[|steps| - 1])
  }

  function Run(steps: seq<Step>): World { RunFrom(Start(), steps) }

  /** A grant against the current row of its resource. */
  ghost predicate Settled(w: World, g: Grant) {
    var life := Lifetime(w, g.resource);
    && g.lifetime <= life && g.from <= w.now && g.end <= g.until
    && (g.lifetime < life ==> g.end <= w.now)
    && (g.lifetime == life ==>
          && g.resource in w.rows && g.generation <= w.rows[g.resource].generation
          && (g.generation < w.rows[g.resource].generation ==> g.end <= w.now)
          && (g.generation == w.rows[g.resource].generation ==>
                g.owner == w.rows[g.resource].owner && g.end <= w.rows[g.resource].leaseUntil))
  }

  /** An earlier and a later grant of one resource. */
  ghost predicate Ordered(g: Grant, h: Grant) {
    && (g.owner != h.owner ==> g.end <= h.from)
    && g.lifetime <= h.lifetime
    && (g.lifetime == h.lifetime ==>
          g.generation <= h.generation && (g.owner != h.owner ==> g.generation < h.generation))
  }

  ghost predicate WorldOk(w: World) {
    && (forall i :: 0 <= i < |w.grants| ==> Settled(w, w.grants[i]))
    && (forall i, j :: 0 <= i < j < |w.grants| && w.grants[i].resource == w.grants[j].resource ==>
          Ordered(w.grants[i], w.grants[j]))
  }

  lemma EndByKeepsOrder(g: Grant, h: Grant, limit: nat)
    requires Ordered(g, h)
    ensures Ordered(g.(end := Min(g.end, limit)), h)
    ensures Ordered(g.(end := Min(g.end, limit)), h.(end := Min(h.end, limit)))
  {
  }

  lemma EndByOrdered(grants: seq<Grant>, resource: Resource, limit: nat)
    requires forall i, j :: 0 <= i < j < |grants| && grants[i].resource == grants[j].resource ==>
               Ordered(grants[i], grants[j])
    ensures var ended := EndBy(grants, resource, limit);
            forall i, j :: 0 <= i < j < |ended| && ended[i].resource == ended[j].resource ==>
              Ordered(ended[i], ended[j])
  {
    var ended := EndBy(grants, resource, limit);
    forall i, j | 0 <= i < j < |ended| && ended[i].resource == ended[j].resource
      ensures Ordered(ended[i], ended[j])
    {
      EndByKeepsOrder(grants[i], grants[j], limit);
    }
  }

  lemma AcquireSettles(w: World, step: Step, g: Grant)
    requires step.Acquire? && Succeeds(w, step) && Settled(w, g)
    ensures Settled(Next(w, step),
                    if g.resource == step.resource
                    then g.(end := Min(g.end, w.now + step.ttlMillis)) else g)
    ensures g.resource == step.resource ==>
              Ordered(g.(end := Min(g.end, w.now + step.ttlMillis)),
                      NewGrant(w, step.resource, step.owner, w.now + step.ttlMillis))
  {
  }

  lemma AcquireOk(w: World, step: Step)
    requires WorldOk(w) && step.Acquire? && Succeeds(w, step)
    ensures WorldOk(Next(w, step))
  {
    var w', until := Next(w, step), w.now + step.ttlMillis;
    var granted := NewGrant(w, step.resource, step.owner, until);
    EndByOrdered(w.grants, step.resource, until);
    assert Settled(w', granted);
    forall i | 0 <= i < |w.grants|
      ensures Settled(w', w'.grants[i])
      ensures w.grants[i].resource == step.resource ==> Ordered(w'.grants[i], granted)
    {
      AcquireSettles(w, step, w.grants[i]);
    }
    hide Settled, Ordered;
  }

  lemma ReleaseOk(w: World, step: Step)
    requires WorldOk(w) && step.Release? && Succeeds(w, step)
    ensures WorldOk(Next(w, step))
  {
    hide Ordered;
    EndByOrdered(w.grants, step.lease.resource, w.now);
  }

  lemma NextOk(w: World, step: Step)
    requires WorldOk(w)
    ensures WorldOk(Next(w, step))
  {
    if Succeeds(w, step) {
      match step {
        case Tick(_) => hide Ordered;
        case Acquire(_, _, _, _) => AcquireOk(w, step);
        case Release(_) => ReleaseOk(w, step);
      }
    }
  }

  lemma {:induction false} RunOk(steps: seq<Step>)
    ensures WorldOk(Run(steps))
  {
    if steps != [] {
      RunOk(steps[..|steps| - 1]);
      hide WorldOk, Next;
      NextOk(Run(steps[..|steps| - 1]), steps[|steps| - 1]);
    }
  }

  /**
   Mutual exclusion over every run: two grants of a resource to different owners never overlap, the
   earlier one having ended before the later one began.
   */
  lemma HoldingsNeverOverlap(steps: seq<Step>, i: nat, j: nat)
    requires var grants := Run(steps).grants;
             i < j < |grants| && grants[i].resource == grants[j].resource
             && grants[i].owner != grants[j].owner
    ensures Run(steps).grants[i].end <= Run(steps).grants[j].from
  {
    RunOk(steps);
  }

  /** At any time the owners that still hold a resource are the one owner in its row, unexpired. */
  lemma AtMostOneHolder(steps: seq<Step>, i: nat)
    requires i < |Run(steps).grants| && Run(steps).now < Run(steps).grants[i].end
    ensures var w := Run(steps);
            var g := w.grants[i];
            g.resource in w.rows && w.rows[g.resource].owner == g.owner
            && w.now < w.rows[g.resource].leaseUntil && w.rows[g.resource].generation == g.generation
  {
    RunOk(steps);
  }

  /** Within one row lifetime generations never fall and rise strictly when the owner changes. */
  lemma GenerationsFenceOwners(steps: seq<Step>, i: nat, j: nat)
    requires var grants := Run(steps).grants;
             i < j < |grants| && grants[i].resource == grants[j].resource
             && grants[i].lifetime == grants[j].lifetime
    ensures var (g, h) := (Run(steps).grants[i], Run(steps).grants[j]);
            g.generation <= h.generation && (g.owner != h.owner ==> g.generation < h.generation)
  {
    RunOk(steps);
  }

  /** Once another owner has taken over, an earlier grant of the row's lifetime cannot release it. */
  lemma SupersededGrantCannotRelease(steps: seq<Step>, i: nat, j: nat, metadata: string)
    requires var w := Run(steps);
             && i < j < |w.grants| && w.grants[i].resource == w.grants[j].resource
             && w.grants[i].owner != w.grants[j].owner
             && w.grants[i].lifetime == Lifetime(w, w.grants[i].resource)
    ensures var w := Run(steps);
            var g := w.grants[i];
            Next(w, Release(Lease(g.resource, g.owner, g.generation, metadata))) == w
  {
    RunOk(steps);
    assert Settled(Run(steps), Run(steps).grants[j]);
  }

  // ----- Deadlines that may be relied on -----

  /** A step that ends a holding before the deadline its owner was given. */
  ghost predicate CutsShort(w: World, step: Step) {
    Succeeds(w, step) &&
    match step
    case Tick(_) => false
    case Acquire(resource, owner, ttl, _) =>
      resource in w.rows && w.now + ttl < w.rows[resource].leaseUntil
    case Release(lease) => w.now < w.rows[lease.resource].leaseUntil
  }

  /** No step of a run from `w` does. */
  ghost predicate Uncut(w: World, steps: seq<Step>) {
    steps != [] ==>
      var init := steps[..|steps| - 1];
      !CutsShort(RunFrom(w, init), steps[|steps| - 1]) && Uncut(w, init)
  }

  ghost predicate NeverCutShort(steps: seq<Step>) { Uncut(Start(), steps) }

  /** No owner was let in before a deadline given to another owner. */
  ghost predicate Exclusive(w: World) {
    forall i, j | 0 <= i < j < |w.grants| && w.grants[i].resource == w.grants[j].resource ::
      w.grants[i].owner != w.grants[j].owner ==> w.grants[i].until <= w.grants[j].from
  }

  /** Nor will one be, as long as nobody cuts a holding short from now on. */
  ghost predicate StaysExclusive(w: World) {
    forall more | Uncut(w, more) :: Exclusive(RunFrom(w, more))
  }

  /** After every prefix of the run. */
  ghost predicate DeadlinesExclusive(steps: seq<Step>) {
    StaysExclusive(Run(steps)) && (steps != [] ==> DeadlinesExclusive(steps[..|steps| - 1]))
  }

  /** Every holding lasts as long as its owner was told. */
  ghost predicate DeadlinesHold(w: World) {
    forall i :: 0 <= i < |w.grants| ==> w.grants[i].end == w.grants[i].until
  }

  /** Every row is backed by a grant that ends when the row says. */
  ghost predicate RowsBacked(w: World) {
    forall r :: r in w.rows ==>
      exists i :: 0 <= i < |w.grants| && w.grants[i].resource == r
                  && w.grants[i].until >= w.rows[r].leaseUntil == w.grants[i].end
  }

  lemma NextBacked(w: World, step: Step)
    requires RowsBacked(w)
    ensures RowsBacked(Next(w, step))
  {
    if Succeeds(w, step) {
      var w' := Next(w, step);
      forall r | r in w'.rows
        ensures exists i :: 0 <= i < |w'.grants| && w'.grants[i].resource == r
                            && w'.grants[i].until >= w'.rows[r].leaseUntil == w'.grants[i].end
      {
        if step.Acquire? && r == step.resource {
          assert w'.grants[|w'.grants| - 1].end == w'.rows[r].leaseUntil;
        } else {
          var i :| 0 <= i < |w.grants| && w.grants[i].resource == r
                   && w.grants[i].until >= w.rows[r].leaseUntil == w.grants[i].end;
          assert w'.grants[i] == w.grants[i];
        }
      }
    }
  }

  lemma EndsOnlyComeForward(w: World, step: Step, i: nat)
    requires i < |w.grants|
    ensures var w' := Next(w, step);
            i < |w'.grants| && w'.grants[i].until == w.grants[i].until
            && w'.grants[i].end <= w.grants[i].end
  {
  }

  lemma CuttingShortBreaksADeadline(w: World, step: Step)
    requires RowsBacked(w) && CutsShort(w, step)
    ensures !DeadlinesHold(Next(w, step))
  {
    var r := if step.Acquire? then step.resource else step.lease.resource;
    var i :| 0 <= i < |w.grants| && w.grants[i].resource == r
             && w.grants[i].until >= w.rows[r].leaseUntil == w.grants[i].end;
    assert Next(w, step).grants[i].end < Next(w, step).grants[i].until;
  }

  lemma OtherwiseEndsStay(w: World, step: Step, i: nat)
    requires i < |w.grants| && Settled(w, w.grants[i]) && !CutsShort(w, step)
    ensures i < |Next(w, step).grants| && Next(w, step).grants[i].end == w.grants[i].end
  {
  }

  lemma StepKeepsDeadlines(w: World, step: Step)
    requires WorldOk(w) && RowsBacked(w)
    ensures DeadlinesHold(Next(w, step)) <==> DeadlinesHold(w) && !CutsShort(w, step)
  {
    hide CutsShort, RowsBacked, Settled, Ordered;
    forall i | 0 <= i < |w.grants|
      ensures var w' := Next(w, step);
              && i < |w'.grants| && w'.grants[i].until == w.grants[i].until
              && w'.grants[i].end <= w.grants[i].end <= w.grants[i].until
              && (!CutsShort(w, step) ==> w'.grants[i].end == w.grants[i].end)
    {
      SettledEnd(w, w.grants[i]);
      EndsOnlyComeForward(w, step, i);
      if !CutsShort(w, step) { OtherwiseEndsStay(w, step, i); }
    }
    NewestGrantIsExact(w, step);
    if CutsShort(w, step) { CuttingShortBreaksADeadline(w, step); }
    hide Next;
  }

  lemma SettledEnd(w: World, g: Grant)
    requires Settled(w, g)
    ensures g.end <= g.until
  {
  }

  lemma NewestGrantIsExact(w: World, step: Step)
    ensures var grants := Next(w, step).grants;
            |grants| <= |w.grants| + 1
            && (|grants| == |w.grants| + 1 ==> grants[|w.grants|].end == grants[|w.grants|].until)
  {
  }

  lemma DeadlinesThatHoldAreExclusive(w: World)
    requires WorldOk(w) && DeadlinesHold(w)
    ensures Exclusive(w)
  {
    hide Settled;
  }

  lemma {:induction false} UncutKeepsDeadlines(w: World, more: seq<Step>)
    requires WorldOk(w) && RowsBacked(w) && DeadlinesHold(w) && Uncut(w, more)
    ensures WorldOk(RunFrom(w, more)) && RowsBacked(RunFrom(w, more)) && DeadlinesHold(RunFrom(w, more))
  {
    hide WorldOk, RowsBacked, DeadlinesHold, CutsShort, Next;
    if more != [] {
      var init, last := more[..|more| - 1], more[|more| - 1];
      UncutKeepsDeadlines(w, init);
      StepKeepsDeadlines(RunFrom(w, init), last);
      NextBacked(RunFrom(w, init), last);
      NextOk(RunFrom(w, init), last);
    }
  }

  lemma RunFromSnoc(w: World, steps: seq<Step>, step: Step)
    ensures RunFrom(w, steps + [step]) == Next(RunFrom(w, steps), step)
    ensures Uncut(w, steps + [step]) <==> Uncut(w, steps) && !CutsShort(RunFrom(w, steps), step)
  {
    assert (steps + [step])[..|steps|] == steps;
  }

  /** A resource whose row is gone or expires at `when`, before a deadline somebody was given. */
  ghost predicate Exposed(w: World, resource: Resource, when: nat, i: nat) {
    && i < |w.grants| && w.grants[i].resource == resource && w.now <= when < w.grants[i].until
    && (resource in w.rows ==>
          w.rows[resource].leaseUntil <= when && w.rows[resource].generation < I64_MAX)
  }

  lemma CuttingExposes(w: World, step: Step) returns (resource: Resource, when: nat, i: nat)
    requires RowsBacked(w) && CutsShort(w, step)
    requires forall r :: r in Next(w, step).rows ==> Next(w, step).rows[r].generation < I64_MAX
    ensures Exposed(Next(w, step), resource, when, i)
    ensures BoundedText(resource.kind, 64) && BoundedText(resource.id, 256)
  {
    hide BoundedText;
    resource := if step.Acquire? then step.resource else step.lease.resource;
    when := if step.Acquire? then w.now + step.ttlMillis else w.now;
    i :| 0 <= i < |w.grants| && w.grants[i].resource == resource
         && w.grants[i].until >= w.rows[resource].leaseUntil == w.grants[i].end;
  }

  lemma OtherOwner(owner: OwnerId) returns (other: OwnerId)
    ensures other != owner && BoundedText(other, 256)
  {
    other := if owner == "a" then "b" else "a";
  }

  /** Waiting until then and letting another owner acquire breaks the deadline, without any cut. */
  lemma {:induction false} ExposedLetsAnotherIn(w: World, resource: Resource, when: nat, i: nat)
    returns (more: seq<Step>)
    requires Exposed(w, resource, when, i) && BoundedText(resource.kind, 64) && BoundedText(resource.id, 256)
    ensures |more| == 2 && more[0].Tick? && more[1].Acquire?
    ensures Uncut(w, more) && !Exclusive(RunFrom(w, more))
  {
    var other := OtherOwner(w.grants[i].owner);
    hide BoundedText;
    var wait, enter := Tick(when - w.now), Acquire(resource, other, 1_000, "");
    more := [] + [wait] + [enter];
    RunFromSnoc(w, [], wait);
    RunFromSnoc(w, [] + [wait], enter);
    var w1 := Next(w, wait);
    assert RunFrom(w, []) == w && Uncut(w, []);
    hide RunFrom, Uncut;
    var w2 := Next(w1, enter);
    assert Succeeds(w1, enter);
    var j := |w.grants|;
    assert w2.grants[j].from == when && w2.grants[j].owner == other;
    assert w2.grants[i].until == w.grants[i].until;
  }

  lemma NextGenerations(w: World, step: Step, bound: nat)
    requires forall r :: r in w.rows ==> w.rows[r].generation <= bound
    ensures forall r :: r in Next(w, step).rows ==> Next(w, step).rows[r].generation <= bound + 1
  {
    hide BoundedText, EndBy;
  }

  lemma {:induction false} GenerationsBounded(steps: seq<Step>)
    ensures forall r :: r in Run(steps).rows ==> Run(steps).rows[r].generation <= |steps|
  {
    hide Next;
    if steps != [] {
      var init := steps[..|steps| - 1];
      GenerationsBounded(init);
      NextGenerations(Run(init), steps[|steps| - 1], |init|);
    }
  }

  lemma {:induction false} RunBacked(steps: seq<Step>)
    ensures RowsBacked(Run(steps))
  {
    if steps != [] {
      RunBacked(steps[..|steps| - 1]);
      hide RowsBacked, Next;
      NextBacked(Run(steps[..|steps| - 1]), steps[|steps| - 1]);
    }
  }

  lemma {:induction false} NeverCutShortStaysExclusive(steps: seq<Step>)
    requires NeverCutShort(steps)
    ensures StaysExclusive(Run(steps))
  {
    StartBacked();
    UncutKeepsDeadlines(Start(), steps);
    var w := Run(steps);
    hide Run, RunFrom, WorldOk, RowsBacked, DeadlinesHold, NeverCutShort, Exclusive, Uncut;
    forall more | Uncut(w, more) ensures Exclusive(RunFrom(w, more)) {
      UncutKeepsDeadlines(w, more);
      DeadlinesThatHoldAreExclusive(RunFrom(w, more));
    }
  }

  lemma StartBacked()
    ensures WorldOk(Start()) && RowsBacked(Start()) && DeadlinesHold(Start())
  {
  }

  lemma {:induction false} CuttingEndsExclusivity(steps: seq<Step>)
    requires 0 < |steps| < I64_MAX && CutsShort(Run(steps[..|steps| - 1]), steps[|steps| - 1])
    ensures !StaysExclusive(Run(steps))
  {
    GenerationsBounded(steps);
    RunBacked(steps[..|steps| - 1]);
    var w := Run(steps[..|steps| - 1]);
    assert Run(steps) == Next(w, steps[|steps| - 1]);
    hide Run, RunFrom, RowsBacked, CutsShort, Exclusive, Uncut, Exposed, BoundedText, Next;
    var resource, when, i := CuttingExposes(w, steps[|steps| - 1]);
    var more := ExposedLetsAnotherIn(Run(steps), resource, when, i);
    assert Uncut(Run(steps), more) && !Exclusive(RunFrom(Run(steps), more));
  }

  /**
   At every point of a run the deadlines given out so far keep every other owner out, whatever happens
   next short of a cut, if and only if nobody in the run renewed for a shorter time than it still had or
   released early.
   */
  lemma {:induction false} DeadlinesExclusiveExactlyWhenNeverCutShort(steps: seq<Step>)
    requires |steps| < I64_MAX
    ensures DeadlinesExclusive(steps) <==> NeverCutShort(steps)
  {
    hide StaysExclusive, CutsShort, RunFrom;
    if NeverCutShort(steps) { NeverCutShortStaysExclusive(steps); }
    if steps != [] {
      var init := steps[..|steps| - 1];
      DeadlinesExclusiveExactlyWhenNeverCutShort(init);
      if CutsShort(Run(init), steps[|steps| - 1]) { CuttingEndsExclusivity(steps); }
    }
  }

  lemma RunSnoc(steps: seq<Step>, step: Step)
    ensures Run(steps + [step]) == Next(Run(steps), step)
  {
    assert (steps + [step])[..|steps|] == steps;
  }

  lemma ShortNames()
    ensures ValidNames(Resource("k", "r"), "a") && ValidNames(Resource("k", "r"), "b")
  {
  }

  /** A renewal for a shorter time lets another owner in before the first deadline. */
  lemma ShorterRenewalBreaksTheDeadline() returns (steps: seq<Step>)
    ensures |steps| == 4 && steps[0] == Acquire(Resource("k", "r"), "a", 300_000, "")
            && steps[1] == Acquire(Resource("k", "r"), "a", 1_000, "") && steps[2].Tick? && steps[3].Acquire?
    ensures !Exclusive(Run(steps))
  {
    var r := Resource("k", "r");
    ShortNames();
    var s0, s1 := Acquire(r, "a", 300_000, ""), Acquire(r, "a", 1_000, "");
    hide BoundedText;
    FirstRenewalExposes(r, s0, s1);
    RunSnoc([], s0);
    RunSnoc([] + [s0], s1);
    assert Run([]) == Start();
    hide Run, RunFrom, Next, Exposed, Exclusive, Uncut;
    var two := [] + [s0] + [s1];
    var more := ExposedLetsAnotherIn(Run(two), r, 1_000, 0);
    RunAppend(two, more);
    steps := two + more;
  }

  lemma FirstRenewalExposes(r: Resource, s0: Step, s1: Step)
    requires ValidNames(r, "a")
    requires s0 == Acquire(r, "a", 300_000, "") && s1 == Acquire(r, "a", 1_000, "")
    ensures Exposed(Next(Next(Start(), s0), s1), r, 1_000, 0)
  {
    hide BoundedText;
    assert Next(Start(), s0).rows == map[r := LeaseRow("a", 1, 300_000, "")];
  }

  lemma {:induction false} RunAppend(steps: seq<Step>, more: seq<Step>)
    ensures Run(steps + more) == RunFrom(Run(steps), more)
  {
    hide Next;
    if more == [] {
      assert steps + more == steps;
    } else {
      var n := |more| - 1;
      RunAppend(steps, more[..n]);
      assert (steps + more)[..|steps + more| - 1] == steps + more[..n];
    }
  }

  /** Deleting the row forgets its generation: after a release two owners get the same token. */
  lemma GenerationsRestartAfterRelease() returns (steps: seq<Step>)
    ensures var grants := Run(steps).grants;
            |grants| == 2 && grants[0].resource == grants[1].resource
            && grants[0].owner != grants[1].owner && grants[0].generation == grants[1].generation
  {
    var r := Resource("k", "r");
    ShortNames();
    assert Run([]) == Start();
    hide BoundedText, Run;
    var s0, s1 := Acquire(r, "a", 1_000, ""), Release(Lease(r, "a", 1, ""));
    RunSnoc([], s0);
    RunSnoc([] + [s0], s1);
    steps := [] + [s0] + [s1] + [Acquire(r, "b", 1_000, "")];
    RunSnoc([] + [s0] + [s1], Acquire(r, "b", 1_000, ""));
  }
}
