/** Who is given a lease and who may release it, told from the grants made before. */
module LeaseAnswers {
  import opened Prelude
  import opened Leases

  /** The grant a row was written by. */
  ghost predicate WrittenBy(w: World, r: Resource, i: nat) {
    && r in w.rows && i < |w.grants| && w.grants[i].resource == r
    && w.grants[i].owner == w.rows[r].owner && w.grants[i].generation == w.rows[r].generation
    && w.grants[i].end == w.rows[r].leaseUntil && w.grants[i].lifetime == Lifetime(w, r)
  }

  ghost predicate RowsGranted(w: World) {
    forall r :: r in w.rows ==> w.rows[r].generation <= I64_MAX && exists i :: WrittenBy(w, r, i)
  }

  lemma NextGranted(w: World, step: Step)
    requires RowsGranted(w)
    ensures RowsGranted(Next(w, step))
  {
    hide BoundedText;
    if Succeeds(w, step) {
      var w' := Next(w, step);
      forall r | r in w'.rows ensures w'.rows[r].generation <= I64_MAX && exists i :: WrittenBy(w', r, i) {
        if step.Acquire? && r == step.resource {
          assert WrittenBy(w', r, |w.grants|);
        } else {
          var i :| WrittenBy(w, r, i);
          assert WrittenBy(w', r, i);
        }
      }
    }
  }

  lemma {:induction false} RunGranted(steps: seq<Step>)
    ensures RowsGranted(Run(steps))
  {
    if steps != [] {
      RunGranted(steps[..|steps| - 1]);
      hide RowsGranted, Next;
      NextGranted(Run(steps[..|steps| - 1]), steps[|steps| - 1]);
    }
  }

  /** Every holding of the resource by somebody else is over. */
  ghost predicate FreeFor(w: World, resource: Resource, owner: OwnerId) {
    forall i :: 0 <= i < |w.grants| && w.grants[i].resource == resource && w.grants[i].owner != owner ==>
      w.grants[i].end <= w.now
  }

  /** A lease is granted exactly when nobody else holds one, as long as a takeover can be numbered. */
  lemma GrantedExactlyWhenFree(steps: seq<Step>, resource: Resource, owner: OwnerId, ttlMillis: nat,
                               metadata: string)
    ensures var w := Run(steps);
            Succeeds(w, Acquire(resource, owner, ttlMillis, metadata)) <==>
              && ValidNames(resource, owner) && 1_000 <= ttlMillis <= 300_000
              && FreeFor(w, resource, owner)
              && (resource in w.rows && w.rows[resource].owner != owner ==>
                    w.rows[resource].generation < I64_MAX)
  {
    RunOk(steps);
    RunGranted(steps);
    var w := Run(steps);
    hide Run, Ordered, ValidNames;
    if resource in w.rows {
      var i :| WrittenBy(w, resource, i);
    }
  }

  /** Until it runs out a granted lease keeps every other owner out, and not a millisecond longer. */
  lemma OthersWaitForExactlyTheLease(w: World, resource: Resource, owner: OwnerId, ttlMillis: nat,
                                     metadata: string, other: OwnerId, otherTtl: nat, millis: nat)
    requires Succeeds(w, Acquire(resource, owner, ttlMillis, metadata))
    requires ValidNames(resource, other) && ValidTtl(otherTtl)
    requires GrantedGeneration(w.rows, resource, owner) < I64_MAX
    ensures var later := Next(Next(w, Acquire(resource, owner, ttlMillis, metadata)), Tick(millis));
            Succeeds(later, Acquire(resource, other, otherTtl, metadata))
            <==> other == owner || ttlMillis <= millis
  {
    hide BoundedText, EndBy;
  }

  /** The newest grant of the row's lifetime, as its owner was told. */
  ghost predicate NewestGrant(w: World, lease: Lease, i: nat) {
    && i < |w.grants| && w.grants[i].resource == lease.resource && w.grants[i].owner == lease.owner
    && w.grants[i].generation == lease.generation && w.grants[i].lifetime == Lifetime(w, lease.resource)
    && forall j :: i < j < |w.grants| && w.grants[j].resource == lease.resource
                   && w.grants[j].lifetime == w.grants[i].lifetime ==>
         w.grants[j].generation == lease.generation
  }

  /** A lease is released exactly by the owner and generation it was last granted to. */
  lemma ReleasedExactlyByItsHolder(steps: seq<Step>, lease: Lease)
    ensures Succeeds(Run(steps), Release(lease))
            <==> ValidNames(lease.resource, lease.owner) && exists i :: NewestGrant(Run(steps), lease, i)
  {
    RunOk(steps);
    RunGranted(steps);
    var w := Run(steps);
    hide Run, ValidNames;
    if HeldBy(w.rows, lease) {
      HolderIsNewest(w, lease);
    }
    if i: nat :| NewestGrant(w, lease, i) {
      NewestHolds(w, lease, i);
    }
  }

  lemma HolderIsNewest(w: World, lease: Lease)
    requires WorldOk(w) && RowsGranted(w) && HeldBy(w.rows, lease)
    ensures exists i :: NewestGrant(w, lease, i)
  {
    var i: nat :| WrittenBy(w, lease.resource, i);
    forall j | i < j < |w.grants| && w.grants[j].resource == lease.resource
               && w.grants[j].lifetime == w.grants[i].lifetime
      ensures w.grants[j].generation == lease.generation
    {
      assert Ordered(w.grants[i], w.grants[j]) && Settled(w, w.grants[j]);
    }
    assert NewestGrant(w, lease, i);
  }

  lemma NewestHolds(w: World, lease: Lease, i: nat)
    requires WorldOk(w) && RowsGranted(w) && NewestGrant(w, lease, i)
    ensures HeldBy(w.rows, lease)
  {
    assert Settled(w, w.grants[i]);
    var j: nat :| WrittenBy(w, lease.resource, j);
    if j < i { assert Ordered(w.grants[j], w.grants[i]); }
  }

  /** Once released, a resource can be acquired at once by anybody, as if it had never been leased. */
  lemma ReleaseFreesTheResource(w: World, lease: Lease, owner: OwnerId, ttlMillis: nat, metadata: string)
    requires Succeeds(w, Release(lease)) && ValidNames(lease.resource, owner) && ValidTtl(ttlMillis)
    ensures var released := Next(w, Release(lease));
            && Succeeds(released, Acquire(lease.resource, owner, ttlMillis, metadata))
            && Next(released, Acquire(lease.resource, owner, ttlMillis, metadata)).rows
               == w.rows[lease.resource := LeaseRow(owner, 1, w.now + ttlMillis, metadata)]
  {
    hide BoundedText, EndBy;
  }
}
