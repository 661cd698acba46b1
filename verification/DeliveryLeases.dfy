/**
 What a claim of an outbox row is worth: until its lease runs out nobody else gets the row, and its owner
 can deliver it or put it off, whatever everybody else does.
 */
module DeliveryLeases {
  import opened Prelude
  import opened Outbox
  import opened Delivery

  /** The step acknowledges or puts off this row for this dispatcher. */
  predicate Settles<P>(step: Step<P>, owner: OwnerId, id: RowId) {
    (step.Acknowledge? || step.Retry?) && step.owner == owner && step.id == id
  }

  predicate Claims<P>(step: Step<P>, id: RowId) { step.Claim? && id in step.chosen }

  ghost predicate NeverSettled<P>(steps: seq<Step<P>>, owner: OwnerId, id: RowId) {
    forall i :: 0 <= i < |steps| ==> !Settles(steps[i], owner, id)
  }

  ghost predicate NeverClaimed<P>(steps: seq<Step<P>>, id: RowId) {
    forall i :: 0 <= i < |steps| ==> !Claims(steps[i], id)
  }

  /** The row as its claimer left it. */
  ghost predicate LeasedTo<P>(w: World<P>, id: RowId, owner: OwnerId, until: nat) {
    id in w.rows && id < w.nextId
    && w.rows[id].leaseOwner == Some(owner) && w.rows[id].leaseUntil == Some(until)
    && w.rows[id].deliveredAt.None? && w.rows[id].availableAt <= w.now
  }

  lemma ClaimLeases<P>(w: World<P>, owner: OwnerId, chosen: set<RowId>, leaseMillis: nat, id: RowId)
    requires MayClaim(w, chosen, leaseMillis) && id in chosen && id < w.nextId
    ensures LeasedTo(Next(w, Claim(owner, chosen, leaseMillis)), id, owner, w.now + leaseMillis)
  {
  }

  /** Rows are numbered below the next identifier. */
  lemma RowsAreNumbered<P>(steps: seq<Step<P>>, id: RowId)
    requires id in Run(Start<P>(), steps).rows
    ensures id < Run(Start<P>(), steps).nextId
  {
    StartOk<P>();
    RunOk(Start<P>(), steps);
    hide Run;
  }

  lemma LeaseStays<P>(w: World<P>, step: Step<P>, id: RowId, owner: OwnerId, until: nat)
    requires LeasedTo(w, id, owner, until) && !Settles(step, owner, id)
    requires w.now < until || !Claims(step, id)
    ensures LeasedTo(Next(w, step), id, owner, until) && w.now <= Next(w, step).now
  {
  }

  lemma {:induction false} LeaseLasts<P>(w: World<P>, more: seq<Step<P>>, id: RowId, owner: OwnerId, until: nat)
    requires LeasedTo(w, id, owner, until) && NeverSettled(more, owner, id)
    requires Run(w, more).now < until || NeverClaimed(more, id)
    ensures LeasedTo(Run(w, more), id, owner, until)
  {
    hide LeasedTo, Next, Settles, Claims;
    if more != [] {
      var n := |more| - 1;
      var init := more[..n];
      StepKeepsTime(Run(w, init), more[n]);
      LeaseLasts(w, init, id, owner, until);
      LeaseStays(Run(w, init), more[n], id, owner, until);
    }
  }

  lemma StepKeepsTime<P>(w: World<P>, step: Step<P>)
    ensures w.now <= Next(w, step).now
  {
    hide MayClaim, MayPrune, ClaimRows, AcknowledgeRow, RetryRow;
  }

  /** Whether a row may be handed out, in terms of its lease. */
  lemma ClaimableExactlyWhenExpired<P>(w: World<P>, id: RowId, owner: OwnerId, until: nat)
    requires LeasedTo(w, id, owner, until)
    ensures Claimable(w.rows[id], w.now) <==> until <= w.now
  {
  }

  /**
   Over every run: after a claim, and until its owner acknowledges or retries the row, nobody can claim
   the row before the lease runs out.
   */
  lemma {:induction false} ClaimExcludesEverybody<P>(
    steps: seq<Step<P>>, owner: OwnerId, chosen: set<RowId>, leaseMillis: nat, id: RowId, more: seq<Step<P>>,
    other: OwnerId, batch: set<RowId>, otherMillis: nat)
    requires var w := Run(Start<P>(), steps); MayClaim(w, chosen, leaseMillis) && id in chosen
    requires NeverSettled(more, owner, id) && id in batch
    ensures var w := Run(Start<P>(), steps);
            var w' := Run(Next(w, Claim(owner, chosen, leaseMillis)), more);
            w'.now < w.now + leaseMillis ==>
              && LeasedTo(w', id, owner, w.now + leaseMillis) && !Claimable(w'.rows[id], w'.now)
              && Next(w', Claim(other, batch, otherMillis)) == w'
  {
    var w := Run(Start<P>(), steps);
    var claimed := Next(w, Claim(owner, chosen, leaseMillis));
    RowsAreNumbered(steps, id);
    ClaimLeases(w, owner, chosen, leaseMillis, id);
    var w' := Run(claimed, more);
    hide Run, LeasedTo;
    if w'.now < w.now + leaseMillis {
      LeaseLasts(claimed, more, id, owner, w.now + leaseMillis);
      ClaimableExactlyWhenExpired(w', id, owner, w.now + leaseMillis);
    }
  }

  /**
   As long as nobody claimed the row again, its owner can still deliver it or put it off, also after the
   lease ran out, and the row is free for others exactly from the moment it did.
   */
  lemma {:induction false} ClaimerKeepsItsRow<P>(
    steps: seq<Step<P>>, owner: OwnerId, chosen: set<RowId>, leaseMillis: nat, id: RowId, more: seq<Step<P>>,
    availableAt: nat, error: string)
    requires var w := Run(Start<P>(), steps); MayClaim(w, chosen, leaseMillis) && id in chosen
    requires NeverSettled(more, owner, id) && NeverClaimed(more, id)
    ensures var w := Run(Start<P>(), steps);
            var w' := Run(Next(w, Claim(owner, chosen, leaseMillis)), more);
            var (acknowledged, delivered) := AcknowledgeRow(w'.rows, owner, id, w'.now);
            var (retried, postponed) := RetryRow(w'.rows, owner, id, availableAt, error);
            && id in w'.rows && (Claimable(w'.rows[id], w'.now) <==> w.now + leaseMillis <= w'.now)
            && delivered && postponed && id in acknowledged && id in retried
            && acknowledged[id].deliveredAt == Some(w'.now)
            && retried[id].deliveredAt.None? && retried[id].leaseUntil.None?
            && retried[id].availableAt == availableAt && retried[id].lastError == Some(error)
            && acknowledged[id].payload == retried[id].payload == w'.rows[id].payload
            && (forall k :: k in w'.rows && k != id ==>
                  k in acknowledged && k in retried && acknowledged[k] == retried[k] == w'.rows[k])
  {
    var w := Run(Start<P>(), steps);
    var claimed := Next(w, Claim(owner, chosen, leaseMillis));
    RowsAreNumbered(steps, id);
    ClaimLeases(w, owner, chosen, leaseMillis, id);
    hide Run;
    LeaseLasts(claimed, more, id, owner, w.now + leaseMillis);
    ClaimableExactlyWhenExpired(Run(claimed, more), id, owner, w.now + leaseMillis);
    hide Next, Claimable, MayClaim;
  }

  /** A row is free to be claimed from the moment it is enqueued. */
  lemma NewRowsAreClaimable<P>(w: World<P>, payload: P)
    ensures var w' := Next(w, Enqueue(payload));
            w.nextId in w'.rows && w'.rows[w.nextId].payload == payload
            && Claimable(w'.rows[w.nextId], w'.now)
  {
  }

  // ----- Putting off -----

  /** Nobody holds the row, and it is due at `due`. */
  ghost predicate Waiting<P>(w: World<P>, id: RowId, due: nat) {
    id in w.rows && id < w.nextId && w.rows[id].leaseOwner.None? && w.rows[id].leaseUntil.None?
    && w.rows[id].deliveredAt.None? && w.rows[id].availableAt == due
  }

  lemma WaitingStays<P>(w: World<P>, step: Step<P>, id: RowId, due: nat)
    requires Waiting(w, id, due) && (w.now < due || !Claims(step, id))
    ensures Waiting(Next(w, step), id, due)
  {
  }

  lemma {:induction false} WaitingLasts<P>(w: World<P>, more: seq<Step<P>>, id: RowId, due: nat)
    requires Waiting(w, id, due) && (Run(w, more).now < due || NeverClaimed(more, id))
    ensures Waiting(Run(w, more), id, due)
  {
    hide Waiting, Next, Claims;
    if more != [] {
      var n := |more| - 1;
      StepKeepsTime(Run(w, more[..n]), more[n]);
      WaitingLasts(w, more[..n], id, due);
      WaitingStays(Run(w, more[..n]), more[n], id, due);
    }
  }

  /** A retry keeps everybody from the row until its delay is over, and not longer. */
  lemma {:induction false} RetryPutsOff<P>(
    steps: seq<Step<P>>, owner: OwnerId, id: RowId, delayMillis: nat, error: string, more: seq<Step<P>>)
    requires var w := Run(Start<P>(), steps);
             At(w, owner, id, Failing) && delayMillis <= MAX_RETRY_DELAY_MILLIS
             && id in w.rows && w.rows[id].leaseOwner == Some(owner) && w.rows[id].deliveredAt.None?
    ensures var w := Run(Start<P>(), steps);
            var w' := Run(Next(w, Retry(owner, id, delayMillis, error)), more);
            && (w'.now < w.now + delayMillis ==> id in w'.rows && !Claimable(w'.rows[id], w'.now))
            && (NeverClaimed(more, id) && w.now + delayMillis <= w'.now ==>
                  id in w'.rows && Claimable(w'.rows[id], w'.now))
  {
    var w := Run(Start<P>(), steps);
    var retried := Next(w, Retry(owner, id, delayMillis, error));
    RowsAreNumbered(steps, id);
    assert Waiting(retried, id, w.now + delayMillis);
    hide Run;
    if Run(retried, more).now < w.now + delayMillis || NeverClaimed(more, id) {
      WaitingLasts(retried, more, id, w.now + delayMillis);
    }
    hide Next;
  }

  // ----- Attempts -----

  /** How often the row was handed out. */
  ghost function ClaimCount<P>(steps: seq<Step<P>>, id: RowId): nat {
    if steps == [] then 0
    else
      var init, last := steps[..|steps| - 1], steps[|steps| - 1];
      ClaimCount(init, id)
      + (if Claims(last, id) && MayClaim(Run(Start<P>(), init), last.chosen, last.leaseMillis) then 1 else 0)
  }

  lemma AttemptsAfter<P>(w: World<P>, step: Step<P>, id: RowId)
    requires Accounted(w)
    ensures id in Next(w, step).rows ==>
              Next(w, step).rows[id].attempts
              == (if id in w.rows then w.rows[id].attempts else 0)
                 + (if Claims(step, id) && MayClaim(w, step.chosen, step.leaseMillis) then 1 else 0)
    ensures id !in w.history && Claims(step, id) ==> !MayClaim(w, step.chosen, step.leaseMillis)
    ensures id in w.history ==> id in Next(w, step).history
    ensures id in Next(w, step).rows && id !in w.rows ==> id !in w.history
  {
  }

  /** A row's attempts count its claims, over every run. */
  lemma {:induction false} AttemptsCountClaims<P>(steps: seq<Step<P>>, id: RowId)
    ensures var w := Run(Start<P>(), steps);
            && (id in w.rows ==> w.rows[id].attempts == ClaimCount(steps, id))
            && (id !in w.history ==> ClaimCount(steps, id) == 0)
  {
    if steps != [] {
      var init := steps[..|steps| - 1];
      AttemptsCountClaims(init, id);
      StartOk<P>();
      RunOk(Start<P>(), init);
      AttemptsAfter(Run(Start<P>(), init), steps[|steps| - 1], id);
      hide Next, RowsAccounted, PublishedFirst, LeasesTracked, ComesBack, MayClaim;
    }
  }
}
