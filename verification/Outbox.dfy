/**
 The transactional outbox and its dispatchers. Rows are leased, published to the event bus, then
 acknowledged; leases expire, dispatchers crash and come back under the same name, publishing may
 succeed without the dispatcher learning of it, and delivered rows are pruned after a retention time.
 */
module Outbox {
  import opened Prelude

  type OwnerId = string
  type RowId = nat

  const MIN_LEASE_MILLIS: nat := 1_000
  const MAX_LEASE_MILLIS: nat := 300_000
  const MAX_RETRY_DELAY_MILLIS: nat := 3_600_000
  const MIN_RETENTION_MILLIS: nat := 3_600_000
  const MAX_RETENTION_MILLIS: nat := 31_536_000_000
  const MAX_CLAIM_BATCH: nat := 1_000
  const MAX_PRUNE_BATCH: nat := 10_000

  datatype Row<P> = Row(
    payload: P, availableAt: nat, leaseOwner: Option<OwnerId>, leaseUntil: Option<nat>,
    deliveredAt: Option<nat>, attempts: nat, lastError: Option<string>)

  datatype OutboxError =
    | InvalidText
    | InvalidBatchSize
    | InvalidLeaseTtl
    | InvalidRetention
    | InvalidRowId
    | InvalidRetryDelay

  type Rows<P> = map<RowId, Row<P>>

  predicate Claimable<P>(row: Row<P>, now: nat) {
    row.deliveredAt.None? && row.availableAt <= now
    && (row.leaseUntil.None? || row.leaseUntil.value <= now)
  }

  predicate Expired<P>(row: Row<P>, now: nat, retention: nat) {
    row.deliveredAt.Some? && row.deliveredAt.value + retention < now
  }

  function Leased<P>(row: Row<P>, owner: OwnerId, until: nat): Row<P> {
    row.(leaseOwner := Some(owner), leaseUntil := Some(until), attempts := row.attempts + 1)
  }

  function ClaimRows<P>(rows: Rows<P>, chosen: set<RowId>, owner: OwnerId, until: nat): Rows<P> {
    map id | id in rows :: if id in chosen then Leased(rows[id], owner, until) else rows[id]
  }

  /** Both acknowledging and retrying require being the recorded lease owner of an undelivered row. */
  predicate Holds<P>(rows: Rows<P>, owner: OwnerId, id: RowId) {
    id in rows && rows[id].leaseOwner == Some(owner) && rows[id].deliveredAt.None?
  }

  function AcknowledgeRow<P>(rows: Rows<P>, owner: OwnerId, id: RowId, now: nat): (Rows<P>, bool) {
    if Holds(rows, owner, id)
    then (rows[id := rows[id].(deliveredAt := Some(now), leaseOwner := None, leaseUntil := None,
                               lastError := None)], true)
    else (rows, false)
  }

  function RetryRow<P>(rows: Rows<P>, owner: OwnerId, id: RowId, availableAt: nat, error: string)
    : (Rows<P>, bool)
  {
    if Holds(rows, owner, id)
    then (rows[id := rows[id].(availableAt := availableAt, leaseOwner := None, leaseUntil := None,
                               lastError := Some(error))], true)
    else (rows, false)
  }

  // ----- The table -----

  class OutboxTable<P> {
    var rows: Rows<P>
    var nextId: RowId

    ghost predicate Valid()
      reads this
    {
      nextId > 0 && forall id :: id in rows ==> 0 < id < nextId
    }

    constructor ()
      ensures Valid() && rows == map[] && nextId == 1
    {
      rows, nextId := map[], 1;
    }

    method Insert(payload: P, now: nat) returns (id: RowId)
      requires Valid()
      modifies this
      ensures Valid() && id == old(nextId) && nextId == id + 1 && id !in old(rows)
      ensures rows == old(rows)[id := Row(payload, now, None, None, None, 0, None)]
    {
      id := nextId;
      rows := rows[id := Row(payload, now, None, None, None, 0, None)];
      nextId := nextId + 1;
    }

    /** Leases the lowest claimable identifiers, as many as asked for or as there are. */
    method Claim(owner: OwnerId, maximum: nat, leaseMillis: nat, now: nat)
      returns (r: Result<seq<RowId>, OutboxError>)
      requires Valid()
      modifies `rows
      ensures Valid()
      ensures r.Ok? <==> BoundedText(owner, 256) && 1 <= maximum <= MAX_CLAIM_BATCH
                         && MIN_LEASE_MILLIS <= leaseMillis <= MAX_LEASE_MILLIS
      ensures r.Err? ==> rows == old(rows)
      ensures r.Ok? ==>
        && rows == ClaimRows(old(rows), Elements(r.value), owner, now + leaseMillis)
        && (forall i, j :: 0 <= i < j < |r.value| ==> r.value[i] < r.value[j])
        && (forall i :: 0 <= i < |r.value| ==>
              r.value[i] in old(rows) && Claimable(old(rows)[r.value[i]], now))
        && |r.value| <= maximum
        && (forall id :: id in old(rows) && Claimable(old(rows)[id], now) && id !in r.value ==>
              |r.value| == maximum && forall i :: 0 <= i < |r.value| ==> r.value[i] < id)
    {
      if !BoundedText(owner, 256) { return Err(InvalidText); }
      if !(1 <= maximum <= MAX_CLAIM_BATCH) { return Err(InvalidBatchSize); }
      if !(MIN_LEASE_MILLIS <= leaseMillis <= MAX_LEASE_MILLIS) { return Err(InvalidLeaseTtl); }
      var selected: seq<RowId> := [];
      var id := 1;
      while id < nextId && |selected| < maximum
        invariant 1 <= id <= nextId && |selected| <= maximum
        invariant forall i, j :: 0 <= i < j < |selected| ==> selected[i] < selected[j]
        invariant forall i :: 0 <= i < |selected| ==>
          selected[i] < id && selected[i] in rows && Claimable(rows[selected[i]], now)
        invariant forall k :: k in rows && k < id && Claimable(rows[k], now) ==> k in selected
      {
        if id in rows && Claimable(rows[id], now) {
          selected := selected + [id];
        }
        id := id + 1;
      }
      rows := ClaimRows(rows, Elements(selected), owner, now + leaseMillis);
      r := Ok(selected);
    }

    method Acknowledge(owner: OwnerId, id: RowId, now: nat) returns (r: Result<bool, OutboxError>)
      requires Valid()
      modifies `rows
      ensures Valid()
      ensures r.Ok? <==> BoundedText(owner, 256) && id > 0
      ensures r.Err? ==> rows == old(rows)
      ensures r.Ok? ==> (rows, r.value) == AcknowledgeRow(old(rows), owner, id, now)
    {
      if !BoundedText(owner, 256) { return Err(InvalidText); }
      if id == 0 { return Err(InvalidRowId); }
      if id in rows && rows[id].leaseOwner == Some(owner) && rows[id].deliveredAt == None {
        rows := rows[id := rows[id].(deliveredAt := Some(now), leaseOwner := None,
                                     leaseUntil := None, lastError := None)];
        return Ok(true);
      }
      r := Ok(false);
    }

    method Retry(owner: OwnerId, id: RowId, delayMillis: nat, error: string, now: nat)
      returns (r: Result<bool, OutboxError>)
      requires Valid()
      modifies `rows
      ensures Valid()
      ensures r.Ok? <==> BoundedText(owner, 256) && BoundedText(error, 2_048) && id > 0
                         && delayMillis <= MAX_RETRY_DELAY_MILLIS
      ensures r.Err? ==> rows == old(rows)
      ensures r.Ok? ==> (rows, r.value) == RetryRow(old(rows), owner, id, now + delayMillis, error)
    {
      if !BoundedText(owner, 256) || !BoundedText(error, 2_048) { return Err(InvalidText); }
      if id == 0 { return Err(InvalidRowId); }
      if delayMillis > MAX_RETRY_DELAY_MILLIS { return Err(InvalidRetryDelay); }
      if id in rows && rows[id].leaseOwner == Some(owner) && rows[id].deliveredAt == None {
        rows := rows[id := rows[id].(availableAt := now + delayMillis, leaseOwner := None,
                                     leaseUntil := None, lastError := Some(error))];
        return Ok(true);
      }
      r := Ok(false);
    }

    /** Deletes delivered rows older than the retention time, lowest identifiers first. */
    method PruneDelivered(retentionMillis: nat, maximum: nat, now: nat)
      returns (r: Result<nat, OutboxError>)
      requires Valid()
      modifies `rows
      ensures Valid()
      ensures r.Ok? <==> MIN_RETENTION_MILLIS <= retentionMillis <= MAX_RETENTION_MILLIS
                         && 1 <= maximum <= MAX_PRUNE_BATCH
      ensures r.Err? ==> rows == old(rows)
      ensures r.Ok? ==> exists gone: set<RowId> ::
        && rows == old(rows) - gone && |gone| == r.value <= maximum
        && (forall id :: id in gone ==>
              id in old(rows) && old(rows)[id].deliveredAt.Some?
              && old(rows)[id].deliveredAt.value + retentionMillis < now)
        && (forall id :: id in rows && rows[id].deliveredAt.Some?
                         && rows[id].deliveredAt.value + retentionMillis < now ==>
              r.value == maximum && forall k :: k in gone ==> k < id)
    {
      if !(MIN_RETENTION_MILLIS <= retentionMillis <= MAX_RETENTION_MILLIS) {
        return Err(InvalidRetention);
      }
      if !(1 <= maximum <= MAX_PRUNE_BATCH) { return Err(InvalidBatchSize); }
      var gone: set<RowId> := {};
      var id := 1;
      while id < nextId && |gone| < maximum
        invariant 1 <= id <= nextId && |gone| <= maximum
        invariant forall k :: k in gone ==> k < id && k in rows && Expired(rows[k], now, retentionMillis)
        invariant forall k :: k in rows && k < id && Expired(rows[k], now, retentionMillis) ==> k in gone
      {
        if id in rows && Expired(rows[id], now, retentionMillis) {
          gone := gone + {id};
        }
        id := id + 1;
      }
      rows := rows - gone;
      r := Ok(|gone|);
    }
  }
}
