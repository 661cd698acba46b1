/**
 Compact snapshots: the second way a room comes back. Taking a snapshot and restoring it is the
 identity on exactly the rooms that satisfy the checked invariants, and whatever is accepted
 satisfies them.
 */
module RoomSnapshots {
  import opened Prelude
  import opened RoomDomain
  import opened RoomHistory

  datatype RoomSnapshot = RoomSnapshot(
    schemaVersion: u8, id: RoomId, mode: RoomMode, policy: RoomPolicy,
    members: seq<(UserId, MemberRole)>, publishers: seq<UserId>,
    ended: bool, sequence: u64, commandOrder: seq<CommandId>, giftOrder: seq<string>)

  predicate IsLeast(m: UserId, s: set<UserId>) {
    m in s && forall x :: x in s ==> m <= x
  }

  lemma {:induction false} LeastExists(s: set<UserId>) returns (m: UserId)
    requires s != {}
    ensures IsLeast(m, s)
  {
    var first :| first in s;
    var rest := s - {first};
    assert forall x :: x in s ==> x == first || x in rest;
    m := first;
    if rest != {} {
      var other := LeastExists(rest);
      if other < first { m := other; }
    }
  }

  lemma LeastIsUnique(s: set<UserId>)
    requires s != {}
    ensures exists m :: IsLeast(m, s)
    ensures forall m, n :: IsLeast(m, s) && IsLeast(n, s) ==> m == n
  {
    var m := LeastExists(s);
  }

  /** The identifiers of a set in increasing order. */
  function SortedIds(s: set<UserId>): (r: seq<UserId>)
    ensures Elements(r) == s && |r| == |s|
    ensures forall i, j :: 0 <= i < j < |r| ==> r[i] < r[j]
  {
    if s == {} then []
    else
      LeastIsUnique(s);
      var m :| m in s && IsLeast(m, s);
      var rest := SortedIds(s - {m});
      LeastFirst(s, m, rest);
      [m] + rest
  }

  lemma LeastFirst(s: set<UserId>, m: UserId, rest: seq<UserId>)
    requires IsLeast(m, s) && Elements(rest) == s - {m}
    requires forall i, j :: 0 <= i < j < |rest| ==> rest[i] < rest[j]
    ensures Elements([m] + rest) == s
    ensures forall i, j :: 0 <= i < j < |[m] + rest| ==> ([m] + rest)[i] < ([m] + rest)[j]
  {
    forall i | 0 <= i < |rest| ensures m < rest[i] {
      assert rest[i] in Elements(rest);
    }
    assert Elements([m] + rest) == {m} + Elements(rest);
  }

  function MemberPairs(ids: seq<UserId>, members: map<UserId, MemberRole>)
    : (r: seq<(UserId, MemberRole)>)
    requires forall u :: u in ids ==> u in members
  {
    seq(|ids|, i requires 0 <= i < |ids| => (ids[i], members[ids[i]]))
  }

  function Snapshot(s: RoomState): RoomSnapshot {
    var ids := SortedIds(s.members.Keys);
    assert forall u :: u in ids ==> u in Elements(ids);
    RoomSnapshot(1, s.id, s.mode, s.policy, MemberPairs(ids, s.members), SortedIds(s.publishers),
                 s.ended, s.sequence, s.commandOrder, s.giftOrder)
  }

  /** Later entries win, as when pairs are collected into a hash map. */
  function CollectMembers(pairs: seq<(UserId, MemberRole)>): map<UserId, MemberRole> {
    if pairs == [] then map[]
    else
      var last := pairs[|pairs| - 1];
      CollectMembers(pairs[..|pairs| - 1])[last.0 := last.1]
  }

  predicate PolicyAccepted(policy: RoomPolicy) {
    2 <= policy.maxMembers <= 100_000
    && 1 <= policy.maxPublishers <= 1024
    && 1 <= policy.maxChatBytes <= MAX_CHAT_BYTES
    && 1 <= policy.maxCustomDataBytes <= MAX_CUSTOM_DATA_BYTES
  }

  predicate HistoriesAccepted(p: RoomSnapshot) {
    p.commandOrder != [] && |p.commandOrder| <= COMMAND_HISTORY_LIMIT
    && |Elements(p.commandOrder)| == |p.commandOrder|
    && |p.giftOrder| <= GIFT_TRANSACTION_HISTORY_LIMIT
    && |Elements(p.giftOrder)| == |p.giftOrder|
    && forall t | t in p.giftOrder :: BoundedText(t, MAX_GIFT_TRANSACTION_ID_BYTES)
  }

  function Hosts(members: map<UserId, MemberRole>): set<UserId> {
    set u | u in members && members[u] == Host
  }

  predicate MembershipAccepted(p: RoomSnapshot) {
    var members := CollectMembers(p.members);
    |members| != 0 && |members| == |p.members| && |members| <= p.policy.maxMembers
    && |Hosts(members)| == 1
  }

  predicate PublishersAccepted(p: RoomSnapshot) {
    var members, publishers := CollectMembers(p.members), Elements(p.publishers);
    |publishers| == |p.publishers| && |publishers| <= p.policy.maxPublishers
    && (forall u | u in publishers :: u in members && members[u].CanPublish())
    && (!p.ended || publishers == {})
  }

  function RestoreSnapshot(p: RoomSnapshot): Result<RoomState, RoomError> {
    if p.schemaVersion != 1 || p.sequence == 0 || !PolicyAccepted(p.policy)
       || !HistoriesAccepted(p) || !MembershipAccepted(p) || !PublishersAccepted(p)
    then Err(InvalidSnapshot)
    else Ok(RoomState(p.id, p.mode, p.policy, CollectMembers(p.members), Elements(p.publishers),
                      p.ended, p.sequence, p.commandOrder, p.giftOrder))
  }

  /** The rooms a snapshot can bring back. */
  ghost predicate Restorable(s: RoomState) {
    PolicyAccepted(s.policy) && s.sequence != 0 && exists host :: Sound(s, host)
  }

  lemma {:induction false} CollectMemberPairs(ids: seq<UserId>, members: map<UserId, MemberRole>)
    requires forall u :: u in ids ==> u in members
    ensures var m := CollectMembers(MemberPairs(ids, members));
            m.Keys == Elements(ids) && forall u :: u in m ==> m[u] == members[u]
  {
    if ids != [] {
      var n := |ids| - 1;
      CollectMemberPairs(ids[..n], members);
      assert MemberPairs(ids, members)[..n] == MemberPairs(ids[..n], members);
      assert ids == ids[..n] + [ids[n]];
    }
  }

  lemma SnapshotCollects(s: RoomState)
    ensures CollectMembers(Snapshot(s).members) == s.members
    ensures |Snapshot(s).members| == |s.members|
    ensures Elements(Snapshot(s).publishers) == s.publishers
  {
    var ids := SortedIds(s.members.Keys);
    assert forall u :: u in ids ==> u in Elements(ids);
    CollectMemberPairs(ids, s.members);
  }

  lemma SoleHost(s: RoomState, host: UserId)
    requires MembershipSound(s, host)
    ensures Hosts(s.members) == {host}
  {
    forall u ensures u in Hosts(s.members) <==> u == host {
      assert u in s.members && s.members[u] == Host <==> u == host;
    }
  }

  /** Restoring a snapshot of a sound room gives the same room, field by field. */
  lemma {:induction false} SnapshotRoundTrip(s: RoomState)
    requires Restorable(s)
    ensures RestoreSnapshot(Snapshot(s)) == Ok(s)
  {
    hide BoundedText, SortedIds;
    var host :| Sound(s, host);
    SnapshotCollects(s);
    var p := Snapshot(s);
    assert MembershipAccepted(p) by { SoleHost(s, host); }
    assert PublishersAccepted(p);
    assert HistoriesAccepted(p) by {
      ElementsCardinality(s.commandOrder);
      ElementsCardinality(s.giftOrder);
    }
  }

  /** Every accepted snapshot satisfies the membership, host, role, capacity and history invariants. */
  lemma AcceptedSnapshotIsSound(p: RoomSnapshot)
    requires RestoreSnapshot(p).Ok?
    ensures Restorable(RestoreSnapshot(p).value)
  {
    var s := RestoreSnapshot(p).value;
    ElementsCardinality(p.commandOrder);
    ElementsCardinality(p.giftOrder);
    var hosts := Hosts(s.members);
    assert hosts != {};
    var host :| host in hosts;
    forall u | u in s.members && s.members[u] == Host ensures u == host {
      SingletonMembers(hosts, u, host);
    }
    assert Sound(s, host);
  }

  /** The round trip succeeds exactly on restorable rooms. */
  lemma {:induction false} RoundTripExactlyOnRestorableRooms(s: RoomState)
    ensures RestoreSnapshot(Snapshot(s)) == Ok(s) <==> Restorable(s)
  {
    if Restorable(s) { SnapshotRoundTrip(s); }
    if RestoreSnapshot(Snapshot(s)) == Ok(s) { AcceptedSnapshotIsSound(Snapshot(s)); }
  }

  /** Every room that really occurs, under an accepted policy, survives the round trip. */
  lemma ReachableRoomsSurviveSnapshots(
    id: RoomId, mode: RoomMode, policy: RoomPolicy, log: seq<RoomEvent>, k: nat)
    requires LegalLog(id, mode, policy, log) && 1 <= k <= |log| && PolicyAccepted(policy)
    ensures var s := StateAt(id, mode, policy, log, k); RestoreSnapshot(Snapshot(s)) == Ok(s)
  {
    EveryRoomIsSound(id, mode, policy, log, k);
    SnapshotRoundTrip(StateAt(id, mode, policy, log, k));
  }

  /** A run continued from any accepted snapshot stays sound, under the same host. */
  lemma {:induction false} ContinuedRunsStaySound(
    s: RoomState, host: UserId, attempts: seq<Attempt>)
    requires Sound(s, host)
    ensures Sound(RunCommands(s, attempts).0, host)
    ensures RoomInvariant(s, host) ==> RoomInvariant(RunCommands(s, attempts).0, host)
  {
    if attempts != [] {
      var shorter, a := attempts[..|attempts| - 1], attempts[|attempts| - 1];
      ContinuedRunsStaySound(s, host, shorter);
      var before := RunCommands(s, shorter).0;
      ExecuteAppliesOneLegalEvent(before, a);
      var outcome := ExecuteCommand(before, a.commandId, a.timestampMillis, a.command).1;
      if outcome.Ok? && outcome.value.Applied? {
        var command :| Decide(before, command) == Ok(outcome.value.event.kind);
        DecisionSound(before, command, outcome.value.event, host);
      }
    }
  }

  /**
   The VOD rule is the one invariant a snapshot is not checked for: an accepted snapshot satisfies
   the full room invariant exactly when it does not list publishers for a VOD room.
   */
  lemma AcceptedSnapshotBreaksOnlyTheVodRule(p: RoomSnapshot, host: UserId)
    requires RestoreSnapshot(p).Ok? && Sound(RestoreSnapshot(p).value, host)
    ensures RoomInvariant(RestoreSnapshot(p).value, host) <==> (p.mode != Vod || p.publishers == [])
  {
    assert p.publishers != [] ==> p.publishers[0] in Elements(p.publishers);
  }

  /** A concrete accepted snapshot of a VOD room whose host is publishing. */
  lemma VodPublisherIsAccepted() returns (p: RoomSnapshot)
    ensures p.mode == Vod && p.publishers == [7] && RestoreSnapshot(p).Ok?
  {
    p := RoomSnapshot(1, 1, Vod, RoomPolicy(10, 2, 100, 100), [(7, Host)], [7], false, 1, [9], []);
    var empty: seq<(UserId, MemberRole)> := [];
    assert p.members[..0] == empty;
    assert CollectMembers(p.members) == map[7 := Host];
    assert Hosts(map[7 := Host]) == {7};
    assert Elements(p.publishers) == {7} && Elements(p.commandOrder) == {9};
    var none: seq<string> := [];
    assert p.giftOrder == none && Elements(none) == {};
  }

  /** Restoring into the mutable aggregate: the sets are rebuilt from the queues. */
  method RestoreRoom(p: RoomSnapshot) returns (r: Result<Room, RoomError>)
    ensures r.Ok? <==> RestoreSnapshot(p).Ok?
    ensures r.Ok? ==> fresh(r.value) && r.value.Valid() && Ok(r.value.State()) == RestoreSnapshot(p)
    ensures r.Err? ==> r.error == InvalidSnapshot
  {
    hide BoundedText;
    var restored := RestoreSnapshot(p);
    if restored.Err? { return Err(InvalidSnapshot); }
    ElementsCardinality(p.commandOrder);
    ElementsCardinality(p.giftOrder);
    var room := new Room.FromState(restored.value);
    r := Ok(room);
  }
}
