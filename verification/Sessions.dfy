/**
 The routing table of a media node: live sessions, the ICE username fragment that addresses each of
 them, and the remote addresses learnt from nominated pairs. Every public operation is one step here;
 `SessionRaces` takes them apart at lock granularity.
 */
module Sessions {
  import opened Prelude

  type SessionId = string
  type Fragment = string
  type Remote = nat

  const MAX_SESSIONS: nat := 100_000
  const MIN_PASSWORD_BYTES: nat := 22
  const MAX_CREDENTIAL_BYTES: nat := 256

  datatype Credentials = Credentials(fragment: Fragment, password: seq<u8>)

  /** The ICE generation of a session; its transport state stays abstract. */
  datatype Ice = Ice(local: Credentials, remote: Credentials, tieBreaker: u64)

  datatype Session = Session(room: string, participant: string, fingerprint: string, ice: Ice)

  datatype Registry = Registry(
    sessions: map<SessionId, Session>, fragments: map<Fragment, SessionId>,
    routes: map<Remote, SessionId>, activeSessions: int, capacity: nat)

  datatype RegistryError =
    | InvalidIdentifier
    | InvalidFingerprint
    | InvalidIceCredentials
    | DuplicateSession
    | DuplicateUsernameFragment
    | Capacity
    | UnknownRemote
    | UnknownSession
    | MalformedStun
    | MissingUsername
    | UnknownUsernameFragment
    | RemoteCollision
    | Transport

  /** A datagram as the router sees it; STUN carries a username unless it is malformed or omits it. */
  datatype Datagram = Stun(username: Result<Option<string>, ()>) | Media

  /** What the session made of a datagram: rejected, or accepted with this pair selected now. */
  datatype Verdict = Rejected | Accepted(selected: Option<Remote>)

  predicate ValidIdentifier(value: string) {
    value != [] && Utf8Length(value) <= 128
    && forall c | c in value :: IsAsciiAlphanumeric(c) || c == '-' || c == '_' || c == ':'
  }

  predicate ValidCredentials(c: Credentials) {
    c.fragment != [] && Utf8Length(c.fragment) <= MAX_CREDENTIAL_BYTES && ':' !in c.fragment
    && MIN_PASSWORD_BYTES <= |c.password| <= MAX_CREDENTIAL_BYTES
  }

  predicate ValidIce(ice: Ice) { ValidCredentials(ice.local) && ValidCredentials(ice.remote) }

  predicate ValidSession(id: SessionId, s: Session) {
    ValidIdentifier(id) && ValidIdentifier(s.room) && ValidIdentifier(s.participant)
    && s.fingerprint != [] && Utf8Length(s.fingerprint) <= 256 && ValidIce(s.ice)
  }

  /** Everything before the first colon, or all of it. */
  function LocalPart(username: string): Fragment {
    if username == [] || username[0] == ':' then [] else [username[0]] + LocalPart(username[1..])
  }

  function Without<K>(m: map<K, SessionId>, id: SessionId): map<K, SessionId> {
    map k | k in m && m[k] != id :: m[k]
  }

  // ----- The operations on values -----

  predicate CanProvision(r: Registry, id: SessionId, s: Session) {
    ValidSession(id, s) && id !in r.sessions && s.ice.local.fragment !in r.fragments
    && |r.sessions| < r.capacity
  }

  function Provisioned(r: Registry, id: SessionId, s: Session): Registry {
    r.(sessions := r.sessions[id := s], fragments := r.fragments[s.ice.local.fragment := id],
       activeSessions := r.activeSessions + 1)
  }

  predicate CanRestart(r: Registry, id: SessionId, ice: Ice) {
    ValidIdentifier(id) && ValidIce(ice) && id in r.sessions
    && (ice.local.fragment in r.fragments ==> r.fragments[ice.local.fragment] == id)
  }

  function Restarted(r: Registry, id: SessionId, ice: Ice): Registry
    requires id in r.sessions
  {
    r.(sessions := r.sessions[id := r.sessions[id].(ice := ice)],
       fragments := Without(r.fragments, id)[ice.local.fragment := id],
       routes := Without(r.routes, id))
  }

  function Removed(r: Registry, id: SessionId): Registry {
    if id !in r.sessions then r
    else r.(sessions := r.sessions - {id}, fragments := Without(r.fragments, id),
            routes := Without(r.routes, id), activeSessions := r.activeSessions - 1)
  }

  /** The session a datagram belongs to. */
  function Route(r: Registry, remote: Remote, d: Datagram): Result<SessionId, RegistryError> {
    match d
    case Media => if remote in r.routes then Ok(r.routes[remote]) else Err(UnknownRemote)
    case Stun(Err(_)) => Err(MalformedStun)
    case Stun(Ok(None)) => Err(MissingUsername)
    case Stun(Ok(Some(username))) =>
      if LocalPart(username) in r.fragments then Ok(r.fragments[LocalPart(username)])
      else Err(UnknownUsernameFragment)
  }

  /** Delivery to the routed session, which may nominate the sender unless another session has it. */
  function Handled(r: Registry, remote: Remote, d: Datagram, v: Verdict)
    : (Registry, Result<SessionId, RegistryError>)
  {
    var routed := Route(r, remote, d);
    if routed.Err? then (r, routed)
    else if routed.value !in r.sessions then (r, Err(UnknownSession))
    else if v.Rejected? then (r, Err(Transport))
    else if v.selected != Some(remote) then (r, routed)
    else if remote in r.routes && r.routes[remote] != routed.value then (r, Err(RemoteCollision))
    else (r.(routes := r.routes[remote := routed.value]), routed)
  }

  // ----- Consistency -----

  ghost predicate Addresses(fragments: map<Fragment, SessionId>, u: Fragment, id: SessionId) {
    u in fragments && fragments[u] == id
  }

  ghost predicate Current(sessions: map<SessionId, Session>, id: SessionId, u: Fragment) {
    id in sessions && sessions[id].ice.local.fragment == u
  }

  /** A fragment addresses a session exactly if it is the live session's current one. */
  ghost predicate FragmentsMatch(sessions: map<SessionId, Session>, fragments: map<Fragment, SessionId>) {
    forall u, id :: Addresses(fragments, u, id) <==> Current(sessions, id, u)
  }

  ghost predicate RoutesLive(sessions: map<SessionId, Session>, routes: map<Remote, SessionId>) {
    forall a :: a in routes ==> routes[a] in sessions
  }

  ghost predicate CredentialsValid(sessions: map<SessionId, Session>) {
    forall id :: id in sessions ==> ValidIce(sessions[id].ice)
  }

  ghost predicate Consistent(r: Registry) {
    FragmentsMatch(r.sessions, r.fragments) && RoutesLive(r.sessions, r.routes)
    && CredentialsValid(r.sessions) && r.activeSessions == |r.sessions| <= r.capacity <= MAX_SESSIONS
  }

  lemma WithoutSpec<K>(m: map<K, SessionId>, id: SessionId)
    ensures forall k :: k in Without(m, id) <==> k in m && m[k] != id
    ensures forall k :: k in Without(m, id) ==> Without(m, id)[k] == m[k]
  {
  }

  lemma InsertCount<V>(m: map<SessionId, V>, id: SessionId, v: V)
    ensures |m[id := v]| == |m| + (if id in m then 0 else 1)
  {
    assert m[id := v].Keys == m.Keys + {id};
    assert |m[id := v].Keys| == |m[id := v]| && |m.Keys| == |m|;
  }

  lemma RemoveCount<V>(m: map<SessionId, V>, id: SessionId)
    requires id in m
    ensures |m - {id}| == |m| - 1
  {
    assert (m - {id}).Keys == m.Keys - {id};
    assert |(m - {id}).Keys| == |m - {id}| && |m.Keys| == |m|;
  }

  lemma MatchAdded(sessions: map<SessionId, Session>, fragments: map<Fragment, SessionId>,
                   id: SessionId, s: Session)
    requires FragmentsMatch(sessions, fragments)
    requires id !in sessions && s.ice.local.fragment !in fragments
    ensures FragmentsMatch(sessions[id := s], fragments[s.ice.local.fragment := id])
  {
    var sessions', fragments' := sessions[id := s], fragments[s.ice.local.fragment := id];
    forall u, other ensures Addresses(fragments', u, other) <==> Current(sessions', other, u) {
      assert Addresses(fragments, u, other) <==> Current(sessions, other, u);
    }
  }

  lemma MatchRemoved(sessions: map<SessionId, Session>, fragments: map<Fragment, SessionId>,
                     id: SessionId)
    requires FragmentsMatch(sessions, fragments)
    ensures FragmentsMatch(sessions - {id}, Without(fragments, id))
  {
    WithoutSpec(fragments, id);
    hide Without;
    forall u, other
      ensures Addresses(Without(fragments, id), u, other) <==> Current(sessions - {id}, other, u)
    {
      assert Addresses(fragments, u, other) <==> Current(sessions, other, u);
    }
  }

  lemma ProvisionKeeps(r: Registry, id: SessionId, s: Session)
    requires Consistent(r) && CanProvision(r, id, s)
    ensures Consistent(Provisioned(r, id, s))
  {
    hide ValidIdentifier, ValidIce, FragmentsMatch;
    InsertCount(r.sessions, id, s);
    MatchAdded(r.sessions, r.fragments, id, s);
  }

  lemma RestartKeeps(r: Registry, id: SessionId, ice: Ice)
    requires Consistent(r) && CanRestart(r, id, ice)
    ensures Consistent(Restarted(r, id, ice))
  {
    RestartKeepsAnyId(r, id, ice);
  }

  /** A restart is a removal followed by adding the session again under its new fragment. */
  lemma RestartKeepsAnyId(r: Registry, id: SessionId, ice: Ice)
    requires Consistent(r) && ValidIce(ice) && id in r.sessions
    requires ice.local.fragment in r.fragments ==> r.fragments[ice.local.fragment] == id
    ensures Consistent(Restarted(r, id, ice))
  {
    var s := r.sessions[id].(ice := ice);
    RestartMatches(r.sessions, r.fragments, id, s);
    InsertCount(r.sessions, id, s);
    hide ValidIdentifier, ValidIce, FragmentsMatch;
  }

  lemma RestartMatches(sessions: map<SessionId, Session>, fragments: map<Fragment, SessionId>,
                       id: SessionId, s: Session)
    requires FragmentsMatch(sessions, fragments)
    requires s.ice.local.fragment in fragments ==> fragments[s.ice.local.fragment] == id
    ensures FragmentsMatch(sessions[id := s], Without(fragments, id)[s.ice.local.fragment := id])
  {
    WithoutSpec(fragments, id);
    hide FragmentsMatch, Without;
    assert sessions[id := s] == (sessions - {id})[id := s];
    MatchRemoved(sessions, fragments, id);
    MatchAdded(sessions - {id}, Without(fragments, id), id, s);
  }

  lemma RemoveKeeps(r: Registry, id: SessionId)
    requires Consistent(r)
    ensures Consistent(Removed(r, id))
  {
    if id in r.sessions {
      RemoveCount(r.sessions, id);
      WithoutSpec(r.routes, id);
      MatchRemoved(r.sessions, r.fragments, id);
    }
    hide ValidIce, Without, FragmentsMatch;
  }

  lemma HandleKeeps(r: Registry, remote: Remote, d: Datagram, v: Verdict)
    requires Consistent(r)
    ensures Consistent(Handled(r, remote, d, v).0)
  {
    hide ValidIce, LocalPart, FragmentsMatch;
  }

  lemma RoutedSessionsAreLive(r: Registry, remote: Remote, d: Datagram)
    requires Consistent(r)
    ensures Route(r, remote, d).Ok? ==> Route(r, remote, d).value in r.sessions
  {
    hide LocalPart;
    assert forall u, id :: Addresses(r.fragments, u, id) ==> Current(r.sessions, id, u);
    if Route(r, remote, d).Ok? && d.Stun? {
      var u := LocalPart(d.username.value.value);
      assert Addresses(r.fragments, u, r.fragments[u]);
    }
  }

  // ----- The registry in place -----

  class SessionRegistry {
    var sessions: map<SessionId, Session>
    var fragments: map<Fragment, SessionId>
    var routes: map<Remote, SessionId>
    var activeSessions: int
    const capacity: nat

    function Contents(): Registry
      reads this
    {
      Registry(sessions, fragments, routes, activeSessions, capacity)
    }

    ghost predicate Valid()
      reads this
    {
      Consistent(Contents())
    }

    constructor (capacity: nat)
      ensures Valid() && Contents() == Registry(map[], map[], map[], 0, Min(capacity, MAX_SESSIONS))
    {
      sessions, fragments, routes, activeSessions := map[], map[], map[], 0;
      this.capacity := Min(capacity, MAX_SESSIONS);
    }

    method Provision(id: SessionId, s: Session) returns (r: Result<(), RegistryError>)
      requires Valid()
      modifies this
      ensures Valid()
      ensures r.Ok? <==> old(CanProvision(Contents(), id, s))
      ensures Contents() == if r.Ok? then Provisioned(old(Contents()), id, s) else old(Contents())
    {
      hide ValidIdentifier, ValidIce, Without, FragmentsMatch, Utf8Length;
      if !ValidIdentifier(id) || !ValidIdentifier(s.room) || !ValidIdentifier(s.participant) {
        return Err(InvalidIdentifier);
      }
      if s.fingerprint == [] || Utf8Length(s.fingerprint) > 256 { return Err(InvalidFingerprint); }
      if !ValidIce(s.ice) { return Err(InvalidIceCredentials); }
      if id in sessions { return Err(DuplicateSession); }
      if s.ice.local.fragment in fragments { return Err(DuplicateUsernameFragment); }
      if |sessions| >= capacity { return Err(Capacity); }
      ProvisionKeeps(Contents(), id, s);
      hide Consistent;
      fragments := fragments[s.ice.local.fragment := id];
      sessions := sessions[id := s];
      activeSessions := activeSessions + 1;
      r := Ok(());
    }

    method RestartIce(id: SessionId, ice: Ice) returns (r: Result<(), RegistryError>)
      requires Valid()
      modifies this
      ensures Valid()
      ensures r.Ok? <==> old(CanRestart(Contents(), id, ice))
      ensures r.Err? ==> Contents() == old(Contents())
      ensures r.Ok? ==> id in old(sessions) && Contents() == Restarted(old(Contents()), id, ice)
    {
      hide ValidIdentifier, ValidIce, Without, FragmentsMatch, Utf8Length;
      if !ValidIdentifier(id) { return Err(InvalidIdentifier); }
      if !ValidIce(ice) { return Err(InvalidIceCredentials); }
      if id !in sessions { return Err(UnknownSession); }
      if ice.local.fragment in fragments && fragments[ice.local.fragment] != id {
        return Err(DuplicateUsernameFragment);
      }
      RestartKeeps(Contents(), id, ice);
      hide Consistent;
      sessions := sessions[id := sessions[id].(ice := ice)];
      fragments := Without(fragments, id);
      fragments := fragments[ice.local.fragment := id];
      routes := Without(routes, id);
      r := Ok(());
    }

    method Remove(id: SessionId) returns (removed: bool)
      requires Valid()
      modifies this
      ensures Valid() && removed == (id in old(sessions)) && Contents() == Removed(old(Contents()), id)
    {
      RemoveKeeps(Contents(), id);
      hide Consistent, Without;
      removed := id in sessions;
      if removed {
        sessions := sessions - {id};
        fragments := Without(fragments, id);
        routes := Without(routes, id);
        activeSessions := activeSessions - 1;
      }
    }

    /** `v` is the answer of the session's transport, which this model leaves open. */
    method HandleDatagram(remote: Remote, d: Datagram, v: Verdict)
      returns (r: Result<SessionId, RegistryError>)
      requires Valid()
      modifies `routes
      ensures Valid() && (Contents(), r) == Handled(old(Contents()), remote, d, v)
      ensures r != Err(UnknownSession)
    {
      HandleKeeps(Contents(), remote, d, v);
      RoutedSessionsAreLive(Contents(), remote, d);
      hide Consistent, LocalPart;
      r := Route(Contents(), remote, d);
      if r.Err? { return; }
      if r.value !in sessions { return Err(UnknownSession); }
      if v.Rejected? { return Err(Transport); }
      if v.selected == Some(remote) {
        if remote in routes && routes[remote] != r.value { return Err(RemoteCollision); }
        routes := routes[remote := r.value];
      }
    }
  }

  // ----- Every run -----

  datatype Step =
    | Provision(id: SessionId, session: Session)
    | RestartIce(id: SessionId, ice: Ice)
    | Remove(id: SessionId)
    | HandleDatagram(remote: Remote, datagram: Datagram, verdict: Verdict)

  function Next(r: Registry, step: Step): Registry {
    match step
    case Provision(id, s) => if CanProvision(r, id, s) then Provisioned(r, id, s) else r
    case RestartIce(id, ice) => if CanRestart(r, id, ice) then Restarted(r, id, ice) else r
    case Remove(id) => Removed(r, id)
    case HandleDatagram(remote, d, v) => Handled(r, remote, d, v).0
  }

  function Run(capacity: nat, steps: seq<Step>): Registry {
    if steps == [] then Registry(map[], map[], map[], 0, Min(capacity, MAX_SESSIONS))
    else Next(Run(capacity, steps[..|steps| - 1]), steps[|steps| - 1])
  }

  /** Fragments and sessions correspond one to one, routes are live and the gauge is exact. */
  lemma {:induction false} EveryRegistryIsConsistent(capacity: nat, steps: seq<Step>)
    ensures Consistent(Run(capacity, steps))
  {
    if steps != [] {
      hide Consistent, Provisioned, Restarted, Removed, Handled, CanProvision, CanRestart;
      var r, step := Run(capacity, steps[..|steps| - 1]), steps[|steps| - 1];
      EveryRegistryIsConsistent(capacity, steps[..|steps| - 1]);
      match step {
        case Provision(id, s) => if CanProvision(r, id, s) { ProvisionKeeps(r, id, s); }
        case RestartIce(id, ice) => if CanRestart(r, id, ice) { RestartKeeps(r, id, ice); }
        case Remove(id) => RemoveKeeps(r, id);
        case HandleDatagram(remote, d, v) => HandleKeeps(r, remote, d, v);
      }
    }
  }

  lemma {:induction false} LocalPartOfUsername(fragment: Fragment, rest: string)
    requires ':' !in fragment
    ensures LocalPart(fragment) == fragment && LocalPart(fragment + ":" + rest) == fragment
  {
    var username := fragment + ":" + rest;
    if fragment != [] {
      LocalPartOfUsername(fragment[1..], rest);
      assert username[1..] == fragment[1..] + ":" + rest;
    }
  }

  /**
   In every reachable registry a STUN username reaches a session if and only if its part before the
   first colon, or all of it if there is none, is the session's current fragment.
   */
  lemma {:induction false} StunReachesExactlyTheCurrentFragment(
    capacity: nat, steps: seq<Step>, remote: Remote, username: string, id: SessionId)
    ensures var r := Run(capacity, steps);
            Route(r, remote, Stun(Ok(Some(username)))) == Ok(id)
            <==> id in r.sessions && r.sessions[id].ice.local.fragment == LocalPart(username)
  {
    EveryRegistryIsConsistent(capacity, steps);
    var r := Run(capacity, steps);
    hide Run, ValidIce, LocalPart;
    assert Addresses(r.fragments, LocalPart(username), id) <==> Current(r.sessions, id, LocalPart(username));
  }

  /** So a live session is reached by its fragment alone and by its fragment before any colon. */
  lemma {:induction false} CurrentFragmentReachesItsSession(
    capacity: nat, steps: seq<Step>, remote: Remote, id: SessionId, rest: string)
    ensures var r := Run(capacity, steps);
            id in r.sessions ==>
              var fragment := r.sessions[id].ice.local.fragment;
              && Route(r, remote, Stun(Ok(Some(fragment)))) == Ok(id)
              && Route(r, remote, Stun(Ok(Some(fragment + ":" + rest)))) == Ok(id)
  {
    EveryRegistryIsConsistent(capacity, steps);
    var r := Run(capacity, steps);
    hide Run, LocalPart, FragmentsMatch, RoutesLive;
    if id in r.sessions {
      var fragment := r.sessions[id].ice.local.fragment;
      LocalPartOfUsername(fragment, rest);
      StunReachesExactlyTheCurrentFragment(capacity, steps, remote, fragment, id);
      StunReachesExactlyTheCurrentFragment(capacity, steps, remote, fragment + ":" + rest, id);
    }
  }

  /** After an ICE restart no earlier fragment and no earlier remote reaches the session. */
  lemma RestartSeversEarlierRoutes(capacity: nat, steps: seq<Step>, id: SessionId, ice: Ice)
    requires CanRestart(Run(capacity, steps), id, ice)
    ensures var r := Next(Run(capacity, steps), RestartIce(id, ice));
            && (forall u :: u in r.fragments && r.fragments[u] == id <==> u == ice.local.fragment)
            && (forall a :: a in r.routes ==> r.routes[a] != id)
            && (forall remote :: Route(r, remote, Media) != Ok(id))
  {
    hide Run, ValidIce;
  }

  // ----- Answers -----

  /** The session a datagram belongs to, read off the live sessions and the learnt remotes. */
  ghost predicate BelongsTo(r: Registry, remote: Remote, d: Datagram, id: SessionId) {
    match d
    case Media => remote in r.routes && r.routes[remote] == id
    case Stun(username) =>
      username.Ok? && username.value.Some?
      && id in r.sessions && r.sessions[id].ice.local.fragment == LocalPart(username.value.value)
  }

  lemma BelongsExactlyWhenRouted(r: Registry, remote: Remote, d: Datagram, id: SessionId)
    requires Consistent(r)
    ensures BelongsTo(r, remote, d, id) <==> Route(r, remote, d) == Ok(id)
    ensures BelongsTo(r, remote, d, id) ==> id in r.sessions
  {
    hide LocalPart;
    RoutedSessionsAreLive(r, remote, d);
    if d.Stun? && d.username.Ok? && d.username.value.Some? {
      var u := LocalPart(d.username.value.value);
      assert Addresses(r.fragments, u, id) <==> Current(r.sessions, id, u);
    }
  }

  /** The remote has been learnt for another session. */
  predicate TakenByAnother(r: Registry, remote: Remote, id: SessionId) {
    remote in r.routes && r.routes[remote] != id
  }

  lemma AnswersDatagram(r: Registry, remote: Remote, d: Datagram, v: Verdict, id: SessionId)
    requires Consistent(r) && BelongsTo(r, remote, d, id)
    ensures var (r', answer) := Handled(r, remote, d, v);
            var nominated := v == Accepted(Some(remote));
            && (answer == Err(Transport) <==> v.Rejected?)
            && (answer == Err(RemoteCollision) <==> nominated && TakenByAnother(r, remote, id))
            && (answer == Ok(id) <==> v.Accepted? && !(nominated && TakenByAnother(r, remote, id)))
            && (if nominated && !TakenByAnother(r, remote, id)
                then r' == r.(routes := r.routes[remote := id]) else r' == r)
  {
    BelongsExactlyWhenRouted(r, remote, d, id);
    hide Route, LocalPart, Consistent, BelongsTo;
  }

  /**
   In every reachable registry, a datagram that belongs to a session is refused for a collision exactly
   if the session selected the sender's address while another session has it; rejected exactly if the
   session rejects it; and otherwise answered for that session, with the address routed to it from then
   on exactly if it was selected.
   */
  lemma {:induction false} DatagramsAnsweredExactly(
    capacity: nat, steps: seq<Step>, remote: Remote, d: Datagram, v: Verdict, id: SessionId)
    ensures var r := Run(capacity, steps);
            BelongsTo(r, remote, d, id) ==>
              var (r', answer) := Handled(r, remote, d, v);
              var nominated := v == Accepted(Some(remote));
              && id in r.sessions
              && (answer == Err(Transport) <==> v.Rejected?)
              && (answer == Err(RemoteCollision) <==> nominated && TakenByAnother(r, remote, id))
              && (answer == Ok(id) <==> v.Accepted? && !(nominated && TakenByAnother(r, remote, id)))
              && (if nominated && !TakenByAnother(r, remote, id)
                  then r' == r.(routes := r.routes[remote := id]) else r' == r)
  {
    EveryRegistryIsConsistent(capacity, steps);
    var r := Run(capacity, steps);
    hide *;
    if BelongsTo(r, remote, d, id) {
      AnswersDatagram(r, remote, d, v, id);
      BelongsExactlyWhenRouted(r, remote, d, id);
    }
  }

  /** A datagram that belongs to no session is told why and changes nothing. */
  lemma {:induction false} StrayDatagramsRefused(
    capacity: nat, steps: seq<Step>, remote: Remote, d: Datagram, v: Verdict)
    ensures var r := Run(capacity, steps);
            (forall id :: !BelongsTo(r, remote, d, id)) ==>
              && Handled(r, remote, d, v).0 == r
              && Handled(r, remote, d, v).1
                 == Err(if d.Media? then UnknownRemote
                        else if d.username.Err? then MalformedStun
                        else if d.username.value.None? then MissingUsername
                        else UnknownUsernameFragment)
  {
    EveryRegistryIsConsistent(capacity, steps);
    var r := Run(capacity, steps);
    hide Run, LocalPart, Consistent;
    if forall id :: !BelongsTo(r, remote, d, id) {
      var routed := Route(r, remote, d);
      if routed.Ok? { BelongsExactlyWhenRouted(r, remote, d, routed.value); }
    }
  }

  /** A fragment is in use exactly if it is the current one of a live session. */
  ghost predicate InUse(r: Registry, u: Fragment) {
    exists id :: Current(r.sessions, id, u)
  }

  lemma InUseExactlyWhenIndexed(r: Registry, u: Fragment)
    requires FragmentsMatch(r.sessions, r.fragments)
    ensures InUse(r, u) <==> u in r.fragments
    ensures forall id :: u in r.fragments ==> (r.fragments[u] == id <==> Current(r.sessions, id, u))
  {
    forall id ensures Addresses(r.fragments, u, id) <==> Current(r.sessions, id, u) { }
    if u in r.fragments { assert Addresses(r.fragments, u, r.fragments[u]); }
  }

  /**
   In every reachable registry a session is provisioned exactly if it is well formed, its identifier is
   not live, its fragment is not in use and there is room; a restart succeeds exactly if its input is
   well formed, its session is live and no other session uses the fragment.
   */
  lemma {:induction false} ChangesAcceptedExactly(capacity: nat, steps: seq<Step>, id: SessionId, s: Session)
    ensures var r := Run(capacity, steps);
            && (CanProvision(r, id, s) <==>
                  ValidSession(id, s) && id !in r.sessions && !InUse(r, s.ice.local.fragment)
                  && |r.sessions| < Min(capacity, MAX_SESSIONS))
            && (CanRestart(r, id, s.ice) <==>
                  ValidIdentifier(id) && ValidIce(s.ice) && id in r.sessions
                  && forall other :: Current(r.sessions, other, s.ice.local.fragment) ==> other == id)
  {
    EveryRegistryIsConsistent(capacity, steps);
    CapacityStays(capacity, steps);
    var r := Run(capacity, steps);
    InUseExactlyWhenIndexed(r, s.ice.local.fragment);
    hide Run, ValidSession, ValidIdentifier, ValidIce, FragmentsMatch, Current;
  }

  lemma {:induction false} CapacityStays(capacity: nat, steps: seq<Step>)
    ensures Run(capacity, steps).capacity == Min(capacity, MAX_SESSIONS)
  {
    if steps != [] {
      CapacityStays(capacity, steps[..|steps| - 1]);
      hide CanProvision, CanRestart, Route, Without;
    }
  }

  // ----- Where routes come from -----

  /** The session accepted a datagram from this remote with it selected, and nobody else has it. */
  ghost predicate Nominates(r: Registry, step: Step, remote: Remote, id: SessionId) {
    step.HandleDatagram? && step.remote == remote && step.verdict == Accepted(Some(remote))
    && BelongsTo(r, remote, step.datagram, id) && !TakenByAnother(r, remote, id)
  }

  /** A restart under a fragment no other session uses, or a removal. */
  ghost predicate Severs(r: Registry, step: Step, id: SessionId) {
    (step.RestartIce? && step.id == id && ValidIdentifier(id) && ValidIce(step.ice) && id in r.sessions
     && forall other :: Current(r.sessions, other, step.ice.local.fragment) ==> other == id)
    || (step.Remove? && step.id == id)
  }

  /** Nominated, and neither restarted nor removed since. */
  ghost predicate NominatedSince(capacity: nat, steps: seq<Step>, remote: Remote, id: SessionId) {
    if steps == [] then false
    else
      var init, last := steps[..|steps| - 1], steps[|steps| - 1];
      Nominates(Run(capacity, init), last, remote, id)
      || (!Severs(Run(capacity, init), last, id) && NominatedSince(capacity, init, remote, id))
  }

  lemma DatagramRoutes(r: Registry, step: Step, remote: Remote, id: SessionId)
    requires Consistent(r) && step.HandleDatagram?
    ensures var r' := Next(r, step);
            (remote in r'.routes && r'.routes[remote] == id)
            <==> Nominates(r, step, remote, id) || (remote in r.routes && r.routes[remote] == id)
  {
    var routed := Route(r, step.remote, step.datagram);
    BelongsExactlyWhenRouted(r, step.remote, step.datagram, id);
    if routed.Ok? { AnswersDatagramById(r, step, routed.value); }
    hide Consistent, LocalPart, BelongsTo;
  }

  lemma AnswersDatagramById(r: Registry, step: Step, id: SessionId)
    requires Consistent(r) && step.HandleDatagram? && Route(r, step.remote, step.datagram) == Ok(id)
    ensures BelongsTo(r, step.remote, step.datagram, id) && id in r.sessions
  {
    BelongsExactlyWhenRouted(r, step.remote, step.datagram, id);
    hide *;
  }

  lemma OtherRoutes(r: Registry, step: Step, remote: Remote, id: SessionId)
    requires Consistent(r) && !step.HandleDatagram?
    ensures var r' := Next(r, step);
            (remote in r'.routes && r'.routes[remote] == id)
            <==> !Severs(r, step, id) && remote in r.routes && r.routes[remote] == id
  {
    if step.RestartIce? { InUseExactlyWhenIndexed(r, step.ice.local.fragment); }
    WithoutSpec(r.routes, id);
    hide ValidSession, FragmentsMatch, ValidIce, ValidIdentifier, Current, CredentialsValid;
  }

  lemma RoutesAfterStep(r: Registry, step: Step, remote: Remote, id: SessionId)
    requires Consistent(r)
    ensures var r' := Next(r, step);
            (remote in r'.routes && r'.routes[remote] == id)
            <==> Nominates(r, step, remote, id)
                 || (!Severs(r, step, id) && remote in r.routes && r.routes[remote] == id)
  {
    if step.HandleDatagram? { DatagramRoutes(r, step, remote, id); } else { OtherRoutes(r, step, remote, id); }
    hide Next, BelongsTo, Consistent, Current;
  }

  /**
   Media from a remote reaches a session if and only if that session nominated the remote and was
   neither restarted nor removed afterwards; in particular no other session can take a remote over.
   */
  lemma {:induction false} RoutesAreExactlyNominations(
    capacity: nat, steps: seq<Step>, remote: Remote, id: SessionId)
    ensures Route(Run(capacity, steps), remote, Media) == Ok(id)
            <==> NominatedSince(capacity, steps, remote, id)
  {
    if steps != [] {
      hide Next, Nominates, Severs, Consistent;
      var init := steps[..|steps| - 1];
      RoutesAreExactlyNominations(capacity, init, remote, id);
      EveryRegistryIsConsistent(capacity, init);
      RoutesAfterStep(Run(capacity, init), steps[|steps| - 1], remote, id);
    }
  }
}
