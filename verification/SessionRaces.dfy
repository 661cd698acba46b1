/**
 The session registry at the granularity of its locks. Provisioning holds both index locks at once, but
 restarting, removing and delivering look the session up first and touch the indexes later, and a
 removal clears the three maps one after the other.
 */
module SessionRaces {
  import opened Prelude
  import opened Sessions

  type Thread = nat

  /** What a thread still has to do; `birth` tells incarnations of one session identifier apart. */
  datatype Op =
    | Restarting(id: SessionId, birth: nat, ice: Ice)
    | Delivering(id: SessionId, remote: Remote)
    | DroppingFragments(id: SessionId)
    | DroppingRoutes(id: SessionId)

  type Ops = map<Thread, Op>

  datatype World = World(r: Registry, births: map<SessionId, nat>, ops: Ops)

  datatype Step =
    | ProvisionAtOnce(id: SessionId, session: Session)
    | BeginRestart(t: Thread, id: SessionId, ice: Ice)
    | FinishRestart(t: Thread)
    | BeginDelivery(t: Thread, remote: Remote, datagram: Datagram)
    | FinishDelivery(t: Thread, verdict: Verdict)
    | BeginRemove(t: Thread, id: SessionId)
    | DropFragments(t: Thread)
    | DropRoutes(t: Thread)

  function Births(w: World, id: SessionId): nat { if id in w.births then w.births[id] else 0 }

  /** The index part of a restart; the credentials go to the session object looked up before. */
  function RestartFinished(w: World, op: Op): Registry
    requires op.Restarting?
  {
    var r, u := w.r, op.ice.local.fragment;
    if u in r.fragments && r.fragments[u] != op.id then r
    else
      r.(sessions := if op.id in r.sessions && Births(w, op.id) == op.birth
                     then r.sessions[op.id := r.sessions[op.id].(ice := op.ice)] else r.sessions,
         fragments := Without(r.fragments, op.id)[u := op.id],
         routes := Without(r.routes, op.id))
  }

  function DeliveryFinished(r: Registry, op: Op, v: Verdict): Registry
    requires op.Delivering?
  {
    if v != Accepted(Some(op.remote)) || (op.remote in r.routes && r.routes[op.remote] != op.id) then r
    else r.(routes := r.routes[op.remote := op.id])
  }

  function Next(w: World, step: Step): World {
    match step
    case ProvisionAtOnce(id, s) =>
      if CanProvision(w.r, id, s)
      then w.(r := Provisioned(w.r, id, s), births := w.births[id := Births(w, id) + 1]) else w
    case BeginRestart(t, id, ice) =>
      if t !in w.ops && ValidIdentifier(id) && ValidIce(ice) && id in w.r.sessions
      then w.(ops := w.ops[t := Restarting(id, Births(w, id), ice)]) else w
    case FinishRestart(t) =>
      if t in w.ops && w.ops[t].Restarting?
      then w.(r := RestartFinished(w, w.ops[t]), ops := w.ops - {t}) else w
    case BeginDelivery(t, remote, d) =>
      var routed := Route(w.r, remote, d);
      if t !in w.ops && routed.Ok? && routed.value in w.r.sessions
      then w.(ops := w.ops[t := Delivering(routed.value, remote)]) else w
    case FinishDelivery(t, v) =>
      if t in w.ops && w.ops[t].Delivering?
      then w.(r := DeliveryFinished(w.r, w.ops[t], v), ops := w.ops - {t}) else w
    case BeginRemove(t, id) =>
      if t !in w.ops && id in w.r.sessions
      then w.(r := w.r.(sessions := w.r.sessions - {id}), ops := w.ops[t := DroppingFragments(id)]) else w
    case DropFragments(t) =>
      if t in w.ops && w.ops[t].DroppingFragments?
      then w.(r := w.r.(fragments := Without(w.r.fragments, w.ops[t].id)),
              ops := w.ops[t := DroppingRoutes(w.ops[t].id)]) else w
    case DropRoutes(t) =>
      if t in w.ops && w.ops[t].DroppingRoutes?
      then w.(r := w.r.(routes := Without(w.r.routes, w.ops[t].id),
                        activeSessions := w.r.activeSessions - 1), ops := w.ops - {t}) else w
  }

  function Run(capacity: nat, steps: seq<Step>): World {
    if steps == []
    then World(Registry(map[], map[], map[], 0, Min(capacity, MAX_SESSIONS)), map[], map[])
    else Next(Run(capacity, steps[..|steps| - 1]), steps[|steps| - 1])
  }

  // ----- Consistency up to the removals in progress -----

  predicate Removing(op: Op) { op.DroppingFragments? || op.DroppingRoutes? }

  ghost predicate Fading(ops: Ops, id: SessionId) {
    exists t :: t in ops && ops[t] == DroppingFragments(id)
  }

  ghost predicate Leaving(ops: Ops, id: SessionId) {
    exists t :: t in ops && Removing(ops[t]) && ops[t].id == id
  }

  ghost predicate FragmentsOk(sessions: map<SessionId, Session>, fragments: map<Fragment, SessionId>,
                              ops: Ops) {
    forall u, id | !Fading(ops, id) :: Addresses(fragments, u, id) <==> Current(sessions, id, u)
  }

  ghost predicate RoutesOk(sessions: map<SessionId, Session>, routes: map<Remote, SessionId>, ops: Ops) {
    forall a :: a in routes ==> routes[a] in sessions || Leaving(ops, routes[a])
  }

  function Removers(ops: Ops): set<Thread> { set t | t in ops && Removing(ops[t]) }

  ghost predicate PendingIce(ops: Ops) {
    forall t :: t in ops && ops[t].Restarting? ==> ValidIce(ops[t].ice)
  }

  ghost predicate GaugeOk(w: World) {
    w.r.activeSessions == |w.r.sessions| + |Removers(w.ops)| && |w.r.sessions| <= w.r.capacity <= MAX_SESSIONS
  }

  /** What a removal has still to clear away is the only thing that may be out of place. */
  ghost predicate Sound(w: World) {
    && FragmentsOk(w.r.sessions, w.r.fragments, w.ops) && RoutesOk(w.r.sessions, w.r.routes, w.ops)
    && CredentialsValid(w.r.sessions) && PendingIce(w.ops) && GaugeOk(w)
  }

  /** With no call in progress that is consistency. */
  lemma SoundWhenIdle(w: World)
    requires w.ops == map[]
    ensures Sound(w) <==> Consistent(w.r)
  {
    assert Removers(w.ops) == {};
    assert forall id :: !Fading(w.ops, id) && !Leaving(w.ops, id);
  }

  // ----- Which steps keep it -----

  /** The fragment is taken by another session, so the restart changes nothing. */
  predicate RestartRefused(w: World, op: Op)
    requires op.Restarting?
  {
    op.ice.local.fragment in w.r.fragments && w.r.fragments[op.ice.local.fragment] != op.id
  }

  /**
   A restart may finish if its session is still the one it looked up, or came back under the same
   fragment, or its fragments are yet to be dropped. Fragments may be dropped if the session is not
   live, or another removal will drop them again.
   */
  ghost predicate FragmentsHarmless(w: World, step: Step) {
    match step
    case FinishRestart(t) =>
      t in w.ops && w.ops[t].Restarting? ==>
        var op := w.ops[t];
        RestartRefused(w, op) || Fading(w.ops, op.id)
        || (op.id in w.r.sessions
            && (Births(w, op.id) == op.birth
                || w.r.sessions[op.id].ice.local.fragment == op.ice.local.fragment))
    case DropFragments(t) =>
      t in w.ops && w.ops[t].DroppingFragments? ==>
        w.ops[t].id !in w.r.sessions || Fading(w.ops - {t}, w.ops[t].id)
    case _ => true
  }

  /** A nomination may finish if it learns nothing, or its session is live or still being removed. */
  ghost predicate RoutesHarmless(w: World, step: Step) {
    match step
    case FinishDelivery(t, v) =>
      t in w.ops && w.ops[t].Delivering? ==>
        var op := w.ops[t];
        v != Accepted(Some(op.remote)) || (op.remote in w.r.routes && w.r.routes[op.remote] != op.id)
        || op.id in w.r.sessions || Leaving(w.ops, op.id)
    case _ => true
  }

  ghost predicate Harmless(w: World, step: Step) { FragmentsHarmless(w, step) && RoutesHarmless(w, step) }

  lemma NextPendingIce(w: World, step: Step)
    requires PendingIce(w.ops)
    ensures PendingIce(Next(w, step).ops)
  {
    hide ValidIce, ValidIdentifier, ValidSession, Without, Route, RestartFinished, DeliveryFinished;
  }

  lemma NextCredentials(w: World, step: Step)
    requires PendingIce(w.ops) && CredentialsValid(w.r.sessions)
    ensures CredentialsValid(Next(w, step).r.sessions)
  {
    hide ValidIce, ValidIdentifier, Without, Route;
  }

  // The gauge.

  lemma RemoversStart(ops: Ops, t: Thread, op: Op)
    requires t !in ops
    ensures |Removers(ops[t := op])| == |Removers(ops)| + (if Removing(op) then 1 else 0)
  {
    assert Removers(ops[t := op]) == Removers(ops) + (if Removing(op) then {t} else {});
  }

  lemma RemoversEnd(ops: Ops, t: Thread)
    requires t in ops
    ensures |Removers(ops - {t})| == |Removers(ops)| - (if Removing(ops[t]) then 1 else 0)
  {
    assert Removers(ops - {t}) == Removers(ops) - {t};
  }

  lemma RemoversContinue(ops: Ops, t: Thread, op: Op)
    requires t in ops && Removing(ops[t]) && Removing(op)
    ensures Removers(ops[t := op]) == Removers(ops)
  {
  }

  lemma RemoversAfter(w: World, step: Step)
    ensures |Removers(Next(w, step).ops)| == |Removers(w.ops)|
              + (if step.BeginRemove? && step.t !in w.ops && step.id in w.r.sessions then 1 else 0)
              - (if step.DropRoutes? && step.t in w.ops && w.ops[step.t].DroppingRoutes? then 1 else 0)
  {
    hide ValidIce, ValidIdentifier, ValidSession, Without, Route, Removers, Provisioned, RestartFinished,
      DeliveryFinished;
    match step {
      case ProvisionAtOnce(_, _) =>
      case BeginRestart(t, id, ice) =>
        if t !in w.ops { RemoversStart(w.ops, t, Restarting(id, Births(w, id), ice)); }
      case BeginDelivery(t, remote, d) =>
        if t !in w.ops && Route(w.r, remote, d).Ok? {
          RemoversStart(w.ops, t, Delivering(Route(w.r, remote, d).value, remote));
        }
      case BeginRemove(t, id) => if t !in w.ops { RemoversStart(w.ops, t, DroppingFragments(id)); }
      case DropFragments(t) =>
        if t in w.ops && w.ops[t].DroppingFragments? {
          RemoversContinue(w.ops, t, DroppingRoutes(w.ops[t].id));
        }
      case FinishRestart(t) => if t in w.ops { RemoversEnd(w.ops, t); }
      case FinishDelivery(t, _) => if t in w.ops { RemoversEnd(w.ops, t); }
      case DropRoutes(t) => if t in w.ops { RemoversEnd(w.ops, t); }
    }
  }

  lemma SessionsAfter(w: World, step: Step)
    ensures var w' := Next(w, step);
            var added := if step.ProvisionAtOnce? && CanProvision(w.r, step.id, step.session) then 1 else 0;
            var removed := if step.BeginRemove? && step.t !in w.ops && step.id in w.r.sessions then 1 else 0;
            |w'.r.sessions| == |w.r.sessions| + added - removed
  {
    hide ValidIce, ValidIdentifier, ValidSession, Without, Route;
    match step {
      case ProvisionAtOnce(id, s) => InsertCount(w.r.sessions, id, s);
      case FinishRestart(t) =>
        if t in w.ops && w.ops[t].Restarting? && w.ops[t].id in w.r.sessions {
          var id := w.ops[t].id;
          InsertCount(w.r.sessions, id, w.r.sessions[id].(ice := w.ops[t].ice));
        }
      case BeginRemove(t, id) => if id in w.r.sessions { RemoveCount(w.r.sessions, id); }
      case _ =>
    }
  }

  lemma CountersAfter(w: World, step: Step)
    ensures var w' := Next(w, step);
            && w'.r.capacity == w.r.capacity
            && w'.r.activeSessions == w.r.activeSessions
                 + (if step.ProvisionAtOnce? && CanProvision(w.r, step.id, step.session) then 1 else 0)
                 - (if step.DropRoutes? && step.t in w.ops && w.ops[step.t].DroppingRoutes? then 1 else 0)
  {
    hide ValidIce, ValidIdentifier, ValidSession, Without, Route;
  }

  lemma NextGauge(w: World, step: Step)
    requires GaugeOk(w)
    ensures GaugeOk(Next(w, step))
  {
    hide Next, ValidSession, Removers;
    RemoversAfter(w, step);
    SessionsAfter(w, step);
    CountersAfter(w, step);
  }

  // The remote routes.

  lemma LeavingContinues(w: World, step: Step, id: SessionId)
    requires Leaving(w.ops, id) && !(step.DropRoutes? && step.t in w.ops && w.ops[step.t] == DroppingRoutes(id))
    ensures Leaving(Next(w, step).ops, id)
  {
    hide ValidIce, ValidIdentifier, ValidSession, Route, Provisioned, RestartFinished, DeliveryFinished;
    var t :| t in w.ops && Removing(w.ops[t]) && w.ops[t].id == id;
    assert t in Next(w, step).ops && Removing(Next(w, step).ops[t]) && Next(w, step).ops[t].id == id;
  }

  lemma SessionsEndByRemoval(w: World, step: Step, id: SessionId)
    requires id in w.r.sessions && id !in Next(w, step).r.sessions
    ensures Leaving(Next(w, step).ops, id)
  {
    hide ValidIce, ValidIdentifier, ValidSession, Route, Without;
    assert step.BeginRemove? && step.id == id;
    assert Removing(Next(w, step).ops[step.t]);
  }

  /** A harmless step adds a route only for a session that is live or leaving. */
  lemma RouteOrigin(w: World, step: Step, a: Remote)
    requires a in Next(w, step).r.routes && RoutesHarmless(w, step)
    ensures var id := Next(w, step).r.routes[a];
            && ((a in w.r.routes && w.r.routes[a] == id) || id in w.r.sessions || Leaving(w.ops, id))
            && !(step.DropRoutes? && step.t in w.ops && w.ops[step.t] == DroppingRoutes(id))
  {
    hide ValidIce, ValidIdentifier, ValidSession, Route, Leaving;
  }

  lemma HarmlessKeepsRoutes(w: World, step: Step)
    requires RoutesHarmless(w, step) && RoutesOk(w.r.sessions, w.r.routes, w.ops)
    ensures RoutesOk(Next(w, step).r.sessions, Next(w, step).r.routes, Next(w, step).ops)
  {
    hide Next, Leaving, RoutesHarmless;
    var w' := Next(w, step);
    forall a | a in w'.r.routes && w'.r.routes[a] !in w'.r.sessions
      ensures Leaving(w'.ops, w'.r.routes[a])
    {
      RouteOrigin(w, step, a);
      if w'.r.routes[a] in w.r.sessions {
        SessionsEndByRemoval(w, step, w'.r.routes[a]);
      } else {
        LeavingContinues(w, step, w'.r.routes[a]);
      }
    }
  }

  lemma HarmfulBreaksRoutes(w: World, step: Step)
    requires !RoutesHarmless(w, step)
    ensures !RoutesOk(Next(w, step).r.sessions, Next(w, step).r.routes, Next(w, step).ops)
  {
    var op, w' := w.ops[step.t], Next(w, step);
    assert op.remote in w'.r.routes && w'.r.routes[op.remote] == op.id;
    assert forall t :: t in w'.ops ==> t in w.ops && w'.ops[t] == w.ops[t];
  }

  // The fragments.

  lemma FadingAfter(w: World, step: Step, id: SessionId)
    ensures Fading(w.ops, id) ==>
              Fading(Next(w, step).ops, id)
              || (step.DropFragments? && step.t in w.ops && w.ops[step.t] == DroppingFragments(id))
  {
    hide ValidIce, ValidIdentifier, ValidSession, Route, Provisioned, RestartFinished, DeliveryFinished;
    if Fading(w.ops, id) {
      var t :| t in w.ops && w.ops[t] == DroppingFragments(id);
      assert t in Next(w, step).ops ==> Next(w, step).ops[t] == w.ops[t] || (step.DropFragments? && step.t == t);
    }
  }

  lemma RemovalFades(w: World, step: Step)
    requires step.BeginRemove? && step.id in w.r.sessions && step.t !in w.ops
    ensures Fading(Next(w, step).ops, step.id)
  {
    assert Next(w, step).ops[step.t] == DroppingFragments(step.id);
  }

  lemma FinishRestartFragment(w: World, t: Thread, u: Fragment, id: SessionId)
    requires t in w.ops && w.ops[t].Restarting? && FragmentsHarmless(w, FinishRestart(t))
    requires !Fading(w.ops, id) && (Addresses(w.r.fragments, u, id) <==> Current(w.r.sessions, id, u))
    ensures var r' := RestartFinished(w, w.ops[t]);
            Addresses(r'.fragments, u, id) <==> Current(r'.sessions, id, u)
  {
    WithoutSpec(w.r.fragments, w.ops[t].id);
    hide Without, ValidIce, Fading;
  }

  lemma OtherStepsKeepFragments(w: World, step: Step)
    requires step.BeginRestart? || step.BeginDelivery? || step.FinishDelivery? || step.DropRoutes?
    ensures Next(w, step).r.fragments == w.r.fragments && Next(w, step).r.sessions == w.r.sessions
  {
    hide ValidIce, ValidIdentifier, Route, Without;
  }

  lemma DropFragmentsFragment(w: World, t: Thread, u: Fragment, id: SessionId)
    requires t in w.ops && w.ops[t].DroppingFragments?
    requires w.ops[t].id == id ==> id !in w.r.sessions
    requires w.ops[t].id != id ==> (Addresses(w.r.fragments, u, id) <==> Current(w.r.sessions, id, u))
    ensures Addresses(Without(w.r.fragments, w.ops[t].id), u, id) <==> Current(w.r.sessions, id, u)
  {
    WithoutSpec(w.r.fragments, w.ops[t].id);
    hide Without, ValidIce;
  }

  /** Dropping fragments ends the fading of one thread only. */
  lemma FadingAfterDrop(w: World, t: Thread, id: SessionId)
    requires t in w.ops && w.ops[t].DroppingFragments?
    ensures Fading(Next(w, DropFragments(t)).ops, id) <==> Fading(w.ops - {t}, id)
  {
    var ops' := Next(w, DropFragments(t)).ops;
    if Fading(ops', id) {
      var x :| x in ops' && ops'[x] == DroppingFragments(id);
      assert x in w.ops - {t} && (w.ops - {t})[x] == DroppingFragments(id);
    }
    if Fading(w.ops - {t}, id) {
      var x :| x in w.ops - {t} && (w.ops - {t})[x] == DroppingFragments(id);
      assert ops'[x] == DroppingFragments(id);
    }
  }

  lemma NextFragment(w: World, step: Step, u: Fragment, id: SessionId)
    requires FragmentsOk(w.r.sessions, w.r.fragments, w.ops) && FragmentsHarmless(w, step)
    requires !Fading(Next(w, step).ops, id)
    ensures Addresses(Next(w, step).r.fragments, u, id) <==> Current(Next(w, step).r.sessions, id, u)
  {
    hide ValidIce, ValidIdentifier, ValidSession, Route, Without, RestartFinished, DeliveryFinished, Fading;
    FadingAfter(w, step, id);
    assert !Fading(w.ops, id) ==> (Addresses(w.r.fragments, u, id) <==> Current(w.r.sessions, id, u));
    hide FragmentsOk;
    match step {
      case ProvisionAtOnce(_, _) =>
      case FinishRestart(t) =>
        hide FragmentsHarmless;
        if t in w.ops && w.ops[t].Restarting? { FinishRestartFragment(w, t, u, id); }
      case BeginRemove(t, gone) => if gone in w.r.sessions && t !in w.ops { RemovalFades(w, step); }
      case DropFragments(t) =>
        if t in w.ops && w.ops[t].DroppingFragments? {
          FadingAfterDrop(w, t, id);
          DropFragmentsFragment(w, t, u, id);
        }
      case _ => OtherStepsKeepFragments(w, step);
    }
  }

  lemma HarmlessKeepsFragments(w: World, step: Step)
    requires FragmentsOk(w.r.sessions, w.r.fragments, w.ops) && FragmentsHarmless(w, step)
    ensures FragmentsOk(Next(w, step).r.sessions, Next(w, step).r.fragments, Next(w, step).ops)
  {
    hide Next, Fading, Addresses, Current, FragmentsHarmless;
    var w' := Next(w, step);
    forall u, id | !Fading(w'.ops, id)
      ensures Addresses(w'.r.fragments, u, id) <==> Current(w'.r.sessions, id, u)
    {
      NextFragment(w, step, u, id);
    }
  }

  lemma LateRestartBreaksFragments(w: World, t: Thread)
    requires t in w.ops && w.ops[t].Restarting? && !FragmentsHarmless(w, FinishRestart(t))
    ensures var w' := Next(w, FinishRestart(t)); !FragmentsOk(w'.r.sessions, w'.r.fragments, w'.ops)
  {
    hide ValidIce, Without;
    var op, w' := w.ops[t], Next(w, FinishRestart(t));
    assert forall x :: x in w'.ops ==> x in w.ops && w'.ops[x] == w.ops[x];
    assert !Fading(w'.ops, op.id);
    assert Addresses(w'.r.fragments, op.ice.local.fragment, op.id);
    assert !Current(w'.r.sessions, op.id, op.ice.local.fragment);
  }

  lemma LateDropBreaksFragments(w: World, t: Thread)
    requires t in w.ops && w.ops[t].DroppingFragments? && !FragmentsHarmless(w, DropFragments(t))
    ensures var w' := Next(w, DropFragments(t)); !FragmentsOk(w'.r.sessions, w'.r.fragments, w'.ops)
  {
    var id, w' := w.ops[t].id, Next(w, DropFragments(t));
    FadingAfterDrop(w, t, id);
    WithoutSpec(w.r.fragments, id);
    hide Without, Fading;
    assert Current(w'.r.sessions, id, w.r.sessions[id].ice.local.fragment);
    assert !Addresses(w'.r.fragments, w.r.sessions[id].ice.local.fragment, id);
  }

  /** A step keeps the registry sound if and only if it is harmless. */
  lemma {:induction false} SoundExactlyWhenHarmless(w: World, step: Step)
    requires Sound(w)
    ensures Sound(Next(w, step)) <==> Harmless(w, step)
  {
    hide Next, FragmentsOk, RoutesOk, CredentialsValid, PendingIce, GaugeOk;
    NextPendingIce(w, step);
    NextCredentials(w, step);
    NextGauge(w, step);
    if RoutesHarmless(w, step) { HarmlessKeepsRoutes(w, step); } else { HarmfulBreaksRoutes(w, step); }
    if FragmentsHarmless(w, step) {
      HarmlessKeepsFragments(w, step);
    } else if step.FinishRestart? {
      LateRestartBreaksFragments(w, step.t);
    } else {
      LateDropBreaksFragments(w, step.t);
    }
  }

  // ----- Every interleaving -----

  /** After every prefix. */
  ghost predicate AlwaysSound(capacity: nat, steps: seq<Step>) {
    Sound(Run(capacity, steps)) && (steps != [] ==> AlwaysSound(capacity, steps[..|steps| - 1]))
  }

  ghost predicate AlwaysHarmless(capacity: nat, steps: seq<Step>) {
    steps != [] ==>
      var init := steps[..|steps| - 1];
      Harmless(Run(capacity, init), steps[|steps| - 1]) && AlwaysHarmless(capacity, init)
  }

  /**
   Under every interleaving at lock granularity the registry is sound throughout, and so consistent
   whenever idle, if and only if every finishing step is harmless when it comes.
   */
  lemma {:induction false} InterleavingsSoundExactlyWhenHarmless(capacity: nat, steps: seq<Step>)
    ensures AlwaysSound(capacity, steps) <==> AlwaysHarmless(capacity, steps)
  {
    StartSound(capacity);
    hide Sound, Harmless, Next;
    if steps != [] {
      var init := steps[..|steps| - 1];
      InterleavingsSoundExactlyWhenHarmless(capacity, init);
      if Sound(Run(capacity, init)) { SoundExactlyWhenHarmless(Run(capacity, init), steps[|steps| - 1]); }
    }
  }

  lemma StartSound(capacity: nat)
    ensures Sound(Run(capacity, []))
  {
    SoundWhenIdle(Run(capacity, []));
  }

  // ----- A discipline for callers -----

  /**
   A session is provisioned again only after its fragments were dropped, and removed only when no
   restart and no delivery of it is in progress.
   */
  ghost predicate Disciplined(w: World, step: Step) {
    match step
    case ProvisionAtOnce(id, _) => !Fading(w.ops, id)
    case BeginRemove(_, id) => forall t :: t in w.ops && w.ops[t].id == id ==> Removing(w.ops[t])
    case _ => true
  }

  ghost predicate DisciplinedRun(capacity: nat, steps: seq<Step>) {
    steps != [] ==>
      var init := steps[..|steps| - 1];
      Disciplined(Run(capacity, init), steps[|steps| - 1]) && DisciplinedRun(capacity, init)
  }

  /** Then a session somebody works on is live, and one whose fragments are to be dropped is not. */
  ghost predicate OpsOk(w: World) {
    forall t :: t in w.ops ==>
      match w.ops[t]
      case Restarting(id, birth, _) => id in w.r.sessions && birth == Births(w, id)
      case Delivering(id, _) => id in w.r.sessions
      case DroppingFragments(id) => id !in w.r.sessions
      case DroppingRoutes(_) => true
  }

  lemma NextOpsOk(w: World, step: Step)
    requires OpsOk(w) && Disciplined(w, step)
    ensures OpsOk(Next(w, step))
  {
    hide ValidIce, ValidIdentifier, ValidSession, Without, Route;
    if step.ProvisionAtOnce? {
      assert forall t :: t in w.ops && w.ops[t].DroppingFragments? ==> w.ops[t].id != step.id;
    }
  }

  lemma OpsOkIsHarmless(w: World, step: Step)
    requires OpsOk(w)
    ensures Harmless(w, step)
  {
  }

  lemma {:induction false} DisciplinedRunsAreHarmless(capacity: nat, steps: seq<Step>)
    requires DisciplinedRun(capacity, steps)
    ensures OpsOk(Run(capacity, steps)) && AlwaysHarmless(capacity, steps)
  {
    if steps != [] {
      hide OpsOk, Next, Disciplined, Harmless;
      var init, last := steps[..|steps| - 1], steps[|steps| - 1];
      DisciplinedRunsAreHarmless(capacity, init);
      NextOpsOk(Run(capacity, init), last);
      OpsOkIsHarmless(Run(capacity, init), last);
    }
  }

  /**
   Whatever else interleaves, if callers keep that discipline, the registry is consistent whenever no
   call is in progress, and the gauge counts live and leaving sessions always.
   */
  lemma {:induction false} DisciplinedRunsEndConsistent(capacity: nat, steps: seq<Step>)
    requires DisciplinedRun(capacity, steps)
    ensures var w := Run(capacity, steps);
            && (w.ops == map[] ==> Consistent(w.r))
            && w.r.activeSessions == |w.r.sessions| + |Removers(w.ops)|
  {
    DisciplinedRunsAreHarmless(capacity, steps);
    InterleavingsSoundExactlyWhenHarmless(capacity, steps);
    var w := Run(capacity, steps);
    hide Run, DisciplinedRun, AlwaysHarmless, FragmentsOk, RoutesOk, Consistent, OpsOk, Removers;
    if w.ops == map[] { SoundWhenIdle(w); }
  }

  // ----- What goes wrong otherwise, exactly -----

  /**
   A restart that finishes over an otherwise idle, consistent registry leaves it consistent if and
   only if its session is still live as the incarnation it looked up, or came back under the very
   fragment the restart installs.
   */
  lemma LateRestartConsistentExactlyWhenLive(w: World, t: Thread)
    requires Consistent(w.r) && t in w.ops && w.ops[t].Restarting? && ValidIce(w.ops[t].ice)
    requires var u := w.ops[t].ice.local.fragment;
             u in w.r.fragments ==> w.r.fragments[u] == w.ops[t].id
    ensures Consistent(Next(w, FinishRestart(t)).r)
            <==> w.ops[t].id in w.r.sessions
                 && (Births(w, w.ops[t].id) == w.ops[t].birth
                     || w.r.sessions[w.ops[t].id].ice.local.fragment == w.ops[t].ice.local.fragment)
  {
    hide ValidIce;
    var op, r' := w.ops[t], Next(w, FinishRestart(t)).r;
    var u := op.ice.local.fragment;
    assert Addresses(r'.fragments, u, op.id);
    if op.id in w.r.sessions && Births(w, op.id) == op.birth {
      hide Next;
      RestartIsAtomic(w, t);
      RestartKeepsAnyId(w.r, op.id, op.ice);
    } else if Current(w.r.sessions, op.id, u) {
      SameFragmentAgain(w.r, op.id, u);
    } else {
      assert !Current(r'.sessions, op.id, u);
    }
  }

  lemma RestartIsAtomic(w: World, t: Thread)
    requires t in w.ops && w.ops[t].Restarting? && w.ops[t].id in w.r.sessions
    requires Births(w, w.ops[t].id) == w.ops[t].birth
    requires var u := w.ops[t].ice.local.fragment;
             u in w.r.fragments ==> w.r.fragments[u] == w.ops[t].id
    ensures Next(w, FinishRestart(t)).r == Restarted(w.r, w.ops[t].id, w.ops[t].ice)
  {
  }

  lemma SameFragmentAgain(r: Registry, id: SessionId, u: Fragment)
    requires Consistent(r) && Current(r.sessions, id, u)
    ensures Consistent(r.(fragments := Without(r.fragments, id)[u := id], routes := Without(r.routes, id)))
  {
    hide ValidIce;
    var fragments := Without(r.fragments, id)[u := id];
    forall v, other ensures Addresses(fragments, v, other) <==> Current(r.sessions, other, v) {
      assert Addresses(r.fragments, v, other) <==> Current(r.sessions, other, v);
      assert Addresses(r.fragments, u, id);
    }
  }

  /** A nomination that finishes late leaves a consistent registry if and only if its session lives. */
  lemma LateDeliveryConsistentExactlyWhenLive(w: World, t: Thread)
    requires Consistent(w.r) && t in w.ops && w.ops[t].Delivering?
    requires w.ops[t].remote in w.r.routes ==> w.r.routes[w.ops[t].remote] == w.ops[t].id
    ensures Consistent(Next(w, FinishDelivery(t, Accepted(Some(w.ops[t].remote)))).r)
            <==> w.ops[t].id in w.r.sessions
  {
    hide FragmentsMatch, ValidIce;
    var op, r' := w.ops[t], Next(w, FinishDelivery(t, Accepted(Some(w.ops[t].remote)))).r;
    assert op.remote in r'.routes && r'.routes[op.remote] == op.id;
  }

  /**
   Finishing the removal of a session, over a registry in which nothing else is out of place, leaves it
   consistent if and only if the session was not provisioned again before its fragments are dropped.
   */
  lemma {:induction false} LateRemovalConsistentExactlyWhenGone(w: World, t: Thread, id: SessionId)
    requires Sound(w) && w.ops == map[t := DroppingFragments(id)]
    ensures Consistent(Next(Next(w, DropFragments(t)), DropRoutes(t)).r) <==> id !in w.r.sessions
  {
    hide Next, Sound, Consistent, FragmentsOk, Harmless;
    var w1 := Next(w, DropFragments(t));
    var w2 := Next(w1, DropRoutes(t));
    LastParts(w, t, id);
    SoundExactlyWhenHarmless(w, DropFragments(t));
    SoundWhenIdle(w2);
    if id !in w.r.sessions {
      SoundExactlyWhenHarmless(w1, DropRoutes(t));
    } else {
      LateDropBreaksFragments(w, t);
      NothingFades(w1, w2);
    }
  }

  /** The last two parts of the only work in progress. */
  lemma LastParts(w: World, t: Thread, id: SessionId)
    requires w.ops == map[t := DroppingFragments(id)]
    ensures var w1 := Next(w, DropFragments(t));
            var w2 := Next(w1, DropRoutes(t));
            && w1.ops == map[t := DroppingRoutes(id)] && w2.ops == map[]
            && w2.r.fragments == w1.r.fragments && w2.r.sessions == w1.r.sessions == w.r.sessions
            && (Harmless(w, DropFragments(t)) <==> id !in w.r.sessions) && Harmless(w1, DropRoutes(t))
            && (FragmentsHarmless(w, DropFragments(t)) <==> id !in w.r.sessions)
  {
    hide Without;
    assert w.ops - {t} == map[];
    assert !Fading(w.ops - {t}, id);
  }

  /** Where no fragments are being dropped, the fragment rule does not depend on the work in progress. */
  lemma NothingFades(w1: World, w2: World)
    requires (forall t :: t in w1.ops ==> !w1.ops[t].DroppingFragments?) && w2.ops == map[]
    requires w2.r.fragments == w1.r.fragments && w2.r.sessions == w1.r.sessions
    requires !FragmentsOk(w1.r.sessions, w1.r.fragments, w1.ops)
    ensures !Sound(w2)
  {
    assert forall x :: !Fading(w1.ops, x) && !Fading(w2.ops, x);
    hide Fading, RoutesOk, GaugeOk, CredentialsValid, PendingIce;
  }

  /** A whole removal by one thread, its three locks taken one after the other. */
  function RemoveBy(w: World, t: Thread, id: SessionId): World {
    Next(Next(Next(w, BeginRemove(t, id)), DropFragments(t)), DropRoutes(t))
  }

  /** Uninterrupted, the three parts are the atomic removal. */
  lemma UninterruptedRemovalIsAtomic(w: World, t: Thread, id: SessionId)
    requires t !in w.ops && id in w.r.sessions
    ensures RemoveBy(w, t, id) == w.(r := Removed(w.r, id))
  {
    hide Without;
    var w1 := Next(w, BeginRemove(t, id));
    var w2 := Next(w1, DropFragments(t));
    assert w2.ops[t] == DroppingRoutes(id);
    assert w2.ops - {t} == w.ops;
  }

  /** So are the two parts of a restart: the same answer and the same registry. */
  lemma UninterruptedRestartIsAtomic(w: World, t: Thread, id: SessionId, ice: Ice)
    requires t !in w.ops
    ensures Next(Next(w, BeginRestart(t, id, ice)), FinishRestart(t))
            == if CanRestart(w.r, id, ice) then w.(r := Restarted(w.r, id, ice)) else w
  {
    hide Without, ValidIce, ValidIdentifier;
    var w1 := Next(w, BeginRestart(t, id, ice));
    if w1 != w {
      assert w1.ops[t] == Restarting(id, Births(w, id), ice);
      assert w1.ops - {t} == w.ops;
    }
  }

  /** And the two parts of a delivery. */
  lemma UninterruptedDeliveryIsAtomic(w: World, t: Thread, remote: Remote, d: Datagram, v: Verdict)
    requires t !in w.ops
    ensures Next(Next(w, BeginDelivery(t, remote, d)), FinishDelivery(t, v))
            == w.(r := Handled(w.r, remote, d, v).0)
  {
    hide Route;
    var w1 := Next(w, BeginDelivery(t, remote, d));
    if w1 != w {
      assert w1.ops[t] == Delivering(Route(w.r, remote, d).value, remote);
      assert w1.ops - {t} == w.ops;
    }
  }

  lemma {:induction false} RemovedIsGone(r: Registry, id: SessionId)
    requires Consistent(r)
    ensures Consistent(Removed(r, id)) && id !in Removed(r, id).sessions
    ensures forall u :: u in Removed(r, id).fragments ==> u in r.fragments
    ensures forall a :: a in Removed(r, id).routes ==> a in r.routes && r.routes[a] != id
  {
    RemoveKeeps(r, id);
  }

  /** A removal inside a restart always leaves a fragment that addresses no session and stays taken. */
  lemma RemovalDuringRestartBreaks(w: World, t: Thread, other: Thread, id: SessionId, ice: Ice)
    requires Consistent(w.r) && w.ops == map[] && t != other
    requires ValidIdentifier(id) && ValidIce(ice) && id in w.r.sessions
    requires ice.local.fragment !in w.r.fragments
    ensures var w' := Next(RemoveBy(Next(w, BeginRestart(t, id, ice)), other, id), FinishRestart(t));
            w'.ops == map[] && !Consistent(w'.r)
  {
    hide ValidIce, ValidIdentifier, Consistent, Removed, RestartFinished, RemoveBy;
    var w1 := Next(w, BeginRestart(t, id, ice));
    UninterruptedRemovalIsAtomic(w1, other, id);
    RemovedIsGone(w.r, id);
    var w2 := RemoveBy(w1, other, id);
    assert w1.ops - {t} == map[];
    LateRestartConsistentExactlyWhenLive(w2, t);
  }

  /** A removal inside a nomination always leaves a remote routed to no session. */
  lemma RemovalDuringDeliveryBreaks(w: World, t: Thread, other: Thread, remote: Remote, d: Datagram)
    requires Consistent(w.r) && w.ops == map[] && t != other && remote !in w.r.routes
    requires Route(w.r, remote, d).Ok?
    ensures var id := Route(w.r, remote, d).value;
            var w' := Next(RemoveBy(Next(w, BeginDelivery(t, remote, d)), other, id),
                           FinishDelivery(t, Accepted(Some(remote))));
            w'.ops == map[] && !Consistent(w'.r)
  {
    RoutedSessionsAreLive(w.r, remote, d);
    hide Route, Consistent, Removed, DeliveryFinished, RemoveBy;
    var id := Route(w.r, remote, d).value;
    var w1 := Next(w, BeginDelivery(t, remote, d));
    UninterruptedRemovalIsAtomic(w1, other, id);
    RemovedIsGone(w.r, id);
    var w2 := RemoveBy(w1, other, id);
    assert w1.ops - {t} == map[];
    LateDeliveryConsistentExactlyWhenLive(w2, t);
  }

  /** Provisioning an identifier inside its own removal leaves a live session nothing addresses. */
  lemma ProvisionDuringRemovalBreaks(w: World, t: Thread, id: SessionId, again: Session)
    requires w.ops == map[] && id in w.r.sessions && |w.r.sessions| <= w.r.capacity
    requires ValidSession(id, again) && again.ice.local.fragment !in w.r.fragments
    ensures var w' := Next(Next(Next(Next(w, BeginRemove(t, id)), ProvisionAtOnce(id, again)),
                                DropFragments(t)), DropRoutes(t));
            w'.ops == map[] && id in w'.r.sessions && !Consistent(w'.r)
  {
    hide ValidSession;
    RemoveCount(w.r.sessions, id);
    var w1 := Next(w, BeginRemove(t, id));
    var w2 := Next(w1, ProvisionAtOnce(id, again));
    assert CanProvision(w1.r, id, again);
    var w3 := Next(w2, DropFragments(t));
    var w4 := Next(w3, DropRoutes(t));
    assert w4.ops == map[];
    assert Current(w4.r.sessions, id, again.ice.local.fragment);
    assert !Addresses(w4.r.fragments, again.ice.local.fragment, id);
  }
}
