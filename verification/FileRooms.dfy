/**
 Rooms of a file-backed server. Every applied command and every newly remembered side effect raises
 the persistence revision and writes a snapshot, but only commands raise the room's own sequence,
 while loading insists that the two are equal.
 */
module FileRooms {
  import opened Prelude
  import opened RoomDomain
  import opened RoomHistory
  import opened RoomSnapshots
  import opened RoomStore
  import opened RoomReplicas
  import opened SnapshotDirectory
  import opened SnapshotNames

  /** A restart is one of the server process: memory is lost, files stay. */
  datatype Action = RoomAction(attempt: Attempt) | SideEffect(commandId: CommandId) | Restart

  /** What an action makes of the room in memory, whether or not it can be written. */
  function Act(m: ManagedRoom, a: Action): ManagedRoom {
    if m.revision == U64_MAX then m
    else
      match a
      case RoomAction(x) =>
        var (room, outcome) := ExecuteCommand(m.room, x.commandId, x.timestampMillis, x.command);
        if outcome.Ok? && outcome.value.Applied?
        then m.(room := room, revision := m.revision + 1) else m
      case SideEffect(c) =>
        if c in m.sideEffects then m
        else m.(sideEffects := Remember(m.sideEffects, c, SIDE_EFFECT_HISTORY_LIMIT),
                revision := m.revision + 1)
      case Restart => m
  }

  function NewRoom(r: RoomId, mode: RoomMode, policy: RoomPolicy, creation: RoomEvent): ManagedRoom {
    ManagedRoom(Apply(EmptyRoom(r, mode, policy), creation), creation, 1, [])
  }

  /** The file of a state: its stored form, and what that loads as if it loads. */
  function RoomFile(r: RoomId, m: ManagedRoom): Content<PersistedRoom> {
    Stored(PersistedFrom(r, m),
           if ManagedFromPersisted(PersistedFrom(r, m)).Ok? then Some((RoomIdText(r), m.revision)) else None)
  }

  /**
   The room in memory, if there is one, and the files. `written` lists the states whose files were
   created, which no process keeps.
   */
  datatype Server = Server(memory: Option<ManagedRoom>, written: seq<ManagedRoom>,
                           files: Directory<PersistedRoom>)

  function Start(r: RoomId, first: ManagedRoom): Server {
    Server(Some(first), [first], Persisted(map[], RoomIdText(r), first.revision, RoomFile(r, first)))
  }

  /** The files after an attempt to write a state: an existing revision is left as it is. */
  function Saved(r: RoomId, s: Server, m: ManagedRoom): Server {
    if (RoomIdText(r), m.revision) in s.files then s
    else s.(files := Persisted(s.files, RoomIdText(r), m.revision, RoomFile(r, m)),
            written := s.written + [m])
  }

  /** What a starting server finds. */
  ghost function Loaded(r: RoomId, d: Directory<PersistedRoom>): Option<ManagedRoom> {
    if exists revision: nat :: IsLatest(d, RoomIdText(r), revision) then
      var revision: nat :| IsLatest(d, RoomIdText(r), revision);
      match ManagedFromPersisted(d[(RoomIdText(r), revision)].bytes)
      case Ok(m) => Some(m)
      case Err(_) => None
    else None
  }

  /**
   A command that cannot be written is undone; a side effect stays in memory even if its file is
   refused.
   */
  ghost function Next(r: RoomId, s: Server, a: Action): Server {
    if a.Restart? then s.(memory := Loaded(r, s.files))
    else if s.memory.None? || Act(s.memory.value, a).revision == s.memory.value.revision then s
    else
      var m := Act(s.memory.value, a);
      if a.RoomAction? && !Accepts(s.files, RoomIdText(r), m.revision, PersistedFrom(r, m)) then s
      else Saved(r, s, m).(memory := Some(m))
  }

  ghost function RunFrom(r: RoomId, s: Server, actions: seq<Action>): Server {
    if actions == [] then s
    else Next(r, RunFrom(r, s, actions[..|actions| - 1]), actions[|actions| - 1])
  }

  // ----- One state -----

  /** The room is the replay of a legal log, and its revision runs ahead by its side effects. */
  ghost predicate StateOk(r: RoomId, m: ManagedRoom, log: seq<RoomEvent>) {
    && LegalLog(r, m.room.mode, m.room.policy, log) && PolicyAccepted(m.room.policy)
    && m.room == StateAt(r, m.room.mode, m.room.policy, log, |log|) && m.room.sequence == |log|
    && m.creationEvent == log[0] && SideEffectsOk(m.sideEffects)
    && m.room.sequence <= m.revision
    && (m.sideEffects == [] <==> m.revision == m.room.sequence)
  }

  /** A snapshot loads, as the room it was written from, exactly if no side effect was remembered. */
  lemma {:induction false} LoadsExactlyWithoutSideEffects(r: RoomId, m: ManagedRoom, log: seq<RoomEvent>)
    requires StateOk(r, m, log)
    ensures ManagedFromPersisted(PersistedFrom(r, m)).Ok? <==> m.sideEffects == []
    ensures m.sideEffects == [] ==> ManagedFromPersisted(PersistedFrom(r, m)) == Ok(m)
  {
    hide LegalLog, StateAt, Snapshot, RestoreSnapshot, PolicyAccepted;
    if m.sideEffects == [] {
      OpeningEvent(r, m, log);
      StoredRoundTrip(r, m, log);
    } else {
      OpeningEvent(r, m, log);
      ReachableRoomsSurviveSnapshots(r, m.room.mode, m.room.policy, log, |log|);
    }
  }

  lemma OpeningEvent(r: RoomId, m: ManagedRoom, log: seq<RoomEvent>)
    requires StateOk(r, m, log)
    ensures |log| > 0
  {
  }

  // ----- Runs -----

  lemma ApplyFrame(s: RoomState, event: RoomEvent)
    ensures Apply(s, event).mode == s.mode && Apply(s, event).policy == s.policy
            && Apply(s, event).sequence == event.sequence
  {
  }

  lemma {:induction false} ExtendLog(r: RoomId, m: ManagedRoom, log: seq<RoomEvent>, event: RoomEvent)
    requires StateOk(r, m, log) && LegalEvent(m.room, event) && m.revision < U64_MAX
    ensures StateOk(r, m.(room := Apply(m.room, event), revision := m.revision + 1), log + [event])
  {
    OpeningEvent(r, m, log);
    LegalExtend(r, m.room.mode, m.room.policy, log, event);
    StateAtPrefix(r, m.room.mode, m.room.policy, log, log + [event], |log|);
    StateAtNext(r, m.room.mode, m.room.policy, log + [event], |log|);
    ApplyFrame(m.room, event);
    assert event.sequence == m.room.sequence + 1;
    hide LegalLog, StateAt, PolicyAccepted, Apply, LegalEvent, SideEffectsOk;
  }

  lemma SideEffectKeepsState(r: RoomId, m: ManagedRoom, log: seq<RoomEvent>, c: CommandId)
    requires StateOk(r, m, log) && c !in m.sideEffects && m.revision < U64_MAX
    ensures StateOk(r, Act(m, SideEffect(c)), log) && Act(m, SideEffect(c)).sideEffects != []
  {
    hide LegalLog, StateAt, PolicyAccepted;
    RememberKeeps(m.sideEffects, c, SIDE_EFFECT_HISTORY_LIMIT);
  }

  ghost predicate Sane(r: RoomId, m: ManagedRoom) { exists log :: StateOk(r, m, log) }

  lemma {:induction false} ActKeepsSane(r: RoomId, m: ManagedRoom, a: Action)
    requires Sane(r, m)
    ensures Sane(r, Act(m, a)) && m.revision <= Act(m, a).revision <= m.revision + 1
    ensures Act(m, a).revision == m.revision ==> Act(m, a) == m
    ensures m.sideEffects != [] ==> Act(m, a).sideEffects != []
    ensures a.RoomAction? ==> Act(m, a).sideEffects == m.sideEffects
  {
    hide LegalLog, StateAt, PolicyAccepted, Apply, ExecuteCommand, SideEffectsOk, Remember;
    var log :| StateOk(r, m, log);
    hide StateOk;
    if m.revision < U64_MAX {
      match a {
        case RoomAction(x) =>
          ExecuteAppliesOneLegalEvent(m.room, x);
          var (room, outcome) := ExecuteCommand(m.room, x.commandId, x.timestampMillis, x.command);
          if outcome.Ok? && outcome.value.Applied? {
            ExtendLog(r, m, log, outcome.value.event);
          }
        case SideEffect(c) =>
          if c !in m.sideEffects { SideEffectKeepsState(r, m, log, c); }
        case Restart =>
      }
    }
  }

  /** The second state is the first with one side effect remembered, its first. */
  ghost predicate FirstEffect(m: ManagedRoom, m': ManagedRoom) {
    |m'.sideEffects| == 1 && m'.revision == m.revision + 1
    && m' == m.(sideEffects := m'.sideEffects, revision := m'.revision)
  }

  /** Revisions rise, and once a side effect is remembered there always is one. */
  ghost predicate HistoryOk(r: RoomId, h: seq<ManagedRoom>) {
    && (forall i :: 0 <= i < |h| ==> Sane(r, h[i]) && h[i].revision > 0)
    && (forall i, j :: 0 <= i < j < |h| ==>
          h[i].revision < h[j].revision && (h[i].sideEffects != [] ==> h[j].sideEffects != []))
  }

  lemma NewRoomSane(r: RoomId, mode: RoomMode, policy: RoomPolicy, creation: RoomEvent)
    requires creation.sequence == 1 && creation.kind.Created? && creation.kind.mode == mode
    requires PolicyAccepted(policy)
    ensures Sane(r, NewRoom(r, mode, policy, creation))
  {
    var log := [creation];
    StateAtNext(r, mode, policy, log, 0);
    assert log[..0] == [];
    ApplyFrame(EmptyRoom(r, mode, policy), creation);
    assert LegalLog(r, mode, policy, log);
    assert StateAt(r, mode, policy, log, 0) == EmptyRoom(r, mode, policy);
    hide LegalLog, StateAt, PolicyAccepted, Apply;
    assert StateOk(r, NewRoom(r, mode, policy, creation), log);
  }

  // ----- The files -----

  function Files(r: RoomId, h: seq<ManagedRoom>): seq<(nat, Content<PersistedRoom>)> {
    seq(|h|, i requires 0 <= i < |h| => (h[i].revision, RoomFile(r, h[i])))
  }

  ghost predicate FilesMatch(r: RoomId, d: Directory<PersistedRoom>, h: seq<ManagedRoom>) {
    HoldsLastTwo(d, RoomIdText(r), Files(r, h))
  }

  lemma FileLoadsExactly(r: RoomId, m: ManagedRoom)
    requires Sane(r, m)
    ensures RoomFile(r, m)
            == Stored(PersistedFrom(r, m), if m.sideEffects == [] then Some((RoomIdText(r), m.revision)) else None)
    ensures m.sideEffects == [] ==> ManagedFromPersisted(PersistedFrom(r, m)) == Ok(m)
  {
    var log :| StateOk(r, m, log);
    LoadsExactlyWithoutSideEffects(r, m, log);
    hide StateOk, ManagedFromPersisted, PersistedFrom, RoomIdText;
  }

  lemma FileOf(r: RoomId, d: Directory<PersistedRoom>, h: seq<ManagedRoom>, i: nat)
    requires FilesMatch(r, d, h) && HistoryOk(r, h) && i < |h| && i >= |h| - 2
    ensures (RoomIdText(r), h[i].revision) in d && d[(RoomIdText(r), h[i].revision)] == RoomFile(r, h[i])
    ensures Loads(d, RoomIdText(r), h[i].revision) <==> h[i].sideEffects == []
  {
    hide RoomFile, RoomIdText, Sane;
    assert Files(r, h)[i] == (h[i].revision, RoomFile(r, h[i]));
    FileLoadsExactly(r, h[i]);
  }

  lemma NoOtherFiles(r: RoomId, d: Directory<PersistedRoom>, h: seq<ManagedRoom>, revision: nat)
    requires FilesMatch(r, d, h) && HistoryOk(r, h) && h != [] && (RoomIdText(r), revision) in d
    ensures revision == h[|h| - 1].revision || (|h| >= 2 && revision == h[|h| - 2].revision)
  {
    hide RoomFile, RoomIdText, Sane;
    var files := Files(r, h);
    var i :| 0 <= i < |files| && i >= |files| - 2 && files[i].0 == revision;
    assert h[i].revision == revision;
  }

  lemma LoadedFileExists<B>(d: Directory<B>, id: string, revision: nat)
    ensures Loads(d, id, revision) ==> (id, revision) in d
  {
  }

  /** Among the last two files, the ones that load are those written before any side effect. */
  lemma LoadableFiles(r: RoomId, d: Directory<PersistedRoom>, h: seq<ManagedRoom>, revision: nat)
    requires FilesMatch(r, d, h) && HistoryOk(r, h) && h != []
    ensures var n := |h|;
            Loads(d, RoomIdText(r), revision)
            <==> (revision == h[n - 1].revision && h[n - 1].sideEffects == [])
                 || (n >= 2 && revision == h[n - 2].revision && h[n - 2].sideEffects == [])
  {
    hide *;
    var n := |h|;
    FileOf(r, d, h, n - 1);
    if n >= 2 { FileOf(r, d, h, n - 2); }
    LoadedFileExists(d, RoomIdText(r), revision);
    if (RoomIdText(r), revision) in d { NoOtherFiles(r, d, h, revision); }
  }

  lemma LastTwoStates(r: RoomId, h: seq<ManagedRoom>)
    requires HistoryOk(r, h) && |h| > 0
    ensures |h| >= 2 ==> h[|h| - 2].revision < h[|h| - 1].revision
                         && (h[|h| - 1].sideEffects == [] ==> h[|h| - 2].sideEffects == [])
  {
    hide Sane;
  }

  /** Which of an older and a newer file is found, given which of them load. */
  lemma OneOrTwoFiles<B>(d: Directory<B>, id: string, newer: nat, newerLoads: bool, older: Option<nat>,
                         olderLoads: bool)
    requires older.Some? ==> older.value < newer
    requires if older.None? then !olderLoads else newerLoads ==> olderLoads
    requires forall r: nat :: Loads(d, id, r)
               <==> (r == newer && newerLoads) || (older == Some(r) && olderLoads)
    ensures IsLatest(d, id, newer) <==> newerLoads
    ensures NothingLoads(d, id) <==> !newerLoads && !olderLoads
    ensures !newerLoads && olderLoads ==> IsLatest(d, id, older.value)
  {
  }

  /** A directory that matches the history shows its last state, or the one before, or nothing. */
  lemma FoundInFiles(r: RoomId, d: Directory<PersistedRoom>, h: seq<ManagedRoom>)
    requires FilesMatch(r, d, h) && HistoryOk(r, h) && h != []
    ensures var n := |h|;
            && (IsLatest(d, RoomIdText(r), h[n - 1].revision) <==> h[n - 1].sideEffects == [])
            && (h[n - 1].sideEffects != [] && n >= 2 && h[n - 2].sideEffects == [] ==>
                  IsLatest(d, RoomIdText(r), h[n - 2].revision))
            && (NothingLoads(d, RoomIdText(r)) <==>
                  h[n - 1].sideEffects != [] && (n == 1 || h[n - 2].sideEffects != []))
  {
    hide *;
    var id, n := RoomIdText(r), |h|;
    LastTwoStates(r, h);
    forall revision: nat
      ensures Loads(d, id, revision)
              <==> (revision == h[n - 1].revision && h[n - 1].sideEffects == [])
                   || (n >= 2 && revision == h[n - 2].revision && h[n - 2].sideEffects == [])
    {
      LoadableFiles(r, d, h, revision);
    }
    OneOrTwoFiles(d, id, h[n - 1].revision, h[n - 1].sideEffects == [],
                  if n >= 2 then Some(h[n - 2].revision) else None,
                  n >= 2 && h[n - 2].sideEffects == []);
  }

  // ----- Every run -----

  /** Memory goes on from the last file, or was loaded from the file before it. */
  ghost predicate UpToDate(m: ManagedRoom, h: seq<ManagedRoom>)
    requires h != []
  {
    var last := h[|h| - 1];
    m.revision == last.revision && (if m.sideEffects == [] then m == last else last.sideEffects != [])
  }

  ghost predicate FellBack(m: ManagedRoom, h: seq<ManagedRoom>) {
    |h| >= 2 && m == h[|h| - 2] && m.sideEffects == [] && FirstEffect(m, h[|h| - 1])
  }

  ghost predicate ServerOk(r: RoomId, s: Server) {
    && s.written != [] && s.written[0].sideEffects == [] && HistoryOk(r, s.written)
    && FilesMatch(r, s.files, s.written)
    && (|s.written| >= 2 ==>
          var (a, b) := (s.written[|s.written| - 2], s.written[|s.written| - 1]);
          a.sideEffects == [] && b.sideEffects != [] ==> FirstEffect(a, b))
    && (s.memory.Some? ==>
          Sane(r, s.memory.value)
          && (UpToDate(s.memory.value, s.written) || FellBack(s.memory.value, s.written)))
  }

  lemma ExtendHistory(r: RoomId, h: seq<ManagedRoom>, m: ManagedRoom)
    requires HistoryOk(r, h) && h != [] && Sane(r, m) && m.revision == h[|h| - 1].revision + 1
    requires h[|h| - 1].sideEffects != [] ==> m.sideEffects != []
    ensures HistoryOk(r, h + [m])
  {
    hide Sane;
  }

  lemma ExtendFiles(r: RoomId, d: Directory<PersistedRoom>, h: seq<ManagedRoom>, m: ManagedRoom)
    requires FilesMatch(r, d, h) && HistoryOk(r, h) && h != [] && m.revision > h[|h| - 1].revision
    ensures FilesMatch(r, Persisted(d, RoomIdText(r), m.revision, RoomFile(r, m)), h + [m])
    ensures (RoomIdText(r), m.revision) !in d
  {
    hide RoomFile, RoomIdText, Sane, HoldsLastTwo, Persisted;
    if (RoomIdText(r), m.revision) in d { NoOtherFiles(r, d, h, m.revision); }
    assert Files(r, h + [m]) == Files(r, h) + [(m.revision, RoomFile(r, m))];
    PersistKeepsLastTwo(d, RoomIdText(r), Files(r, h), m.revision, RoomFile(r, m));
  }

  lemma FirstEffectOf(m: ManagedRoom, a: Action)
    requires m.sideEffects == [] && Act(m, a).sideEffects != []
    ensures FirstEffect(m, Act(m, a))
  {
    hide ExecuteCommand;
  }

  /** From an up-to-date memory every change is written. */
  lemma {:induction false} UpToDateStep(r: RoomId, s: Server, a: Action)
    requires ServerOk(r, s) && s.memory.Some? && UpToDate(s.memory.value, s.written)
    requires !a.Restart? && Act(s.memory.value, a).revision != s.memory.value.revision
    ensures ServerOk(r, Next(r, s, a))
    ensures Next(r, s, a).written == s.written + [Act(s.memory.value, a)]
    ensures Next(r, s, a).memory == Some(Act(s.memory.value, a))
    ensures (RoomIdText(r), s.memory.value.revision + 1) !in s.files
  {
    hide Act, Sane, HistoryOk, FilesMatch, RoomFile, RoomIdText, Persisted, PersistedFrom, FirstEffect;
    var m, m' := s.memory.value, Act(s.memory.value, a);
    ActKeepsSane(r, m, a);
    ExtendHistory(r, s.written, m');
    ExtendFiles(r, s.files, s.written, m');
    if m.sideEffects == [] && m'.sideEffects != [] { FirstEffectOf(m, a); }
  }

  /** After a fallback the next revision is taken: commands are refused and nothing new is written. */
  lemma {:induction false} FellBackStep(r: RoomId, s: Server, a: Action)
    requires ServerOk(r, s) && s.memory.Some? && FellBack(s.memory.value, s.written)
    requires !a.Restart? && Act(s.memory.value, a).revision != s.memory.value.revision
    ensures ServerOk(r, Next(r, s, a)) && Next(r, s, a).written == s.written && Next(r, s, a).files == s.files
    ensures a.RoomAction? ==> Next(r, s, a) == s
    ensures a.SideEffect? ==> Next(r, s, a).memory == Some(Act(s.memory.value, a))
                              && UpToDate(Act(s.memory.value, a), s.written)
    ensures (RoomIdText(r), s.memory.value.revision + 1) in s.files
  {
    hide Act, Sane, HistoryOk, FilesMatch, RoomIdText, RoomFile, PersistedFrom, Loads, Persisted, Accepts;
    var m, last := s.memory.value, s.written[|s.written| - 1];
    ActKeepsSane(r, m, a);
    FileOf(r, s.files, s.written, |s.written| - 1);
    AcceptedOverFile(r, s.files, last, Act(m, a));
    if a.SideEffect? {
      SideEffectIsKept(m, a.commandId);
    } else {
      StoredEffectsDiffer(r, last, Act(m, a));
    }
  }

  lemma AcceptedOverFile(r: RoomId, d: Directory<PersistedRoom>, last: ManagedRoom, m: ManagedRoom)
    requires (RoomIdText(r), last.revision) in d && d[(RoomIdText(r), last.revision)] == RoomFile(r, last)
    requires m.revision == last.revision
    ensures Accepts(d, RoomIdText(r), m.revision, PersistedFrom(r, m))
            <==> PersistedFrom(r, m) == PersistedFrom(r, last)
  {
    hide PersistedFrom, ManagedFromPersisted, RoomIdText;
  }

  lemma StoredEffectsDiffer(r: RoomId, a: ManagedRoom, b: ManagedRoom)
    requires a.sideEffects != b.sideEffects
    ensures PersistedFrom(r, a) != PersistedFrom(r, b)
  {
    hide Snapshot;
  }

  lemma SideEffectIsKept(m: ManagedRoom, c: CommandId)
    requires Act(m, SideEffect(c)).revision != m.revision
    ensures Act(m, SideEffect(c)).sideEffects != []
  {
  }

  /** A restart finds the last state, or falls back by one, or finds nothing. */
  lemma {:induction false} RestartStep(r: RoomId, s: Server)
    requires ServerOk(r, s)
    ensures ServerOk(r, Next(r, s, Restart))
    ensures var h, memory := s.written, Next(r, s, Restart).memory;
            && (h[|h| - 1].sideEffects == [] ==> memory == Some(h[|h| - 1]))
            && (h[|h| - 1].sideEffects != [] && |h| >= 2 && h[|h| - 2].sideEffects == [] ==>
                  memory == Some(h[|h| - 2]) && FellBack(h[|h| - 2], h))
            && (h[|h| - 1].sideEffects != [] && (|h| == 1 || h[|h| - 2].sideEffects != []) ==> memory.None?)
  {
    hide Sane, HistoryOk, FilesMatch, RoomFile, RoomIdText, FirstEffect, Loads, Loaded, IsLatest, NothingLoads;
    var h, n := s.written, |s.written|;
    FoundInFiles(r, s.files, h);
    HistorySane(r, h);
    if h[n - 1].sideEffects == [] {
      FileOf(r, s.files, h, n - 1);
      LoadedIs(r, s.files, h[n - 1]);
    } else if n >= 2 && h[n - 2].sideEffects == [] {
      FileOf(r, s.files, h, n - 2);
      LoadedIs(r, s.files, h[n - 2]);
    } else {
      LoadedNothing(r, s.files);
    }
  }

  lemma LoadedNothing(r: RoomId, d: Directory<PersistedRoom>)
    requires NothingLoads(d, RoomIdText(r))
    ensures Loaded(r, d).None?
  {
    hide RoomIdText;
  }

  lemma HistorySane(r: RoomId, h: seq<ManagedRoom>)
    requires HistoryOk(r, h)
    ensures forall i :: 0 <= i < |h| ==> Sane(r, h[i])
  {
  }

  lemma LoadedIs(r: RoomId, d: Directory<PersistedRoom>, m: ManagedRoom)
    requires Sane(r, m) && m.sideEffects == [] && IsLatest(d, RoomIdText(r), m.revision)
    requires d[(RoomIdText(r), m.revision)] == RoomFile(r, m)
    ensures Loaded(r, d) == Some(m)
  {
    FileLoadsExactly(r, m);
    hide Sane, RoomIdText, ManagedFromPersisted, PersistedFrom;
  }

  lemma {:induction false} NextOk(r: RoomId, s: Server, a: Action)
    requires ServerOk(r, s)
    ensures ServerOk(r, Next(r, s, a))
  {
    hide UpToDate, FellBack, Act, Sane, HistoryOk, FilesMatch, Saved, Loaded, Accepts;
    if a.Restart? {
      RestartStep(r, s);
    } else if s.memory.Some? && Act(s.memory.value, a).revision != s.memory.value.revision {
      if UpToDate(s.memory.value, s.written) { UpToDateStep(r, s, a); } else { FellBackStep(r, s, a); }
    }
  }

  lemma {:induction false} RunOk(r: RoomId, s: Server, actions: seq<Action>)
    requires ServerOk(r, s)
    ensures ServerOk(r, RunFrom(r, s, actions))
  {
    hide ServerOk, Next;
    if actions != [] {
      RunOk(r, s, actions[..|actions| - 1]);
      NextOk(r, RunFrom(r, s, actions[..|actions| - 1]), actions[|actions| - 1]);
    }
  }

  lemma StartOk(r: RoomId, mode: RoomMode, policy: RoomPolicy, creation: RoomEvent)
    requires creation.sequence == 1 && creation.kind.Created? && creation.kind.mode == mode
    requires PolicyAccepted(policy)
    ensures ServerOk(r, Start(r, NewRoom(r, mode, policy, creation)))
  {
    hide Sane, RoomFile, RoomIdText, Persisted, HoldsLastTwo, Apply, PolicyAccepted;
    NewRoomSane(r, mode, policy, creation);
    var first := NewRoom(r, mode, policy, creation);
    var none: Directory<PersistedRoom> := map[];
    HoldsNothing(none, RoomIdText(r));
    PersistKeepsLastTwo(none, RoomIdText(r), [], first.revision, RoomFile(r, first));
    assert Files(r, [first]) == [] + [(first.revision, RoomFile(r, first))];
  }

  lemma HoldsNothing<B>(d: Directory<B>, id: string)
    requires d == map[]
    ensures HoldsLastTwo(d, id, [])
  {
  }

  // ----- When the room is lost -----

  /** A write while memory holds a side effect. */
  ghost predicate WritesOverEffect(s: Server, a: Action) {
    !a.Restart? && s.memory.Some? && s.memory.value.sideEffects != []
    && Act(s.memory.value, a).revision != s.memory.value.revision
  }

  ghost predicate WroteOverEffect(r: RoomId, s: Server, actions: seq<Action>) {
    actions != [] &&
    var init := actions[..|actions| - 1];
    WroteOverEffect(r, s, init) || WritesOverEffect(RunFrom(r, s, init), actions[|actions| - 1])
  }

  /** Both remaining files hold side effects. */
  ghost predicate Lost(h: seq<ManagedRoom>) { |h| >= 2 && h[|h| - 2].sideEffects != [] }

  lemma LostAfterWrite(r: RoomId, h: seq<ManagedRoom>, m: ManagedRoom, m': ManagedRoom)
    requires HistoryOk(r, h) && h != [] && UpToDate(m, h)
    ensures Lost(h + [m']) <==> Lost(h) || m.sideEffects != []
  {
    hide HistoryOk, Sane;
    LastTwoStates(r, h);
    assert (h + [m'])[|h| - 1] == h[|h| - 1];
  }

  lemma {:induction false} NextLost(r: RoomId, s: Server, a: Action)
    requires ServerOk(r, s)
    ensures Lost(Next(r, s, a).written) <==> Lost(s.written) || WritesOverEffect(s, a)
  {
    hide Act, Sane, HistoryOk, FilesMatch, Saved, Loaded, Accepts, Lost, UpToDate, FirstEffect, PersistedFrom,
      RoomIdText;
    if !a.Restart? && s.memory.Some? && Act(s.memory.value, a).revision != s.memory.value.revision {
      if UpToDate(s.memory.value, s.written) {
        UpToDateStep(r, s, a);
        LostAfterWrite(r, s.written, s.memory.value, Act(s.memory.value, a));
      } else {
        FellBackStep(r, s, a);
      }
    }
  }

  lemma {:induction false} RunLost(r: RoomId, s: Server, actions: seq<Action>)
    requires ServerOk(r, s) && !Lost(s.written)
    ensures Lost(RunFrom(r, s, actions).written) <==> WroteOverEffect(r, s, actions)
  {
    hide ServerOk, Next, Lost, WritesOverEffect;
    if actions != [] {
      var init := actions[..|actions| - 1];
      RunLost(r, s, init);
      RunOk(r, s, init);
      NextLost(r, RunFrom(r, s, init), actions[|actions| - 1]);
    }
  }

  lemma LostExactlyWhenNothingLoads(r: RoomId, s: Server)
    requires ServerOk(r, s)
    ensures NothingLoads(s.files, RoomIdText(r)) <==> Lost(s.written)
    ensures Next(r, s, Restart).memory.None? <==> Lost(s.written)
  {
    hide HistoryOk, FilesMatch, Next, NothingLoads, IsLatest, FellBack, UpToDate, Sane, FirstEffect, RoomIdText;
    FoundInFiles(r, s.files, s.written);
    RestartStep(r, s);
    LastTwoStates(r, s.written);
  }

  /**
   Over every run of a file-backed room, restarts included: a starting server finds no room at all, if
   and only if something was written while the room in memory held a side effect.
   */
  lemma {:induction false} RestartLosesTheRoomExactlyAfterASideEffect(
    r: RoomId, mode: RoomMode, policy: RoomPolicy, creation: RoomEvent, actions: seq<Action>)
    requires creation.sequence == 1 && creation.kind.Created? && creation.kind.mode == mode
    requires PolicyAccepted(policy)
    ensures var start := Start(r, NewRoom(r, mode, policy, creation));
            var s := RunFrom(r, start, actions);
            && (NothingLoads(s.files, RoomIdText(r)) <==> WroteOverEffect(r, start, actions))
            && (Next(r, s, Restart).memory.None? <==> WroteOverEffect(r, start, actions))
  {
    var start := Start(r, NewRoom(r, mode, policy, creation));
    StartOk(r, mode, policy, creation);
    assert !Lost(start.written);
    hide *;
    RunOk(r, start, actions);
    RunLost(r, start, actions);
    LostExactlyWhenNothingLoads(r, RunFrom(r, start, actions));
  }

  // ----- Without side effects -----

  /** The room after the same commands in a process that never restarts and never fails to write. */
  function Executed(room: RoomState, actions: seq<Action>): RoomState {
    if actions == [] then room
    else
      var before, last := Executed(room, actions[..|actions| - 1]), actions[|actions| - 1];
      match last
      case RoomAction(x) => ExecuteCommand(before, x.commandId, x.timestampMillis, x.command).0
      case SideEffect(_) => before
      case Restart => before
  }

  ghost predicate Lossless(r: RoomId, s: Server, room: RoomState, bound: nat) {
    && ServerOk(r, s) && s.memory.Some? && UpToDate(s.memory.value, s.written)
    && s.memory.value.sideEffects == [] && s.memory.value.room == room && s.memory.value.revision <= bound
  }

  lemma ActExecutes(m: ManagedRoom, x: Attempt)
    requires m.revision < U64_MAX
    ensures Act(m, RoomAction(x)).room == ExecuteCommand(m.room, x.commandId, x.timestampMillis, x.command).0
    ensures Act(m, RoomAction(x)).revision <= m.revision + 1
    ensures Act(m, RoomAction(x)).sideEffects == m.sideEffects
    ensures Act(m, RoomAction(x)).revision == m.revision ==> Act(m, RoomAction(x)) == m
  {
    ExecuteAppliesOneLegalEvent(m.room, x);
    hide Apply, ExecuteCommand, LegalEvent;
  }

  lemma {:induction false} LosslessStep(r: RoomId, s: Server, a: Action, room: RoomState, bound: nat)
    requires Lossless(r, s, room, bound) && !a.SideEffect? && bound < U64_MAX
    ensures Lossless(r, Next(r, s, a),
                     if a.Restart? then room
                     else ExecuteCommand(room, a.attempt.commandId, a.attempt.timestampMillis,
                                         a.attempt.command).0, bound + 1)
  {
    hide Act, ExecuteCommand, Sane, HistoryOk, FilesMatch, FirstEffect, Saved, Loaded, Accepts;
    if a.Restart? {
      RestartStep(r, s);
    } else {
      ActExecutes(s.memory.value, a.attempt);
      if Act(s.memory.value, a).revision != s.memory.value.revision {
        UpToDateStep(r, s, a);
        hide Next;
      }
    }
  }

  /**
   Without side effects a file-backed server loses nothing: however often it restarts, its room is the
   one that executed all the commands.
   */
  lemma {:induction false} QuietRunsLoseNothing(
    r: RoomId, mode: RoomMode, policy: RoomPolicy, creation: RoomEvent, actions: seq<Action>)
    requires creation.sequence == 1 && creation.kind.Created? && creation.kind.mode == mode
    requires PolicyAccepted(policy) && |actions| < U64_MAX
    requires forall i :: 0 <= i < |actions| ==> !actions[i].SideEffect?
    ensures var first := NewRoom(r, mode, policy, creation);
            Lossless(r, RunFrom(r, Start(r, first), actions), Executed(first.room, actions), |actions| + 1)
  {
    hide ServerOk, Next, ExecuteCommand, Apply, PolicyAccepted, Lossless, Start;
    var first := NewRoom(r, mode, policy, creation);
    if actions == [] {
      StartOk(r, mode, policy, creation);
      StartLossless(r, first);
    } else {
      var n := |actions| - 1;
      QuietRunsLoseNothing(r, mode, policy, creation, actions[..n]);
      LosslessStep(r, RunFrom(r, Start(r, first), actions[..n]), actions[n],
                   Executed(first.room, actions[..n]), n + 1);
    }
  }

  lemma StartLossless(r: RoomId, first: ManagedRoom)
    requires ServerOk(r, Start(r, first)) && first.sideEffects == [] && first.revision == 1
    ensures Lossless(r, Start(r, first), first.room, 1)
  {
    hide ServerOk, RoomFile, Persisted, RoomIdText;
  }

  // ----- When the room can be written -----

  /**
   In every reachable server a command that the room accepts is refused, without any change, if and
   only if there is a file for the next revision already.
   */
  lemma {:induction false} CommandsRefusedExactlyWhenTheRevisionIsTaken(
    r: RoomId, mode: RoomMode, policy: RoomPolicy, creation: RoomEvent, actions: seq<Action>, x: Attempt)
    requires creation.sequence == 1 && creation.kind.Created? && creation.kind.mode == mode
    requires PolicyAccepted(policy)
    ensures var s := RunFrom(r, Start(r, NewRoom(r, mode, policy, creation)), actions);
            s.memory.Some? && Act(s.memory.value, RoomAction(x)).revision != s.memory.value.revision ==>
              (Next(r, s, RoomAction(x)) == s <==> (RoomIdText(r), s.memory.value.revision + 1) in s.files)
  {
    hide *;
    StartOk(r, mode, policy, creation);
    RunOk(r, Start(r, NewRoom(r, mode, policy, creation)), actions);
    var s := RunFrom(r, Start(r, NewRoom(r, mode, policy, creation)), actions);
    if s.memory.Some? && Act(s.memory.value, RoomAction(x)).revision != s.memory.value.revision {
      Position(r, s);
      if UpToDate(s.memory.value, s.written) {
        UpToDateStep(r, s, RoomAction(x));
      } else {
        FellBackStep(r, s, RoomAction(x));
      }
    }
  }

  lemma Position(r: RoomId, s: Server)
    requires ServerOk(r, s) && s.memory.Some?
    ensures s.written != [] && (UpToDate(s.memory.value, s.written) || FellBack(s.memory.value, s.written))
  {
    hide UpToDate, FellBack, HistoryOk, FilesMatch, Sane;
  }

  /** After a fallback, commands and further restarts leave everything as it is, for ever. */
  lemma {:induction false} FrozenUntilASideEffect(r: RoomId, s: Server, actions: seq<Action>)
    requires ServerOk(r, s) && s.memory.Some? && FellBack(s.memory.value, s.written)
    requires forall i :: 0 <= i < |actions| ==> !actions[i].SideEffect?
    ensures RunFrom(r, s, actions) == s
  {
    if actions != [] {
      hide ServerOk, FellBack, Act, Saved, Loaded, Accepts;
      FrozenUntilASideEffect(r, s, actions[..|actions| - 1]);
      FrozenStep(r, s, actions[|actions| - 1]);
    }
  }

  lemma {:induction false} FrozenStep(r: RoomId, s: Server, a: Action)
    requires ServerOk(r, s) && s.memory.Some? && FellBack(s.memory.value, s.written) && !a.SideEffect?
    ensures Next(r, s, a) == s
  {
    hide Act, Sane, HistoryOk, FilesMatch, Saved, Loaded, Accepts;
    if a.Restart? {
      RestartStep(r, s);
      hide ServerOk;
    } else if Act(s.memory.value, a).revision != s.memory.value.revision {
      FellBackStep(r, s, a);
      hide Next, ServerOk;
    }
  }

  /** There, a side effect is written exactly if it is the one the file holds already. */
  lemma {:induction false} OnlyTheSameEffectIsAccepted(r: RoomId, s: Server, c: CommandId)
    requires ServerOk(r, s) && s.memory.Some? && FellBack(s.memory.value, s.written)
    requires s.memory.value.revision < U64_MAX
    ensures var m := Act(s.memory.value, SideEffect(c));
            Accepts(s.files, RoomIdText(r), m.revision, PersistedFrom(r, m))
            <==> s.written[|s.written| - 1].sideEffects == [c]
  {
    hide Act, Sane, HistoryOk, FilesMatch, RoomIdText, RoomFile, PersistedFrom, Loads, Accepts;
    var m, last := s.memory.value, s.written[|s.written| - 1];
    FileOf(r, s.files, s.written, |s.written| - 1);
    OneEffect(m, c);
    AcceptedOverFile(r, s.files, last, Act(m, SideEffect(c)));
    if last.sideEffects != [c] { StoredEffectsDiffer(r, last, Act(m, SideEffect(c))); }
  }

  lemma OneEffect(m: ManagedRoom, c: CommandId)
    requires m.sideEffects == [] && m.revision < U64_MAX
    ensures Act(m, SideEffect(c)) == m.(sideEffects := [c], revision := m.revision + 1)
  {
  }
}
