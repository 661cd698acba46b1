/**
 What the control store answers a writer, in every reachable system: whether a command is reported as
 done, as a conflict to retry, or as an error is a function of the stored logs alone.
 */
module RoomAnswers {
  import opened Prelude
  import opened RoomDomain
  import opened RoomHistory
  import opened RoomSnapshots
  import opened RoomStore
  import opened RoomReplicas

  /** The command occurs in the stored log of the room. */
  ghost predicate Stored(t: Tables, r: RoomId, commandId: CommandId)
    requires Contiguous(t, r)
  {
    exists i :: 0 <= i < |Log(t, r)| && Log(t, r)[i].commandId == commandId
  }

  /** Some stored event of any room records a gift of this transaction. */
  ghost predicate Paid(t: Tables, transactionId: string) {
    exists key :: key in t.events && t.events[key].kind.GiftRecorded?
                  && t.events[key].kind.receipt.transactionId == transactionId
  }

  lemma StoredExactlyWhenEventExists(t: Tables, r: RoomId, commandId: CommandId)
    requires Contiguous(t, r)
    ensures EventExists(t, r, commandId) <==> Stored(t, r, commandId)
  {
    if EventExists(t, r, commandId) {
      var key :| key in t.events && key.0 == r && t.events[key].commandId == commandId;
      assert key == (r, key.1);
      assert Log(t, r)[key.1 - 1] == t.events[key];
    }
    if Stored(t, r, commandId) {
      var i :| 0 <= i < |Log(t, r)| && Log(t, r)[i].commandId == commandId;
      assert (r, i + 1) in t.events && t.events[(r, i + 1)] == Log(t, r)[i];
    }
  }

  lemma PaidExactlyWhenInLedger(t: Tables, transactionId: string)
    requires LedgerOk(t)
    ensures Paid(t, transactionId) <==> transactionId in t.ledger
  {
    if transactionId in t.ledger {
      var g := t.ledger[transactionId];
      assert (g.roomId, g.eventSequence) in t.events;
    }
  }

  // ----- Appending -----

  /** Signed columns: the next revision and sequence have to fit. */
  predicate NumbersFit(c: Candidate) { c.expected < I64_MAX }

  /** A gift fits the ledger's columns, and no gift of its transaction is stored yet. */
  ghost predicate GiftStorable(t: Tables, kind: RoomEventKind) {
    kind.GiftRecorded? ==>
      kind.receipt.quantity <= I32_MAX && kind.receipt.unitValue <= I64_MAX
      && !Paid(t, kind.receipt.transactionId)
  }

  lemma DecidedGiftIsValid(s: RoomState, event: RoomEvent, r: RoomId)
    requires LegalEvent(s, event) && event.kind.GiftRecorded?
    ensures LedgerWrite(r, event).Some? && ValidGift(LedgerWrite(r, event).value)
  {
    hide Decide, ValidReceipt;
    var command :| Decide(s, command) == Ok(event.kind);
    AcceptedExactlyWhenAuthorized(s, command);
  }

  /** What a candidate of a reachable system looks like. */
  lemma CandidateFacts(t: Tables, c: Candidate)
    requires TablesOk(t) && CandidateOk(t, c)
    ensures 1 <= c.expected <= |Log(t, c.roomId)| <= I64_MAX
    ensures |Log(t, c.roomId)| == t.rooms[c.roomId].revision
    ensures c.managed.revision == c.event.sequence == c.expected + 1
    ensures c.event.kind.GiftRecorded? ==> ValidGift(LedgerWrite(c.roomId, c.event).value)
  {
    hide LegalLog, StateAt, PolicyAccepted, LegalEvent, Apply, ValidGift, LedgerOk, OutboxOk, RoomInvariant;
    var r := c.roomId;
    assert RoomOk(t, r);
    var base :| CacheOk(t, r, base) && base.revision == c.expected && LegalEvent(base.room, c.event)
                && c.managed == base.(room := Apply(base.room, c.event), revision := c.expected + 1);
    EveryRoomIsSound(r, base.room.mode, base.room.policy, Log(t, r), base.revision);
    EventFollows(base.room, c.event);
    if c.event.kind.GiftRecorded? { DecidedGiftIsValid(base.room, c.event, r); }
  }

  lemma EventFollows(s: RoomState, event: RoomEvent)
    requires LegalEvent(s, event)
    ensures event.sequence == s.sequence + 1
  {
  }

  lemma NoLedgerRowAhead(t: Tables, r: RoomId, sequence: u64)
    requires LedgerOk(t) && Contiguous(t, r) && sequence > t.rooms[r].revision
    ensures !(exists id | id in t.ledger :: t.ledger[id].roomId == r && t.ledger[id].eventSequence == sequence)
    ensures (r, sequence) !in t.events
  {
  }

  /** The answer to an append, by whether its command is stored, the log has grown and its gift fits. */
  ghost predicate AnswersAppend(t: Tables, c: Candidate, done: bool, answer: Result<AppendOutcome, StoreError>)
    requires c.roomId in t.rooms
  {
    var length := t.rooms[c.roomId].revision;
    && (answer == Ok(AppendDuplicate(t.rooms[c.roomId])) <==> NumbersFit(c) && done)
    && (answer == Ok(RevisionConflict(length)) <==> NumbersFit(c) && !done && length != c.expected)
    && (answer == Ok(AppendApplied) <==>
          NumbersFit(c) && !done && length == c.expected && GiftStorable(t, c.event.kind))
    && (answer.Ok? <==>
          NumbersFit(c) && (done || length != c.expected || GiftStorable(t, c.event.kind)))
    && (answer == Err(DuplicateGiftEntry) ==>
          c.event.kind.GiftRecorded? && Paid(t, c.event.kind.receipt.transactionId))
  }

  /** The same, read off the transaction. */
  lemma TransactionAnswers(t: Tables, c: Candidate)
    requires c.roomId in t.rooms && c.managed.revision == c.event.sequence == c.expected + 1
    requires c.expected <= t.rooms[c.roomId].revision <= I64_MAX
    requires c.event.kind.GiftRecorded? ==> ValidGift(LedgerWrite(c.roomId, c.event).value)
    requires c.expected == t.rooms[c.roomId].revision ==> (c.roomId, c.event.sequence) !in t.events
    requires LedgerWrite(c.roomId, c.event).Some? && c.expected == t.rooms[c.roomId].revision ==>
               (GiftRefusal(t, LedgerWrite(c.roomId, c.event).value).None? <==> GiftStorable(t, c.event.kind))
    requires LedgerWrite(c.roomId, c.event).Some?
             && GiftRefusal(t, LedgerWrite(c.roomId, c.event).value) == Some(DuplicateGiftEntry)
             && c.expected == t.rooms[c.roomId].revision ==>
               Paid(t, c.event.kind.receipt.transactionId)
    ensures AnswersAppend(t, c, EventExists(t, c.roomId, c.event.commandId), AppendCandidate(t, c).1)
  {
    hide PersistedFrom, EventExists, ValidGift, Entry, Paid, GiftRefusal, GiftStorable;
    assert c.event.kind.GiftRecorded? || GiftStorable(t, c.event.kind) by { NoGift(t, c.event.kind); }
  }

  lemma NoGift(t: Tables, kind: RoomEventKind)
    ensures kind.GiftRecorded? || GiftStorable(t, kind)
  {
  }

  lemma RefusalExactly(t: Tables, c: Candidate)
    requires LedgerOk(t) && Contiguous(t, c.roomId) && c.event.kind.GiftRecorded?
    requires c.event.sequence > t.rooms[c.roomId].revision
    ensures var refusal := GiftRefusal(t, LedgerWrite(c.roomId, c.event).value);
            && (refusal.None? <==> GiftStorable(t, c.event.kind))
            && (refusal == Some(DuplicateGiftEntry) ==> Paid(t, c.event.kind.receipt.transactionId))
  {
    NoLedgerRowAhead(t, c.roomId, c.event.sequence);
    PaidExactlyWhenInLedger(t, c.event.kind.receipt.transactionId);
    hide Paid, LedgerOk;
  }

  lemma {:induction false} AppendAnswers(t: Tables, c: Candidate)
    requires TablesOk(t) && CandidateOk(t, c)
    ensures AnswersAppend(t, c, Stored(t, c.roomId, c.event.commandId), AppendCandidate(t, c).1)
    ensures |Log(t, c.roomId)| == t.rooms[c.roomId].revision
  {
    hide CandidateOk, RoomOk, LedgerOk, OutboxOk, AnswersAppend, AppendCandidate, GiftStorable, GiftRefusal,
         ValidGift, Paid, Stored, EventExists, UniqueCreations, NoOrphanEvents;
    CandidateFacts(t, c);
    CandidateContiguous(t, c);
    StoredExactlyWhenEventExists(t, c.roomId, c.event.commandId);
    if c.expected == t.rooms[c.roomId].revision {
      NoLedgerRowAhead(t, c.roomId, c.event.sequence);
      if c.event.kind.GiftRecorded? { RefusalExactly(t, c); }
    }
    TransactionAnswers(t, c);
  }

  lemma CandidateContiguous(t: Tables, c: Candidate)
    requires CandidateOk(t, c)
    ensures c.roomId in t.rooms && Contiguous(t, c.roomId)
  {
  }

  /**
   In every reachable system, whatever the writer's cache looked like: an append is answered as done
   exactly if its command is in the stored log, as a conflict exactly if it is not and the log has
   grown, and is applied exactly if it is new, the log has not grown and its numbers and gift can be
   stored. Then the log gains that event; otherwise nothing changes.
   */
  lemma {:induction false} AppendAnswersExactly(steps: seq<Step>, replica: ReplicaId)
    ensures var s := RunSteps(Initial(), steps);
            replica in s.pending ==>
              var c := s.pending[replica];
              var (t', answer) := AppendCandidate(s.db, c);
              && c.roomId in s.db.rooms && Contiguous(s.db, c.roomId)
              && |Log(s.db, c.roomId)| == s.db.rooms[c.roomId].revision
              && AnswersAppend(s.db, c, Stored(s.db, c.roomId, c.event.commandId), answer)
              && (if answer == Ok(AppendApplied)
                  then Contiguous(t', c.roomId) && Log(t', c.roomId) == Log(s.db, c.roomId) + [c.event]
                  else t' == s.db)
  {
    InitialOk();
    RunsStayOk(Initial(), steps);
    var s := RunSteps(Initial(), steps);
    hide RunSteps, TablesOk, CandidateOk, CacheOk, AnswersAppend, AppendCandidate, Stored, Grows, Log, Contiguous;
    if replica in s.pending {
      var c := s.pending[replica];
      AppendAnswers(s.db, c);
      CandidateContiguous(s.db, c);
      if AppendCandidate(s.db, c).1 == Ok(AppendApplied) {
        AppliedAppendExtends(s.db, c);
        CachedContiguous(AppendCandidate(s.db, c).0, c.roomId, c.managed);
      } else {
        RefusedAppend(s.db, c);
      }
    }
  }

  lemma CachedContiguous(t: Tables, r: RoomId, m: ManagedRoom)
    requires CacheOk(t, r, m)
    ensures Contiguous(t, r)
  {
  }

  lemma StoredAfterAppend(t: Tables, t': Tables, r: RoomId, event: RoomEvent)
    requires Contiguous(t, r) && Contiguous(t', r) && Log(t', r) == Log(t, r) + [event]
    ensures Stored(t', r, event.commandId)
  {
    assert Log(t', r)[|Log(t, r)|] == event;
  }

  /** A writer told that its command is done finds it in the log; one told to retry does not. */
  lemma {:induction false} DoneMeansStored(steps: seq<Step>, replica: ReplicaId, acknowledged: bool)
    ensures var s := RunSteps(Initial(), steps);
            replica in s.pending ==>
              var c := s.pending[replica];
              var (answer, t') := (AppendCandidate(s.db, c).1, Next(s, Commit(replica, acknowledged)).db);
              && Contiguous(t', c.roomId)
              && (answer.Ok? ==>
                    (answer.value.RevisionConflict? <==> !Stored(t', c.roomId, c.event.commandId)))
  {
    AppendAnswersExactly(steps, replica);
    var s := RunSteps(Initial(), steps);
    hide RunSteps, AppendCandidate, Stored, Log, Contiguous, CacheStored, GiftStorable, Paid;
    if replica in s.pending {
      var c := s.pending[replica];
      var (t', answer) := AppendCandidate(s.db, c);
      assert Next(s, Commit(replica, acknowledged)).db == t';
      if answer == Ok(AppendApplied) { StoredAfterAppend(s.db, t', c.roomId, c.event); }
      hide Next;
    }
  }

  // ----- One replica on its own -----

  lemma RunOneMore(steps: seq<Step>, step: Step)
    ensures RunSteps(Initial(), steps + [step]) == Next(RunSteps(Initial(), steps), step)
  {
    assert (steps + [step])[..|steps|] == steps;
  }

  /** However stale a replica was, after a refresh its room is the one the whole stored log describes. */
  lemma {:induction false} RefreshCatchesUp(steps: seq<Step>, replica: ReplicaId, r: RoomId)
    ensures var s := RunSteps(Initial(), steps);
            r in s.db.rooms ==>
              var s' := Next(s, Refresh(replica, r));
              && s'.db == s.db && s'.pending == s.pending && (replica, r) in s'.caches
              && var m := s'.caches[(replica, r)];
              && Contiguous(s.db, r) && m.revision == |Log(s.db, r)| <= I64_MAX
              && m.room == StateAt(r, m.room.mode, m.room.policy, Log(s.db, r), |Log(s.db, r)|)
  {
    InitialOk();
    RunsStayOk(Initial(), steps);
    var s := RunSteps(Initial(), steps);
    hide RunSteps, StateAt, TablesOk, CacheOk, CandidateOk, LoadManaged, Log, Contiguous;
    if r in s.db.rooms {
      var m := LoadedRow(s.db, r);
    }
  }

  lemma {:induction false} LoadedRow(t: Tables, r: RoomId) returns (m: ManagedRoom)
    requires TablesOk(t) && r in t.rooms
    ensures LoadManaged(t.rooms[r]) == Ok(m) && t.rooms[r].roomId == r && Contiguous(t, r)
    ensures m.revision == |Log(t, r)| <= I64_MAX
    ensures m.room == StateAt(r, m.room.mode, m.room.policy, Log(t, r), |Log(t, r)|)
  {
    hide LegalLog, StateAt, PolicyAccepted, LedgerOk, OutboxOk, LoadManaged, PersistedFrom;
    assert RoomOk(t, r);
    m := StoredRowLoads(t, r);
  }

  /** What a replica that refreshes, executes and commits undisturbed does to the store. */
  ghost function Uninterrupted(s: System, begin: Step, acknowledged: bool): System
    requires begin.Begin?
  {
    Next(Next(Next(s, Refresh(begin.replica, begin.roomId)), begin), Commit(begin.replica, acknowledged))
  }

  lemma BegunCandidate(s: System, begin: Step)
    requires begin.Begin? && begin.replica !in s.pending && (begin.replica, begin.roomId) in s.caches
    requires s.caches[(begin.replica, begin.roomId)].revision < U64_MAX
    ensures var m := s.caches[(begin.replica, begin.roomId)];
            var outcome := ExecuteCommand(m.room, begin.commandId, begin.timestampMillis, begin.command).1;
            var s' := Next(s, begin);
            && s'.db == s.db
            && (begin.replica in s'.pending <==> outcome.Ok? && outcome.value.Applied?)
            && (begin.replica in s'.pending ==>
                  var c := s'.pending[begin.replica];
                  && c.event == outcome.value.event && c.roomId == begin.roomId && c.expected == m.revision
                  && c.event.commandId == begin.commandId)
  {
    hide Decide, Apply;
  }

  /**
   Undisturbed, a command is stored exactly if the room the stored log describes accepts it, it is not
   in the log already, and its number and gift can be stored. Then the log gains its event; otherwise
   the store is as before.
   */
  lemma {:induction false} UndisturbedCommandIsStoredExactly(steps: seq<Step>, begin: Step, acknowledged: bool)
    requires begin.Begin? && begin.replica !in RunSteps(Initial(), steps).pending
    requires begin.roomId in RunSteps(Initial(), steps).db.rooms
    ensures var s := RunSteps(Initial(), steps);
            var refreshed := Next(s, Refresh(begin.replica, begin.roomId));
            && Contiguous(s.db, begin.roomId) && (begin.replica, begin.roomId) in refreshed.caches
            && var room := refreshed.caches[(begin.replica, begin.roomId)].room;
            var log := Log(s.db, begin.roomId);
            var answer := ExecuteCommand(room, begin.commandId, begin.timestampMillis, begin.command).1;
            && room == StateAt(begin.roomId, room.mode, room.policy, log, |log|)
            && var t' := Uninterrupted(s, begin, acknowledged).db;
            if && answer.Ok? && answer.value.Applied? && |log| < I64_MAX
               && !Stored(s.db, begin.roomId, begin.commandId) && GiftStorable(s.db, answer.value.event.kind)
            then Contiguous(t', begin.roomId) && Log(t', begin.roomId) == log + [answer.value.event]
            else t' == s.db
  {
    var s := RunSteps(Initial(), steps);
    var refresh := Refresh(begin.replica, begin.roomId);
    RefreshCatchesUp(steps, begin.replica, begin.roomId);
    RunOneMore(steps, refresh);
    RunOneMore(steps + [refresh], begin);
    AppendAnswersExactly(steps + [refresh] + [begin], begin.replica);
    hide RunSteps, StateAt, ExecuteCommand, AppendCandidate, Stored, GiftStorable, Log, Contiguous;
    var s1 := Next(s, refresh);
    BegunCandidate(s1, begin);
    var s2 := Next(s1, begin);
    CommitWrites(s2, begin.replica, acknowledged);
    hide Next;
  }

  lemma CommitWrites(s: System, replica: ReplicaId, acknowledged: bool)
    ensures Next(s, Commit(replica, acknowledged)).db
            == if replica in s.pending then AppendCandidate(s.db, s.pending[replica]).0 else s.db
  {
    hide AppendCandidate, CacheStored;
  }

  // ----- Creating -----

  /** The room was opened by this command: it is the first of its stored log. */
  ghost predicate OpenedBy(t: Tables, r: RoomId, commandId: CommandId) {
    r in t.rooms && Contiguous(t, r) && |Log(t, r)| > 0 && Log(t, r)[0].commandId == commandId
  }

  lemma OpenedExactlyByItsCreation(t: Tables, r: RoomId, commandId: CommandId)
    requires TablesOk(t) && r in t.rooms
    ensures OpenedBy(t, r, commandId) <==> t.rooms[r].creationCommand == commandId
  {
    hide LegalLog, StateAt, PolicyAccepted, Snapshot, LedgerOk, OutboxOk;
    assert RoomOk(t, r);
    var m :| ManagedAt(r, m, Log(t, r)) && t.rooms[r] == StoredFrom(r, m) && m.revision == |Log(t, r)|;
  }

  lemma NoEventsWithoutARoom(t: Tables, r: RoomId, commandId: CommandId)
    requires NoOrphanEvents(t) && r !in t.rooms
    ensures (r, 1) !in t.events && !EventExists(t, r, commandId)
  {
  }

  lemma {:induction false} CreateAnswers(t: Tables, row: StoredRoom, event: RoomEvent)
    requires TablesOk(t) && row.revision == 1 && event.sequence == 1
    ensures var answer := CreateRoom(t, row, event).1;
            var taken := exists r :: OpenedBy(t, r, row.creationCommand);
            && (answer == Ok(RoomCreated) <==> !taken && row.roomId !in t.rooms)
            && (answer == Err(IdentifierCollision) <==> !taken && row.roomId in t.rooms)
            && (answer.Ok? && answer.value.CreateDuplicate? <==> taken)
            && (forall r :: OpenedBy(t, r, row.creationCommand) ==> answer == Ok(CreateDuplicate(t.rooms[r])))
  {
    hide RoomOk, LedgerOk, OutboxOk, OpenedBy, EventExists, Entry;
    forall r | r in t.rooms
      ensures OpenedBy(t, r, row.creationCommand) <==> t.rooms[r].creationCommand == row.creationCommand
    {
      OpenedExactlyByItsCreation(t, r, row.creationCommand);
    }
    forall r | OpenedBy(t, r, row.creationCommand) ensures r in t.rooms { OpenedIsStored(t, r, row.creationCommand); }
    if row.roomId !in t.rooms { NoEventsWithoutARoom(t, row.roomId, event.commandId); }
    hide TablesOk;
  }

  lemma OpenedIsStored(t: Tables, r: RoomId, commandId: CommandId)
    requires OpenedBy(t, r, commandId)
    ensures r in t.rooms
  {
  }

  /** In every reachable system a creation command makes one room, and is told about it ever after. */
  lemma {:induction false} CreateAnswersExactly(steps: seq<Step>, row: StoredRoom, event: RoomEvent)
    requires row.revision == 1 && event.sequence == 1
    ensures var t := RunSteps(Initial(), steps).db;
            var answer := CreateRoom(t, row, event).1;
            var taken := exists r :: OpenedBy(t, r, row.creationCommand);
            && (answer == Ok(RoomCreated) <==> !taken && row.roomId !in t.rooms)
            && (answer == Err(IdentifierCollision) <==> !taken && row.roomId in t.rooms)
            && (forall r :: OpenedBy(t, r, row.creationCommand) ==> answer == Ok(CreateDuplicate(t.rooms[r])))
            && var t' := CreateRoom(t, row, event).0;
            if answer == Ok(RoomCreated)
            then t'.rooms == t.rooms[row.roomId := row] && Contiguous(t', row.roomId)
                 && Log(t', row.roomId) == [event]
            else t' == t
  {
    InitialOk();
    RunsStayOk(Initial(), steps);
    hide *;
    SystemTables(RunSteps(Initial(), steps));
    CreateAnswers(RunSteps(Initial(), steps).db, row, event);
    CreateWrites(RunSteps(Initial(), steps).db, row, event);
  }

  lemma CreateWrites(t: Tables, row: StoredRoom, event: RoomEvent)
    requires TablesOk(t) && row.revision == 1 && event.sequence == 1
    ensures var (t', answer) := CreateRoom(t, row, event);
            if answer == Ok(RoomCreated)
            then t'.rooms == t.rooms[row.roomId := row] && Contiguous(t', row.roomId)
                 && Log(t', row.roomId) == [event]
            else t' == t
  {
    hide RoomOk, LedgerOk, OutboxOk, UniqueCreations, EventExists, Entry;
    var (t', answer) := CreateRoom(t, row, event);
    if answer == Ok(RoomCreated) {
      forall k: u64 ensures (row.roomId, k) in t'.events <==> k == 1 {
        assert k != 1 ==> (row.roomId, k) !in t.events;
      }
    }
  }

  lemma SystemTables(s: System)
    requires SystemOk(s)
    ensures TablesOk(s.db)
  {
    hide TablesOk, CacheOk, CandidateOk;
  }
}
