# Fluvora control plane, verified

Fluvora is a self-hosted realtime media platform. This project models the stateful part of it in Dafny
and proves what it keeps over every run: the event-sourced room, the transactional store shared by all
API replicas, the outbox and its dispatchers, leases and placement, the signal backlog, the session
routing table of a media node, snapshot directories under crashes, and a few smaller machines and
binary formats. `dafny verify dfyconfig.toml` checks all of it.

How it is organised:

- `Prelude` holds integer ranges, results and a few sequence and set facts.
- `RoomDomain` is the aggregate: deciding commands, applying events, the bounded histories, and the
  mutable `Room`. `RoomHistory` is about every legal event log, `RoomSnapshots` about the compact
  form, `RoomStore` about the two room transactions, `RoomReplicas` about any number of replicas with
  stale caches, crashes and lost acknowledgements, `FileRooms` about a server without a database.
  `RoomEffects` and `RoomAnswers` say what rooms and the store answer, in terms of the log alone.
- `Outbox` is the table, `Delivery` every run of its dispatchers and its composition with the rooms,
  `DeliveryLeases` whom a claim or a retry keeps away from a row.
- `SignalCache` is the in-process window, `SignalBacklog` its agreement with the signal table.
- `Leases`, `LeaseAnswers`, `Placements`, `ServicePlacement`, `RoomPlacement` are the remaining store
  protocols.
- `Sessions` is the session registry with atomic operations, `SessionRaces` the same at the
  granularity of its locks.
- `SnapshotNames`, `SnapshotDirectory`, `SnapshotCrashes` are file names, the directory, and crashes.
- `Transcode` with `TranscodeSharing`, `Playlist` with `PlaylistReading`, `VodAsset` with
  `VodProgress`, `BytesCodec`, `EnvelopeCodec` and `ClaimsCodec` are the rest.

Code that updates state in place is a class or a method proved against a specification function on
values; the results about whole runs are lemmas about those functions, over lists of steps in which
actors interleave freely.

Where the code does not meet what one would expect of it, the model follows the code and a lemma gives
the exact condition:

- A file-backed room that remembered a side effect is written in a form that does not load: the
  persistence revision runs ahead of the room sequence, and loading requires them to be equal. One
  further write prunes the last loadable file (`FileRooms.RestartLosesTheRoomExactlyAfterASideEffect`);
  a restart before that falls back, after which every command is refused
  (`FileRooms.FrozenUntilASideEffect`).
- A snapshot of a VOD room that lists publishers is accepted
  (`RoomSnapshots.AcceptedSnapshotBreaksOnlyTheVodRule`, `RoomSnapshots.VodPublisherIsAccepted`).
- A VOD asset that fails and is retried below version 4, before it could have been probed, is rejected by
  its own load check; one that fails before its upload completed can be published without any
  (`VodAsset.AcceptedExactlyUnlessStartedTooEarly`,
  `VodAsset.ReadyWasUploadedExactlyUnlessFailedEarly`).
- Lease and service generations restart when the row is deleted, so fencing holds within one row
  lifetime only (`Leases.GenerationsRestartAfterRelease`,
  `ServicePlacement.GenerationsRestartAfterRemoval`); a renewal for a shorter time withdraws a deadline
  already given out (`Leases.DeadlinesExclusiveExactlyWhenNeverCutShort`).
- The session registry looks sessions up before it takes the index locks and clears its maps one after
  the other; work that overlaps a removal leaves dead entries or an unreachable session, exactly as
  `SessionRaces.InterleavingsSoundExactlyWhenHarmless` says.
- After falling back past a damaged newest file, a room's next revision is refused as a conflict with
  that file (`SnapshotCrashes.DamagedNewestBlocksTheNextWrite`).
- The two signal backlogs agree exactly while the byte budget does not bind and the store's signed
  64-bit columns hold every number (`SignalBacklog.BacklogsAgreeExactlyWhenBytesFit`,
  `SignalBacklog.PagesAgree`).
- A restart of a file-backed server numbers signals again from 1, and readers pass by whatever is
  numbered up to their cursor (`SignalBacklog.RestartIsHarmlessExactlyAtCursorZero`).
- A large accepted envelope need not be re-encodable
  (`EnvelopeCodec.ReencodesExactlyWithinTheWireLimit`).
- The target duration of a window of sub-second segments is one second higher than needed
  (`Playlist.TargetCoversEverySegment`).

## Model

| member | source | states |
|---|---|---|
| `RoomDomain.Room.Create` | crates/foundation/domain/src/lib.rs:340-358 | a new room is the empty room after its creation event, with sound history windows |
| `RoomDomain.Room.Restore` | crates/foundation/domain/src/lib.rs:365-393 | an event stream is accepted exactly if it opens with a matching creation and is numbered 1, 2, 3, …; then the room is its replay; otherwise the first fault is reported |
| `RoomDomain.Room.Execute` | crates/foundation/domain/src/lib.rs:496-520 | duplicate, refused or applied as the decision function says, state and answer together, with both sets kept equal to their queues |
| `RoomDomain.Room.ApplyEvent` | crates/foundation/domain/src/lib.rs:752-785 | the in-place update equals the specification of each event kind and keeps the windows sound |
| `RoomDomain.Room.RememberCommand` | crates/foundation/domain/src/lib.rs:787-796 | the queue becomes the last 4096 distinct command ids and the set its elements |
| `RoomDomain.Room.RememberGiftTransaction` | crates/foundation/domain/src/lib.rs:798-808 | the same for gift transactions |
| `RoomHistory.EveryRoomIsSound` | crates/foundation/domain/src/lib.rs:592-785 | in every state of every legal log there is exactly one host, the creator; publishers are members whose role may publish; counts are within policy; VOD and ended rooms have no publishers; the sequence is the number of events |
| `RoomHistory.WindowsHoldTheMostRecent` | crates/foundation/domain/src/lib.rs:787-808 | the command window is exactly the last 4096 command ids of the log in order, the gift window the last 4096 recorded gifts |
| `RoomHistory.NoReuseInsideTheWindow` | crates/foundation/domain/src/lib.rs:496-508 | no command id returns within the next 4096 events |
| `RoomHistory.NoGiftReuseInsideTheWindow` | crates/foundation/domain/src/lib.rs:692-722 | no gift transaction returns within the next 4096 recorded gifts |
| `RoomHistory.DuplicateExactlyInsideTheWindow` | crates/foundation/domain/src/lib.rs:496-508 | any command id is answered Duplicate without any change if and only if it occurs among the last 4096 events; so event k of n, unless its id came back, exactly while n - k <= 4095 |
| `RoomHistory.ExecuteAppliesOneLegalEvent` | crates/foundation/domain/src/lib.rs:496-520 | a command applies exactly one legal event or changes nothing |
| `RoomHistory.LiveRoomEqualsReplay` | crates/foundation/domain/src/lib.rs:365-520 | whatever commands a live room receives, replaying its emitted events rebuilds the same state |
| `RoomHistory.EveryLegalLogIsALiveRun` | crates/foundation/domain/src/lib.rs:365-520 | conversely every legal log is the output of some run of commands |
| `RoomHistory.AcceptedExactlyWhenAuthorized` | crates/foundation/domain/src/lib.rs:592-750 | a command is accepted if and only if the membership, rank, capacity and content rules allow it, and records exactly what was asked, gift totals included |
| `RoomHistory.EveryEventWasAuthorized` | crates/foundation/domain/src/lib.rs:496-750 | every event of every legal log was allowed by those rules in the state it was applied to |
| `RoomEffects.ReplayReadsTheLog` | crates/foundation/domain/src/lib.rs:752-785 | after any event stream a user has the role of the last creation, join or role change naming them unless they left since; publishes exactly if their last start was followed by no stop, leave, end or change to a role that may not; and the room has ended exactly if some event ended it |
| `RoomEffects.EndIsLast` | crates/foundation/domain/src/lib.rs:496-508 | no legal log has an event after the end of the room |
| `RoomEffects.ExecuteAnswersExactly` | crates/foundation/domain/src/lib.rs:496-520 | in every reachable room a command is answered Duplicate, RoomEnded or applied exactly by the last 4096 ids, the end in the log, and the rules; applied, it adds the next event with its own id, time and kind; otherwise nothing changes |
| `RoomEffects.RefusedForItsReason` | crates/foundation/domain/src/lib.rs:592-750 | the error of a refused command is one whose own condition holds of the room and the command |
| `RoomSnapshots.SnapshotRoundTrip` | crates/foundation/domain/src/lib.rs:397-489 | restoring the snapshot of a sound room with an accepted policy gives the same room in every field |
| `RoomSnapshots.RoundTripExactlyOnRestorableRooms` | crates/foundation/domain/src/lib.rs:397-489 | the round trip succeeds if and only if the room is sound and its policy accepted |
| `RoomSnapshots.ReachableRoomsSurviveSnapshots` | crates/foundation/domain/src/lib.rs:397-489 | so it succeeds in every reachable room with an accepted policy |
| `RoomSnapshots.AcceptedSnapshotIsSound` | crates/foundation/domain/src/lib.rs:426-489 | every accepted snapshot satisfies the membership, single-host, role, capacity and history rules |
| `RoomSnapshots.ContinuedRunsStaySound` | crates/foundation/domain/src/lib.rs:426-520 | any run continued from it keeps them, under the same host |
| `RoomSnapshots.AcceptedSnapshotBreaksOnlyTheVodRule` | crates/foundation/domain/src/lib.rs:426-489 | it satisfies the whole room invariant if and only if it lists no publishers for a VOD room |
| `RoomSnapshots.VodPublisherIsAccepted` | crates/foundation/domain/src/lib.rs:426-489 | a concrete accepted snapshot that does |
| `RoomSnapshots.RestoreRoom` | crates/foundation/domain/src/lib.rs:426-489 | restoring into a mutable room succeeds exactly as specified and yields that state |
| `RoomStore.LosersChangeNothing` | crates/control-plane/control-store/src/lib.rs:418-483 | an append changes a table if and only if it was applied: duplicates, revision conflicts and errors change nothing |
| `RoomStore.ControlStore.Create` | crates/control-plane/control-store/src/lib.rs:375-411 | room row, event and outbox row appear together, a repeated creation command returns the first room, failures change nothing, creation commands stay unique |
| `RoomStore.ControlStore.AppendEvent` | crates/control-plane/control-store/src/lib.rs:418-483 | compare-and-swap append: row, event, ledger entry and outbox row together or nothing |
| `RoomAnswers.AppendAnswersExactly` | crates/control-plane/control-store/src/lib.rs:418-483 | for every candidate any run can produce: answered as a duplicate exactly if its command id is in the stored log, as a conflict with the length of the log exactly if it is not and that length is not the expected one, applied exactly if the id is new, the length is the expected one, the numbers fit and the gift is unpaid; applied, the log gains exactly that event, otherwise nothing changes |
| `RoomAnswers.DoneMeansStored` | crates/services/api-server/src/services/room_commands.rs:22-105 | whatever the store answers a replica, it is a conflict, after which the replica tries again, exactly if the command is not in the stored log afterwards: no command is reported done and lost |
| `RoomAnswers.RefreshCatchesUp` | crates/services/api-server/src/persistence.rs:111-145 | however stale, after a refresh a replica has the room that the whole stored log describes |
| `RoomAnswers.UndisturbedCommandIsStoredExactly` | crates/services/api-server/src/services/room_commands.rs:22-105 | in every reachable system a refresh, execution and commit of one replica stores the command exactly if the room of the whole log accepts it, its id is not in the log, and its number and gift can be stored; then the log gains its event, otherwise the store is as before |
| `RoomAnswers.CreateAnswersExactly` | crates/control-plane/control-store/src/lib.rs:375-411 | over every run a creation succeeds exactly if no stored room was opened by its command and its identifier is free, and a repeated command is answered with the room it opened; created, the room is stored with exactly its creation event, otherwise nothing changes |
| `RoomReplicas.StoredRoundTrip` | crates/services/api-server/src/persistence.rs:147-224 | what a replica stores is what any replica loads |
| `RoomReplicas.RecoveryPathsAgree` | crates/services/api-server/src/persistence.rs:167-224 | the legacy event list and the compact snapshot recover the same room |
| `RoomReplicas.RunsStayOk` | crates/services/api-server/src/services/room_commands.rs:22-105 | every interleaving of replicas, refreshes, crashes and lost acknowledgements keeps the tables, caches and pending writes consistent and only ever extends them |
| `RoomReplicas.Serializability` | crates/control-plane/control-store/src/lib.rs:375-483 | after any run each stored room is the replay of exactly its stored events, every command id occurs once in the whole log, and one sequential list of commands would have produced it |
| `RoomReplicas.CachesAreStoredPrefixes` | crates/services/api-server/src/persistence.rs:111-145 | however stale, a cached room is the replay of a prefix of the stored log |
| `RoomReplicas.StoredLogsOnlyGrow` | crates/control-plane/control-store/src/lib.rs:418-483 | no later step loses or rewrites a stored event |
| `RoomReplicas.GiftTransactionsArePaidOnce` | crates/control-plane/control-store/src/lib.rs:1642-1676 | one provider transaction pays for at most one gift on the whole platform, across rooms and replicas |
| `RoomReplicas.LedgerListsExactlyTheGifts` | crates/control-plane/control-store/src/lib.rs:1642-1676 | after any run the ledger and the gifts in the stored logs correspond one to one, room, event, sender, receipt and a total of unit value times quantity included |
| `FileRooms.LoadsExactlyWithoutSideEffects` | crates/services/api-server/src/persistence.rs:167-224 | a file snapshot loads, as the room it was written from, if and only if no side effect was remembered |
| `FileRooms.RestartLosesTheRoomExactlyAfterASideEffect` | crates/services/api-server/src/services/room_commands.rs:241-286 | over every run of a file-backed room, restarts and refused writes included, a starting server finds no room if and only if something was written while the room in memory held a side effect |
| `FileRooms.QuietRunsLoseNothing` | crates/services/api-server/src/persistence.rs:167-347 | without side effects, however often the server restarts, its room is the one that executed all the commands, and its last file holds it |
| `FileRooms.CommandsRefusedExactlyWhenTheRevisionIsTaken` | crates/services/api-server/src/persistence.rs:295-347 | in every reachable server a command the room accepts is refused, without any change, if and only if there is a file for the next revision already |
| `FileRooms.FrozenUntilASideEffect` | crates/services/api-server/src/persistence.rs:295-347 | after a restart that fell back, any number of commands and further restarts leaves memory and files as they are |
| `FileRooms.OnlyTheSameEffectIsAccepted` | crates/services/api-server/src/services/room_commands.rs:241-286 | there a side effect is accepted if and only if it is the one the existing file holds |
| `Outbox.OutboxTable.Insert` | crates/control-plane/control-store/src/lib.rs:1610-1640 | a new row gets a fresh identifier and is available at once |
| `Outbox.OutboxTable.Claim` | crates/control-plane/control-store/src/lib.rs:615-658 | leases exactly the lowest claimable rows up to the batch size and leaves every other row alone |
| `Outbox.OutboxTable.Acknowledge` | crates/control-plane/control-store/src/lib.rs:660-683 | marks a row delivered only for its recorded lease owner |
| `Outbox.OutboxTable.Retry` | crates/control-plane/control-store/src/lib.rs:728-761 | releases a row for later only for its recorded lease owner |
| `Outbox.OutboxTable.PruneDelivered` | crates/control-plane/control-store/src/lib.rs:691-721 | deletes only expired delivered rows, lowest identifiers first, as many as asked for or as there are |
| `Delivery.NoRowIsLost` | crates/control-plane/event-dispatcher/src/main.rs:221-320 | over every run with crashes and lease expiry a row is still there, undelivered, with its payload, or was published and acknowledged |
| `Delivery.DeliveredRowsAreFrozen` | crates/control-plane/control-store/src/lib.rs:615-761 | a delivered row is never claimed or changed again, only pruned |
| `Delivery.StaleDispatcherChangesNothing` | crates/control-plane/control-store/src/lib.rs:660-761 | once another dispatcher claimed a row, the earlier one changes nothing by acknowledging or retrying |
| `Delivery.UndeliveredRowsComeBack` | crates/control-plane/control-store/src/lib.rs:615-658 | whatever happened before, after one quiet hour every undelivered row is claimable |
| `DeliveryLeases.ClaimExcludesEverybody` | crates/control-plane/control-store/src/lib.rs:615-658 | over every run, once a row is claimed and until its owner acknowledges or retries it, no claim before the lease runs out gets the row |
| `DeliveryLeases.ClaimerKeepsItsRow` | crates/control-plane/control-store/src/lib.rs:615-683 | as long as nobody claimed it again the owner can acknowledge or retry the row, even after the lease ran out, and the row is free for others exactly from that moment |
| `DeliveryLeases.NewRowsAreClaimable` | crates/control-plane/control-store/src/lib.rs:1610-1640 | an enqueued row can be claimed at once |
| `DeliveryLeases.RetryPutsOff` | crates/control-plane/control-store/src/lib.rs:728-761 | a retry with a delay keeps every dispatcher from the row until the delay is over, and not longer |
| `DeliveryLeases.AttemptsCountClaims` | crates/control-plane/control-store/src/lib.rs:636-645 | the attempts of a row are the claims that took it |
| `Delivery.StoredEventsReachTheBus` | crates/control-plane/control-store/src/lib.rs:1610-1640 | rooms and outbox together: every stored room event was published or waits in an undelivered row |
| `Delivery.OnlyStoredEventsArePublished` | crates/control-plane/event-dispatcher/src/main.rs:253-320 | nothing is ever published that is not a stored event |
| `SignalCache.TrimIsLongestFittingSuffix` | crates/services/api-server/src/signals.rs:140-147 | trimming leaves the longest suffix that fits the count and the byte budget |
| `SignalCache.CacheSignalKeepsInvariant` | crates/services/api-server/src/signals.rs:100-138 | exact byte counter, strictly increasing sequences, both budgets, next sequence above everything cached |
| `SignalCache.SignalWindow.Insert` | crates/services/api-server/src/signals.rs:100-138 | the in-place insertion equals its specification and keeps the invariant |
| `SignalCache.SignalWindow.TrimWindow` | crates/services/api-server/src/signals.rs:140-147 | the loop computes the trimmed window and its exact byte count |
| `SignalCache.HighestSequencesExactlyWhenBytesNeverBind` | crates/services/api-server/src/signals.rs:100-147 | under any order and repetition of deliveries the cache holds exactly the 128 highest sequences at every point, if and only if the byte budget never binds |
| `SignalCache.NextFollowsTheHighest` | crates/services/api-server/src/signals.rs:100-138 | the next sequence follows the highest one ever delivered, whatever was evicted |
| `SignalCache.DeliveryOrderIsIrrelevant` | crates/services/api-server/src/signals.rs:100-147 | two deliveries of the same records in any order end with the same cache: records, byte count and next sequence |
| `SignalCache.SmallRecordsNeverBind` | crates/services/api-server/src/signals.rs:140-151 | records of at most 64 KiB never make the byte budget bind |
| `SignalBacklog.AppendAgrees` | crates/services/api-server/src/signals.rs:43-98 | one append gives the same answer on both backlogs if and only if the store's signed 64-bit columns can hold its numbers, and they stay equal if and only if moreover the database window fits the byte budget |
| `SignalBacklog.BacklogsAgreeExactlyWhenBytesFit` | crates/control-plane/control-store/src/lib.rs:770-855 | over every run of appends, repeats included, the backlogs agree throughout if and only if the store refuses none and its window fits the byte budget after each |
| `SignalBacklog.FilesWindowIsLongestFittingSuffix` | crates/services/api-server/src/signals.rs:43-147 | whatever the sizes, the file-backed window is the longest suffix of all appended records within both budgets |
| `SignalBacklog.PagesAgree` | crates/services/api-server/src/signals.rs:177-224 | agreeing backlogs serve the same recipient-filtered page if and only if the batch size is 1 to 128 and the cursor fits a signed 64-bit number |
| `SignalBacklog.PagesDifferBeyondTheStoresRange` | crates/control-plane/control-store/src/lib.rs:862-880 | a cursor for which the file-backed server answers an empty page and the store refuses |
| `SignalBacklog.FilesReaderSeesEachRetainedRecordOnce` | crates/services/api-server/src/signals.rs:177-224 | over every run of appends, reads and server restarts a reader that moves its cursor receives every record still retained for it, above the cursor it had when the server started, exactly once and in order |
| `SignalBacklog.RecordsMissedExactlyBelowTheFloor` | crates/services/api-server/src/persistence.rs:211-223 | a retained record of the reader's own is passed by if and only if its number was already behind the cursor when the server started |
| `SignalBacklog.RestartIsHarmlessExactlyAtCursorZero` | crates/services/api-server/src/persistence.rs:211-223 | a restart, which numbers again from 1, costs a reader nothing whatever follows if and only if its cursor was 0 |
| `SignalBacklog.DbReaderSeesEachRetainedRecordOnce` | crates/control-plane/control-store/src/lib.rs:862-903 | the same for readers of the database, whose guarantee restarts do not touch |
| `SignalBacklog.FilesPagesAreRight` | crates/services/api-server/src/signals.rs:177-224 | after every run of appends a page holds, in order, records addressed to nobody or to the recipient after the cursor, each with the sender, recipient, kind, payload and time of the request that made it; and all such retained records if they are no more than the limit |
| `SignalBacklog.DbPagesAreRight` | crates/control-plane/control-store/src/lib.rs:862-903 | the same of the store, whose pages are served exactly for limits from 1 to 128 and cursors within 64 signed bits |
| `SignalBacklog.SignalTable.AppendSignal` | crates/control-plane/control-store/src/lib.rs:770-855 | invalid kinds, large payloads and unknown rooms are refused in that order without any change; otherwise the rows change as specified |
| `SignalBacklog.SignalTable.Store` | crates/control-plane/control-store/src/lib.rs:788-855 | a retained command returns its record, otherwise the next sequence is inserted and rows beyond the last 128 are deleted; out-of-range counters and timestamps change nothing |
| `SignalBacklog.SignalTable.LoadPage` | crates/control-plane/control-store/src/lib.rs:862-903 | refuses batch sizes outside 1 to 128, then cursors beyond a signed 64-bit number, then unknown rooms; otherwise the loop returns the specified page |
| `Leases.LeaseTable.AcquireLease` | crates/control-plane/control-store/src/lib.rs:542-583 | granted exactly if the row is absent, the caller's own, or expired; refusals and errors change nothing |
| `Leases.LeaseTable.ReleaseLease` | crates/control-plane/control-store/src/lib.rs:590-608 | deletes the row if and only if owner and generation match |
| `Leases.HoldingsNeverOverlap` | crates/control-plane/control-store/src/lib.rs:542-608 | over every run two grants of a resource to different owners never overlap in time |
| `Leases.AtMostOneHolder` | crates/control-plane/control-store/src/lib.rs:542-608 | whoever still holds a resource is the unexpired owner in its row |
| `LeaseAnswers.GrantedExactlyWhenFree` | crates/control-plane/control-store/src/lib.rs:542-583 | over every run a valid request is granted exactly if every holding by somebody else is over and a takeover can still be numbered |
| `LeaseAnswers.OthersWaitForExactlyTheLease` | crates/control-plane/control-store/src/lib.rs:542-583 | after a grant another owner can acquire exactly from the millisecond the lease runs out, its own owner at any time |
| `LeaseAnswers.ReleasedExactlyByItsHolder` | crates/control-plane/control-store/src/lib.rs:590-608 | over every run a release succeeds exactly with the owner and generation of the newest grant of the row lifetime |
| `LeaseAnswers.ReleaseFreesTheResource` | crates/control-plane/control-store/src/lib.rs:590-608 | a released resource can be acquired at once by anybody, at generation 1 |
| `Leases.GenerationsFenceOwners` | crates/control-plane/control-store/src/lib.rs:560-570 | within a row lifetime generations never fall and rise strictly with each change of owner |
| `Leases.SupersededGrantCannotRelease` | crates/control-plane/control-store/src/lib.rs:590-608 | after a takeover the earlier grant cannot release the row |
| `Leases.DeadlinesExclusiveExactlyWhenNeverCutShort` | crates/control-plane/control-store/src/lib.rs:542-608 | at every point of a run the deadlines given out keep every other owner out, whatever follows short of a cut, if and only if nobody in the run renewed for less than it still had or released early |
| `Leases.ShorterRenewalBreaksTheDeadline` | crates/control-plane/control-store/src/lib.rs:542-583 | a run in which a shorter renewal lets another owner in before a deadline given out earlier |
| `Leases.GenerationsRestartAfterRelease` | crates/control-plane/control-store/src/lib.rs:590-608 | a run in which two owners get the same generation |
| `Placements.HostedAfterAssign` | crates/control-plane/control-store/src/lib.rs:1120-1133 | moving an assignment adds one to the new node's count and takes one from the old |
| `ServicePlacement.SelectNode` | crates/control-plane/control-store/src/lib.rs:1104-1119 | the chosen node is first among all eligible ones by relative load, heartbeat and name; none only if none is eligible |
| `ServicePlacement.LeastLoadedAmongTheUsable` | crates/control-plane/control-store/src/lib.rs:1104-1119 | first means: healthy, not draining, of the kind and region, heard of within the window and with a job to spare, and no other such node has a lower ratio of used jobs, or the same with a later heartbeat, or the same with a smaller name |
| `ServicePlacement.SettledWhateverTheLoad` | crates/control-plane/control-store/src/lib.rs:1078-1103 | a resource stays exactly if its node is healthy, not draining, of the kind and region and heard of within the window, however full |
| `ServicePlacement.Scheduler.Place` | crates/control-plane/control-store/src/lib.rs:1053-1156 | succeeds exactly if the names and the window are valid and the resource is settled, or some node is eligible and the next generation fits; a settled resource stays, otherwise the least-loaded eligible node gets it and the reservation moves; failures change nothing |
| `ServicePlacement.Scheduler.WritePlacement` | crates/control-plane/control-store/src/lib.rs:1120-1153 | the assignment, the reservation on the new node and the one given back, as one update |
| `ServicePlacement.Scheduler.BumpGeneration` | crates/control-plane/control-store/src/lib.rs:1180-1197 | raises the generation exactly if the placement is still on the node and the generation fits |
| `ServicePlacement.Scheduler.Advance` | crates/control-plane/control-store/src/lib.rs:1164-1198 | the returned generation is higher than any the row had before |
| `ServicePlacement.Scheduler.RemovePlacement` | crates/control-plane/control-store/src/lib.rs:1205-1276 | removes exactly an existing placement, or one with the given generation, and gives its reservation back |
| `ServicePlacement.Scheduler.UpsertNode` | crates/control-plane/control-store/src/lib.rs:1016-1045 | a heartbeat is stored exactly if its names, capacity, endpoint and metadata size are valid |
| `ServicePlacement.JobsStayWithinLimits` | crates/control-plane/control-store/src/lib.rs:1053-1276 | over every run each node uses between zero and its limit of jobs, and placements name existing nodes |
| `ServicePlacement.ConservedExactlyWhenCovered` | crates/control-plane/control-store/src/lib.rs:1053-1276 | every run without heartbeats keeps reserved jobs minus placements, node by node, if and only if reservations cover the placements to begin with |
| `ServicePlacement.UnsettledResourcesMove` | crates/control-plane/control-store/src/lib.rs:1078-1119 | a re-placed resource goes to another node and is then served there |
| `ServicePlacement.AdvancesNeverRepeat` | crates/control-plane/control-store/src/lib.rs:1164-1198 | within a row lifetime every advance returns a higher generation than all before it, whatever runs between its two transactions |
| `ServicePlacement.SupersededCleanupDoesNothing` | crates/control-plane/control-store/src/lib.rs:1243-1276 | removal with the generation of a superseded advance changes nothing |
| `ServicePlacement.GenerationsRestartAfterRemoval` | crates/control-plane/control-store/src/lib.rs:1205-1276 | from any world in which a resource can be placed: after a removal an advance returns the generation of an earlier one, and late cleanup of the first attempt removes the second |
| `ServicePlacement.PlaceableAfterAHeartbeat` | crates/control-plane/control-store/src/lib.rs:1016-1119 | such a world is one heartbeat away from the start |
| `RoomPlacement.SelectMediaNode` | crates/control-plane/control-store/src/lib.rs:1702-1731 | the chosen node is first among all eligible ones by room load, session load, tracks and name |
| `RoomPlacement.LeastLoadedAmongTheUsable` | crates/control-plane/control-store/src/lib.rs:1702-1731 | first means: healthy, not draining, of the region, heard of within the window, below its limits in reported rooms, placed rooms and sessions, and no other such node is lighter by the ratios of rooms and of sessions, the tracks and the name |
| `RoomPlacement.SettledWhateverTheLoad` | crates/control-plane/control-store/src/lib.rs:1678-1700 | a room stays exactly if its node is healthy, not draining and heard of within the window, whatever its region and load |
| `RoomPlacement.RoomScheduler.PlaceRoom` | crates/control-plane/control-store/src/lib.rs:955-993 | succeeds exactly if the region and the window are valid and the room is settled, or some node is eligible and the next generation fits; a settled room stays, otherwise the least-loaded eligible node of the region gets it |
| `RoomPlacement.RoomScheduler.RemovePlacement` | crates/control-plane/control-store/src/lib.rs:1000-1009 | removes exactly the room's row |
| `RoomPlacement.GenerationCountsTheMoves` | crates/control-plane/control-store/src/lib.rs:975-993 | over every run a room's generation is the number of its assignments, each to another node than the one before |
| `RoomPlacement.HealthyAssignmentsStay` | crates/control-plane/control-store/src/lib.rs:1678-1700 | any number of calls leaves the node and generation of a room alone while its node serves |
| `RoomPlacement.OverbookedExactlyByHeartbeats` | crates/control-plane/control-store/src/lib.rs:1702-1731 | no node ever hosts more rooms than its limit, if and only if no heartbeat announces a limit below what is placed |
| `RoomPlacement.RaisingHeartbeatsNeverUndercut` | crates/control-plane/control-store/src/lib.rs:910-945 | heartbeats that never lower a limit never do that |
| `Sessions.SessionRegistry.constructor` | crates/services/media-node/src/lib.rs:83-91 | an empty registry whose capacity is capped |
| `Sessions.SessionRegistry.Provision` | crates/services/media-node/src/lib.rs:98-146 | succeeds exactly for valid, new identifiers and fragments within capacity; failures change nothing |
| `Sessions.SessionRegistry.RestartIce` | crates/services/media-node/src/lib.rs:154-197 | replaces credentials, fragment and routes of a live session, or changes nothing |
| `Sessions.SessionRegistry.Remove` | crates/services/media-node/src/lib.rs:200-219 | removes a session with all its aliases and lowers the gauge |
| `Sessions.SessionRegistry.HandleDatagram` | crates/services/media-node/src/lib.rs:226-293 | routes as specified and learns a remote only from a nomination that collides with nobody; a routed session always exists |
| `Sessions.EveryRegistryIsConsistent` | crates/services/media-node/src/lib.rs:98-293 | over every sequence of calls fragments and live sessions correspond one to one, routes are live, and the gauge equals the session count and stays within capacity |
| `Sessions.StunReachesExactlyTheCurrentFragment` | crates/services/media-node/src/lib.rs:471-487 | any username reaches a session if and only if its part before the first colon, or all of it, is the session's current fragment |
| `Sessions.CurrentFragmentReachesItsSession` | crates/services/media-node/src/lib.rs:471-487 | a live session is reached by its fragment alone and by its fragment before any colon |
| `Sessions.RestartSeversEarlierRoutes` | crates/services/media-node/src/lib.rs:154-197 | after an ICE restart (section 9 of RFC 8445) no earlier fragment or remote reaches the session |
| `Sessions.RoutesAreExactlyNominations` | crates/services/media-node/src/lib.rs:226-293 | media from a remote reaches a session if and only if that session nominated it and was neither restarted nor removed since |
| `Sessions.DatagramsAnsweredExactly` | crates/services/media-node/src/lib.rs:226-293 | in every reachable registry a datagram whose fragment is current for a session, or whose remote is routed to it, is answered with a collision exactly if it nominates a remote that another session has, with a transport error exactly if the session rejects it, and otherwise for that session, the remote being routed to it afterwards exactly if nominated |
| `Sessions.StrayDatagramsRefused` | crates/services/media-node/src/lib.rs:226-293 | a datagram that belongs to no session is answered with the reason and changes nothing |
| `Sessions.ChangesAcceptedExactly` | crates/services/media-node/src/lib.rs:98-197 | in every reachable registry provisioning succeeds exactly for a valid session that is not live, whose fragment no live session uses, within capacity; a restart exactly for a live session with valid credentials whose fragment no other session uses |
| `SessionRaces.SoundExactlyWhenHarmless` | crates/services/media-node/src/lib.rs:98-293 | a step at lock granularity keeps the registry consistent up to the removals in progress, if and only if it is harmless: a finishing restart finds the session it looked up, a finishing nomination a live or leaving one, and dropped fragments belong to no live session |
| `SessionRaces.InterleavingsSoundExactlyWhenHarmless` | crates/services/media-node/src/lib.rs:98-293 | so under every interleaving the registry is sound throughout if and only if every finishing step is harmless when it comes |
| `SessionRaces.DisciplinedRunsEndConsistent` | crates/services/media-node/src/lib.rs:98-293 | under every interleaving in which a session is provisioned again only after its fragments were dropped and removed only while no restart or delivery of it is in progress, the registry is consistent whenever idle and the gauge counts live and leaving sessions |
| `SessionRaces.UninterruptedRemovalIsAtomic` | crates/services/media-node/src/lib.rs:200-219 | taking the three locks one after the other without interruption is the atomic removal |
| `SessionRaces.UninterruptedRestartIsAtomic` | crates/services/media-node/src/lib.rs:154-197 | uninterrupted, looking the session up and updating the indexes is the atomic restart, refusals included |
| `SessionRaces.UninterruptedDeliveryIsAtomic` | crates/services/media-node/src/lib.rs:226-293 | uninterrupted, routing a datagram and learning its remote is the atomic delivery, refusals included |
| `SessionRaces.LateRestartConsistentExactlyWhenLive` | crates/services/media-node/src/lib.rs:163-197 | a restart that finishes late leaves a consistent registry if and only if its session is still the one it looked up, or came back under the same fragment |
| `SessionRaces.LateDeliveryConsistentExactlyWhenLive` | crates/services/media-node/src/lib.rs:244-272 | a late nomination leaves a consistent registry if and only if its session is still live |
| `SessionRaces.LateRemovalConsistentExactlyWhenGone` | crates/services/media-node/src/lib.rs:200-219 | finishing a removal leaves a consistent registry if and only if the session was not provisioned again before its fragments are dropped |
| `SessionRaces.RemovalDuringRestartBreaks` | crates/services/media-node/src/lib.rs:154-219 | from any idle registry, a removal inside a restart leaves a fragment that addresses no session |
| `SessionRaces.RemovalDuringDeliveryBreaks` | crates/services/media-node/src/lib.rs:200-272 | a removal inside a nomination leaves a remote routed to no session |
| `SessionRaces.ProvisionDuringRemovalBreaks` | crates/services/media-node/src/lib.rs:98-219 | provisioning an identifier inside its removal leaves a live session nothing addresses |
| `SnapshotNames.MetadataNameRoundTrip` | crates/services/media-gateway/src/metadata.rs:277-298 | identifier and revision are recovered from every name written, dashes and digits included |
| `SnapshotNames.IdentityComesFromTheStem` | crates/services/media-gateway/src/metadata.rs:277-298 | a name is read as an identity only if its stem was written for it |
| `SnapshotNames.TemporaryNamesAreInvisible` | crates/services/media-gateway/src/metadata.rs:328-332 | unfinished files are neither loaded nor pruned, whichever of the three name tests is used |
| `SnapshotNames.RoomNameRoundTrip` | crates/services/api-server/src/persistence.rs:481-522 | pruning a room sees exactly that room's files, each at its revision |
| `SnapshotNames.FenceNameRoundTrip` | crates/services/media-worker/src/assignment_state.rs:144-150 | the revision of a fence file is recovered, and revision zero is ignored |
| `SnapshotDirectory.Store.Load` | crates/services/api-server/src/persistence.rs:238-293 | for every identifier the highest revision that loads, and nothing exactly if none does |
| `SnapshotDirectory.Store.Persist` | crates/services/api-server/src/persistence.rs:295-347 | an existing room or fence revision is accepted only if it reads back as the same bytes; otherwise the file is added and older ones pruned |
| `SnapshotDirectory.Store.PersistMetadata` | crates/services/media-gateway/src/metadata.rs:308-358 | the same for media metadata, except that an unreadable file is replaced and every success prunes |
| `SnapshotDirectory.Store.Prune` | crates/services/media-gateway/src/metadata.rs:371-389 | deletes exactly the revisions that have two higher ones |
| `SnapshotDirectory.SkippingTwo` | crates/services/media-worker/src/assignment_state.rs:166-187 | skipping the two highest of a sorted listing leaves exactly those with two higher ones |
| `SnapshotDirectory.PruningDeletesExactly` | crates/services/media-gateway/src/metadata.rs:371-389 | pruning deletes exactly the files of the identifier for which two newer ones up to the current revision exist: no file of another identifier, none above that revision, and it rewrites none |
| `SnapshotDirectory.PersistKeepsLastTwo` | crates/services/api-server/src/persistence.rs:295-347 | an uninterrupted persist leaves exactly the last two revisions |
| `SnapshotCrashes.LoadFindsKnownOrInFlight` | crates/services/api-server/src/persistence.rs:238-347 | at any moment of any run with crashes between write, rename and each deletion, loading finds the last known revision or the one in flight, with its exact contents |
| `SnapshotCrashes.UninterruptedPersistIsAtomic` | crates/services/api-server/src/persistence.rs:295-347 | without interruption the write, the rename and deletions of all victims are the persist that keeps the last two revisions |
| `SnapshotCrashes.DamagedNewestFallsBackByOne` | crates/services/api-server/src/persistence.rs:238-347 | after two renames an unusable newest file costs exactly one revision |
| `SnapshotCrashes.DamagedNewestBlocksTheNextWrite` | crates/services/api-server/src/persistence.rs:309-319 | after that fallback a writer that numbers consecutively can write its next room or fence revision if and only if the damaged file reads back as the same bytes, and its next metadata revision also if that file cannot be read |
| `Transcode.Coordinator.Acquire` | crates/media/transcode-bridge/src/lib.rs:173-221 | shares, allocates or refuses as specified, keeping identifiers distinct and both quotas |
| `Transcode.Coordinator.Find` | crates/media/transcode-bridge/src/lib.rs:226-233 | a job is found by identifier exactly if it is live, and it is the only one |
| `Transcode.Coordinator.Release` | crates/media/transcode-bridge/src/lib.rs:226-244 | gives one reference back and removes the job with the last |
| `Transcode.Coordinator.UpdateState` | crates/media/transcode-bridge/src/lib.rs:251-259 | changes only the state of that job, or nothing |
| `Transcode.CountsBalance` | crates/media/transcode-bridge/src/lib.rs:173-244 | over every run a job's references are the acquisitions that returned it minus its releases, it exists exactly while that is positive, and the global and per-tenant quotas hold |
| `Transcode.RetiredForever` | crates/media/transcode-bridge/src/lib.rs:205-221 | an identifier whose job is gone is never returned again |
| `TranscodeSharing.SharedExactlyWhileHeld` | crates/media/transcode-bridge/src/lib.rs:173-244 | over every run a specification has a job exactly while more acquisitions of it were answered with that job than gave it back |
| `TranscodeSharing.AcquireAnswersExactly` | crates/media/transcode-bridge/src/lib.rs:173-221 | over every run an acquisition is refused as a specification exactly if that is not sensible, shares exactly the job its holders have, in the state last reported for it, and otherwise gets an identifier not given out for it before; each quota error means that quota is used up |
| `TranscodeSharing.ReleasesAndReportsAnsweredExactly` | crates/media/transcode-bridge/src/lib.rs:226-259 | a release and a report of a state succeed exactly while somebody holds the job |
| `TranscodeSharing.ValidExactlyWhenSensible` | crates/media/transcode-bridge/src/lib.rs:69-98 | a specification passes exactly if it names its source, has a rate in range, and turns audio into audio or a picture into one no larger |
| `Transcode.TranscodingProposedExactlyWhenConvertible` | crates/media/transcode-bridge/src/lib.rs:333-367 | negotiation proposes a transcode if and only if the request allows and needs one and its source and first decoder are both audio or both video with a picture on either side |
| `Transcode.EveryRequestIsAnsweredExactly` | crates/media/transcode-bridge/src/lib.rs:333-367 | the other answers: direct forwarding of the source codec exactly to subscribers that decode it outside a critical network with a playlist; the offered playlist exactly in a critical network or when neither that nor a conversion is possible; rejection exactly without one |
| `Transcode.ProposalsPassAcquire` | crates/media/transcode-bridge/src/lib.rs:69-98 | a proposed specification is never refused as a specification and asks for no more than the target |
| `Playlist.LivePlaylist.Validate` | crates/media/media-pipeline/src/lib.rs:88-116 | the loop accepts exactly the sound playlists |
| `Playlist.LivePlaylist.Push` | crates/media/media-pipeline/src/lib.rs:123-142 | appends and evicts as specified, or changes nothing |
| `Playlist.LivePlaylist.Render` | crates/media/media-pipeline/src/lib.rs:157-191 | the loops emit exactly the specified lines |
| `PlaylistReading.ClientReadsThePlaylist` | crates/media/media-pipeline/src/lib.rs:157-191 | a client that applies the tags line by line (section 4.3 of RFC 8216) reads back the segments with their numbers, durations, dates and discontinuities, the initialization map, the target and the end |
| `Playlist.SoundExactlyWhenReachable` | crates/media/media-pipeline/src/lib.rs:64-147 | validation accepts exactly what new, push and finish can produce |
| `Playlist.WindowHoldsTheLatest` | crates/media/media-pipeline/src/lib.rs:123-142 | evicted segments followed by the window are all pushed segments in order, and the media sequence is the first one's number (section 4.3.3.2 of RFC 8216) |
| `Playlist.PushedExactlyInSequence` | crates/media/media-pipeline/src/lib.rs:123-142 | over every run a push is accepted exactly if the playlist was not finished, the segment is admissible and its number is the first one plus the segments pushed before it |
| `PlaylistReading.SegmentAdmittedExactly` | crates/media/media-pipeline/src/lib.rs:31-46 | a segment is admissible exactly if it lasts up to a minute, its name is a short relative path without two-dot components, queries or fragments, and its date, if any, is short and ends in Z |
| `PlaylistReading.ParentComponentExactly` | crates/media/media-pipeline/src/lib.rs:194-216 | splitting at slashes finds a two-dot component exactly if two dots stand alone between slashes or the ends of the text |
| `Playlist.TargetCoversEverySegment` | crates/media/media-pipeline/src/lib.rs:157-170 | the target duration covers every windowed duration rounded up (section 4.3.3.1 of RFC 8216), exactly if the longest is at least a second, else by one more |
| `VodAsset.VodAggregate.Transition` | crates/media/media-pipeline/src/lib.rs:479-486 | version and state change together or not at all |
| `VodAsset.VodAggregate.Upload` | crates/media/media-pipeline/src/lib.rs:334-344 | upload progress as specified, never backwards |
| `VodAsset.VodAggregate.Complete` | crates/media/media-pipeline/src/lib.rs:351-359 | completes only a non-empty upload of the received size |
| `VodAsset.VodAggregate.Probe` | crates/media/media-pipeline/src/lib.rs:366-371 | probing only after a completed upload |
| `VodAsset.VodAggregate.Transcode` | crates/media/media-pipeline/src/lib.rs:378-392 | encoding only after probing or a retryable failure |
| `VodAsset.VodAggregate.Progress` | crates/media/media-pipeline/src/lib.rs:399-409 | output counts never fall |
| `VodAsset.VodAggregate.Publish` | crates/media/media-pipeline/src/lib.rs:416-433 | publishing only a relative manifest with a duration, while encoding |
| `VodAsset.VodAggregate.RecordFailure` | crates/media/media-pipeline/src/lib.rs:440-453 | a bounded reason, from any state that is not being removed |
| `VodAsset.VodAggregate.BeginDelete` | crates/media/media-pipeline/src/lib.rs:460-465 | deletion starts once |
| `VodAsset.VodAggregate.EndDelete` | crates/media/media-pipeline/src/lib.rs:472-477 | and ends once |
| `VodAsset.VersionCountsSuccesses` | crates/media/media-pipeline/src/lib.rs:334-486 | over every run the version is one plus the number of successful calls; failed calls change nothing |
| `VodAsset.AcceptedExactlyUnlessStartedTooEarly` | crates/media/media-pipeline/src/lib.rs:286-327 | every state of a run passes the load check if and only if encoding never starts below version 4 |
| `VodAsset.LateFailuresStayAcceptable` | crates/media/media-pipeline/src/lib.rs:286-327 | so it passes in every run that records failures only after the upload |
| `VodAsset.ReadyWasUploadedExactlyUnlessFailedEarly` | crates/media/media-pipeline/src/lib.rs:334-453 | a published asset passed through a completed non-empty upload of its received bytes if and only if no failure was recorded before it completed |
| `VodAsset.RetryWithoutUpload` | crates/media/media-pipeline/src/lib.rs:378-453 | a run that is unloadable on the way and published without an upload |
| `VodProgress.SucceedsExactlyWhenAllowed` | crates/media/media-pipeline/src/lib.rs:334-486 | each call succeeds exactly from the states and with the arguments it is meant for while the version can be raised; a failed call changes nothing |
| `VodProgress.PublishableExactlyUnlessRemoved` | crates/media/media-pipeline/src/lib.rs:378-453 | whatever happened before, some continuation publishes an asset under any given manifest if and only if it is not being removed |
| `VodProgress.UploadsGetPublished` | crates/media/media-pipeline/src/lib.rs:334-433 | an upload of any size, probed and encoded, is ready at version 6 |
| `VodProgress.RemovalIsFinal` | crates/media/media-pipeline/src/lib.rs:460-477 | over every run an asset being removed stays so, and a deleted one never changes |
| `VodProgress.RemovableAtAnyTime` | crates/media/media-pipeline/src/lib.rs:460-477 | two calls delete any asset not being removed yet |
| `VodProgress.UploadsNeverShrink` | crates/media/media-pipeline/src/lib.rs:334-359 | over every run the bytes received never fall |
| `VodProgress.OutputsNeverFallWithoutFailure` | crates/media/media-pipeline/src/lib.rs:399-409 | over every run without a recorded failure the completed outputs never fall |
| `VodProgress.RetryStartsOver` | crates/media/media-pipeline/src/lib.rs:378-453 | a retryable failure and a new start put the outputs back to zero; after a final failure the start is refused |
| `BytesCodec.ReadCursor.Take` | crates/foundation/bytes-codec/src/lib.rs:198-213 | the next bytes, or an error that leaves the cursor where it was |
| `BytesCodec.ReadCursor.ReadNumber` | crates/foundation/bytes-codec/src/lib.rs:134-191 | a big-endian number, or the same |
| `BytesCodec.ReadCursor.ReadU128` | crates/foundation/protocol/src/lib.rs:204-208 | two halves joined are the 16-byte number; a failure has read the first half or nothing |
| `BytesCodec.WriteBuffer.Extend` | crates/foundation/bytes-codec/src/lib.rs:303-312 | appends within the limit or writes nothing |
| `BytesCodec.WriteBuffer.WriteNumber` | crates/foundation/bytes-codec/src/lib.rs:267-296 | a big-endian number, or the same |
| `BytesCodec.WriteBuffer.WriteU128` | crates/foundation/protocol/src/lib.rs:198-202 | two halves written are the 16-byte number; a failure has written the first half or nothing |
| `BytesCodec.WriteBuffer.SetSlice` | crates/foundation/bytes-codec/src/lib.rs:334-343 | overwrites inside the written bytes or changes nothing |
| `BytesCodec.WriteBuffer.SetNumber` | crates/foundation/bytes-codec/src/lib.rs:320-332 | the patched bytes read back as the number, all others unchanged |
| `BytesCodec.DecodeEncoded` | crates/foundation/bytes-codec/src/lib.rs:276-296 | big-endian bytes of a number in range read back as it |
| `BytesCodec.EncodeDecoded` | crates/foundation/bytes-codec/src/lib.rs:149-191 | and any bytes are the encoding of the number they read as |
| `EnvelopeCodec.Encode` | crates/foundation/protocol/src/lib.rs:121-145 | writes the frame field by field, or fails for a payload over a limit |
| `EnvelopeCodec.Decode` | crates/foundation/protocol/src/lib.rs:153-195 | the cursor program computes the decoding function, error by error |
| `EnvelopeCodec.DecodesExactlyFrames` | crates/foundation/protocol/src/lib.rs:121-195 | decoding returns an envelope if and only if the input is its frame, its kind is canonical and its payload within limits |
| `EnvelopeCodec.RoundTripExactlyWhenCanonical` | crates/foundation/protocol/src/lib.rs:34-55 | an encoded envelope comes back if and only if its kind is canonical |
| `EnvelopeCodec.ReencodesExactlyWithinTheWireLimit` | crates/foundation/protocol/src/lib.rs:121-195 | an accepted frame re-encodes to the same bytes if and only if it is within the writer's limit |
| `ClaimsCodec.EncodeClaims` | crates/control-plane/auth/src/lib.rs:229-239 | writes the 57 bytes of the claims |
| `ClaimsCodec.DecodeClaims` | crates/control-plane/auth/src/lib.rs:241-261 | the cursor program computes the decoding function |
| `ClaimsCodec.ClaimsAndBytesCorrespond` | crates/control-plane/auth/src/lib.rs:229-261 | bytes decode to claims if and only if they are the bytes of those claims |
| `ClaimsCodec.DecodesExactlyByShape` | crates/control-plane/auth/src/lib.rs:241-261 | exactly the 57-byte inputs with the right magic and version decode |

## Left out

- JSON encoding and its size limits: stored values are structured, and `encodedBytes` of a signal is a given number.
- PostgreSQL isolation: each store transaction is one atomic step, except advancing a service placement, which is two; rows skipped because another transaction locked them appear as an arbitrary choice among eligible rows in the lemmas about runs.
- Database collation and floating point: node names are compared by code point and load ratios as exact rationals.
- Telemetry, HTTP routing, authentication of requests, base64, HMAC, TLS, DTLS, SRTP and STUN parsing: foreign or plumbing; a session's verdict on a datagram is an input.
- URL syntax: the parser's answer about a node endpoint is an input of `ServicePlacement.Scheduler.UpsertNode`, and heartbeat steps of the runs may carry any endpoint.
- Publishing of signals through the outbox: the composition of rooms and outbox covers room events; signal rows obey the same table rules.
- The attempt counter of an outbox row is unbounded here; the column is 32 bits wide.
- The side-effect table of the database backend and token revocation: single-row inserts and lookups that would only add easy members.
- Failure of the file system other than by a crash between steps, and loss of a rename that was reported as done.
- Consent timers, DTLS keying, RTP protection and counters of the media node, FFmpeg arguments, media-store, reconciler and SDKs.
- The rendered text of a playlist: lines are structured and segment durations are not formatted to three decimals.
- ServicePlacement.Scheduler.Place: states the least-loaded choice of an uncontended scheduler; under contention the source may take any eligible node, which the lemmas about runs allow.
- RoomPlacement.RoomScheduler.PlaceRoom: the same holds for the choice of a media node.
- SessionRaces.DisciplinedRunsEndConsistent: the lookup of a datagram's session and of its route, and the last two parts of a removal, are single steps.
- Runs so long that they exhaust a 64-bit counter: the lemmas about readers of a file-backed server, lease deadlines, transcoder counts and file-backed rooms are about runs shorter than that.
- SnapshotDirectory.Store.PersistMetadata: an unreadable file is one that cannot be read or is too large; a directory of that name, onto which a rename fails, is not part of this model.
