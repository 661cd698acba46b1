/**
 Two backlogs that must look the same to clients: the in-process window of a file-backed server and
 the signal table of the control store. Also the reader's side: what a client polling with a moving
 cursor receives.
 */
module SignalBacklog {
  import opened Prelude
  import opened RoomDomain
  import opened SignalCache

  const MAX_SIGNAL_KIND_BYTES: nat := 64
  const MAX_SIGNAL_PAYLOAD_BYTES: nat := 65_536

  /**
   What a client asks to append; `payloadBytes` is the size of the encoded payload and `encodedBytes`
   that of the record it becomes.
   */
  datatype Request = Request(
    commandId: CommandId, from: UserId, to: Option<UserId>, kind: string, payload: string,
    payloadBytes: nat, timestampMillis: u64, encodedBytes: u32)

  datatype SignalError =
    | InvalidKind
    | PayloadTooLarge
    | RoomNotFound
    | NumericRange
    | InvalidBatchSize
    | CursorOutOfRange

  function Record(q: Request, sequence: u64): Signal {
    SignalRecord(Some(q.commandId), sequence, q.from, q.to, q.kind, q.payload, q.timestampMillis,
                 q.encodedBytes)
  }

  /** The first cached record of a command, if any. */
  function FindCommand(s: seq<Signal>, commandId: CommandId): Option<Signal> {
    if s == [] then None
    else if s[0].commandId == Some(commandId) then Some(s[0])
    else FindCommand(s[1..], commandId)
  }

  /** Appending on a file-backed server: a retained command returns its record. */
  function FilesAppend(c: Cache, q: Request): (Cache, Signal) {
    match FindCommand(c.signals, q.commandId)
    case Some(existing) => (c, existing)
    case None =>
      var record := Record(q, c.nextSequence);
      (CacheSignal(c, record), record)
  }

  // ----- The signal table -----

  /** The room's sequence counter and its retained rows by sequence. */
  datatype Table = Table(signalSequence: nat, rows: map<nat, Signal>)

  ghost predicate CommandRow(t: Table, commandId: CommandId, k: nat) {
    k in t.rows && t.rows[k].commandId == Some(commandId)
  }

  ghost predicate Retained(t: Table, commandId: CommandId) { exists k :: CommandRow(t, commandId, k) }

  /** The columns are signed 64-bit: the next sequence and the timestamp have to fit. */
  predicate InRange(t: Table, q: Request) {
    t.signalSequence < I64_MAX && q.timestampMillis <= I64_MAX
  }

  ghost predicate Storable(t: Table, q: Request) { Retained(t, q.commandId) || InRange(t, q) }

  /** A retained command returns its record; a number out of range rolls the transaction back. */
  ghost function DbAppend(t: Table, q: Request): (Table, Result<Signal, SignalError>) {
    if Retained(t, q.commandId) then
      var k :| CommandRow(t, q.commandId, k);
      (t, Ok(t.rows[k]))
    else if !InRange(t, q) then (t, Err(NumericRange))
    else
      var sequence := t.signalSequence + 1;
      var record := Record(q, sequence);
      var rows := t.rows[sequence := record];
      (Table(sequence, map k | k in rows && k > sequence - SIGNAL_BACKLOG :: rows[k]), Ok(record))
  }

  /** Rows are exactly the most recent sequences, numbered as stored, one command each. */
  ghost predicate TableOk(t: Table) {
    && t.signalSequence <= I64_MAX
    && (forall k :: k in t.rows <==> Max(0, t.signalSequence - SIGNAL_BACKLOG) < k <= t.signalSequence)
    && (forall k :: k in t.rows ==> t.rows[k].sequence == k)
    && (forall j, k :: j in t.rows && k in t.rows && t.rows[j].commandId == t.rows[k].commandId ==> j == k)
  }

  ghost function Oldest(t: Table): nat { Max(0, t.signalSequence - SIGNAL_BACKLOG) }

  /** The retained rows in sequence order. */
  ghost function Window(t: Table): seq<Signal>
    requires TableOk(t)
  {
    seq(t.signalSequence - Oldest(t),
        i requires 0 <= i < t.signalSequence - Oldest(t) => t.rows[Oldest(t) + 1 + i])
  }

  /** Position `i` of the window and the row it shows. */
  lemma WindowAt(t: Table, i: nat)
    requires TableOk(t) && i < |Window(t)|
    ensures Oldest(t) + 1 + i in t.rows && Window(t)[i] == t.rows[Oldest(t) + 1 + i]
    ensures Window(t)[i].sequence == Oldest(t) + 1 + i
  {
  }

  lemma RowAt(t: Table, k: nat)
    requires TableOk(t) && k in t.rows
    ensures Oldest(t) < k <= t.signalSequence && k - Oldest(t) - 1 < |Window(t)|
    ensures Window(t)[k - Oldest(t) - 1] == t.rows[k] && t.rows[k].sequence == k
  {
  }

  lemma InsertKeepsTable(t: Table, q: Request)
    requires TableOk(t) && InRange(t, q) && !Retained(t, q.commandId)
    ensures TableOk(DbAppend(t, q).0)
  {
    var t' := DbAppend(t, q).0;
    var n := t'.signalSequence;
    assert forall k :: k in t'.rows ==> t'.rows[k] == if k == n then Record(q, n) else t.rows[k];
    assert forall k :: k in t'.rows && k != n ==> k in t.rows && !CommandRow(t, q.commandId, k);
  }

  lemma InsertSlidesWindow(t: Table, q: Request)
    requires TableOk(t) && InRange(t, q) && !Retained(t, q.commandId)
    requires TableOk(DbAppend(t, q).0)
    ensures Window(DbAppend(t, q).0)
            == LastN(Window(t) + [Record(q, t.signalSequence + 1)], SIGNAL_BACKLOG)
  {
    var t', record := DbAppend(t, q).0, Record(q, t.signalSequence + 1);
    var w, w' := Window(t), Window(t');
    var d := Oldest(t') - Oldest(t);
    assert LastN(w + [record], SIGNAL_BACKLOG) == (w + [record])[d..];
    assert |w'| == |w| + 1 - d;
    forall i | 0 <= i < |w'| ensures w'[i] == (w + [record])[d + i] {
      WindowAt(t', i);
      if d + i < |w| { WindowAt(t, d + i); }
    }
  }

  lemma {:induction false} DbAppendKeeps(t: Table, q: Request)
    requires TableOk(t)
    ensures TableOk(DbAppend(t, q).0)
    ensures var (t', r) := DbAppend(t, q);
            && (r.Ok? <==> Storable(t, q))
            && (if Retained(t, q.commandId)
                then t' == t && r.value.commandId == Some(q.commandId)
                     && r.value.sequence in t.rows && t.rows[r.value.sequence] == r.value
                else if !InRange(t, q) then t' == t
                else t'.signalSequence == t.signalSequence + 1 && r.value == Record(q, t'.signalSequence)
                     && Window(t') == LastN(Window(t) + [r.value], SIGNAL_BACKLOG))
  {
    if !Retained(t, q.commandId) && InRange(t, q) {
      InsertKeepsTable(t, q);
      InsertSlidesWindow(t, q);
    }
    hide Window;
  }

  lemma DbAppendValid(t: Table, q: Request)
    requires TableOk(t)
    ensures TableOk(DbAppend(t, q).0)
    ensures forall j, k :: CommandRow(t, q.commandId, j) && CommandRow(t, q.commandId, k) ==> j == k
  {
    if !Retained(t, q.commandId) && InRange(t, q) {
      InsertKeepsTable(t, q);
    }
  }

  /** Whichever row of a command is looked up, it is the answer. */
  lemma RepeatedAnswer(t: Table, q: Request, k: nat)
    requires TableOk(t) && CommandRow(t, q.commandId, k)
    ensures DbAppend(t, q) == (t, Ok(t.rows[k]))
  {
    DbAppendValid(t, q);
    hide TableOk;
  }

  /** A new command is refused for a number out of range, or becomes the newest of the retained rows. */
  lemma FreshAnswer(t: Table, q: Request)
    requires forall k :: !CommandRow(t, q.commandId, k)
    ensures DbAppend(t, q)
            == if !InRange(t, q) then (t, Err(NumericRange))
               else
                 var n := t.signalSequence + 1;
                 var rows := t.rows[n := Record(q, n)];
                 (Table(n, map k | k in rows && k > n - SIGNAL_BACKLOG :: rows[k]), Ok(Record(q, n)))
  {
    assert !Retained(t, q.commandId);
  }

  // ----- Agreement -----

  ghost predicate Agree(c: Cache, t: Table) {
    CacheInvariant(c) && TableOk(t)
    && c.signals == Window(t) && c.nextSequence == t.signalSequence + 1
  }

  lemma {:induction false} FindCommandSpec(s: seq<Signal>, commandId: CommandId)
    ensures FindCommand(s, commandId).Some? ==>
              FindCommand(s, commandId).value in s
              && FindCommand(s, commandId).value.commandId == Some(commandId)
    ensures FindCommand(s, commandId).None? ==>
              forall i :: 0 <= i < |s| ==> s[i].commandId != Some(commandId)
  {
    if s != [] && s[0].commandId != Some(commandId) {
      FindCommandSpec(s[1..], commandId);
      assert s == [s[0]] + s[1..];
    }
  }

  lemma SameCommands(t: Table, commandId: CommandId)
    requires TableOk(t)
    ensures FindCommand(Window(t), commandId).Some? <==> Retained(t, commandId)
    ensures forall k :: CommandRow(t, commandId, k) ==>
              FindCommand(Window(t), commandId) == Some(t.rows[k])
  {
    var w := Window(t);
    FindCommandSpec(w, commandId);
    if FindCommand(w, commandId).Some? {
      var i :| 0 <= i < |w| && w[i] == FindCommand(w, commandId).value;
      WindowAt(t, i);
      assert CommandRow(t, commandId, Oldest(t) + 1 + i);
    }
    forall k: nat | CommandRow(t, commandId, k)
      ensures FindCommand(w, commandId) == Some(t.rows[k])
    {
      RowAt(t, k);
    }
  }

  lemma AppendAtTheEnd(c: Cache, record: Signal)
    requires CacheInvariant(c) && record.sequence == c.nextSequence < U64_MAX
    ensures CacheSignal(c, record).signals == Trim(c.signals + [record])
    ensures CacheSignal(c, record).nextSequence == c.nextSequence + 1
    ensures CacheInvariant(CacheSignal(c, record))
  {
    assert forall i :: 0 <= i < |c.signals| ==> c.signals[i].sequence < record.sequence;
    CacheSignalKeepsInvariant(c, record);
  }

  /**
   One append: the answers are equal exactly if the numbers are in range, and the backlogs stay equal
   exactly if moreover the bytes allow it.
   */
  lemma {:induction false} AppendAgrees(c: Cache, t: Table, q: Request)
    requires Agree(c, t)
    ensures DbAppend(t, q).1 == Ok(FilesAppend(c, q).1) <==> Storable(t, q)
    ensures TableOk(DbAppend(t, q).0)
    ensures Agree(FilesAppend(c, q).0, DbAppend(t, q).0)
            <==> Storable(t, q) && TotalBytes(Window(DbAppend(t, q).0)) <= MAX_SIGNAL_CACHE_BYTES
  {
    hide TotalBytes, Trim, CacheSignal, DbAppend, CacheInvariant, TableOk, Window, FindCommand;
    DbAppendKeeps(t, q);
    SameCommands(t, q.commandId);
    InvariantFits(c);
    if Retained(t, q.commandId) {
      SameRecord(t, q);
    } else {
      var record := Record(q, c.nextSequence);
      NextInRange(t);
      AppendAtTheEnd(c, record);
      InvariantFits(CacheSignal(c, record));
      if InRange(t, q) && TotalBytes(Window(DbAppend(t, q).0)) <= MAX_SIGNAL_CACHE_BYTES {
        WindowLength(t);
        TrimByCountAlone(c.signals + [record]);
      }
    }
  }

  lemma InvariantFits(c: Cache)
    requires CacheInvariant(c)
    ensures TotalBytes(c.signals) <= MAX_SIGNAL_CACHE_BYTES
  {
  }

  lemma NextInRange(t: Table)
    requires TableOk(t)
    ensures t.signalSequence + 1 < U64_MAX
  {
  }

  lemma WindowLength(t: Table)
    requires TableOk(t)
    ensures |Window(t)| <= SIGNAL_BACKLOG
  {
  }

  /** A repeated command gets the one record it has. */
  lemma SameRecord(t: Table, q: Request)
    requires TableOk(t) && Retained(t, q.commandId)
    ensures DbAppend(t, q).1.Ok? && FindCommand(Window(t), q.commandId) == Some(DbAppend(t, q).1.value)
  {
    SameCommands(t, q.commandId);
    hide FindCommand, Window;
  }

  function FilesRun(requests: seq<Request>): Cache {
    if requests == [] then Empty()
    else FilesAppend(FilesRun(requests[..|requests| - 1]), requests[|requests| - 1]).0
  }

  ghost function DbRun(requests: seq<Request>): Table {
    if requests == [] then Table(0, map[])
    else DbAppend(DbRun(requests[..|requests| - 1]), requests[|requests| - 1]).0
  }

  lemma {:induction false} DbRunOk(requests: seq<Request>)
    ensures TableOk(DbRun(requests))
  {
    if requests != [] {
      DbRunOk(requests[..|requests| - 1]);
      DbAppendKeeps(DbRun(requests[..|requests| - 1]), requests[|requests| - 1]);
    }
  }

  /** The backlogs agree after every prefix of the requests. */
  ghost predicate AlwaysAgree(requests: seq<Request>) {
    Agree(FilesRun(requests), DbRun(requests))
    && (requests != [] ==> AlwaysAgree(requests[..|requests| - 1]))
  }

  /** Every request is stored, and its window in the database fits the byte budget. */
  ghost predicate AlwaysFits(requests: seq<Request>) {
    requests != [] ==>
      var init, q := requests[..|requests| - 1], requests[|requests| - 1];
      && Storable(DbRun(init), q) && TableOk(DbRun(requests))
      && TotalBytes(Window(DbRun(requests))) <= MAX_SIGNAL_CACHE_BYTES
      && AlwaysFits(init)
  }

  lemma AgreeInitially()
    ensures Agree(Empty(), Table(0, map[]))
  {
    assert Window(Table(0, map[])) == [];
  }

  /**
   The two backlogs agree after every prefix of a run of appends, repeats included, if and only if the
   database refuses none of them and its window fits the byte budget after each.
   */
  lemma {:induction false} BacklogsAgreeExactlyWhenBytesFit(requests: seq<Request>)
    ensures AlwaysAgree(requests) <==> AlwaysFits(requests)
  {
    hide TableOk, Window, TotalBytes, Agree, DbAppend, FilesAppend, Storable;
    AgreeInitially();
    if requests != [] {
      var n := |requests| - 1;
      BacklogsAgreeExactlyWhenBytesFit(requests[..n]);
      DbRunOk(requests);
      if Agree(FilesRun(requests[..n]), DbRun(requests[..n])) {
        AppendAgrees(FilesRun(requests[..n]), DbRun(requests[..n]), requests[n]);
      }
    }
  }

  // ----- Pages -----

  predicate VisibleTo(x: Signal, recipient: UserId) {
    x.to.None? || x.to.value == recipient
  }

  function Filter(s: seq<Signal>, after: nat, recipient: UserId): seq<Signal> {
    if s == [] then []
    else (if s[0].sequence > after && VisibleTo(s[0], recipient) then [s[0]] else [])
         + Filter(s[1..], after, recipient)
  }

  function Take(s: seq<Signal>, limit: nat): seq<Signal> {
    if |s| <= limit then s else s[..limit]
  }

  datatype Page = Page(signals: seq<Signal>, latestSequence: int)

  /** A file-backed server answers every cursor and limit. */
  function FilesPage(c: Cache, after: u64, limit: nat, recipient: UserId): Page {
    Page(Take(Filter(c.signals, after, recipient), limit), Max(0, c.nextSequence - 1))
  }

  /** Rows from sequence `k` upwards that the recipient may see, in order, at most `limit`. */
  ghost function Scan(t: Table, k: nat, recipient: UserId, limit: nat): seq<Signal>
    decreases t.signalSequence + 1 - k
  {
    if k > t.signalSequence || limit == 0 then []
    else if k in t.rows && VisibleTo(t.rows[k], recipient)
    then [t.rows[k]] + Scan(t, k + 1, recipient, limit - 1)
    else Scan(t, k + 1, recipient, limit)
  }

  /** The store refuses batch sizes outside 1 to 128 and cursors beyond a signed 64-bit number. */
  ghost function DbPage(t: Table, after: u64, limit: nat, recipient: UserId): Result<Page, SignalError> {
    if !(1 <= limit <= SIGNAL_BACKLOG) then Err(InvalidBatchSize)
    else if after > I64_MAX then Err(CursorOutOfRange)
    else Ok(Page(Scan(t, after + 1, recipient, limit), t.signalSequence))
  }

  lemma {:induction false} FilterNothingBelow(s: seq<Signal>, after: nat, recipient: UserId)
    requires forall i :: 0 <= i < |s| ==> s[i].sequence <= after
    ensures Filter(s, after, recipient) == []
  {
    if s != [] { FilterNothingBelow(s[1..], after, recipient); }
  }

  lemma TakeCons(x: Signal, s: seq<Signal>, limit: nat)
    requires limit > 0
    ensures Take([x] + s, limit) == [x] + Take(s, limit - 1)
  {
  }

  lemma FilterStep(s: seq<Signal>, i: nat, after: nat, recipient: UserId)
    requires i < |s|
    ensures Filter(s[i..], after, recipient)
            == (if s[i].sequence > after && VisibleTo(s[i], recipient) then [s[i]] else [])
               + Filter(s[i + 1..], after, recipient)
  {
    assert s[i..][1..] == s[i + 1..];
  }

  /** The rows above `o` are exactly the window `w`. */
  ghost predicate Shows(t: Table, w: seq<Signal>, o: nat) {
    |w| == t.signalSequence - o
    && forall j :: 0 <= j < |w| ==>
         o + 1 + j in t.rows && t.rows[o + 1 + j] == w[j] && w[j].sequence == o + 1 + j
  }

  lemma WindowShows(t: Table)
    requires TableOk(t)
    ensures Shows(t, Window(t), Oldest(t))
  {
    forall j | 0 <= j < |Window(t)|
      ensures Oldest(t) + 1 + j in t.rows && t.rows[Oldest(t) + 1 + j] == Window(t)[j]
              && Window(t)[j].sequence == Oldest(t) + 1 + j
    {
      WindowAt(t, j);
    }
  }

  lemma {:induction false} ScanInside(t: Table, w: seq<Signal>, o: nat, i: nat, recipient: UserId,
                                      limit: nat, after: nat)
    requires Shows(t, w, o) && i <= |w| && after < o + 1 + i
    ensures Scan(t, o + 1 + i, recipient, limit) == Take(Filter(w[i..], after, recipient), limit)
    decreases |w| - i
  {
    var k := o + 1 + i;
    if i == |w| {
      ScanPast(t, k, recipient, limit);
      assert w[i..] == [];
    } else if limit > 0 {
      hide Filter, Take;
      FilterStep(w, i, after, recipient);
      var rest := Filter(w[i + 1..], after, recipient);
      if VisibleTo(w[i], recipient) {
        ScanInside(t, w, o, i + 1, recipient, limit - 1, after);
        TakeCons(w[i], rest, limit);
      } else {
        ScanInside(t, w, o, i + 1, recipient, limit, after);
        assert [] + rest == rest;
      }
    }
  }

  lemma {:induction false} ScanBelow(t: Table, k: nat, recipient: UserId, limit: nat)
    requires TableOk(t) && k <= Oldest(t) + 1 && limit > 0
    ensures Scan(t, k, recipient, limit) == Scan(t, Oldest(t) + 1, recipient, limit)
    decreases Oldest(t) + 1 - k
  {
    if k <= Oldest(t) { ScanBelow(t, k + 1, recipient, limit); }
  }

  /** Filtering the whole window only concerns the part above the cursor. */
  lemma FilterFrom(w: seq<Signal>, i: nat, after: nat, recipient: UserId)
    requires i <= |w| && forall j :: 0 <= j < i ==> w[j].sequence <= after
    ensures Filter(w, after, recipient) == Filter(w[i..], after, recipient)
  {
    assert w == w[..i] + w[i..];
    hide Filter;
    FilterNothingBelow(w[..i], after, recipient);
    FilterConcat(w[..i], w[i..], after, recipient);
    assert [] + Filter(w[i..], after, recipient) == Filter(w[i..], after, recipient);
  }

  /**
   Agreeing backlogs serve the same page to every recipient, if and only if the store accepts the
   batch size and the cursor.
   */
  lemma PagesAgree(c: Cache, t: Table, after: u64, limit: nat, recipient: UserId)
    requires Agree(c, t)
    ensures DbPage(t, after, limit, recipient) == Ok(FilesPage(c, after, limit, recipient))
            <==> 1 <= limit <= SIGNAL_BACKLOG && after <= I64_MAX
  {
    hide Window, TableOk, Filter, Scan, Take, CacheInvariant;
    if limit > 0 { ScanIsFilteredWindow(t, after, limit, recipient); }
  }

  /** A cursor beyond the store's range: the file-backed server answers, the store refuses. */
  lemma PagesDifferBeyondTheStoresRange(recipient: UserId) returns (c: Cache, t: Table, after: u64)
    ensures Agree(c, t)
    ensures FilesPage(c, after, 1, recipient) == Page([], 0)
    ensures DbPage(t, after, 1, recipient) == Err(CursorOutOfRange)
  {
    c, t, after := Empty(), Table(0, map[]), I64_MAX + 1;
    AgreeInitially();
  }

  lemma TakeNothing(limit: nat)
    ensures Take([], limit) == []
  {
  }

  lemma ScanPast(t: Table, k: nat, recipient: UserId, limit: nat)
    requires k > t.signalSequence
    ensures Scan(t, k, recipient, limit) == []
  {
  }

  lemma {:induction false} FilterConcat(a: seq<Signal>, b: seq<Signal>, after: nat, recipient: UserId)
    ensures Filter(a + b, after, recipient)
            == Filter(a, after, recipient) + Filter(b, after, recipient)
  {
    if a == [] {
      assert a + b == b;
    } else {
      assert (a + b)[1..] == a[1..] + b;
      FilterConcat(a[1..], b, after, recipient);
    }
  }

  // ----- The window under any byte load -----

  function Records(requests: seq<Request>): seq<Signal>
    requires |requests| < U64_MAX - 1
  {
    seq(|requests|, i requires 0 <= i < |requests| => Record(requests[i], i + 1))
  }

  ghost predicate DistinctCommands(requests: seq<Request>) {
    forall i, j :: 0 <= i < j < |requests| ==> requests[i].commandId != requests[j].commandId
  }

  lemma FreshCommandIsNotRetained(requests: seq<Request>, kept: seq<Signal>)
    requires 0 < |requests| < U64_MAX - 1 && DistinctCommands(requests)
    requires forall x :: x in kept ==> x in Records(requests[..|requests| - 1])
    ensures FindCommand(kept, requests[|requests| - 1].commandId).None?
  {
    hide FindCommand;
    var n := |requests| - 1;
    FindCommandSpec(kept, requests[n].commandId);
    forall x | x in kept ensures x.commandId != Some(requests[n].commandId) {
      var i :| 0 <= i < n && x == Records(requests[..n])[i];
    }
  }

  lemma TrimKeepsOnlyRecords(s: seq<Signal>)
    ensures forall x :: x in Trim(s) ==> x in s
  {
    TrimIsLongestFittingSuffix(s);
  }

  lemma RecordsSnoc(requests: seq<Request>)
    requires 0 < |requests| < U64_MAX - 1
    ensures var n := |requests| - 1;
            Records(requests) == Records(requests[..n]) + [Record(requests[n], n + 1)]
  {
  }

  /** Whatever the record sizes, the window is the longest suffix of all appends within both budgets. */
  lemma {:induction false} FilesWindowIsLongestFittingSuffix(requests: seq<Request>)
    requires |requests| < U64_MAX - 1 && DistinctCommands(requests)
    ensures FilesRun(requests).signals == Trim(Records(requests))
    ensures FilesRun(requests).nextSequence == |requests| + 1 && CacheInvariant(FilesRun(requests))
  {
    if requests != [] {
      hide Trim, Records, CacheInvariant, CacheSignal, FindCommand;
      var n := |requests| - 1;
      var init, record := requests[..n], Record(requests[n], n + 1);
      FilesWindowIsLongestFittingSuffix(init);
      RecordsSnoc(requests);
      TrimKeepsOnlyRecords(Records(init));
      FreshCommandIsNotRetained(requests, Trim(Records(init)));
      AppendAtTheEnd(FilesRun(init), record);
      TrimAfterTrim(Records(init), [record]);
    }
  }

  // ----- A polling reader -----

  /**
   What a reader that started at `start` has received, against the retained records and the highest
   sequence given out: strictly increasing, its own, above its start, and every retained record of
   its own up to its cursor.
   */
  ghost predicate SeenOnce(retained: seq<Signal>, highest: nat, cursor: nat, received: seq<Signal>,
                           start: nat, recipient: UserId) {
    && Increasing(retained) && (forall x :: x in retained ==> x.sequence <= highest)
    && start <= cursor && (cursor == start || cursor <= highest)
    && Increasing(received)
    && (forall x :: x in received ==> start < x.sequence <= cursor && VisibleTo(x, recipient))
    && (forall x | x in retained && start < x.sequence <= cursor ::
          VisibleTo(x, recipient) ==> x in received)
  }

  /** A restart is one of the server; the reader keeps its cursor. */
  datatype Activity = Append(request: Request) | Read(limit: nat) | Restart

  /** `received` is what arrived since the server started, and `floor` the cursor at that time. */
  datatype Reader = Reader(cursor: u64, received: seq<Signal>, floor: u64)

  function FreshReader(cursor: u64): Reader { Reader(cursor, [], cursor) }

  /** Reading moves the cursor to the last sequence received. */
  function Receive(r: Reader, page: seq<Signal>): Reader {
    if page == [] then r
    else r.(cursor := page[|page| - 1].sequence, received := r.received + page)
  }

  lemma {:induction false} FilterSpec(s: seq<Signal>, after: nat, recipient: UserId)
    requires Increasing(s)
    ensures Increasing(Filter(s, after, recipient))
    ensures forall x :: x in Filter(s, after, recipient)
                        <==> x in s && x.sequence > after && VisibleTo(x, recipient)
  {
    if s != [] {
      var rest := Filter(s[1..], after, recipient);
      FilterSpec(s[1..], after, recipient);
      assert s == [s[0]] + s[1..];
      forall i | 0 <= i < |rest| ensures s[0].sequence < rest[i].sequence {
        assert rest[i] in s[1..];
      }
    }
  }

  /** A page is exactly the visible records between the cursor and its own last record. */
  lemma PageSpec(s: seq<Signal>, after: nat, limit: nat, recipient: UserId)
    requires Increasing(s)
    ensures var page := Take(Filter(s, after, recipient), limit);
            && Increasing(page)
            && (forall x :: x in page ==> x in s && x.sequence > after && VisibleTo(x, recipient))
            && (page != [] ==>
                  forall x | x in s && after < x.sequence <= page[|page| - 1].sequence ::
                    VisibleTo(x, recipient) ==> x in page)
  {
    hide Filter;
    var all := Filter(s, after, recipient);
    FilterSpec(s, after, recipient);
    var page := Take(all, limit);
    if page != [] {
      forall x | x in s && after < x.sequence <= page[|page| - 1].sequence && VisibleTo(x, recipient)
        ensures x in page
      {
        var j :| 0 <= j < |all| && all[j] == x;
        assert page[|page| - 1] == all[|page| - 1];
        assert page[j] == x;
      }
    }
  }

  lemma IncreasingConcat(a: seq<Signal>, b: seq<Signal>, middle: nat)
    requires Increasing(a) && Increasing(b)
    requires forall x :: x in a ==> x.sequence <= middle
    requires forall x :: x in b ==> middle < x.sequence
    ensures Increasing(a + b)
  {
    forall i, j | 0 <= i < j < |a + b| ensures (a + b)[i].sequence < (a + b)[j].sequence {
      if i < |a| <= j {
        assert (a + b)[i] in a && (a + b)[j] in b;
      }
    }
  }

  lemma LastIsHighest(s: seq<Signal>)
    requires Increasing(s) && s != []
    ensures forall x :: x in s ==> x.sequence <= s[|s| - 1].sequence
  {
  }

  /** Receiving a page of what is retained keeps the account. */
  lemma ReadKeepsSeen(retained: seq<Signal>, highest: nat, r: Reader, limit: nat, recipient: UserId)
    requires SeenOnce(retained, highest, r.cursor, r.received, r.floor, recipient)
    ensures var r' := Receive(r, Take(Filter(retained, r.cursor, recipient), limit));
            r'.floor == r.floor
            && SeenOnce(retained, highest, r'.cursor, r'.received, r.floor, recipient)
  {
    hide Take, Filter, Increasing, VisibleTo;
    var page := Take(Filter(retained, r.cursor, recipient), limit);
    PageSpec(retained, r.cursor, limit, recipient);
    if page != [] {
      IncreasingConcat(r.received, page, r.cursor);
      LastIsHighest(page);
      assert page[|page| - 1] in page;
    }
  }

  /** New records come above everything given out, and eviction only removes. */
  lemma AppendKeepsSeen(retained: seq<Signal>, retained': seq<Signal>, highest: nat, highest': nat,
                        r: Reader, start: nat, recipient: UserId)
    requires SeenOnce(retained, highest, r.cursor, r.received, start, recipient)
    requires Increasing(retained') && highest <= highest'
    requires forall x :: x in retained' ==> x in retained || highest < x.sequence <= highest'
    ensures SeenOnce(retained', highest', r.cursor, r.received, start, recipient)
  {
    hide Increasing;
  }

  lemma NothingSeenYet(start: nat, recipient: UserId)
    ensures SeenOnce([], 0, start, [], start, recipient) && CacheInvariant(Empty())
    ensures TableOk(Table(0, map[])) && Window(Table(0, map[])) == []
  {
  }

  // ----- Polling a file-backed server -----

  lemma RetainedAfterAppend(c: Cache, q: Request)
    requires CacheInvariant(c) && 0 < c.nextSequence < U64_MAX
    ensures var c' := FilesAppend(c, q).0;
            && CacheInvariant(c') && c.nextSequence <= c'.nextSequence <= c.nextSequence + 1
            && (forall x :: x in c'.signals ==>
                  x in c.signals || c.nextSequence == x.sequence == c'.nextSequence - 1)
  {
    hide CacheInvariant, CacheSignal, Trim;
    if FindCommand(c.signals, q.commandId).None? {
      var record := Record(q, c.nextSequence);
      AppendAtTheEnd(c, record);
      TrimKeepsOnlyRecords(c.signals + [record]);
      assert forall x :: x in c.signals + [record] ==> x in c.signals || x == record;
    }
  }

  /** A restart empties the window and starts numbering again at 1. */
  function PollFiles(start: u64, activities: seq<Activity>, recipient: UserId): (Cache, Reader) {
    if activities == [] then (Empty(), FreshReader(start))
    else
      var (c, r) := PollFiles(start, activities[..|activities| - 1], recipient);
      match activities[|activities| - 1]
      case Append(q) => (FilesAppend(c, q).0, r)
      case Read(limit) => (c, Receive(r, FilesPage(c, r.cursor, limit, recipient).signals))
      case Restart => (Empty(), FreshReader(r.cursor))
  }

  lemma CacheIsIncreasing(c: Cache)
    requires CacheInvariant(c)
    ensures Increasing(c.signals)
  {
  }

  /**
   Whatever is appended between its reads and however often the server restarts, a reader receives
   strictly increasing sequences, only its own records above the cursor it had when the server started,
   and every one of those still retained at or below its cursor; so each is seen exactly once, in order.
   */
  lemma {:induction false} FilesReaderSeesEachRetainedRecordOnce(
    start: u64, activities: seq<Activity>, recipient: UserId)
    requires |activities| < U64_MAX - 1
    ensures var (c, r) := PollFiles(start, activities, recipient);
            && CacheInvariant(c) && 0 < c.nextSequence <= |activities| + 1
            && SeenOnce(c.signals, c.nextSequence - 1, r.cursor, r.received, r.floor, recipient)
  {
    hide SeenOnce, CacheInvariant, FilesAppend, Receive, Take, Filter;
    NothingSeenYet(start, recipient);
    if activities != [] {
      var n := |activities| - 1;
      FilesReaderSeesEachRetainedRecordOnce(start, activities[..n], recipient);
      var (c, r) := PollFiles(start, activities[..n], recipient);
      match activities[n] {
        case Append(q) =>
          RetainedAfterAppend(c, q);
          CacheIsIncreasing(FilesAppend(c, q).0);
          AppendKeepsSeen(c.signals, FilesAppend(c, q).0.signals, c.nextSequence - 1,
                          FilesAppend(c, q).0.nextSequence - 1, r, r.floor, recipient);
        case Read(limit) => ReadKeepsSeen(c.signals, c.nextSequence - 1, r, limit, recipient);
        case Restart => NothingSeenYet(r.cursor, recipient);
      }
    }
  }

  /** The record was passed by: no later read returns it, and it was not received. */
  ghost predicate Missed(x: Signal, r: Reader, recipient: UserId) {
    VisibleTo(x, recipient) && x.sequence <= r.cursor && x !in r.received
  }

  lemma MissedOnlyBelowTheFloor(retained: seq<Signal>, highest: nat, r: Reader, recipient: UserId, x: Signal)
    requires SeenOnce(retained, highest, r.cursor, r.received, r.floor, recipient)
    requires x in retained && VisibleTo(x, recipient)
    ensures Missed(x, r, recipient) <==> x.sequence <= r.floor
  {
    hide Increasing;
  }

  /** A retained record of the reader's own is missed exactly if its number was already behind the
      cursor when the server started. */
  lemma {:induction false} RecordsMissedExactlyBelowTheFloor(
    start: u64, activities: seq<Activity>, recipient: UserId, x: Signal)
    requires |activities| < U64_MAX - 1
    ensures var (c, r) := PollFiles(start, activities, recipient);
            x in c.signals && VisibleTo(x, recipient) ==>
              (Missed(x, r, recipient) <==> x.sequence <= r.floor)
  {
    FilesReaderSeesEachRetainedRecordOnce(start, activities, recipient);
    var (c, r) := PollFiles(start, activities, recipient);
    hide *;
    if x in c.signals && VisibleTo(x, recipient) {
      MissedOnlyBelowTheFloor(c.signals, c.nextSequence - 1, r, recipient, x);
    }
  }

  /** Nothing retained is missed after these activities of a freshly started server. */
  ghost predicate NothingMissed(cursor: u64, activities: seq<Activity>, recipient: UserId) {
    var (c, r) := PollFiles(cursor, activities, recipient);
    forall x | x in c.signals :: !Missed(x, r, recipient)
  }

  ghost predicate WithoutRestart(activities: seq<Activity>) {
    |activities| < U64_MAX - 1 && forall i :: 0 <= i < |activities| ==> !activities[i].Restart?
  }

  lemma {:induction false} FloorStays(cursor: u64, activities: seq<Activity>, recipient: UserId)
    requires WithoutRestart(activities)
    ensures PollFiles(cursor, activities, recipient).1.floor == cursor
  {
    if activities != [] {
      hide FilesAppend, FilesPage;
      FloorStays(cursor, activities[..|activities| - 1], recipient);
    }
  }

  lemma {:induction false} NumberedFromOne(cursor: u64, activities: seq<Activity>, recipient: UserId)
    requires |activities| < U64_MAX - 1
    ensures forall x :: x in PollFiles(cursor, activities, recipient).0.signals ==> x.sequence >= 1
  {
    if activities != [] {
      var n := |activities| - 1;
      NumberedFromOne(cursor, activities[..n], recipient);
      FilesReaderSeesEachRetainedRecordOnce(cursor, activities[..n], recipient);
      var (c, r) := PollFiles(cursor, activities[..n], recipient);
      hide CacheInvariant, FilesAppend, SeenOnce, FilesPage;
      if activities[n].Append? { RetainedAfterAppend(c, activities[n].request); }
    }
  }

  lemma FirstRecord(q: Request)
    requires q.encodedBytes == 0
    ensures FilesAppend(Empty(), q).0.signals == [Record(q, 1)]
  {
    var record := Record(q, 1);
    AgreeInitially();
    AppendAtTheEnd(Empty(), record);
    assert [] + [record] == [record] && [record][1..] == [];
    assert TotalBytes([record]) == 0;
    hide CacheSignal;
  }

  /** The first record after a start has number 1, which any cursor above 0 passes by. */
  lemma FirstRecordIsMissed(cursor: u64, recipient: UserId) returns (activities: seq<Activity>)
    requires cursor > 0
    ensures WithoutRestart(activities) && !NothingMissed(cursor, activities, recipient)
  {
    var q := Request(0, 0, None, "k", "", 0, 0, 0);
    activities := [Append(q)];
    assert activities[..0] == [];
    assert PollFiles(cursor, [], recipient) == (Empty(), FreshReader(cursor));
    assert PollFiles(cursor, activities, recipient) == (FilesAppend(Empty(), q).0, FreshReader(cursor));
    FirstRecord(q);
    hide FilesAppend, PollFiles;
    assert Record(q, 1) in FilesAppend(Empty(), q).0.signals;
    assert Missed(Record(q, 1), FreshReader(cursor), recipient);
  }

  /** A reader loses nothing through a restart, whatever follows, if and only if its cursor was 0. */
  lemma {:induction false} RestartIsHarmlessExactlyAtCursorZero(cursor: u64, recipient: UserId)
    ensures (forall activities | WithoutRestart(activities) :: NothingMissed(cursor, activities, recipient))
            <==> cursor == 0
  {
    if cursor == 0 {
      forall activities | WithoutRestart(activities) ensures NothingMissed(cursor, activities, recipient) {
        var (c, r) := PollFiles(cursor, activities, recipient);
        FloorStays(cursor, activities, recipient);
        NumberedFromOne(cursor, activities, recipient);
        forall x | x in c.signals ensures !Missed(x, r, recipient) {
          RecordsMissedExactlyBelowTheFloor(cursor, activities, recipient, x);
        }
        hide PollFiles;
      }
    } else {
      var activities := FirstRecordIsMissed(cursor, recipient);
      hide NothingMissed, WithoutRestart;
    }
  }

  // ----- Polling the database -----

  /** The page scan is the filtered window. */
  lemma ScanIsFilteredWindow(t: Table, after: nat, limit: nat, recipient: UserId)
    requires TableOk(t) && limit > 0
    ensures Scan(t, after + 1, recipient, limit) == Take(Filter(Window(t), after, recipient), limit)
  {
    hide Window, TableOk, Filter, Scan, Take, Oldest;
    var w, o := Window(t), Oldest(t);
    WindowShows(t);
    if after <= o {
      ScanBelow(t, after + 1, recipient, limit);
      ScanInside(t, w, o, 0, recipient, limit, after);
      assert w[0..] == w;
    } else if after - o <= |w| {
      FilterFrom(w, after - o, after, recipient);
      ScanInside(t, w, o, after - o, recipient, limit, after);
    } else {
      FilterNothingBelow(w, after, recipient);
      ScanPast(t, after + 1, recipient, limit);
      TakeNothing(limit);
    }
  }

  lemma WindowIsIncreasing(t: Table)
    requires TableOk(t)
    ensures Increasing(Window(t))
    ensures forall x :: x in Window(t) ==> x.sequence <= t.signalSequence
  {
    WindowShows(t);
    hide Window, TableOk;
  }

  lemma WindowAfterAppend(t: Table, q: Request)
    requires TableOk(t)
    ensures TableOk(DbAppend(t, q).0)
    ensures t.signalSequence <= DbAppend(t, q).0.signalSequence
    ensures forall x :: x in Window(DbAppend(t, q).0) ==>
              x in Window(t) || t.signalSequence < x.sequence <= DbAppend(t, q).0.signalSequence
  {
    DbAppendKeeps(t, q);
    hide TableOk, Window;
    if !Retained(t, q.commandId) && InRange(t, q) {
      var record := DbAppend(t, q).1.value;
      var all := Window(t) + [record];
      assert forall x :: x in all ==> x in Window(t) || x == record;
      assert forall x :: x in LastN(all, SIGNAL_BACKLOG) ==> x in all;
    }
  }

  /** A refused page changes nothing, and a restart of the server leaves the table alone. */
  ghost function PollDb(start: u64, activities: seq<Activity>, recipient: UserId): (Table, Reader) {
    if activities == [] then (Table(0, map[]), FreshReader(start))
    else
      var (t, r) := PollDb(start, activities[..|activities| - 1], recipient);
      match activities[|activities| - 1]
      case Append(q) => (DbAppend(t, q).0, r)
      case Read(limit) =>
        var page := DbPage(t, r.cursor, limit, recipient);
        if page.Ok? then (t, Receive(r, page.value.signals)) else (t, r)
      case Restart => (t, r)
  }

  /** The same for readers of the database backlog, whose guarantee restarts do not touch. */
  lemma {:induction false} DbReaderSeesEachRetainedRecordOnce(
    start: u64, activities: seq<Activity>, recipient: UserId)
    ensures var (t, r) := PollDb(start, activities, recipient);
            && TableOk(t) && r.floor == start
            && SeenOnce(Window(t), t.signalSequence, r.cursor, r.received, start, recipient)
  {
    hide SeenOnce, TableOk, Window, DbAppend, Receive, Take, Filter, Scan;
    NothingSeenYet(start, recipient);
    if activities != [] {
      var n := |activities| - 1;
      DbReaderSeesEachRetainedRecordOnce(start, activities[..n], recipient);
      var (t, r) := PollDb(start, activities[..n], recipient);
      match activities[n] {
        case Append(q) =>
          var t' := DbAppend(t, q).0;
          WindowAfterAppend(t, q);
          WindowIsIncreasing(t');
          AppendKeepsSeen(Window(t), Window(t'), t.signalSequence, t'.signalSequence, r, start, recipient);
        case Read(limit) =>
          if limit > 0 {
            ScanIsFilteredWindow(t, r.cursor, limit, recipient);
            ReadKeepsSeen(Window(t), t.signalSequence, r, limit, recipient);
          }
        case Restart =>
      }
    }
  }

  // ----- Who gets what -----

  /** The record says what the request said. */
  ghost predicate Carries(x: Signal, q: Request) {
    x.commandId == Some(q.commandId) && x.from == q.from && x.to == q.to && x.kind == q.kind
    && x.payload == q.payload && x.timestampMillis == q.timestampMillis
  }

  /** Every record comes from a request. */
  ghost predicate AllCarried(retained: seq<Signal>, requests: seq<Request>) {
    forall x :: x in retained ==> exists i :: 0 <= i < |requests| && Carries(x, requests[i])
  }

  lemma CarriedLonger(retained: seq<Signal>, retained': seq<Signal>, requests: seq<Request>, q: Request)
    requires AllCarried(retained, requests)
    requires forall x :: x in retained' ==> x in retained || Carries(x, q)
    ensures AllCarried(retained', requests + [q])
  {
    hide Carries;
    var longer := requests + [q];
    forall x | x in retained' ensures exists i :: 0 <= i < |longer| && Carries(x, longer[i]) {
      if x in retained {
        var i :| 0 <= i < |requests| && Carries(x, requests[i]);
        assert longer[i] == requests[i];
      } else {
        assert longer[|requests|] == q;
      }
    }
  }

  lemma FilesAppendCarries(c: Cache, q: Request)
    requires CacheInvariant(c) && 0 < c.nextSequence < U64_MAX
    ensures var (c', x) := FilesAppend(c, q);
            && (forall y :: y in c'.signals ==> y in c.signals || Carries(y, q))
            && (x in c.signals || (Carries(x, q) && x.sequence == c.nextSequence))
            && x.commandId == Some(q.commandId)
  {
    hide CacheInvariant, CacheSignal, Trim;
    FindCommandSpec(c.signals, q.commandId);
    if FindCommand(c.signals, q.commandId).None? {
      var record := Record(q, c.nextSequence);
      AppendAtTheEnd(c, record);
      TrimKeepsOnlyRecords(c.signals + [record]);
      assert forall y :: y in c.signals + [record] ==> y in c.signals || y == record;
    }
  }

  lemma {:induction false} FilesRunCarries(requests: seq<Request>)
    requires |requests| < U64_MAX - 1
    ensures CacheInvariant(FilesRun(requests)) && 0 < FilesRun(requests).nextSequence <= |requests| + 1
    ensures AllCarried(FilesRun(requests).signals, requests)
  {
    hide CacheInvariant, FilesAppend, Carries, AllCarried;
    NothingSeenYet(0, 0);
    NothingCarried();
    if requests != [] {
      var n := |requests| - 1;
      FilesRunCarries(requests[..n]);
      var c := FilesRun(requests[..n]);
      RetainedAfterAppend(c, requests[n]);
      FilesAppendCarries(c, requests[n]);
      CarriedLonger(c.signals, FilesAppend(c, requests[n]).0.signals, requests[..n], requests[n]);
      assert requests == requests[..n] + [requests[n]];
    }
  }

  lemma NothingCarried()
    ensures AllCarried([], [])
  {
  }

  lemma DbAppendCarries(t: Table, q: Request)
    requires TableOk(t)
    ensures TableOk(DbAppend(t, q).0)
    ensures forall y :: y in Window(DbAppend(t, q).0) ==> y in Window(t) || Carries(y, q)
  {
    DbAppendKeeps(t, q);
    hide TableOk, Window;
    if !Retained(t, q.commandId) && InRange(t, q) {
      var record := DbAppend(t, q).1.value;
      var all := Window(t) + [record];
      assert forall x :: x in all ==> x in Window(t) || x == record;
      assert forall x :: x in LastN(all, SIGNAL_BACKLOG) ==> x in all;
    }
  }

  lemma {:induction false} DbRunCarries(requests: seq<Request>)
    ensures TableOk(DbRun(requests)) && AllCarried(Window(DbRun(requests)), requests)
  {
    hide TableOk, Window, DbAppend, Carries, AllCarried;
    NothingSeenYet(0, 0);
    NothingCarried();
    if requests != [] {
      var n := |requests| - 1;
      DbRunCarries(requests[..n]);
      DbAppendCarries(DbRun(requests[..n]), requests[n]);
      CarriedLonger(Window(DbRun(requests[..n])), Window(DbRun(requests)), requests[..n], requests[n]);
      assert requests == requests[..n] + [requests[n]];
    }
  }

  /**
   A page for a recipient, against the retained records: nothing for anybody else, nothing at or below
   the cursor, in order; and with a full batch everything retained that is addressed to the recipient or
   to nobody in particular.
   */
  ghost predicate PageIsRight(page: seq<Signal>, retained: seq<Signal>, requests: seq<Request>, after: nat,
                              limit: nat, recipient: UserId) {
    && |page| <= limit
    && (forall i, j :: 0 <= i < j < |page| ==> page[i].sequence < page[j].sequence)
    && (forall x :: x in page ==>
          && x in retained && x.sequence > after && x.to in {None, Some(recipient)}
          && exists i :: 0 <= i < |requests| && Carries(x, requests[i]))
    && (limit >= SIGNAL_BACKLOG ==>
          forall x | x in retained && x.sequence > after && x.to in {None, Some(recipient)} :: x in page)
  }

  lemma FilteredPageIsRight(retained: seq<Signal>, requests: seq<Request>, after: nat, limit: nat,
                            recipient: UserId)
    requires Increasing(retained) && AllCarried(retained, requests) && |retained| <= SIGNAL_BACKLOG
    ensures PageIsRight(Take(Filter(retained, after, recipient), limit), retained, requests, after, limit,
                        recipient)
  {
    hide Carries, Filter, Take;
    FilterSpec(retained, after, recipient);
    FilterShrinks(retained, after, recipient);
    TakeIsPrefix(Filter(retained, after, recipient), limit);
  }

  lemma TakeIsPrefix(s: seq<Signal>, limit: nat)
    requires Increasing(s)
    ensures var page := Take(s, limit);
            && |page| <= limit && (forall x :: x in page ==> x in s) && (|s| <= limit ==> page == s)
            && (forall i, j :: 0 <= i < j < |page| ==> page[i].sequence < page[j].sequence)
  {
  }

  lemma {:induction false} FilterShrinks(s: seq<Signal>, after: nat, recipient: UserId)
    ensures |Filter(s, after, recipient)| <= |s|
  {
    if s != [] { FilterShrinks(s[1..], after, recipient); }
  }

  /** Every page of a file-backed server, after every run of appends. */
  lemma {:induction false} FilesPagesAreRight(requests: seq<Request>, after: u64, limit: nat, recipient: UserId)
    requires |requests| < U64_MAX - 1
    ensures var c := FilesRun(requests);
            PageIsRight(FilesPage(c, after, limit, recipient).signals, c.signals, requests, after, limit,
                        recipient)
  {
    hide PageIsRight, AllCarried, Filter, Take, FilesRun;
    FilesRunCarries(requests);
    CacheIsIncreasing(FilesRun(requests));
    CacheLength(FilesRun(requests));
    FilteredPageIsRight(FilesRun(requests).signals, requests, after, limit, recipient);
  }

  lemma CacheLength(c: Cache)
    requires CacheInvariant(c)
    ensures |c.signals| <= SIGNAL_BACKLOG
  {
  }

  /** Every page the store serves, after every run of appends. */
  lemma {:induction false} DbPagesAreRight(requests: seq<Request>, after: u64, limit: nat, recipient: UserId)
    ensures var page := DbPage(DbRun(requests), after, limit, recipient);
            && TableOk(DbRun(requests))
            && (page.Ok? <==> 1 <= limit <= 128 && after <= I64_MAX)
            && (page.Ok? ==> PageIsRight(page.value.signals, Window(DbRun(requests)), requests, after, limit,
                                         recipient))
  {
    hide PageIsRight, AllCarried, Filter, Take, Scan, DbRun, TableOk, Window;
    DbRunCarries(requests);
    var t := DbRun(requests);
    WindowIsIncreasing(t);
    WindowLength(t);
    FilteredPageIsRight(Window(t), requests, after, limit, recipient);
    if limit > 0 { ScanIsFilteredWindow(t, after, limit, recipient); }
  }

  // ----- The table in place -----

  class SignalTable {
    const roomExists: bool
    var signalSequence: nat
    var rows: map<nat, Signal>

    ghost function Contents(): Table
      reads this
    {
      Table(signalSequence, rows)
    }

    ghost predicate Valid()
      reads this
    {
      TableOk(Contents())
    }

    constructor (roomExists: bool)
      ensures Valid() && Contents() == Table(0, map[]) && this.roomExists == roomExists
    {
      this.roomExists := roomExists;
      signalSequence, rows := 0, map[];
    }

    /** Everything that is wrong with a request is found before anything is written. */
    method AppendSignal(q: Request) returns (r: Result<Signal, SignalError>)
      requires Valid()
      modifies this
      ensures Valid()
      ensures var (named, fits) := (BoundedText(q.kind, 64), q.payloadBytes <= 65_536);
              && (r == Err(InvalidKind) <==> !named)
              && (r == Err(PayloadTooLarge) <==> named && !fits)
              && (r == Err(RoomNotFound) <==> named && fits && !roomExists)
              && if named && fits && roomExists then (Contents(), r) == DbAppend(old(Contents()), q)
                 else Contents() == old(Contents())
    {
      hide BoundedText;
      if !BoundedText(q.kind, MAX_SIGNAL_KIND_BYTES) { return Err(InvalidKind); }
      if q.payloadBytes > MAX_SIGNAL_PAYLOAD_BYTES { return Err(PayloadTooLarge); }
      if !roomExists { return Err(RoomNotFound); }
      r := Store(q);
    }

    /** The part of an append that touches the rows. */
    method Store(q: Request) returns (r: Result<Signal, SignalError>)
      requires Valid()
      modifies this
      ensures Valid() && (Contents(), r) == DbAppend(old(Contents()), q)
    {
      DbAppendValid(Contents(), q);
      hide TableOk, DbAppend, Retained;
      var matching := set k | k in rows && rows[k].commandId == Some(q.commandId);
      if matching != {} {
        var k :| k in matching;
        RepeatedAnswer(Contents(), q, k);
        return Ok(rows[k]);
      }
      assert forall k :: CommandRow(Contents(), q.commandId, k) ==> k in matching;
      FreshAnswer(Contents(), q);
      if signalSequence >= I64_MAX || q.timestampMillis > I64_MAX { return Err(NumericRange); }
      signalSequence := signalSequence + 1;
      var record := Record(q, signalSequence);
      rows := rows[signalSequence := record];
      rows := map k | k in rows && k > signalSequence - SIGNAL_BACKLOG :: rows[k];
      r := Ok(record);
    }

    /** A recipient-filtered page after a cursor. */
    method LoadPage(after: u64, limit: nat, recipient: UserId) returns (r: Result<Page, SignalError>)
      ensures r == if DbPage(Contents(), after, limit, recipient).Ok? && !roomExists then Err(RoomNotFound)
                   else DbPage(Contents(), after, limit, recipient)
    {
      if !(1 <= limit <= SIGNAL_BACKLOG) { return Err(InvalidBatchSize); }
      if after > I64_MAX { return Err(CursorOutOfRange); }
      if !roomExists { return Err(RoomNotFound); }
      hide VisibleTo;
      var page: seq<Signal> := [];
      var k := after + 1;
      while k <= signalSequence && |page| < limit
        invariant after < k && |page| <= limit
        invariant Scan(Contents(), after + 1, recipient, limit)
                  == page + Scan(Contents(), k, recipient, limit - |page|)
      {
        if k in rows && VisibleTo(rows[k], recipient) {
          assert page + ([rows[k]] + Scan(Contents(), k + 1, recipient, limit - |page| - 1))
              == (page + [rows[k]]) + Scan(Contents(), k + 1, recipient, limit - |page| - 1);
          page := page + [rows[k]];
        }
        k := k + 1;
      }
      assert page + [] == page;
      r := Ok(Page(page, signalSequence));
    }
  }
}
