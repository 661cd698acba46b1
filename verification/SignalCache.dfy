/**
 The in-process signal window of a room: sorted by sequence, without repetitions, bounded both in
 records and in encoded bytes, and fed in any order with any repetition.
 */
module SignalCache {
  import opened Prelude
  import opened RoomDomain

  const SIGNAL_BACKLOG: nat := 128
  const MAX_SIGNAL_CACHE_BYTES: nat := 8 * 1024 * 1024

  /** `encodedBytes` is the length of the record's JSON form, which fits an allocation. */
  datatype SignalRecord = SignalRecord(
    commandId: Option<CommandId>, sequence: u64, from: UserId, to: Option<UserId>, kind: string,
    payload: string, timestampMillis: u64, encodedBytes: nat)

  type Signal = s: SignalRecord | s.encodedBytes <= I64_MAX
    witness SignalRecord(None, 0, 0, None, "", "", 0, 0)

  datatype Cache = Cache(signals: seq<Signal>, bytes: nat, nextSequence: u64)

  function Empty(): Cache { Cache([], 0, 1) }

  function TotalBytes(s: seq<Signal>): nat {
    if s == [] then 0 else s[0].encodedBytes + TotalBytes(s[1..])
  }

  predicate Fits(s: seq<Signal>) {
    |s| <= SIGNAL_BACKLOG && TotalBytes(s) <= MAX_SIGNAL_CACHE_BYTES
  }

  ghost predicate Increasing(s: seq<Signal>) {
    forall i, j :: 0 <= i < j < |s| ==> s[i].sequence < s[j].sequence
  }

  predicate HasSequence(s: seq<Signal>, sequence: u64) {
    exists i | 0 <= i < |s| :: s[i].sequence == sequence
  }

  /** Drops records from the front until both budgets hold. */
  function Trim(s: seq<Signal>): seq<Signal> {
    if s == [] || Fits(s) then s else Trim(s[1..])
  }

  /** A stable sort of an ordered sequence followed by one new record. */
  function InsertSorted(s: seq<Signal>, x: Signal): seq<Signal> {
    if s == [] || s[|s| - 1].sequence <= x.sequence then s + [x]
    else InsertSorted(s[..|s| - 1], x) + [s[|s| - 1]]
  }

  function SaturatingNext(sequence: u64): u64 {
    if sequence == U64_MAX then U64_MAX else sequence + 1
  }

  function CacheSignal(c: Cache, x: Signal): Cache {
    if HasSequence(c.signals, x.sequence) then c
    else
      var kept := Trim(InsertSorted(c.signals, x));
      Cache(kept, TotalBytes(kept), Max(c.nextSequence, SaturatingNext(x.sequence)))
  }

  // ----- Facts about sums, trimming and insertion -----

  lemma {:induction false} TotalBytesConcat(a: seq<Signal>, b: seq<Signal>)
    ensures TotalBytes(a + b) == TotalBytes(a) + TotalBytes(b)
  {
    if a == [] {
      assert a + b == b;
    } else {
      assert (a + b)[1..] == a[1..] + b;
      TotalBytesConcat(a[1..], b);
    }
  }

  /** Trimming leaves the longest suffix that satisfies both budgets. */
  lemma {:induction false} TrimIsLongestFittingSuffix(s: seq<Signal>)
    ensures Fits(Trim(s)) && |Trim(s)| <= |s| && Trim(s) == s[|s| - |Trim(s)|..]
    ensures forall k :: 0 <= k <= |s| && Fits(s[k..]) ==> |s| - |Trim(s)| <= k
  {
    assert s[0..] == s;
    if s != [] && !Fits(s) {
      var rest := s[1..];
      TrimIsLongestFittingSuffix(rest);
      assert forall k :: 1 <= k <= |s| ==> s[k..] == rest[k - 1..];
    }
  }

  /** Trimming piecemeal or at the end makes no difference. */
  lemma {:induction false} TrimAfterTrim(s: seq<Signal>, tail: seq<Signal>)
    ensures Trim(Trim(s) + tail) == Trim(s + tail)
  {
    if s != [] && !Fits(s) {
      TotalBytesConcat(s, tail);
      assert (s + tail)[1..] == s[1..] + tail;
      TrimAfterTrim(s[1..], tail);
    }
  }

  lemma {:induction false} InsertSortedBytes(s: seq<Signal>, x: Signal)
    ensures TotalBytes(InsertSorted(s, x)) == TotalBytes(s) + x.encodedBytes
    ensures |InsertSorted(s, x)| == |s| + 1
  {
    assert TotalBytes([x]) == x.encodedBytes;
    if s == [] || s[|s| - 1].sequence <= x.sequence {
      TotalBytesConcat(s, [x]);
    } else {
      var init, last := s[..|s| - 1], s[|s| - 1];
      assert s == init + [last];
      InsertSortedBytes(init, x);
      TotalBytesConcat(init, [last]);
      TotalBytesConcat(InsertSorted(init, x), [last]);
    }
  }

  lemma {:induction false} InsertSortedElements(s: seq<Signal>, x: Signal)
    ensures forall y :: y in InsertSorted(s, x) <==> y in s || y == x
  {
    if s != [] && s[|s| - 1].sequence > x.sequence {
      var init, last := s[..|s| - 1], s[|s| - 1];
      assert s == init + [last];
      InsertSortedElements(init, x);
    }
  }

  lemma {:induction false} InsertSortedIncreasing(s: seq<Signal>, x: Signal)
    requires Increasing(s) && !HasSequence(s, x.sequence)
    ensures Increasing(InsertSorted(s, x))
  {
    if s != [] && s[|s| - 1].sequence > x.sequence {
      var init, last := s[..|s| - 1], s[|s| - 1];
      InsertSortedIncreasing(init, x);
      InsertSortedElements(init, x);
      var rest := InsertSorted(init, x);
      forall i | 0 <= i < |rest| ensures rest[i].sequence < last.sequence {
        assert rest[i] in init || rest[i] == x;
      }
    }
  }

  // ----- The cache in place -----

  /** Exact byte counter, strictly increasing sequences, both budgets, next above everything seen. */
  ghost predicate CacheInvariant(c: Cache) {
    Increasing(c.signals) && c.bytes == TotalBytes(c.signals) && Fits(c.signals)
    && forall i :: 0 <= i < |c.signals| ==> SaturatingNext(c.signals[i].sequence) <= c.nextSequence
  }

  lemma CacheSignalKeepsInvariant(c: Cache, x: Signal)
    requires CacheInvariant(c)
    ensures CacheInvariant(CacheSignal(c, x))
  {
    hide Trim, TotalBytes, InsertSorted, SaturatingNext, Fits;
    if !HasSequence(c.signals, x.sequence) {
      InsertSortedIncreasing(c.signals, x);
      InsertSortedElements(c.signals, x);
      var inserted := InsertSorted(c.signals, x);
      TrimKeepsOrder(inserted);
      var next := CacheSignal(c, x).nextSequence;
      assert forall y :: y in c.signals ==> SaturatingNext(y.sequence) <= c.nextSequence;
      assert forall y :: y in inserted ==> SaturatingNext(y.sequence) <= next;
    }
  }

  lemma TrimKeepsOrder(s: seq<Signal>)
    requires Increasing(s)
    ensures Increasing(Trim(s)) && Fits(Trim(s)) && forall y :: y in Trim(s) ==> y in s
  {
    TrimIsLongestFittingSuffix(s);
    hide Trim, Fits;
  }

  class SignalWindow {
    var signals: seq<Signal>
    var cacheBytes: nat
    var nextSequence: u64

    function Contents(): Cache
      reads this
    {
      Cache(signals, cacheBytes, nextSequence)
    }

    ghost predicate Valid()
      reads this
    {
      CacheInvariant(Contents())
    }

    constructor ()
      ensures Valid() && Contents() == Empty()
    {
      signals, cacheBytes, nextSequence := [], 0, 1;
    }

    /** Adds one delivered record unless its sequence is already cached; tells whether it was new. */
    method Insert(x: Signal) returns (inserted: bool)
      requires Valid()
      modifies this
      ensures Valid() && Contents() == CacheSignal(old(Contents()), x)
      ensures inserted == !HasSequence(old(signals), x.sequence)
    {
      CacheSignalKeepsInvariant(Contents(), x);
      inserted := !HasSequence(signals, x.sequence);
      if inserted {
        InsertSortedBytes(signals, x);
        nextSequence := Max(nextSequence, SaturatingNext(x.sequence));
        signals := InsertSorted(signals, x);
        cacheBytes := Min(cacheBytes + x.encodedBytes, U64_MAX);
        TrimWindow();
      }
    }

    method TrimWindow()
      requires cacheBytes == TotalBytes(signals)
      modifies `signals, `cacheBytes
      ensures signals == Trim(old(signals)) && cacheBytes == TotalBytes(signals)
    {
      while |signals| > SIGNAL_BACKLOG || cacheBytes > MAX_SIGNAL_CACHE_BYTES
        invariant cacheBytes == TotalBytes(signals) && Trim(signals) == Trim(old(signals))
        decreases |signals|
      {
        if signals == [] { break; }
        cacheBytes := Max(0, cacheBytes - signals[0].encodedBytes);
        signals := signals[1..];
      }
    }
  }

  // ----- Deliveries in any order -----

  function Deliver(c: Cache, deliveries: seq<Signal>): Cache {
    if deliveries == [] then c
    else CacheSignal(Deliver(c, deliveries[..|deliveries| - 1]), deliveries[|deliveries| - 1])
  }

  /** All distinct records delivered, by sequence. */
  function Collected(deliveries: seq<Signal>): seq<Signal> {
    if deliveries == [] then []
    else
      Collect(Collected(deliveries[..|deliveries| - 1]), deliveries[|deliveries| - 1])
  }

  /** Adds a record to an ordered collection unless its sequence is there. */
  function Collect(all: seq<Signal>, x: Signal): seq<Signal> {
    if HasSequence(all, x.sequence) then all else InsertSorted(all, x)
  }

  /** Deliveries repeat records but never two records under one sequence. */
  ghost predicate Consistent(deliveries: seq<Signal>) {
    forall i, j | 0 <= i < |deliveries| && 0 <= j < |deliveries| ::
      deliveries[i].sequence == deliveries[j].sequence ==> deliveries[i] == deliveries[j]
  }

  lemma {:induction false} CollectedKeeps(deliveries: seq<Signal>)
    requires Consistent(deliveries)
    ensures Increasing(Collected(deliveries)) && Elements(Collected(deliveries)) == Elements(deliveries)
  {
    if deliveries != [] {
      var n := |deliveries| - 1;
      var before, x := Collected(deliveries[..n]), deliveries[n];
      CollectedKeeps(deliveries[..n]);
      assert deliveries == deliveries[..n] + [x];
      assert Elements(deliveries) == Elements(deliveries[..n]) + {x};
      if HasSequence(before, x.sequence) {
        var i :| 0 <= i < |before| && before[i].sequence == x.sequence;
        assert before[i] in Elements(deliveries[..n]);
        assert before[i] == x;
      } else {
        InsertSortedIncreasing(before, x);
        InsertSortedElements(before, x);
      }
    }
  }

  lemma SameHead(a: seq<Signal>, b: seq<Signal>)
    requires Increasing(a) && Increasing(b) && Elements(a) == Elements(b) && a != []
    ensures b != [] && a[0] == b[0]
  {
    assert a[0] in Elements(b);
    var i :| 0 <= i < |b| && b[i] == a[0];
    assert b[0] in Elements(a);
    var j :| 0 <= j < |a| && a[j] == b[0];
  }

  /** Strictly ordered sequences with the same records are the same sequence. */
  lemma {:induction false} IncreasingUnique(a: seq<Signal>, b: seq<Signal>)
    requires Increasing(a) && Increasing(b) && Elements(a) == Elements(b)
    ensures a == b
  {
    if a != [] {
      SameHead(a, b);
      var ta, tb := a[1..], b[1..];
      assert Increasing(ta) && Increasing(tb);
      assert Elements(ta) == Elements(tb) by {
        forall x ensures x in Elements(ta) <==> x in Elements(tb) {
          TailElements(a, x);
          TailElements(b, x);
        }
      }
      hide Elements, Increasing;
      IncreasingUnique(ta, tb);
      assert a == [a[0]] + ta && b == [b[0]] + tb;
    } else if b != [] {
      SameHead(b, a);
    }
  }

  lemma TailElements(s: seq<Signal>, x: Signal)
    requires s != [] && Increasing(s)
    ensures x in Elements(s[1..]) <==> x in Elements(s) && x != s[0]
  {
    if x in s && x != s[0] {
      var k :| 0 <= k < |s| && s[k] == x;
      assert s[1..][k - 1] == x;
    }
  }

  /** The byte budget never removed anything the count budget would have kept. */
  ghost predicate BytesNeverBind(deliveries: seq<Signal>) {
    forall k :: 0 <= k <= |deliveries| ==>
      TotalBytes(LastN(Collected(deliveries[..k]), SIGNAL_BACKLOG)) <= MAX_SIGNAL_CACHE_BYTES
  }

  lemma LastNSnoc(s: seq<Signal>, x: Signal, n: nat)
    requires n > 0
    ensures LastN(s + [x], n) == LastN(s, n - 1) + [x]
  {
  }

  lemma InsertBeforeLast(s: seq<Signal>, last: Signal, x: Signal)
    requires last.sequence > x.sequence
    ensures InsertSorted(s + [last], x) == InsertSorted(s, x) + [last]
  {
    assert (s + [last])[..|s|] == s;
  }

  /** Inserting into the window and inserting into everything agree on the most recent records. */
  lemma {:induction false} InsertIntoWindow(s: seq<Signal>, x: Signal, n: nat)
    ensures LastN(InsertSorted(LastN(s, n), x), n) == LastN(InsertSorted(s, x), n)
  {
    if s != [] && n > 0 {
      var init, last := s[..|s| - 1], s[|s| - 1];
      assert s == init + [last];
      LastNSnoc(init, last, n);
      var w := LastN(init, n - 1);
      if last.sequence > x.sequence {
        InsertIntoWindow(init, x, n - 1);
        InsertBeforeLast(w, last, x);
        InsertBeforeLast(init, last, x);
        hide LastN, InsertSorted;
        LastNSnoc(InsertSorted(w, x), last, n);
        LastNSnoc(InsertSorted(init, x), last, n);
      } else {
        hide LastN;
        LastNSnoc(LastN(s, n), x, n);
        LastNSnoc(s, x, n);
        LastNLastN(s, n - 1, n);
      }
    }
  }

  lemma LastNLastN(s: seq<Signal>, m: nat, n: nat)
    requires m <= n
    ensures LastN(LastN(s, n), m) == LastN(s, m)
  {
  }

  lemma {:induction false} InsertBelow(s: seq<Signal>, x: Signal)
    requires forall i :: 0 <= i < |s| ==> x.sequence < s[i].sequence
    ensures InsertSorted(s, x) == [x] + s
  {
    if s != [] {
      InsertBelow(s[..|s| - 1], x);
    }
  }

  lemma TrimByCountAlone(s: seq<Signal>)
    requires |s| <= SIGNAL_BACKLOG + 1
    requires TotalBytes(LastN(s, SIGNAL_BACKLOG)) <= MAX_SIGNAL_CACHE_BYTES
    ensures Trim(s) == LastN(s, SIGNAL_BACKLOG)
  {
  }

  /** A record that was already evicted is evicted again. */
  lemma DeliverEvicted(all: seq<Signal>, w: seq<Signal>, x: Signal)
    requires Increasing(all) && w == LastN(all, SIGNAL_BACKLOG)
    requires HasSequence(all, x.sequence) && !HasSequence(w, x.sequence)
    ensures InsertSorted(w, x) == [x] + w && |w| == SIGNAL_BACKLOG
  {
    hide InsertSorted;
    var d := |all| - |w|;
    assert forall j :: d <= j < |all| ==> all[j] == w[j - d];
    var i :| 0 <= i < |all| && all[i].sequence == x.sequence;
    assert i < d;
    forall j | 0 <= j < |w| ensures x.sequence < w[j].sequence {
      assert w[j] == all[d + j];
    }
    InsertBelow(w, x);
  }

  lemma WindowHasSequence(all: seq<Signal>, w: seq<Signal>, sequence: u64)
    requires w == LastN(all, SIGNAL_BACKLOG) && HasSequence(w, sequence)
    ensures HasSequence(all, sequence)
  {
    var i :| 0 <= i < |w| && w[i].sequence == sequence;
    assert all[|all| - |w| + i] == w[i];
  }

  lemma DeliverOne(all: seq<Signal>, c: Cache, x: Signal)
    requires Increasing(all) && c.signals == LastN(all, SIGNAL_BACKLOG)
    requires TotalBytes(LastN(Collect(all, x), SIGNAL_BACKLOG)) <= MAX_SIGNAL_CACHE_BYTES
    ensures CacheSignal(c, x).signals == LastN(Collect(all, x), SIGNAL_BACKLOG)
  {
    var w := c.signals;
    if HasSequence(w, x.sequence) {
      WindowHasSequence(all, w, x.sequence);
    } else {
      InsertSortedBytes(w, x);
      if HasSequence(all, x.sequence) {
        DeliverEvicted(all, w, x);
        assert LastN([x] + w, SIGNAL_BACKLOG) == w;
      } else {
        InsertIntoWindow(all, x, SIGNAL_BACKLOG);
      }
      hide InsertSorted, TotalBytes, Trim, Increasing;
      TrimByCountAlone(InsertSorted(w, x));
    }
  }

  lemma {:induction false} DeliveriesKeepTheHighest(deliveries: seq<Signal>)
    requires Consistent(deliveries) && BytesNeverBind(deliveries)
    ensures Deliver(Empty(), deliveries).signals == LastN(Collected(deliveries), SIGNAL_BACKLOG)
  {
    if deliveries != [] {
      var n := |deliveries| - 1;
      var before := deliveries[..n];
      assert forall k :: 0 <= k <= n ==> before[..k] == deliveries[..k];
      DeliveriesKeepTheHighest(before);
      CollectedKeeps(before);
      assert deliveries[..|deliveries|] == deliveries;
      DeliverOne(Collected(before), Deliver(Empty(), before), deliveries[n]);
    }
  }

  lemma {:induction false} DeliverKeepsInvariant(deliveries: seq<Signal>)
    ensures CacheInvariant(Deliver(Empty(), deliveries))
  {
    if deliveries != [] {
      DeliverKeepsInvariant(deliveries[..|deliveries| - 1]);
      CacheSignalKeepsInvariant(Deliver(Empty(), deliveries[..|deliveries| - 1]),
                                deliveries[|deliveries| - 1]);
    }
  }

  /**
   At every point of a delivery run the cache holds exactly the 128 highest sequences delivered so
   far, if and only if the byte budget never binds.
   */
  lemma HighestSequencesExactlyWhenBytesNeverBind(deliveries: seq<Signal>)
    requires Consistent(deliveries)
    ensures (forall k :: 0 <= k <= |deliveries| ==>
               Deliver(Empty(), deliveries[..k]).signals
               == LastN(Collected(deliveries[..k]), SIGNAL_BACKLOG))
            <==> BytesNeverBind(deliveries)
  {
    forall k | 0 <= k <= |deliveries|
      ensures TotalBytes(Deliver(Empty(), deliveries[..k]).signals) <= MAX_SIGNAL_CACHE_BYTES
      ensures BytesNeverBind(deliveries) ==>
                Deliver(Empty(), deliveries[..k]).signals
                == LastN(Collected(deliveries[..k]), SIGNAL_BACKLOG)
    {
      DeliverKeepsInvariant(deliveries[..k]);
      if BytesNeverBind(deliveries) {
        assert forall j :: 0 <= j <= k ==> deliveries[..k][..j] == deliveries[..j];
        DeliveriesKeepTheHighest(deliveries[..k]);
      }
    }
  }

  /** The next sequence follows the highest one ever delivered, whatever was evicted. */
  lemma {:induction false} NextFollowsTheHighest(deliveries: seq<Signal>)
    ensures var next := Deliver(Empty(), deliveries).nextSequence;
            && next >= 1
            && (forall x :: x in deliveries ==> SaturatingNext(x.sequence) <= next)
            && (next == 1 || exists x :: x in deliveries && SaturatingNext(x.sequence) == next)
  {
    hide Trim, InsertSorted, TotalBytes, SaturatingNext;
    if deliveries != [] {
      var n := |deliveries| - 1;
      var before, x := Deliver(Empty(), deliveries[..n]), deliveries[n];
      NextFollowsTheHighest(deliveries[..n]);
      DeliverKeepsInvariant(deliveries[..n]);
      assert forall y :: y in deliveries <==> y in deliveries[..n] || y == x;
      if HasSequence(before.signals, x.sequence) {
        var i :| 0 <= i < |before.signals| && before.signals[i].sequence == x.sequence;
        assert SaturatingNext(before.signals[i].sequence) <= before.nextSequence;
      }
    }
  }

  lemma SameNext(a: seq<Signal>, b: seq<Signal>)
    requires Elements(a) == Elements(b)
    ensures Deliver(Empty(), a).nextSequence == Deliver(Empty(), b).nextSequence
  {
    NextFollowsTheHighest(a);
    NextFollowsTheHighest(b);
    assert forall x :: x in a <==> x in Elements(a);
    assert forall x :: x in b <==> x in Elements(b);
    hide Deliver, SaturatingNext;
  }

  /** Order and repetition of deliveries do not matter: records, bytes and next sequence are the same. */
  lemma DeliveryOrderIsIrrelevant(a: seq<Signal>, b: seq<Signal>)
    requires Consistent(a) && Consistent(b) && Elements(a) == Elements(b)
    requires BytesNeverBind(a) && BytesNeverBind(b)
    ensures Deliver(Empty(), a) == Deliver(Empty(), b)
  {
    hide Deliver, BytesNeverBind, Consistent, Elements, Collected, LastN, TotalBytes;
    DeliveriesKeepTheHighest(a);
    DeliveriesKeepTheHighest(b);
    CollectedKeeps(a);
    CollectedKeeps(b);
    IncreasingUnique(Collected(a), Collected(b));
    DeliverKeepsInvariant(a);
    DeliverKeepsInvariant(b);
    SameNext(a, b);
  }

  lemma {:induction false} SmallRecordsTotal(s: seq<Signal>)
    requires forall x :: x in s ==> x.encodedBytes <= 65_536
    ensures TotalBytes(s) <= 65_536 * |s|
  {
    if s != [] { SmallRecordsTotal(s[1..]); }
  }

  /** Records of at most 64 KiB never make the byte budget bind. */
  lemma SmallRecordsNeverBind(deliveries: seq<Signal>)
    requires Consistent(deliveries)
    requires forall x :: x in deliveries ==> x.encodedBytes <= 65_536
    ensures BytesNeverBind(deliveries)
  {
    forall k | 0 <= k <= |deliveries|
      ensures TotalBytes(LastN(Collected(deliveries[..k]), SIGNAL_BACKLOG)) <= MAX_SIGNAL_CACHE_BYTES
    {
      CollectedKeeps(deliveries[..k]);
      var w := LastN(Collected(deliveries[..k]), SIGNAL_BACKLOG);
      forall x | x in w ensures x.encodedBytes <= 65_536 {
        assert x in Elements(Collected(deliveries[..k]));
      }
      SmallRecordsTotal(w);
    }
  }
}
