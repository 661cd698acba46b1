/** The bounded window of a live HLS playlist and what clients are shown of it. */
module Playlist {
  import opened Prelude

  const NANOS_PER_SECOND: nat := 1_000_000_000
  const MIN_WINDOW: nat := 3
  const MAX_WINDOW: nat := 10_000

  /** `duration` is in nanoseconds. */
  datatype Segment = Segment(
    sequence: u64, duration: nat, uri: string, discontinuity: bool, programDateTime: Option<string>)

  datatype PipelineError =
    | InvalidSegment
    | InvalidUri
    | InvalidWindow
    | UnexpectedSequence(expected: u64, actual: u64)
    | SequenceExhausted
    | PlaylistEnded

  datatype Live = Live(
    initUri: string, windowSize: nat, segments: seq<Segment>, nextSequence: u64, ended: bool)

  // ----- Relative URIs -----

  /** The text up to the first slash, and the rest after it. */
  function FirstComponent(uri: string): (string, string) {
    if uri == [] then ("", "")
    else if uri[0] == '/' then ("", uri[1..])
    else
      var (head, rest) := FirstComponent(uri[1..]);
      ([uri[0]] + head, rest)
  }

  lemma {:induction false} RestIsShorter(uri: string)
    requires uri != []
    ensures |FirstComponent(uri).1| < |uri|
  {
    if uri[0] != '/' && uri[1..] != [] { RestIsShorter(uri[1..]); }
  }

  predicate HasParentComponent(uri: string)
    decreases |uri|
  {
    uri != [] &&
    var (head, rest) := FirstComponent(uri);
    RestIsShorter(uri);
    head == ".." || HasParentComponent(rest)
  }

  predicate RelativeUri(uri: string) {
    uri != [] && Utf8Length(uri) <= 1_024
    && (forall c | c in uri :: c != '\\' && c != '\r' && c != '\n' && c != '?' && c != '#')
    && uri[0] != '/' && !HasParentComponent(uri)
  }

  function SegmentError(s: Segment): Option<PipelineError> {
    if s.duration == 0 || s.duration > 60 * NANOS_PER_SECOND then Some(InvalidSegment)
    else if !RelativeUri(s.uri) then Some(InvalidUri)
    else if s.programDateTime.Some?
            && (Utf8Length(s.programDateTime.value) > 64 || s.programDateTime.value == []
                || s.programDateTime.value[|s.programDateTime.value| - 1] != 'Z') then Some(InvalidSegment)
    else None
  }

  // ----- The operations on values -----

  function NewPlaylist(initUri: string, windowSize: nat, first: u64): Result<Live, PipelineError> {
    if !RelativeUri(initUri) then Err(InvalidUri)
    else if !(MIN_WINDOW <= windowSize <= MAX_WINDOW) then Err(InvalidWindow)
    else Ok(Live(initUri, windowSize, [], first, false))
  }

  /** A failed push changes nothing; a successful one may evict the oldest segment. */
  function PushSegment(p: Live, s: Segment): (Live, Result<Option<Segment>, PipelineError>) {
    if p.ended then (p, Err(PlaylistEnded))
    else if SegmentError(s).Some? then (p, Err(SegmentError(s).value))
    else if s.sequence != p.nextSequence then (p, Err(UnexpectedSequence(p.nextSequence, s.sequence)))
    else if p.nextSequence == U64_MAX then (p, Err(SequenceExhausted))
    else
      var segments := p.segments + [s];
      var next := p.nextSequence + 1;
      if |segments| > p.windowSize
      then (p.(segments := segments[1..], nextSequence := next), Ok(Some(segments[0])))
      else (p.(segments := segments, nextSequence := next), Ok(None))
  }

  function Finished(p: Live): Live { p.(ended := true) }

  // ----- Sound playlists -----

  /** Valid, contiguously numbered segments that end just below the next sequence. */
  ghost predicate Contiguous(segments: seq<Segment>, next: nat) {
    forall i :: 0 <= i < |segments| ==>
      SegmentError(segments[i]).None? && segments[i].sequence == next - |segments| + i
  }

  ghost predicate Sound(p: Live) {
    RelativeUri(p.initUri) && MIN_WINDOW <= p.windowSize <= MAX_WINDOW
    && |p.segments| <= p.windowSize && Contiguous(p.segments, p.nextSequence)
  }

  lemma PushKeepsSound(p: Live, s: Segment)
    requires Sound(p)
    ensures Sound(PushSegment(p, s).0)
  {
    hide RelativeUri, SegmentError;
  }

  // ----- Rendering -----

  datatype Line =
    | Header
    | Version(number: nat)
    | TargetDuration(seconds: nat)
    | MediaSequence(first: u64)
    | InitMap(uri: string)
    | Discontinuity
    | ProgramDateTime(value: string)
    | Inf(nanos: nat)
    | Uri(uri: string)
    | EndList

  function Longest(segments: seq<Segment>): nat {
    if segments == [] then 0
    else Max(Longest(segments[..|segments| - 1]), segments[|segments| - 1].duration)
  }

  function WindowDuration(segments: seq<Segment>): nat {
    if segments == [] then NANOS_PER_SECOND else Longest(segments)
  }

  function TargetSeconds(duration: nat): nat {
    Max(duration / NANOS_PER_SECOND, 1) + (if duration % NANOS_PER_SECOND > 0 then 1 else 0)
  }

  function MediaSequenceOf(p: Live): u64 {
    if p.segments == [] then p.nextSequence else p.segments[0].sequence
  }

  function SegmentLines(s: Segment): seq<Line> {
    (if s.discontinuity then [Discontinuity] else [])
    + (if s.programDateTime.Some? then [ProgramDateTime(s.programDateTime.value)] else [])
    + [Inf(s.duration), Uri(s.uri)]
  }

  function Lines(segments: seq<Segment>): seq<Line> {
    if segments == [] then []
    else Lines(segments[..|segments| - 1]) + SegmentLines(segments[|segments| - 1])
  }

  function Rendered(p: Live): seq<Line> {
    [Header, Version(7), TargetDuration(TargetSeconds(WindowDuration(p.segments))),
     MediaSequence(MediaSequenceOf(p)), InitMap(p.initUri)]
    + Lines(p.segments) + (if p.ended then [EndList] else [])
  }

  // ----- The playlist in place -----

  class LivePlaylist {
    var initUri: string
    var windowSize: nat
    var segments: seq<Segment>
    var nextSequence: u64
    var ended: bool

    function Contents(): Live
      reads this
    {
      Live(initUri, windowSize, segments, nextSequence, ended)
    }

    /** Any stored value, trusted or not. */
    constructor (p: Live)
      ensures Contents() == p
    {
      initUri, windowSize, segments, nextSequence, ended :=
        p.initUri, p.windowSize, p.segments, p.nextSequence, p.ended;
    }

    /** Accepts exactly the sound playlists. */
    method Validate() returns (error: Option<PipelineError>)
      ensures error.None? <==> Sound(Contents())
    {
      hide RelativeUri, SegmentError;
      if !RelativeUri(initUri) { return Some(InvalidUri); }
      if !(MIN_WINDOW <= windowSize <= MAX_WINDOW) || |segments| > windowSize {
        return Some(InvalidWindow);
      }
      var expected: u64 := if segments == [] then nextSequence else segments[0].sequence;
      var i := 0;
      while i < |segments|
        invariant 0 <= i <= |segments|
        invariant segments != [] ==> expected == segments[0].sequence + i
        invariant segments == [] ==> expected == nextSequence
        invariant forall k :: 0 <= k < i ==>
          SegmentError(segments[k]).None? && segments[k].sequence == segments[0].sequence + k
      {
        var s := segments[i];
        var invalid := SegmentError(s);
        if invalid.Some? { return Some(invalid.value); }
        if s.sequence != expected { return Some(UnexpectedSequence(expected, s.sequence)); }
        if expected == U64_MAX { return Some(SequenceExhausted); }
        expected := expected + 1;
        i := i + 1;
      }
      if expected != nextSequence { return Some(UnexpectedSequence(expected, nextSequence)); }
      error := None;
    }

    method Push(s: Segment) returns (r: Result<Option<Segment>, PipelineError>)
      modifies `segments, `nextSequence
      ensures (Contents(), r) == PushSegment(old(Contents()), s)
      ensures old(Sound(Contents())) ==> Sound(Contents())
    {
      if Sound(Contents()) { PushKeepsSound(Contents(), s); }
      hide Sound, SegmentError;
      if ended { return Err(PlaylistEnded); }
      var invalid := SegmentError(s);
      if invalid.Some? { return Err(invalid.value); }
      if s.sequence != nextSequence { return Err(UnexpectedSequence(nextSequence, s.sequence)); }
      if nextSequence == U64_MAX { return Err(SequenceExhausted); }
      nextSequence := nextSequence + 1;
      segments := segments + [s];
      if |segments| > windowSize {
        var evicted := segments[0];
        segments := segments[1..];
        return Ok(Some(evicted));
      }
      r := Ok(None);
    }

    method Finish()
      modifies `ended
      ensures Contents() == Finished(old(Contents()))
    {
      ended := true;
    }

    /** The longest windowed duration, or a second if there is none. */
    method MaxDuration() returns (duration: nat)
      ensures duration == WindowDuration(segments)
    {
      duration := 0;
      for i := 0 to |segments|
        invariant duration == Longest(segments[..i])
      {
        assert segments[..i + 1][..i] == segments[..i];
        duration := Max(duration, segments[i].duration);
      }
      assert segments[..|segments|] == segments;
      if segments == [] { duration := NANOS_PER_SECOND; }
    }

    method Render() returns (lines: seq<Line>)
      ensures lines == Rendered(Contents())
    {
      var duration := MaxDuration();
      hide Longest, WindowDuration;
      var target := Max(duration / NANOS_PER_SECOND, 1) + (if duration % NANOS_PER_SECOND > 0 then 1 else 0);
      assert target == TargetSeconds(duration);
      hide TargetSeconds;
      var first := if segments == [] then nextSequence else segments[0].sequence;
      lines := [Header, Version(7), TargetDuration(target), MediaSequence(first), InitMap(initUri)];
      ghost var header := lines;
      assert header + [] == header;
      for i := 0 to |segments|
        invariant lines == header + Lines(segments[..i])
      {
        assert segments[..i + 1][..i] == segments[..i];
        ghost var before := lines;
        if segments[i].discontinuity { lines := lines + [Discontinuity]; }
        if segments[i].programDateTime.Some? {
          lines := lines + [ProgramDateTime(segments[i].programDateTime.value)];
        }
        lines := lines + [Inf(segments[i].duration), Uri(segments[i].uri)];
        assert lines == before + SegmentLines(segments[i]);
        hide SegmentLines;
      }
      assert segments[..|segments|] == segments;
      if ended { lines := lines + [EndList]; }
    }
  }

  // ----- Every run -----

  datatype Step = Push(segment: Segment) | Finish

  function Next(p: Live, step: Step): Live {
    match step
    case Push(s) => PushSegment(p, s).0
    case Finish => Finished(p)
  }

  function Run(p: Live, steps: seq<Step>): Live {
    if steps == [] then p else Next(Run(p, steps[..|steps| - 1]), steps[|steps| - 1])
  }

  /** The segments accepted so far, in order. */
  function Pushed(p: Live, steps: seq<Step>): seq<Segment> {
    if steps == [] then []
    else
      var init, last := steps[..|steps| - 1], steps[|steps| - 1];
      if last.Push? && PushSegment(Run(p, init), last.segment).1.Ok?
      then Pushed(p, init) + [last.segment] else Pushed(p, init)
  }

  /** The segments handed back by pushes, in order. */
  function Evicted(p: Live, steps: seq<Step>): seq<Segment> {
    if steps == [] then []
    else
      var init, last := steps[..|steps| - 1], steps[|steps| - 1];
      if last.Push? && PushSegment(Run(p, init), last.segment).1.Ok?
         && PushSegment(Run(p, init), last.segment).1.value.Some?
      then Evicted(p, init) + [PushSegment(Run(p, init), last.segment).1.value.value]
      else Evicted(p, init)
  }

  /** What was evicted and what is still there, against all that was pushed. */
  ghost predicate Tracks(p: Live, first: nat, evicted: seq<Segment>, pushed: seq<Segment>) {
    evicted + p.segments == pushed && p.nextSequence == first + |pushed|
    && (evicted != [] ==> |p.segments| == p.windowSize)
  }

  lemma PushTracks(p: Live, s: Segment, first: nat, evicted: seq<Segment>, pushed: seq<Segment>)
    requires Sound(p) && Tracks(p, first, evicted, pushed) && PushSegment(p, s).1.Ok?
    ensures var (p', r) := PushSegment(p, s);
            Tracks(p', first, if r.value.Some? then evicted + [r.value.value] else evicted, pushed + [s])
  {
    hide RelativeUri, SegmentError, Contiguous;
    var segments := p.segments + [s];
    assert evicted + segments == pushed + [s];
    if |segments| > p.windowSize {
      assert segments == [segments[0]] + segments[1..];
      assert evicted + ([segments[0]] + segments[1..]) == (evicted + [segments[0]]) + segments[1..];
    }
  }

  lemma {:induction false} RunTracks(start: Live, steps: seq<Step>)
    requires Sound(start) && start.segments == []
    ensures var p := Run(start, steps);
            Sound(p) && p.windowSize == start.windowSize && p.initUri == start.initUri
            && Tracks(p, start.nextSequence, Evicted(start, steps), Pushed(start, steps))
  {
    if steps != [] {
      var init, last := steps[..|steps| - 1], steps[|steps| - 1];
      RunTracks(start, init);
      var p := Run(start, init);
      if last.Push? {
        PushKeepsSound(p, last.segment);
        hide Sound, Tracks, SegmentError;
        if PushSegment(p, last.segment).1.Ok? {
          PushTracks(p, last.segment, start.nextSequence, Evicted(start, init), Pushed(start, init));
        }
      }
    }
  }

  lemma SuffixOf(evicted: seq<Segment>, window: seq<Segment>, n: nat)
    requires |window| <= n && (evicted != [] ==> |window| == n)
    ensures LastN(evicted + window, n) == window
  {
  }

  /**
   Nothing is lost or reordered: what was evicted followed by the window is what was pushed, the
   window is its last entries, and the sequence numbers follow from the first one.
   */
  lemma {:induction false} WindowHoldsTheLatest(initUri: string, windowSize: nat, first: u64, steps: seq<Step>)
    requires NewPlaylist(initUri, windowSize, first).Ok?
    ensures var start := NewPlaylist(initUri, windowSize, first).value;
            var p := Run(start, steps);
            && Evicted(start, steps) + p.segments == Pushed(start, steps)
            && p.segments == LastN(Pushed(start, steps), windowSize)
            && p.nextSequence == first + |Pushed(start, steps)|
            && MediaSequenceOf(p) == first + |Evicted(start, steps)|
  {
    hide RelativeUri, SegmentError, LastN;
    var start := NewPlaylist(initUri, windowSize, first).value;
    RunTracks(start, steps);
    SuffixOf(Evicted(start, steps), Run(start, steps).segments, windowSize);
  }

  lemma {:induction false} EndedExactlyByAFinish(start: Live, steps: seq<Step>)
    requires !start.ended
    ensures Run(start, steps).ended <==> Finish in steps
  {
    if steps != [] {
      EndedExactlyByAFinish(start, steps[..|steps| - 1]);
      hide SegmentError;
      assert steps == steps[..|steps| - 1] + [steps[|steps| - 1]];
    }
  }

  /**
   A push is accepted exactly if nobody finished the playlist, the segment is admissible and its number
   is the first one plus the segments pushed before it. A finished playlist says so to every push.
   */
  lemma PushedExactlyInSequence(initUri: string, windowSize: nat, first: u64, steps: seq<Step>, s: Segment)
    requires NewPlaylist(initUri, windowSize, first).Ok?
    ensures var start := NewPlaylist(initUri, windowSize, first).value;
            var r := PushSegment(Run(start, steps), s).1;
            && (r.Ok? <==> Finish !in steps && SegmentError(s).None?
                           && s.sequence == first + |Pushed(start, steps)| < U64_MAX)
            && (r == Err(PlaylistEnded) <==> Finish in steps)
  {
    var start := NewPlaylist(initUri, windowSize, first).value;
    EndedExactlyByAFinish(start, steps);
    RunTracks(start, steps);
    SegmentErrors(s);
    hide Run, Pushed, Evicted, RelativeUri, SegmentError, Contiguous;
  }

  lemma SegmentErrors(s: Segment)
    ensures SegmentError(s).Some? ==> SegmentError(s).value in {InvalidSegment, InvalidUri}
  {
    hide RelativeUri;
  }

  ghost predicate Reachable(p: Live) {
    exists first: u64, steps ::
      NewPlaylist(p.initUri, p.windowSize, first).Ok?
      && Run(NewPlaylist(p.initUri, p.windowSize, first).value, steps) == p
  }

  function Pushes(segments: seq<Segment>): seq<Step> {
    seq(|segments|, i requires 0 <= i < |segments| => Push(segments[i]))
  }

  lemma {:induction false} Rebuild(p: Live, n: nat)
    requires Sound(p) && n <= |p.segments| && p.nextSequence - |p.segments| >= 0
    ensures Run(Live(p.initUri, p.windowSize, [], p.nextSequence - |p.segments|, false), Pushes(p.segments[..n]))
            == Live(p.initUri, p.windowSize, p.segments[..n], p.nextSequence - |p.segments| + n, false)
  {
    if n > 0 {
      hide RelativeUri, SegmentError;
      Rebuild(p, n - 1);
      var steps := Pushes(p.segments[..n]);
      assert steps[..n - 1] == Pushes(p.segments[..n - 1]);
      assert p.segments[..n] == p.segments[..n - 1] + [p.segments[n - 1]];
      assert Contiguous(p.segments, p.nextSequence);
    }
  }

  lemma RunFinish(start: Live, steps: seq<Step>)
    ensures Run(start, steps + [Finish]) == Finished(Run(start, steps))
  {
    assert (steps + [Finish])[..|steps|] == steps;
  }

  lemma SoundIsReachable(p: Live)
    requires Sound(p)
    ensures Reachable(p)
  {
    hide RelativeUri, SegmentError;
    assert p.segments != [] ==> p.segments[0].sequence == p.nextSequence - |p.segments|;
    var first := p.nextSequence - |p.segments|;
    var start := Live(p.initUri, p.windowSize, [], first, false);
    assert NewPlaylist(p.initUri, p.windowSize, first) == Ok(start);
    Rebuild(p, |p.segments|);
    assert p.segments[..|p.segments|] == p.segments;
    hide Run, Pushes;
    var steps := Pushes(p.segments);
    RunFinish(start, steps);
    assert Run(start, if p.ended then steps + [Finish] else steps) == p;
  }

  /** Validation accepts exactly what pushes and a finish can produce from a new playlist. */
  lemma SoundExactlyWhenReachable(p: Live)
    ensures Sound(p) <==> Reachable(p)
  {
    hide RelativeUri, SegmentError;
    if Sound(p) { SoundIsReachable(p); }
    if Reachable(p) {
      var first: u64, steps :|
        NewPlaylist(p.initUri, p.windowSize, first).Ok?
        && Run(NewPlaylist(p.initUri, p.windowSize, first).value, steps) == p;
      hide Run, Reachable;
      RunTracks(NewPlaylist(p.initUri, p.windowSize, first).value, steps);
    }
  }

  // ----- The target duration -----

  function CeilingSeconds(duration: nat): nat {
    (duration + NANOS_PER_SECOND - 1) / NANOS_PER_SECOND
  }

  lemma {:induction false} LongestCovers(segments: seq<Segment>, i: nat)
    requires i < |segments|
    ensures segments[i].duration <= Longest(segments)
  {
    if i < |segments| - 1 { LongestCovers(segments[..|segments| - 1], i); }
  }

  lemma {:induction false} LongestOccurs(segments: seq<Segment>)
    requires segments != []
    ensures exists i :: 0 <= i < |segments| && segments[i].duration == Longest(segments)
  {
    var init, last := segments[..|segments| - 1], segments[|segments| - 1];
    if init != [] && Longest(init) >= last.duration {
      LongestOccurs(init);
      var i :| 0 <= i < |init| && init[i].duration == Longest(init);
      assert segments[i] == init[i];
    } else {
      assert segments[|segments| - 1].duration == Longest(segments);
    }
  }

  lemma CeilingOfSeconds(duration: nat)
    ensures CeilingSeconds(duration)
            == duration / NANOS_PER_SECOND + (if duration % NANOS_PER_SECOND > 0 then 1 else 0)
  {
  }

  lemma CeilingMonotone(a: nat, b: nat)
    requires a <= b
    ensures CeilingSeconds(a) <= CeilingSeconds(b)
  {
  }

  /**
   The announced target covers every windowed duration rounded up. It is exactly the longest one
   rounded up unless all segments are shorter than a second, where it is one second too high.
   */
  lemma TargetCoversEverySegment(p: Live)
    requires Sound(p) && p.segments != []
    ensures var target := TargetSeconds(WindowDuration(p.segments));
            && (forall i :: 0 <= i < |p.segments| ==> CeilingSeconds(p.segments[i].duration) <= target)
            && (target == CeilingSeconds(Longest(p.segments)) <==> Longest(p.segments) >= NANOS_PER_SECOND)
            && target <= CeilingSeconds(Longest(p.segments)) + 1
  {
    hide RelativeUri;
    var longest := Longest(p.segments);
    CeilingOfSeconds(longest);
    LongestOccurs(p.segments);
    forall i | 0 <= i < |p.segments| ensures CeilingSeconds(p.segments[i].duration) <= CeilingSeconds(longest) {
      LongestCovers(p.segments, i);
      CeilingMonotone(p.segments[i].duration, longest);
    }
  }
}
