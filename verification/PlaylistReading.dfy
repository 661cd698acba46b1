/** What a client makes of a rendered playlist, and which names a playlist admits. */
module PlaylistReading {
  import opened Prelude
  import opened Playlist

  // ----- The client's side -----

  /** What a client has gathered: whole segments, and what it heard about the next one. */
  datatype Client = Client(
    segments: seq<Segment>, next: u64, discontinuity: bool, date: Option<string>, duration: nat,
    initUri: string, target: nat, ended: bool)

  function NewClient(): Client { Client([], 0, false, None, 0, "", 0, false) }

  /** A segment's tags come before its URI, which completes it; numbers count up from the first. */
  function ReadLine(c: Client, line: Line): Client {
    match line
    case Header => c
    case Version(_) => c
    case TargetDuration(seconds) => c.(target := seconds)
    case MediaSequence(first) => c.(next := first)
    case InitMap(uri) => c.(initUri := uri)
    case Discontinuity => c.(discontinuity := true)
    case ProgramDateTime(value) => c.(date := Some(value))
    case Inf(nanos) => c.(duration := nanos)
    case Uri(uri) =>
      c.(segments := c.segments + [Segment(c.next, c.duration, uri, c.discontinuity, c.date)],
         next := Min(c.next + 1, U64_MAX), discontinuity := false, date := None)
    case EndList => c.(ended := true)
  }

  function Read(c: Client, lines: seq<Line>): Client {
    if lines == [] then c else ReadLine(Read(c, lines[..|lines| - 1]), lines[|lines| - 1])
  }

  lemma {:induction false} ReadConcat(c: Client, a: seq<Line>, b: seq<Line>)
    ensures Read(c, a + b) == Read(Read(c, a), b)
  {
    if b == [] {
      assert a + b == a;
    } else {
      var n := |b| - 1;
      ReadConcat(c, a, b[..n]);
      assert (a + b)[..|a + b| - 1] == a + b[..n];
    }
  }

  lemma ReadOne(c: Client, line: Line)
    ensures Read(c, [line]) == ReadLine(c, line)
  {
    assert [line][..0] == [];
  }

  lemma ReadSnoc(c: Client, lines: seq<Line>, line: Line)
    ensures Read(c, lines + [line]) == ReadLine(Read(c, lines), line)
  {
    assert (lines + [line])[..|lines|] == lines;
  }

  /** Nothing was heard about the next segment yet. */
  ghost predicate Between(c: Client) { !c.discontinuity && c.date.None? }

  lemma ReadTags(c: Client, s: Segment)
    ensures Read(c, SegmentLines(s))
            == ReadLine(ReadLine(Read(Read(c, if s.discontinuity then [Discontinuity] else []),
                                      if s.programDateTime.Some?
                                      then [ProgramDateTime(s.programDateTime.value)] else []),
                                 Inf(s.duration)), Uri(s.uri))
  {
    hide ReadLine;
    var a := if s.discontinuity then [Discontinuity] else [];
    var b := if s.programDateTime.Some? then [ProgramDateTime(s.programDateTime.value)] else [];
    ReadConcat(c, a + b, [Inf(s.duration), Uri(s.uri)]);
    ReadConcat(c, a, b);
    var c' := Read(Read(c, a), b);
    assert [Inf(s.duration), Uri(s.uri)] == [Inf(s.duration)] + [Uri(s.uri)];
    ReadConcat(c', [Inf(s.duration)], [Uri(s.uri)]);
    ReadOne(c', Inf(s.duration));
    ReadOne(ReadLine(c', Inf(s.duration)), Uri(s.uri));
    hide Read;
  }

  lemma ReadSegment(c: Client, s: Segment)
    requires Between(c) && s.sequence == c.next < U64_MAX
    ensures Read(c, SegmentLines(s))
            == c.(segments := c.segments + [s], next := c.next + 1, duration := s.duration)
  {
    ReadTags(c, s);
    ReadOne(c, Discontinuity);
    var c' := Read(c, if s.discontinuity then [Discontinuity] else []);
    if s.programDateTime.Some? { ReadOne(c', ProgramDateTime(s.programDateTime.value)); }
  }

  /** Reading the lines of numbered segments adds exactly those segments. */
  lemma {:induction false} ReadSegments(c: Client, segments: seq<Segment>)
    requires Between(c) && c.next + |segments| <= U64_MAX
    requires forall i :: 0 <= i < |segments| ==> segments[i].sequence == c.next + i
    ensures var c' := Read(c, Lines(segments));
            && c'.segments == c.segments + segments && c'.next == c.next + |segments| && Between(c')
            && c'.initUri == c.initUri && c'.target == c.target && c'.ended == c.ended
  {
    if segments != [] {
      var init, last := segments[..|segments| - 1], segments[|segments| - 1];
      ReadSegments(c, init);
      ReadConcat(c, Lines(init), SegmentLines(last));
      ReadSegment(Read(c, Lines(init)), last);
      assert segments == init + [last];
      hide Read, SegmentLines;
    }
  }

  lemma ReadHeader(target: nat, first: u64, uri: string)
    ensures Read(NewClient(), [Header, Version(7), TargetDuration(target), MediaSequence(first), InitMap(uri)])
            == Client([], first, false, None, 0, uri, target, false)
  {
    var c := NewClient();
    var a, b, d, e, f := Header, Version(7), TargetDuration(target), MediaSequence(first), InitMap(uri);
    ReadOne(c, a);
    ReadSnoc(c, [a], b);
    ReadSnoc(c, [a, b], d);
    ReadSnoc(c, [a, b, d], e);
    ReadSnoc(c, [a, b, d, e], f);
    assert [a] + [b] == [a, b] && [a, b] + [d] == [a, b, d] && [a, b, d] + [e] == [a, b, d, e];
    assert [a, b, d, e] + [f] == [a, b, d, e, f];
    hide Read;
  }

  /** A client that reads the rendered playlist line by line ends up with the playlist. */
  lemma ClientReadsThePlaylist(p: Live)
    requires Sound(p)
    ensures var c := Read(NewClient(), Rendered(p));
            && c.segments == p.segments && c.next == p.nextSequence && c.initUri == p.initUri
            && c.ended == p.ended && c.target == TargetSeconds(WindowDuration(p.segments)) && Between(c)
  {
    hide RelativeUri, SegmentError, WindowDuration, TargetSeconds;
    var target, first := TargetSeconds(WindowDuration(p.segments)), MediaSequenceOf(p);
    var header := [Header, Version(7), TargetDuration(target), MediaSequence(first), InitMap(p.initUri)];
    ReadHeader(target, first, p.initUri);
    var c := Client([], first, false, None, 0, p.initUri, target, false);
    assert p.segments != [] ==> first == p.nextSequence - |p.segments|;
    ReadSegments(c, p.segments);
    ReadConcat(NewClient(), header, Lines(p.segments));
    var end := if p.ended then [EndList] else [];
    ReadConcat(NewClient(), header + Lines(p.segments), end);
    ReadOne(Read(c, Lines(p.segments)), EndList);
    assert Rendered(p) == header + Lines(p.segments) + end;
    assert Read(Read(c, Lines(p.segments)), []) == Read(c, Lines(p.segments));
    hide Read, Lines, Rendered;
  }

  // ----- Names -----

  /** Two dots at `i`, alone between slashes or the ends of the text. */
  ghost predicate ParentAt(uri: string, i: nat) {
    i + 2 <= |uri| && uri[i] == '.' && uri[i + 1] == '.'
    && (i > 0 ==> uri[i - 1] == '/') && (i + 2 < |uri| ==> uri[i + 2] == '/')
  }

  lemma {:induction false} SplitAtSlash(uri: string)
    ensures var (head, rest) := FirstComponent(uri);
            '/' !in head && if '/' in uri then uri == head + "/" + rest else uri == head && rest == ""
  {
    if uri != [] {
      assert uri == [uri[0]] + uri[1..];
      if uri[0] != '/' { SplitAtSlash(uri[1..]); }
    }
  }

  lemma {:induction false} ParentComponentExactly(uri: string)
    ensures HasParentComponent(uri) <==> exists i :: ParentAt(uri, i)
    decreases |uri|
  {
    if uri != [] {
      var (head, rest) := FirstComponent(uri);
      SplitAtSlash(uri);
      RestIsShorter(uri);
      ParentComponentExactly(rest);
      assert HasParentComponent(uri) <==> head == ".." || HasParentComponent(rest);
      hide FirstComponent, HasParentComponent;
      ParentsOfComponents(uri, head, rest);
    }
  }

  lemma ParentsOfComponents(uri: string, head: string, rest: string)
    requires '/' !in head && if '/' in uri then uri == head + "/" + rest else uri == head && rest == ""
    ensures (exists i :: ParentAt(uri, i)) <==> head == ".." || exists i :: ParentAt(rest, i)
  {
    if head == ".." { assert ParentAt(uri, 0); }
    if i: nat :| ParentAt(rest, i) { assert ParentAt(uri, |head| + 1 + i); }
    if i: nat :| ParentAt(uri, i) {
      if i > 0 {
        assert forall k :: 0 <= k < |head| ==> uri[k] == head[k] && head[k] in head;
        assert ParentAt(rest, i - |head| - 1);
      } else {
        assert head == "..";
      }
    }
  }

  lemma PlainExactly(uri: string)
    ensures (forall c | c in uri :: c != '\\' && c != '\r' && c != '\n' && c != '?' && c != '#')
            <==> forall i :: 0 <= i < |uri| ==> uri[i] !in {'\\', '\r', '\n', '?', '#'}
  {
    if forall i :: 0 <= i < |uri| ==> uri[i] !in {'\\', '\r', '\n', '?', '#'} {
      forall c | c in uri ensures c != '\\' && c != '\r' && c != '\n' && c != '?' && c != '#' {
        var i :| 0 <= i < |uri| && uri[i] == c;
      }
    } else {
      var i :| 0 <= i < |uri| && uri[i] in {'\\', '\r', '\n', '?', '#'};
      assert uri[i] in uri;
    }
  }

  /**
   A segment is admitted exactly if it lasts up to a minute, its name stays below the playlist's
   directory, and its date, if it has one, is short and in UTC.
   */
  lemma SegmentAdmittedExactly(s: Segment)
    ensures SegmentError(s).None? <==>
              && 0 < s.duration <= 60_000_000_000
              && 1 <= |s.uri| && Utf8Length(s.uri) <= 1_024 && s.uri[0] != '/'
              && (forall i :: 0 <= i < |s.uri| ==> s.uri[i] !in {'\\', '\r', '\n', '?', '#'})
              && (forall i :: !ParentAt(s.uri, i))
              && (s.programDateTime.Some? ==>
                    var date := s.programDateTime.value;
                    1 <= |date| && Utf8Length(date) <= 64 && date[|date| - 1] == 'Z')
  {
    hide Utf8Length, HasParentComponent;
    ParentComponentExactly(s.uri);
    PlainExactly(s.uri);
  }
}
