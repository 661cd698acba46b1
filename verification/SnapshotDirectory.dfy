/**
 A directory of versioned snapshots, keyed by identifier and revision as their file names are. A new
 revision is written to a temporary file, renamed into place, and then all but the two highest
 revisions of the identifier are deleted one by one. The process may die between any two of these.
 */
module SnapshotDirectory {
  import opened Prelude

  type Key = (string, nat)

  /**
   What reading a file yields: its bytes, with the identifier and revision they pass the load checks as
   if they pass them, or an error.
   */
  datatype Content<B> = Stored(bytes: B, identity: Option<Key>) | Unreadable

  type Directory<B> = map<Key, Content<B>>

  /** A file that loads as what its name says. */
  function SnapshotOf<B>(id: string, revision: nat, bytes: B): Content<B> {
    Stored(bytes, Some((id, revision)))
  }

  /** The file holds what its name says. */
  predicate Loads<B>(d: Directory<B>, id: string, revision: nat) {
    revision > 0 && (id, revision) in d && d[(id, revision)].Stored?
    && d[(id, revision)].identity == Some((id, revision))
  }

  ghost predicate IsLatest<B>(d: Directory<B>, id: string, revision: nat) {
    Loads(d, id, revision) && forall r: nat :: Loads(d, id, r) ==> r <= revision
  }

  ghost predicate NothingLoads<B>(d: Directory<B>, id: string) {
    forall r: nat :: !Loads(d, id, r)
  }

  /** Revisions of an identifier up to the current one, as pruning lists them. */
  function Revisions<B>(d: Directory<B>, id: string, current: nat): set<nat> {
    set key | key in d && key.0 == id && key.1 <= current :: key.1
  }

  /** Those with at least two higher ones. */
  predicate Superseded(revisions: set<nat>, r: nat) { |Higher(revisions, r)| >= 2 }

  function Higher(s: set<nat>, r: nat): set<nat> { set x | x in s && x > r }

  function Victims<B>(d: Directory<B>, id: string, current: nat): set<nat> {
    set r | r in Revisions(d, id, current) && Superseded(Revisions(d, id, current), r)
  }

  function Without<B>(d: Directory<B>, id: string, gone: set<nat>): Directory<B> {
    map key | key in d && !(key.0 == id && key.1 in gone) :: d[key]
  }

  // ----- The directory in place -----

  /** Room and fence files: an existing revision is accepted only if it reads back as the same bytes. */
  ghost predicate Accepts<B>(d: Directory<B>, id: string, revision: nat, bytes: B) {
    (id, revision) in d ==> d[(id, revision)].Stored? && d[(id, revision)].bytes == bytes
  }

  /** Media metadata: the same, except that an unreadable file is replaced. */
  ghost predicate AcceptsMetadata<B>(d: Directory<B>, id: string, revision: nat, bytes: B) {
    (id, revision) in d && d[(id, revision)].Stored? ==> d[(id, revision)].bytes == bytes
  }

  datatype PersistError = RevisionConflict

  class Store<B(==)> {
    var files: Directory<B>

    constructor ()
      ensures files == map[]
    {
      files := map[];
    }

    /** The highest usable revision of every identifier that has one. */
    method Load() returns (latest: map<string, (nat, B)>)
      ensures forall id :: id in latest ==>
                IsLatest(files, id, latest[id].0) && files[(id, latest[id].0)].bytes == latest[id].1
      ensures forall id :: id !in latest ==> NothingLoads(files, id)
    {
      latest := map[];
      var remaining := files.Keys;
      while remaining != {}
        invariant remaining <= files.Keys
        invariant forall id :: id in latest ==>
          Loads(files, id, latest[id].0) && files[(id, latest[id].0)].bytes == latest[id].1
        invariant forall id, r: nat :: Loads(files, id, r) && (id, r) !in remaining ==>
          id in latest && r <= latest[id].0
        decreases |remaining|
      {
        var key :| key in remaining;
        remaining := remaining - {key};
        var id, r := key.0, key.1;
        if Loads(files, id, r) && (id !in latest || r > latest[id].0) {
          latest := latest[id := (r, files[key].bytes)];
        }
      }
    }

    /** Writes a room or fence snapshot; `identity` is what its bytes will load as. */
    method Persist(id: string, revision: nat, bytes: B, identity: Option<Key>)
      returns (r: Result<(), PersistError>)
      modifies this
      ensures r.Ok? <==> Accepts(old(files), id, revision, bytes)
      ensures files == if old((id, revision) in files) then old(files)
                       else Persisted(old(files), id, revision, Stored(bytes, identity))
    {
      if (id, revision) in files {
        var existing := files[(id, revision)];
        return if existing.Stored? && existing.bytes == bytes then Ok(()) else Err(RevisionConflict);
      }
      files := files[(id, revision) := Stored(bytes, identity)];
      Prune(id, revision);
      r := Ok(());
    }

    /** Writes a metadata snapshot over nothing or an unreadable file, and prunes on every success. */
    method PersistMetadata(id: string, revision: nat, bytes: B, identity: Option<Key>)
      returns (r: Result<(), PersistError>)
      modifies this
      ensures r.Ok? <==> AcceptsMetadata(old(files), id, revision, bytes)
      ensures r.Err? ==> files == old(files)
      ensures r.Ok? && old((id, revision) in files && files[(id, revision)].Stored?) ==>
                files == Without(old(files), id, Victims(old(files), id, revision))
      ensures r.Ok? && !old((id, revision) in files && files[(id, revision)].Stored?) ==>
                files == Persisted(old(files), id, revision, Stored(bytes, identity))
    {
      if (id, revision) in files && files[(id, revision)].Stored? {
        if files[(id, revision)].bytes != bytes { return Err(RevisionConflict); }
      } else {
        files := files[(id, revision) := Stored(bytes, identity)];
      }
      Prune(id, revision);
      r := Ok(());
    }

    /** From the highest revision down, skips two and deletes the rest. */
    method Prune(id: string, current: nat)
      modifies this
      ensures files == Without(old(files), id, Victims(old(files), id, current))
    {
      hide Superseded;
      var remaining := SkipHighest(SkipHighest(Revisions(files, id, current)));
      SkippingTwo(Revisions(files, id, current));
      ghost var all := remaining;
      ghost var was := files;
      while remaining != {}
        invariant remaining <= all && files == Without(was, id, all - remaining)
        decreases |remaining|
      {
        var r := Highest(remaining);
        files := files - {(id, r)};
        remaining := remaining - {r};
      }
      assert all - {} == all;
    }
  }

  lemma {:induction false} MaximumExists(s: set<nat>)
    requires s != {}
    ensures exists r :: r in s && forall x :: x in s ==> x <= r
    decreases |s|
  {
    var r :| r in s;
    var rest := s - {r};
    assert forall x :: x in s ==> x == r || x in rest;
    if rest != {} {
      MaximumExists(rest);
      var m :| m in rest && forall x :: x in rest ==> x <= m;
      assert Max(r, m) in s && forall x :: x in s ==> x <= Max(r, m);
    }
  }

  function Highest(s: set<nat>): (r: nat)
    requires s != {}
    ensures r in s && forall x :: x in s ==> x <= r
  {
    MaximumExists(s);
    var r :| r in s && forall x :: x in s ==> x <= r;
    r
  }

  function SkipHighest(s: set<nat>): set<nat> { if s == {} then {} else s - {Highest(s)} }

  /** Skipping the two highest leaves exactly those with two higher ones. */
  lemma SkippingTwo(s: set<nat>)
    ensures SkipHighest(SkipHighest(s)) == set r | r in s && Superseded(s, r)
  {
    if s != {} {
      var a := Highest(s);
      var rest := s - {a};
      assert forall x :: x in s ==> x == a || x in rest;
      if rest == {} {
        assert Higher(s, a) == {};
        assert forall r :: r in s ==> r == a;
      } else {
        var b := Highest(rest);
        forall r | r in s ensures r in rest - {b} <==> Superseded(s, r) {
          if r == a {
            assert Higher(s, r) == {};
          } else if r == b {
            assert r < a && Higher(s, r) == {a};
          } else {
            assert r in rest && r < b && b < a;
            SubsetCardinality({a, b}, Higher(s, r));
          }
        }
      }
    }
  }

  /** Two newer files of the same identifier, neither above the revision just written. */
  ghost predicate Outnumbered<B>(d: Directory<B>, key: Key, current: nat) {
    exists a: nat, b: nat | (key.0, a) in d && (key.0, b) in d :: key.1 < a < b <= current
  }

  lemma TwoMembers(s: set<nat>) returns (a: nat, b: nat)
    requires |s| >= 2
    ensures a in s && b in s && a < b
  {
    var x :| x in s;
    var rest := s - {x};
    assert |rest| == |s| - 1;
    var y :| y in rest;
    a, b := Min(x, y), Max(x, y);
  }

  lemma SupersededWhenOutnumbered<B>(d: Directory<B>, id: string, r: nat, current: nat)
    ensures Superseded(Revisions(d, id, current), r) <==> Outnumbered(d, (id, r), current)
  {
    var higher := Higher(Revisions(d, id, current), r);
    if |higher| >= 2 {
      var a, b := TwoMembers(higher);
    }
    if a: nat, b: nat :| (id, a) in d && (id, b) in d && r < a < b <= current {
      assert {a, b} <= higher;
      SubsetCardinality({a, b}, higher);
    }
  }

  /**
   Pruning deletes exactly the files of the identifier that two newer ones up to the current revision
   outnumber: nothing of other identifiers, nothing above that revision, and it changes no file.
   */
  lemma PruningDeletesExactly<B>(d: Directory<B>, id: string, current: nat, key: Key)
    ensures var pruned := Without(d, id, Victims(d, id, current));
            && (key in pruned <==> key in d && !(key.0 == id && Outnumbered(d, key, current)))
            && (key in pruned ==> pruned[key] == d[key])
  {
    SupersededWhenOutnumbered(d, key.0, key.1, current);
    hide Superseded;
  }

  function Persisted<B>(d: Directory<B>, id: string, revision: nat, content: Content<B>): Directory<B> {
    var renamed := d[(id, revision) := content];
    Without(renamed, id, Victims(renamed, id, revision))
  }

  /** The files of an identifier are exactly its last two persists. */
  ghost predicate HoldsLastTwo<B>(d: Directory<B>, id: string, h: seq<(nat, Content<B>)>) {
    && (forall i :: 0 <= i < |h| && i >= |h| - 2 ==> (id, h[i].0) in d && d[(id, h[i].0)] == h[i].1)
    && (forall r :: (id, r) in d ==> exists i :: 0 <= i < |h| && i >= |h| - 2 && h[i].0 == r)
  }

  lemma OldestOfThree(a: nat, b: nat, c: nat)
    requires a < b < c
    ensures SkipHighest(SkipHighest({a, b, c})) == {a}
  {
    assert Highest({a, b, c}) == c;
    assert {a, b, c} - {c} == {a, b};
    assert Highest({a, b}) == b;
  }

  lemma UpToTwo(s: set<nat>, a: nat, b: nat)
    requires s <= {a, b}
    ensures SkipHighest(SkipHighest(s)) == {}
  {
    var rest := SkipHighest(s);
    if rest != {} {
      assert Highest(s) in s && Highest(rest) in rest;
      assert rest == {Highest(rest)};
    }
  }

  lemma VictimOfPersist<B>(d: Directory<B>, id: string, h: seq<(nat, Content<B>)>, revision: nat,
                           content: Content<B>)
    requires HoldsLastTwo(d, id, h) && forall i, j :: 0 <= i < j < |h| ==> h[i].0 < h[j].0
    requires forall i :: 0 <= i < |h| ==> h[i].0 < revision
    ensures Victims(d[(id, revision) := content], id, revision)
            == if |h| >= 2 then {h[|h| - 2].0} else {}
  {
    var d' := d[(id, revision) := content];
    var all := Revisions(d', id, revision);
    SkippingTwo(all);
    assert Victims(d', id, revision) == SkipHighest(SkipHighest(all));
    assert forall r :: r in all <==> (id, r) in d' && r <= revision;
    hide Victims, Superseded, Revisions, SkipHighest;
    if |h| >= 2 {
      assert all == {h[|h| - 2].0, h[|h| - 1].0, revision};
      OldestOfThree(h[|h| - 2].0, h[|h| - 1].0, revision);
    } else {
      var a := if |h| == 1 then h[0].0 else revision;
      assert all <= {a, revision};
      UpToTwo(all, a, revision);
    }
  }

  /** An uninterrupted persist of a higher revision leaves exactly the last two again. */
  lemma PersistKeepsLastTwo<B>(d: Directory<B>, id: string, h: seq<(nat, Content<B>)>, revision: nat,
                               content: Content<B>)
    requires HoldsLastTwo(d, id, h) && forall i, j :: 0 <= i < j < |h| ==> h[i].0 < h[j].0
    requires forall i :: 0 <= i < |h| ==> h[i].0 < revision
    ensures HoldsLastTwo(Persisted(d, id, revision, content), id, h + [(revision, content)])
  {
    VictimOfPersist(d, id, h, revision, content);
    hide Victims;
    var d', h' := Persisted(d, id, revision, content), h + [(revision, content)];
    assert (id, revision) in d' && d'[(id, revision)] == content;
    if h != [] {
      assert h'[|h'| - 2] == h[|h| - 1];
      assert (id, h[|h| - 1].0) in d' && d'[(id, h[|h| - 1].0)] == h[|h| - 1].1;
    }
    forall r | (id, r) in d' ensures exists i :: 0 <= i < |h'| && i >= |h'| - 2 && h'[i].0 == r {
      if r == revision {
        assert h'[|h|].0 == r;
      } else {
        var i :| 0 <= i < |h| && i >= |h| - 2 && h[i].0 == r;
        assert i == |h| - 1 && h'[i].0 == r;
      }
    }
  }
}
