/**
 Snapshot directories over every run of interleaved writers and crashes. What a restart loads is
 compared with the record of all renames, which no process keeps.
 */
module SnapshotCrashes {
  import opened Prelude
  import opened SnapshotDirectory

  datatype Entry<B> = Entry(revision: nat, bytes: B)

  /** How far a persist has come: its file is being written, or in place and the rest being pruned. */
  datatype Stage<B> = Writing(entry: Entry<B>) | Pruning(entry: Entry<B>, victims: set<nat>)

  /** `known` is what the process believes is stored: what it finished or what it last loaded. */
  datatype World<B> = World(
    files: Directory<B>, renamed: map<string, seq<Entry<B>>>, known: map<string, nat>,
    stages: map<string, Stage<B>>)

  datatype Step<B> =
    | Begin(id: string, entry: Entry<B>)
    | Rename(id: string)
    | Delete(id: string, revision: nat, removed: bool)
    | Finish(id: string)
    | CrashAndLoad(loaded: map<string, nat>)

  function Start<B>(): World<B> { World(map[], map[], map[], map[]) }

  function History<B>(w: World<B>, id: string): seq<Entry<B>> {
    if id in w.renamed then w.renamed[id] else []
  }

  function Known<B>(w: World<B>, id: string): nat { if id in w.known then w.known[id] else 0 }

  ghost predicate LoadResult<B>(d: Directory<B>, loaded: map<string, nat>) {
    forall id :: if id in loaded then IsLatest(d, id, loaded[id]) else NothingLoads(d, id)
  }

  function Renamed<B>(w: World<B>, id: string, entry: Entry<B>): World<B> {
    var files := w.files[(id, entry.revision) := SnapshotOf(id, entry.revision, entry.bytes)];
    w.(files := files, renamed := w.renamed[id := History(w, id) + [entry]],
       stages := w.stages[id := Pruning(entry, Victims(files, id, entry.revision))])
  }

  /** Writers of one identifier take turns and go on from the revision they know. */
  ghost function Next<B>(w: World<B>, step: Step<B>): World<B> {
    match step
    case Begin(id, entry) =>
      if id !in w.stages && entry.revision > Known(w, id)
      then w.(stages := w.stages[id := Writing(entry)]) else w
    case Rename(id) =>
      if id in w.stages && w.stages[id].Writing? then Renamed(w, id, w.stages[id].entry) else w
    case Delete(id, r, removed) =>
      if id in w.stages && w.stages[id].Pruning? && r in w.stages[id].victims
      then
        w.(files := if removed then w.files - {(id, r)} else w.files,
           stages := w.stages[id := w.stages[id].(victims := w.stages[id].victims - {r})])
      else w
    case Finish(id) =>
      if id in w.stages && w.stages[id].Pruning? && w.stages[id].victims == {}
      then w.(known := w.known[id := w.stages[id].entry.revision], stages := w.stages - {id}) else w
    case CrashAndLoad(loaded) =>
      if LoadResult(w.files, loaded) then w.(known := loaded, stages := map[]) else w
  }

  ghost function Run<B>(steps: seq<Step<B>>): World<B> {
    if steps == [] then Start() else Next(Run(steps[..|steps| - 1]), steps[|steps| - 1])
  }

  // ----- The invariant of one identifier -----

  ghost predicate Rising<B>(h: seq<Entry<B>>) {
    (forall i :: 0 <= i < |h| ==> h[i].revision > 0)
    && forall i, j :: 0 <= i < j < |h| ==> h[i].revision < h[j].revision
  }

  /** Every file is one of the renames, unchanged, and the last two renames are there. */
  ghost predicate FilesOk<B>(d: Directory<B>, id: string, h: seq<Entry<B>>) {
    && (forall r :: (id, r) in d ==>
          exists i :: 0 <= i < |h| && h[i].revision == r && d[(id, r)] == SnapshotOf(id, r, h[i].bytes))
    && (forall i :: 0 <= i < |h| && i >= |h| - 2 ==> (id, h[i].revision) in d)
  }

  function Newest<B>(h: seq<Entry<B>>): nat { if h == [] then 0 else h[|h| - 1].revision }

  /** What may still be deleted is older than the last two renames. */
  ghost predicate StageOk<B>(stage: Option<Stage<B>>, h: seq<Entry<B>>, known: nat) {
    match stage
    case None => known == Newest(h)
    case Some(Writing(entry)) => known == Newest(h) && entry.revision > Newest(h)
    case Some(Pruning(entry, victims)) =>
      h != [] && h[|h| - 1] == entry
      && forall i :: 0 <= i < |h| && i >= |h| - 2 ==> h[i].revision !in victims
  }

  function StageOf<B>(w: World<B>, id: string): Option<Stage<B>> {
    if id in w.stages then Some(w.stages[id]) else None
  }

  ghost predicate IdOk<B>(w: World<B>, id: string) {
    Rising(History(w, id)) && FilesOk(w.files, id, History(w, id))
    && StageOk(StageOf(w, id), History(w, id), Known(w, id))
  }

  ghost predicate WorldOk<B>(w: World<B>) { forall id :: IdOk(w, id) }

  // ----- Loading -----

  lemma FileAt<B>(d: Directory<B>, id: string, h: seq<Entry<B>>, i: nat)
    requires Rising(h) && FilesOk(d, id, h) && i < |h| && i >= |h| - 2
    ensures Loads(d, id, h[i].revision) && d[(id, h[i].revision)].bytes == h[i].bytes
  {
    var r := h[i].revision;
    var j :| 0 <= j < |h| && h[j].revision == r && d[(id, r)] == SnapshotOf(id, r, h[j].bytes);
    assert i == j;
  }

  lemma OnlyRenamesLoad<B>(d: Directory<B>, id: string, h: seq<Entry<B>>, r: nat)
    requires Rising(h) && FilesOk(d, id, h) && Loads(d, id, r)
    ensures h != [] && r <= Newest(h) && (r == Newest(h) || (|h| >= 2 && r <= h[|h| - 2].revision))
  {
    assert (id, r) in d;
    var i :| 0 <= i < |h| && h[i].revision == r && d[(id, r)] == SnapshotOf(id, r, h[i].bytes);
  }

  /** The newest rename is what loading finds. */
  lemma NewestLoads<B>(d: Directory<B>, id: string, h: seq<Entry<B>>)
    requires Rising(h) && FilesOk(d, id, h)
    ensures if h == [] then NothingLoads(d, id)
            else IsLatest(d, id, Newest(h)) && d[(id, Newest(h))].bytes == h[|h| - 1].bytes
  {
    if h != [] { FileAt(d, id, h, |h| - 1); }
    forall r: nat | Loads(d, id, r) ensures h != [] && r <= Newest(h) { OnlyRenamesLoad(d, id, h, r); }
  }

  lemma LatestIsUnique<B>(d: Directory<B>, id: string, a: nat, b: nat)
    requires IsLatest(d, id, a) && IsLatest(d, id, b)
    ensures a == b
  {
  }

  // ----- Each step keeps the invariant -----

  /** The directory is the same as far as one identifier is concerned. */
  ghost predicate SameFiles<B>(d: Directory<B>, d': Directory<B>, id: string) {
    forall r: nat :: ((id, r) in d <==> (id, r) in d') && ((id, r) in d ==> d[(id, r)] == d'[(id, r)])
  }

  lemma SameFilesOk<B>(d: Directory<B>, d': Directory<B>, id: string, h: seq<Entry<B>>)
    requires SameFiles(d, d', id) && FilesOk(d, id, h)
    ensures FilesOk(d', id, h)
  {
    forall r | (id, r) in d'
      ensures exists i :: 0 <= i < |h| && h[i].revision == r && d'[(id, r)] == SnapshotOf(id, r, h[i].bytes)
    {
      assert (id, r) in d;
    }
    forall i | 0 <= i < |h| && i >= |h| - 2 ensures (id, h[i].revision) in d' {
      assert (id, h[i].revision) in d;
    }
  }

  ghost predicate Touches<B>(step: Step<B>, id: string) {
    step.CrashAndLoad? || step.id == id
  }

  lemma {:induction false} OthersKeepId<B>(w: World<B>, step: Step<B>, id: string)
    requires IdOk(w, id) && !Touches(step, id)
    ensures IdOk(Next(w, step), id)
  {
    hide Victims, Rising, FilesOk;
    SameFilesOk(w.files, Next(w, step).files, id, History(w, id));
  }

  /** The two newest revisions are never chosen for deletion. */
  lemma NewestTwoSurvive<B>(d: Directory<B>, id: string, h: seq<Entry<B>>, entry: Entry<B>)
    requires Rising(h) && FilesOk(d, id, h) && entry.revision > Newest(h)
    ensures var d' := d[(id, entry.revision) := SnapshotOf(id, entry.revision, entry.bytes)];
            entry.revision !in Victims(d', id, entry.revision)
            && (h != [] ==> Newest(h) !in Victims(d', id, entry.revision))
  {
    var d' := d[(id, entry.revision) := SnapshotOf(id, entry.revision, entry.bytes)];
    var all := Revisions(d', id, entry.revision);
    assert Higher(all, entry.revision) == {};
    assert forall r :: r in all ==> r == entry.revision || (id, r) in d;
    assert Higher(all, Newest(h)) <= {entry.revision};
    SubsetCardinality(Higher(all, Newest(h)), {entry.revision});
  }

  lemma RenameFilesOk<B>(d: Directory<B>, id: string, h: seq<Entry<B>>, entry: Entry<B>)
    requires Rising(h) && FilesOk(d, id, h) && entry.revision > Newest(h)
    ensures Rising(h + [entry])
    ensures FilesOk(d[(id, entry.revision) := SnapshotOf(id, entry.revision, entry.bytes)], id, h + [entry])
  {
    hide SnapshotOf;
    var d' := d[(id, entry.revision) := SnapshotOf(id, entry.revision, entry.bytes)];
    var h' := h + [entry];
    assert forall i :: 0 <= i < |h| ==> h'[i] == h[i];
    forall r | (id, r) in d'
      ensures exists i :: 0 <= i < |h'| && h'[i].revision == r && d'[(id, r)] == SnapshotOf(id, r, h'[i].bytes)
    {
      if r == entry.revision {
        assert h'[|h|] == entry;
      } else {
        var i :| 0 <= i < |h| && h[i].revision == r && d[(id, r)] == SnapshotOf(id, r, h[i].bytes);
        assert h'[i] == h[i];
      }
    }
  }

  lemma RenameKeepsId<B>(w: World<B>, id: string)
    requires IdOk(w, id) && id in w.stages && w.stages[id].Writing?
    ensures IdOk(Next(w, Rename(id)), id)
  {
    var h, entry := History(w, id), w.stages[id].entry;
    NewestTwoSurvive(w.files, id, h, entry);
    RenameFilesOk(w.files, id, h, entry);
    hide Victims, Rising, FilesOk;
  }

  lemma DeleteKeepsFiles<B>(d: Directory<B>, id: string, h: seq<Entry<B>>, r: nat)
    requires FilesOk(d, id, h)
    requires forall i :: 0 <= i < |h| && i >= |h| - 2 ==> h[i].revision != r
    ensures FilesOk(d - {(id, r)}, id, h)
  {
    forall x | (id, x) in d - {(id, r)}
      ensures exists i :: 0 <= i < |h| && h[i].revision == x
                          && (d - {(id, r)})[(id, x)] == SnapshotOf(id, x, h[i].bytes)
    {
      assert (id, x) in d;
    }
  }

  lemma DeleteKeepsId<B>(w: World<B>, id: string, r: nat, removed: bool)
    requires IdOk(w, id) && id in w.stages && w.stages[id].Pruning? && r in w.stages[id].victims
    ensures IdOk(Next(w, Delete(id, r, removed)), id)
  {
    if removed { DeleteKeepsFiles(w.files, id, History(w, id), r); }
    hide Rising, FilesOk;
  }

  lemma CrashKeepsId<B>(w: World<B>, loaded: map<string, nat>, id: string)
    requires IdOk(w, id) && LoadResult(w.files, loaded)
    ensures IdOk(Next(w, CrashAndLoad(loaded)), id)
  {
    var h := History(w, id);
    NewestLoads(w.files, id, h);
    if h != [] && id in loaded { LatestIsUnique(w.files, id, loaded[id], Newest(h)); }
    assert if id in loaded then IsLatest(w.files, id, loaded[id]) else NothingLoads(w.files, id);
    hide Rising, FilesOk;
  }

  lemma NextOk<B>(w: World<B>, step: Step<B>)
    requires WorldOk(w)
    ensures WorldOk(Next(w, step))
  {
    forall id ensures IdOk(Next(w, step), id) {
      assert IdOk(w, id);
      if !Touches(step, id) {
        OthersKeepId(w, step, id);
      } else {
        match step {
          case Begin(_, _) => hide Rising, FilesOk;
          case Rename(_) => if id in w.stages && w.stages[id].Writing? { RenameKeepsId(w, id); }
          case Delete(_, r, removed) =>
            if id in w.stages && w.stages[id].Pruning? && r in w.stages[id].victims {
              DeleteKeepsId(w, id, r, removed);
            }
          case Finish(_) => hide Rising, FilesOk;
          case CrashAndLoad(loaded) => if LoadResult(w.files, loaded) { CrashKeepsId(w, loaded, id); }
        }
      }
    }
  }

  lemma {:induction false} RunOk<B>(steps: seq<Step<B>>)
    ensures WorldOk(Run(steps))
  {
    if steps != [] {
      hide WorldOk, Next;
      RunOk(steps[..|steps| - 1]);
      NextOk(Run(steps[..|steps| - 1]), steps[|steps| - 1]);
    }
  }

  // ----- The persist of one writer, step by step -----

  ghost function RunFrom<B>(w: World<B>, steps: seq<Step<B>>): World<B>
    decreases |steps|
  {
    if steps == [] then w else RunFrom(Next(w, steps[0]), steps[1..])
  }

  lemma WithoutOneMore<B>(d: Directory<B>, id: string, r: nat, gone: set<nat>)
    ensures Without(d - {(id, r)}, id, gone - {r}) == Without(d, id, gone + {r})
  {
  }

  /** The end of a pruning in progress. */
  function Pruned<B>(w: World<B>, id: string): World<B>
    requires id in w.stages && w.stages[id].Pruning?
  {
    w.(files := Without(w.files, id, w.stages[id].victims),
       stages := w.stages[id := Pruning(w.stages[id].entry, {})])
  }

  lemma DeletesOne<B>(w: World<B>, id: string, r: nat)
    requires id in w.stages && w.stages[id].Pruning? && r in w.stages[id].victims
    ensures Next(w, Delete(id, r, true))
            == w.(files := w.files - {(id, r)},
                  stages := w.stages[id := Pruning(w.stages[id].entry, w.stages[id].victims - {r})])
  {
  }

  /** Deleting the victims one by one removes exactly them. */
  lemma {:induction false} DeletionsPrune<B>(w: World<B>, id: string) returns (deletions: seq<Step<B>>)
    requires id in w.stages && w.stages[id].Pruning?
    ensures forall i :: 0 <= i < |deletions| ==> deletions[i].Delete? && deletions[i].id == id
    ensures RunFrom(w, deletions) == Pruned(w, id)
    decreases |w.stages[id].victims|
  {
    var stage := w.stages[id];
    if stage.victims == {} {
      deletions := [];
    } else {
      var r :| r in stage.victims;
      DeletesOne(w, id, r);
      PruneGoesOn(w, id, r);
      hide Next, Without, RunFrom;
      var rest := DeletionsPrune(Next(w, Delete(id, r, true)), id);
      RunFromCons(w, Delete(id, r, true), rest);
      deletions := [Delete(id, r, true)] + rest;
    }
  }

  lemma RunFromCons<B>(w: World<B>, step: Step<B>, rest: seq<Step<B>>)
    ensures RunFrom(w, [step] + rest) == RunFrom(Next(w, step), rest)
  {
    hide Next;
    assert ([step] + rest)[1..] == rest;
  }

  /** What is left to do after one deletion leads to the same end. */
  lemma PruneGoesOn<B>(w: World<B>, id: string, r: nat)
    requires id in w.stages && w.stages[id].Pruning? && r in w.stages[id].victims
    ensures var w' := w.(files := w.files - {(id, r)},
                         stages := w.stages[id := Pruning(w.stages[id].entry, w.stages[id].victims - {r})]);
            Pruned(w', id) == Pruned(w, id)
  {
    WithoutOneMore(w.files, id, r, w.stages[id].victims);
    hide Without;
    assert w.stages[id].victims + {r} == w.stages[id].victims;
  }

  /** Uninterrupted, writing, renaming and deleting are the persist that keeps the last two revisions. */
  lemma {:induction false} UninterruptedPersistIsAtomic<B>(w: World<B>, id: string, entry: Entry<B>)
    returns (deletions: seq<Step<B>>)
    requires id !in w.stages && entry.revision > Known(w, id)
    ensures forall i :: 0 <= i < |deletions| ==> deletions[i].Delete? && deletions[i].id == id
    ensures var pruned := RunFrom(Next(Next(w, Begin(id, entry)), Rename(id)), deletions);
            var w' := Next(pruned, Finish(id));
            && w'.files == Persisted(w.files, id, entry.revision,
                                     SnapshotOf(id, entry.revision, entry.bytes))
            && w'.known == w.known[id := entry.revision] && w'.stages == w.stages
            && w'.renamed == w.renamed[id := History(w, id) + [entry]]
  {
    hide Victims, Without;
    var renamed := Next(Next(w, Begin(id, entry)), Rename(id));
    deletions := DeletionsPrune(renamed, id);
    hide RunFrom;
  }

  // ----- Main results -----

  /**
   Loading at any moment of any run, crashes included, finds the revision last known to be stored or
   the one whose rename is in flight, with exactly the contents persisted under it.
   */
  lemma LoadFindsKnownOrInFlight<B>(steps: seq<Step<B>>, loaded: map<string, nat>, id: string)
    requires LoadResult(Run(steps).files, loaded)
    ensures var w := Run(steps);
            && (id in loaded <==> History(w, id) != [])
            && (id in loaded ==>
                  && loaded[id] == Newest(History(w, id))
                  && w.files[(id, loaded[id])].bytes == History(w, id)[|History(w, id)| - 1].bytes
                  && (loaded[id] == Known(w, id)
                      || (id in w.stages && w.stages[id].Pruning? && w.stages[id].entry.revision == loaded[id])))
  {
    RunOk(steps);
    var w := Run(steps);
    assert IdOk(w, id);
    hide Run, WorldOk;
    NewestLoads(w.files, id, History(w, id));
    assert if id in loaded then IsLatest(w.files, id, loaded[id]) else NothingLoads(w.files, id);
    if id in loaded && History(w, id) != [] {
      LatestIsUnique(w.files, id, loaded[id], Newest(History(w, id)));
    }
    hide Rising, FilesOk;
  }

  /** With two renames behind it, losing the newest file costs exactly one revision. */
  lemma DamagedNewestFallsBackByOne<B>(steps: seq<Step<B>>, id: string, damage: Content<B>)
    requires |History(Run(steps), id)| >= 2
    requires !Loads(map[(id, Newest(History(Run(steps), id))) := damage], id, Newest(History(Run(steps), id)))
    ensures var h := History(Run(steps), id);
            var d := Run(steps).files[(id, Newest(h)) := damage];
            IsLatest(d, id, h[|h| - 2].revision) && d[(id, h[|h| - 2].revision)].bytes == h[|h| - 2].bytes
  {
    RunOk(steps);
    var w := Run(steps);
    assert IdOk(w, id);
    hide Run, WorldOk, FilesOk, Rising, Loads, IsLatest, StageOk;
    DamageFallsBack(w.files, id, History(w, id), damage);
  }

  lemma DamageFallsBack<B>(d: Directory<B>, id: string, h: seq<Entry<B>>, damage: Content<B>)
    requires Rising(h) && FilesOk(d, id, h) && |h| >= 2
    requires !Loads(map[(id, Newest(h)) := damage], id, Newest(h))
    ensures var d' := d[(id, Newest(h)) := damage];
            IsLatest(d', id, h[|h| - 2].revision) && d'[(id, h[|h| - 2].revision)].bytes == h[|h| - 2].bytes
  {
    hide FilesOk;
    var d' := d[(id, Newest(h)) := damage];
    FileAt(d, id, h, |h| - 2);
    assert h[|h| - 2].revision < Newest(h);
    forall r: nat | Loads(d', id, r) ensures r <= h[|h| - 2].revision {
      assert r != Newest(h);
      assert Loads(d, id, r);
      OnlyRenamesLoad(d, id, h, r);
    }
  }

  /**
   After such a fallback a writer that numbers consecutively is stuck at the damaged file: a room or
   fence revision is accepted exactly if that file reads back as its bytes, a metadata revision also if
   the file cannot be read.
   */
  lemma DamagedNewestBlocksTheNextWrite<B>(steps: seq<Step<B>>, id: string, damage: Content<B>,
                                           loaded: map<string, nat>, bytes: B)
    requires |History(Run(steps), id)| >= 2
    requires var h := History(Run(steps), id); h[|h| - 1].revision == h[|h| - 2].revision + 1
    requires !Loads(map[(id, Newest(History(Run(steps), id))) := damage], id, Newest(History(Run(steps), id)))
    requires LoadResult(Run(steps).files[(id, Newest(History(Run(steps), id))) := damage], loaded)
    ensures id in loaded
    ensures var d := Run(steps).files[(id, Newest(History(Run(steps), id))) := damage];
            && (Accepts(d, id, loaded[id] + 1, bytes) <==> damage.Stored? && damage.bytes == bytes)
            && (AcceptsMetadata(d, id, loaded[id] + 1, bytes) <==> damage.Unreadable? || damage.bytes == bytes)
  {
    DamagedNewestFallsBackByOne(steps, id, damage);
    var h := History(Run(steps), id);
    var d := Run(steps).files[(id, Newest(h)) := damage];
    hide Run;
    assert if id in loaded then IsLatest(d, id, loaded[id]) else NothingLoads(d, id);
    if id in loaded { LatestIsUnique(d, id, loaded[id], h[|h| - 2].revision); }
  }
}
