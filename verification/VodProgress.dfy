/** What an asset can still become, and what its progress never does. */
module VodProgress {
  import opened Prelude
  import opened VodAsset
  import Playlist

  // ----- Every call -----

  /** Where a call may be made from, and with what. */
  ghost predicate Allowed(state: AssetState, call: Call) {
    match call
    case UploadProgress(received) => state == Created || exists n: u64 :: n <= received && state == Uploading(n)
    case CompleteUpload(bytes) => bytes > 0 && state == Uploading(bytes)
    case StartProbe => exists n :: state == Uploaded(n)
    case StartTranscode => state == Probing || exists reason :: state == Failed(reason, true)
    case SetCompletedOutputs(count) => exists n: u16 :: n <= count && state == Transcoding(n)
    case MarkReady(uri, duration) =>
      duration > 0 && Playlist.RelativeUri(uri) && exists n :: state == Transcoding(n)
    case Fail(reason, _) => 1 <= |reason| && Utf8Length(reason) <= 1_024 && state !in {Deleting, Deleted}
    case StartDelete => state !in {Deleting, Deleted}
    case FinishDelete => state == Deleting
  }

  /** A call succeeds exactly from the states and with the arguments it is meant for. */
  lemma SucceedsExactlyWhenAllowed(a: Asset, call: Call)
    ensures Outcome(a, call).Ok? <==> Allowed(a.state, call) && a.version < U64_MAX
    ensures Outcome(a, call).Err? ==> Next(a, call) == a
  {
    hide Playlist.RelativeUri, Utf8Length;
    var s := a.state;
    match call {
      case UploadProgress(_) => if s.Uploading? { assert s == Uploading(s.receivedBytes); }
      case CompleteUpload(_) =>
      case StartProbe => if s.Uploaded? { assert s == Uploaded(s.sourceBytes); }
      case StartTranscode => if s.Failed? && s.retryable { assert s == Failed(s.reason, true); }
      case SetCompletedOutputs(_) => if s.Transcoding? { assert s == Transcoding(s.completedOutputs); }
      case MarkReady(_, _) => if s.Transcoding? { assert s == Transcoding(s.completedOutputs); }
      case Fail(_, _) =>
      case StartDelete =>
      case FinishDelete =>
    }
  }

  // ----- What can always be done -----

  lemma RunTwo(a: Asset, c1: Call, c2: Call)
    ensures Run(a, [c1, c2]) == Next(Next(a, c1), c2)
  {
    RunOne(a, c1);
    assert [c1, c2][..1] == [c1];
  }

  lemma RunOne(a: Asset, c: Call)
    ensures Run(a, [c]) == Next(a, c)
  {
    assert [c][..0] == [];
  }

  /** An upload of any size, probed, encoded and published, is ready at version 6. */
  lemma UploadsGetPublished(id: string, tenant: string, bytes: u64, uri: string, duration: u64)
    requires bytes > 0 && duration > 0 && Playlist.RelativeUri(uri)
    ensures Run(NewAsset(id, tenant), [UploadProgress(bytes), CompleteUpload(bytes), StartProbe,
                                       StartTranscode, MarkReady(uri, duration)])
            == Asset(id, tenant, 6, Ready(uri, duration))
  {
    var a := NewAsset(id, tenant);
    var c1, c2, c3, c4, c5 :=
      UploadProgress(bytes), CompleteUpload(bytes), StartProbe, StartTranscode, MarkReady(uri, duration);
    RunTwo(a, c1, c2);
    RunSnoc(a, [c1, c2], c3);
    RunSnoc(a, [c1, c2, c3], c4);
    RunSnoc(a, [c1, c2, c3, c4], c5);
    assert [c1, c2] + [c3] == [c1, c2, c3] && [c1, c2, c3] + [c4] == [c1, c2, c3, c4];
    assert [c1, c2, c3, c4] + [c5] == [c1, c2, c3, c4, c5];
    hide Run, Playlist.RelativeUri;
  }

  /** Whatever has become of an asset, it can be published exactly unless it is being removed. */
  lemma PublishableExactlyUnlessRemoved(a: Asset, uri: string, duration: u64)
    requires a.version <= U64_MAX - 3 && duration > 0 && Playlist.RelativeUri(uri)
    ensures (exists calls :: Run(a, calls).state == Ready(uri, duration)) <==> a.state !in {Deleting, Deleted}
  {
    ShortTexts();
    if !Removed(a.state) {
      var c1, c2, c3 := Fail("x", true), StartTranscode, MarkReady(uri, duration);
      RunTwo(a, c1, c2);
      RunSnoc(a, [c1, c2], c3);
      hide Run, Playlist.RelativeUri, ValidReason;
      assert Run(a, [c1, c2] + [c3]).state == Ready(uri, duration);
    } else {
      hide Run, Playlist.RelativeUri;
      forall calls ensures Run(a, calls).state != Ready(uri, duration) { RemovalIsFinal(a, calls); }
    }
  }

  /** Once removal has begun an asset stays removed, and the only call it accepts is to finish it. */
  lemma {:induction false} RemovalIsFinal(a: Asset, calls: seq<Call>)
    requires Removed(a.state)
    ensures Run(a, calls).state in {Deleting, Deleted} && (a.state == Deleted ==> Run(a, calls) == a)
  {
    if calls != [] { RemovalIsFinal(a, calls[..|calls| - 1]); }
  }

  /** Two calls remove any asset that is not being removed yet. */
  lemma RemovableAtAnyTime(a: Asset)
    requires !Removed(a.state) && a.version <= U64_MAX - 2
    ensures Run(a, [StartDelete, FinishDelete]) == a.(version := a.version + 2, state := Deleted)
  {
    RunTwo(a, StartDelete, FinishDelete);
    hide Run;
  }

  // ----- Progress -----

  /** The bytes received never fall, nor does completing the upload lose any. */
  lemma {:induction false} UploadsNeverShrink(a: Asset, calls: seq<Call>)
    requires a.state.Uploading?
    ensures var state := Run(a, calls).state;
            && !state.Created?
            && (state.Uploading? ==> state.receivedBytes >= a.state.receivedBytes)
            && (state.Uploaded? ==> state.sourceBytes >= a.state.receivedBytes)
  {
    if calls != [] {
      UploadsNeverShrink(a, calls[..|calls| - 1]);
      hide Playlist.RelativeUri, ValidReason;
    }
  }

  /** Completed outputs never fall while no failure is recorded. */
  lemma {:induction false} OutputsNeverFallWithoutFailure(a: Asset, calls: seq<Call>)
    requires a.state.Transcoding? && forall i :: 0 <= i < |calls| ==> !calls[i].Fail?
    ensures var state := Run(a, calls).state;
            && (state.Transcoding? || state.Ready? || Removed(state))
            && (state.Transcoding? ==> state.completedOutputs >= a.state.completedOutputs)
  {
    if calls != [] {
      OutputsNeverFallWithoutFailure(a, calls[..|calls| - 1]);
      hide Playlist.RelativeUri;
    }
  }

  /** A failure and a retry start the outputs again from zero. */
  lemma RetryStartsOver(a: Asset, reason: string)
    requires !Removed(a.state) && ValidReason(reason) && a.version <= U64_MAX - 2
    ensures Run(a, [Fail(reason, true), StartTranscode])
            == a.(version := a.version + 2, state := Transcoding(0))
    ensures Run(a, [Fail(reason, false), StartTranscode])
            == a.(version := a.version + 1, state := Failed(reason, false))
  {
    RunTwo(a, Fail(reason, true), StartTranscode);
    RunTwo(a, Fail(reason, false), StartTranscode);
    hide Run, ValidReason;
  }
}
