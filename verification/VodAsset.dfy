/** The lifecycle of a video-on-demand asset, and what its load-time check makes of it. */
module VodAsset {
  import opened Prelude
  import Playlist
  import SnapshotNames

  datatype AssetState =
    | Created
    | Uploading(receivedBytes: u64)
    | Uploaded(sourceBytes: u64)
    | Probing
    | Transcoding(completedOutputs: u16)
    | Ready(manifestUri: string, durationMillis: u64)
    | Failed(reason: string, retryable: bool)
    | Deleting
    | Deleted

  datatype Asset = Asset(id: string, tenant: string, version: u64, state: AssetState)

  datatype AssetError =
    | InvalidIdentifier
    | InvalidAssetTransition
    | UploadRegression
    | UploadSizeMismatch
    | OutputRegression
    | InvalidUri
    | InvalidDuration
    | InvalidFailureReason
    | VersionExhausted

  datatype Call =
    | UploadProgress(receivedBytes: u64)
    | CompleteUpload(sourceBytes: u64)
    | StartProbe
    | StartTranscode
    | SetCompletedOutputs(count: u16)
    | MarkReady(manifestUri: string, durationMillis: u64)
    | Fail(reason: string, retryable: bool)
    | StartDelete
    | FinishDelete

  predicate ValidReason(reason: string) { reason != [] && Utf8Length(reason) <= 1_024 }

  predicate Removed(state: AssetState) { state.Deleting? || state.Deleted? }

  /** The state a call leads to, or why it is refused. */
  function Target(state: AssetState, call: Call): Result<AssetState, AssetError> {
    match call
    case UploadProgress(received) =>
      if !state.Created? && !state.Uploading? then Err(InvalidAssetTransition)
      else if received < (if state.Uploading? then state.receivedBytes else 0) then Err(UploadRegression)
      else Ok(Uploading(received))
    case CompleteUpload(bytes) =>
      if !state.Uploading? then Err(InvalidAssetTransition)
      else if bytes == 0 || bytes != state.receivedBytes then Err(UploadSizeMismatch)
      else Ok(Uploaded(bytes))
    case StartProbe => if state.Uploaded? then Ok(Probing) else Err(InvalidAssetTransition)
    case StartTranscode =>
      if state.Probing? || (state.Failed? && state.retryable) then Ok(Transcoding(0))
      else Err(InvalidAssetTransition)
    case SetCompletedOutputs(count) =>
      if !state.Transcoding? then Err(InvalidAssetTransition)
      else if count < state.completedOutputs then Err(OutputRegression)
      else Ok(Transcoding(count))
    case MarkReady(uri, duration) =>
      if !state.Transcoding? then Err(InvalidAssetTransition)
      else if !Playlist.RelativeUri(uri) then Err(InvalidUri)
      else if duration == 0 then Err(InvalidDuration)
      else Ok(Ready(uri, duration))
    case Fail(reason, retryable) =>
      if Removed(state) then Err(InvalidAssetTransition)
      else if !ValidReason(reason) then Err(InvalidFailureReason)
      else Ok(Failed(reason, retryable))
    case StartDelete => if Removed(state) then Err(InvalidAssetTransition) else Ok(Deleting)
    case FinishDelete => if state.Deleting? then Ok(Deleted) else Err(InvalidAssetTransition)
  }

  function Outcome(a: Asset, call: Call): Result<Asset, AssetError> {
    match Target(a.state, call)
    case Err(error) => Err(error)
    case Ok(state) =>
      if a.version == U64_MAX then Err(VersionExhausted) else Ok(a.(version := a.version + 1, state := state))
  }

  /** What the caller is told. */
  function Reply(outcome: Result<Asset, AssetError>): Result<(), AssetError> {
    match outcome case Ok(_) => Ok(()) case Err(error) => Err(error)
  }

  function Next(a: Asset, call: Call): Asset {
    match Outcome(a, call) case Ok(a') => a' case Err(_) => a
  }

  /** The check made before a stored asset is trusted. */
  function MinimumVersion(state: AssetState): nat {
    match state
    case Created => 1
    case Uploading(_) => 2
    case Deleting => 2
    case Failed(_, _) => 2
    case Uploaded(_) => 3
    case Deleted => 3
    case Probing => 4
    case Transcoding(_) => 5
    case Ready(_, _) => 6
  }

  predicate FieldsOk(a: Asset) {
    SnapshotNames.SafeIdentifier(a.id) && SnapshotNames.SafeIdentifier(a.tenant)
    && match a.state
       case Created => a.version == 1
       case Uploaded(bytes) => bytes > 0
       case Ready(uri, duration) => Playlist.RelativeUri(uri) && duration > 0
       case Failed(reason, _) => ValidReason(reason)
       case _ => true
  }

  predicate Accepted(a: Asset) { FieldsOk(a) && a.version >= MinimumVersion(a.state) }

  // ----- The aggregate in place -----

  class VodAggregate {
    const id: string
    const tenant: string
    var version: u64
    var state: AssetState

    function Contents(): Asset
      reads this
    {
      Asset(id, tenant, version, state)
    }

    constructor (a: Asset)
      ensures Contents() == a
    {
      id, tenant, version, state := a.id, a.tenant, a.version, a.state;
    }

    /** The only place the version and the state change, together. */
    method Transition(target: AssetState) returns (r: Result<(), AssetError>)
      modifies this
      ensures r == if old(version) < U64_MAX then Ok(()) else Err(VersionExhausted)
      ensures r.Ok? ==> version == old(version) + 1 && state == target
      ensures r.Err? ==> Contents() == old(Contents())
    {
      if version == U64_MAX { return Err(VersionExhausted); }
      version := version + 1;
      state := target;
      r := Ok(());
    }

    method Upload(receivedBytes: u64) returns (r: Result<(), AssetError>)
      modifies this
      ensures r == Reply(old(Outcome(Contents(), UploadProgress(receivedBytes))))
      ensures Contents() == Next(old(Contents()), UploadProgress(receivedBytes))
    {
      var previous: u64 := 0;
      if state.Uploading? { previous := state.receivedBytes; }
      else if !state.Created? { return Err(InvalidAssetTransition); }
      if receivedBytes < previous { return Err(UploadRegression); }
      r := Transition(Uploading(receivedBytes));
    }

    method Complete(sourceBytes: u64) returns (r: Result<(), AssetError>)
      modifies this
      ensures r == Reply(old(Outcome(Contents(), CompleteUpload(sourceBytes))))
      ensures Contents() == Next(old(Contents()), CompleteUpload(sourceBytes))
    {
      if !state.Uploading? { return Err(InvalidAssetTransition); }
      if sourceBytes == 0 || sourceBytes != state.receivedBytes { return Err(UploadSizeMismatch); }
      r := Transition(Uploaded(sourceBytes));
    }

    method Probe() returns (r: Result<(), AssetError>)
      modifies this
      ensures r == Reply(old(Outcome(Contents(), StartProbe)))
      ensures Contents() == Next(old(Contents()), StartProbe)
    {
      if !state.Uploaded? { return Err(InvalidAssetTransition); }
      r := Transition(Probing);
    }

    method Transcode() returns (r: Result<(), AssetError>)
      modifies this
      ensures r == Reply(old(Outcome(Contents(), StartTranscode)))
      ensures Contents() == Next(old(Contents()), StartTranscode)
    {
      if !(state.Probing? || (state.Failed? && state.retryable)) { return Err(InvalidAssetTransition); }
      r := Transition(Transcoding(0));
    }

    method Progress(count: u16) returns (r: Result<(), AssetError>)
      modifies this
      ensures r == Reply(old(Outcome(Contents(), SetCompletedOutputs(count))))
      ensures Contents() == Next(old(Contents()), SetCompletedOutputs(count))
    {
      if !state.Transcoding? { return Err(InvalidAssetTransition); }
      if count < state.completedOutputs { return Err(OutputRegression); }
      r := Transition(Transcoding(count));
    }

    method Publish(manifestUri: string, durationMillis: u64) returns (r: Result<(), AssetError>)
      modifies this
      ensures r == Reply(old(Outcome(Contents(), MarkReady(manifestUri, durationMillis))))
      ensures Contents() == Next(old(Contents()), MarkReady(manifestUri, durationMillis))
    {
      if !state.Transcoding? { return Err(InvalidAssetTransition); }
      if !Playlist.RelativeUri(manifestUri) { return Err(InvalidUri); }
      if durationMillis == 0 { return Err(InvalidDuration); }
      r := Transition(Ready(manifestUri, durationMillis));
    }

    method RecordFailure(reason: string, retryable: bool) returns (r: Result<(), AssetError>)
      modifies this
      ensures r == Reply(old(Outcome(Contents(), Fail(reason, retryable))))
      ensures Contents() == Next(old(Contents()), Fail(reason, retryable))
    {
      if state.Deleting? || state.Deleted? { return Err(InvalidAssetTransition); }
      if reason == [] || Utf8Length(reason) > 1_024 { return Err(InvalidFailureReason); }
      r := Transition(Failed(reason, retryable));
    }

    method BeginDelete() returns (r: Result<(), AssetError>)
      modifies this
      ensures r == Reply(old(Outcome(Contents(), StartDelete)))
      ensures Contents() == Next(old(Contents()), StartDelete)
    {
      if state.Deleting? || state.Deleted? { return Err(InvalidAssetTransition); }
      r := Transition(Deleting);
    }

    method EndDelete() returns (r: Result<(), AssetError>)
      modifies this
      ensures r == Reply(old(Outcome(Contents(), FinishDelete)))
      ensures Contents() == Next(old(Contents()), FinishDelete)
    {
      if state != Deleting { return Err(InvalidAssetTransition); }
      r := Transition(Deleted);
    }
  }

  // ----- Every run -----

  function NewAsset(id: string, tenant: string): Asset { Asset(id, tenant, 1, Created) }

  function Run(a: Asset, calls: seq<Call>): Asset {
    if calls == [] then a else Next(Run(a, calls[..|calls| - 1]), calls[|calls| - 1])
  }

  function Successes(a: Asset, calls: seq<Call>): nat {
    if calls == [] then 0
    else
      var init := calls[..|calls| - 1];
      Successes(a, init) + (if Outcome(Run(a, init), calls[|calls| - 1]).Ok? then 1 else 0)
  }

  /** The version counts the successful calls; nothing else changes it. */
  lemma {:induction false} VersionCountsSuccesses(a: Asset, calls: seq<Call>)
    ensures Run(a, calls).version == a.version + Successes(a, calls)
    ensures Run(a, calls).id == a.id && Run(a, calls).tenant == a.tenant
  {
    if calls != [] {
      hide Target;
      VersionCountsSuccesses(a, calls[..|calls| - 1]);
    }
  }

  // ----- What is accepted on loading -----

  /** Every state but encoding and publishing implies its minimum version by itself. */
  ghost predicate EarlyStagesOk(a: Asset) {
    FieldsOk(a) && a.version >= 1
    && (!a.state.Transcoding? && !a.state.Ready? ==> a.version >= MinimumVersion(a.state))
  }

  lemma NextEarlyStages(a: Asset, call: Call)
    requires EarlyStagesOk(a)
    ensures EarlyStagesOk(Next(a, call))
  {
    hide Playlist.RelativeUri, SnapshotNames.SafeIdentifier, ValidReason;
  }

  lemma {:induction false} RunEarlyStages(a: Asset, calls: seq<Call>)
    requires EarlyStagesOk(a)
    ensures EarlyStagesOk(Run(a, calls))
  {
    if calls != [] {
      hide EarlyStagesOk, Next;
      RunEarlyStages(a, calls[..|calls| - 1]);
      NextEarlyStages(Run(a, calls[..|calls| - 1]), calls[|calls| - 1]);
    }
  }

  /** Encoding was started below version 4, which takes a failure before probing. */
  predicate StartsTooEarly(a: Asset, call: Call) {
    call.StartTranscode? && Outcome(a, call).Ok? && a.version < 4
  }

  /** After every prefix. */
  ghost predicate AlwaysAccepted(a: Asset, calls: seq<Call>) {
    Accepted(Run(a, calls)) && (calls != [] ==> AlwaysAccepted(a, calls[..|calls| - 1]))
  }

  ghost predicate NeverStartsTooEarly(a: Asset, calls: seq<Call>) {
    calls != [] ==>
      var init := calls[..|calls| - 1];
      !StartsTooEarly(Run(a, init), calls[|calls| - 1]) && NeverStartsTooEarly(a, init)
  }

  lemma NextAccepted(a: Asset, call: Call)
    requires Accepted(a) && EarlyStagesOk(a) && EarlyStagesOk(Next(a, call))
    ensures Accepted(Next(a, call)) <==> !StartsTooEarly(a, call)
  {
    hide FieldsOk, Playlist.RelativeUri, ValidReason;
  }

  /**
   Every state of a run would be accepted on loading, if and only if encoding is never started below
   version 4: retrying an asset that failed that early makes it unloadable until its next call.
   */
  lemma {:induction false} AcceptedExactlyUnlessStartedTooEarly(id: string, tenant: string, calls: seq<Call>)
    requires SnapshotNames.SafeIdentifier(id) && SnapshotNames.SafeIdentifier(tenant)
    ensures AlwaysAccepted(NewAsset(id, tenant), calls) <==> NeverStartsTooEarly(NewAsset(id, tenant), calls)
  {
    hide Next, StartsTooEarly, EarlyStagesOk, SnapshotNames.SafeIdentifier;
    var a := NewAsset(id, tenant);
    NewAssetOk(id, tenant);
    if calls != [] {
      hide Accepted, NewAsset;
      var init := calls[..|calls| - 1];
      AcceptedExactlyUnlessStartedTooEarly(id, tenant, init);
      RunEarlyStages(a, init);
      RunEarlyStages(a, calls);
      if Accepted(Run(a, init)) { NextAccepted(Run(a, init), calls[|calls| - 1]); }
    }
  }

  lemma NewAssetOk(id: string, tenant: string)
    requires SnapshotNames.SafeIdentifier(id) && SnapshotNames.SafeIdentifier(tenant)
    ensures EarlyStagesOk(NewAsset(id, tenant)) && Accepted(NewAsset(id, tenant))
  {
  }

  // ----- Failures and the upload -----

  /** A recorded failure of an asset whose upload had not completed. */
  predicate FailsEarly(a: Asset, call: Call) {
    call.Fail? && Outcome(a, call).Ok? && (a.state.Created? || a.state.Uploading?)
  }

  ghost predicate NeverFailsEarly(a: Asset, calls: seq<Call>) {
    calls != [] ==>
      var init := calls[..|calls| - 1];
      !FailsEarly(Run(a, init), calls[|calls| - 1]) && NeverFailsEarly(a, init)
  }

  /** Some call completed the upload, with a non-zero size equal to the bytes received. */
  ghost predicate WasUploaded(a: Asset, calls: seq<Call>) {
    calls != [] &&
    var init := calls[..|calls| - 1];
    var before, after := Run(a, init), Run(a, calls);
    WasUploaded(a, init)
    || (before.state.Uploading? && after.state.Uploaded? && 0 < after.state.sourceBytes == before.state.receivedBytes)
  }

  /** Where an asset can be, given what has happened to it. */
  ghost predicate StageMatches(a: Asset, uploaded: bool, failedEarly: bool) {
    && (a.state.Created? || a.state.Uploading? ==> !uploaded && !failedEarly)
    && (a.state.Uploaded? || a.state.Probing? ==> uploaded && !failedEarly)
    && (a.state.Transcoding? || a.state.Ready? || a.state.Failed? ==> uploaded != failedEarly)
    && (uploaded && !a.state.Uploaded? && !Removed(a.state) ==> a.version >= 4)
    && (a.state.Uploaded? ==> a.version >= 3) && (a.state.Uploading? ==> a.version >= 2) && a.version >= 1
  }

  lemma NextStage(a: Asset, call: Call, uploaded: bool, failedEarly: bool)
    requires StageMatches(a, uploaded, failedEarly)
    ensures StageMatches(Next(a, call),
                         uploaded || (a.state.Uploading? && Next(a, call).state.Uploaded?
                                      && 0 < Next(a, call).state.sourceBytes == a.state.receivedBytes),
                         failedEarly || FailsEarly(a, call))
  {
    hide Playlist.RelativeUri, ValidReason;
  }

  lemma {:induction false} RunStage(id: string, tenant: string, calls: seq<Call>)
    ensures var a := NewAsset(id, tenant);
            StageMatches(Run(a, calls), WasUploaded(a, calls), !NeverFailsEarly(a, calls))
  {
    if calls != [] {
      var a, init := NewAsset(id, tenant), calls[..|calls| - 1];
      RunStage(id, tenant, init);
      NextStage(Run(a, init), calls[|calls| - 1], WasUploaded(a, init), !NeverFailsEarly(a, init));
      hide StageMatches, Next, FailsEarly;
    }
  }

  /**
   A published asset passed through a completed upload of its received bytes, if and only if no
   failure was recorded before the upload completed.
   */
  lemma ReadyWasUploadedExactlyUnlessFailedEarly(id: string, tenant: string, calls: seq<Call>)
    requires Run(NewAsset(id, tenant), calls).state.Ready?
    ensures WasUploaded(NewAsset(id, tenant), calls) <==> NeverFailsEarly(NewAsset(id, tenant), calls)
  {
    hide Run, WasUploaded, NeverFailsEarly;
    RunStage(id, tenant, calls);
  }

  lemma LateFailuresNeverStartTooEarly(a: Asset, call: Call, uploaded: bool)
    requires StageMatches(a, uploaded, false)
    ensures !StartsTooEarly(a, call)
  {
    hide Playlist.RelativeUri, ValidReason;
  }

  lemma {:induction false} NoEarlyFailureNoEarlyStart(id: string, tenant: string, calls: seq<Call>)
    requires NeverFailsEarly(NewAsset(id, tenant), calls)
    ensures NeverStartsTooEarly(NewAsset(id, tenant), calls)
  {
    if calls != [] {
      var a, init := NewAsset(id, tenant), calls[..|calls| - 1];
      NoEarlyFailureNoEarlyStart(id, tenant, init);
      RunStage(id, tenant, init);
      hide Run, StageMatches, StartsTooEarly, FailsEarly;
      LateFailuresNeverStartTooEarly(Run(a, init), calls[|calls| - 1], WasUploaded(a, init));
    }
  }

  /** If failures are recorded only after the upload completed, every state reached is accepted. */
  lemma LateFailuresStayAcceptable(id: string, tenant: string, calls: seq<Call>)
    requires SnapshotNames.SafeIdentifier(id) && SnapshotNames.SafeIdentifier(tenant)
    requires NeverFailsEarly(NewAsset(id, tenant), calls)
    ensures Accepted(Run(NewAsset(id, tenant), calls))
  {
    NoEarlyFailureNoEarlyStart(id, tenant, calls);
    AcceptedExactlyUnlessStartedTooEarly(id, tenant, calls);
    hide Accepted;
  }

  /** A failure before any upload, retried and published: unloadable on the way, and never uploaded. */
  lemma {:induction false} RetryWithoutUpload(id: string, tenant: string) returns (calls: seq<Call>)
    requires SnapshotNames.SafeIdentifier(id) && SnapshotNames.SafeIdentifier(tenant)
    ensures |calls| >= 2
    ensures var a := NewAsset(id, tenant);
            && !Accepted(Run(a, calls[..2])) && Run(a, calls).state.Ready?
            && !WasUploaded(a, calls) && !AlwaysAccepted(a, calls)
  {
    var a := NewAsset(id, tenant);
    var fail, start, ready := Fail("x", true), StartTranscode, MarkReady("m", 1);
    ShortTexts();
    calls := [] + [fail] + [start] + [ready];
    RunSnoc(a, [], fail);
    RunSnoc(a, [] + [fail], start);
    RunSnoc(a, [] + [fail] + [start], ready);
    assert calls[..2] == [] + [fail] + [start] && calls[..|calls| - 1] == calls[..2];
    assert Run(a, []) == a;
    hide Run, ValidReason, Playlist.RelativeUri;
    var a1 := Run(a, [] + [fail]);
    assert a1 == Asset(id, tenant, 2, Failed("x", true));
    assert Run(a, calls[..2]) == Asset(id, tenant, 3, Transcoding(0));
    assert Run(a, calls) == Asset(id, tenant, 4, Ready("m", 1));
    FailsEarlyHere(a, fail, start, ready);
    ReadyWasUploadedExactlyUnlessFailedEarly(id, tenant, calls);
  }

  lemma FailsEarlyHere(a: Asset, fail: Call, start: Call, ready: Call)
    requires a.state.Created? && a.version < U64_MAX && fail.Fail? && ValidReason(fail.reason)
    ensures !NeverFailsEarly(a, [] + [fail] + [start] + [ready])
  {
    hide ValidReason;
    var c3 := [] + [fail] + [start] + [ready];
    var c2 := [] + [fail] + [start];
    var c1: seq<Call> := [] + [fail];
    assert c3[..2] == c2 && c2[..1] == c1 && c1[..0] == [];
    assert Run(a, []) == a;
    assert FailsEarly(a, fail);
    hide Run, FailsEarly;
    assert !NeverFailsEarly(a, c1);
    assert !NeverFailsEarly(a, c2);
  }

  lemma RunSnoc(a: Asset, calls: seq<Call>, call: Call)
    ensures Run(a, calls + [call]) == Next(Run(a, calls), call)
  {
    assert (calls + [call])[..|calls|] == calls;
  }

  lemma ShortTexts()
    ensures ValidReason("x") && Playlist.RelativeUri("m")
  {
    assert "m"[1..] == "" && ['m'] + "" == "m";
    assert Playlist.FirstComponent("") == ("", "");
    assert Playlist.FirstComponent("m") == ("m", "");
  }
}
