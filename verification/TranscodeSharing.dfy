/**
 What callers of the transcoder coordinator are answered, told from the calls made before rather than
 from the coordinator's tables.
 */
module TranscodeSharing {
  import opened Prelude
  import opened Transcode

  /** An acquisition of this specification that is answered with this identifier. */
  ghost predicate Returns(s: State, step: Step, spec: Spec, id: JobId) {
    step.Acquire? && step.spec == spec
    && AcquireJob(s, step.tenant, spec).1.Ok? && AcquireJob(s, step.tenant, spec).1.value.jobId == id
  }

  /** Some acquisition of the run was. */
  ghost predicate Obtained(quotas: Quotas, steps: seq<Step>, spec: Spec, id: JobId) {
    steps != [] &&
    var init := steps[..|steps| - 1];
    Obtained(quotas, init, spec, id) || Returns(Run(quotas, init), steps[|steps| - 1], spec, id)
  }

  /** The last state reported for a job while somebody held it. */
  ghost function LastReport(quotas: Quotas, steps: seq<Step>, id: JobId): JobState {
    if steps == [] then Queued
    else
      var init, last := steps[..|steps| - 1], steps[|steps| - 1];
      if last.Update? && last.id == id && Balance(quotas, init, id) > 0 then last.state
      else LastReport(quotas, init, id)
  }

  /** A named source and a rate in range; silence kept as audio, or a picture no larger than the source. */
  predicate Sensible(spec: Spec) {
    && 1 <= |spec.source.id| && Utf8Length(spec.source.id) <= 256 && 1 <= spec.bitrateBps <= 100_000_000
    && if spec.targetCodec in {Opus, Aac}
       then
         && spec.source.codec in {Opus, Aac}
         && spec.source.width == spec.source.height == spec.source.framesPerSecond == 0
         && spec.width == spec.height == spec.framesPerSecond == 0
       else
         && spec.source.codec !in {Opus, Aac}
         && 1 <= spec.width <= spec.source.width && 1 <= spec.height <= spec.source.height
         && 1 <= spec.framesPerSecond <= spec.source.framesPerSecond
  }

  lemma ValidExactlyWhenSensible(spec: Spec)
    ensures Validate(spec).None? <==> Sensible(spec)
    ensures Validate(spec).Some? ==> Validate(spec).value in {InvalidSpec, UpscaleNotAllowed}
  {
    hide Utf8Length;
  }

  // ----- Which jobs a specification has -----

  /** What one step does to the entry of a specification. */
  lemma EntryAfter(s: State, step: Step, spec: Spec, id: JobId)
    requires JobsOk(s.jobs, s.nextJobId)
    ensures Returns(s, step, spec, id) ==> HasId(Next(s, step), spec, id) && id < Next(s, step).nextJobId
    ensures Returns(s, step, spec, id) ==> HasId(s, spec, id) || id == s.nextJobId
    ensures HasId(Next(s, step), spec, id) ==> HasId(s, spec, id) || Returns(s, step, spec, id)
  {
    hide Validate, Charged;
    if step.Acquire? && spec in s.jobs { JobAt(s, spec); }
    hide JobsOk;
  }

  lemma StaysUnderItsSpec(s: State, step: Step, spec: Spec, id: JobId)
    requires JobsOk(s.jobs, s.nextJobId) && HasId(s, spec, id) && Live(Next(s, step), id)
    ensures HasId(Next(s, step), spec, id)
  {
    var other :| HasId(Next(s, step), other, id);
    EntryAfter(s, step, other, id);
    JobAt(s, spec);
    hide Next, Returns, Validate;
  }

  ghost predicate Told(quotas: Quotas, steps: seq<Step>, spec: Spec, id: JobId) {
    var s := Run(quotas, steps);
    && (Obtained(quotas, steps, spec, id) ==> id < s.nextJobId && (Live(s, id) ==> HasId(s, spec, id)))
    && (HasId(s, spec, id) ==> Obtained(quotas, steps, spec, id))
  }

  lemma ToldNext(quotas: Quotas, steps: seq<Step>, spec: Spec, id: JobId)
    requires steps != [] && StateOk(Run(quotas, steps[..|steps| - 1]))
    requires Run(quotas, steps[..|steps| - 1]).nextJobId > 0
    requires Told(quotas, steps[..|steps| - 1], spec, id)
    ensures Told(quotas, steps, spec, id)
  {
    var init, step := steps[..|steps| - 1], steps[|steps| - 1];
    var s := Run(quotas, init);
    assert Run(quotas, steps) == Next(s, step);
    assert Obtained(quotas, steps, spec, id) <==> Obtained(quotas, init, spec, id) || Returns(s, step, spec, id);
    hide Run, StateOk, Obtained, Returns, Next, JobsOk, HasId;
    OkJobs(s);
    NextKeeps(s, step);
    EntryAfter(s, step, spec, id);
    if Obtained(quotas, init, spec, id) {
      if Live(s, id) {
        if Live(Next(s, step), id) { StaysUnderItsSpec(s, step, spec, id); }
      } else {
        NextRetired(s, step, id);
      }
    }
  }

  lemma {:induction false} RunTold(quotas: Quotas, steps: seq<Step>, spec: Spec, id: JobId)
    requires |steps| <= U64_MAX
    ensures Told(quotas, steps, spec, id)
  {
    if steps != [] {
      hide Told, StateOk, Run;
      RunTold(quotas, steps[..|steps| - 1], spec, id);
      CountsBalance(quotas, steps[..|steps| - 1], id);
      ToldNext(quotas, steps, spec, id);
    }
  }

  /**
   A specification has the job its acquisitions returned, exactly while more of them were answered
   with that job than gave it back.
   */
  lemma SharedExactlyWhileHeld(quotas: Quotas, steps: seq<Step>, spec: Spec, id: JobId)
    requires |steps| <= U64_MAX
    ensures HasId(Run(quotas, steps), spec, id)
            <==> Obtained(quotas, steps, spec, id) && Balance(quotas, steps, id) > 0
  {
    hide Run, StateOk, References, Obtained, Balance;
    RunTold(quotas, steps, spec, id);
    CountsBalance(quotas, steps, id);
  }

  // ----- The states reported -----

  ghost predicate Reported(quotas: Quotas, steps: seq<Step>, id: JobId) {
    var s := Run(quotas, steps);
    && (s.nextJobId <= id ==> LastReport(quotas, steps, id) == Queued)
    && forall spec :: HasId(s, spec, id) ==> s.jobs[spec].state == LastReport(quotas, steps, id)
  }

  lemma StateAfterUpdate(s: State, step: Step, spec: Spec, id: JobId)
    requires JobsOk(s.jobs, s.nextJobId) && step.Update? && HasId(Next(s, step), spec, id)
    ensures HasId(s, spec, id)
    ensures Next(s, step).jobs[spec].state == if step.id == id then step.state else s.jobs[spec].state
  {
    hide Validate;
    if Live(s, step.id) { OnlyOneHasIt(s, step.id, SpecOf(s, step.id)); }
    hide JobsOk;
  }

  lemma StateAfter(s: State, step: Step, spec: Spec, id: JobId)
    requires JobsOk(s.jobs, s.nextJobId) && HasId(Next(s, step), spec, id)
    ensures Next(s, step).jobs[spec].state
            == if step.Update? && step.id == id && Live(s, id) then step.state
               else if HasId(s, spec, id) then s.jobs[spec].state else Queued
    ensures HasId(s, spec, id) || id == s.nextJobId
  {
    EntryAfter(s, step, spec, id);
    hide Validate, Charged, JobsOk, SpecOf;
    if step.Update? {
      StateAfterUpdate(s, step, spec, id);
      hide Next;
    }
  }

  lemma FreshIsNotLive(s: State, id: JobId)
    requires JobsOk(s.jobs, s.nextJobId) && s.nextJobId <= id
    ensures !Live(s, id)
  {
    hide Validate;
  }

  lemma {:induction false} RunReported(quotas: Quotas, steps: seq<Step>, id: JobId)
    requires |steps| <= U64_MAX
    ensures Reported(quotas, steps, id)
  {
    if steps != [] {
      var init, step := steps[..|steps| - 1], steps[|steps| - 1];
      RunReported(quotas, init, id);
      CountsBalance(quotas, init, id);
      var s := Run(quotas, init);
      assert Run(quotas, steps) == Next(s, step);
      hide Run, StateOk, References, Next, HasId, Live, Balance, JobsOk;
      OkJobs(s);
      NextKeeps(s, step);
      if s.nextJobId <= id { FreshIsNotLive(s, id); }
      forall spec | HasId(Next(s, step), spec, id)
        ensures spec in Next(s, step).jobs
        ensures Next(s, step).jobs[spec].state == LastReport(quotas, steps, id)
      {
        HasEntry(Next(s, step), spec, id);
        StateAfter(s, step, spec, id);
      }
    } else {
      assert Run(quotas, steps).jobs == map[];
    }
  }

  lemma HasEntry(s: State, spec: Spec, id: JobId)
    requires HasId(s, spec, id)
    ensures spec in s.jobs
  {
  }

  // ----- Answers -----

  /**
   An acquisition is answered with the job that holders of the same specification have, in its last
   reported state. Without one it gets a new identifier, unless a name or a quota forbids it.
   */
  lemma AcquireAnswersExactly(quotas: Quotas, steps: seq<Step>, tenant: string, spec: Spec, id: JobId)
    requires |steps| <= U64_MAX
    ensures var s := Run(quotas, steps);
            var r := AcquireJob(s, tenant, spec).1;
            && (r.Err? && r.error in {InvalidSpec, UpscaleNotAllowed} <==> !Sensible(spec))
            && (r.Ok? && r.value.reused && r.value.jobId == id <==>
                  Sensible(spec) && Obtained(quotas, steps, spec, id) && Balance(quotas, steps, id) > 0)
            && (r.Ok? && r.value.reused ==> r.value.state == LastReport(quotas, steps, r.value.jobId))
            && (r.Ok? && !r.value.reused ==>
                  !Obtained(quotas, steps, spec, r.value.jobId) && r.value.state == Queued)
            && (r == Err(InvalidTenant) ==> tenant == [] || Utf8Length(tenant) > 128)
            && (r == Err(GlobalQuota) ==> |s.jobs| == quotas.globalJobs)
            && (r == Err(TenantQuota) ==> |Charged(s.jobs, tenant)| == quotas.jobsPerTenant)
            && (r == Err(JobIdExhausted) ==> s.nextJobId == U64_MAX)
            && (r != Err(UnknownJob))
  {
    var s := Run(quotas, steps);
    var r := AcquireJob(s, tenant, spec).1;
    CountsBalance(quotas, steps, id);
    ValidExactlyWhenSensible(spec);
    SharedExactlyWhileHeld(quotas, steps, spec, id);
    if r.Ok? {
      RunTold(quotas, steps, spec, r.value.jobId);
      RunReported(quotas, steps, r.value.jobId);
    }
    QuotaBounds(s, tenant);
    hide Run, Obtained, Balance, LastReport, Validate, Sensible, StateOk, References, Live, Charged, Utf8Length;
  }

  lemma QuotaBounds(s: State, tenant: string)
    requires StateOk(s)
    ensures |s.jobs| <= s.quotas.globalJobs && |Charged(s.jobs, tenant)| <= s.quotas.jobsPerTenant
  {
    hide JobsOk;
  }

  /** Giving a job back and reporting its state succeed exactly while somebody holds it. */
  lemma ReleasesAndReportsAnsweredExactly(quotas: Quotas, steps: seq<Step>, id: JobId, state: JobState)
    requires |steps| <= U64_MAX
    ensures ReleaseJob(Run(quotas, steps), id).1 <==> Balance(quotas, steps, id) > 0
    ensures UpdateJob(Run(quotas, steps), id, state).1 <==> Balance(quotas, steps, id) > 0
  {
    hide StateOk, References, ReleaseSpec, SpecOf;
    CountsBalance(quotas, steps, id);
  }
}
