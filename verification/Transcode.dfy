/**
 Shared transcoder jobs. Identical output specifications share one reference-counted job; quotas
 bound distinct jobs globally and per tenant; negotiation proposes the specifications.
 */
module Transcode {
  import opened Prelude

  type JobId = u64

  datatype MediaCodec = Opus | Aac | Vp8 | Vp9 | H264 | Av1 {
    predicate IsAudio() { Opus? || Aac? }
  }

  datatype Source = Source(id: string, codec: MediaCodec, width: u16, height: u16, framesPerSecond: u16)

  datatype Spec = Spec(
    source: Source, targetCodec: MediaCodec, width: u16, height: u16, framesPerSecond: u16,
    bitrateBps: u64)

  datatype JobState = Queued | Running | Ready(outputId: string) | Failed(reason: string, attempts: u16)

  datatype Job = Job(id: JobId, tenant: string, references: nat, state: JobState)

  datatype Quotas = Quotas(globalJobs: nat, jobsPerTenant: nat)

  datatype State = State(quotas: Quotas, nextJobId: u64, jobs: map<Spec, Job>)

  datatype Allocation = Allocation(jobId: JobId, reused: bool, state: JobState)

  datatype TranscodeError =
    | InvalidSpec
    | UpscaleNotAllowed
    | InvalidTenant
    | GlobalQuota
    | TenantQuota
    | JobIdExhausted
    | UnknownJob

  // ----- Specifications -----

  function Validate(s: Spec): Option<TranscodeError> {
    var sourceIsAudio := s.source.width == 0 && s.source.height == 0;
    var targetIsAudio := s.width == 0 && s.height == 0;
    if s.source.id == [] || Utf8Length(s.source.id) > 256 then Some(InvalidSpec)
    else if s.bitrateBps == 0 || s.bitrateBps > 100_000_000 then Some(InvalidSpec)
    else if sourceIsAudio != targetIsAudio || sourceIsAudio != s.source.codec.IsAudio()
            || targetIsAudio != s.targetCodec.IsAudio() then Some(InvalidSpec)
    else if sourceIsAudio && (s.source.framesPerSecond != 0 || s.framesPerSecond != 0) then Some(InvalidSpec)
    else if !sourceIsAudio
            && (s.width == 0 || s.height == 0 || s.framesPerSecond == 0 || s.width > s.source.width
                || s.height > s.source.height || s.framesPerSecond > s.source.framesPerSecond)
    then Some(UpscaleNotAllowed)
    else None
  }

  // ----- The coordinator on values -----

  predicate HasId(s: State, spec: Spec, id: JobId) { spec in s.jobs && s.jobs[spec].id == id }

  ghost predicate Live(s: State, id: JobId) { exists spec :: HasId(s, spec, id) }

  ghost function SpecOf(s: State, id: JobId): Spec
    requires Live(s, id)
  {
    var spec :| HasId(s, spec, id);
    spec
  }

  /** What one tenant is charged for. */
  function Charged(jobs: map<Spec, Job>, tenant: string): set<Spec> {
    set spec | spec in jobs && jobs[spec].tenant == tenant
  }

  function AcquireJob(s: State, tenant: string, spec: Spec): (State, Result<Allocation, TranscodeError>) {
    if Validate(spec).Some? then (s, Err(Validate(spec).value))
    else if spec in s.jobs then
      var job := s.jobs[spec];
      (s.(jobs := s.jobs[spec := job.(references := Min(job.references + 1, U64_MAX))]),
       Ok(Allocation(job.id, true, job.state)))
    else if tenant == [] || Utf8Length(tenant) > 128 then (s, Err(InvalidTenant))
    else if |s.jobs| >= s.quotas.globalJobs then (s, Err(GlobalQuota))
    else if |Charged(s.jobs, tenant)| >= s.quotas.jobsPerTenant then (s, Err(TenantQuota))
    else if s.nextJobId == U64_MAX then (s, Err(JobIdExhausted))
    else
      (s.(nextJobId := s.nextJobId + 1, jobs := s.jobs[spec := Job(s.nextJobId, tenant, 1, Queued)]),
       Ok(Allocation(s.nextJobId, false, Queued)))
  }

  function ReleaseSpec(s: State, spec: Spec): State
    requires spec in s.jobs
  {
    var left := Max(0, s.jobs[spec].references - 1);
    if left == 0 then s.(jobs := s.jobs - {spec})
    else s.(jobs := s.jobs[spec := s.jobs[spec].(references := left)])
  }

  ghost function ReleaseJob(s: State, id: JobId): (State, bool) {
    if Live(s, id) then (ReleaseSpec(s, SpecOf(s, id)), true) else (s, false)
  }

  ghost function UpdateJob(s: State, id: JobId, state: JobState): (State, bool) {
    if Live(s, id)
    then (s.(jobs := s.jobs[SpecOf(s, id) := s.jobs[SpecOf(s, id)].(state := state)]), true)
    else (s, false)
  }

  // ----- The invariant -----

  /** Every job is in use, under an identifier of its own that was given out before. */
  ghost predicate JobsOk(jobs: map<Spec, Job>, nextJobId: nat) {
    && (forall x :: x in jobs ==>
          jobs[x].references > 0 && 0 < jobs[x].id < nextJobId && Validate(x).None?)
    && (forall x, y :: x in jobs && y in jobs && jobs[x].id == jobs[y].id ==> x == y)
  }

  ghost predicate QuotasHold(s: State) {
    |s.jobs| <= s.quotas.globalJobs
    && forall tenant :: |Charged(s.jobs, tenant)| <= s.quotas.jobsPerTenant
  }

  ghost predicate StateOk(s: State) { JobsOk(s.jobs, s.nextJobId) && QuotasHold(s) }

  lemma SpecOfUnique(s: State, id: JobId, spec: Spec)
    requires JobsOk(s.jobs, s.nextJobId) && HasId(s, spec, id)
    ensures Live(s, id) && SpecOf(s, id) == spec
  {
  }

  /** Replacing a job without changing its tenant, or dropping it, charges nobody more. */
  lemma NoMoreCharged(jobs: map<Spec, Job>, jobs': map<Spec, Job>, tenant: string)
    requires forall x :: x in jobs' ==> x in jobs && jobs'[x].tenant == jobs[x].tenant
    ensures |Charged(jobs', tenant)| <= |Charged(jobs, tenant)| && |jobs'| <= |jobs|
  {
    SubsetCardinality(Charged(jobs', tenant), Charged(jobs, tenant));
    SubsetCardinality(jobs'.Keys, jobs.Keys);
    assert |jobs'.Keys| == |jobs'| && |jobs.Keys| == |jobs|;
  }

  lemma OneMoreCharged(jobs: map<Spec, Job>, spec: Spec, job: Job, tenant: string)
    requires spec !in jobs
    ensures |Charged(jobs[spec := job], tenant)|
            <= |Charged(jobs, tenant)| + (if tenant == job.tenant then 1 else 0)
  {
    var was, now := Charged(jobs, tenant), Charged(jobs[spec := job], tenant);
    if tenant == job.tenant {
      assert now == was + {spec};
    } else {
      assert now == was;
    }
  }

  lemma OneMoreJob(jobs: map<Spec, Job>, spec: Spec, job: Job)
    requires spec !in jobs
    ensures |jobs[spec := job]| == |jobs| + 1
  {
    assert jobs[spec := job].Keys == jobs.Keys + {spec};
    assert |jobs[spec := job].Keys| == |jobs[spec := job]| && |jobs.Keys| == |jobs|;
  }

  lemma ReplaceKeepsJobs(jobs: map<Spec, Job>, nextJobId: nat, spec: Spec, job: Job)
    requires JobsOk(jobs, nextJobId) && spec in jobs && job.id == jobs[spec].id && job.references > 0
    ensures JobsOk(jobs[spec := job], nextJobId)
  {
    hide Validate;
  }

  lemma RemoveKeepsJobs(jobs: map<Spec, Job>, nextJobId: nat, spec: Spec)
    requires JobsOk(jobs, nextJobId)
    ensures JobsOk(jobs - {spec}, nextJobId)
  {
    hide Validate;
  }

  lemma AddKeepsJobs(jobs: map<Spec, Job>, nextJobId: nat, spec: Spec, job: Job)
    requires JobsOk(jobs, nextJobId) && Validate(spec).None? && 0 < job.id == nextJobId && job.references > 0
    ensures JobsOk(jobs[spec := job], nextJobId + 1)
  {
    hide Validate;
  }

  lemma KeepsQuotas(s: State, s': State)
    requires QuotasHold(s) && s'.quotas == s.quotas
    requires forall x :: x in s'.jobs ==> x in s.jobs && s'.jobs[x].tenant == s.jobs[x].tenant
    ensures QuotasHold(s')
  {
    NoMoreCharged(s.jobs, s'.jobs, "");
    forall tenant ensures |Charged(s'.jobs, tenant)| <= s.quotas.jobsPerTenant {
      NoMoreCharged(s.jobs, s'.jobs, tenant);
    }
  }

  lemma AddKeepsQuotas(s: State, spec: Spec, job: Job)
    requires QuotasHold(s) && spec !in s.jobs && |s.jobs| < s.quotas.globalJobs
    requires |Charged(s.jobs, job.tenant)| < s.quotas.jobsPerTenant
    ensures QuotasHold(s.(jobs := s.jobs[spec := job]))
  {
    OneMoreJob(s.jobs, spec, job);
    var jobs' := s.jobs[spec := job];
    forall t ensures |Charged(jobs', t)| <= s.quotas.jobsPerTenant {
      OneMoreCharged(s.jobs, spec, job, t);
    }
    hide Charged;
  }

  lemma AcquireKeeps(s: State, tenant: string, spec: Spec)
    requires StateOk(s) && s.nextJobId > 0
    ensures StateOk(AcquireJob(s, tenant, spec).0)
  {
    hide Validate, Charged, JobsOk, QuotasHold;
    var s' := AcquireJob(s, tenant, spec).0;
    if Validate(spec).None? {
      if spec in s.jobs {
        KeepsQuotas(s, s');
        JobAt(s, spec);
        ReplaceKeepsJobs(s.jobs, s.nextJobId, spec, s'.jobs[spec]);
      } else if s' != s {
        AddKeepsQuotas(s, spec, s'.jobs[spec]);
        AddKeepsJobs(s.jobs, s.nextJobId, spec, s'.jobs[spec]);
        SameJobsSameQuotas(s.(jobs := s'.jobs), s');
      }
    }
  }

  lemma JobAt(s: State, spec: Spec)
    requires JobsOk(s.jobs, s.nextJobId) && spec in s.jobs
    ensures s.jobs[spec].references > 0 && 0 < s.jobs[spec].id < s.nextJobId
  {
  }

  lemma SameJobsSameQuotas(s: State, s': State)
    requires QuotasHold(s) && s.jobs == s'.jobs && s.quotas == s'.quotas
    ensures QuotasHold(s')
  {
  }

  lemma ReleaseSpecKeeps(s: State, spec: Spec)
    requires StateOk(s) && spec in s.jobs
    ensures StateOk(ReleaseSpec(s, spec))
  {
    hide JobsOk, QuotasHold;
    KeepsQuotas(s, ReleaseSpec(s, spec));
    RemoveKeepsJobs(s.jobs, s.nextJobId, spec);
    if s.jobs[spec].references > 1 {
      ReplaceKeepsJobs(s.jobs, s.nextJobId, spec, s.jobs[spec].(references := s.jobs[spec].references - 1));
    }
  }

  lemma {:induction false} UpdateKeeps(s: State, id: JobId, state: JobState)
    requires StateOk(s)
    ensures StateOk(UpdateJob(s, id, state).0)
  {
    hide JobsOk, QuotasHold;
    if Live(s, id) {
      var spec := SpecOf(s, id);
      JobAt(s, spec);
      KeepsQuotas(s, UpdateJob(s, id, state).0);
      ReplaceKeepsJobs(s.jobs, s.nextJobId, spec, s.jobs[spec].(state := state));
    }
  }

  // ----- The coordinator in place -----

  class Coordinator {
    const quotas: Quotas
    var nextJobId: u64
    var jobs: map<Spec, Job>

    function Contents(): State
      reads this
    {
      State(quotas, nextJobId, jobs)
    }

    ghost predicate Valid()
      reads this
    {
      StateOk(Contents()) && nextJobId > 0
    }

    constructor (quotas: Quotas)
      ensures Valid() && Contents() == State(quotas, 1, map[])
    {
      this.quotas := quotas;
      nextJobId, jobs := 1, map[];
      new;
      assert forall tenant :: Charged(map[], tenant) == {};
    }

    method Acquire(tenant: string, spec: Spec) returns (r: Result<Allocation, TranscodeError>)
      requires Valid()
      modifies this
      ensures Valid() && (Contents(), r) == AcquireJob(old(Contents()), tenant, spec)
    {
      AcquireKeeps(Contents(), tenant, spec);
      hide Validate, StateOk, Charged;
      var invalid := Validate(spec);
      if invalid.Some? { return Err(invalid.value); }
      if spec in jobs {
        var job := jobs[spec];
        jobs := jobs[spec := job.(references := Min(job.references + 1, U64_MAX))];
        return Ok(Allocation(job.id, true, job.state));
      }
      if tenant == [] || Utf8Length(tenant) > 128 { return Err(InvalidTenant); }
      if |jobs| >= quotas.globalJobs { return Err(GlobalQuota); }
      if |Charged(jobs, tenant)| >= quotas.jobsPerTenant { return Err(TenantQuota); }
      var id := nextJobId;
      if nextJobId == U64_MAX { return Err(JobIdExhausted); }
      nextJobId := nextJobId + 1;
      jobs := jobs[spec := Job(id, tenant, 1, Queued)];
      r := Ok(Allocation(id, false, Queued));
    }

    /** Looks a job up by identifier. */
    method Find(id: JobId) returns (found: Option<Spec>)
      requires Valid()
      ensures found.Some? <==> Live(Contents(), id)
      ensures found.Some? ==> HasId(Contents(), found.value, id) && found.value == SpecOf(Contents(), id)
    {
      hide Validate, QuotasHold;
      var remaining := jobs.Keys;
      while remaining != {}
        invariant remaining <= jobs.Keys
        invariant forall spec :: spec in jobs && spec !in remaining ==> jobs[spec].id != id
        decreases |remaining|
      {
        var spec :| spec in remaining;
        if jobs[spec].id == id {
          SpecOfUnique(Contents(), id, spec);
          return Some(spec);
        }
        remaining := remaining - {spec};
      }
      found := None;
    }

    method Release(id: JobId) returns (released: bool)
      requires Valid()
      modifies `jobs
      ensures Valid() && (Contents(), released) == ReleaseJob(old(Contents()), id)
    {
      var key := Find(id);
      if key.None? { return false; }
      ReleaseSpecKeeps(Contents(), key.value);
      hide StateOk;
      var job := jobs[key.value];
      var left := Max(0, job.references - 1);
      if left == 0 {
        jobs := jobs - {key.value};
      } else {
        jobs := jobs[key.value := job.(references := left)];
      }
      released := true;
    }

    method UpdateState(id: JobId, state: JobState) returns (r: Result<(), TranscodeError>)
      requires Valid()
      modifies `jobs
      ensures Valid() && (Contents(), r.Ok?) == UpdateJob(old(Contents()), id, state)
      ensures r.Err? ==> r.error == UnknownJob
    {
      UpdateKeeps(Contents(), id, state);
      var key := Find(id);
      if key.None? { return Err(UnknownJob); }
      hide StateOk;
      jobs := jobs[key.value := jobs[key.value].(state := state)];
      r := Ok(());
    }
  }

  // ----- Every run -----

  datatype Step =
    | Acquire(tenant: string, spec: Spec)
    | Release(id: JobId)
    | Update(id: JobId, state: JobState)

  ghost function Next(s: State, step: Step): State {
    match step
    case Acquire(tenant, spec) => AcquireJob(s, tenant, spec).0
    case Release(id) => ReleaseJob(s, id).0
    case Update(id, state) => UpdateJob(s, id, state).0
  }

  ghost function Run(quotas: Quotas, steps: seq<Step>): State {
    if steps == [] then State(quotas, 1, map[])
    else Next(Run(quotas, steps[..|steps| - 1]), steps[|steps| - 1])
  }

  /** References taken and given back by one step: +1, -1 or 0. */
  ghost function Delta(s: State, step: Step, id: JobId): int {
    match step
    case Acquire(tenant, spec) =>
      var r := AcquireJob(s, tenant, spec).1;
      if r.Ok? && r.value.jobId == id then 1 else 0
    case Release(released) => if released == id && ReleaseJob(s, id).1 then -1 else 0
    case Update(_, _) => 0
  }

  /** Acquisitions that returned `id` minus successful releases of it. */
  ghost function Balance(quotas: Quotas, steps: seq<Step>, id: JobId): int {
    if steps == [] then 0
    else
      var init := steps[..|steps| - 1];
      Balance(quotas, init, id) + Delta(Run(quotas, init), steps[|steps| - 1], id)
  }

  ghost function References(s: State, id: JobId): nat
  {
    if Live(s, id) then s.jobs[SpecOf(s, id)].references else 0
  }

  // ----- Reference counting -----

  lemma ReleaseKeeps(s: State, id: JobId)
    requires StateOk(s)
    ensures StateOk(ReleaseJob(s, id).0)
  {
    hide StateOk, ReleaseSpec;
    if Live(s, id) { ReleaseSpecKeeps(s, SpecOf(s, id)); }
  }

  lemma NextKeeps(s: State, step: Step)
    requires StateOk(s) && s.nextJobId > 0
    ensures StateOk(Next(s, step)) && s.nextJobId <= Next(s, step).nextJobId <= s.nextJobId + 1
    ensures Next(s, step).quotas == s.quotas
  {
    hide StateOk, Validate, Charged, Live;
    match step {
      case Acquire(tenant, spec) => AcquireKeeps(s, tenant, spec);
      case Release(id) => ReleaseKeeps(s, id);
      case Update(id, state) => UpdateKeeps(s, id, state);
    }
  }

  /** The count of a job, found through any specification that has its identifier. */
  lemma ReferencesAt(s: State, id: JobId, spec: Spec)
    requires JobsOk(s.jobs, s.nextJobId) && HasId(s, spec, id)
    ensures References(s, id) == s.jobs[spec].references > 0
  {
    SpecOfUnique(s, id, spec);
  }

  lemma NotLive(s: State, id: JobId)
    requires forall spec :: spec in s.jobs ==> s.jobs[spec].id != id
    ensures !Live(s, id) && References(s, id) == 0
  {
  }

  /** Jobs other than the one a step works on keep their counts. */
  lemma OtherJobsUntouched(s: State, s': State, spec: Spec, id: JobId)
    requires JobsOk(s.jobs, s.nextJobId) && JobsOk(s'.jobs, s'.nextJobId)
    requires forall x :: x != spec ==> (x in s.jobs <==> x in s'.jobs) && (x in s.jobs ==> s.jobs[x] == s'.jobs[x])
    requires spec in s.jobs ==> s.jobs[spec].id != id
    requires spec in s'.jobs ==> s'.jobs[spec].id != id
    ensures References(s', id) == References(s, id)
  {
    hide JobsOk;
    if Live(s, id) {
      var x :| HasId(s, x, id);
      ReferencesAt(s, id, x);
      ReferencesAt(s', id, x);
    } else {
      assert forall x :: x in s'.jobs ==> !HasId(s, x, id) || x == spec;
      NotLive(s', id);
    }
  }

  lemma AcquireCounts(s: State, tenant: string, spec: Spec, id: JobId)
    requires StateOk(s) && s.nextJobId > 0 && StateOk(AcquireJob(s, tenant, spec).0)
    requires References(s, id) < U64_MAX
    ensures References(AcquireJob(s, tenant, spec).0, id) == References(s, id) + Delta(s, Acquire(tenant, spec), id)
  {
    hide Validate, Charged, QuotasHold, JobsOk, References, Live;
    var (s', r) := AcquireJob(s, tenant, spec);
    if r.Ok? {
      if r.value.jobId == id {
        ReferencesAt(s', id, spec);
        if spec in s.jobs {
          ReferencesAt(s, id, spec);
        } else {
          FreshIdIsNotLive(s);
        }
      } else {
        OtherJobsUntouched(s, s', spec, id);
      }
    }
  }

  lemma FreshIdIsNotLive(s: State)
    requires JobsOk(s.jobs, s.nextJobId)
    ensures !Live(s, s.nextJobId) && References(s, s.nextJobId) == 0
  {
    NotLive(s, s.nextJobId);
  }

  lemma {:induction false} ReleaseCounts(s: State, released: JobId, id: JobId)
    requires StateOk(s) && StateOk(ReleaseJob(s, released).0)
    ensures References(ReleaseJob(s, released).0, id) == References(s, id) + Delta(s, Release(released), id)
  {
    hide QuotasHold, JobsOk;
    var s' := ReleaseJob(s, released).0;
    if Live(s, released) {
      var spec := SpecOf(s, released);
      if released == id {
        ReferencesAt(s, id, spec);
        if spec in s'.jobs {
          ReferencesAt(s', id, spec);
        } else {
          OnlyOneHasIt(s, id, spec);
          NotLive(s', id);
        }
      } else {
        OtherJobsUntouched(s, s', spec, id);
      }
    }
  }

  lemma OnlyOneHasIt(s: State, id: JobId, spec: Spec)
    requires JobsOk(s.jobs, s.nextJobId) && HasId(s, spec, id)
    ensures forall x :: x in s.jobs && x != spec ==> s.jobs[x].id != id
  {
  }

  lemma {:induction false} UpdateCounts(s: State, updated: JobId, state: JobState, id: JobId)
    requires StateOk(s) && StateOk(UpdateJob(s, updated, state).0)
    ensures References(UpdateJob(s, updated, state).0, id) == References(s, id)
  {
    hide QuotasHold, JobsOk;
    var s' := UpdateJob(s, updated, state).0;
    if Live(s, updated) {
      var spec := SpecOf(s, updated);
      if updated == id {
        ReferencesAt(s, id, spec);
        ReferencesAt(s', id, spec);
      } else {
        OtherJobsUntouched(s, s', spec, id);
      }
    }
  }

  lemma NextCounts(s: State, step: Step, id: JobId)
    requires StateOk(s) && s.nextJobId > 0 && References(s, id) < U64_MAX
    ensures References(Next(s, step), id) == References(s, id) + Delta(s, step, id)
  {
    NextKeeps(s, step);
    hide StateOk, References, AcquireJob, ReleaseJob, UpdateJob;
    match step {
      case Acquire(tenant, spec) => AcquireCounts(s, tenant, spec, id);
      case Release(released) => ReleaseCounts(s, released, id);
      case Update(updated, state) => UpdateCounts(s, updated, state, id);
    }
  }

  /** A job is live exactly while it has references. */
  lemma LiveExactlyWhenReferenced(s: State, id: JobId)
    requires JobsOk(s.jobs, s.nextJobId)
    ensures Live(s, id) <==> References(s, id) > 0
  {
    if Live(s, id) { ReferencesAt(s, id, SpecOf(s, id)); }
  }

  /**
   Over every run short of counter saturation a job's count is the acquisitions that returned it
   minus its successful releases, it exists exactly while that is positive, and both quotas hold.
   */
  lemma {:induction false} CountsBalance(quotas: Quotas, steps: seq<Step>, id: JobId)
    requires |steps| <= U64_MAX
    ensures var s := Run(quotas, steps);
            && StateOk(s) && s.quotas == quotas && 0 < s.nextJobId
            && References(s, id) == Balance(quotas, steps, id) <= |steps|
            && (Live(s, id) <==> Balance(quotas, steps, id) > 0)
  {
    hide StateOk, References, Next, Live, Delta;
    if steps == [] {
      EmptyOk(quotas, id);
    } else {
      var init, step := steps[..|steps| - 1], steps[|steps| - 1];
      CountsBalance(quotas, init, id);
      NextKeeps(Run(quotas, init), step);
      NextCounts(Run(quotas, init), step, id);
      DeltaBound(Run(quotas, init), step, id);
    }
    OkJobs(Run(quotas, steps));
    LiveExactlyWhenReferenced(Run(quotas, steps), id);
  }

  lemma DeltaBound(s: State, step: Step, id: JobId)
    ensures -1 <= Delta(s, step, id) <= 1
  {
    hide AcquireJob, ReleaseJob;
  }

  lemma OkJobs(s: State)
    requires StateOk(s)
    ensures JobsOk(s.jobs, s.nextJobId)
  {
  }

  lemma EmptyOk(quotas: Quotas, id: JobId)
    ensures StateOk(State(quotas, 1, map[])) && References(State(quotas, 1, map[]), id) == 0
  {
    assert forall tenant :: Charged(map[], tenant) == {};
    NotLive(State(quotas, 1, map[]), id);
  }

  // ----- Identifiers -----

  /** An identifier that was given out and is no longer live. */
  ghost predicate Retired(s: State, id: JobId) { id < s.nextJobId && !Live(s, id) }

  lemma NextRetired(s: State, step: Step, id: JobId)
    requires StateOk(s) && s.nextJobId > 0 && Retired(s, id)
    ensures Retired(Next(s, step), id)
  {
    hide StateOk, References, Next, Live;
    OkJobs(s);
    LiveExactlyWhenReferenced(s, id);
    NextKeeps(s, step);
    NextCounts(s, step, id);
    RetiredNotReturned(s, step, id);
    OkJobs(Next(s, step));
    LiveExactlyWhenReferenced(Next(s, step), id);
  }

  lemma RetiredNotReturned(s: State, step: Step, id: JobId)
    requires Retired(s, id)
    ensures Delta(s, step, id) == 0
  {
    hide Validate, Charged;
    if step.Acquire? && step.spec in s.jobs {
      assert !HasId(s, step.spec, id);
    }
  }

  /** Identifiers are never reused: once a job is gone, no later acquisition returns its identifier. */
  lemma {:induction false} RetiredForever(quotas: Quotas, steps: seq<Step>, more: seq<Step>, id: JobId)
    requires |steps| + |more| <= U64_MAX && Retired(Run(quotas, steps), id)
    ensures Retired(Run(quotas, steps + more), id)
    ensures Balance(quotas, steps + more, id) == Balance(quotas, steps, id)
    decreases |more|
  {
    hide Retired, Next, Delta;
    if more == [] {
      assert steps + more == steps;
    } else {
      var n := |more| - 1;
      var before := steps + more[..n];
      assert (steps + more)[..|steps + more| - 1] == before && (steps + more)[|before|] == more[n];
      RetiredForever(quotas, steps, more[..n], id);
      CountsBalance(quotas, before, id);
      NextRetired(Run(quotas, before), more[n], id);
      RetiredNotReturned(Run(quotas, before), more[n], id);
    }
  }

  // ----- Negotiation -----

  datatype NetworkQuality = Good | Constrained | Critical

  datatype Request = Request(
    source: Source, subscriberCodecs: seq<MediaCodec>, networkQuality: NetworkQuality,
    allowTranscoding: bool, hlsFallbackUrl: Option<string>, targetWidth: u16, targetHeight: u16,
    targetFramesPerSecond: u16, targetBitrateBps: u64)

  datatype Decision =
    | DirectForward(codec: MediaCodec)
    | TranscodeTo(spec: Spec)
    | HlsFallback(url: string)
    | RejectCodecIncompatible

  function ProposedSpec(q: Request): Spec
    requires q.subscriberCodecs != []
  {
    Spec(q.source, q.subscriberCodecs[0], Min(q.targetWidth, q.source.width),
         Min(q.targetHeight, q.source.height), Min(q.targetFramesPerSecond, q.source.framesPerSecond),
         q.targetBitrateBps)
  }

  function Negotiate(q: Request): Decision {
    if q.networkQuality == Critical && q.hlsFallbackUrl.Some? then HlsFallback(q.hlsFallbackUrl.value)
    else if q.source.codec in q.subscriberCodecs then DirectForward(q.source.codec)
    else if q.allowTranscoding && q.subscriberCodecs != [] && Validate(ProposedSpec(q)).None?
    then TranscodeTo(ProposedSpec(q))
    else if q.hlsFallbackUrl.Some? then HlsFallback(q.hlsFallbackUrl.value)
    else RejectCodecIncompatible
  }

  /** The source and the first decoder are both audio, or both video with a picture on either side. */
  predicate Convertible(q: Request) {
    && q.subscriberCodecs != []
    && q.source.id != [] && Utf8Length(q.source.id) <= 256
    && 1 <= q.targetBitrateBps <= 100_000_000
    && q.source.codec.IsAudio() == q.subscriberCodecs[0].IsAudio()
    && if q.source.codec.IsAudio()
       then q.source.width == 0 && q.source.height == 0 && q.source.framesPerSecond == 0
       else
         && q.source.width > 0 && q.source.height > 0 && q.source.framesPerSecond > 0
         && q.targetWidth > 0 && q.targetHeight > 0 && q.targetFramesPerSecond > 0
  }

  /** Transcoding is proposed exactly for convertible requests that need and allow it. */
  lemma TranscodingProposedExactlyWhenConvertible(q: Request)
    ensures Negotiate(q).TranscodeTo?
            <==> q.allowTranscoding && Convertible(q) && q.source.codec !in q.subscriberCodecs
                 && !(q.networkQuality == Critical && q.hlsFallbackUrl.Some?)
  {
    hide Utf8Length;
  }

  /**
   The other answers: the media is forwarded as it is exactly to subscribers that decode it, falls back
   to the offered playlist when the network is critical or nothing else is left, and is refused only
   without one.
   */
  lemma EveryRequestIsAnsweredExactly(q: Request)
    ensures var critical := q.networkQuality == Critical && q.hlsFallbackUrl.Some?;
            var decodes := exists i :: 0 <= i < |q.subscriberCodecs| && q.subscriberCodecs[i] == q.source.codec;
            var converted := q.allowTranscoding && Convertible(q);
            && (forall codec :: Negotiate(q) == DirectForward(codec)
                                <==> !critical && decodes && codec == q.source.codec)
            && (forall url :: Negotiate(q) == HlsFallback(url)
                              <==> q.hlsFallbackUrl == Some(url) && (critical || (!decodes && !converted)))
            && (Negotiate(q).RejectCodecIncompatible?
                <==> q.hlsFallbackUrl.None? && !decodes && !converted)
  {
    TranscodingProposedExactlyWhenConvertible(q);
    hide Validate, Convertible, ProposedSpec;
  }

  /** A proposed specification is never refused as a specification, and asks for no more than wanted. */
  lemma ProposalsPassAcquire(q: Request, s: State, tenant: string)
    requires Negotiate(q).TranscodeTo?
    ensures var spec := Negotiate(q).spec;
            var r := AcquireJob(s, tenant, spec).1;
            && (r.Err? ==> r.error in {InvalidTenant, GlobalQuota, TenantQuota, JobIdExhausted})
            && spec.source == q.source && spec.targetCodec in q.subscriberCodecs
            && spec.width <= q.targetWidth && spec.height <= q.targetHeight
            && spec.framesPerSecond <= q.targetFramesPerSecond
  {
    hide Validate, Charged;
  }
}
