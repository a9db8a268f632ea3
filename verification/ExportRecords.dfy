/**
 What the records of an export say of one another: a job has its version and its
 result by its status, and whatever runs for it, or is recorded for it, is of
 the projection that it was created for.
 */
module ExportRecords {
  import opened Wrappers
  import opened ExportProtocol
  import opened ExportTheorems

  /** A job starts at version one, each move raises it, and only a completed one has a result. */
  predicate JobAgrees(j: Job) {
    && (j.status.Pending? ==> j.version == 1) && (j.status.Running? ==> j.version == 2)
    && (j.status.Completed? || j.status.Failed? ==> j.version == 3) && (j.status.Cancelled? ==> j.version == 2 || j.version == 3)
    && (j.result.Some? <==> j.status.Completed?)
  }

  ghost predicate IsOf(jobs: map<Id, Job>, job: Id, projection: Id) { job in jobs && jobs[job].projection == projection }

  /** A process works for the projection of its job. */
  ghost predicate WorksFor(jobs: map<Id, Job>, q: Process) {
    match q
    case Claiming(job, _, projection) => IsOf(jobs, job, projection)
    case Claimed(job, _, projection) => IsOf(jobs, job, projection)
    case Failing(job, _, projection) => IsOf(jobs, job, projection)
    case Saving(o, _) => IsOf(jobs, o.job, o.projection)
    case Recording(o, _) => IsOf(jobs, o.job, o.projection)
    case Completing(o) => IsOf(jobs, o.job, o.projection)
    case Cleaning(o, _) => IsOf(jobs, o.job, o.projection)
    case _ => true
  }

  ghost predicate Agree(s: State) {
    && (forall j :: j in s.jobs ==> JobAgrees(s.jobs[j]))
    && (forall p :: p in s.processes ==> WorksFor(s.jobs, s.processes[p]))
    && forall e :: e in s.metas ==> IsOf(s.jobs, s.metas[e].job, s.metas[e].projection)
  }

  /** No job is lost, and none changes its projection. */
  ghost predicate KeepsProjections(jobs: map<Id, Job>, jobs': map<Id, Job>) {
    forall j :: j in jobs ==> j in jobs' && jobs'[j].projection == jobs[j].projection
  }

  lemma Moving(s: State, s': State, p: nat, q: Process)
    requires Agree(s) && s'.processes == s.processes[p := q] && WorksFor(s'.jobs, q) && KeepsProjections(s.jobs, s'.jobs)
    requires forall j :: j in s'.jobs ==> JobAgrees(s'.jobs[j])
    requires forall e :: e in s'.metas ==> (e in s.metas && s'.metas[e] == s.metas[e]) || IsOf(s'.jobs, s'.metas[e].job, s'.metas[e].projection)
    ensures Agree(s')
  {
    hide JobAgrees;
  }

  lemma ApplyingAgrees(s: State, q: Process, next: Job, fault: Fault)
    requires Agree(s) && Holds(s, q)
    requires (q.Claiming? && next.status.Running?) || (JobOf(q).Some? && next.status in {Completed, Failed})
    requires next.result.Some? <==> next.status.Completed?
    requires var job := if q.Claiming? then q.job else JobOf(q).value; IsOf(s.jobs, job, next.projection)
    ensures var job, version := if q.Claiming? then q.job else JobOf(q).value, if q.Claiming? then q.version else VersionOf(q);
      var jobs := Applied(s.jobs, job, version, next, fault);
      KeepsProjections(s.jobs, jobs) && forall j :: j in jobs ==> JobAgrees(jobs[j])
  {
  }

  lemma ClaimAgrees(s: State, p: nat, fault: Fault)
    requires Agree(s) && p in s.processes && s.processes[p].Claiming? && Holds(s, s.processes[p])
    ensures Agree(ClaimOf(s, p, s.processes[p], fault)) && KeepsProjections(s.jobs, ClaimOf(s, p, s.processes[p], fault).jobs)
  {
    var q := s.processes[p];
    var s' := ClaimOf(s, p, q, fault);
    ApplyingAgrees(s, q, Job(Running, 0, q.projection, None), fault);
    hide Applied, Acknowledged, JobAgrees, Holds;
    assert WorksFor(s.jobs, q);
    Moving(s, s', p, s'.processes[p]);
  }

  lemma FailAgrees(s: State, p: nat, fault: Fault)
    requires Agree(s) && p in s.processes && s.processes[p].Failing? && Holds(s, s.processes[p])
    ensures Agree(FailOf(s, p, s.processes[p], fault)) && KeepsProjections(s.jobs, FailOf(s, p, s.processes[p], fault).jobs)
  {
    var q := s.processes[p];
    assert WorksFor(s.jobs, q);
    ApplyingAgrees(s, q, Job(Failed, 0, q.projection, None), fault);
    hide Applied, JobAgrees, Holds;
    Moving(s, FailOf(s, p, q, fault), p, Stopped);
  }

  lemma CompleteAgrees(s: State, p: nat, fault: Fault)
    requires Agree(s) && p in s.processes && s.processes[p].Completing? && Holds(s, s.processes[p])
    ensures Agree(CompleteOf(s, p, s.processes[p], fault)) && KeepsProjections(s.jobs, CompleteOf(s, p, s.processes[p], fault).jobs)
  {
    var q := s.processes[p];
    assert WorksFor(s.jobs, q);
    ApplyingAgrees(s, q, Job(Completed, 0, q.o.projection, Some(q.o.exportId)), fault);
    hide Applied, JobAgrees, Holds;
    Moving(s, CompleteOf(s, p, q, fault), p, Stopped);
  }

  lemma BuildAgrees(s: State, p: nat, exportId: Id, package: Option<seq<Bytes>>)
    requires Agree(s) && p in s.processes && s.processes[p].Claimed?
    ensures Agree(BuildOf(s, p, s.processes[p], exportId, package)) && BuildOf(s, p, s.processes[p], exportId, package).jobs == s.jobs
  {
    hide JobAgrees;
    var s' := BuildOf(s, p, s.processes[p], exportId, package);
    assert WorksFor(s.jobs, s.processes[p]);
    if s' != s { Moving(s, s', p, s'.processes[p]); }
  }

  lemma CleaningIsFor(jobs: map<Id, Job>, o: Own, saved: nat)
    requires IsOf(jobs, o.job, o.projection)
    ensures WorksFor(jobs, StartCleaning(o, saved))
  {
  }

  lemma SaveAgrees(h: Bytes -> nat, s: State, p: nat, outcome: SaveOutcome)
    requires Agree(s) && p in s.processes && s.processes[p].Saving? && s.processes[p].saved < |s.processes[p].o.package|
    ensures var s' := SaveObjectOf(h, s, p, s.processes[p], outcome);
      Agree(s') && s'.jobs == s.jobs
  {
    var q := s.processes[p];
    assert WorksFor(s.jobs, q);
    CleaningIsFor(s.jobs, q.o, q.saved);
    CleaningIsFor(s.jobs, q.o, q.saved + 1);
    hide JobAgrees, SameObject, StartCleaning, Agree, IsOf;
    var s' := SaveObjectOf(h, s, p, q, outcome);
    SameMetas(s, s', p, s'.processes[p]);
  }

  lemma SameMetas(s: State, s': State, p: nat, q: Process)
    requires Agree(s) && s'.processes == s.processes[p := q] && s'.jobs == s.jobs && s'.metas == s.metas && WorksFor(s.jobs, q)
    ensures Agree(s')
  {
    hide JobAgrees;
    Moving(s, s', p, q);
  }

  lemma CreateResultAgrees(s: State, p: nat, fault: Fault)
    requires Agree(s) && p in s.processes && s.processes[p].Saving?
    ensures var s' := CreateResultOf(s, p, s.processes[p], fault);
      Agree(s') && s'.jobs == s.jobs
  {
    var q := s.processes[p];
    assert WorksFor(s.jobs, q);
    CleaningIsFor(s.jobs, q.o, ARTIFACTS);
    hide JobAgrees, StartCleaning;
    var s' := CreateResultOf(s, p, q, fault);
    Moving(s, s', p, s'.processes[p]);
  }

  lemma PutRecordAgrees(h: Bytes -> nat, s: State, p: nat, fault: Fault)
    requires Agree(s) && p in s.processes && s.processes[p].Recording? && s.processes[p].recorded < |s.processes[p].o.package|
    ensures var s' := PutRecordOf(h, s, p, s.processes[p], fault);
      Agree(s') && s'.jobs == s.jobs
  {
    var q := s.processes[p];
    assert WorksFor(s.jobs, q);
    CleaningIsFor(s.jobs, q.o, ARTIFACTS);
    hide JobAgrees, StartCleaning, Agree, IsOf;
    var s' := PutRecordOf(h, s, p, q, fault);
    SameMetas(s, s', p, s'.processes[p]);
  }

  lemma DeleteAgrees(s: State, p: nat, succeeds: bool)
    requires Agree(s) && p in s.processes && s.processes[p].Cleaning? && s.processes[p].left > 0
    ensures var s' := DeleteOf(s, p, s.processes[p], succeeds);
      Agree(s') && s'.jobs == s.jobs
  {
    var q := s.processes[p];
    assert WorksFor(s.jobs, q);
    CleaningIsFor(s.jobs, q.o, q.left - 1);
    hide JobAgrees, StartCleaning, Agree, IsOf;
    var s' := DeleteOf(s, p, q, succeeds);
    SameMetas(s, s', p, s'.processes[p]);
  }

  lemma JobsMove(s: State, jobs: map<Id, Job>)
    requires Agree(s) && KeepsProjections(s.jobs, jobs) && forall j :: j in jobs ==> JobAgrees(jobs[j])
    ensures Agree(s.(jobs := jobs))
  {
    hide JobAgrees;
    forall p | p in s.processes ensures WorksFor(jobs, s.processes[p]) {
      assert WorksFor(s.jobs, s.processes[p]);
    }
  }

  /** One job is put in, or changed. */
  lemma OneJob(s: State, job: Id, j: Job)
    requires Agree(s) && JobAgrees(j) && (job in s.jobs ==> j.projection == s.jobs[job].projection)
    ensures Agree(s.(jobs := s.jobs[job := j])) && KeepsProjections(s.jobs, s.jobs[job := j])
  {
    var jobs := s.jobs[job := j];
    assert forall i :: i in jobs ==> JobAgrees(jobs[i]);
    assert KeepsProjections(s.jobs, jobs);
    hide Agree, JobAgrees, KeepsProjections;
    JobsMove(s, jobs);
  }

  lemma CreateJobAgrees(s: State, job: Id, projection: Id)
    requires Agree(s)
    ensures Agree(CreateJobOf(s, job, projection)) && KeepsProjections(s.jobs, CreateJobOf(s, job, projection).jobs)
  {
    if job !in s.jobs {
      hide Agree;
      OneJob(s, job, Job(Pending, 1, projection, None));
    }
  }

  lemma CancelAgrees(s: State, job: Id)
    requires Agree(s)
    ensures Agree(CancelOf(s, job)) && KeepsProjections(s.jobs, CancelOf(s, job).jobs)
  {
    if job in s.jobs && s.jobs[job].status in {Pending, Running} {
      assert JobAgrees(s.jobs[job]);
      hide Agree, KeepsProjections;
      OneJob(s, job, s.jobs[job].(status := Cancelled, version := s.jobs[job].version + 1));
    }
  }

  lemma ReadAgrees(s: State, p: nat, job: Id, valid: bool)
    requires Agree(s)
    ensures Agree(ReadJobOf(s, p, job, valid)) && ReadJobOf(s, p, job, valid).jobs == s.jobs
  {
    hide JobAgrees;
    Moving(s, ReadJobOf(s, p, job, valid), p, ReadJobOf(s, p, job, valid).processes[p]);
  }

  lemma StepAgrees(h: Bytes -> nat, s: State, step: Step)
    requires Inv(h, s) && Agree(s)
    ensures Agree(Apply(h, s, step)) && KeepsProjections(s.jobs, Apply(h, s, step).jobs)
  {
    hide Agree, Tables, OneRunPerJob, CompletedJobs, Progress, Holds, ReadJobOf, ClaimOf, FailOf, CompleteOf, CreateJobOf, CancelOf, BuildOf,
      SaveObjectOf, CreateResultOf, PutRecordOf, DeleteOf;
    match step
    case CreateJob(job, projection) => CreateJobAgrees(s, job, projection);
    case Cancel(job) => CancelAgrees(s, job);
    case ReadJob(p, job, valid) => ReadAgrees(s, p, job, valid);
    case Claim(p, fault) => if ProcessOf(s, p).Claiming? { ClaimAgrees(s, p, fault); }
    case Fail(p, fault) => if ProcessOf(s, p).Failing? { FailAgrees(s, p, fault); }
    case Complete(p, fault) => if ProcessOf(s, p).Completing? { CompleteAgrees(s, p, fault); }
    case Build(p, exportId, package) => if ProcessOf(s, p).Claimed? { BuildAgrees(s, p, exportId, package); }
    case SaveObject(p, outcome) =>
      if ProcessOf(s, p).Saving? && ProcessOf(s, p).saved < |ProcessOf(s, p).o.package| { SaveAgrees(h, s, p, outcome); }
    case CreateResult(p, fault) => if ProcessOf(s, p).Saving? { CreateResultAgrees(s, p, fault); }
    case PutRecord(p, fault) =>
      if ProcessOf(s, p).Recording? && ProcessOf(s, p).recorded < |ProcessOf(s, p).o.package| { PutRecordAgrees(h, s, p, fault); }
    case Delete(p, succeeds) => if ProcessOf(s, p).Cleaning? && ProcessOf(s, p).left > 0 { DeleteAgrees(s, p, succeeds); }
  }

  lemma {:induction false} RunAgrees(h: Bytes -> nat, s: State, steps: seq<Step>)
    requires Inv(h, s) && Agree(s)
    ensures Agree(Run(h, s, steps)) && KeepsProjections(s.jobs, Run(h, s, steps).jobs)
    decreases |steps|
  {
    hide Inv, Agree, Apply;
    if steps != [] {
      StepAgrees(h, s, steps[0]);
      StepKeeps(h, s, steps[0]);
      RunAgrees(h, Apply(h, s, steps[0]), steps[1..]);
    }
  }

  lemma InitiallyFine(h: Bytes -> nat)
    ensures Inv(h, INITIAL)
  {
  }

  /** In every reachable state a job has the version and the result of its status, and a recorded result
      is of the projection of its job, which never changes. */
  lemma RecordsAgree(h: Bytes -> nat, steps: seq<Step>, more: seq<Step>, j: Id)
    ensures var s, later := Run(h, INITIAL, steps), Run(h, Run(h, INITIAL, steps), more);
      && (j in s.jobs ==> JobAgrees(s.jobs[j]) && j in later.jobs && later.jobs[j].projection == s.jobs[j].projection)
      && forall e :: e in s.metas && s.metas[e].job == j ==> j in s.jobs && s.metas[e].projection == s.jobs[j].projection
  {
    hide Run, Inv, JobAgrees;
    InitiallyFine(h);
    RunAgrees(h, INITIAL, steps);
    Reached(h, steps);
    RunAgrees(h, Run(h, INITIAL, steps), more);
  }
}
