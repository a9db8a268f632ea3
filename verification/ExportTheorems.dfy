/** What holds however export runs, cancellations and failing requests interleave. */
module ExportTheorems {
  import opened ExportProtocol

  lemma Reached(h: Bytes -> nat, steps: seq<Step>)
    ensures Inv(h, Run(h, INITIAL, steps))
  {
    RunKeeps(h, INITIAL, steps);
  }

  // ----- all runs, whatever fails ----------------------------------------------------------------

  /** No two callers are ever past marking the same job as running. */
  lemma OneCallerPerJob(h: Bytes -> nat, steps: seq<Step>, p: nat, q: nat)
    requires p != q
    ensures var s := Run(h, INITIAL, steps);
      JobOf(ProcessOf(s, p)).Some? ==> JobOf(ProcessOf(s, p)) != JobOf(ProcessOf(s, q))
  {
    hide Run, Tables, Holds, Progress, CompletedJobs;
    Reached(h, steps);
  }

  /** At most one export is ever issued for a job, so at most one result is created for it. */
  lemma OneResultPerJob(h: Bytes -> nat, steps: seq<Step>, d: Id, e: Id)
    ensures var s := Run(h, INITIAL, steps);
      d in s.metas && e in s.metas && s.metas[d].job == s.metas[e].job ==> d == e
  {
    hide Run, Holds, Progress, CompletedJobs;
    Reached(h, steps);
  }

  /** A completed job has its result, which is readable and has all three objects stored with the
      recorded size and hash. */
  lemma CompletedHasResult(h: Bytes -> nat, steps: seq<Step>, j: Id)
    ensures var s := Run(h, INITIAL, steps);
      j in s.jobs && s.jobs[j].status.Completed? ==>
        && s.jobs[j].result.Some? && s.jobs[j].result.value in s.metas
        && s.metas[s.jobs[j].result.value].job == j
        && Readable(s, s.jobs[j].result.value) && Backed(h, s, s.jobs[j].result.value)
  {
    hide Run, Holds, Progress, Tables;
    Reached(h, steps);
    var s := Run(h, INITIAL, steps);
    if j in s.jobs && s.jobs[j].status.Completed? {
      var e := s.jobs[j].result.value;
      assert Backed(h, s, e);
      assert (e, 0) in s.records && (e, 1) in s.records && (e, 2) in s.records;
    }
  }

  // ----- a job's status ------------------------------------------------------------------------------

  predicate Allowed(from: JobStatus, to: JobStatus) {
    match from
    case Pending => to in {Running, Cancelled}
    case Running => to in {Completed, Failed, Cancelled}
    case _ => false
  }

  /** One step changes a job's status only along the allowed transitions, and with its version. */
  ghost predicate Moves(before: Job, after: Job) {
    after == before || (Allowed(before.status, after.status) && after.version == before.version + 1)
  }

  lemma StatusMoves(h: Bytes -> nat, s: State, step: Step, j: Id)
    requires Inv(h, s) && j in s.jobs
    ensures j in Apply(h, s, step).jobs && Moves(s.jobs[j], Apply(h, s, step).jobs[j])
  {
    hide Tables, OneRunPerJob, CompletedJobs, Progress, SaveObjectOf, CreateResultOf, PutRecordOf, DeleteOf, BuildOf;
    match step
    case CreateJob(_, _) =>
    case Cancel(_) =>
    case ReadJob(_, _, _) =>
    case Claim(p, _) => if p in s.processes { assert Holds(s, s.processes[p]); }
    case Fail(p, _) => if p in s.processes { assert Holds(s, s.processes[p]); }
    case Complete(p, _) => if p in s.processes { assert Holds(s, s.processes[p]); }
    case _ => OtherTables(h, s, step);
  }

  lemma OtherTables(h: Bytes -> nat, s: State, step: Step)
    requires step.Build? || step.SaveObject? || step.CreateResult? || step.PutRecord? || step.Delete?
    ensures Apply(h, s, step).jobs == s.jobs
  {
  }

  predicate Reaches(from: JobStatus, to: JobStatus) {
    from == to || Allowed(from, to) || (from.Pending? && to in {Completed, Failed})
  }

  /** Over any run a job only moves on: once it is running it is never pending again, so only one
      caller ever starts it, and once it is completed, failed or cancelled it stays as it is. */
  lemma {:induction false} StatusOnlyAdvances(h: Bytes -> nat, s: State, steps: seq<Step>, j: Id)
    requires Inv(h, s) && j in s.jobs
    ensures var s' := Run(h, s, steps);
      && j in s'.jobs && Reaches(s.jobs[j].status, s'.jobs[j].status) && s'.jobs[j].version >= s.jobs[j].version
      && (s.jobs[j].status in {Completed, Failed, Cancelled} ==> s'.jobs[j] == s.jobs[j])
    decreases |steps|
  {
    hide Inv, Apply;
    if steps != [] {
      StatusMoves(h, s, steps[0], j);
      StepKeeps(h, s, steps[0]);
      StatusOnlyAdvances(h, Apply(h, s, steps[0]), steps[1..], j);
    }
  }

  lemma JobStepGuards(h: Bytes -> nat, s: State, step: Step)
    requires step.CreateJob? || step.Cancel? || step.ReadJob? || step.Claim? || step.Build? || step.Fail? || step.Complete?
    ensures Apply(h, s, step).guards == s.guards && Apply(h, s, step).metas == s.metas
  {
    hide Applied, Acknowledged, StartCleaning, SaveObjectOf, CreateResultOf, PutRecordOf, DeleteOf;
  }

  lemma SaveObjectGuards(h: Bytes -> nat, s: State, p: nat, q: Process, outcome: SaveOutcome)
    requires q.Saving? && q.saved < |q.o.package|
    ensures SaveObjectOf(h, s, p, q, outcome).guards == s.guards && SaveObjectOf(h, s, p, q, outcome).metas == s.metas
  {
    hide SameObject, StartCleaning;
  }

  lemma PutRecordGuards(h: Bytes -> nat, s: State, p: nat, q: Process, fault: Fault)
    requires q.Recording? && q.recorded < |q.o.package|
    ensures PutRecordOf(h, s, p, q, fault).guards == s.guards && PutRecordOf(h, s, p, q, fault).metas == s.metas
  {
    hide StartCleaning;
  }

  lemma ExportStepGuards(h: Bytes -> nat, s: State, step: Step)
    requires step.SaveObject? || step.PutRecord? || step.Delete?
    ensures Apply(h, s, step).guards == s.guards && Apply(h, s, step).metas == s.metas
  {
    hide StartCleaning, SaveObjectOf, PutRecordOf, ReadJobOf, ClaimOf, BuildOf, CreateResultOf, FailOf, CompleteOf, CreateJobOf, CancelOf;
    var q := ProcessOf(s, step.p);
    match step
    case SaveObject(p, outcome) => if q.Saving? && q.saved < |q.o.package| { SaveObjectGuards(h, s, p, q, outcome); }
    case PutRecord(p, fault) => if q.Recording? && q.recorded < |q.o.package| { PutRecordGuards(h, s, p, q, fault); }
    case Delete(_, _) =>
  }

  lemma OtherGuards(h: Bytes -> nat, s: State, step: Step)
    requires !step.CreateResult?
    ensures Apply(h, s, step).guards == s.guards && Apply(h, s, step).metas == s.metas
  {
    hide Apply;
    if step.SaveObject? || step.PutRecord? || step.Delete? { ExportStepGuards(h, s, step); } else { JobStepGuards(h, s, step); }
  }

  /** Every recorded export is the one that guards its projection, and every guard is of a recorded export. */
  ghost predicate Guarded(s: State) {
    && (forall e :: e in s.metas ==> s.metas[e].projection in s.guards && s.guards[s.metas[e].projection] == e)
    && (forall p :: p in s.guards ==> s.guards[p] in s.metas && s.metas[s.guards[p]].projection == p)
  }

  lemma StepKeepsGuards(h: Bytes -> nat, s: State, step: Step)
    requires Guarded(s)
    ensures Guarded(Apply(h, s, step))
    ensures forall p :: p in s.guards ==> p in Apply(h, s, step).guards && Apply(h, s, step).guards[p] == s.guards[p]
  {
    if !step.CreateResult? {
      OtherGuards(h, s, step);
      hide Apply;
    } else {
      CreateKeepsGuards(h, s, step);
    }
  }

  lemma CreateKeepsGuards(h: Bytes -> nat, s: State, step: Step)
    requires Guarded(s) && step.CreateResult?
    ensures Guarded(Apply(h, s, step))
    ensures forall p :: p in s.guards ==> p in Apply(h, s, step).guards && Apply(h, s, step).guards[p] == s.guards[p]
  {
    var q := ProcessOf(s, step.p);
    if q.Saving? && q.saved == ARTIFACTS {
      var next := CreateResultOf(s, step.p, q, step.fault);
      hide Apply, StartCleaning, Guarded;
      if next.metas != s.metas { NewGuard(s, next, q.o.exportId, Meta(q.o.job, q.o.projection)); } else { SameGuards(s, next); }
    }
  }

  lemma NewGuard(s: State, next: State, e: Id, meta: Meta)
    requires Guarded(s) && e !in s.metas && meta.projection !in s.guards
    requires next.metas == s.metas[e := meta] && next.guards == s.guards[meta.projection := e]
    ensures Guarded(next)
  {
  }

  lemma SameGuards(s: State, next: State)
    requires Guarded(s) && next.metas == s.metas && next.guards == s.guards
    ensures Guarded(next)
  {
  }

  lemma {:induction false} RunKeepsGuards(h: Bytes -> nat, s: State, steps: seq<Step>)
    requires Guarded(s)
    ensures Guarded(Run(h, s, steps))
    ensures forall p :: p in s.guards ==> p in Run(h, s, steps).guards && Run(h, s, steps).guards[p] == s.guards[p]
    decreases |steps|
  {
    hide Guarded, Apply;
    if steps != [] {
      StepKeepsGuards(h, s, steps[0]);
      RunKeepsGuards(h, Apply(h, s, steps[0]), steps[1..]);
    }
  }

  /** A projection whose guard was once written, also through a run that then failed, keeps it: no
      other export of that projection is recorded in any later state. */
  lemma GuardIsForever(h: Bytes -> nat, steps: seq<Step>, more: seq<Step>, projection: Id)
    ensures var before, after := Run(h, INITIAL, steps), Run(h, Run(h, INITIAL, steps), more);
      projection in before.guards ==>
        && projection in after.guards && after.guards[projection] == before.guards[projection]
        && before.guards[projection] in after.metas
        && forall e :: e in after.metas && after.metas[e].projection == projection ==> e == before.guards[projection]
  {
    hide Run;
    RunKeepsGuards(h, INITIAL, steps);
    RunKeepsGuards(h, Run(h, INITIAL, steps), more);
  }

  /** At most one export of a projection is ever recorded. */
  lemma OneExportPerProjection(h: Bytes -> nat, steps: seq<Step>, d: Id, e: Id)
    ensures var s := Run(h, INITIAL, steps);
      d in s.metas && e in s.metas && s.metas[d].projection == s.metas[e].projection ==> d == e
  {
    hide Run;
    RunKeepsGuards(h, INITIAL, steps);
  }
}
