/**
 The export service over its tables: objects are saved in a loop, and deleted
 last first when anything after them fails. What a call does to the tables is
 proved to be a run of one caller of the protocol.
 */
module ExportService {
  import opened Wrappers
  import opened ExportProtocol

  datatype ExportError = InvalidJob | VersionConflict | ExportFailed | CompletionFailed

  /** How the requests of one call fare. */
  datatype Answers = Answers(
    claim: Fault, saves: seq<SaveOutcome>, create: Fault, puts: seq<Fault>, deletes: seq<bool>, fail: Fault, complete: Fault)

  class Tables {
    var jobs: map<Id, Job>
    var objects: map<(Id, nat), Bytes>
    var metas: map<Id, Meta>
    var records: map<(Id, nat), Record>
    var guards: map<Id, Id>
    /** The identifiers issued so far: a new one is never among them. */
    ghost var exports: map<Id, Id>

    constructor ()
      ensures Show(INITIAL)
    {
      jobs, objects, metas, records, guards := map[], map[], map[], map[], map[];
      exports := map[];
    }

    ghost predicate Show(s: State)
      reads this
    {
      && s.jobs == jobs && s.objects == objects && s.metas == metas && s.records == records
      && s.guards == guards && s.exports == exports
    }

    method UpdateJob(job: Id, expected: int, next: Job, fault: Fault) returns (acknowledged: bool)
      modifies `jobs
      ensures jobs == Applied(old(jobs), job, expected, next, fault)
      ensures acknowledged == Acknowledged(old(jobs), job, expected, fault)
    {
      var holds := job in jobs && jobs[job].version == expected;
      if holds && !fault.NotApplied? {
        jobs := jobs[job := next.(version := expected + 1)];
      }
      return holds && fault.NoFault?;
    }
  }

  // ----- runs of one caller --------------------------------------------------------------------

  ghost predicate At(t: Tables, s: State, p: nat, q: Process)
    reads t
  {
    t.Show(s) && ProcessOf(s, p) == q
  }

  lemma {:induction false} RunAppends(h: Bytes -> nat, s: State, steps: seq<Step>, more: seq<Step>)
    ensures Run(h, s, steps + more) == Run(h, Run(h, s, steps), more)
    decreases |steps|
  {
    hide Apply;
    if steps == [] {
      assert steps + more == more;
    } else {
      assert (steps + more)[1..] == steps[1..] + more;
      RunAppends(h, Apply(h, s, steps[0]), steps[1..], more);
    }
  }

  lemma RunOne(h: Bytes -> nat, s: State, steps: seq<Step>, step: Step)
    ensures Run(h, s, steps + [step]) == Apply(h, Run(h, s, steps), step)
  {
    hide Apply;
    RunAppends(h, s, steps, [step]);
    assert [step][1..] == [];
  }

  lemma RunNone(h: Bytes -> nat, s: State)
    ensures Run(h, s, []) == s
  {
  }

  /** The process that the save loop ends in. */
  ghost predicate AfterSaving(o: Own, q: Process, saved: nat, complete: bool) {
    if complete then q == Saving(o, ARTIFACTS) else saved <= ARTIFACTS && q == StartCleaning(o, saved)
  }

  /** Saves one artifact after the other; `saved` counts the keys to clean up. */
  method SaveArtifacts(t: Tables, h: Bytes -> nat, o: Own, outcomes: seq<SaveOutcome>, ghost s: State, ghost p: nat)
    returns (saved: nat, complete: bool, ghost steps: seq<Step>)
    requires At(t, s, p, Saving(o, 0)) && |o.package| == ARTIFACTS
    modifies t`objects
    ensures t.Show(Run(h, s, steps)) && AfterSaving(o, ProcessOf(Run(h, s, steps), p), saved, complete)
  {
    hide Run, Apply, StartCleaning, SaveObjectOf;
    saved, steps := 0, [];
    RunNone(h, s);
    while saved < ARTIFACTS
      invariant saved <= ARTIFACTS && At(t, Run(h, s, steps), p, Saving(o, saved))
    {
      var outcome := if saved < |outcomes| then outcomes[saved] else Kept(o.package[saved]);
      ghost var now, step := Run(h, s, steps), SaveObject(p, outcome);
      SaveObjectApplied(h, now, p, outcome);
      RunOne(h, s, steps, step);
      steps := steps + [step];
      if outcome.Refused? {
        return saved, false, steps;
      }
      t.objects := t.objects[(o.exportId, saved) := outcome.bytes];
      if outcome.Lost? {
        return saved, false, steps;
      }
      saved := saved + 1;
      if !SameObject(h, outcome.bytes, o.package[saved - 1]) {
        return saved, false, steps;
      }
    }
    complete := true;
  }

  lemma SaveObjectApplied(h: Bytes -> nat, s: State, p: nat, outcome: SaveOutcome)
    requires var q := ProcessOf(s, p); q.Saving? && q.saved < |q.o.package|
    ensures var q, s' := ProcessOf(s, p), Apply(h, s, SaveObject(p, outcome));
      && s' == s.(objects := s'.objects, processes := s'.processes)
      && s'.objects == (if outcome.Refused? then s.objects else s.objects[(q.o.exportId, q.saved) := outcome.bytes])
      && ProcessOf(s', p) == if outcome.Kept? && SameObject(h, outcome.bytes, q.o.package[q.saved]) then Saving(q.o, q.saved + 1)
                             else StartCleaning(q.o, if outcome.Kept? then q.saved + 1 else q.saved)
  {
    hide StartCleaning, SameObject;
  }

  /** Stores the META record with the guard in one transaction. */
  method CreateMeta(t: Tables, h: Bytes -> nat, o: Own, fault: Fault, ghost s: State, ghost p: nat)
    returns (created: bool, ghost steps: seq<Step>)
    requires At(t, s, p, Saving(o, ARTIFACTS)) && |o.package| == ARTIFACTS
    modifies t`metas, t`guards
    ensures created ==> At(t, Run(h, s, steps), p, Recording(o, 0))
    ensures !created ==> At(t, Run(h, s, steps), p, StartCleaning(o, ARTIFACTS))
  {
    hide Run, Apply, StartCleaning;
    steps := [CreateResult(p, fault)];
    CreateResultRun(h, s, p, o, fault);
    var holds := o.exportId !in t.metas && o.projection !in t.guards;
    if holds && !fault.NotApplied? {
      t.metas, t.guards := t.metas[o.exportId := Meta(o.job, o.projection)], t.guards[o.projection := o.exportId];
    }
    created := holds && fault.NoFault?;
  }

  /** Stores the artifact records one by one. */
  method PutRecords(t: Tables, h: Bytes -> nat, o: Own, puts: seq<Fault>, ghost s: State, ghost p: nat)
    returns (stored: bool, ghost steps: seq<Step>)
    requires At(t, s, p, Recording(o, 0)) && |o.package| == ARTIFACTS
    modifies t`records
    ensures At(t, Run(h, s, steps), p, if stored then Completing(o) else StartCleaning(o, ARTIFACTS))
  {
    hide Run, Apply, StartCleaning, PutRecordOf;
    RunNone(h, s);
    steps := [];
    var recorded := 0;
    while recorded < ARTIFACTS
      invariant recorded <= ARTIFACTS
      invariant At(t, Run(h, s, steps), p, if recorded == ARTIFACTS then Completing(o) else Recording(o, recorded))
    {
      var fault := if recorded < |puts| then puts[recorded] else NoFault;
      PutRecordApplied(h, Run(h, s, steps), p, fault);
      RunOne(h, s, steps, PutRecord(p, fault));
      steps := steps + [PutRecord(p, fault)];
      var key := (o.exportId, recorded);
      var free := key !in t.records;
      if free && !fault.NotApplied? {
        t.records := t.records[key := Record(|o.package[recorded]|, h(o.package[recorded]))];
      }
      if !free || !fault.NoFault? {
        return false, steps;
      }
      recorded := recorded + 1;
    }
    stored := true;
  }

  lemma CreateResultRun(h: Bytes -> nat, s: State, p: nat, o: Own, fault: Fault)
    requires ProcessOf(s, p) == Saving(o, ARTIFACTS)
    ensures Run(h, s, [CreateResult(p, fault)]) == CreateResultOf(s, p, Saving(o, ARTIFACTS), fault)
  {
  }

  lemma PutRecordApplied(h: Bytes -> nat, s: State, p: nat, fault: Fault)
    requires var q := ProcessOf(s, p); q.Recording? && q.recorded < |q.o.package|
    ensures var q, s' := ProcessOf(s, p), Apply(h, s, PutRecord(p, fault));
      var key, bytes := (q.o.exportId, q.recorded), q.o.package[q.recorded];
      && s' == s.(records := s'.records, processes := s'.processes)
      && s'.records == (if key in s.records || fault.NotApplied? then s.records else s.records[key := Record(|bytes|, h(bytes))])
      && ProcessOf(s', p) == if key in s.records || !fault.NoFault? then StartCleaning(q.o, ARTIFACTS)
                             else if q.recorded + 1 == ARTIFACTS then Completing(q.o) else Recording(q.o, q.recorded + 1)
  {
    hide StartCleaning;
  }

  /** Deletes the saved keys last first; when every deletion succeeds none of them is left. */
  method Cleanup(t: Tables, h: Bytes -> nat, o: Own, saved: nat, deletes: seq<bool>, ghost s: State, ghost p: nat)
    returns (ghost steps: seq<Step>)
    requires At(t, s, p, StartCleaning(o, saved)) && saved <= ARTIFACTS
    modifies t`objects
    ensures At(t, Run(h, s, steps), p, Failing(o.job, o.version, o.projection))
    ensures (forall i :: 0 <= i < |deletes| ==> deletes[i]) ==> forall i :: 0 <= i < saved ==> (o.exportId, i) !in t.objects
  {
    hide Run, Apply;
    steps := [];
    RunNone(h, s);
    ghost var all := forall i :: 0 <= i < |deletes| ==> deletes[i];
    var left: nat := saved;
    while left > 0
      invariant left <= saved && At(t, Run(h, s, steps), p, StartCleaning(o, left))
      invariant all ==> forall i :: left <= i < saved ==> (o.exportId, i) !in t.objects
    {
      var succeeds := if saved - left < |deletes| then deletes[saved - left] else true;
      assert all ==> succeeds;
      ghost var now := Run(h, s, steps);
      DeleteApplied(h, now, p, succeeds);
      hide DeleteOf, StartCleaning;
      RunOne(h, s, steps, Delete(p, succeeds));
      steps := steps + [Delete(p, succeeds)];
      if succeeds {
        t.objects := t.objects - {(o.exportId, left - 1)};
      }
      left := left - 1;
    }
  }

  lemma DeleteApplied(h: Bytes -> nat, s: State, p: nat, succeeds: bool)
    requires var q := ProcessOf(s, p); q.Cleaning? && q.left > 0
    ensures var q, s' := ProcessOf(s, p), Apply(h, s, Delete(p, succeeds));
      && s' == s.(objects := s'.objects, processes := s'.processes) && ProcessOf(s', p) == StartCleaning(q.o, q.left - 1)
      && s'.objects == if succeeds then s.objects - {(q.o.exportId, q.left - 1)} else s.objects
  {
  }

  lemma FailApplied(h: Bytes -> nat, s: State, p: nat, fault: Fault)
    requires ProcessOf(s, p).Failing?
    ensures Apply(h, s, Fail(p, fault)) == FailOf(s, p, ProcessOf(s, p), fault)
  {
  }

  lemma CompleteApplied(h: Bytes -> nat, s: State, p: nat, fault: Fault)
    requires ProcessOf(s, p).Completing?
    ensures Apply(h, s, Complete(p, fault)) == CompleteOf(s, p, ProcessOf(s, p), fault)
  {
  }

  /** Whether the job can be started, and the read and the claim as steps. */
  lemma ClaimApplied(h: Bytes -> nat, s: State, p: nat, job: Id, valid: bool, fault: Fault)
    requires ProcessOf(s, p).Idle?
    ensures var ready := job in s.jobs && s.jobs[job].status.Pending? && valid;
      && (!ready ==> Run(h, s, [ReadJob(p, job, valid)]) == ExportProtocol.At(s, p, Stopped))
      && (ready ==>
            var (version, projection) := (s.jobs[job].version, s.jobs[job].projection);
            var s' := Run(h, s, [ReadJob(p, job, valid), Claim(p, fault)]);
            && s' == s.(jobs := Applied(s.jobs, job, version, Job(Running, 0, projection, None), fault), processes := s'.processes)
            && ProcessOf(s', p) == if Acknowledged(s.jobs, job, version, fault) then Claimed(job, version + 1, projection) else Stopped)
  {
    hide Applied, Acknowledged;
    var q := Claiming(job, if job in s.jobs then s.jobs[job].version else 0, if job in s.jobs then s.jobs[job].projection else 0);
    var first, second := ReadJob(p, job, valid), Claim(p, fault);
    assert Apply(h, s, first) == ReadJobOf(s, p, job, valid);
    var s1 := ExportProtocol.At(s, p, q);
    assert Apply(h, s1, second) == ClaimOf(s1, p, q, fault);
    hide Apply, Run;
    RunNone(h, s);
    RunOne(h, s, [], first);
    assert [] + [first] == [first] && [first] + [second] == [first, second];
    RunOne(h, s, [first], second);
  }

  lemma BuildApplied(h: Bytes -> nat, s: State, p: nat, exportId: Id, package: Option<seq<Bytes>>)
    requires ProcessOf(s, p).Claimed?
    ensures Apply(h, s, Build(p, exportId, package)) == BuildOf(s, p, ProcessOf(s, p), exportId, package)
  {
  }

  /** Records the failure; an error while doing so is only logged. */
  method RecordFailure(t: Tables, h: Bytes -> nat, job: Id, version: int, projection: Id, fault: Fault, ghost s: State, ghost p: nat)
    returns (ghost steps: seq<Step>)
    requires At(t, s, p, Failing(job, version, projection))
    modifies t`jobs
    ensures At(t, Run(h, s, steps), p, Stopped)
  {
    hide Run, Apply;
    RunNone(h, s);
    RunOne(h, s, [], Fail(p, fault));
    assert [] + [Fail(p, fault)] == [Fail(p, fault)];
    FailApplied(h, s, p, fault);
    steps := [Fail(p, fault)];
    var acknowledged := t.UpdateJob(job, version, Job(Failed, 0, projection, None), fault);
  }

  /** What is saved of an export is deleted, and its failure recorded. */
  method GiveUp(t: Tables, h: Bytes -> nat, o: Own, saved: nat, answers: Answers, ghost s: State, ghost p: nat)
    returns (ghost steps: seq<Step>)
    requires At(t, s, p, StartCleaning(o, saved)) && saved <= ARTIFACTS
    modifies t`objects, t`jobs
    ensures At(t, Run(h, s, steps), p, Stopped)
  {
    hide Run, Apply;
    steps := Cleanup(t, h, o, saved, answers.deletes, s, p);
    ghost var more := RecordFailure(t, h, o.job, o.version, o.projection, answers.fail, Run(h, s, steps), p);
    RunAppends(h, s, steps, more);
    steps := steps + more;
  }

  /** Saves and records a package; on any failure cleans up and records that. */
  method StorePackage(t: Tables, h: Bytes -> nat, o: Own, answers: Answers, ghost s: State, ghost p: nat)
    returns (stored: bool, ghost steps: seq<Step>)
    requires At(t, s, p, Saving(o, 0)) && |o.package| == ARTIFACTS
    modifies t`objects, t`metas, t`guards, t`records, t`jobs
    ensures At(t, Run(h, s, steps), p, if stored then Completing(o) else Stopped)
    ensures stored ==> t.jobs == old(t.jobs)
  {
    hide Run, Apply;
    var saved, complete, saving := SaveArtifacts(t, h, o, answers.saves, s, p);
    steps := saving;
    if !complete {
      ghost var more := GiveUp(t, h, o, saved, answers, Run(h, s, steps), p);
      RunAppends(h, s, steps, more);
      return false, steps + more;
    }
    var created, creating := CreateMeta(t, h, o, answers.create, Run(h, s, steps), p);
    RunAppends(h, s, steps, creating);
    steps := steps + creating;
    if created {
      var all, putting := PutRecords(t, h, o, answers.puts, Run(h, s, steps), p);
      RunAppends(h, s, steps, putting);
      steps := steps + putting;
      if all {
        return true, steps;
      }
    }
    ghost var more := GiveUp(t, h, o, ARTIFACTS, answers, Run(h, s, steps), p);
    RunAppends(h, s, steps, more);
    return false, steps + more;
  }

  /** From the claimed job to its end. */
  method RunClaimed(t: Tables, h: Bytes -> nat, job: Id, version: int, projection: Id, exportId: Id, package: Option<seq<Bytes>>,
                    answers: Answers, ghost s: State, ghost p: nat)
    returns (r: Result<Id, ExportError>, ghost steps: seq<Step>)
    requires At(t, s, p, Claimed(job, version, projection)) && exportId !in s.exports
    modifies t
    ensures At(t, Run(h, s, steps), p, Stopped)
    ensures r.Success? ==>
      r.value == exportId && job in t.jobs && t.jobs[job].status.Completed? && t.jobs[job].result == Some(exportId)
  {
    hide Run, Apply;
    RunNone(h, s);
    BuildApplied(h, s, p, exportId, package);
    RunOne(h, s, [], Build(p, exportId, package));
    assert [] + [Build(p, exportId, package)] == [Build(p, exportId, package)];
    steps := [Build(p, exportId, package)];
    t.exports := t.exports[exportId := job];
    if package.None? || |package.value| != ARTIFACTS {
      ghost var more := RecordFailure(t, h, job, version, projection, answers.fail, Run(h, s, steps), p);
      RunAppends(h, s, steps, more);
      return Failure(ExportFailed), steps + more;
    }
    var o := Own(job, version, projection, exportId, package.value);
    var stored, storing := StorePackage(t, h, o, answers, Run(h, s, steps), p);
    RunAppends(h, s, steps, storing);
    steps := steps + storing;
    if !stored {
      return Failure(ExportFailed), steps;
    }
    CompleteApplied(h, Run(h, s, steps), p, answers.complete);
    RunOne(h, s, steps, Complete(p, answers.complete));
    steps := steps + [Complete(p, answers.complete)];
    var done := t.UpdateJob(job, version, Job(Completed, 0, projection, Some(exportId)), answers.complete);
    return if done then Success(exportId) else Failure(CompletionFailed), steps;
  }

  /** Reads the job and moves it to running; `valid` is what the checks of product and projection answer. */
  method ClaimJob(t: Tables, h: Bytes -> nat, job: Id, valid: bool, fault: Fault, ghost s: State, ghost p: nat)
    returns (r: Result<(int, Id), ExportError>, ghost steps: seq<Step>)
    requires At(t, s, p, Idle)
    modifies t`jobs
    ensures At(t, Run(h, s, steps), p, if r.Success? then Claimed(job, r.value.0, r.value.1) else Stopped)
  {
    hide Run, Apply, Applied, Acknowledged;
    ClaimApplied(h, s, p, job, valid, fault);
    if job !in t.jobs || !t.jobs[job].status.Pending? || !valid {
      return Failure(InvalidJob), [ReadJob(p, job, valid)];
    }
    var version, projection := t.jobs[job].version, t.jobs[job].projection;
    steps := [ReadJob(p, job, valid), Claim(p, fault)];
    var claimed := t.UpdateJob(job, version, Job(Running, 0, projection, None), fault);
    return if claimed then Success((version + 1, projection)) else Failure(VersionConflict), steps;
  }

  /** `package` is what the builder makes. */
  method ExportForJob(t: Tables, h: Bytes -> nat, job: Id, valid: bool, exportId: Id, package: Option<seq<Bytes>>,
                      answers: Answers, ghost s: State, ghost p: nat)
    returns (r: Result<Id, ExportError>, ghost steps: seq<Step>)
    requires At(t, s, p, Idle) && exportId !in s.exports
    modifies t
    ensures At(t, Run(h, s, steps), p, Stopped)
    ensures r.Success? ==>
      r.value == exportId && job in t.jobs && t.jobs[job].status.Completed? && t.jobs[job].result == Some(exportId)
  {
    hide Run, Apply, ProcessOf;
    var claim, claiming := ClaimJob(t, h, job, valid, answers.claim, s, p);
    if claim.Failure? {
      return Failure(claim.error), claiming;
    }
    var result, more := RunClaimed(t, h, job, claim.value.0, claim.value.1, exportId, package, answers, Run(h, s, claiming), p);
    RunAppends(h, s, claiming, more);
    return result, claiming + more;
  }
}
