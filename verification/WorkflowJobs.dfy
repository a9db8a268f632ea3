/**
 Where the completed stages of a workflow come from: from jobs that were
 completed before, and so, without such a job for the classification, no
 workflow gets beyond it.
 */
module WorkflowJobs {
  import opened Wrappers
  import opened Texts
  import opened CatalogWorkflow
  import opened JobLookup
  import opened StageExecutor
  import opened WorkflowShape
  import opened WorkflowStore
  import opened WorkflowProtocol
  import opened WorkflowHistory
  import opened WorkflowTheorems
  import opened WorkflowExecution
  import opened WorkflowTransitions
  import opened WorkflowOutcomes

  /** The step lists a reusable job for a stage. */
  ghost predicate Lists(step: Step, stage: StageName, job: Job) {
    step.RunStage? && step.env.listing.Success? && Listed(step.env.listing.value, job) && Reusable(job, stage)
  }

  /** The stage names a job, with its result, that the step lists. */
  ghost predicate NamesListed(step: Step, stage: Stage) {
    exists job :: Lists(step, stage.name, job) && stage.jobId == Some(job.id) && stage.resultReference == job.result
  }

  ghost predicate FromJob(steps: seq<Step>, stage: Stage) {
    exists i :: 0 <= i < |steps| && NamesListed(steps[i], stage)
  }

  predicate JobCompleted(stage: Stage) { stage.status.StageCompleted? && JobBacked(stage.name) }

  /** An outcome that completes a job-backed stage names a job that was listed. */
  lemma OutcomeNamesJob(s: State, step: Step, stage: Stage)
    requires Leaves(AppliedBy(s, step), stage) && JobCompleted(stage)
    ensures NamesListed(step, stage)
  {
    var q := ProcessOf(s, step.p);
    CompletedNamesJob(q.stage, q.w, step.env);
    hide Execute, Listed, MadeFor;
    var o := Execute(q.stage, q.w, step.env).value;
    var job :| Listed(step.env.listing.value, job) && MadeFor(job, q.stage, q.w.references) && o.jobId == Some(job.id)
               && o.resultReference == job.result;
    MadeForIsReusable(job, q.stage, q.w.references);
    assert Lists(step, stage.name, job);
  }

  lemma MadeForIsReusable(job: Job, stage: StageName, references: map<Reference, Id>)
    ensures MadeFor(job, stage, references) ==> Reusable(job, stage)
  {
  }

  /** Every completed job-backed stage of a stored workflow came from a job that some caller found
      completed in its listing: the stage names that job and its result. */
  lemma StagesCompleteFromJobs(steps: seq<Step>, id: Id, i: nat)
    ensures var st := Run(INITIAL, steps).store;
      id in st.workflows && i < |st.workflows[id].stages| && JobCompleted(st.workflows[id].stages[i]) ==>
        FromJob(steps, st.workflows[id].stages[i])
  {
    hide Run, NamesListed, AppliedBy;
    StagesSettleByOutcomes(steps, id, i);
    var st := Run(INITIAL, steps).store;
    if id in st.workflows && i < |st.workflows[id].stages| && JobCompleted(st.workflows[id].stages[i]) {
      var stage := st.workflows[id].stages[i];
      var j :| 0 <= j < |steps| && Gives(Run(INITIAL, steps[..j]), steps[j], id, stage);
      OutcomeNamesJob(Run(INITIAL, steps[..j]), steps[j], stage);
    }
  }

  // ----- without a completed classification job ----------------------------------------------------

  ghost predicate NoJobFor(steps: seq<Step>, stage: StageName) {
    forall i, job :: 0 <= i < |steps| ==> !Lists(steps[i], stage, job)
  }

  /** The workflow has not got beyond a stage: it is before it or at it, or failed there. */
  ghost predicate NotBeyond(w: Workflow, k: nat)
    requires k < STAGE_COUNT
  {
    && Ordered(w.stages) && !w.stages[k].status.StageCompleted?
    && match w.status
       case Pending => true
       case Running => exists i :: 0 <= i <= k && w.currentStage == Some(StageAt(i))
       case Failed => exists i :: 0 <= i <= k && w.stages[i].status.StageFailed?
       case _ => false
  }

  /** As long as no caller finds a completed classification job, which a workflow cannot make for
      itself, no workflow gets beyond the classification: none ever waits for its review or completes. */
  lemma NothingBeyondClassification(steps: seq<Step>, id: Id)
    requires NoJobFor(steps, ProductClassification)
    ensures var st := Run(INITIAL, steps).store;
      id in st.workflows ==> NotBeyond(st.workflows[id], 1)
  {
    Reached(steps);
    StoredShape(steps, id);
    StagesCompleteFromJobs(steps, id, 1);
    hide Run, Inv, Lists;
    var st := Run(INITIAL, steps).store;
    if id in st.workflows {
      var w := st.workflows[id];
      var k: nat :| ShapeAt(w, k);
      ClassificationNotCompleted(steps, w, k);
      StoppedAtOpen(w, k);
    }
  }

  lemma ClassificationNotCompleted(steps: seq<Step>, w: Workflow, k: nat)
    requires NoJobFor(steps, ProductClassification) && ShapeAt(w, k)
    requires JobCompleted(w.stages[1]) ==> FromJob(steps, w.stages[1])
    ensures Ordered(w.stages) && !w.stages[1].status.StageCompleted?
  {
    hide Phase, Prefix, ValidStage, Lists;
    assert w.stages[1].name == StageAt(1);
  }

  lemma StoppedAtOpen(w: Workflow, k: nat)
    requires ShapeAt(w, k) && !w.stages[1].status.StageCompleted?
    ensures NotBeyond(w, 1)
  {
    hide ValidStage;
    assert w.stages[0].name == StageAt(0) && w.stages[1].name == StageAt(1);
    if k > 1 { assert w.stages[1].status.StageFailed?; }
    else if w.status.Failed? { assert w.stages[0].status.StageFailed?; }
  }

  lemma ClassificationNeedsJob(w: Workflow, env: Environment)
    ensures Execute(ProductClassification, w, env).Success? ==>
      env.listing.Success? && exists job :: Listed(env.listing.value, job) && Reusable(job, ProductClassification)
  {
    hide Listed, MadeFor, Reusable, JobOutcome, OptionalSkip;
    var r := Execute(ProductClassification, w, env);
    if r.Success? {
      CompletedNamesJob(ProductClassification, w, env);
      var job :| Listed(env.listing.value, job) && MadeFor(job, ProductClassification, w.references) && r.value.jobId == Some(job.id)
                 && r.value.resultReference == job.result;
      MadeForIsReusable(job, ProductClassification, w.references);
    }
  }

  lemma RecordedFails(st: Store, w: Workflow, stage: StageName, error: Raised)
    requires Ordered(w.stages) && FailureIsTerminal(w, stage) && RecoverOf(st, w, stage, error, NoFault).0 != st
    ensures var st' := RecoverOf(st, w, stage, error, NoFault).0;
      w.id in st'.workflows && st'.workflows[w.id].status.Failed?
  {
    hide ValidWorkflow, Truncated, NextStage;
    if Fallback(w, stage, error).Success? {
      FailureAdvances(w, stage, Truncated(error.code, 100), Truncated(error.message, 2000), true);
    }
  }

  /** And one that gets to executing the classification fails there: without a completed job the stage
      gives an error, and recording it, if the request is not lost and the texts are visible, ends the
      workflow as failed. */
  lemma ClassificationFails(steps: seq<Step>, p: nat, env: Environment, fault: Fault)
    requires var q := ProcessOf(Run(INITIAL, steps), p); q.Executing? && q.stage.ProductClassification?
    requires forall job :: !Lists(RunStage(p, env, fault), ProductClassification, job)
    ensures var s := Run(INITIAL, steps);
      var w, s' := ProcessOf(s, p).w, Apply(s, RunStage(p, env, fault));
      var r, st' := ProcessOf(s', p), Apply(s', Recover(p, NoFault)).store;
      && s'.store == s.store && r.Recovering? && r.w == w && r.stage.ProductClassification?
      && (Visible(Truncated(r.error.code, 100)) && Visible(Truncated(r.error.message, 2000)) ==>
            w.id in st'.workflows && st'.workflows[w.id].status.Failed?)
  {
    hide Apply, Run, Inv, Visible, Truncated, Execute, Lists, Ordered;
    var s := Run(INITIAL, steps);
    var step := RunStage(p, env, fault);
    WorkersHoldTheStored(steps, p);
    Reached(steps);
    ClassificationRecovers(s, step);
    FallbackIsRecorded(steps + [step], p);
    OneMoreStep(steps, step);
    RecoveringFails(Apply(s, step), p);
  }

  lemma RecoveringFails(s: State, p: nat)
    requires ProcessOf(s, p).Recovering? && ProcessOf(s, p).stage.ProductClassification?
    ensures var st' := Apply(s, Recover(p, NoFault)).store;
      st' != s.store ==> ProcessOf(s, p).w.id in st'.workflows && st'.workflows[ProcessOf(s, p).w.id].status.Failed?
  {
    hide Ordered, RecoverOf;
    var q := ProcessOf(s, p);
    if Ordered(q.w.stages) && RecoverOf(s.store, q.w, q.stage, q.error, NoFault).0 != s.store {
      RecordedFails(s.store, q.w, q.stage, q.error);
    }
  }

  lemma OneMoreStep(steps: seq<Step>, step: Step)
    ensures Run(INITIAL, steps + [step]) == Apply(Run(INITIAL, steps), step)
  {
    LastStep(steps + [step]);
    assert (steps + [step])[..|steps|] == steps;
  }

  lemma ClassificationRecovers(s: State, step: Step)
    requires Inv(s) && step.RunStage? && ProcessOf(s, step.p).Executing? && ProcessOf(s, step.p).stage.ProductClassification?
    requires forall job :: !Lists(step, ProductClassification, job)
    ensures var s' := Apply(s, step);
      var r := ProcessOf(s', step.p);
      s'.store == s.store && r.Recovering? && r.w == ProcessOf(s, step.p).w && r.stage.ProductClassification?
  {
    hide Inv, StoreInv, Known, Ordered, Execute, Listed, Reusable;
    var q := ProcessOf(s, step.p);
    CopyIsKnown(s, step.p);
    ClassificationNeedsJob(q.w, step.env);
    forall job | step.env.listing.Success? && Listed(step.env.listing.value, job) && Reusable(job, ProductClassification)
      ensures Lists(step, ProductClassification, job)
    {
    }
  }
}
