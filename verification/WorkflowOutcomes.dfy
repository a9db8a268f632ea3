/**
 Where the states of stored stages come from: a stage is completed, skipped or
 waiting only by what the executor answered for that stage of that workflow, so
 what the answers mean can be read off the store.
 */
module WorkflowOutcomes {
  import opened Wrappers
  import opened CatalogWorkflow
  import opened StageExecutor
  import opened WorkflowShape
  import opened WorkflowProtocol
  import opened WorkflowHistory
  import opened WorkflowTheorems
  import opened WorkflowExecution
  import opened WorkflowTransitions
  import Numerals

  /** The step executes the stage of the workflow, with the outcome that the stage shows. */
  ghost predicate Gives(s: State, step: Step, id: Id, stage: Stage) {
    Leaves(AppliedBy(s, step), stage) && ProcessOf(s, step.p).w.id == id
  }

  ghost predicate GivenIn(steps: seq<Step>, id: Id, stage: Stage) {
    exists i :: 0 <= i < |steps| && Gives(Run(INITIAL, steps[..i]), steps[i], id, stage)
  }

  lemma NewlySettled(s: State, step: Step, id: Id, i: nat)
    requires Inv(s) && id in Apply(s, step).store.workflows && i < |Apply(s, step).store.workflows[id].stages|
    requires Settled(Apply(s, step).store.workflows[id].stages[i])
    requires id in s.store.workflows ==> StageOf(i)(s.store.workflows[id]) != Some(Apply(s, step).store.workflows[id].stages[i])
    ensures Gives(s, step, id, Apply(s, step).store.workflows[id].stages[i])
  {
    ChangesAreWritten(s, step, id);
    StepAdvances(s, step);
    hide Inv, Apply, Holds, Written, Unmarked, AppliedBy, Leaves;
    if id in s.store.workflows {
      HeldIs(ProcessOf(s, step.p), s.store, id);
      assert StageAdvances(s.store.workflows[id].stages[i], Apply(s, step).store.workflows[id].stages[i], AppliedBy(s, step));
    } else {
      NewIsUnmarked(s, step.p);
    }
  }

  /** Every completed, skipped or waiting stage of a stored workflow shows the outcome that the
      executor once answered for that stage of that workflow. */
  lemma StagesSettleByOutcomes(steps: seq<Step>, id: Id, i: nat)
    ensures var st := Run(INITIAL, steps).store;
      id in st.workflows && i < |st.workflows[id].stages| && Settled(st.workflows[id].stages[i]) ==>
        GivenIn(steps, id, st.workflows[id].stages[i])
  {
    hide Run, Inv, Apply, Gives, Settled;
    var st := Run(INITIAL, steps).store;
    if id in st.workflows && i < |st.workflows[id].stages| && Settled(st.workflows[id].stages[i]) {
      LastChange(steps, id, StageOf(i));
      var j: nat :| j < |steps| && Sets(steps, j, id, StageOf(i), StageOf(i)(st.workflows[id]));
      Reached(steps[..j]);
      NewlySettled(Run(INITIAL, steps[..j]), steps[j], id, i);
    }
  }

  // ----- what a skipped stage shows --------------------------------------------------------------------

  const DISABLED := Some("DISABLED")

  lemma DisabledOutcome(stage: StageName, w: Workflow, env: Environment)
    requires Execute(stage, w, env).Success?
    ensures var o := Execute(stage, w, env).value;
      TurnedOff(stage, w.configuration) <==> o.status.Skipped? && o.skipReason == DISABLED
  {
    hide Execute;
    SkipsExactlyWhen(stage, w, env);
    TurnedOffOutcome(stage, w, env);
    if Execute(stage, w, env).value.status.Skipped? { SkipReasons(stage, w, env); }
  }

  lemma TurnedOffOutcome(stage: StageName, w: Workflow, env: Environment)
    ensures TurnedOff(stage, w.configuration) && Execute(stage, w, env).Success? ==>
      Execute(stage, w, env).value == Reason("DISABLED")
  {
  }

  /** The configuration of a stored workflow never changes. */
  lemma ConfigurationStays(s: State, more: seq<Step>, id: Id)
    requires Inv(s) && id in s.store.workflows
    ensures var st := Run(s, more).store;
      id in st.workflows && st.workflows[id].configuration == s.store.workflows[id].configuration
  {
    hide Inv, Run;
    RunLeavesHistory(s, more);
  }

  lemma GivesWorking(s: State, step: Step, id: Id, stage: Stage)
    requires Gives(s, step, id, stage)
    ensures step.RunStage? && ProcessOf(s, step.p).Executing? && Working(ProcessOf(s, step.p)) && ProcessOf(s, step.p).w.id == id
  {
    hide Execute;
  }

  /** The configuration that an execution saw is the one that is stored, then and ever after. */
  lemma GivenConfiguration(steps: seq<Step>, i: nat, id: Id, stage: Stage)
    requires i < |steps| && Gives(Run(INITIAL, steps[..i]), steps[i], id, stage)
    requires ProcessOf(Run(INITIAL, steps[..i]), steps[i].p).Executing?
    ensures var w := ProcessOf(Run(INITIAL, steps[..i]), steps[i].p).w;
      id in Run(INITIAL, steps).store.workflows && Run(INITIAL, steps).store.workflows[id].configuration == w.configuration
  {
    hide Run, Inv, Gives, Ordered, Working;
    WorkersHoldTheStored(steps[..i], steps[i].p);
    Reached(steps[..i]);
    var s := Run(INITIAL, steps[..i]);
    GivesWorking(s, steps[i], id, stage);
    assert steps == steps[..i] + steps[i..];
    RunAppends(INITIAL, steps[..i], steps[i..]);
    ConfigurationStays(s, steps[i..], id);
  }

  /** Of the stages that were completed or skipped, those that the configuration of the workflow turns
      off are exactly those skipped as disabled. */
  lemma DisabledIffTurnedOff(steps: seq<Step>, id: Id, i: nat)
    ensures var st := Run(INITIAL, steps).store;
      id in st.workflows && i < |st.workflows[id].stages| && st.workflows[id].stages[i].status in {StageCompleted, Skipped} ==>
        var stage := st.workflows[id].stages[i];
        TurnedOff(stage.name, st.workflows[id].configuration) <==> stage.status.Skipped? && stage.skipReason == DISABLED
  {
    hide Run, Execute, TurnedOff;
    StagesSettleByOutcomes(steps, id, i);
    var st := Run(INITIAL, steps).store;
    if id in st.workflows && i < |st.workflows[id].stages| && st.workflows[id].stages[i].status in {StageCompleted, Skipped} {
      var stage := st.workflows[id].stages[i];
      var j :| 0 <= j < |steps| && Gives(Run(INITIAL, steps[..j]), steps[j], id, stage);
      var q := ProcessOf(Run(INITIAL, steps[..j]), steps[j].p);
      GivesWorking(Run(INITIAL, steps[..j]), steps[j], id, stage);
      GivenConfiguration(steps, j, id, stage);
      DisabledOutcome(q.stage, q.w, steps[j].env);
    }
  }

  /** The execution found a reason to skip other than the configuration. */
  ghost predicate FoundReason(s: State, step: Step, id: Id, stage: Stage) {
    var q := ProcessOf(s, step.p);
    && step.RunStage? && q.Executing? && q.stage == stage.name && q.w.id == id && ProjectionId in q.w.references
    && match stage.skipReason
       case Some("PROJECTION_BLOCKED") =>
         stage.name in {PublishingReadiness, CatalogExport, AiEnrichment} && step.env.projection == Success(Some(Blocked))
       case Some("ALREADY_READY_TO_PUBLISH") =>
         stage.name.PublishingReadiness? && step.env.product.Success? && step.env.product.value.Some?
         && step.env.product.value.value.readyToPublish
       case _ => false
  }

  /** Every other skipped stage was executed when its projection was blocked or the product was ready
      to publish already, and says which. */
  lemma SkippedForAReason(steps: seq<Step>, id: Id, i: nat)
    ensures var st := Run(INITIAL, steps).store;
      id in st.workflows && i < |st.workflows[id].stages| && st.workflows[id].stages[i].status.Skipped?
      && !TurnedOff(st.workflows[id].stages[i].name, st.workflows[id].configuration) ==>
        exists j :: 0 <= j < |steps| && FoundReason(Run(INITIAL, steps[..j]), steps[j], id, st.workflows[id].stages[i])
  {
    hide Run, Execute;
    StagesSettleByOutcomes(steps, id, i);
    var st := Run(INITIAL, steps).store;
    if id in st.workflows && i < |st.workflows[id].stages| && st.workflows[id].stages[i].status.Skipped?
       && !TurnedOff(st.workflows[id].stages[i].name, st.workflows[id].configuration) {
      var stage := st.workflows[id].stages[i];
      var j :| 0 <= j < |steps| && Gives(Run(INITIAL, steps[..j]), steps[j], id, stage);
      var s := Run(INITIAL, steps[..j]);
      GivesWorking(Run(INITIAL, steps[..j]), steps[j], id, stage);
      GivenConfiguration(steps, j, id, stage);
      SkipReasons(ProcessOf(s, steps[j].p).stage, ProcessOf(s, steps[j].p).w, steps[j].env);
      assert FoundReason(s, steps[j], id, stage);
    }
  }

  // ----- what the review stage shows ----------------------------------------------------------------------

  /** The execution found the review of the product, completed or not. */
  ghost predicate FoundReview(s: State, step: Step, id: Id, completed: bool) {
    var q := ProcessOf(s, step.p);
    && step.RunStage? && q.Executing? && q.stage.HumanReview? && q.w.id == id
    && step.env.review.Success? && step.env.review.value.ofThisProduct && step.env.review.value.completed == completed
  }

  /** A stored workflow has its review stage completed only after the review was found completed, and
      waits at it only after it was found open. */
  lemma ReviewStageFollowsReview(steps: seq<Step>, id: Id)
    ensures var st := Run(INITIAL, steps).store;
      id in st.workflows && Ordered(st.workflows[id].stages)
      && st.workflows[id].stages[IndexOf(HumanReview)].status in {StageCompleted, StageStatus.Waiting} ==>
        exists j :: 0 <= j < |steps| && FoundReview(Run(INITIAL, steps[..j]), steps[j], id,
                                                    st.workflows[id].stages[IndexOf(HumanReview)].status.StageCompleted?)
  {
    hide Run, Execute;
    var i := IndexOf(HumanReview);
    StagesSettleByOutcomes(steps, id, i);
    var st := Run(INITIAL, steps).store;
    if id in st.workflows && Ordered(st.workflows[id].stages)
       && st.workflows[id].stages[i].status in {StageCompleted, StageStatus.Waiting} {
      var stage := st.workflows[id].stages[i];
      var j :| 0 <= j < |steps| && Gives(Run(INITIAL, steps[..j]), steps[j], id, stage);
      var s := Run(INITIAL, steps[..j]);
      ReviewStageWaitsWhileOpen(ProcessOf(s, steps[j].p).w, steps[j].env);
      assert FoundReview(s, steps[j], id, stage.status.StageCompleted?);
    }
  }

  // ----- what the sources stage shows ------------------------------------------------------------------------

  /** The execution found these jobs of the sources. */
  ghost predicate FoundSourceJobs(s: State, step: Step, id: Id, jobs: seq<Id>) {
    var q := ProcessOf(s, step.p);
    step.RunStage? && q.Executing? && q.stage.SourceProcessing? && q.w.id == id && step.env.sourceJobs == Success(jobs)
  }

  /** A stored workflow with its sources processed lists the jobs that an execution found of them. */
  lemma SourcesStageListsJobs(steps: seq<Step>, id: Id)
    ensures var st := Run(INITIAL, steps).store;
      id in st.workflows && Ordered(st.workflows[id].stages) && st.workflows[id].stages[0].status.StageCompleted? ==>
        exists j :: 0 <= j < |steps| && FoundSourceJobs(Run(INITIAL, steps[..j]), steps[j], id, st.workflows[id].stages[0].childJobIds)
  {
    hide Run;
    StagesSettleByOutcomes(steps, id, 0);
    var st := Run(INITIAL, steps).store;
    if id in st.workflows && Ordered(st.workflows[id].stages) && st.workflows[id].stages[0].status.StageCompleted? {
      var stage := st.workflows[id].stages[0];
      var j :| 0 <= j < |steps| && Gives(Run(INITIAL, steps[..j]), steps[j], id, stage);
      SourceOutcomeLists(ProcessOf(Run(INITIAL, steps[..j]), steps[j].p).w, steps[j].env);
      hide Execute;
      assert stage.name == StageAt(0);
      assert FoundSourceJobs(Run(INITIAL, steps[..j]), steps[j], id, stage.childJobIds);
    }
  }

  lemma SourceOutcomeLists(w: Workflow, env: Environment)
    ensures Execute(SourceProcessing, w, env).Success? ==>
      env.sourceJobs.Success? && Execute(SourceProcessing, w, env).value.childJobIds == env.sourceJobs.value
      && Execute(SourceProcessing, w, env).value.resultReference == Some("catalog-workflows/" + Numerals.Digits(w.id) + "/sources")
  {
  }
}
