/**
 No workflow is stuck: what the constructors accept can be started, and from
 every reachable state the caller that holds a running workflow can bring it to
 its end.
 */
module WorkflowProgress {
  import opened Wrappers
  import opened Texts
  import opened CatalogWorkflow
  import opened JobLookup
  import opened StageExecutor
  import opened WorkflowShape
  import opened WorkflowStore
  import opened WorkflowProtocol
  import opened WorkflowHistory
  import opened WorkflowTheorems
  import opened WorkflowExecution
  import opened WorkflowFailures
  import Numerals

  // ----- what the constructors accept -----------------------------------------------------------

  /** A new workflow is refused exactly for its product version or its sources, and has done nothing. */
  lemma NewWorkflowIff(id: Id, product: Id, version: int, configuration: Configuration, sources: seq<SourceEntry>)
    ensures var r := NewWorkflow(id, product, version, configuration, sources);
      && (r.Success? <==> version >= 1 && 1 <= |sources| <= 50 && DistinctSources(sources))
      && (r.Success? ==>
            var w := r.value;
            && w.id == id && w.product == product && w.version == 1 && w.productVersion == version && w.progress == 0
            && w.configuration == configuration && w.sources == sources && w.currentStage == Some(SourceProcessing)
            && w.status.Pending? && Unmarked(w) && Ordered(w.stages)
            && forall i :: 0 <= i < STAGE_COUNT ==> w.stages[i] == Stage(StageAt(i), NotStarted, None, [], None, None, None, None))
  {
    hide DistinctSources;
  }

  lemma StageStarts(w: Workflow, k: nat)
    requires ValidWorkflow(w) && k < STAGE_COUNT && !w.stages[k].status.StageFailed?
    ensures ValidStage(w.stages[k].(status := StageRunning))
  {
    assert ValidStage(w.stages[k]);
  }

  /** Beginning, starting a stage and resuming are refused exactly in the wrong status. */
  lemma StartsAcceptedIff(w: Workflow, name: StageName)
    requires ValidWorkflow(w)
    ensures Begin(w).Success? <==> w.status == Pending
    ensures StartStage(w, name).Success? <==> w.status == Running && w.stages[IndexOf(name)].status == NotStarted
    ensures ResumeReview(w).Success? <==> w.status == WaitingForReview && w.stages[8].status == StageStatus.Waiting
  {
    BeginAcceptedIff(w);
    StartAcceptedIff(w, name);
    ResumeAcceptedIff(w);
    hide Begin, StartStage, ResumeReview;
  }

  lemma BeginAcceptedIff(w: Workflow)
    requires ValidWorkflow(w)
    ensures Begin(w).Success? <==> w.status == Pending
  {
    hide ValidStage;
  }

  lemma StartAcceptedIff(w: Workflow, name: StageName)
    requires ValidWorkflow(w)
    ensures StartStage(w, name).Success? <==> w.status == Running && w.stages[IndexOf(name)].status == NotStarted
  {
    NamedAt(w, name);
    if w.stages[IndexOf(name)].status == NotStarted { StageReplacedIsValid(w, IndexOf(name), Some(name)); }
    hide ValidWorkflow, ReplaceStage, Ordered;
  }

  lemma ResumeAcceptedIff(w: Workflow)
    requires ValidWorkflow(w)
    ensures ResumeReview(w).Success? <==> w.status == WaitingForReview && w.stages[8].status == StageStatus.Waiting
  {
    NamedAt(w, HumanReview);
    if w.stages[8].status == StageStatus.Waiting { StageReplacedIsValid(w, 8, Some(HumanReview)); }
    hide ValidWorkflow, ReplaceStage, Ordered;
  }

  lemma StageReplacedIsValid(w: Workflow, k: nat, current: Option<StageName>)
    requires ValidWorkflow(w) && k < STAGE_COUNT && !w.stages[k].status.StageFailed?
    ensures ValidWorkflow(ReplaceStage(w, w.stages[k].(status := StageRunning), Running, current))
  {
    IndexOfStageAt(k);
    var stage := w.stages[k].(status := StageRunning);
    StageStarts(w, k);
    ReplacesOne(w, stage, Running, current);
    ValidWithStage(w, ReplaceStage(w, stage, Running, current), k, stage);
    hide ValidWorkflow, ValidStage, ReplaceStage, Progress;
  }

  /** Finishing is refused exactly if the workflow is not running, a stage is not finished, or one that is
      none of the three after publishing has failed. */
  lemma FinishAcceptedIff(w: Workflow, warnings: bool)
    requires ValidWorkflow(w)
    ensures Finish(w, warnings).Success? <==>
      && w.status == Running
      && (forall i :: 0 <= i < |w.stages| ==> w.stages[i].status in {StageCompleted, Skipped, StageFailed})
      && forall i: nat :: FailedAt(w, i) ==> w.stages[i].name in {CatalogExport, AiEnrichment, ProductIntelligenceScore}
  {
    hide ValidStage;
    var next := w.(status := if warnings then CompletedWithWarnings else Completed, version := w.version + 1, currentStage := None,
                   progress := 100);
    assert ValidWorkflow(next);
    hide ValidWorkflow;
    if Finish(w, warnings).Success? {
      forall i: nat | FailedAt(w, i) ensures w.stages[i].name in {CatalogExport, AiEnrichment, ProductIntelligenceScore} {
        assert Optional(w.stages[i].name);
      }
    } else if w.status == Running && exists i :: 0 <= i < |w.stages| && w.stages[i].status.StageFailed? && !Optional(w.stages[i].name) {
      var i: nat :| i < |w.stages| && w.stages[i].status.StageFailed? && !Optional(w.stages[i].name);
      assert FailedAt(w, i);
    }
  }

  /** What the records of a stage can hold of an outcome. */
  predicate Fits(o: Outcome) {
    && |o.childJobIds| <= 200
    && (o.resultReference.Some? ==> |o.resultReference.value| <= 1024 && Visible(o.resultReference.value))
    && (o.skipReason.Some? ==> |o.skipReason.value| <= 100 && Visible(o.skipReason.value))
    && (o.productVersion.Some? ==> o.productVersion.value >= 1)
  }

  function Updated(stage: Stage, o: Outcome): Stage {
    stage.(status := o.status, jobId := o.jobId, childJobIds := o.childJobIds, resultReference := o.resultReference, skipReason := o.skipReason)
  }

  lemma UpdatedIsValid(stage: Stage, o: Outcome)
    requires ValidStage(stage) && stage.status.StageRunning? && ValidOutcome(o)
    ensures ValidStage(Updated(stage, o)) && (o.productVersion.Some? ==> o.productVersion.value >= 1) <==> Fits(o)
  {
    hide Visible;
  }

  /** An outcome of the running stage is refused exactly if the records cannot hold it. */
  lemma OutcomeAcceptedIff(w: Workflow, name: StageName, o: Outcome)
    requires AtStage(w, name, StageRunning) && OutcomeFits(name, o)
    ensures ApplyOutcome(w, name, o).Success? <==> Fits(o)
  {
    AtStageParts(w, name);
    NamedAt(w, name);
    var k := IndexOf(name);
    assert ValidStage(w.stages[k]) && ValidOutcome(o) && w.productVersion >= 1 && !Terminal(w.status) && w.status.Running?
           && (o.status.Waiting? ==> ReviewId in o.references);
    hide ValidStage, ValidOutcome, OutcomeFits, AtStage, Progress, NextStage, Shape, Fits, Ordered;
    UpdatedIsValid(w.stages[k], o);
    var current := if o.status.Waiting? then Some(name) else NextStage(w.stages, name);
    var status := if o.status.Waiting? then WaitingForReview else Running;
    var next := ReplaceStage(w, Updated(w.stages[k], o), status, current);
    ReplacesOne(w, Updated(w.stages[k], o), status, current);
    hide ReplaceStage;
    ValidWithOutcome(w, next.(references := w.references + o.references,
                              productVersion := if o.productVersion.Some? then o.productVersion.value else w.productVersion),
                     k, Updated(w.stages[k], o));
    hide ValidWorkflow;
  }

  lemma ValidWithOutcome(w: Workflow, r: Workflow, k: nat, stage: Stage)
    requires ValidWorkflow(w) && k < STAGE_COUNT && stage.name == w.stages[k].name
    requires r.stages == w.stages[k := stage] && r.version >= 1 && r.sources == w.sources && r.progress == Progress(r.stages)
    requires r.status in {Running, WaitingForReview}
    ensures ValidWorkflow(r) <==> ValidStage(stage) && r.productVersion >= 1 && (r.status.WaitingForReview? ==> ReviewId in r.references)
  {
  }

  // ----- answers that complete a stage --------------------------------------------------------------

  /** The service answers with what completes a stage: a finished job for just what the workflow has, a
      completed review, a product that is ready already. */
  function Answers(w: Workflow, stage: StageName): Environment {
    Environment(Success([]), Success([[Job(0, stage, true, Some("result"), Given(stage, w.references))]]),
                Success(Some(RunResult(0, true))), 0, Success(()), Success(RunResult(0, true)),
                Success(ReviewView(0, true, true)), Success(Some(ProductView(1, false, true))), Success(1),
                Success(Some(Ready)), Success(()))
  }

  /** The names of the records of a workflow have room for its identifier. */
  predicate Nameable(id: Id) { |Numerals.Digits(id)| <= 900 }

  lemma VisibleStart(text: string)
    requires text != "" && !IsBlank(text[0])
    ensures Visible(text)
  {
  }

  /** The stage gives an outcome that its records can hold, and does not wait. */
  ghost predicate Completes(w: Workflow, stage: StageName) {
    var r := Execute(stage, w, Answers(w, stage));
    r.Success? && !r.value.status.Waiting? && Fits(r.value)
  }

  lemma SourceAnswers(w: Workflow)
    requires Nameable(w.id)
    ensures Completes(w, SourceProcessing)
  {
    hide Numerals.Digits, Visible, Given;
    VisibleStart("catalog-workflows/" + Numerals.Digits(w.id) + "/sources");
  }

  lemma ReviewAnswers(w: Workflow)
    requires SelectionId in w.references
    ensures Completes(w, HumanReview)
  {
    hide Numerals.Digits, Visible, Given;
    VisibleStart("product-reviews/" + Numerals.Digits(0));
    ZeroIsShort();
  }

  lemma ReadinessAnswers(w: Workflow)
    requires ProjectionId in w.references
    ensures Completes(w, PublishingReadiness)
  {
    hide Visible, Given;
    VisibleStart("DISABLED");
    VisibleStart("ALREADY_READY_TO_PUBLISH");
  }

  lemma JobStageAnswers(w: Workflow, stage: StageName)
    requires JobBacked(stage) && RequiredLineage(stage) <= w.references.Keys
    ensures Completes(w, stage)
  {
    hide Visible, Given, JobOutcome;
    VisibleStart("result");
    VisibleStart("DISABLED");
    JobAnswers(w, stage);
    hide RequiredLineage;
  }

  lemma AnswersComplete(w: Workflow, stage: StageName)
    requires RequiredLineage(stage) <= w.references.Keys && Nameable(w.id)
    ensures Completes(w, stage)
  {
    hide Completes, Nameable;
    match stage
    case SourceProcessing => SourceAnswers(w);
    case HumanReview =>
      assert SelectionId in RequiredLineage(HumanReview);
      ReviewAnswers(w);
    case PublishingReadiness =>
      assert ProjectionId in RequiredLineage(PublishingReadiness);
      ReadinessAnswers(w);
    case _ => JobStageAnswers(w, stage);
  }

  lemma ZeroIsShort()
    ensures |Numerals.Digits(0)| == 1
  {
  }

  lemma JobAnswers(w: Workflow, stage: StageName)
    requires JobBacked(stage) && RequiredLineage(stage) <= w.references.Keys
    ensures var env := Answers(w, stage);
      JobOutcome(stage, w, env) == CompletedWith(stage, env.listing.value[0][0], env.loaded.value.value)
  {
    var env := Answers(w, stage);
    var job := env.listing.value[0][0];
    NewJobNeedsItsLineage(env.newJob, stage, w.references);
    assert env.listing.value[0] == [job] && [[job]][1..] == [];
    hide Given, LineageAccepted, RequiredLineage;
    assert FirstOnPage([job], NewJob(env.newJob, stage, w.references).value) == Some(job);
  }

  // ----- and bring the workflow on ----------------------------------------------------------------------

  lemma SaveSucceeds(st: Store, w: Workflow, next: Workflow)
    requires IsStored(st, w) && next.id == w.id && next.version == w.version + 1 && next.product == w.product
    requires Guarded(st) && !Terminal(w.status)
    ensures Save(st, w, next, NoFault).acknowledged && Save(st, w, next, NoFault).store.workflows == st.workflows[next.id := next]
  {
  }

  lemma StartedStage(w: Workflow, stage: StageName)
    requires Shape(w) && w.status.Running? && w.currentStage == Some(stage) && w.stages[IndexOf(stage)].status.NotStarted?
    ensures Ordered(w.stages) && StartStage(w, stage).Success?
    ensures var next := StartStage(w, stage).value;
      && AtStage(next, stage, StageRunning) && UnfinishedCount(next.stages) == UnfinishedCount(w.stages)
      && next.id == w.id && next.product == w.product && next.version == w.version + 1
  {
    StartStageShape(w, stage);
    StartIdentity(w, stage);
    hide Shape;
  }

  /** What a caller in its loop holds. */
  lemma HeldInLoop(s: State, p: nat)
    requires Inv(s) && Exact(s) && (ProcessOf(s, p).Looping? || ProcessOf(s, p).Executing?)
    ensures var q := ProcessOf(s, p);
      && IsStored(s.store, q.w) && Guarded(s.store) && Shape(q.w) && Ordered(q.w.stages) && q.w.status.Running?
      && (q.Executing? ==> AtStage(q.w, q.stage, StageRunning) && RequiredLineage(q.stage) <= q.w.references.Keys)
      && (q.Looping? && q.w.currentStage.Some? ==> q.w.stages[IndexOf(q.w.currentStage.value)].status in {NotStarted, StageRunning})
  {
    hide AllShaped, OneDriver, Known, ShapeAt, FreshLoop;
    CopyIsKnown(s, p);
    var q := ProcessOf(s, p);
    assert ProcessInv(s.store, q) && ExactProcess(s.store, q);
    RunningMoves(q.w);
  }

  lemma NothingFails(w: Workflow, next: Workflow)
    requires FailsNothing(w, next)
    ensures AnyFailed(next) ==> AnyFailed(w)
  {
    FailedSomewhere(w);
    FailedSomewhere(next);
    hide AnyFailed;
    if i: nat :| FailedAt(next, i) { assert next.stages[i] == w.stages[i] && FailedAt(w, i); }
  }

  lemma LoopEnters(st: Store, w: Workflow, stage: StageName)
    requires IsStored(st, w) && Guarded(st) && Shape(w) && Ordered(w.stages) && w.status.Running? && w.currentStage == Some(stage)
    requires w.stages[IndexOf(stage)].status in {NotStarted, StageRunning}
    ensures var (st', q) := LoopOf(st, w, false, NoFault);
      && q.Executing? && q.stage == stage && q.w.id == w.id && UnfinishedCount(q.w.stages) == UnfinishedCount(w.stages)
      && (AnyFailed(q.w) ==> AnyFailed(w))
  {
    if w.stages[IndexOf(stage)].status.NotStarted? {
      StartedStage(w, stage);
      StartFailsNothing(w, stage);
      NothingFails(w, StartStage(w, stage).value);
      hide AnyFailed, FailsNothing;
      SaveSucceeds(st, w, StartStage(w, stage).value);
      hide StartStage, Save, Shape, AtStage;
    }
  }

  /** The caller in its loop that has a stage to run enters it. */
  lemma EntersStage(s: State, p: nat)
    requires Inv(s) && Exact(s) && ProcessOf(s, p).Looping? && ProcessOf(s, p).w.currentStage.Some?
    ensures var w, q := ProcessOf(s, p).w, ProcessOf(Apply(s, Loop(p, false, NoFault)), p);
      && q.Executing? && q.w.id == w.id && UnfinishedCount(q.w.stages) == UnfinishedCount(w.stages)
      && (AnyFailed(q.w) ==> AnyFailed(w))
  {
    hide Inv, Exact, LoopOf, AnyFailed, IsStored, Guarded, Shape, Ordered;
    HeldInLoop(s, p);
    LoopEnters(s.store, ProcessOf(s, p).w, ProcessOf(s, p).w.currentStage.value);
  }

  lemma RunLeaves(st: Store, w: Workflow, stage: StageName)
    requires IsStored(st, w) && Guarded(st) && Ordered(w.stages) && AtStage(w, stage, StageRunning)
    requires RequiredLineage(stage) <= w.references.Keys && Nameable(w.id)
    ensures var (st', q) := RunStageOf(st, w, stage, Answers(w, stage), NoFault);
      && q.Looping? && q.w.id == w.id && UnfinishedCount(q.w.stages) == UnfinishedCount(w.stages) - 1
      && (AnyFailed(q.w) ==> AnyFailed(w))
  {
    AnswersComplete(w, stage);
    var o := Execute(stage, w, Answers(w, stage)).value;
    assert OutcomeFits(stage, o);
    OutcomeAcceptedIff(w, stage, o);
    OutcomeShape(w, stage, o);
    ApplyOutcomeShape(w, stage, o);
    OutcomeIdentity(w, stage, o);
    OutcomeSettles(stage, w, Answers(w, stage));
    OutcomeFailsNothing(w, stage, o);
    NothingFails(w, ApplyOutcome(w, stage, o).value);
    assert !Terminal(w.status);
    hide AnyFailed, FailsNothing, Execute, Fits, ApplyOutcome, Shape, OutcomeFits, Answers, RequiredLineage, AtStage;
    SaveSucceeds(st, w, ApplyOutcome(w, stage, o).value);
    hide Save;
  }

  /** The caller that runs a stage can complete it. */
  lemma LeavesStage(s: State, p: nat)
    requires Inv(s) && Exact(s) && ProcessOf(s, p).Executing? && Nameable(ProcessOf(s, p).w.id)
    ensures var q := ProcessOf(s, p);
      var q' := ProcessOf(Apply(s, RunStage(p, Answers(q.w, q.stage), NoFault)), p);
      && q'.Looping? && q'.w.id == q.w.id && UnfinishedCount(q'.w.stages) == UnfinishedCount(q.w.stages) - 1
      && (AnyFailed(q'.w) ==> AnyFailed(q.w))
  {
    hide Inv, Exact, RunStageOf, AnyFailed, IsStored, Guarded, Shape, Ordered, Answers;
    HeldInLoop(s, p);
    RunLeaves(s.store, ProcessOf(s, p).w, ProcessOf(s, p).stage);
  }

  lemma LoopEnds(st: Store, w: Workflow)
    requires IsStored(st, w) && Guarded(st) && Shape(w) && Ordered(w.stages) && w.status.Running? && w.currentStage.None?
    ensures var (st', q) := LoopOf(st, w, false, NoFault);
      w.id in st'.workflows && st'.workflows[w.id].status == if AnyFailed(w) then CompletedWithWarnings else Completed
  {
    FinishShape(w, AnyFailed(w));
    FinishedParts(w, AnyFailed(w));
    hide Save, Shape, AnyFailed, Finish;
    SaveSucceeds(st, w, Finish(w, AnyFailed(w)).value);
  }

  lemma FinishedParts(w: Workflow, warnings: bool)
    requires Finish(w, warnings).Success?
    ensures var next := Finish(w, warnings).value;
      && next.id == w.id && next.product == w.product && next.version == w.version + 1
      && next.status == if warnings then CompletedWithWarnings else Completed
  {
    hide ValidWorkflow;
  }

  lemma EndsLoop(s: State, p: nat)
    requires Inv(s) && Exact(s) && ProcessOf(s, p).Looping? && ProcessOf(s, p).w.currentStage.None?
    ensures var w, st := ProcessOf(s, p).w, Apply(s, Loop(p, false, NoFault)).store;
      w.id in st.workflows && st.workflows[w.id].status == if AnyFailed(w) then CompletedWithWarnings else Completed
  {
    hide Inv, Exact, LoopOf, AnyFailed, IsStored, Guarded, Shape, Ordered;
    HeldInLoop(s, p);
    LoopEnds(s.store, ProcessOf(s, p).w);
  }

  // ----- to the end -----------------------------------------------------------------------------------------

  /** The workflow is stored as completed, with warnings only if a stage of it had failed before. */
  ghost predicate Ends(s: State, w: Workflow) {
    && w.id in s.store.workflows && s.store.workflows[w.id].status in {Completed, CompletedWithWarnings}
    && (!AnyFailed(w) ==> s.store.workflows[w.id].status == Completed)
  }

  lemma {:induction false} EndingRun(s: State, p: nat) returns (more: seq<Step>)
    requires Inv(s) && Exact(s) && ProcessOf(s, p).Looping? && Nameable(ProcessOf(s, p).w.id)
    ensures Ends(Run(s, more), ProcessOf(s, p).w)
    decreases UnfinishedCount(ProcessOf(s, p).w.stages)
  {
    hide Inv, Exact, Apply, Answers, AnyFailed;
    var w, loop := ProcessOf(s, p).w, Loop(p, false, NoFault);
    if w.currentStage.None? {
      EndsLoop(s, p);
      more := [loop];
      assert [loop][1..] == [] && Run(Apply(s, loop), []) == Apply(s, loop);
    } else {
      EntersStage(s, p);
      StepKeeps(s, loop);
      StepKeepsExact(s, loop);
      var s1 := Apply(s, loop);
      var run := RunStage(p, Answers(ProcessOf(s1, p).w, ProcessOf(s1, p).stage), NoFault);
      LeavesStage(s1, p);
      StepKeeps(s1, run);
      StepKeepsExact(s1, run);
      var rest := EndingRun(Apply(s1, run), p);
      more := [loop, run] + rest;
      assert more[1..] == [run] + rest && more[1..][1..] == rest;
    }
  }

  /** From every reachable state, the workflow of a caller in its loop can be completed, whatever the
      other callers did before. */
  lemma RunningCanComplete(steps: seq<Step>, p: nat)
    ensures var s := Run(INITIAL, steps);
      ProcessOf(s, p).Looping? && Nameable(ProcessOf(s, p).w.id) ==> exists more :: Ends(Run(s, more), ProcessOf(s, p).w)
  {
    hide Inv, Exact, Run, Ends;
    ReachedExact(steps);
    if ProcessOf(Run(INITIAL, steps), p).Looping? && Nameable(ProcessOf(Run(INITIAL, steps), p).w.id) {
      var more := EndingRun(Run(INITIAL, steps), p);
    }
  }

  lemma BegunParts(w: Workflow)
    requires Begin(w).Success?
    ensures var next := Begin(w).value;
      next.id == w.id && next.product == w.product && next.version == w.version + 1 && !Terminal(next.status) && next.stages == w.stages
  {
    hide ValidWorkflow;
  }

  lemma StartedLoop(id: Id, product: Id, version: int, configuration: Configuration, sources: seq<SourceEntry>)
    requires version >= 1 && 1 <= |sources| <= 50 && DistinctSources(sources)
    ensures var q := ProcessOf(Run(INITIAL, [Start(0, id, product, version, configuration, sources), SendCreate(0, NoFault),
                                            SendBegin(0, NoFault)]), 0);
      q.Looping? && q.w.id == id && q.w.product == product && q.w.configuration == configuration && !AnyFailed(q.w)
  {
    NewWorkflowIff(id, product, version, configuration, sources);
    NewWorkflowShape(id, product, version, configuration, sources);
    var w := NewWorkflow(id, product, version, configuration, sources).value;
    BeginShape(w);
    BegunParts(w);
    var a, b, c := Start(0, id, product, version, configuration, sources), SendCreate(0, NoFault), SendBegin(0, NoFault);
    hide NewWorkflow, Begin, Shape, DistinctSources;
    var s1 := Apply(INITIAL, a);
    assert s1 == State(Store(map[], map[]), map[0 := Creating(w)]);
    var s2 := Apply(s1, b);
    assert s2 == State(Store(map[id := w], map[product := id]), map[0 := Beginning(w)]);
    var s3 := Apply(s2, c);
    assert ProcessOf(s3, 0) == Looping(Begin(w).value);
    assert [a, b, c][1..] == [b, c] && [b, c][1..] == [c] && [c][1..] == [];
    assert Run(INITIAL, [a, b, c]) == Run(s1, [b, c]) == Run(s2, [c]) == Run(s3, []) == s3;
  }

  /** And every workflow that the constructor accepts can be started and completed without warnings, in
      whatever configuration. */
  lemma EveryWorkflowCanComplete(id: Id, product: Id, version: int, configuration: Configuration, sources: seq<SourceEntry>)
    requires version >= 1 && 1 <= |sources| <= 50 && DistinctSources(sources) && Nameable(id)
    ensures exists steps :: var st := Run(INITIAL, steps).store;
      id in st.workflows && st.workflows[id].status == Completed && st.workflows[id].configuration == configuration
  {
    hide Run, Inv, Exact, DistinctSources, AnyFailed;
    var start := [Start(0, id, product, version, configuration, sources), SendCreate(0, NoFault), SendBegin(0, NoFault)];
    StartedLoop(id, product, version, configuration, sources);
    ReachedExact(start);
    var s := Run(INITIAL, start);
    var more := EndingRun(s, 0);
    RunAppends(INITIAL, start, more);
    WorkersHoldTheStored(start, 0);
    RunLeavesHistory(s, more);
    var st := Run(INITIAL, start + more).store;
    assert id in st.workflows && st.workflows[id].status == Completed && st.workflows[id].configuration == configuration;
  }
}
