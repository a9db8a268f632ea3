/**
 What the failure of a stage does to its workflow: which failures end it, and
 what is left of them.
 */
module WorkflowFailures {
  import opened Wrappers
  import opened CatalogWorkflow
  import opened StageExecutor
  import opened WorkflowShape
  import opened WorkflowStore
  import opened WorkflowProtocol
  import opened WorkflowHistory
  import opened WorkflowTheorems
  import opened WorkflowExecution
  import opened WorkflowTransitions
  import opened WorkflowOutcomes

  predicate FailedAt(w: Workflow, i: nat) { i < |w.stages| && w.stages[i].status.StageFailed? }

  /** A failure of the stage is not passed over: it is a core stage, or the workflow is to fail with any. */
  predicate IsFatal(stage: StageName, configuration: Configuration) {
    stage !in {CatalogExport, AiEnrichment, ProductIntelligenceScore} || configuration.failOnOptionalStageError
  }

  /** The workflow shows the failure of stage `i`, after which nothing was started. */
  ghost predicate Shows(w: Workflow, i: nat) {
    && FailedAt(w, i) && Suffix(w, i + 1)
    && w.errorCode == w.stages[i].errorCode && w.errorMessage == w.stages[i].errorMessage
  }

  ghost predicate Judged(w: Workflow) {
    && (forall i: nat :: FailedAt(w, i) ==> (w.status.Failed? <==> IsFatal(w.stages[i].name, w.configuration)))
    && (forall i: nat :: FailedAt(w, i) && w.status.Failed? ==> Shows(w, i))
    && (w.status.Failed? ==> exists i: nat :: FailedAt(w, i))
    && (!w.status.Failed? ==> w.errorCode.None? && w.errorMessage.None?)
  }

  // ----- transitions that fail nothing ----------------------------------------------------------

  ghost predicate FailsNothing(w: Workflow, next: Workflow) {
    && !w.status.Failed? && !next.status.Failed? && next.configuration == w.configuration
    && next.errorCode == w.errorCode && next.errorMessage == w.errorMessage && |next.stages| == |w.stages|
    && forall i: nat :: FailedAt(next, i) ==> next.stages[i] == w.stages[i]
  }

  lemma FailsNothingJudges(w: Workflow, next: Workflow)
    requires Judged(w) && FailsNothing(w, next)
    ensures Judged(next)
  {
  }

  lemma ReplacingFailsNothing(w: Workflow, next: Workflow, stage: Stage)
    requires Ordered(w.stages) && next.stages == Replaced(w.stages, stage) && !stage.status.StageFailed?
    requires !w.status.Failed? && !next.status.Failed? && next.configuration == w.configuration
    requires next.errorCode == w.errorCode && next.errorMessage == w.errorMessage
    ensures FailsNothing(w, next)
  {
  }

  lemma BeginFailsNothing(w: Workflow)
    ensures Begin(w).Success? ==> FailsNothing(w, Begin(w).value)
  {
    hide ValidWorkflow;
  }

  lemma FinishFailsNothing(w: Workflow, warnings: bool)
    ensures Finish(w, warnings).Success? ==> FailsNothing(w, Finish(w, warnings).value)
  {
    hide ValidWorkflow;
  }

  lemma StartFailsNothing(w: Workflow, name: StageName)
    requires Ordered(w.stages) && StartStage(w, name).Success?
    ensures FailsNothing(w, StartStage(w, name).value)
  {
    hide ValidWorkflow, FailsNothing;
    ReplacingFailsNothing(w, StartStage(w, name).value, w.stages[IndexOf(name)].(status := StageRunning));
  }

  lemma OutcomeFailsNothing(w: Workflow, name: StageName, o: Outcome)
    requires Ordered(w.stages) && ApplyOutcome(w, name, o).Success? && !o.status.StageFailed?
    ensures FailsNothing(w, ApplyOutcome(w, name, o).value)
  {
    hide ValidWorkflow, FailsNothing;
    ReplacingFailsNothing(w, ApplyOutcome(w, name, o).value,
                          w.stages[IndexOf(name)].(status := o.status, jobId := o.jobId, childJobIds := o.childJobIds,
                                                   resultReference := o.resultReference, skipReason := o.skipReason));
  }

  lemma ResumeFailsNothing(w: Workflow)
    requires Ordered(w.stages) && ResumeReview(w).Success?
    ensures FailsNothing(w, ResumeReview(w).value)
  {
    hide ValidWorkflow, FailsNothing;
    ReplacingFailsNothing(w, ResumeReview(w).value, w.stages[IndexOf(HumanReview)].(status := StageRunning));
  }

  // ----- and the one that fails a stage -----------------------------------------------------------

  /** The failed workflow that the except block makes of its copy. */
  ghost predicate FailsAt(w: Workflow, next: Workflow, k: nat) {
    && k < |w.stages| == |next.stages| && next.configuration == w.configuration
    && next.stages[k].status.StageFailed? && next.stages[k].name == w.stages[k].name
    && (forall i :: 0 <= i < |w.stages| && i != k ==> next.stages[i] == w.stages[i])
    && Suffix(w, k + 1)
    && (next.status.Failed? <==> IsFatal(w.stages[k].name, w.configuration))
    && next.errorCode == (if next.status.Failed? then next.stages[k].errorCode else None)
    && next.errorMessage == (if next.status.Failed? then next.stages[k].errorMessage else None)
  }

  lemma FallbackFailsAt(w: Workflow, stage: StageName, error: Raised)
    requires AtStage(w, stage, StageRunning) && Fallback(w, stage, error).Success?
    ensures Ordered(w.stages) && FailsAt(w, Fallback(w, stage, error).value, IndexOf(stage))
    ensures FailureIsTerminal(w, stage) <==> IsFatal(stage, w.configuration)
  {
    hide Shape, ValidWorkflow, Truncated, FailsAt, FailStage, FailedRecord, Ordered, Suffix, IsFatal;
    var code, message, terminal := Truncated(error.code, 100), Truncated(error.message, 2000), FailureIsTerminal(w, stage);
    AtStageParts(w, stage);
    NamedAt(w, stage);
    RunningIsFrontier(w, stage);
    FailedStages(w, stage, code, message, terminal);
    RecordFailsAt(w, stage, code, message);
  }

  lemma RecordFailsAt(w: Workflow, stage: StageName, code: string, message: string)
    requires Ordered(w.stages) && Suffix(w, IndexOf(stage) + 1)
    ensures FailureIsTerminal(w, stage) <==> IsFatal(stage, w.configuration)
    ensures FailsAt(w, FailedRecord(w, stage, code, message, FailureIsTerminal(w, stage)), IndexOf(stage))
  {
    hide Suffix, NextStage, Progress;
    NamedAt(w, stage);
    hide Ordered;
  }

  lemma RunningIsFrontier(w: Workflow, stage: StageName)
    requires AtStage(w, stage, StageRunning)
    ensures Suffix(w, IndexOf(stage) + 1)
  {
    hide Prefix, ValidStage;
    var k: nat :| ShapeAt(w, k);
    if k < STAGE_COUNT { IndexOfStageAt(k); }
  }

  /** Everything that failed before is passed over, so it is not where a core stage fails. */
  lemma FailureJudges(w: Workflow, next: Workflow, k: nat)
    requires Judged(w) && !w.status.Failed? && FailsAt(w, next, k) && Ordered(w.stages)
    ensures Judged(next)
  {
    hide IsFatal;
    assert FailedAt(next, k);
    forall i: nat | FailedAt(next, i) && i != k ensures !next.status.Failed? && !IsFatal(next.stages[i].name, next.configuration) {
      assert FailedAt(w, i) && !IsFatal(w.stages[i].name, w.configuration);
      CoreComesFirst(w, i, k);
    }
  }

  /** A stage before one that may fail unnoticed ... */
  lemma CoreComesFirst(w: Workflow, i: nat, k: nat)
    requires Ordered(w.stages) && i < |w.stages| && k < |w.stages| && FailedAt(w, i) && Suffix(w, k + 1) && i != k
    requires !IsFatal(w.stages[i].name, w.configuration)
    ensures !IsFatal(w.stages[k].name, w.configuration)
  {
    assert i < k;
    assert w.stages[i].name == StageAt(i) && w.stages[k].name == StageAt(k);
  }

  // ----- every step judges failures ---------------------------------------------------------------

  ghost predicate AllJudged(st: Store) { forall id :: id in st.workflows ==> Judged(st.workflows[id]) }

  /** What a caller writes fails nothing, or it records a failure and fails just that stage. */
  lemma WrittenFails(s: State, step: Step)
    requires Inv(s) && Written(s, step).Some?
    ensures var q, next := ProcessOf(s, step.p), Written(s, step).value;
      && (q.Beginning? || q.Resuming? || q.Looping? || q.Executing? || q.Recovering?)
      && if step.Recover? && q.Recovering? then
           !q.w.status.Failed? && Ordered(q.w.stages) && FailsAt(q.w, next, IndexOf(q.stage)) && Fallback(q.w, q.stage, q.error) == Success(next)
         else FailsNothing(q.w, next)
  {
    hide Inv, FailsAt, FailsNothing, Begin, StartStage, ApplyOutcome, ResumeReview, Fallback, Finish, Execute, Ordered, AnyFailed, Shape;
    var q := ProcessOf(s, step.p);
    match (step, q)
    case (SendBegin(_, _), Beginning(w)) => BeginFailsNothing(w);
    case (SendResume(_, _), Resuming(w)) => ResumeFailsNothing(w);
    case (Loop(_, warnings, _), Looping(w)) =>
      if w.currentStage.None? { FinishFailsNothing(w, warnings || AnyFailed(w)); } else { StartFailsNothing(w, w.currentStage.value); }
    case (RunStage(_, env, _), Executing(w, stage)) =>
      OutcomeSettles(stage, w, env);
      OutcomeFailsNothing(w, stage, Execute(stage, w, env).value);
    case (Recover(_, _), Recovering(w, stage, error)) =>
      RecoveringCopy(s, step.p);
      FallbackFailsAt(w, stage, error);
    case _ =>
  }

  lemma OutcomeSettles(stage: StageName, w: Workflow, env: Environment)
    requires Execute(stage, w, env).Success?
    ensures !Execute(stage, w, env).value.status.StageFailed?
  {
    hide Execute;
    assert OutcomeFits(stage, Execute(stage, w, env).value);
  }

  lemma NewIsJudged(w: Workflow)
    requires Unmarked(w) && !w.status.Failed? && Suffix(w, 0)
    ensures Judged(w)
  {
    hide IsFatal;
  }

  lemma StepJudges(s: State, step: Step)
    requires Inv(s) && AllJudged(s.store)
    ensures AllJudged(Apply(s, step).store)
  {
    hide Inv, Apply, Judged, Holds, Written, FailsNothing, FailsAt, Unmarked;
    forall id | id in Apply(s, step).store.workflows ensures Judged(Apply(s, step).store.workflows[id]) {
      var q, next := ProcessOf(s, step.p), Apply(s, step).store.workflows[id];
      ChangesAreWritten(s, step, id);
      if id !in s.store.workflows {
        NewIsUnmarked(s, step.p);
        NewIsJudged(next);
      } else if next != s.store.workflows[id] {
        WrittenFails(s, step);
        if step.Recover? && q.Recovering? { FailureJudges(q.w, next, IndexOf(q.stage)); } else { FailsNothingJudges(q.w, next); }
      }
    }
  }

  lemma {:induction false} ReachedJudged(steps: seq<Step>)
    ensures AllJudged(Run(INITIAL, steps).store)
    decreases |steps|
  {
    hide Apply, Inv, Judged;
    if steps != [] {
      ReachedJudged(steps[..|steps| - 1]);
      Reached(steps[..|steps| - 1]);
      LastStep(steps);
      StepJudges(Run(INITIAL, steps[..|steps| - 1]), steps[|steps| - 1]);
    }
  }

  /** A stored workflow with a failed stage is FAILED exactly if the stage is none of the three that
      come after publishing, or its configuration is to fail with those too; then nothing was started
      after the stage, and the workflow has its code and message. */
  lemma FailureEndsWorkflowIff(steps: seq<Step>, id: Id, i: nat)
    ensures var st := Run(INITIAL, steps).store;
      id in st.workflows && i < |st.workflows[id].stages| && st.workflows[id].stages[i].status.StageFailed? ==>
        var w := st.workflows[id];
        && (w.status.Failed? <==>
              || w.stages[i].name !in {CatalogExport, AiEnrichment, ProductIntelligenceScore}
              || w.configuration.failOnOptionalStageError)
        && (w.status.Failed? ==>
              && (forall j :: i < j < |w.stages| ==> w.stages[j].status.NotStarted?)
              && w.errorCode == w.stages[i].errorCode && w.errorMessage == w.stages[i].errorMessage)
  {
    hide Run;
    ReachedJudged(steps);
    var st := Run(INITIAL, steps).store;
    if id in st.workflows { assert FailedAt(st.workflows[id], i) ==> Judged(st.workflows[id]); }
  }

  /** A stored workflow is FAILED exactly if one of its stages failed that was not to be passed over;
      no other workflow has an error. */
  lemma FailedIffFatalStage(steps: seq<Step>, id: Id)
    ensures var st := Run(INITIAL, steps).store;
      id in st.workflows ==>
        var w := st.workflows[id];
        && (w.status.Failed? <==> exists i: nat :: FailedAt(w, i) && IsFatal(w.stages[i].name, w.configuration))
        && (!w.status.Failed? ==> w.errorCode.None? && w.errorMessage.None?)
  {
    hide Run, IsFatal;
    ReachedJudged(steps);
  }

  /** What a caller that records a failure goes on with: with the workflow, running, if the failure is
      passed over and the request was not lost, and with nothing otherwise. */
  lemma RecordedFailure(steps: seq<Step>, p: nat, fault: Fault)
    ensures var s, s' := Run(INITIAL, steps), Apply(Run(INITIAL, steps), Recover(p, fault));
      var q := ProcessOf(s, p);
      q.Recovering? && s'.store != s.store ==>
        && q.w.id in s'.store.workflows && Ordered(s'.store.workflows[q.w.id].stages)
        && var w := s'.store.workflows[q.w.id];
           && w.stages[IndexOf(q.stage)].status.StageFailed?
           && if q.stage in {CatalogExport, AiEnrichment, ProductIntelligenceScore} && !w.configuration.failOnOptionalStageError
              then w.status.Running? && ProcessOf(s', p) == if fault.NoFault? then Looping(w) else Stopped
              else w.status.Failed? && ProcessOf(s', p) == Stopped
  {
    Reached(steps);
    var s := Run(INITIAL, steps);
    var q := ProcessOf(s, p);
    hide Run, Inv, Apply, Fallback, Ordered, RecoverOf, AtStage, FailsAt, Shape, FailureIsTerminal;
    if q.Recovering? {
      RecoveringCopy(s, p);
      AtStageParts(q.w, q.stage);
      RecoverStep(s, p, fault);
      if RecoverOf(s.store, q.w, q.stage, q.error, fault).0 != s.store {
        RecoverLeaves(s.store, q.w, q.stage, q.error, fault);
        RecordedLeaves(q.w, q.stage, q.error);
      }
    }
  }

  lemma RecoverStep(s: State, p: nat, fault: Fault)
    requires ProcessOf(s, p).Recovering? && Ordered(ProcessOf(s, p).w.stages)
    ensures var q := ProcessOf(s, p);
      var (st, r) := RecoverOf(s.store, q.w, q.stage, q.error, fault);
      Apply(s, Recover(p, fault)) == Moved(s, p, st, r)
  {
    hide RecoverOf, Ordered;
  }

  lemma RecordedLeaves(w: Workflow, stage: StageName, error: Raised)
    requires AtStage(w, stage, StageRunning) && Ordered(w.stages) && Fallback(w, stage, error).Success?
    ensures var next := Fallback(w, stage, error).value;
      && next.id == w.id && next.configuration == w.configuration && Ordered(next.stages)
      && next.stages[IndexOf(stage)].status.StageFailed?
      && (next.status.Failed? <==> IsFatal(stage, w.configuration)) && (next.status.Running? <==> !IsFatal(stage, w.configuration))
      && (FailureIsTerminal(w, stage) <==> IsFatal(stage, w.configuration))
  {
    hide Fallback, Ordered, Shape, IsFatal, FailureIsTerminal, ValidWorkflow, Suffix;
    FallbackFailsAt(w, stage, error);
    FallbackShape(w, stage, error);
    StaysOrdered(Fallback(w, stage, error).value);
    NamedAt(w, stage);
  }

  lemma StaysOrdered(w: Workflow)
    requires Shape(w)
    ensures Ordered(w.stages)
  {
    hide Prefix, Phase, ValidStage;
  }

  lemma RecoverLeaves(st: Store, w: Workflow, stage: StageName, error: Raised, fault: Fault)
    requires Ordered(w.stages) && RecoverOf(st, w, stage, error, fault).0 != st
    ensures Fallback(w, stage, error).Success?
    ensures var next := Fallback(w, stage, error).value;
      && RecoverOf(st, w, stage, error, fault).0.workflows == st.workflows[next.id := next]
      && RecoverOf(st, w, stage, error, fault).1 == if fault.NoFault? && !FailureIsTerminal(w, stage) then Looping(next) else Stopped
  {
    hide Fallback, FailureIsTerminal, Ordered;
  }

  // ----- where a failure comes from ------------------------------------------------------------------

  /** The text, or as much of its beginning as there is room for. */
  ghost predicate CutTo(text: Option<string>, full: string, room: nat) {
    && text.Some? && text.value <= full && |text.value| <= room && (|text.value| < room ==> text.value == full)
  }

  /** The step records the failure: its caller got the error from the executor, or from what follows it. */
  ghost predicate Records(s: State, step: Step, id: Id, stage: Stage) {
    var q := ProcessOf(s, step.p);
    && step.Recover? && q.Recovering? && q.w.id == id && q.stage == stage.name
    && CutTo(stage.errorCode, q.error.code, 100) && CutTo(stage.errorMessage, q.error.message, 2000)
  }

  lemma FallbackTexts(w: Workflow, stage: StageName, error: Raised)
    requires Ordered(w.stages) && Fallback(w, stage, error).Success?
    ensures var failed := Fallback(w, stage, error).value.stages;
      && Ordered(failed) && CutTo(failed[IndexOf(stage)].errorCode, error.code, 100)
      && CutTo(failed[IndexOf(stage)].errorMessage, error.message, 2000) && failed[IndexOf(stage)].name == stage
  {
    hide ValidWorkflow, Progress, NextStage;
    NamedAt(w, stage);
  }

  lemma NewFailureIsRecorded(s: State, step: Step, id: Id, i: nat)
    requires Inv(s) && id in Apply(s, step).store.workflows && FailedAt(Apply(s, step).store.workflows[id], i)
    requires id in s.store.workflows ==> StageOf(i)(s.store.workflows[id]) != Some(Apply(s, step).store.workflows[id].stages[i])
    ensures Records(s, step, id, Apply(s, step).store.workflows[id].stages[i])
  {
    hide Inv, Apply, Holds, Written, Unmarked, Fallback, CutTo, Ordered, Judged;
    var q, next := ProcessOf(s, step.p), Apply(s, step).store.workflows[id];
    ChangesAreWritten(s, step, id);
    if id !in s.store.workflows {
      NewIsUnmarked(s, step.p);
    } else {
      WrittenFails(s, step);
      HeldIs(q, s.store, id);
      if step.Recover? && q.Recovering? { FallbackTexts(q.w, q.stage, q.error); }
    }
  }

  /** Every failed stage of a stored workflow was recorded by a caller recovering from its execution,
      with the code and the message of the error, as far as there is room for them. */
  lemma FailuresAreRecorded(steps: seq<Step>, id: Id, i: nat)
    ensures var st := Run(INITIAL, steps).store;
      id in st.workflows && FailedAt(st.workflows[id], i) ==>
        exists j: nat :: j < |steps| && Records(Run(INITIAL, steps[..j]), steps[j], id, st.workflows[id].stages[i])
  {
    hide Run, Inv, Apply, Records;
    var st := Run(INITIAL, steps).store;
    if id in st.workflows && FailedAt(st.workflows[id], i) {
      LastChange(steps, id, StageOf(i));
      var j: nat :| j < |steps| && Sets(steps, j, id, StageOf(i), StageOf(i)(st.workflows[id]));
      Reached(steps[..j]);
      NewFailureIsRecorded(Run(INITIAL, steps[..j]), steps[j], id, i);
    }
  }

  /** What the execution of a stage leaves its caller to recover from: the executor's error, that of an
      outcome that cannot be applied, or that of a save that was refused or not confirmed. */
  ghost predicate Raises(s: State, step: Step, w: Workflow, stage: StageName, error: Raised) {
    && step.RunStage? && ProcessOf(s, step.p) == Executing(w, stage) && Ordered(w.stages)
    && match Execute(stage, w, step.env)
       case Failure(e) => error == e
       case Success(o) =>
         if ApplyOutcome(w, stage, o).Failure? then error == PLAIN_ERROR
         else error == if step.fault.NoFault? then CONFLICT else UNAVAILABLE
  }

  lemma StepRaises(s: State, step: Step)
    requires var q, q' := ProcessOf(s, step.p), ProcessOf(Apply(s, step), step.p); q'.Recovering? && q' != q
    ensures var q := ProcessOf(Apply(s, step), step.p);
      Raises(s, step, q.w, q.stage, q.error)
  {
    hide Save, Begin, StartStage, ApplyOutcome, ResumeReview, Fallback, Finish, Execute, NewWorkflow, AnyFailed, Ordered, ReadPageOf, EndReadOf,
      Deliver, CreateTransaction, LoopOf, RecoverOf, FailureIsTerminal;
    var q := ProcessOf(s, step.p);
    match (step, q)
    case (ReadPage(_, stages), Reading(_, _, _, _, _)) => ReadIsNoRecovery(s.store, q, stages);
    case (EndRead(_, same, completed), Reading(_, _, _, _, _)) => EndReadIsNoRecovery(q, same, completed);
    case (Loop(_, warnings, fault), Looping(w)) =>
      if Ordered(w.stages) { LoopIsNoRecovery(s.store, w, warnings, fault); }
    case (Recover(_, fault), Recovering(w, stage, error)) =>
      if Ordered(w.stages) { RecoverIsNoRecovery(s.store, w, stage, error, fault); }
    case _ =>
  }

  lemma ReadIsNoRecovery(st: Store, q: Process, stages: set<StageName>)
    requires q.Reading?
    ensures !ReadPageOf(st, q, stages).Recovering?
  {
  }

  lemma EndReadIsNoRecovery(q: Process, same: bool, completed: bool)
    requires q.Reading?
    ensures !EndReadOf(q, same, completed).Recovering?
  {
    hide Decode;
  }

  lemma LoopIsNoRecovery(st: Store, w: Workflow, warnings: bool, fault: Fault)
    requires Ordered(w.stages)
    ensures !LoopOf(st, w, warnings, fault).1.Recovering?
  {
    hide Save, StartStage, Finish;
  }

  lemma RecoverIsNoRecovery(st: Store, w: Workflow, stage: StageName, error: Raised, fault: Fault)
    requires Ordered(w.stages)
    ensures !RecoverOf(st, w, stage, error, fault).1.Recovering?
  {
    hide Save, Fallback;
  }

  /** Every caller that recovers has an error that an execution of its own left it, on the same copy. */
  lemma {:induction false} RecoveringWasRaised(steps: seq<Step>, p: nat)
    ensures var q := ProcessOf(Run(INITIAL, steps), p);
      q.Recovering? ==>
        exists j: nat :: j < |steps| && steps[j].p == p && Raises(Run(INITIAL, steps[..j]), steps[j], q.w, q.stage, q.error)
    decreases |steps|
  {
    hide Apply, Raises;
    if steps != [] {
      var n := |steps| - 1;
      LastStep(steps);
      hide Run;
      var s, q := Run(INITIAL, steps[..n]), ProcessOf(Run(INITIAL, steps), p);
      if q.Recovering? && q != ProcessOf(s, p) {
        OnlyOwnProcess(s, steps[n], p);
        StepRaises(s, steps[n]);
      } else if q.Recovering? {
        RecoveringWasRaised(steps[..n], p);
        var j: nat :| j < n && steps[..n][j].p == p && Raises(Run(INITIAL, steps[..n][..j]), steps[..n][j], q.w, q.stage, q.error);
        assert steps[..n][..j] == steps[..j];
      }
    }
  }

  lemma OnlyOwnProcess(s: State, step: Step, p: nat)
    requires ProcessOf(Apply(s, step), p) != ProcessOf(s, p)
    ensures step.p == p
  {
    OnlyOneProcess(s, step);
  }

  // ----- and how a workflow completes ------------------------------------------------------------------

  /** The step finishes the workflow, with warnings if it was told to or a stage has failed. */
  ghost predicate Finishes(s: State, step: Step, w: Workflow) {
    var q := ProcessOf(s, step.p);
    && step.Loop? && q.Looping? && q.w.id == w.id && q.w.stages == w.stages
    && (w.status.CompletedWithWarnings? <==> step.warnings || exists i: nat :: FailedAt(w, i))
  }

  lemma FinishedIs(w: Workflow, warnings: bool)
    requires Finish(w, warnings).Success?
    ensures var next := Finish(w, warnings).value;
      next.id == w.id && next.stages == w.stages && next.status == if warnings then CompletedWithWarnings else Completed
  {
    hide ValidWorkflow;
  }

  lemma StartedIs(w: Workflow, name: StageName)
    requires Ordered(w.stages)
    ensures StartStage(w, name).Success? ==> StartStage(w, name).value.status.Running?
  {
    hide ValidWorkflow;
  }

  lemma AppliedIs(w: Workflow, name: StageName, o: Outcome)
    requires Ordered(w.stages)
    ensures ApplyOutcome(w, name, o).Success? ==> ApplyOutcome(w, name, o).value.status in {Running, WaitingForReview}
  {
    hide ValidWorkflow;
  }

  lemma ResumedIs(w: Workflow)
    requires Ordered(w.stages)
    ensures ResumeReview(w).Success? ==> ResumeReview(w).value.status.Running?
  {
    hide ValidWorkflow;
  }

  lemma BegunIs(w: Workflow)
    ensures Begin(w).Success? ==> Begin(w).value.status.Running?
  {
    hide ValidWorkflow;
  }

  lemma CompletedIsFinished(s: State, step: Step)
    requires Inv(s) && Written(s, step).Some? && Written(s, step).value.status in {Completed, CompletedWithWarnings}
    ensures Finishes(s, step, Written(s, step).value)
  {
    hide Inv, Begin, StartStage, ApplyOutcome, ResumeReview, Fallback, Finish, Execute, Ordered, AnyFailed, AtStage, IsFatal;
    var q := ProcessOf(s, step.p);
    match (step, q)
    case (SendBegin(_, _), Beginning(w)) => BegunIs(w);
    case (SendResume(_, _), Resuming(w)) => ResumedIs(w);
    case (Loop(_, warnings, _), Looping(w)) =>
      if w.currentStage.None? {
        FinishedIs(w, warnings || AnyFailed(w));
        FailedSomewhere(w);
        assert forall i: nat :: FailedAt(Written(s, step).value, i) <==> FailedAt(w, i);
      } else {
        StartedIs(w, w.currentStage.value);
      }
    case (RunStage(_, env, _), Executing(w, stage)) => AppliedIs(w, stage, Execute(stage, w, env).value);
    case (Recover(_, _), Recovering(w, stage, error)) =>
      RecoveringCopy(s, step.p);
      RecordedLeaves(w, stage, error);
    case _ =>
  }

  lemma FailedSomewhere(w: Workflow)
    ensures AnyFailed(w) <==> exists i: nat :: FailedAt(w, i)
  {
    if AnyFailed(w) {
      var i :| 0 <= i < |w.stages| && w.stages[i].status.StageFailed?;
      assert FailedAt(w, i);
    }
  }

  /** Every completed workflow was finished by a caller in its loop; it completed with warnings exactly
      if the executor gave warnings then or a stage of it has failed. */
  lemma CompletedWithWarningsIff(steps: seq<Step>, id: Id)
    ensures var st := Run(INITIAL, steps).store;
      id in st.workflows && st.workflows[id].status in {Completed, CompletedWithWarnings} ==>
        exists j: nat :: j < |steps| && Finishes(Run(INITIAL, steps[..j]), steps[j], st.workflows[id])
  {
    hide Run, Inv, Apply, Finishes;
    var st := Run(INITIAL, steps).store;
    if id in st.workflows && st.workflows[id].status in {Completed, CompletedWithWarnings} {
      var whole := (w: Workflow) => w;
      LastChange(steps, id, whole);
      var j: nat :| j < |steps| && Sets(steps, j, id, whole, st.workflows[id]);
      Reached(steps[..j]);
      CompletionIsWritten(Run(INITIAL, steps[..j]), steps[j], id);
    }
  }

  lemma CompletionIsWritten(s: State, step: Step, id: Id)
    requires Inv(s) && id in Apply(s, step).store.workflows
    requires Apply(s, step).store.workflows[id].status in {Completed, CompletedWithWarnings}
    requires id in s.store.workflows ==> s.store.workflows[id] != Apply(s, step).store.workflows[id]
    ensures Finishes(s, step, Apply(s, step).store.workflows[id])
  {
    hide Inv, Apply, Holds, Written, Finishes;
    ChangesAreWritten(s, step, id);
    if id in s.store.workflows { CompletedIsFinished(s, step); } else { NewIsUnmarked(s, step.p); }
  }
}
