/**
 What a run of any callers leaves of its steps: a finished stage is never
 changed, none goes back to not started, and none is completed, skipped or made
 to wait but by the outcome of its execution.
 */
module WorkflowHistory {
  import opened Wrappers
  import opened CatalogWorkflow
  import opened StageExecutor
  import opened WorkflowShape
  import opened WorkflowStore
  import opened WorkflowProtocol

  /** An outcome and the stage it is applied to. */
  type Applied = Option<(StageName, Outcome)>

  /** What an outcome leaves of itself in its stage. */
  predicate Leaves(applied: Applied, stage: Stage) {
    && applied.Some? && applied.value.0 == stage.name
    && var o := applied.value.1;
       && o.status == stage.status && o.jobId == stage.jobId && o.childJobIds == stage.childJobIds
       && o.resultReference == stage.resultReference && o.skipReason == stage.skipReason
  }

  /** Completed, skipped or waiting: what only an outcome can make of a stage. */
  predicate Settled(stage: Stage) { stage.status in {StageCompleted, Skipped, StageStatus.Waiting} }

  /** From `w` to `next` no finished stage is touched, none goes back to not started, and none is
      newly settled but by the outcome; the configuration is the same. */
  ghost predicate Advances(w: Workflow, next: Workflow, applied: Applied) {
    && next.id == w.id && |next.stages| == |w.stages| && next.configuration == w.configuration && next.sources == w.sources
    && forall i :: 0 <= i < |w.stages| ==> StageAdvances(w.stages[i], next.stages[i], applied)
  }

  ghost predicate StageAdvances(before: Stage, after: Stage, applied: Applied) {
    after == before
    || (!Finished(before.status) && !after.status.NotStarted? && (Settled(after) ==> Leaves(applied, after)))
  }

  /** Every stored workflow advances, and a new one has started nothing. */
  ghost predicate StoreAdvances(st: Store, st': Store, applied: Applied) {
    && (forall id :: id in st.workflows ==> id in st'.workflows && Advances(st.workflows[id], st'.workflows[id], applied))
    && (forall id :: id in st'.workflows && id !in st.workflows ==> Suffix(st'.workflows[id], 0))
  }

  // ----- every transition advances ------------------------------------------------------------

  lemma ReplacingAdvances(w: Workflow, next: Workflow, stage: Stage, applied: Applied)
    requires Ordered(w.stages) && next.id == w.id && next.configuration == w.configuration && next.sources == w.sources
    requires next.stages == Replaced(w.stages, stage)
    requires StageAdvances(w.stages[IndexOf(stage.name)], stage, applied)
    ensures Advances(w, next, applied)
  {
  }

  lemma BeginAdvances(w: Workflow)
    ensures Begin(w).Success? ==> Advances(w, Begin(w).value, None)
  {
    hide ValidWorkflow;
  }

  lemma StartAdvances(w: Workflow, name: StageName)
    requires Ordered(w.stages) && StartStage(w, name).Success?
    ensures Advances(w, StartStage(w, name).value, None)
  {
    hide ValidWorkflow, Advances;
    NamedAt(w, name);
    ReplacingAdvances(w, StartStage(w, name).value, w.stages[IndexOf(name)].(status := StageRunning), None);
  }

  lemma NamedAt(w: Workflow, name: StageName)
    requires Ordered(w.stages)
    ensures w.stages[IndexOf(name)].name == name
  {
  }

  lemma OutcomeAdvances(w: Workflow, name: StageName, o: Outcome)
    requires Ordered(w.stages) && ApplyOutcome(w, name, o).Success? && !o.status.NotStarted?
    ensures Advances(w, ApplyOutcome(w, name, o).value, Some((name, o)))
  {
    hide ValidWorkflow, Advances;
    NamedAt(w, name);
    ReplacingAdvances(w, ApplyOutcome(w, name, o).value,
                      w.stages[IndexOf(name)].(status := o.status, jobId := o.jobId, childJobIds := o.childJobIds,
                                               resultReference := o.resultReference, skipReason := o.skipReason),
                      Some((name, o)));
  }

  lemma ResumeAdvances(w: Workflow)
    requires Ordered(w.stages) && ResumeReview(w).Success?
    ensures Advances(w, ResumeReview(w).value, None)
  {
    hide ValidWorkflow, Advances;
    NamedAt(w, HumanReview);
    ReplacingAdvances(w, ResumeReview(w).value, w.stages[IndexOf(HumanReview)].(status := StageRunning), None);
  }

  lemma FailureAdvances(w: Workflow, name: StageName, code: string, message: string, terminal: bool)
    requires Ordered(w.stages) && FailStage(w, name, code, message, terminal).Success?
    ensures Advances(w, FailStage(w, name, code, message, terminal).value, None)
  {
    hide ValidWorkflow, Advances;
    NamedAt(w, name);
    ReplacingAdvances(w, FailStage(w, name, code, message, terminal).value,
                      w.stages[IndexOf(name)].(status := StageFailed, errorCode := Some(code), errorMessage := Some(message)), None);
  }

  lemma FinishAdvances(w: Workflow, warnings: bool)
    requires Finish(w, warnings).Success?
    ensures Advances(w, Finish(w, warnings).value, None)
  {
    hide ValidWorkflow;
  }

  // ----- and so does every step -----------------------------------------------------------------

  lemma SameAdvances(st: Store, applied: Applied)
    ensures StoreAdvances(st, st, applied)
  {
  }

  lemma SaveAdvances(st: Store, w: Workflow, next: Workflow, fault: Fault, applied: Applied)
    requires StoreInv(st) && Known(st, w) && Advances(w, next, applied)
    ensures StoreAdvances(st, Save(st, w, next, fault).store, applied)
  {
    hide AllShaped, Suffix, SaveTransaction, StageAdvances;
    SameAdvances(st, applied);
    if SaveTransaction(st, next, w.version).Some? {
      SaveReplaces(st, w, next);
      OneAdvances(st, SaveTransaction(st, next, w.version).value, w, next, applied);
    }
  }

  lemma OneAdvances(st: Store, st': Store, w: Workflow, next: Workflow, applied: Applied)
    requires Advances(w, next, applied) && w.id in st.workflows && st.workflows[w.id] == w
    requires st'.workflows == st.workflows[w.id := next]
    ensures StoreAdvances(st, st', applied)
  {
    hide Suffix;
  }

  lemma CreateAdvances(st: Store, w: Workflow, fault: Fault)
    requires Shape(w) && w.status.Pending?
    ensures StoreAdvances(st, Deliver(st, CreateTransaction(st, w), fault).store, None)
  {
    var k: nat :| ShapeAt(w, k);
    assert Suffix(w, 0);
    hide ShapeAt, Suffix;
  }

  /** A process holds a copy the store knows of, whose stages are the fifteen in order. */
  lemma CopyIsKnown(s: State, p: nat)
    requires Inv(s)
    ensures var q := ProcessOf(s, p);
      && StoreInv(s.store)
      && (q.Creating? ==> Shape(q.w) && q.w.status.Pending?)
      && (q.Beginning? || q.Resuming? || q.Looping? || q.Executing? || q.Recovering? ==> Known(s.store, q.w) && Ordered(q.w.stages))
  {
    hide StoreInv, OneDriver, Known, Phase, Prefix, ValidStage;
  }

  /** The outcome that a step applies, if it applies one. */
  function AppliedBy(s: State, step: Step): Applied {
    var q := ProcessOf(s, step.p);
    if step.RunStage? && q.Executing? && Execute(q.stage, q.w, step.env).Success?
    then Some((q.stage, Execute(q.stage, q.w, step.env).value)) else None
  }

  lemma StepAdvances(s: State, step: Step)
    requires Inv(s)
    ensures StoreAdvances(s.store, Apply(s, step).store, AppliedBy(s, step))
  {
    hide Inv, StoreInv, Known, StoreAdvances, Advances, Save, Begin, StartStage, ApplyOutcome, ResumeReview, FailStage, Finish,
      Execute, NewWorkflow, Ordered, ReadPageOf, EndReadOf, CreateTransaction, Deliver, Truncated, Shape;
    var q := ProcessOf(s, step.p);
    CopyIsKnown(s, step.p);
    SameAdvances(s.store, AppliedBy(s, step));
    match (step, q)
    case (SendCreate(_, fault), Creating(w)) => CreateAdvances(s.store, w, fault);
    case (SendBegin(_, fault), Beginning(w)) =>
      BeginAdvances(w);
      if Begin(w).Success? { SaveAdvances(s.store, w, Begin(w).value, fault, None); }
    case (SendResume(_, fault), Resuming(w)) =>
      if ResumeReview(w).Success? {
        ResumeAdvances(w);
        SaveAdvances(s.store, w, ResumeReview(w).value, fault, None);
      }
    case (Loop(_, warnings, fault), Looping(w)) => LoopAdvances(s.store, w, warnings, fault);
    case (RunStage(_, env, fault), Executing(w, stage)) => RunStageAdvances(s, step);
    case (Recover(_, fault), Recovering(w, stage, error)) => RecoverAdvances(s.store, w, stage, error, fault);
    case _ =>
  }

  lemma LoopAdvances(st: Store, w: Workflow, warnings: bool, fault: Fault)
    requires StoreInv(st) && Known(st, w) && Ordered(w.stages)
    ensures StoreAdvances(st, LoopOf(st, w, warnings, fault).0, None)
  {
    hide StoreInv, Known, StoreAdvances, Advances, Save, StartStage, Finish, Ordered, AnyFailed;
    SameAdvances(st, None);
    match w.currentStage
    case None =>
      if Finish(w, warnings || AnyFailed(w)).Success? {
        FinishAdvances(w, warnings || AnyFailed(w));
        SaveAdvances(st, w, Finish(w, warnings || AnyFailed(w)).value, fault, None);
      }
    case Some(stage) =>
      if StartStage(w, stage).Success? {
        StartAdvances(w, stage);
        SaveAdvances(st, w, StartStage(w, stage).value, fault, None);
      }
  }

  lemma RunStageAdvances(s: State, step: Step)
    requires var q := ProcessOf(s, step.p);
      step.RunStage? && q.Executing? && StoreInv(s.store) && Known(s.store, q.w) && Ordered(q.w.stages)
    ensures StoreAdvances(s.store, Apply(s, step).store, AppliedBy(s, step))
  {
    hide StoreInv, Known, StoreAdvances, Advances, Save, ApplyOutcome, Execute, Ordered;
    var q := ProcessOf(s, step.p);
    SameAdvances(s.store, AppliedBy(s, step));
    var outcome := Execute(q.stage, q.w, step.env);
    if outcome.Success? && ApplyOutcome(q.w, q.stage, outcome.value).Success? {
      OutcomeAdvances(q.w, q.stage, outcome.value);
      SaveAdvances(s.store, q.w, ApplyOutcome(q.w, q.stage, outcome.value).value, step.fault, AppliedBy(s, step));
    }
  }

  lemma RecoverAdvances(st: Store, w: Workflow, stage: StageName, error: Raised, fault: Fault)
    requires StoreInv(st) && Known(st, w) && Ordered(w.stages)
    ensures StoreAdvances(st, RecoverOf(st, w, stage, error, fault).0, None)
  {
    hide StoreInv, Known, StoreAdvances, Advances, Save, FailStage, Ordered, Truncated;
    SameAdvances(st, None);
    if Fallback(w, stage, error).Success? {
      FailureAdvances(w, stage, Truncated(error.code, 100), Truncated(error.message, 2000), FailureIsTerminal(w, stage));
      SaveAdvances(st, w, Fallback(w, stage, error).value, fault, None);
    }
  }

  // ----- finished stages are history ------------------------------------------------------------

  ghost predicate HistoryStays(st: Store, st': Store) {
    forall id :: id in st.workflows ==>
      && id in st'.workflows && |st'.workflows[id].stages| == |st.workflows[id].stages|
      && st'.workflows[id].configuration == st.workflows[id].configuration && st'.workflows[id].sources == st.workflows[id].sources
      && forall i :: 0 <= i < |st.workflows[id].stages| && Finished(st.workflows[id].stages[i].status) ==>
           st'.workflows[id].stages[i] == st.workflows[id].stages[i]
  }

  /** No step of any caller changes a finished stage, the configuration or the sources of any stored workflow. */
  lemma StepLeavesHistory(s: State, step: Step)
    requires Inv(s)
    ensures HistoryStays(s.store, Apply(s, step).store)
  {
    hide Inv, Apply;
    StepAdvances(s, step);
  }

  lemma {:induction false} RunLeavesHistory(s: State, steps: seq<Step>)
    requires Inv(s)
    ensures HistoryStays(s.store, Run(s, steps).store)
    decreases |steps|
  {
    hide Inv, Apply;
    if steps != [] {
      StepLeavesHistory(s, steps[0]);
      StepKeeps(s, steps[0]);
      RunLeavesHistory(Apply(s, steps[0]), steps[1..]);
    }
  }

  /** Once a stage of a stored workflow is completed, skipped or failed, its record stays as it is,
      whatever any callers do later. */
  lemma FinishedStagesAreForever(steps: seq<Step>, more: seq<Step>, id: Id, i: nat)
    ensures var before, after := Run(INITIAL, steps).store.workflows, Run(Run(INITIAL, steps), more).store.workflows;
      id in before && i < |before[id].stages| && Finished(before[id].stages[i].status) ==>
        id in after && |after[id].stages| == |before[id].stages| && after[id].stages[i] == before[id].stages[i]
  {
    hide Inv, Run;
    InitiallyFine();
    RunKeeps(INITIAL, steps);
    RunLeavesHistory(Run(INITIAL, steps), more);
  }

  lemma InitiallyFine()
    ensures Inv(INITIAL)
  {
  }
}
