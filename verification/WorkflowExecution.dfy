/**
 Who executes what: a caller that begins, loops or executes holds the stored
 workflow itself, so the executor is only called for a running stage, and for
 every stage but the human review at most once.
 */
module WorkflowExecution {
  import opened Wrappers
  import opened CatalogWorkflow
  import opened StageExecutor
  import opened WorkflowShape
  import opened WorkflowStore
  import opened WorkflowProtocol
  import opened WorkflowHistory

  ghost predicate IsStored(st: Store, w: Workflow) { w.id in st.workflows && st.workflows[w.id] == w }

  predicate Working(q: Process) { q.Beginning? || q.Looping? || q.Executing? }

  /** The head of the loop finds its stage not started, but after a resumption, which sets the review running. */
  ghost predicate FreshLoop(w: Workflow) {
    Ordered(w.stages) && w.currentStage.Some? ==>
      w.stages[IndexOf(w.currentStage.value)].status.NotStarted? || w.currentStage.value.HumanReview?
  }

  ghost predicate ExactProcess(st: Store, q: Process) {
    && (Working(q) ==> IsStored(st, q.w))
    && (q.Looping? ==> FreshLoop(q.w))
  }

  ghost predicate Exact(s: State) { forall p :: p in s.processes ==> ExactProcess(s.store, s.processes[p]) }

  // ----- others leave a working caller's workflow alone ------------------------------------------

  lemma SaveChanges(st: Store, w: Workflow, next: Workflow, fault: Fault, id: Id)
    requires StoreInv(st) && Known(st, w) && next.id == w.id && id in st.workflows
    requires id in Save(st, w, next, fault).store.workflows && Save(st, w, next, fault).store.workflows[id] != st.workflows[id]
    ensures id == w.id && IsStored(st, w)
  {
    hide AllShaped;
    if SaveTransaction(st, next, w.version).Some? { SaveReplaces(st, w, next); }
  }

  ghost predicate Holds(q: Process, st: Store, id: Id) {
    (Working(q) || q.Resuming? || q.Recovering?) && q.w.id == id && IsStored(st, q.w)
  }

  /** Only a caller that holds the stored workflow changes it. */
  lemma WriterHeldIt(s: State, step: Step, id: Id)
    requires Inv(s) && id in s.store.workflows
    requires id in Apply(s, step).store.workflows && Apply(s, step).store.workflows[id] != s.store.workflows[id]
    ensures Holds(ProcessOf(s, step.p), s.store, id)
  {
    hide Inv, StoreInv, Known, Advances, Save, Begin, StartStage, ApplyOutcome, ResumeReview, FailStage, Finish, Execute, NewWorkflow,
      Ordered, ReadPageOf, EndReadOf, Truncated, Shape, IsStored, LoopOf, RunStageOf, RecoverOf;
    var q := ProcessOf(s, step.p);
    CopyIsKnown(s, step.p);
    match (step, q)
    case (SendBegin(_, fault), Beginning(w)) =>
      BeginAdvances(w);
      if Begin(w).Success? { SavedBy(s.store, w, Begin(w).value, fault, id, None); }
    case (SendResume(_, fault), Resuming(w)) =>
      if ResumeReview(w).Success? {
        ResumeAdvances(w);
        SavedBy(s.store, w, ResumeReview(w).value, fault, id, None);
      }
    case (Loop(_, warnings, fault), Looping(w)) => LoopHeldIt(s.store, w, warnings, fault, id);
    case (RunStage(_, env, fault), Executing(w, stage)) => RunStageHeldIt(s.store, w, stage, env, fault, id);
    case (Recover(_, fault), Recovering(w, stage, error)) => RecoverHeldIt(s.store, w, stage, error, fault, id);
    case (SendCreate(_, fault), Creating(w)) =>
    case _ =>
  }

  lemma SavedBy(st: Store, w: Workflow, next: Workflow, fault: Fault, id: Id, applied: Applied)
    requires StoreInv(st) && Known(st, w) && Advances(w, next, applied) && id in st.workflows
    ensures var st' := Save(st, w, next, fault).store;
      id in st'.workflows && st'.workflows[id] != st.workflows[id] ==> id == w.id && IsStored(st, w)
  {
    assert next.id == w.id;
    hide StoreInv, Known, Save, IsStored, Advances;
    var st' := Save(st, w, next, fault).store;
    if id in st'.workflows && st'.workflows[id] != st.workflows[id] { SaveChanges(st, w, next, fault, id); }
  }

  lemma LoopHeldIt(st: Store, w: Workflow, warnings: bool, fault: Fault, id: Id)
    requires StoreInv(st) && Known(st, w) && Ordered(w.stages) && id in st.workflows
    ensures var st' := LoopOf(st, w, warnings, fault).0;
      id in st'.workflows && st'.workflows[id] != st.workflows[id] ==> id == w.id && IsStored(st, w)
  {
    hide StoreInv, Known, Advances, Save, StartStage, Finish, Ordered, AnyFailed, IsStored;
    match w.currentStage
    case None =>
      if Finish(w, warnings || AnyFailed(w)).Success? {
        FinishAdvances(w, warnings || AnyFailed(w));
        SavedBy(st, w, Finish(w, warnings || AnyFailed(w)).value, fault, id, None);
      }
    case Some(stage) =>
      if StartStage(w, stage).Success? {
        StartAdvances(w, stage);
        SavedBy(st, w, StartStage(w, stage).value, fault, id, None);
      }
  }

  lemma RunStageHeldIt(st: Store, w: Workflow, stage: StageName, env: Environment, fault: Fault, id: Id)
    requires StoreInv(st) && Known(st, w) && Ordered(w.stages) && id in st.workflows
    ensures var st' := RunStageOf(st, w, stage, env, fault).0;
      id in st'.workflows && st'.workflows[id] != st.workflows[id] ==> id == w.id && IsStored(st, w)
  {
    hide StoreInv, Known, Advances, Save, ApplyOutcome, Execute, Ordered, IsStored;
    var outcome := Execute(stage, w, env);
    if outcome.Success? && ApplyOutcome(w, stage, outcome.value).Success? {
      OutcomeAdvances(w, stage, outcome.value);
      SavedBy(st, w, ApplyOutcome(w, stage, outcome.value).value, fault, id, Some((stage, outcome.value)));
    }
  }

  lemma RecoverHeldIt(st: Store, w: Workflow, stage: StageName, error: Raised, fault: Fault, id: Id)
    requires StoreInv(st) && Known(st, w) && Ordered(w.stages) && id in st.workflows
    ensures var st' := RecoverOf(st, w, stage, error, fault).0;
      id in st'.workflows && st'.workflows[id] != st.workflows[id] ==> id == w.id && IsStored(st, w)
  {
    hide StoreInv, Known, Advances, Save, FailStage, Ordered, Truncated, IsStored;
    if Fallback(w, stage, error).Success? {
      FailureAdvances(w, stage, Truncated(error.code, 100), Truncated(error.message, 2000), FailureIsTerminal(w, stage));
      SavedBy(st, w, Fallback(w, stage, error).value, fault, id, None);
    }
  }

  /** No two callers hold the stored workflow, one of them working on it. */
  lemma HolderIsAlone(s: State, p: nat, o: nat, id: Id)
    requires Inv(s) && p != o && Working(ProcessOf(s, o)) && Holds(ProcessOf(s, o), s.store, id)
    ensures !Holds(ProcessOf(s, p), s.store, id)
  {
    HolderDrives(s, p, id);
    HolderDrives(s, o, id);
    hide StoreInv, ProcessInv, Drives;
  }

  /** A holder drives the workflow, unless it is about to resume it, when it waits for its review. */
  lemma HolderDrives(s: State, p: nat, id: Id)
    requires Inv(s)
    ensures var q := ProcessOf(s, p);
      Holds(q, s.store, id) ==>
        && p in s.processes && id in s.store.workflows && (!q.Resuming? ==> Drives(s.store, q, id))
        && (q.Resuming? <==> s.store.workflows[id].status.WaitingForReview?)
  {
    hide StoreInv, Known, Shape, OneDriver;
    if p in s.processes { assert ProcessInv(s.store, s.processes[p]); }
  }

  lemma OthersStayExact(s: State, step: Step, o: nat)
    requires Inv(s) && o != step.p && o in s.processes && ExactProcess(s.store, s.processes[o])
    ensures o in Apply(s, step).processes && Apply(s, step).processes[o] == s.processes[o]
    ensures ExactProcess(Apply(s, step).store, s.processes[o])
  {
    OtherProcess(s, step, o);
    StepAdvances(s, step);
    hide Inv, Apply, FreshLoop, Advances, Suffix, AppliedBy;
    var q := s.processes[o];
    if Working(q) && !IsStored(Apply(s, step).store, q.w) {
      WriterHeldIt(s, step, q.w.id);
      HolderIsAlone(s, step.p, o, q.w.id);
    }
  }

  lemma OtherProcess(s: State, step: Step, o: nat)
    requires o != step.p && o in s.processes
    ensures o in Apply(s, step).processes && Apply(s, step).processes[o] == s.processes[o]
  {
    hide NewWorkflow, Begin, ResumeReview, Save, LoopOf, RunStageOf, RecoverOf, ReadPageOf, EndReadOf, Ordered, CreateTransaction, Deliver;
  }

  // ----- and what a caller goes on with is what it stored ----------------------------------------

  lemma AcknowledgedIsStored(st: Store, w: Workflow, next: Workflow, fault: Fault)
    ensures Save(st, w, next, fault).acknowledged ==> IsStored(Save(st, w, next, fault).store, next)
  {
  }

  lemma CreatedIsStored(st: Store, w: Workflow, fault: Fault)
    ensures var sent := Deliver(st, CreateTransaction(st, w), fault);
      sent.acknowledged ==> IsStored(sent.store, w)
  {
  }

  lemma NextIsFresh(w: Workflow, next: Workflow, name: StageName)
    requires Ordered(w.stages) && Ordered(next.stages) && next.currentStage == NextStage(w.stages, name)
    requires forall i :: 0 <= i < STAGE_COUNT && i != IndexOf(name) ==> next.stages[i] == w.stages[i]
    ensures FreshLoop(next)
  {
    if next.currentStage.Some? {
      var i :| IndexOf(name) + 1 <= i < |w.stages| && w.stages[i].name == next.currentStage.value && w.stages[i].status.NotStarted?;
      IndexOfStageAt(i);
    }
  }

  lemma BegunIsFresh(w: Workflow)
    requires Shape(w) && w.status.Pending? && Begin(w).Success?
    ensures FreshLoop(Begin(w).value)
  {
    var k: nat :| ShapeAt(w, k);
    hide ValidStage;
  }

  lemma ResumedIsFresh(w: Workflow)
    requires Ordered(w.stages) && ResumeReview(w).Success?
    ensures FreshLoop(ResumeReview(w).value)
  {
    hide ValidWorkflow;
  }

  lemma AppliedIsFresh(w: Workflow, name: StageName, o: Outcome)
    requires Ordered(w.stages) && ApplyOutcome(w, name, o).Success? && !ApplyOutcome(w, name, o).value.status.WaitingForReview?
    ensures FreshLoop(ApplyOutcome(w, name, o).value)
  {
    hide FreshLoop;
    NamedAt(w, name);
    NextIsFresh(w, ApplyOutcome(w, name, o).value, name);
  }

  lemma FailedIsFresh(w: Workflow, name: StageName, code: string, message: string)
    requires Ordered(w.stages) && FailStage(w, name, code, message, false).Success?
    ensures FreshLoop(FailStage(w, name, code, message, false).value)
  {
    hide FreshLoop;
    NamedAt(w, name);
    NextIsFresh(w, FailStage(w, name, code, message, false).value, name);
  }

  /** The process that took a step is exact afterwards, if it works on. */
  lemma OwnIsExact(s: State, step: Step)
    requires Inv(s) && (step.p in s.processes ==> ExactProcess(s.store, s.processes[step.p]))
    ensures ExactProcess(Apply(s, step).store, ProcessOf(Apply(s, step), step.p))
  {
    hide Inv, StoreInv, Known, Save, Begin, StartStage, ApplyOutcome, ResumeReview, Finish, Execute, NewWorkflow, Ordered, ReadPageOf,
      EndReadOf, Fallback, Shape, IsStored, FreshLoop, CreateTransaction, Deliver, AnyFailed, LoopOf, RunStageOf, RecoverOf;
    var q := ProcessOf(s, step.p);
    CopyIsKnown(s, step.p);
    PendingCopy(s, step.p);
    match (step, q)
    case (SendCreate(_, fault), Creating(w)) => CreatedIsStored(s.store, w, fault);
    case (SendBegin(_, fault), Beginning(w)) =>
      if Begin(w).Success? {
        AcknowledgedIsStored(s.store, w, Begin(w).value, fault);
        BegunIsFresh(w);
      }
    case (SendResume(_, fault), Resuming(w)) =>
      if ResumeReview(w).Success? {
        AcknowledgedIsStored(s.store, w, ResumeReview(w).value, fault);
        ResumedIsFresh(w);
      }
    case (Loop(_, warnings, fault), Looping(w)) => LoopedIsExact(s.store, w, warnings, fault);
    case (RunStage(_, env, fault), Executing(w, stage)) => RanIsExact(s.store, w, stage, env, fault);
    case (Recover(_, fault), Recovering(w, stage, error)) => RecoveredIsExact(s.store, w, stage, error, fault);
    case (ReadPage(_, stages), Reading(_, _, _, _, _)) => ReadIsNoWork(s.store, q, stages);
    case (EndRead(_, same, completed), Reading(_, _, _, _, _)) => EndReadIsNoWork(q, same, completed);
    case _ =>
  }

  lemma PendingCopy(s: State, p: nat)
    requires Inv(s)
    ensures ProcessOf(s, p).Beginning? ==> Shape(ProcessOf(s, p).w) && ProcessOf(s, p).w.status.Pending?
  {
    hide StoreInv, OneDriver, Known, Shape;
  }

  lemma LoopedIsExact(st: Store, w: Workflow, warnings: bool, fault: Fault)
    requires Ordered(w.stages) && IsStored(st, w)
    ensures var (st', q') := LoopOf(st, w, warnings, fault);
      && ExactProcess(st', q') && !q'.Looping?
      && (q'.Executing? ==> w.currentStage == Some(q'.stage) && q'.w.id == w.id)
  {
    hide Save, StartStage, Finish, Ordered, IsStored, FreshLoop, AnyFailed;
    if w.currentStage.Some? && StartStage(w, w.currentStage.value).Success? {
      AcknowledgedIsStored(st, w, StartStage(w, w.currentStage.value).value, fault);
      StartIdentity(w, w.currentStage.value);
    }
  }

  lemma RanIsExact(st: Store, w: Workflow, stage: StageName, env: Environment, fault: Fault)
    requires Ordered(w.stages)
    ensures var (st', q') := RunStageOf(st, w, stage, env, fault); ExactProcess(st', q')
  {
    hide Save, ApplyOutcome, Execute, Ordered, IsStored, FreshLoop;
    var outcome := Execute(stage, w, env);
    if outcome.Success? && ApplyOutcome(w, stage, outcome.value).Success? {
      var next := ApplyOutcome(w, stage, outcome.value).value;
      AcknowledgedIsStored(st, w, next, fault);
      if !next.status.WaitingForReview? { AppliedIsFresh(w, stage, outcome.value); }
    }
  }

  lemma RecoveredIsExact(st: Store, w: Workflow, stage: StageName, error: Raised, fault: Fault)
    requires Ordered(w.stages)
    ensures var (st', q') := RecoverOf(st, w, stage, error, fault); ExactProcess(st', q')
  {
    hide Save, FailStage, Ordered, IsStored, FreshLoop, Truncated;
    if Fallback(w, stage, error).Success? {
      AcknowledgedIsStored(st, w, Fallback(w, stage, error).value, fault);
      if !FailureIsTerminal(w, stage) { FailedIsFresh(w, stage, Truncated(error.code, 100), Truncated(error.message, 2000)); }
    }
  }

  lemma RanIsNoExecution(st: Store, w: Workflow, stage: StageName, env: Environment, fault: Fault)
    requires Ordered(w.stages)
    ensures !RunStageOf(st, w, stage, env, fault).1.Executing?
  {
    hide Save, ApplyOutcome, Execute;
  }

  lemma RecoveredIsNoExecution(st: Store, w: Workflow, stage: StageName, error: Raised, fault: Fault)
    requires Ordered(w.stages)
    ensures !RecoverOf(st, w, stage, error, fault).1.Executing?
  {
    hide Save, Fallback;
  }

  lemma ReadIsNoWork(st: Store, q: Process, stages: set<StageName>)
    requires q.Reading?
    ensures !Working(ReadPageOf(st, q, stages))
  {
  }

  lemma EndReadIsNoWork(q: Process, same: bool, completed: bool)
    requires q.Reading?
    ensures !Working(EndReadOf(q, same, completed))
  {
    hide Decode;
  }

  lemma StepKeepsExact(s: State, step: Step)
    requires Inv(s) && Exact(s)
    ensures Exact(Apply(s, step))
  {
    var s' := Apply(s, step);
    OwnIsExact(s, step);
    OnlyOneProcess(s, step);
    hide Inv, Apply, ExactProcess;
    forall p | p in s'.processes ensures ExactProcess(s'.store, s'.processes[p]) {
      if p != step.p { OthersStayExact(s, step, p); }
    }
  }

  lemma OnlyOneProcess(s: State, step: Step)
    ensures forall p :: p in Apply(s, step).processes && p != step.p ==> p in s.processes
  {
    hide NewWorkflow, Begin, ResumeReview, Save, LoopOf, RunStageOf, RecoverOf, ReadPageOf, EndReadOf, Ordered, CreateTransaction, Deliver;
  }

  lemma {:induction false} RunKeepsExact(s: State, steps: seq<Step>)
    requires Inv(s) && Exact(s)
    ensures Inv(Run(s, steps)) && Exact(Run(s, steps))
    decreases |steps|
  {
    hide Inv, Exact, Apply;
    if steps != [] {
      StepKeeps(s, steps[0]);
      StepKeepsExact(s, steps[0]);
      RunKeepsExact(Apply(s, steps[0]), steps[1..]);
    }
  }

  lemma ReachedExact(steps: seq<Step>)
    ensures Inv(Run(INITIAL, steps)) && Exact(Run(INITIAL, steps))
  {
    hide Run;
    InitiallyFine();
    RunKeepsExact(INITIAL, steps);
  }

  /** In every reachable state a caller that begins, loops or executes holds the stored workflow, and
      the stage it executes is running there. */
  lemma WorkersHoldTheStored(steps: seq<Step>, p: nat)
    ensures var s := Run(INITIAL, steps);
      var q := ProcessOf(s, p);
      Working(q) ==>
        && q.w.id in s.store.workflows && s.store.workflows[q.w.id] == q.w
        && (q.Executing? ==> Ordered(q.w.stages) && q.w.stages[IndexOf(q.stage)].status.StageRunning?
                             && q.w.currentStage == Some(q.stage))
  {
    hide Run, StoreInv, OneDriver, Known, Shape, FreshLoop;
    ReachedExact(steps);
    var s := Run(INITIAL, steps);
    CopyIsKnown(s, p);
    if p in s.processes { assert ProcessInv(s.store, s.processes[p]) && ExactProcess(s.store, s.processes[p]); }
  }

  // ----- at most once ----------------------------------------------------------------------------------

  /** The step calls the executor for a stage of a workflow. */
  ghost predicate Hands(s: State, step: Step, id: Id, stage: StageName) {
    var q := ProcessOf(s, step.p);
    step.RunStage? && q.Executing? && q.w.id == id && q.stage == stage
  }

  /** The stage has been started, and nobody is about to execute it. */
  ghost predicate Spent(s: State, id: Id, stage: StageName) {
    && id in s.store.workflows && Ordered(s.store.workflows[id].stages)
    && !s.store.workflows[id].stages[IndexOf(stage)].status.NotStarted?
    && forall p :: p in s.processes && s.processes[p].Executing? && s.processes[p].w.id == id ==> s.processes[p].stage != stage
  }

  /** A caller comes to execute a stage only from the head of the loop. */
  lemma ExecutesFromLoop(s: State, step: Step)
    requires Inv(s) && Exact(s) && ProcessOf(Apply(s, step), step.p).Executing?
    requires ProcessOf(Apply(s, step), step.p) != ProcessOf(s, step.p)
    ensures var q, q' := ProcessOf(s, step.p), ProcessOf(Apply(s, step), step.p);
      && q.Looping? && Ordered(q.w.stages) && q.w.currentStage == Some(q'.stage) && q'.w.id == q.w.id
  {
    CopyIsKnown(s, step.p);
    hide Inv, Exact, StoreInv, Known, NewWorkflow, Begin, ResumeReview, Save, Ordered, CreateTransaction, Deliver, LoopOf, RunStageOf,
      RecoverOf, IsStored;
    if step.Loop? || step.RunStage? || step.Recover? {
      var q := ProcessOf(s, step.p);
      match (step, q)
      case (Loop(_, warnings, fault), Looping(w)) => LoopedIsExact(s.store, w, warnings, fault);
      case (RunStage(_, env, fault), Executing(w, stage)) => RanIsNoExecution(s.store, w, stage, env, fault);
      case (Recover(_, fault), Recovering(w, stage, error)) => RecoveredIsNoExecution(s.store, w, stage, error, fault);
      case _ =>
    } else {
      EarlyIsNoExecution(s, step);
      hide Apply;
    }
  }

  lemma EarlyIsNoExecution(s: State, step: Step)
    requires !step.Loop? && !step.RunStage? && !step.Recover?
    ensures ProcessOf(Apply(s, step), step.p) == ProcessOf(s, step.p) || !ProcessOf(Apply(s, step), step.p).Executing?
  {
    hide NewWorkflow, Begin, ResumeReview, Save, Ordered, CreateTransaction, Deliver, LoopOf, RunStageOf, RecoverOf, ReadPageOf, EndReadOf;
    var q := ProcessOf(s, step.p);
    match (step, q)
    case (ReadPage(_, stages), Reading(_, _, _, _, _)) => ReadIsNoWork(s.store, q, stages);
    case (EndRead(_, same, completed), Reading(_, _, _, _, _)) => EndReadIsNoWork(q, same, completed);
    case _ =>
  }

  lemma StaysStarted(s: State, step: Step, id: Id, stage: StageName)
    requires Inv(s) && id in s.store.workflows && Ordered(s.store.workflows[id].stages)
    requires !s.store.workflows[id].stages[IndexOf(stage)].status.NotStarted?
    ensures var st' := Apply(s, step).store;
      id in st'.workflows && Ordered(st'.workflows[id].stages) && !st'.workflows[id].stages[IndexOf(stage)].status.NotStarted?
  {
    StepAdvances(s, step);
    StepKeeps(s, step);
    StoredOrdered(Apply(s, step), id);
    hide Inv, Apply, AppliedBy, Ordered, Evolves;
    assert StageAdvances(s.store.workflows[id].stages[IndexOf(stage)], Apply(s, step).store.workflows[id].stages[IndexOf(stage)],
                         AppliedBy(s, step));
  }

  lemma StoredOrdered(s: State, id: Id)
    requires Inv(s)
    ensures id in s.store.workflows ==> Ordered(s.store.workflows[id].stages)
  {
    hide Guarded, OneDriver, Phase, Prefix, ValidStage;
    assert id in s.store.workflows ==> Shape(s.store.workflows[id]);
  }

  lemma SpentStays(s: State, step: Step, id: Id, stage: StageName)
    requires Inv(s) && Exact(s) && Spent(s, id, stage) && !stage.HumanReview?
    ensures Spent(Apply(s, step), id, stage)
  {
    var s' := Apply(s, step);
    StaysStarted(s, step, id, stage);
    OnlyOneProcess(s, step);
    forall p | p in s'.processes && s'.processes[p].Executing? && s'.processes[p].w.id == id
      ensures s'.processes[p].stage != stage
    {
      hide Inv, Apply, Ordered;
      if p != step.p {
        OtherProcess(s, step, p);
      } else if s'.processes[p] != ProcessOf(s, p) {
        ExecutesFromLoop(s, step);
        assert ExactProcess(s.store, s.processes[p]);
      }
    }
  }

  lemma {:induction false} SpentForever(s: State, steps: seq<Step>, id: Id, stage: StageName)
    requires Inv(s) && Exact(s) && Spent(s, id, stage) && !stage.HumanReview?
    ensures Spent(Run(s, steps), id, stage)
    decreases |steps|
  {
    hide Inv, Exact, Apply, Spent;
    if steps != [] {
      StepKeeps(s, steps[0]);
      StepKeepsExact(s, steps[0]);
      SpentStays(s, steps[0], id, stage);
      SpentForever(Apply(s, steps[0]), steps[1..], id, stage);
    }
  }

  lemma NotExecutingOn(s: State, step: Step)
    requires step.RunStage?
    ensures ProcessOf(s, step.p).Executing? && Ordered(ProcessOf(s, step.p).w.stages) ==> !ProcessOf(Apply(s, step), step.p).Executing?
  {
    hide Save, ApplyOutcome, Execute, Ordered;
  }

  /** Once handed to the executor, a stage is spent. */
  lemma HandingSpends(s: State, step: Step, id: Id, stage: StageName)
    requires Inv(s) && Exact(s) && Hands(s, step, id, stage)
    ensures Spent(Apply(s, step), id, stage)
  {
    var q, s' := ProcessOf(s, step.p), Apply(s, step);
    CopyIsKnown(s, step.p);
    RunningThere(s, step.p);
    StaysStarted(s, step, id, stage);
    NotExecutingOn(s, step);
    OnlyOneProcess(s, step);
    hide Inv, Apply, Ordered, FreshLoop;
    assert ExactProcess(s.store, s.processes[step.p]);
    forall p | p in s'.processes ensures !(s'.processes[p].Executing? && s'.processes[p].w.id == id) {
      if p != step.p {
        OtherProcess(s, step, p);
        assert ExactProcess(s.store, s.processes[p]);
        HolderIsAlone(s, p, step.p, id);
      }
    }
  }

  lemma RunningThere(s: State, p: nat)
    requires Inv(s) && ProcessOf(s, p).Executing?
    ensures Ordered(ProcessOf(s, p).w.stages) && ProcessOf(s, p).w.stages[IndexOf(ProcessOf(s, p).stage)].status.StageRunning?
  {
    hide StoreInv, OneDriver, Known, Shape;
    CopyIsKnown(s, p);
    assert ProcessInv(s.store, s.processes[p]);
  }

  /** In a run of any callers no stage but the human review is handed to the executor twice. */
  lemma HandedOnce(steps: seq<Step>, i: nat, j: nat, id: Id, stage: StageName)
    requires i < j < |steps|
    ensures Hands(Run(INITIAL, steps[..i]), steps[i], id, stage) && Hands(Run(INITIAL, steps[..j]), steps[j], id, stage) ==>
      stage.HumanReview?
  {
    hide Run, Inv, Exact, Apply;
    var s, s' := Run(INITIAL, steps[..i]), Run(INITIAL, steps[..j]);
    if Hands(s, steps[i], id, stage) && Hands(s', steps[j], id, stage) && !stage.HumanReview? {
      ReachedExact(steps[..i]);
      HandingSpends(s, steps[i], id, stage);
      StepKeeps(s, steps[i]);
      StepKeepsExact(s, steps[i]);
      SpentForever(Apply(s, steps[i]), steps[i + 1..j], id, stage);
      SplitRun(steps, i, j);
    }
  }

  lemma SplitRun(steps: seq<Step>, i: nat, j: nat)
    requires i < j <= |steps|
    ensures Run(INITIAL, steps[..j]) == Run(Apply(Run(INITIAL, steps[..i]), steps[i]), steps[i + 1..j])
  {
    hide Apply;
    assert steps[..j] == steps[..i] + steps[i..j] && steps[i..j][0] == steps[i] && steps[i..j][1..] == steps[i + 1..j];
    RunAppends(INITIAL, steps[..i], steps[i..j]);
  }
}
