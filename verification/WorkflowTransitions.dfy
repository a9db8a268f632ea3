/**
 What a step stores: the transition that its caller's phase calls for, of the
 stored workflow, and nothing else.
 */
module WorkflowTransitions {
  import opened Wrappers
  import opened CatalogWorkflow
  import opened StageExecutor
  import opened WorkflowShape
  import opened WorkflowStore
  import opened WorkflowProtocol
  import opened WorkflowExecution

  function Accepted(r: Result<Workflow, WorkflowError>): Option<Workflow> {
    if r.Success? then Some(r.value) else None
  }

  /** What a step asks the store to put in place of the workflow its caller holds. */
  function Written(s: State, step: Step): Option<Workflow> {
    match (step, ProcessOf(s, step.p))
    case (SendBegin(_, _), Beginning(w)) => Accepted(Begin(w))
    case (SendResume(_, _), Resuming(w)) => if Ordered(w.stages) then Accepted(ResumeReview(w)) else None
    case (Loop(_, warnings, _), Looping(w)) =>
      if !Ordered(w.stages) then None
      else if w.currentStage.None? then Accepted(Finish(w, warnings || AnyFailed(w)))
      else Accepted(StartStage(w, w.currentStage.value))
    case (RunStage(_, env, _), Executing(w, stage)) =>
      if Ordered(w.stages) && Execute(stage, w, env).Success? then Accepted(ApplyOutcome(w, stage, Execute(stage, w, env).value)) else None
    case (Recover(_, _), Recovering(w, stage, error)) =>
      if Ordered(w.stages) then Accepted(Fallback(w, stage, error)) else None
    case _ => None
  }

  lemma SavedIsNext(st: Store, w: Workflow, next: Workflow, fault: Fault, id: Id)
    ensures var st' := Save(st, w, next, fault).store;
      && (id in st'.workflows ==> id in st.workflows)
      && (id in st'.workflows && st'.workflows[id] != st.workflows[id] ==> st'.workflows[id] == next)
  {
  }

  lemma LoopWrites(st: Store, w: Workflow, warnings: bool, fault: Fault, id: Id)
    requires Ordered(w.stages)
    ensures var st' := LoopOf(st, w, warnings, fault).0;
      && (id in st'.workflows ==> id in st.workflows)
      && (id in st'.workflows && st'.workflows[id] != st.workflows[id] ==>
            Some(st'.workflows[id]) == if w.currentStage.None? then Accepted(Finish(w, warnings || AnyFailed(w)))
                                       else Accepted(StartStage(w, w.currentStage.value)))
  {
    hide Save, StartStage, Finish, Ordered, AnyFailed;
    if w.currentStage.None? {
      if Finish(w, warnings || AnyFailed(w)).Success? {
        SavedIsNext(st, w, Finish(w, warnings || AnyFailed(w)).value, fault, id);
      }
    } else if StartStage(w, w.currentStage.value).Success? {
      SavedIsNext(st, w, StartStage(w, w.currentStage.value).value, fault, id);
    }
  }

  lemma RunStageWrites(st: Store, w: Workflow, stage: StageName, env: Environment, fault: Fault, id: Id)
    requires Ordered(w.stages)
    ensures var st' := RunStageOf(st, w, stage, env, fault).0;
      && (id in st'.workflows ==> id in st.workflows)
      && (id in st'.workflows && st'.workflows[id] != st.workflows[id] ==>
            && Execute(stage, w, env).Success?
            && Some(st'.workflows[id]) == Accepted(ApplyOutcome(w, stage, Execute(stage, w, env).value)))
  {
    hide Save, ApplyOutcome, Execute, Ordered;
    var outcome := Execute(stage, w, env);
    if outcome.Success? && ApplyOutcome(w, stage, outcome.value).Success? {
      SavedIsNext(st, w, ApplyOutcome(w, stage, outcome.value).value, fault, id);
    }
  }

  lemma RecoverWrites(st: Store, w: Workflow, stage: StageName, error: Raised, fault: Fault, id: Id)
    requires Ordered(w.stages)
    ensures var st' := RecoverOf(st, w, stage, error, fault).0;
      && (id in st'.workflows ==> id in st.workflows)
      && (id in st'.workflows && st'.workflows[id] != st.workflows[id] ==> Some(st'.workflows[id]) == Accepted(Fallback(w, stage, error)))
  {
    hide Save, Fallback, Ordered;
    if Fallback(w, stage, error).Success? { SavedIsNext(st, w, Fallback(w, stage, error).value, fault, id); }
  }

  /** A workflow that a step changes was held by its caller as it was stored, and is what the caller
      writes; one that is new is the caller's new one. */
  lemma ChangesAreWritten(s: State, step: Step, id: Id)
    requires Inv(s) && id in Apply(s, step).store.workflows
    ensures var q, next := ProcessOf(s, step.p), Apply(s, step).store.workflows[id];
      if id in s.store.workflows then
        next != s.store.workflows[id] ==> Holds(q, s.store, id) && q.w == s.store.workflows[id] && Written(s, step) == Some(next)
      else q.Creating? && next == q.w
  {
    if id in s.store.workflows && Apply(s, step).store.workflows[id] != s.store.workflows[id] { WriterHeldIt(s, step, id); }
    WritesAreNext(s, step, id);
    hide Inv, Apply, Written, ProcessOf;
  }

  lemma WritesAreNext(s: State, step: Step, id: Id)
    requires id in Apply(s, step).store.workflows
    ensures var q, next := ProcessOf(s, step.p), Apply(s, step).store.workflows[id];
      if id in s.store.workflows then next != s.store.workflows[id] ==> q.Creating? || Written(s, step) == Some(next)
      else q.Creating? && next == q.w
  {
    hide Save, Begin, StartStage, ApplyOutcome, ResumeReview, Fallback, Finish, Execute, NewWorkflow, AnyFailed,
      Ordered, ReadPageOf, EndReadOf, LoopOf, RunStageOf, RecoverOf;
    var q := ProcessOf(s, step.p);
    match (step, q)
    case (SendBegin(_, fault), Beginning(w)) =>
      if Begin(w).Success? { SavedIsNext(s.store, w, Begin(w).value, fault, id); }
    case (SendResume(_, fault), Resuming(w)) =>
      if Ordered(w.stages) && ResumeReview(w).Success? { SavedIsNext(s.store, w, ResumeReview(w).value, fault, id); }
    case (Loop(_, warnings, fault), Looping(w)) =>
      if Ordered(w.stages) { LoopWrites(s.store, w, warnings, fault, id); }
    case (RunStage(_, env, fault), Executing(w, stage)) =>
      if Ordered(w.stages) { RunStageWrites(s.store, w, stage, env, fault, id); }
    case (Recover(_, fault), Recovering(w, stage, error)) =>
      if Ordered(w.stages) { RecoverWrites(s.store, w, stage, error, fault, id); }
    case _ =>
  }

  lemma HeldIs(q: Process, st: Store, id: Id)
    requires Holds(q, st, id)
    ensures q.w.id == id
  {
  }

  lemma NewIsUnmarked(s: State, p: nat)
    requires Inv(s) && ProcessOf(s, p).Creating?
    ensures var w := ProcessOf(s, p).w;
      Unmarked(w) && w.status.Pending? && Suffix(w, 0)
  {
    hide StoreInv, OneDriver, Prefix, ValidStage;
    assert ProcessInv(s.store, s.processes[p]);
    var w := ProcessOf(s, p).w;
    var k: nat :| ShapeAt(w, k);
  }

  // ----- the step that set what is stored -----------------------------------------------------------

  lemma LastStep(steps: seq<Step>)
    requires steps != []
    ensures Run(INITIAL, steps) == Apply(Run(INITIAL, steps[..|steps| - 1]), steps[|steps| - 1])
  {
    hide Apply;
    var n := |steps| - 1;
    assert steps == steps[..n] + [steps[n]] && [steps[n]][1..] == [];
    RunAppends(INITIAL, steps[..n], [steps[n]]);
  }

  /** Step `j` made what is seen of the workflow what it is. */
  ghost predicate Sets<T>(steps: seq<Step>, j: nat, id: Id, seen: Workflow -> T, value: T)
    requires j < |steps|
  {
    var before, after := Run(INITIAL, steps[..j]).store.workflows, Apply(Run(INITIAL, steps[..j]), steps[j]).store.workflows;
    id in after && seen(after[id]) == value && (id in before ==> seen(before[id]) != value)
  }

  /** Whatever is seen of a stored workflow, some step made it so. */
  lemma {:induction false} LastChange<T>(steps: seq<Step>, id: Id, seen: Workflow -> T)
    requires id in Run(INITIAL, steps).store.workflows
    ensures exists j: nat :: j < |steps| && Sets(steps, j, id, seen, seen(Run(INITIAL, steps).store.workflows[id]))
    decreases |steps|
  {
    hide Apply;
    if steps != [] {
      var n := |steps| - 1;
      LastStep(steps);
      hide Run, Sets;
      var before, value := Run(INITIAL, steps[..n]).store.workflows, seen(Run(INITIAL, steps).store.workflows[id]);
      if id in before && seen(before[id]) == value {
        LastChange(steps[..n], id, seen);
        var j: nat :| j < n && Sets(steps[..n], j, id, seen, value);
        SetsLonger(steps, n, j, id, seen, value);
      } else {
        SetsLast(steps, id, seen);
      }
    }
  }

  lemma SetsLonger<T>(steps: seq<Step>, n: nat, j: nat, id: Id, seen: Workflow -> T, value: T)
    requires j < n <= |steps| && Sets(steps[..n], j, id, seen, value)
    ensures Sets(steps, j, id, seen, value)
  {
    hide Run, Apply;
    assert steps[..n][..j] == steps[..j];
  }

  lemma SetsLast<T>(steps: seq<Step>, id: Id, seen: Workflow -> T)
    requires steps != [] && id in Run(INITIAL, steps).store.workflows
    requires var before := Run(INITIAL, steps[..|steps| - 1]).store.workflows;
      id in before ==> seen(before[id]) != seen(Run(INITIAL, steps).store.workflows[id])
    ensures Sets(steps, |steps| - 1, id, seen, seen(Run(INITIAL, steps).store.workflows[id]))
  {
    LastStep(steps);
    hide Run, Apply;
  }

  function StageOf(i: nat): Workflow -> Option<Stage> {
    (w: Workflow) => if i < |w.stages| then Some(w.stages[i]) else None
  }

  function ReferenceOf(r: Reference): Workflow -> Option<Id> {
    (w: Workflow) => if r in w.references then Some(w.references[r]) else None
  }
}
