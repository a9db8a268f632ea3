/**
 The orchestrator: `Start`, `Resume` and the run loop, each proved to be a run
 of one caller's steps of the protocol. Answers of the executor, the products
 and the sources are parameters.
 */
module WorkflowService {
  import opened Wrappers
  import opened CatalogWorkflow
  import opened StageExecutor
  import opened WorkflowShape
  import opened WorkflowStore
  import opened WorkflowProtocol
  import opened WorkflowRepository
  import opened Sorting

  datatype ServiceError =
    | StoreRefused(error: StoreError) | Illegal(reason: WorkflowError)
    | NotFound | ResumeNotAllowed | ReviewNotCompleted | NoSources | SourceLimitExceeded | ProductMissing

  // ----- the source snapshot ---------------------------------------------------

  function Joined(pages: seq<seq<SourceEntry>>): seq<SourceEntry> {
    if pages == [] then [] else pages[0] + Joined(pages[1..])
  }

  predicate ById(a: SourceEntry, b: SourceEntry) { a.id <= b.id }

  /** What a snapshot of the listed sources is, however they were paged. */
  function Snapshot(listed: seq<SourceEntry>, maximum: nat): Result<seq<SourceEntry>, ServiceError> {
    if |listed| > maximum then Failure(SourceLimitExceeded)
    else if listed == [] then Failure(NoSources)
    else Success(Sort(listed, ById))
  }

  lemma {:induction false} JoinedSplits(pages: seq<seq<SourceEntry>>, k: nat)
    requires k <= |pages|
    ensures Joined(pages) == Joined(pages[..k]) + Joined(pages[k..])
  {
    if k == 0 {
      assert pages[..0] == [] && pages[0..] == pages;
    } else {
      JoinedSplits(pages[1..], k - 1);
      assert pages[..k][1..] == pages[1..][..k - 1] && pages[1..][k - 1..] == pages[k..];
    }
  }

  method SourceSnapshot(pages: seq<seq<SourceEntry>>, maximum: nat) returns (r: Result<seq<SourceEntry>, ServiceError>)
    ensures r == Snapshot(Joined(pages), maximum)
  {
    var sources: seq<SourceEntry> := [];
    var cursor := 0;
    while cursor < |pages|
      invariant cursor <= |pages| && sources == Joined(pages[..cursor]) && |sources| <= maximum
    {
      JoinedSplits(pages[..cursor + 1], cursor);
      assert pages[..cursor + 1][..cursor] == pages[..cursor] && pages[..cursor + 1][cursor..] == [pages[cursor]];
      assert Joined([pages[cursor]]) == pages[cursor];
      sources := sources + pages[cursor];
      if |sources| > maximum {
        JoinedSplits(pages, cursor + 1);
        return Failure(SourceLimitExceeded);
      }
      cursor := cursor + 1;
    }
    assert pages[..cursor] == pages;
    return if sources == [] then Failure(NoSources) else Success(Sort(sources, ById));
  }

  /** Two listings give the same snapshot exactly when they list the same sources with the same
      types, in any order: what `Resume` compares is the sources, not how they were listed. The
      other direction alone needs that a listing names no source twice. */
  lemma SnapshotsCompareSources(a: seq<SourceEntry>, b: seq<SourceEntry>, maximum: nat)
    requires 0 < |a| <= maximum && 0 < |b| <= maximum
    ensures Snapshot(a, maximum) == Snapshot(b, maximum) ==> multiset(a) == multiset(b)
    ensures DistinctSources(a) && multiset(a) == multiset(b) ==> Snapshot(a, maximum) == Snapshot(b, maximum)
  {
    hide Sort;
    SortPermutes(a, ById);
    SortPermutes(b, ById);
    if DistinctSources(a) && multiset(a) == multiset(b) {
      SortSorts(a, ById);
      SortSorts(b, ById);
      SameElements(Sort(a, ById), a);
      SortedIsUnique(Sort(a, ById), Sort(b, ById), ById);
    }
  }

  /** The successor `next` of `w` was saved and acknowledged. */
  ghost predicate Committed(st: Store, w: Workflow, next: Workflow, fault: Fault, st': Store) {
    Save(st, w, next, fault) == Sent(st', true)
  }

  // ----- one store request after another ---------------------------------------

  function Reported(error: StoreError): Raised {
    if error.VersionConflict? then CONFLICT else UNAVAILABLE
  }

  /** The try block: execute, apply, save. A failure is what the except block catches. */
  method TryStage(table: WorkflowTable, w: Workflow, stage: StageName, env: Environment)
    returns (r: Result<Workflow, Raised>)
    requires table.Valid() && Ordered(w.stages)
    modifies table
    ensures table.Valid()
    ensures var (st, q) := RunStageOf(old(table.View()), w, stage, env, old(table.NextFault()));
      && table.View() == st
      && q == match r
              case Failure(e) => Recovering(w, stage, e)
              case Success(next) => if next.status.WaitingForReview? then Stopped else Looping(next)
    ensures r.Success? ==> Execute(stage, w, env).Success?
                           && ApplyOutcome(w, stage, Execute(stage, w, env).value) == Success(r.value)
                           && Committed(old(table.View()), w, r.value, old(table.NextFault()), table.View())
  {
    var outcome := Execute(stage, w, env);
    if outcome.Failure? {
      return Failure(outcome.error);
    }
    var next := ApplyOutcome(w, stage, outcome.value);
    if next.Failure? {
      return Failure(PLAIN_ERROR);
    }
    var saved := table.SaveState(next.value, w.version);
    return if saved.Failure? then Failure(Reported(saved.error)) else Success(next.value);
  }

  /** The except block: record the failure, and stop if it is terminal. */
  method RecordFailure(table: WorkflowTable, w: Workflow, stage: StageName, error: Raised)
    returns (r: Result<Workflow, ServiceError>)
    requires table.Valid() && Ordered(w.stages)
    modifies table
    ensures table.Valid()
    ensures var (st, q) := RecoverOf(old(table.View()), w, stage, error, old(table.NextFault()));
      && table.View() == st
      && q == if r.Success? && !FailureIsTerminal(w, stage) then Looping(r.value) else Stopped
    ensures r.Success? ==>
      && Fallback(w, stage, error) == Success(r.value)
      && Committed(old(table.View()), w, r.value, old(table.NextFault()), table.View())
  {
    var next := Fallback(w, stage, error);
    assert next.Success? ==> Ordered(next.value.stages);
    hide Fallback, ValidWorkflow, FailureIsTerminal, Consistent, Workflows, SaveTransaction, Deliver;
    if next.Failure? {
      return Failure(Illegal(next.error));
    }
    var saved := table.SaveState(next.value, w.version);
    return if saved.Failure? then Failure(StoreRefused(saved.error)) else Success(next.value);
  }

  /** The head of the loop when no stage is left. */
  method FinishRun(table: WorkflowTable, w: Workflow, warnings: bool) returns (r: Result<Workflow, ServiceError>)
    requires table.Valid() && Ordered(w.stages) && w.status.Running? && w.currentStage.None?
    modifies table
    ensures table.Valid()
    ensures (table.View(), Stopped) == LoopOf(old(table.View()), w, warnings, old(table.NextFault()))
    ensures r.Success? ==>
      && Finish(w, warnings || AnyFailed(w)) == Success(r.value)
      && Committed(old(table.View()), w, r.value, old(table.NextFault()), table.View())
  {
    var next := Finish(w, warnings || AnyFailed(w));
    if next.Failure? {
      return Failure(Illegal(next.error));
    }
    var saved := table.SaveState(next.value, w.version);
    return if saved.Failure? then Failure(StoreRefused(saved.error)) else Success(next.value);
  }

  /** The head of the loop when there is a stage: start it unless it runs already. */
  method EnterStage(table: WorkflowTable, w: Workflow, stage: StageName, ghost warnings: bool)
    returns (r: Result<Workflow, ServiceError>)
    requires table.Valid() && Ordered(w.stages) && w.status.Running? && w.currentStage == Some(stage)
    modifies table
    ensures table.Valid()
    ensures var (st, q) := LoopOf(old(table.View()), w, warnings, old(table.NextFault()));
      table.View() == st && q == if r.Success? then Executing(r.value, stage) else Stopped
    ensures r.Success? && r.value != w ==>
      && w.stages[IndexOf(stage)].status.NotStarted? && StartStage(w, stage) == Success(r.value)
      && Committed(old(table.View()), w, r.value, old(table.NextFault()), table.View())
    ensures r.Success? && r.value == w ==> table.View() == old(table.View())
  {
    var status := w.stages[IndexOf(stage)].status;
    if status.NotStarted? {
      var next := StartStage(w, stage);
      if next.Failure? {
        return Failure(Illegal(next.error));
      }
      var saved := table.SaveState(next.value, w.version);
      return if saved.Failure? then Failure(StoreRefused(saved.error)) else Success(next.value);
    }
    return if status.StageRunning? then Success(w) else Failure(ResumeNotAllowed);
  }

  // ----- the run loop ------------------------------------------------------------

  /** The table holds the store of the protocol state. */
  ghost predicate Reflects(table: WorkflowTable, s: State)
    reads table
  {
    table.Valid() && s.store == table.View()
  }

  /** The table, seen as the store of a protocol state in which caller `p` is at `q`. */
  ghost predicate At(table: WorkflowTable, s: State, p: nat, q: Process)
    reads table
  {
    Reflects(table, s) && Inv(s) && ProcessOf(s, p) == q
  }

  ghost predicate Stored(st: Store, w: Workflow) {
    w.id in st.workflows && st.workflows[w.id] == w
  }

  ghost predicate StepsOf(steps: seq<Step>, p: nat) {
    forall i :: 0 <= i < |steps| ==> steps[i].p == p
  }

  lemma SavedIsStored(st: Store, w: Workflow, next: Workflow, fault: Fault, st': Store)
    requires next.id == w.id && Committed(st, w, next, fault, st')
    ensures Stored(st', next)
  {
  }

  lemma ExecutingFacts(s: State, p: nat)
    requires Inv(s) && ProcessOf(s, p).Executing?
    ensures AtStage(ProcessOf(s, p).w, ProcessOf(s, p).stage, StageRunning)
  {
    assert ProcessInv(s.store, ProcessOf(s, p));
  }

  lemma LoopingFacts(s: State, p: nat)
    requires Inv(s) && ProcessOf(s, p).Looping?
    ensures Shape(ProcessOf(s, p).w) && ProcessOf(s, p).w.status.Running?
  {
    assert ProcessInv(s.store, ProcessOf(s, p));
  }

  /** The workflow that a process works on has its stages in order. */
  lemma OrderedCopy(s: State, p: nat)
    requires Inv(s)
    ensures var q := ProcessOf(s, p);
      q.Executing? || q.Recovering? || q.Looping? ==> Ordered(q.w.stages)
  {
  }

  /** A step is a run of one step, and keeps the invariant. */
  lemma OneStep(s: State, step: Step)
    requires Inv(s)
    ensures Run(s, [step]) == Apply(s, step) && Inv(Apply(s, step))
  {
    hide Inv, Apply;
    assert [step][1..] == [];
    StepKeeps(s, step);
  }

  lemma RunStageTaken(s: State, p: nat, env: Environment, fault: Fault)
    requires Inv(s) && ProcessOf(s, p).Executing?
    ensures var q := ProcessOf(s, p);
      var s' := Run(s, [RunStage(p, env, fault)]);
      && Ordered(q.w.stages) && Inv(s')
      && (s'.store, ProcessOf(s', p)) == RunStageOf(s.store, q.w, q.stage, env, fault)
  {
    hide Inv, RunStageOf, Ordered, LoopOf, RecoverOf, Run;
    OrderedCopy(s, p);
    OneStep(s, RunStage(p, env, fault));
  }

  lemma RecoverTaken(s: State, p: nat, fault: Fault)
    requires Inv(s) && ProcessOf(s, p).Recovering?
    ensures var q := ProcessOf(s, p);
      var s' := Run(s, [Recover(p, fault)]);
      && Ordered(q.w.stages) && Inv(s')
      && (s'.store, ProcessOf(s', p)) == RecoverOf(s.store, q.w, q.stage, q.error, fault)
  {
    hide Inv, RunStageOf, Ordered, LoopOf, RecoverOf, Run;
    OrderedCopy(s, p);
    OneStep(s, Recover(p, fault));
  }

  lemma LoopTaken(s: State, p: nat, warnings: bool, fault: Fault)
    requires Inv(s) && ProcessOf(s, p).Looping?
    ensures var q := ProcessOf(s, p);
      var s' := Run(s, [Loop(p, warnings, fault)]);
      && Ordered(q.w.stages) && Inv(s')
      && (s'.store, ProcessOf(s', p)) == LoopOf(s.store, q.w, warnings, fault)
  {
    hide Inv, RunStageOf, Ordered, LoopOf, RecoverOf, Run;
    OrderedCopy(s, p);
    OneStep(s, Loop(p, warnings, fault));
  }

  /** A pass of the loop either ends the run or hands a running workflow with one
      unfinished stage less to the next pass. */
  ghost predicate PassResult(s: State, p: nat, before: Workflow, r: Result<Workflow, ServiceError>) {
    && Inv(s)
    && (r.Failure? ==> ProcessOf(s, p) == Stopped)
    && (r.Success? ==>
      && Stored(s.store, r.value) && r.value.id == before.id && r.value.progress >= before.progress
      && if r.value.status.Running? then
           ProcessOf(s, p) == Looping(r.value) && UnfinishedCount(r.value.stages) < UnfinishedCount(before.stages)
         else ProcessOf(s, p) == Stopped)
  }

  lemma OutcomeResult(st: Store, w: Workflow, stage: StageName, env: Environment, fault: Fault, next: Workflow, st': Store)
    requires AtStage(w, stage, StageRunning)
    requires Execute(stage, w, env).Success? && ApplyOutcome(w, stage, Execute(stage, w, env).value) == Success(next)
    requires Committed(st, w, next, fault, st')
    ensures Stored(st', next) && next.id == w.id && next.progress >= w.progress
    ensures if next.status.Running? then UnfinishedCount(next.stages) < UnfinishedCount(w.stages)
            else next.status.WaitingForReview?
  {
    ApplyOutcomeShape(w, stage, Execute(stage, w, env).value);
    OutcomeIdentity(w, stage, Execute(stage, w, env).value);
    SavedIsStored(st, w, next, fault, st');
  }

  method TryAndRecover(table: WorkflowTable, w: Workflow, stage: StageName, env: Environment, ghost s: State, ghost p: nat)
    returns (r: Result<Workflow, ServiceError>, ghost steps: seq<Step>)
    requires At(table, s, p, Executing(w, stage))
    modifies table
    ensures Reflects(table, Run(s, steps)) && StepsOf(steps, p)
    ensures PassResult(Run(s, steps), p, w, r)
  {
    hide Inv, Run, Execute, ApplyOutcome, Fallback, RunStageOf, RecoverOf, Committed, AtStage, UnfinishedCount,
      ProcessInv, Consistent, Workflows, Ordered;
    ExecutingFacts(s, p);
    ghost var fault, st := table.NextFault(), table.View();
    RunStageTaken(s, p, env, fault);
    ghost var s1 := Run(s, [RunStage(p, env, fault)]);
    var tried := TryStage(table, w, stage, env);
    if tried.Success? {
      OutcomeResult(st, w, stage, env, fault, tried.value, table.View());
      return Success(tried.value), [RunStage(p, env, fault)];
    }
    ghost var lateFault, st1 := table.NextFault(), table.View();
    RecoverTaken(s1, p, lateFault);
    r := RecordFailure(table, w, stage, tried.error);
    steps := [RunStage(p, env, fault)] + [Recover(p, lateFault)];
    RunAppends(s, [RunStage(p, env, fault)], [Recover(p, lateFault)]);
    if r.Success? {
      FailureResult(st1, w, stage, tried.error, lateFault, r.value, table.View());
    }
  }

  lemma FailureResult(st: Store, w: Workflow, stage: StageName, error: Raised, fault: Fault, next: Workflow, st': Store)
    requires AtStage(w, stage, StageRunning)
    requires Fallback(w, stage, error) == Success(next)
    requires Committed(st, w, next, fault, st')
    ensures Stored(st', next) && next.id == w.id && next.progress >= w.progress
    ensures next.status.Running? <==> !FailureIsTerminal(w, stage)
    ensures next.status.Running? ==> UnfinishedCount(next.stages) < UnfinishedCount(w.stages)
  {
    FailStageShape(w, stage, Truncated(error.code, 100), Truncated(error.message, 2000), FailureIsTerminal(w, stage));
    FailedStages(w, stage, Truncated(error.code, 100), Truncated(error.message, 2000), FailureIsTerminal(w, stage));
    SavedIsStored(st, w, next, fault, st');
  }

  method Pass(table: WorkflowTable, w: Workflow, stage: StageName, env: Environment, ghost s: State, ghost p: nat)
    returns (r: Result<Workflow, ServiceError>, ghost steps: seq<Step>, called: bool)
    requires At(table, s, p, Looping(w)) && Stored(s.store, w) && w.currentStage == Some(stage)
    modifies table
    ensures Reflects(table, Run(s, steps)) && StepsOf(steps, p)
    ensures PassResult(Run(s, steps), p, w, r)
    ensures UnfinishedCount(w.stages) > 0 && (r.Success? ==> called)
  {
    hide Inv, Run, StartStage, LoopOf, Committed, UnfinishedCount, Shape, ProcessInv, Consistent, Workflows, Ordered;
    LoopingFacts(s, p);
    RunningMoves(w);
    ghost var fault, st := table.NextFault(), table.View();
    LoopTaken(s, p, false, fault);
    var entered := EnterStage(table, w, stage, false);
    steps := [Loop(p, false, fault)];
    if entered.Failure? {
      return Failure(entered.error), steps, false;
    }
    ghost var s1 := Run(s, steps);
    var tried, more := TryAndRecover(table, entered.value, stage, env, s1, p);
    RunAppends(s, steps, more);
    EnteredStage(w, stage, entered.value);
    return tried, steps + more, true;
  }

  lemma EnteredStage(w: Workflow, stage: StageName, next: Workflow)
    requires Shape(w) && w.status.Running? && w.currentStage == Some(stage)
    requires next == w || (w.stages[IndexOf(stage)].status.NotStarted? && StartStage(w, stage) == Success(next))
    ensures next.id == w.id && next.progress == w.progress && UnfinishedCount(next.stages) == UnfinishedCount(w.stages)
  {
    if next != w {
      StartStageShape(w, stage);
    }
  }

  /** What a run returns: the stored workflow, no longer running and no further back. */
  ghost predicate Settled(st: Store, start: Workflow, w: Workflow) {
    Stored(st, w) && w.id == start.id && !w.status.Running? && w.progress >= start.progress
  }

  /** The run loop of the orchestrator. It ends after at most as many executor calls as the
      workflow has unfinished stages; what it does to the table is a run of one caller of the
      protocol; and a workflow it returns is the stored one and no longer running. */
  method RunLoop(table: WorkflowTable, start: Workflow, answers: nat -> Environment, warnings: bool, ghost s: State, ghost p: nat)
    returns (r: Result<Workflow, ServiceError>, calls: nat, ghost steps: seq<Step>)
    requires At(table, s, p, Looping(start)) && Stored(s.store, start)
    modifies table
    ensures Reflects(table, Run(s, steps)) && StepsOf(steps, p)
    ensures Inv(Run(s, steps)) && ProcessOf(Run(s, steps), p) == Stopped
    ensures calls <= UnfinishedCount(start.stages)
    ensures r.Success? ==> Settled(Run(s, steps).store, start, r.value)
  {
    hide Inv, Run, UnfinishedCount, Shape, ProcessInv, LoopOf, Finish, Committed, Consistent, Workflows, Ordered;
    LoopingFacts(s, p);
    var w := start;
    calls := 0;
    steps := [];
    RunNothing(s);
    while w.status.Running?
      invariant Reflects(table, Run(s, steps)) && StepsOf(steps, p) && Inv(Run(s, steps))
      invariant ProcessOf(Run(s, steps), p) == if w.status.Running? then Looping(w) else Stopped
      invariant Stored(Run(s, steps).store, w) && w.id == start.id && w.progress >= start.progress
      invariant calls + (if w.status.Running? then UnfinishedCount(w.stages) else 0) <= UnfinishedCount(start.stages)
      decreases w.status.Running?, UnfinishedCount(w.stages)
    {
      ghost var now := Run(s, steps);
      if w.currentStage.None? {
        ghost var fault, st := table.NextFault(), table.View();
        LoopTaken(now, p, warnings, fault);
        r := FinishRun(table, w, warnings);
        RunAppends(s, steps, [Loop(p, warnings, fault)]);
        steps := steps + [Loop(p, warnings, fault)];
        LoopingFacts(now, p);
        FinishShape(w, warnings || AnyFailed(w));
        if r.Success? { SavedIsStored(st, w, r.value, fault, table.View()); }
        return;
      }
      var result, more, called := Pass(table, w, w.currentStage.value, answers(calls), now, p);
      RunAppends(s, steps, more);
      steps := steps + more;
      if result.Failure? {
        r, calls := result, if called then calls + 1 else calls;
        return;
      }
      w, calls := result.value, calls + 1;
    }
    r := Success(w);
  }

  lemma RunNothing(s: State)
    ensures Run(s, []) == s
  {
  }

  // ----- start ---------------------------------------------------------------------

  lemma CreateTaken(s: State, p: nat, id: Id, product: Id, version: int, configuration: Configuration, sources: seq<SourceEntry>, fault: Fault)
    requires Inv(s) && ProcessOf(s, p).Idle?
    ensures var created := NewWorkflow(id, product, version, configuration, sources);
      var first := Start(p, id, product, version, configuration, sources);
      created.Failure? ==>
        Inv(Run(s, [first])) && Run(s, [first]).store == s.store
    ensures var created := NewWorkflow(id, product, version, configuration, sources);
      var first := Start(p, id, product, version, configuration, sources);
      created.Success? ==>
        var s' := Run(s, [first, SendCreate(p, fault)]);
        var sent := Deliver(s.store, CreateTransaction(s.store, created.value), fault);
        && Inv(s') && s'.store == sent.store
        && ProcessOf(s', p) == if sent.acknowledged then Beginning(created.value) else Stopped
  {
    var first, second := Start(p, id, product, version, configuration, sources), SendCreate(p, fault);
    hide Inv, NewWorkflow, CreateTransaction, Deliver;
    OneStep(s, first);
    OneStep(Apply(s, first), second);
    RunAppends(s, [first], [second]);
    assert [first] + [second] == [first, second];
    hide Run;
  }

  lemma BeginTaken(s: State, p: nat, fault: Fault)
    requires Inv(s) && ProcessOf(s, p).Beginning?
    ensures var w := ProcessOf(s, p).w;
      var s' := Run(s, [SendBegin(p, fault)]);
      && Begin(w).Success? && Ordered(Begin(w).value.stages) && Begin(w).value.id == w.id && Begin(w).value.product == w.product
      && var sent := Save(s.store, w, Begin(w).value, fault);
      && Inv(s') && s'.store == sent.store
      && ProcessOf(s', p) == if sent.acknowledged then Looping(Begin(w).value) else Stopped
  {
    hide Inv, Shape, Run, LoopOf, RunStageOf, RecoverOf, ValidWorkflow;
    BeginFacts(s, p);
    OneStep(s, SendBegin(p, fault));
  }

  lemma BeginFacts(s: State, p: nat)
    requires Inv(s) && ProcessOf(s, p).Beginning?
    ensures var w := ProcessOf(s, p).w;
      && Begin(w).Success? && Ordered(Begin(w).value.stages)
      && Begin(w).value.id == w.id && Begin(w).value.product == w.product
  {
    hide StoreInv, OneDriver, Known, ShapeAt;
    assert ProcessInv(s.store, ProcessOf(s, p));
    BeginShape(ProcessOf(s, p).w);
  }

  /** `productVersion` is what the product repository answers, `pages` the product's sources. */
  method StartWorkflow(table: WorkflowTable, id: Id, product: Id, productVersion: Option<int>, pages: seq<seq<SourceEntry>>, maximum: nat,
                       configuration: Configuration, answers: nat -> Environment, warnings: bool, ghost s: State, ghost p: nat)
    returns (r: Result<Workflow, ServiceError>, ghost steps: seq<Step>)
    requires At(table, s, p, Idle)
    modifies table
    ensures Reflects(table, Run(s, steps)) && StepsOf(steps, p) && Inv(Run(s, steps))
    ensures r.Success? ==> Stored(Run(s, steps).store, r.value) && r.value.id == id && !r.value.status.Running?
    ensures productVersion.None? ==> r == Failure(ProductMissing) && steps == []
    ensures productVersion.Some? && Snapshot(Joined(pages), maximum).Failure? ==>
      r == Failure(Snapshot(Joined(pages), maximum).error) && steps == []
  {
    hide Inv, Run, NewWorkflow, Begin, Consistent, Workflows, CreateTransaction, SaveTransaction, Deliver, Snapshot, Joined, Terminal, Checked;
    RunNothing(s);
    if productVersion.None? {
      return Failure(ProductMissing), [];
    }
    var sources := SourceSnapshot(pages, maximum);
    if sources.Failure? {
      return Failure(sources.error), [];
    }
    var created := NewWorkflow(id, product, productVersion.value, configuration, sources.value);
    ghost var first := Start(p, id, product, productVersion.value, configuration, sources.value);
    ghost var fault := table.NextFault();
    CreateTaken(s, p, id, product, productVersion.value, configuration, sources.value, fault);
    if created.Failure? {
      return Failure(Illegal(created.error)), [first];
    }
    CreatedFacts(id, product, productVersion.value, configuration, sources.value);
    steps := [first, SendCreate(p, fault)];
    ghost var s1 := Run(s, steps);
    var stored := table.Create(created.value);
    if stored.Failure? {
      return Failure(StoreRefused(stored.error)), steps;
    }
    ghost var fault1, st1 := table.NextFault(), table.View();
    BeginTaken(s1, p, fault1);
    var begun := Begin(created.value);
    RunAppends(s, steps, [SendBegin(p, fault1)]);
    steps := steps + [SendBegin(p, fault1)];
    ghost var s2 := Run(s, steps);
    var saved := table.SaveState(begun.value, created.value.version);
    if saved.Failure? {
      return Failure(StoreRefused(saved.error)), steps;
    }
    SavedIsStored(st1, created.value, begun.value, fault1, table.View());
    var result, calls, more := RunLoop(table, begun.value, answers, warnings, s2, p);
    RunAppends(s, steps, more);
    return result, steps + more;
  }

  lemma CreatedFacts(id: Id, product: Id, productVersion: int, configuration: Configuration, sources: seq<SourceEntry>)
    requires NewWorkflow(id, product, productVersion, configuration, sources).Success?
    ensures var w := NewWorkflow(id, product, productVersion, configuration, sources).value;
      Ordered(w.stages) && w.id == id && w.product == product
  {
  }

  // ----- resume ----------------------------------------------------------------------

  const ALL_STAGES: set<StageName> :=
    {SourceProcessing, ProductClassification, AttributeExtraction, AttributeNormalization, ConflictDetection,
     Completeness, AttributeValidation, AttributeSelection, HumanReview, ReviewedAttributeMaterialization,
     CatalogProjection, PublishingReadiness, CatalogExport, AiEnrichment, ProductIntelligenceScore}

  /** The stored workflow that a resumption may go on with, if there is one. */
  ghost function Resumable(st: Store, product: Id, id: Id, expected: int): Option<Workflow> {
    if id in st.workflows && st.workflows[id].product == product && st.workflows[id].version == expected
       && st.workflows[id].status.WaitingForReview? then Some(st.workflows[id])
    else None
  }

  ghost function ReadSteps(p: nat, product: Id, id: Id, expected: int, same: bool, completed: bool): seq<Step> {
    [Resume(p, product, id, expected), ReadPage(p, ALL_STAGES), EndRead(p, same, completed)]
  }

  lemma EndOfRead(st: Store, product: Id, id: Id, expected: int, same: bool, completed: bool)
    requires StoreInv(st)
    ensures var q := ReadPageOf(st, Reading(product, id, expected, None, map[]), ALL_STAGES);
      if id !in st.workflows then q == Stopped && Resumable(st, product, id, expected).None?
      else
        && q.Reading?
        && EndReadOf(q, same, completed) ==
             if Resumable(st, product, id, expected).Some? && same && completed
             then Resuming(Resumable(st, product, id, expected).value) else Stopped
  {
    var q := ReadPageOf(st, Reading(product, id, expected, None, map[]), ALL_STAGES);
    if id in st.workflows {
      var w := st.workflows[id];
      assert Shape(w);
      assert ValidWorkflow(w) && w.id == id;
      hide Shape, ValidWorkflow;
      DecodeRoundTrip(w, q.read);
    }
  }

  lemma InvStore(s: State)
    requires Inv(s)
    ensures StoreInv(s.store)
  {
  }

  lemma ReadTaken(s: State, p: nat, product: Id, id: Id, expected: int, same: bool, completed: bool)
    requires Inv(s) && ProcessOf(s, p).Idle?
    ensures var s' := Run(s, ReadSteps(p, product, id, expected, same, completed));
      && Inv(s') && s'.store == s.store
      && ProcessOf(s', p) == if Resumable(s.store, product, id, expected).Some? && same && completed
                             then Resuming(Resumable(s.store, product, id, expected).value) else Stopped
  {
    hide Inv, StoreInv, ReadPageOf, EndReadOf, Resumable, Run, LoopOf, RunStageOf, RecoverOf;
    InvStore(s);
    EndOfRead(s.store, product, id, expected, same, completed);
    var steps := ReadSteps(p, product, id, expected, same, completed);
    OneStep(s, steps[0]);
    OneStep(Apply(s, steps[0]), steps[1]);
    OneStep(Apply(Apply(s, steps[0]), steps[1]), steps[2]);
    RunAppends(s, [steps[0]], [steps[1]]);
    RunAppends(s, [steps[0]] + [steps[1]], [steps[2]]);
    assert [steps[0]] + [steps[1]] + [steps[2]] == steps;
  }

  lemma ResumeTaken(s: State, p: nat, fault: Fault)
    requires Inv(s) && ProcessOf(s, p).Resuming? && Stored(s.store, ProcessOf(s, p).w)
    ensures var w := ProcessOf(s, p).w;
      var s' := Run(s, [SendResume(p, fault)]);
      && Ordered(w.stages) && ResumeReview(w).Success? && ResumeReview(w).value.id == w.id && Ordered(ResumeReview(w).value.stages)
      && var sent := Save(s.store, w, ResumeReview(w).value, fault);
      && Inv(s') && s'.store == sent.store
      && ProcessOf(s', p) == if sent.acknowledged then Looping(ResumeReview(w).value) else Stopped
  {
    hide Inv, ValidWorkflow, Save, ResumeReview, Shape, Run, LoopOf, RunStageOf, RecoverOf;
    ResumeReviewFacts(s, p);
    OneStep(s, SendResume(p, fault));
  }

  lemma ResumeReviewFacts(s: State, p: nat)
    requires Inv(s) && ProcessOf(s, p).Resuming? && Stored(s.store, ProcessOf(s, p).w)
    ensures var w := ProcessOf(s, p).w;
      && Ordered(w.stages) && ResumeReview(w).Success?
      && var next := ResumeReview(w).value;
      && Ordered(next.stages) && next.id == w.id && next.progress == w.progress && next.version == w.version + 1
  {
    hide ResumeReview, ShapeAt, Known;
    var w := ProcessOf(s, p).w;
    assert ProcessInv(s.store, ProcessOf(s, p));
    assert Shape(w);
    ResumeReviewShape(w);
  }

  /** What `resume` answers before it changes anything, if it goes on at all. */
  ghost function Refusal(st: Store, product: Id, id: Id, expected: int, currentVersion: Option<int>, listed: seq<SourceEntry>,
                         maximum: nat, reviewCompleted: bool): Option<ServiceError> {
    if id !in st.workflows || st.workflows[id].product != product then Some(NotFound)
    else
      var w := st.workflows[id];
      if w.version != expected then Some(StoreRefused(VersionConflict))
      else if !w.status.WaitingForReview? then Some(ResumeNotAllowed)
      else if Snapshot(listed, maximum).Failure? then Some(Snapshot(listed, maximum).error)
      else if Snapshot(listed, maximum).value != w.sources then Some(ResumeNotAllowed)
      else if currentVersion != Some(w.productVersion) then Some(ResumeNotAllowed)
      else if !reviewCompleted then Some(ReviewNotCompleted)
      else None
  }

  method ResumeWorkflow(table: WorkflowTable, product: Id, id: Id, expected: int, sizes: seq<nat>, currentVersion: Option<int>,
                        pages: seq<seq<SourceEntry>>, maximum: nat, reviewCompleted: bool, answers: nat -> Environment, warnings: bool,
                        ghost s: State, ghost p: nat)
    returns (r: Result<Workflow, ServiceError>, ghost steps: seq<Step>)
    requires At(table, s, p, Idle)
    modifies table
    ensures Reflects(table, Run(s, steps)) && StepsOf(steps, p) && Inv(Run(s, steps))
    ensures var refusal := Refusal(s.store, product, id, expected, currentVersion, Joined(pages), maximum, reviewCompleted);
      refusal.Some? ==> r == Failure(refusal.value) && Run(s, steps).store == s.store
    ensures r.Success? ==>
      && id in s.store.workflows && s.store.workflows[id].status.WaitingForReview?
      && Settled(Run(s, steps).store, s.store.workflows[id], r.value)
  {
    hide Inv, StoreInv, Run, Consistent, Workflows, SaveTransaction, Deliver, ValidWorkflow, Shape, ReadSteps, ResumeReview,
      Joined, Snapshot;
    InvStore(s);
    if id in s.store.workflows { ReadValid(s.store, id); }
    var read := table.GetById(id, sizes);
    assert read.Success?;
    steps := ReadSteps(p, product, id, expected, false, false);
    ReadTaken(s, p, product, id, expected, false, false);
    ReadStepsBy(p, product, id, expected, false, false);
    if read.value.None? || read.value.value.product != product {
      return Failure(NotFound), steps;
    }
    var w := read.value.value;
    if w.version != expected {
      return Failure(StoreRefused(VersionConflict)), steps;
    }
    if !w.status.WaitingForReview? {
      return Failure(ResumeNotAllowed), steps;
    }
    var sources := SourceSnapshot(pages, maximum);
    if sources.Failure? {
      return Failure(sources.error), steps;
    }
    if sources.value != w.sources {
      return Failure(ResumeNotAllowed), steps;
    }
    if currentVersion != Some(w.productVersion) {
      return Failure(ResumeNotAllowed), steps;
    }
    if !reviewCompleted {
      return Failure(ReviewNotCompleted), steps;
    }
    steps := ReadSteps(p, product, id, expected, true, true);
    ReadTaken(s, p, product, id, expected, true, true);
    ReadStepsBy(p, product, id, expected, true, true);
    ghost var s1, fault := Run(s, steps), table.NextFault();
    ResumeTaken(s1, p, fault);
    ResumeReviewFacts(s1, p);
    var next := ResumeReview(w);
    RunAppends(s, steps, [SendResume(p, fault)]);
    steps := steps + [SendResume(p, fault)];
    ghost var s2 := Run(s, steps);
    var saved := table.SaveState(next.value, w.version);
    if saved.Failure? {
      return Failure(StoreRefused(saved.error)), steps;
    }
    SavedIsStored(s1.store, w, next.value, fault, table.View());
    var result, calls, more := RunLoop(table, next.value, answers, warnings, s2, p);
    RunAppends(s, steps, more);
    return result, steps + more;
  }

  lemma ReadStepsBy(p: nat, product: Id, id: Id, expected: int, same: bool, completed: bool)
    ensures StepsOf(ReadSteps(p, product, id, expected, same, completed), p)
  {
  }

  lemma ReadValid(st: Store, id: Id)
    requires StoreInv(st) && id in st.workflows
    ensures Shape(st.workflows[id]) && ValidWorkflow(st.workflows[id]) && st.workflows[id].id == id
  {
  }
}
