/**
 Any number of callers of `start` and `resume` against one store, as a state
 machine: a step is one request to the store, or local work between two of
 them, and any interleaving of the callers' steps is a run.
 */
module WorkflowProtocol {
  import opened Wrappers
  import opened CatalogWorkflow
  import opened StageExecutor
  import opened WorkflowShape
  import opened WorkflowStore

  const CONFLICT := Raised("WORKFLOW_VERSION_CONFLICT", "The catalog workflow was modified by another request.")
  const UNAVAILABLE := Raised("CATALOG_WORKFLOW_STORAGE_UNAVAILABLE", "Catalog workflow storage is temporarily unavailable.")

  /** Where a caller is, with its local workflow. */
  datatype Process =
    | Idle
    | Creating(w: Workflow)                               // about to store a new workflow
    | Beginning(w: Workflow)                              // stored; about to save the running state
    | Reading(product: Id, id: Id, expected: int, meta: Option<Workflow>, read: map<StageName, Stage>)
    | Resuming(w: Workflow)                               // read and checked; about to save the resumption
    | Looping(w: Workflow)                                // at the head of the run loop
    | Executing(w: Workflow, stage: StageName)            // inside the try block
    | Recovering(w: Workflow, stage: StageName, error: Raised)  // inside the except block
    | Stopped                                             // returned or raised

  datatype State = State(store: Store, processes: map<nat, Process>)

  datatype Step =
    | Start(p: nat, id: Id, product: Id, productVersion: int, configuration: Configuration, sources: seq<SourceEntry>)
    | SendCreate(p: nat, fault: Fault)
    | SendBegin(p: nat, fault: Fault)
    | Resume(p: nat, product: Id, id: Id, expected: int)
    | ReadPage(p: nat, stages: set<StageName>)
    | EndRead(p: nat, sameInputs: bool, reviewCompleted: bool)
    | SendResume(p: nat, fault: Fault)
    | Loop(p: nat, warnings: bool, fault: Fault)
    | RunStage(p: nat, env: Environment, fault: Fault)
    | Recover(p: nat, fault: Fault)

  function ProcessOf(s: State, p: nat): Process {
    if p in s.processes then s.processes[p] else Idle
  }

  /** The state after process `p` has become `q` and the store is `st`. */
  function Moved(s: State, p: nat, st: Store, q: Process): State {
    State(st, s.processes[p := q])
  }

  function Save(st: Store, w: Workflow, next: Workflow, fault: Fault): Sent {
    Deliver(st, SaveTransaction(st, next, w.version), fault)
  }

  predicate AnyFailed(w: Workflow) {
    exists i :: 0 <= i < |w.stages| && w.stages[i].status.StageFailed?
  }

  function Truncated(text: string, maximum: nat): string {
    if |text| <= maximum then text else text[..maximum]
  }

  /** The pages of a read are any sets of stage records; META sorts first, so the first page has it. */
  function ReadPageOf(st: Store, q: Process, stages: set<StageName>): Process
    requires q.Reading?
  {
    if q.id !in st.workflows || !ValidWorkflow(st.workflows[q.id]) then Stopped
    else
      var w := st.workflows[q.id];
      q.(meta := if q.meta.Some? then q.meta else Some(MetaOf(w)),
         read := q.read + map n | n in stages :: w.stages[IndexOf(n)])
  }

  function EndReadOf(q: Process, sameInputs: bool, reviewCompleted: bool): Process
    requires q.Reading?
  {
    if q.meta.None? then Stopped
    else
      match Decode(q.meta.value, q.read)
      case Failure(_) => Stopped
      case Success(w) =>
        if w.product != q.product || w.version != q.expected || !w.status.WaitingForReview?
           || !sameInputs || !reviewCompleted then Stopped
        else Resuming(w)
  }

  /** One pass of the loop up to the try block. */
  function LoopOf(st: Store, w: Workflow, warnings: bool, fault: Fault): (Store, Process)
    requires Ordered(w.stages)
  {
    if !w.status.Running? then (st, Stopped)
    else match w.currentStage
      case None =>
        (match Finish(w, warnings || AnyFailed(w))
         case Failure(_) => (st, Stopped)
         case Success(next) => (Save(st, w, next, fault).store, Stopped))
      case Some(stage) =>
        if w.stages[IndexOf(stage)].status.NotStarted? then
          (match StartStage(w, stage)
           case Failure(_) => (st, Stopped)
           case Success(next) =>
             var sent := Save(st, w, next, fault);
             (sent.store, if sent.acknowledged then Executing(next, stage) else Stopped))
        else if w.stages[IndexOf(stage)].status.StageRunning? then (st, Executing(w, stage))
        else (st, Stopped)
  }

  function RunStageOf(st: Store, w: Workflow, stage: StageName, env: Environment, fault: Fault): (Store, Process)
    requires Ordered(w.stages)
  {
    match Execute(stage, w, env)
    case Failure(e) => (st, Recovering(w, stage, e))
    case Success(outcome) =>
      match ApplyOutcome(w, stage, outcome)
      case Failure(_) => (st, Recovering(w, stage, PLAIN_ERROR))
      case Success(next) =>
        var sent := Save(st, w, next, fault);
        if sent.acknowledged then (sent.store, if next.status.WaitingForReview? then Stopped else Looping(next))
        else (sent.store, Recovering(w, stage, if fault.NoFault? then CONFLICT else UNAVAILABLE))
  }

  predicate FailureIsTerminal(w: Workflow, stage: StageName) {
    !Optional(stage) || w.configuration.failOnOptionalStageError
  }

  /** The failed workflow that the except block records for an error. */
  function Fallback(w: Workflow, stage: StageName, error: Raised): Result<Workflow, WorkflowError>
    requires Ordered(w.stages)
  {
    FailStage(w, stage, Truncated(error.code, 100), Truncated(error.message, 2000), FailureIsTerminal(w, stage))
  }

  function RecoverOf(st: Store, w: Workflow, stage: StageName, error: Raised, fault: Fault): (Store, Process)
    requires Ordered(w.stages)
  {
    match Fallback(w, stage, error)
    case Failure(_) => (st, Stopped)
    case Success(next) =>
      var sent := Save(st, w, next, fault);
      (sent.store, if sent.acknowledged && !FailureIsTerminal(w, stage) then Looping(next) else Stopped)
  }

  /** A step that its process is not ready for changes nothing. */
  function Apply(s: State, step: Step): State {
    var p := step.p;
    var q := ProcessOf(s, p);
    match (step, q)
    case (Start(_, id, product, version, configuration, sources), Idle) =>
      (match NewWorkflow(id, product, version, configuration, sources)
       case Failure(_) => Moved(s, p, s.store, Stopped)
       case Success(w) => Moved(s, p, s.store, Creating(w)))
    case (SendCreate(_, fault), Creating(w)) =>
      var sent := Deliver(s.store, CreateTransaction(s.store, w), fault);
      Moved(s, p, sent.store, if sent.acknowledged then Beginning(w) else Stopped)
    case (SendBegin(_, fault), Beginning(w)) =>
      (match Begin(w)
       case Failure(_) => Moved(s, p, s.store, Stopped)
       case Success(next) =>
         var sent := Save(s.store, w, next, fault);
         Moved(s, p, sent.store, if sent.acknowledged then Looping(next) else Stopped))
    case (Resume(_, product, id, expected), Idle) =>
      Moved(s, p, s.store, Reading(product, id, expected, None, map[]))
    case (ReadPage(_, stages), Reading(_, _, _, _, _)) => Moved(s, p, s.store, ReadPageOf(s.store, q, stages))
    case (EndRead(_, same, completed), Reading(_, _, _, _, _)) =>
      Moved(s, p, s.store, EndReadOf(q, same, completed))
    case (SendResume(_, fault), Resuming(w)) =>
      if !Ordered(w.stages) then s else
      (match ResumeReview(w)
       case Failure(_) => Moved(s, p, s.store, Stopped)
       case Success(next) =>
         var sent := Save(s.store, w, next, fault);
         Moved(s, p, sent.store, if sent.acknowledged then Looping(next) else Stopped))
    case (Loop(_, warnings, fault), Looping(w)) =>
      if !Ordered(w.stages) then s else
      var (st, r) := LoopOf(s.store, w, warnings, fault);
      Moved(s, p, st, r)
    case (RunStage(_, env, fault), Executing(w, stage)) =>
      if !Ordered(w.stages) then s else
      var (st, r) := RunStageOf(s.store, w, stage, env, fault);
      Moved(s, p, st, r)
    case (Recover(_, fault), Recovering(w, stage, error)) =>
      if !Ordered(w.stages) then s else
      var (st, r) := RecoverOf(s.store, w, stage, error, fault);
      Moved(s, p, st, r)
    case _ => s
  }

  const INITIAL := State(Store(map[], map[]), map[])

  function Run(s: State, steps: seq<Step>): State
    decreases |steps|
  {
    if steps == [] then s else Run(Apply(s, steps[0]), steps[1..])
  }

  lemma {:induction false} RunAppends(s: State, steps: seq<Step>, more: seq<Step>)
    ensures Run(s, steps + more) == Run(Run(s, steps), more)
    decreases |steps|
  {
    hide Apply;
    if steps == [] {
      assert steps + more == more;
    } else {
      assert (steps + more)[1..] == steps[1..] + more;
      RunAppends(Apply(s, steps[0]), steps[1..], more);
    }
  }

  // ----- the invariant -------------------------------------------------------

  ghost predicate ProcessInv(st: Store, q: Process) {
    match q
    case Creating(w) => Shape(w) && w.status.Pending? && w.version == 1 && Unmarked(w)
    case Beginning(w) => Known(st, w) && Shape(w) && w.status.Pending?
    case Reading(_, id, _, meta, read) =>
      && (meta.None? ==> read == map[])
      && (meta.Some? ==>
        && id in st.workflows && meta.value.id == id
        && meta.value.version <= st.workflows[id].version
        && (meta.value.version == st.workflows[id].version ==>
              meta.value == MetaOf(st.workflows[id])
              && Ordered(st.workflows[id].stages)
              && forall n :: n in read ==> read[n] == st.workflows[id].stages[IndexOf(n)]))
    case Resuming(w) => Known(st, w) && ValidWorkflow(w) && w.status.WaitingForReview?
    case Looping(w) => Known(st, w) && Shape(w) && (w.status.Running?)
    case Executing(w, stage) => Known(st, w) && AtStage(w, stage, StageRunning)
    case Recovering(w, stage, _) => Known(st, w) && AtStage(w, stage, StageRunning)
    case _ => true
  }

  /** A caller that is moving a workflow on, with a copy as new as the store. */
  ghost predicate Drives(st: Store, q: Process, id: Id) {
    && (q.Beginning? || q.Looping? || q.Executing? || q.Recovering?)
    && q.w.id == id && id in st.workflows && q.w.version == st.workflows[id].version
  }

  ghost predicate OneDriver(s: State) {
    forall p, q, id ::
      (p in s.processes && q in s.processes && p != q && Drives(s.store, s.processes[p], id))
      ==> !Drives(s.store, s.processes[q], id)
  }

  ghost predicate Inv(s: State) {
    && StoreInv(s.store)
    && (forall p :: p in s.processes ==> ProcessInv(s.store, s.processes[p]))
    && OneDriver(s)
  }

  // ----- every step keeps the invariant ----------------------------------------

  lemma ProcessPersists(st: Store, st': Store, q: Process)
    requires Evolves(st, st') && ProcessInv(st, q)
    ensures ProcessInv(st', q)
    ensures forall id :: Drives(st', q, id) ==> Drives(st, q, id) && st'.workflows[id] == st.workflows[id]
  {
  }

  ghost predicate NewDriverIsAlone(s: State, p: nat, st: Store, q: Process) {
    forall id :: Drives(st, q, id) ==>
      || id !in s.store.workflows
      || st.workflows[id] != s.store.workflows[id]
      || (p in s.processes && Drives(s.store, s.processes[p], id))
  }

  lemma MoveKeeps(s: State, p: nat, st: Store, q: Process)
    requires Inv(s) && StoreInv(st) && Evolves(s.store, st) && ProcessInv(st, q) && NewDriverIsAlone(s, p, st, q)
    ensures Inv(Moved(s, p, st, q)) && Evolves(s.store, Moved(s, p, st, q).store)
  {
    hide StoreInv, ProcessInv, Evolves;
    var s' := Moved(s, p, st, q);
    forall o | o in s.processes && o != p
      ensures s'.processes[o] == s.processes[o] && ProcessInv(st, s.processes[o])
      ensures forall id :: Drives(st, s.processes[o], id) ==>
        Drives(s.store, s.processes[o], id) && st.workflows[id] == s.store.workflows[id]
    {
      ProcessPersists(s.store, st, s.processes[o]);
    }
    assert OneDriver(s');
  }

  /** A step that does not touch the store and lets no new copy drive. */
  lemma LocalMoveKeeps(s: State, p: nat, q: Process)
    requires Inv(s) && ProcessInv(s.store, q)
    requires forall id :: Drives(s.store, q, id) ==> p in s.processes && Drives(s.store, s.processes[p], id)
    ensures Inv(Moved(s, p, s.store, q)) && Evolves(s.store, Moved(s, p, s.store, q).store)
  {
    MoveKeeps(s, p, s.store, q);
  }

  /** A save from a known copy, followed by a process that either stops driving or holds the successor. */
  lemma SaveMoveKeeps(s: State, p: nat, w: Workflow, next: Workflow, fault: Fault, q: Process)
    requires Inv(s) && Known(s.store, w)
    requires next.id == w.id && next.product == w.product && next.version == w.version + 1
    requires s.store.workflows[w.id] == w ==> Shape(next) && !Terminal(w.status) && next.progress >= w.progress
    requires var sent := Save(s.store, w, next, fault);
      if sent.acknowledged then
        ProcessInv(sent.store, q) && forall id :: Drives(sent.store, q, id) ==> id == next.id
      else
        && ProcessInv(s.store, q)
        && forall id :: Drives(s.store, q, id) ==> p in s.processes && Drives(s.store, s.processes[p], id)
    ensures var s' := Moved(s, p, Save(s.store, w, next, fault).store, q);
      Inv(s') && Evolves(s.store, s'.store)
  {
    var sent := Save(s.store, w, next, fault);
    SaveKeeps(s.store, w, next, fault);
    if !sent.acknowledged { ProcessPersists(s.store, sent.store, q); }
    MoveKeeps(s, p, sent.store, q);
  }

  lemma StartKeeps(s: State, step: Step)
    requires Inv(s) && (step.Start? || step.Resume?)
    ensures Inv(Apply(s, step)) && Evolves(s.store, Apply(s, step).store)
  {
    hide StoreInv, Known, LoopOf, RunStageOf, RecoverOf;
    if step.Start? && ProcessOf(s, step.p).Idle? {
      NewWorkflowShape(step.id, step.product, step.productVersion, step.configuration, step.sources);
      LocalMoveKeeps(s, step.p, Apply(s, step).processes[step.p]);
    } else if step.Resume? && ProcessOf(s, step.p).Idle? {
      LocalMoveKeeps(s, step.p, Apply(s, step).processes[step.p]);
    }
  }

  lemma SendCreateKeeps(s: State, step: Step)
    requires Inv(s) && step.SendCreate?
    ensures Inv(Apply(s, step)) && Evolves(s.store, Apply(s, step).store)
  {
    hide Inv, StoreInv, Evolves, Shape, CreateTransaction, Deliver, ProcessInv;
    var q := ProcessOf(s, step.p);
    if q.Creating? {
      var sent := Deliver(s.store, CreateTransaction(s.store, q.w), step.fault);
      var r := if sent.acknowledged then Beginning(q.w) else Stopped;
      CreatedAlone(s, step.p, step.fault);
      MoveKeeps(s, step.p, sent.store, r);
      assert Apply(s, step) == Moved(s, step.p, sent.store, r);
    } else {
      SameEvolves(s.store);
    }
  }

  lemma SameEvolves(st: Store)
    ensures Evolves(st, st)
  {
  }

  lemma CreatedAlone(s: State, p: nat, fault: Fault)
    requires Inv(s) && p in s.processes && s.processes[p].Creating?
    ensures var w := s.processes[p].w;
      var sent := Deliver(s.store, CreateTransaction(s.store, w), fault);
      var r := if sent.acknowledged then Beginning(w) else Stopped;
      && StoreInv(sent.store) && Evolves(s.store, sent.store) && ProcessInv(sent.store, r) && NewDriverIsAlone(s, p, sent.store, r)
  {
    hide Inv, StoreInv, Evolves, Shape, CreateTransaction, Deliver, Known, ProcessInv, NewDriverIsAlone;
    var w := s.processes[p].w;
    CreatingCopy(s, p);
    CreateKeeps(s.store, w, fault);
    var sent := Deliver(s.store, CreateTransaction(s.store, w), fault);
    if sent.acknowledged { NewIsAlone(s, p, sent.store, w); } else { StoppedIsAlone(s, p, sent.store); }
  }

  lemma CreatingCopy(s: State, p: nat)
    requires Inv(s) && p in s.processes && s.processes[p].Creating?
    ensures StoreInv(s.store) && Shape(s.processes[p].w) && s.processes[p].w.status.Pending?
  {
    hide StoreInv, Known, Shape, OneDriver;
    assert ProcessInv(s.store, s.processes[p]);
  }

  lemma NewIsAlone(s: State, p: nat, st: Store, w: Workflow)
    requires w.id !in s.store.workflows && w.id in st.workflows && st.workflows[w.id] == w && Shape(w) && w.status.Pending?
    ensures ProcessInv(st, Beginning(w)) && NewDriverIsAlone(s, p, st, Beginning(w))
  {
    hide Shape;
  }

  lemma StoppedIsAlone(s: State, p: nat, st: Store)
    ensures ProcessInv(st, Stopped) && NewDriverIsAlone(s, p, st, Stopped)
  {
  }

  lemma SendBeginKeeps(s: State, step: Step)
    requires Inv(s) && step.SendBegin?
    ensures Inv(Apply(s, step)) && Evolves(s.store, Apply(s, step).store)
  {
    hide Inv, StoreInv, Evolves, Shape, Begin, SaveTransaction, Deliver, Known;
    var q := ProcessOf(s, step.p);
    if q.Beginning? {
      BeginningCopy(s, step.p);
      BeginShape(q.w);
      BeginIdentity(q.w);
      var next := Begin(q.w).value;
      var sent := Save(s.store, q.w, next, step.fault);
      var r := if sent.acknowledged then Looping(next) else Stopped;
      SaveKeeps(s.store, q.w, next, step.fault);
      SavedIsKnown(sent.store, next);
      SaveMoveKeeps(s, step.p, q.w, next, step.fault, r);
      assert Apply(s, step) == Moved(s, step.p, sent.store, r);
    } else {
      SameEvolves(s.store);
    }
  }

  lemma BeginningCopy(s: State, p: nat)
    requires Inv(s) && p in s.processes && s.processes[p].Beginning?
    ensures var w := s.processes[p].w;
      StoreInv(s.store) && Known(s.store, w) && Shape(w) && w.status.Pending?
  {
    hide StoreInv, Known, Shape, OneDriver;
    assert ProcessInv(s.store, s.processes[p]);
  }

  lemma BeginIdentity(w: Workflow)
    requires Begin(w).Success?
    ensures var next := Begin(w).value;
      next.id == w.id && next.product == w.product && next.version == w.version + 1 && next.status.Running?
  {
    hide ValidWorkflow;
  }

  lemma SavedIsKnown(st: Store, w: Workflow)
    ensures w.id in st.workflows && st.workflows[w.id] == w ==> Known(st, w)
  {
  }

  /** A read that began and ended at one version read that version, however it was paged. */
  lemma EndReadKnown(st: Store, q: Process)
    requires StoreInv(st) && q.Reading? && q.meta.Some? && ProcessInv(st, q)
    ensures Decode(q.meta.value, q.read).Success? ==> Known(st, Decode(q.meta.value, q.read).value)
  {
    if Decode(q.meta.value, q.read).Success? && q.meta.value.version == st.workflows[q.id].version {
      DecodeRoundTrip(st.workflows[q.id], q.read);
    }
  }

  lemma ReadPageKeeps(st: Store, q: Process, stages: set<StageName>)
    requires Guarded(st) && q.Reading? && ProcessInv(st, q)
    ensures var r := ReadPageOf(st, q, stages);
      ProcessInv(st, r) && (r.Reading? || r == Stopped)
  {
  }

  lemma EndReadKeeps(st: Store, q: Process, sameInputs: bool, reviewCompleted: bool)
    requires StoreInv(st) && q.Reading? && ProcessInv(st, q)
    ensures ProcessInv(st, EndReadOf(q, sameInputs, reviewCompleted))
  {
    if q.meta.Some? { EndReadKnown(st, q); }
  }

  lemma ReadKeeps(s: State, step: Step)
    requires Inv(s) && (step.ReadPage? || step.EndRead?)
    ensures Inv(Apply(s, step)) && Evolves(s.store, Apply(s, step).store)
  {
    var q := ProcessOf(s, step.p);
    if q.Reading? {
      if step.EndRead? {
        EndReadKeeps(s.store, q, step.sameInputs, step.reviewCompleted);
        LocalMoveKeeps(s, step.p, EndReadOf(q, step.sameInputs, step.reviewCompleted));
      } else {
        ReadPageKeeps(s.store, q, step.stages);
        LocalMoveKeeps(s, step.p, ReadPageOf(s.store, q, step.stages));
      }
    }
  }

  lemma OrderedShape(q: Process)
    requires q.Executing? || q.Recovering? || q.Looping? ==> Shape(q.w)
    ensures q.Executing? || q.Recovering? || q.Looping? ==> Ordered(q.w.stages)
  {
  }

  lemma InvIsStoreInv(s: State)
    requires Inv(s)
    ensures StoreInv(s.store)
  {
  }

  lemma ResumeIdentity(w: Workflow)
    requires Ordered(w.stages)
    ensures ResumeReview(w).Success? ==>
      var next := ResumeReview(w).value;
      next.id == w.id && next.product == w.product && next.version == w.version + 1
  {
  }

  lemma SendResumeKeeps(s: State, step: Step)
    requires Inv(s) && step.SendResume?
    ensures Inv(Apply(s, step)) && Evolves(s.store, Apply(s, step).store)
  {
    hide ResumeReview, Shape, AtStage, LoopOf, RunStageOf, RecoverOf, ReadPageOf, EndReadOf;
    var q := ProcessOf(s, step.p);
    if q.Resuming? {
      assert ProcessInv(s.store, q);
      assert Ordered(q.w.stages);
      hide ValidWorkflow;
      InvIsStoreInv(s);
      ResumableShape(s.store, q.w);
      ResumeIdentity(q.w);
      if ResumeReview(q.w).Success? {
        var next := ResumeReview(q.w).value;
        var sent := Save(s.store, q.w, next, step.fault);
        var r := if sent.acknowledged then Looping(next) else Stopped;
        assert Apply(s, step) == Moved(s, step.p, sent.store, r);
        hide Apply, Moved, SaveTransaction, Deliver, Evolves, Inv;
        SaveKeeps(s.store, q.w, next, step.fault);
        SaveMoveKeeps(s, step.p, q.w, next, step.fault, r);
      } else {
        LocalMoveKeeps(s, step.p, Stopped);
      }
    }
  }

  /** What resuming gives when the copy is the stored workflow. */
  lemma ResumableShape(st: Store, w: Workflow)
    requires StoreInv(st) && Known(st, w) && w.status.WaitingForReview?
    ensures st.workflows[w.id] == w ==>
      && ResumeReview(w).Success? && ResumeReview(w).value.progress == w.progress
      && Shape(ResumeReview(w).value) && ResumeReview(w).value.status.Running?
  {
    hide ResumeReview, ShapeAt;
    if st.workflows[w.id] == w { ResumeReviewShape(w); }
  }

  /** A looping or recovering process saves a successor, and stops or loops on with it. */
  lemma SuccessorKeeps(s: State, p: nat, w: Workflow, next: Workflow, fault: Fault, q: Process)
    requires Inv(s) && p in s.processes && (s.processes[p].Recovering? || s.processes[p].Looping?) && s.processes[p].w == w
    requires next.id == w.id && next.product == w.product && next.version == w.version + 1
    requires Shape(next) && next.progress >= w.progress
    requires q == Stopped || (q == Looping(next) && next.status.Running? && Save(s.store, w, next, fault).acknowledged)
    ensures var s' := Moved(s, p, Save(s.store, w, next, fault).store, q);
      Inv(s') && Evolves(s.store, s'.store)
  {
    SaveKeeps(s.store, w, next, fault);
    SaveMoveKeeps(s, p, w, next, fault, q);
  }

  lemma LoopFinishKeeps(s: State, p: nat, w: Workflow, warnings: bool, fault: Fault)
    requires Inv(s) && p in s.processes && s.processes[p] == Looping(w) && w.currentStage.None?
    ensures Finish(w, warnings).Success?
    ensures var s' := Moved(s, p, Save(s.store, w, Finish(w, warnings).value, fault).store, Stopped);
      Inv(s') && Evolves(s.store, s'.store)
  {
    hide ValidWorkflow;
    FinishShape(w, warnings);
    SuccessorKeeps(s, p, w, Finish(w, warnings).value, fault, Stopped);
  }

  lemma LoopStartKeeps(s: State, p: nat, w: Workflow, stage: StageName, fault: Fault)
    requires Inv(s) && p in s.processes && s.processes[p] == Looping(w) && w.currentStage == Some(stage)
    requires w.stages[IndexOf(stage)].status.NotStarted?
    ensures StartStage(w, stage).Success?
    ensures var sent := Save(s.store, w, StartStage(w, stage).value, fault);
      var s' := Moved(s, p, sent.store, if sent.acknowledged then Executing(StartStage(w, stage).value, stage) else Stopped);
      Inv(s') && Evolves(s.store, s'.store)
  {
    hide StartStage, Shape, ValidWorkflow;
    LoopingCopy(s, p);
    StartStageShape(w, stage);
    StartIdentity(w, stage);
    var next := StartStage(w, stage).value;
    var sent := Save(s.store, w, next, fault);
    hide SaveTransaction, Deliver, Inv;
    InvIsStoreInv(s);
    SaveKeeps(s.store, w, next, fault);
    SaveMoveKeeps(s, p, w, next, fault, if sent.acknowledged then Executing(next, stage) else Stopped);
  }

  lemma LoopingCopy(s: State, p: nat)
    requires Inv(s) && p in s.processes && s.processes[p].Looping?
    ensures ProcessInv(s.store, s.processes[p]) && Ordered(s.processes[p].w.stages)
  {
    hide StoreInv, OneDriver, Known, ShapeAt;
    OrderedShape(s.processes[p]);
  }

  lemma StartIdentity(w: Workflow, stage: StageName)
    requires Ordered(w.stages) && StartStage(w, stage).Success?
    ensures var next := StartStage(w, stage).value;
      next.id == w.id && next.product == w.product && next.version == w.version + 1
  {
  }

  lemma LoopKeeps(s: State, step: Step)
    requires Inv(s) && step.Loop?
    ensures Inv(Apply(s, step)) && Evolves(s.store, Apply(s, step).store)
  {
    var q := ProcessOf(s, step.p);
    if q.Looping? {
      RunningMoves(q.w);
      match q.w.currentStage
      case None => LoopFinishKeeps(s, step.p, q.w, step.warnings || AnyFailed(q.w), step.fault);
      case Some(stage) =>
        if q.w.stages[IndexOf(stage)].status.NotStarted? {
          LoopStartKeeps(s, step.p, q.w, stage, step.fault);
        } else {
          LocalMoveKeeps(s, step.p, Executing(q.w, stage));
        }
    }
  }

  lemma OutcomeSaveKeeps(s: State, p: nat, w: Workflow, stage: StageName, o: Outcome, fault: Fault, q: Process)
    requires Inv(s) && p in s.processes && s.processes[p] == Executing(w, stage) && OutcomeFits(stage, o)
    requires ApplyOutcome(w, stage, o).Success?
    requires var next := ApplyOutcome(w, stage, o).value;
      if !Save(s.store, w, next, fault).acknowledged then q.Recovering? && q.w == w && q.stage == stage
      else q == if next.status.WaitingForReview? then Stopped else Looping(next)
    ensures var s' := Moved(s, p, Save(s.store, w, ApplyOutcome(w, stage, o).value, fault).store, q);
      Inv(s') && Evolves(s.store, s'.store)
  {
    hide ApplyOutcome, ValidWorkflow, Shape, OutcomeFits, AtStage;
    ExecutingCopy(s, p);
    var next := ApplyOutcome(w, stage, o).value;
    OutcomeIdentity(w, stage, o);
    OutcomeShape(w, stage, o);
    hide SaveTransaction, Deliver, Inv;
    InvIsStoreInv(s);
    SaveKeeps(s.store, w, next, fault);
    SaveMoveKeeps(s, p, w, next, fault, q);
  }

  lemma ExecutingCopy(s: State, p: nat)
    requires Inv(s) && p in s.processes && s.processes[p].Executing?
    ensures ProcessInv(s.store, s.processes[p]) && Ordered(s.processes[p].w.stages)
  {
    hide StoreInv, OneDriver, Known, ShapeAt;
    OrderedShape(s.processes[p]);
  }

  lemma OutcomeIdentity(w: Workflow, stage: StageName, o: Outcome)
    requires Ordered(w.stages) && ApplyOutcome(w, stage, o).Success?
    ensures var next := ApplyOutcome(w, stage, o).value;
      next.id == w.id && next.product == w.product && next.version == w.version + 1
  {
  }

  lemma OutcomeShape(w: Workflow, stage: StageName, o: Outcome)
    requires AtStage(w, stage, StageRunning) && OutcomeFits(stage, o) && Ordered(w.stages) && ApplyOutcome(w, stage, o).Success?
    ensures var next := ApplyOutcome(w, stage, o).value;
      && Shape(next) && next.progress >= w.progress && !Terminal(w.status)
      && (next.status.Running? || next.status.WaitingForReview?)
  {
    hide ApplyOutcome, ShapeAt, ValidOutcome;
    ApplyOutcomeShape(w, stage, o);
  }

  lemma RunStageKeeps(s: State, step: Step)
    requires Inv(s) && step.RunStage?
    ensures Inv(Apply(s, step)) && Evolves(s.store, Apply(s, step).store)
  {
    var q := ProcessOf(s, step.p);
    if q.Executing? {
      assert Ordered(q.w.stages);
      hide ApplyOutcome, ValidWorkflow, Execute;
      var r := Apply(s, step).processes[step.p];
      var outcome := Execute(q.stage, q.w, step.env);
      if outcome.Success? && ApplyOutcome(q.w, q.stage, outcome.value).Success? {
        OutcomeSaveKeeps(s, step.p, q.w, q.stage, outcome.value, step.fault, r);
      } else {
        LocalMoveKeeps(s, step.p, r);
      }
    }
  }

  /** The failed workflow that is written, if it can be built. */
  lemma FallbackShape(w: Workflow, stage: StageName, error: Raised)
    requires AtStage(w, stage, StageRunning)
    ensures Ordered(w.stages)
    ensures Fallback(w, stage, error).Success? ==>
      var next := Fallback(w, stage, error).value;
      && next.id == w.id && next.product == w.product && next.version == w.version + 1
      && Shape(next) && next.progress == w.progress && (next.status.Running? <==> !FailureIsTerminal(w, stage))
  {
    hide FailStage, Shape, AtStage, Truncated, ValidWorkflow, FailedRecord;
    var code, message, terminal := Truncated(error.code, 100), Truncated(error.message, 2000), FailureIsTerminal(w, stage);
    AtStageParts(w, stage);
    FailStageShape(w, stage, code, message, terminal);
    FailedStages(w, stage, code, message, terminal);
    FailedIdentity(w, stage, code, message, terminal);
  }

  lemma AtStageParts(w: Workflow, stage: StageName)
    requires AtStage(w, stage, StageRunning)
    ensures ValidWorkflow(w) && Ordered(w.stages) && w.stages[IndexOf(stage)].status.StageRunning?
  {
  }

  lemma FailedIdentity(w: Workflow, stage: StageName, code: string, message: string, terminal: bool)
    requires Ordered(w.stages)
    ensures var next := FailedRecord(w, stage, code, message, terminal);
      next.id == w.id && next.product == w.product && next.version == w.version + 1
  {
  }

  lemma RecoveringCopy(s: State, p: nat)
    requires Inv(s) && p in s.processes && s.processes[p].Recovering?
    ensures ProcessInv(s.store, s.processes[p]) && AtStage(s.processes[p].w, s.processes[p].stage, StageRunning)
  {
    hide StoreInv, OneDriver, Known, Shape;
  }

  lemma RecoverKeeps(s: State, step: Step)
    requires Inv(s) && step.Recover?
    ensures Inv(Apply(s, step)) && Evolves(s.store, Apply(s, step).store)
  {
    hide Fallback, Shape, ValidWorkflow, AtStage, FailureIsTerminal, LoopOf, RunStageOf, Save, Inv, Ordered, Known;
    var q := ProcessOf(s, step.p);
    if q.Recovering? {
      RecoveringCopy(s, step.p);
      FallbackShape(q.w, q.stage, q.error);
      if Fallback(q.w, q.stage, q.error).Success? {
        var next := Fallback(q.w, q.stage, q.error).value;
        var sent := Save(s.store, q.w, next, step.fault);
        SuccessorKeeps(s, step.p, q.w, next, step.fault,
                       if sent.acknowledged && !FailureIsTerminal(q.w, q.stage) then Looping(next) else Stopped);
      } else {
        LocalMoveKeeps(s, step.p, Stopped);
      }
    }
  }

  lemma StepKeeps(s: State, step: Step)
    requires Inv(s)
    ensures Inv(Apply(s, step)) && Evolves(s.store, Apply(s, step).store)
  {
    match step
    case Start(_, _, _, _, _, _) => StartKeeps(s, step);
    case Resume(_, _, _, _) => StartKeeps(s, step);
    case SendCreate(_, _) => SendCreateKeeps(s, step);
    case SendBegin(_, _) => SendBeginKeeps(s, step);
    case ReadPage(_, _) => ReadKeeps(s, step);
    case EndRead(_, _, _) => ReadKeeps(s, step);
    case SendResume(_, _) => SendResumeKeeps(s, step);
    case Loop(_, _, _) => LoopKeeps(s, step);
    case RunStage(_, _, _) => RunStageKeeps(s, step);
    case Recover(_, _) => RecoverKeeps(s, step);
  }

  lemma {:induction false} RunKeeps(s: State, steps: seq<Step>)
    requires Inv(s)
    ensures Inv(Run(s, steps)) && Evolves(s.store, Run(s, steps).store)
    decreases |steps|
  {
    if steps != [] {
      StepKeeps(s, steps[0]);
      RunKeeps(Apply(s, steps[0]), steps[1..]);
      EvolvesTransitive(s.store, Apply(s, steps[0]).store, Run(s, steps).store);
    }
  }
}
