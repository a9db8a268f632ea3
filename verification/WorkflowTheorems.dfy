/** What holds in every state that any interleaving of workflow callers can reach. */
module WorkflowTheorems {
  import opened Wrappers
  import opened Texts
  import opened CatalogWorkflow
  import opened JobLookup
  import opened StageExecutor
  import opened WorkflowShape
  import opened WorkflowStore
  import opened WorkflowProtocol

  lemma Reached(steps: seq<Step>)
    ensures Inv(Run(INITIAL, steps))
  {
    RunKeeps(INITIAL, steps);
  }

  ghost predicate Active(st: Store, product: Id, id: Id) {
    id in st.workflows && st.workflows[id].product == product && !Terminal(st.workflows[id].status)
  }

  /** A product has a guard record exactly when one of its workflows is active; the guard
      names it, and there is never a second one. */
  lemma GuardIffOneActive(steps: seq<Step>, product: Id)
    ensures var st := Run(INITIAL, steps).store;
      && (product in st.guards <==> exists id :: Active(st, product, id))
      && (forall id :: Active(st, product, id) ==> product in st.guards && st.guards[product] == id)
      && (forall a, b :: Active(st, product, a) && Active(st, product, b) ==> a == b)
  {
    hide Shape;
    Reached(steps);
    var st := Run(INITIAL, steps).store;
    if product in st.guards { assert Active(st, product, st.guards[product]); }
  }

  /** The local copy a caller acts on once its workflow is stored. */
  function CopyOf(q: Process): Option<Workflow> {
    if q.Beginning? || q.Resuming? || q.Looping? || q.Executing? || q.Recovering? then Some(q.w) else None
  }

  /** A version identifies a state: a copy that is as new as the store is the stored workflow,
      also when it was read page by page between other callers' commits. */
  lemma VersionIdentifiesState(steps: seq<Step>, p: nat)
    ensures var s := Run(INITIAL, steps);
      var copy := CopyOf(ProcessOf(s, p));
      copy.Some? ==>
        && copy.value.id in s.store.workflows
        && copy.value.version <= s.store.workflows[copy.value.id].version
        && (copy.value.version == s.store.workflows[copy.value.id].version
            ==> copy.value == s.store.workflows[copy.value.id])
  {
    hide Shape;
    Reached(steps);
    var s := Run(INITIAL, steps);
    if p in s.processes { assert ProcessInv(s.store, s.processes[p]); }
  }

  /** At most one caller moves a workflow on with a copy as new as the store. */
  lemma OneCallerDrives(steps: seq<Step>, p: nat, q: nat, id: Id)
    requires p != q
    ensures var s := Run(INITIAL, steps);
      Drives(s.store, ProcessOf(s, p), id) ==> !Drives(s.store, ProcessOf(s, q), id)
  {
    hide Shape;
    Reached(steps);
  }

  /** Every stored workflow has a finished prefix, at most one active stage, which is the
      current one, and an unstarted suffix; a core stage fails only in a failed workflow. */
  lemma StoredShape(steps: seq<Step>, id: Id)
    ensures var st := Run(INITIAL, steps).store;
      id in st.workflows ==> exists k: nat :: ShapeAt(st.workflows[id], k)
  {
    hide ShapeAt;
    Reached(steps);
  }

  /** In the run loop neither error of `Finish`, nor a refused start, nor the branch for an
      unexpected stage status is ever taken. */
  lemma LoopNeverRaises(steps: seq<Step>, p: nat, warnings: bool)
    ensures var q := ProcessOf(Run(INITIAL, steps), p);
      q.Looping? ==>
        && Ordered(q.w.stages) && q.w.status.Running?
        && match q.w.currentStage
           case None => Finish(q.w, warnings).Success?
           case Some(stage) =>
             || (q.w.stages[IndexOf(stage)].status.NotStarted? && StartStage(q.w, stage).Success?)
             || q.w.stages[IndexOf(stage)].status.StageRunning?
  {
    Reached(steps);
    var s := Run(INITIAL, steps);
    var q := ProcessOf(s, p);
    if q.Looping? {
      assert ProcessInv(s.store, q);
      RunningMoves(q.w);
      if q.w.currentStage.None? { FinishShape(q.w, warnings); }
      else if q.w.stages[IndexOf(q.w.currentStage.value)].status.NotStarted? {
        StartStageShape(q.w, q.w.currentStage.value);
      }
    }
  }

  /** No stage is ever run without the lineage that its job, or its step, requires. */
  lemma StagesHaveTheirLineage(steps: seq<Step>, p: nat)
    ensures var q := ProcessOf(Run(INITIAL, steps), p);
      q.Executing? ==> RequiredLineage(q.stage) <= q.w.references.Keys
  {
    Reached(steps);
    var s := Run(INITIAL, steps);
    var q := ProcessOf(s, p);
    if q.Executing? {
      assert ProcessInv(s.store, q);
      RunningMoves(q.w);
    }
  }

  /** Whatever runs later, a terminal workflow stays as it is, no version or progress goes
      back, and no workflow disappears. */
  lemma TerminalForever(steps: seq<Step>, more: seq<Step>, id: Id)
    ensures var before, after := Run(INITIAL, steps).store, Run(Run(INITIAL, steps), more).store;
      id in before.workflows ==>
        && id in after.workflows
        && (Terminal(before.workflows[id].status) ==> after.workflows[id] == before.workflows[id])
        && after.workflows[id].version >= before.workflows[id].version
        && after.workflows[id].progress >= before.workflows[id].progress
  {
    hide Shape, Inv;
    Reached(steps);
    RunKeeps(Run(INITIAL, steps), more);
  }

  /** The references that a completed workflow cannot be without: those of the ten core stages that make one. */
  const CORE_LINEAGE: set<Reference> :=
    {ClassificationId, ExtractionId, NormalizationId, ConflictDetectionId, CompletenessId,
     ValidationId, SelectionId, ReviewId, MaterializationId, ProjectionId}

  lemma CompletedShape(w: Workflow)
    requires Shape(w) && w.status in {Completed, CompletedWithWarnings}
    ensures w.progress == 100 && CORE_LINEAGE <= w.references.Keys
  {
    var k: nat :| ShapeAt(w, k);
    forall r | r in CORE_LINEAGE ensures r in w.references {
      var i := ProducerIndex(r);
      assert w.stages[i].name == StageAt(i) && !MaySkip(StageAt(i));
    }
  }

  /** Progress is a percentage, and is 100 in every completed workflow, which also carries
      the whole lineage from classification to projection. */
  lemma CompletedWorkflows(steps: seq<Step>, id: Id)
    ensures var st := Run(INITIAL, steps).store;
      id in st.workflows ==>
        && 0 <= st.workflows[id].progress <= 100
        && (st.workflows[id].status in {Completed, CompletedWithWarnings} ==>
              st.workflows[id].progress == 100 && CORE_LINEAGE <= st.workflows[id].references.Keys)
  {
    hide Run;
    Reached(steps);
    var st := Run(INITIAL, steps).store;
    if id in st.workflows {
      var w := st.workflows[id];
      assert Shape(w);
      ShapeProgress(w);
      if w.status in {Completed, CompletedWithWarnings} { CompletedShape(w); }
    }
  }

  lemma ShapeProgress(w: Workflow)
    requires Shape(w)
    ensures 0 <= w.progress <= 100
  {
  }

  predicate IsDone(stage: Stage) { stage.status == StageCompleted || stage.status == Skipped }

  /** How many stages are completed or skipped. */
  ghost function Done(w: Workflow): nat { |set i | 0 <= i < |w.stages| && IsDone(w.stages[i])| }

  lemma {:induction false} DoneFrom(stages: seq<Stage>, k: nat)
    requires k <= |stages|
    ensures DoneCount(stages[k..]) == |set i | k <= i < |stages| && IsDone(stages[i])|
    decreases |stages| - k
  {
    var done := set i | k <= i < |stages| && IsDone(stages[i]);
    if k == |stages| {
      assert done == {};
    } else {
      DoneFrom(stages, k + 1);
      var later := set i | k + 1 <= i < |stages| && IsDone(stages[i]);
      assert stages[k..][1..] == stages[k + 1..] && stages[k..][0] == stages[k];
      assert done == later + if IsDone(stages[k]) then {k as int} else {};
    }
  }

  /** The progress of a stored workflow that has not completed is the share of its fifteen stages that
      are completed or skipped, in whole percents rounded down. */
  lemma StoredProgress(steps: seq<Step>, id: Id)
    ensures var st := Run(INITIAL, steps).store;
      id in st.workflows && st.workflows[id].status !in {Completed, CompletedWithWarnings} ==>
        var w := st.workflows[id];
        w.progress * 15 <= Done(w) * 100 < (w.progress + 1) * 15
  {
    Reached(steps);
    hide Run, DoneCount;
    var st := Run(INITIAL, steps).store;
    if id in st.workflows {
      var w := st.workflows[id];
      assert Shape(w);
      DoneFrom(w.stages, 0);
      assert w.stages[0..] == w.stages;
    }
  }

  /** A caller that has ended its read goes on to resume exactly a workflow of its product, at the version
      it asked for, that waits for its review, if its sources are the same and the review is completed. */
  lemma ResumesIff(s: State, p: nat, same: bool, completed: bool)
    requires ProcessOf(s, p).Reading?
    ensures var q, q' := ProcessOf(s, p), ProcessOf(Apply(s, EndRead(p, same, completed)), p);
      && (q'.Resuming? || q' == Stopped)
      && (q'.Resuming? <==>
            && q.meta.Some? && Decode(q.meta.value, q.read).Success?
            && var w := Decode(q.meta.value, q.read).value;
               w.product == q.product && w.version == q.expected && w.status == WaitingForReview && same && completed)
      && (q'.Resuming? ==> Decode(q.meta.value, q.read) == Success(q'.w))
  {
    hide Decode;
  }

  // ----- lost acknowledgements -------------------------------------------------

  lemma {:induction false} OthersLeaveAlone(s: State, steps: seq<Step>, p: nat)
    requires forall i :: 0 <= i < |steps| ==> steps[i].p != p
    ensures ProcessOf(Run(s, steps), p) == ProcessOf(s, p)
    decreases |steps|
  {
    if steps != [] { OthersLeaveAlone(Apply(s, steps[0]), steps[1..], p); }
  }

  /** What the except block writes from a copy that is known to the store. */
  lemma FallbackWrites(st: Store, q: Process)
    requires Guarded(st) && q.Recovering? && ProcessInv(st, q)
    ensures Ordered(q.w.stages) && q.w.id in st.workflows
    ensures (RecoverOf(st, q.w, q.stage, q.error, NoFault).0 != st) <==>
              (&& st.workflows[q.w.id] == q.w
               && Visible(Truncated(q.error.code, 100)) && Visible(Truncated(q.error.message, 2000)))
  {
    hide Save, Visible, FailStage;
    var code, message, terminal := Truncated(q.error.code, 100), Truncated(q.error.message, 2000), FailureIsTerminal(q.w, q.stage);
    FailStageShape(q.w, q.stage, code, message, terminal);
    var r := FailStage(q.w, q.stage, code, message, terminal);
    if r.Success? {
      FailedStages(q.w, q.stage, code, message, terminal);
      FallbackSave(st, q.w, r.value);
    }
  }

  /** The fallback failure is recorded exactly when the store still holds the workflow as it
      was before the outcome, and the error texts are ones a stage can carry. */
  lemma FallbackIsRecorded(steps: seq<Step>, p: nat)
    ensures var s := Run(INITIAL, steps);
      var q := ProcessOf(s, p);
      q.Recovering? ==>
        && q.w.id in s.store.workflows
        && (Apply(s, Recover(p, NoFault)).store != s.store <==>
              && s.store.workflows[q.w.id] == q.w
              && Visible(Truncated(q.error.code, 100)) && Visible(Truncated(q.error.message, 2000)))
  {
    Reached(steps);
    var s := Run(INITIAL, steps);
    var q := ProcessOf(s, p);
    hide Shape, ValidWorkflow, FailStage, Run, RecoverOf;
    if q.Recovering? {
      assert ProcessInv(s.store, q);
      FallbackWrites(s.store, q);
    }
  }

  lemma FallbackSave(st: Store, w: Workflow, next: Workflow)
    requires Guarded(st) && Known(st, w) && !Terminal(w.status)
    requires next.id == w.id && next.product == w.product && next.version == w.version + 1
    ensures Save(st, w, next, NoFault).store != st <==> st.workflows[w.id] == w
  {
  }

  /** An outcome that was committed, though its save reported an error, is never overwritten
      by the failure that the caller then tries to record, whatever the others do meanwhile. */
  lemma CommittedOutcomeSurvives(steps: seq<Step>, p: nat, env: Environment, fault: Fault,
                                 others: seq<Step>, lateFault: Fault)
    requires ProcessOf(Run(INITIAL, steps), p).Executing?
    requires forall i :: 0 <= i < |others| ==> others[i].p != p
    ensures var s := Run(INITIAL, steps);
      var s1 := Apply(s, RunStage(p, env, fault));
      var s2 := Run(s1, others);
      (s1.store != s.store && ProcessOf(s1, p).Recovering?) ==>
        && ProcessOf(s2, p) == ProcessOf(s1, p)
        && Apply(s2, Recover(p, lateFault)).store == s2.store
  {
    Reached(steps);
    var s := Run(INITIAL, steps);
    var s1 := Apply(s, RunStage(p, env, fault));
    var s2 := Run(s1, others);
    hide *;
    OthersLeaveAlone(s1, others, p);
    StepKeeps(s, RunStage(p, env, fault));
    RunKeeps(s1, others);
    if s1.store != s.store && ProcessOf(s1, p).Recovering? {
      CommitRaisesVersion(s, p, env, fault);
      VersionsOnlyRise(s1.store, s2.store, ProcessOf(s, p).w.id);
      StaleRecovery(s2, p, lateFault);
    }
  }

  lemma VersionsOnlyRise(st: Store, st': Store, id: Id)
    requires Evolves(st, st') && id in st.workflows
    ensures id in st'.workflows && st'.workflows[id].version >= st.workflows[id].version
  {
  }

  lemma StaleRecovery(s: State, p: nat, fault: Fault)
    requires ProcessOf(s, p).Recovering?
    requires var q := ProcessOf(s, p);
      q.w.id in s.store.workflows && s.store.workflows[q.w.id].version > q.w.version
    ensures Apply(s, Recover(p, fault)).store == s.store
  {
    hide ValidWorkflow;
    StaleSaveIsRefused(s.store, ProcessOf(s, p).w);
  }

  lemma CommitRaisesVersion(s: State, p: nat, env: Environment, fault: Fault)
    requires Inv(s) && ProcessOf(s, p).Executing?
    requires Apply(s, RunStage(p, env, fault)).store != s.store
    ensures var q := ProcessOf(s, p);
      var st := Apply(s, RunStage(p, env, fault)).store;
      && q.w.id in st.workflows && st.workflows[q.w.id].version > q.w.version
      && (ProcessOf(Apply(s, RunStage(p, env, fault)), p).Recovering? ==>
            ProcessOf(Apply(s, RunStage(p, env, fault)), p).w == q.w)
  {
    hide Shape, ValidWorkflow, Execute;
    var q := ProcessOf(s, p);
    assert ProcessInv(s.store, q);
  }

  lemma StaleSaveIsRefused(st: Store, w: Workflow)
    requires w.id in st.workflows && st.workflows[w.id].version > w.version
    ensures forall next: Workflow, fault :: next.id == w.id ==> Save(st, w, next, fault).store == st
  {
  }
}
