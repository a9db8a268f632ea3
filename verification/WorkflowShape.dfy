/**
 The shape that every workflow keeps: a finished prefix of stages, at most one
 active stage that is the current one, and a suffix that has not started.
 */
module WorkflowShape {
  import opened Wrappers
  import opened Texts
  import opened CatalogWorkflow
  import opened JobLookup
  import opened StageExecutor

  // ----- counting stages -----------------------------------------------------

  /** How many stages are not finished: what every pass of the run loop lowers. */
  function UnfinishedCount(stages: seq<Stage>): nat {
    if stages == [] then 0
    else (if Finished(stages[0].status) then 0 else 1) + UnfinishedCount(stages[1..])
  }

  lemma {:induction false} CountsAfterUpdate(stages: seq<Stage>, k: nat, stage: Stage)
    requires k < |stages|
    ensures DoneCount(stages[k := stage]) ==
            DoneCount(stages) - (if stages[k].status in {StageCompleted, Skipped} then 1 else 0)
                              + (if stage.status in {StageCompleted, Skipped} then 1 else 0)
    ensures UnfinishedCount(stages[k := stage]) ==
            UnfinishedCount(stages) - (if Finished(stages[k].status) then 0 else 1)
                                    + (if Finished(stage.status) then 0 else 1)
  {
    var after := stages[k := stage];
    if k == 0 {
      assert after[1..] == stages[1..];
    } else {
      assert after[1..] == stages[1..][k - 1 := stage];
      CountsAfterUpdate(stages[1..], k - 1, stage);
    }
  }

  lemma {:induction false} AllFinishedCount(stages: seq<Stage>)
    ensures UnfinishedCount(stages) == 0 <==> forall i :: 0 <= i < |stages| ==> Finished(stages[i].status)
  {
    if stages != [] {
      AllFinishedCount(stages[1..]);
      assert forall i :: 1 <= i < |stages| ==> stages[i] == stages[1..][i - 1];
      if UnfinishedCount(stages) == 0 {
        forall i | 0 <= i < |stages| ensures Finished(stages[i].status) {
          if i > 0 { assert stages[i] == stages[1..][i - 1]; }
        }
      }
    }
  }

  lemma {:induction false} NoneDone(stages: seq<Stage>)
    requires forall i :: 0 <= i < |stages| ==> stages[i].status.NotStarted?
    ensures DoneCount(stages) == 0
  {
    if stages != [] { NoneDone(stages[1..]); }
  }

  // ----- the shape -----------------------------------------------------------

  ghost predicate Prefix(w: Workflow, k: nat)
    requires k <= |w.stages|
  {
    forall i :: 0 <= i < k ==>
      && Finished(w.stages[i].status)
      && (w.stages[i].status.StageFailed? ==> Optional(w.stages[i].name) || (w.status.Failed? && i == k - 1))
      && (w.stages[i].status.Skipped? ==> MaySkip(w.stages[i].name))
      && (w.stages[i].status.StageCompleted? && ResultReference(w.stages[i].name).Some?
          ==> ResultReference(w.stages[i].name).value in w.references)
  }

  ghost predicate Suffix(w: Workflow, from: nat) {
    forall i :: from <= i < |w.stages| ==> w.stages[i].status.NotStarted?
  }

  /** What the workflow status says about the stage at the frontier `k`. */
  ghost predicate Phase(w: Workflow, k: nat)
    requires Ordered(w.stages) && k <= STAGE_COUNT
  {
    match w.status
    case Pending => k == 0 && Suffix(w, 0) && w.currentStage == Some(StageAt(0))
    case Running =>
      if k == STAGE_COUNT then w.currentStage == None
      else w.currentStage == Some(StageAt(k)) && w.stages[k].status in {NotStarted, StageRunning} && Suffix(w, k + 1)
    case WaitingForReview =>
      && k == IndexOf(HumanReview) && w.currentStage == Some(HumanReview)
      && w.stages[k].status.Waiting? && Suffix(w, k + 1)
    case Failed => k > 0 && w.currentStage == None && w.stages[k - 1].status.StageFailed? && Suffix(w, k)
    case _ => k == STAGE_COUNT && w.currentStage == None && w.progress == 100
  }

  ghost predicate ShapeAt(w: Workflow, k: nat) {
    && ValidWorkflow(w) && k <= STAGE_COUNT
    && Prefix(w, k) && Phase(w, k)
    && (w.status !in {Completed, CompletedWithWarnings} ==> w.progress == Progress(w.stages))
  }

  ghost predicate Shape(w: Workflow) { exists k: nat :: ShapeAt(w, k) }

  /** Nothing found and nothing failed. */
  predicate Unmarked(w: Workflow) { w.references == map[] && w.errorCode.None? && w.errorMessage.None? }

  // ----- every transition keeps the shape ------------------------------------

  lemma NewWorkflowShape(id: Id, product: Id, productVersion: int, configuration: Configuration, sources: seq<SourceEntry>)
    ensures var r := NewWorkflow(id, product, productVersion, configuration, sources);
      r.Success? ==> Shape(r.value) && r.value.status.Pending? && r.value.version == 1 && Unmarked(r.value)
  {
    var r := NewWorkflow(id, product, productVersion, configuration, sources);
    if r.Success? {
      NoneDone(r.value.stages);
      assert ShapeAt(r.value, 0);
    }
  }

  lemma BeginShape(w: Workflow)
    requires Shape(w)
    ensures Begin(w).Success? <==> w.status.Pending?
    ensures w.status.Pending? ==> Shape(Begin(w).value) && Begin(w).value.progress >= w.progress
  {
    var k: nat :| ShapeAt(w, k);
    if w.status.Pending? { assert ShapeAt(Begin(w).value, 0); }
  }

  /** The current stage of a running workflow that has one. */
  ghost predicate AtStage(w: Workflow, name: StageName, status: StageStatus) {
    && Shape(w) && w.status.Running? && w.currentStage == Some(name)
    && w.stages[IndexOf(name)].status == status
  }

  /** A running workflow always has a next move: finish, start its stage, or run it. */
  lemma RunningMoves(w: Workflow)
    requires Shape(w) && w.status.Running?
    ensures match w.currentStage
      case None => UnfinishedCount(w.stages) == 0
      case Some(name) => (
        && w.stages[IndexOf(name)].status in {NotStarted, StageRunning}
        && UnfinishedCount(w.stages) > 0 && RequiredLineage(name) <= w.references.Keys)
  {
    var k: nat :| ShapeAt(w, k);
    AllFinishedCount(w.stages);
    if k < STAGE_COUNT {
      IndexOfStageAt(k);
      FrontierLineage(w, k);
    }
  }

  /** Every stage before the frontier left the reference the frontier stage needs. */
  lemma FrontierLineage(w: Workflow, k: nat)
    requires ShapeAt(w, k) && k < STAGE_COUNT && !w.status.Failed?
    ensures RequiredLineage(StageAt(k)) <= w.references.Keys
  {
    hide Prefix, Phase, ValidStage, ProducerIndex;
    forall r | r in RequiredLineage(StageAt(k)) ensures r in w.references {
      var i := ProducerIndex(r);
      ProducedBefore(r, k);
      LeavesReference(w, k, i);
    }
  }

  lemma ProducedBefore(r: Reference, k: nat)
    requires k < STAGE_COUNT && r in RequiredLineage(StageAt(k))
    ensures ProducerIndex(r) < k && !MaySkip(StageAt(ProducerIndex(r)))
  {
    IndexOfStageAt(k);
  }

  lemma LeavesReference(w: Workflow, k: nat, i: nat)
    requires ShapeAt(w, k) && !w.status.Failed? && i < k
    requires ResultReference(StageAt(i)).Some? && !MaySkip(StageAt(i))
    ensures ResultReference(StageAt(i)).value in w.references
  {
    hide ValidStage, Phase;
    assert w.stages[i].name == StageAt(i);
  }

  function ProducerIndex(r: Reference): (i: nat)
    ensures i < STAGE_COUNT && ResultReference(StageAt(i)) == Some(r)
  {
    match r
    case ClassificationId => 1
    case ExtractionId => 2
    case NormalizationId => 3
    case ConflictDetectionId => 4
    case CompletenessId => 5
    case ValidationId => 6
    case SelectionId => 7
    case ReviewId => 8
    case MaterializationId => 9
    case ProjectionId => 10
    case ExportId => 12
    case EnrichmentId => 13
    case ScoreId => 14
  }

  lemma StartStageShape(w: Workflow, name: StageName)
    requires AtStage(w, name, NotStarted)
    ensures StartStage(w, name).Success?
    ensures AtStage(StartStage(w, name).value, name, StageRunning)
    ensures var r := StartStage(w, name).value;
      r.progress == w.progress && UnfinishedCount(r.stages) == UnfinishedCount(w.stages)
  {
    hide ValidWorkflow, ReplaceStage, Prefix;
    var k: nat :| ShapeAt(w, k);
    RunsAtFrontier(w, k);
    IndexOfStageAt(k);
    StageRuns(w, k);
  }

  lemma RunsAtFrontier(w: Workflow, k: nat)
    requires ShapeAt(w, k) && w.status.Running? && w.currentStage.Some?
    ensures Ordered(w.stages) && k < STAGE_COUNT && w.currentStage == Some(StageAt(k)) && IndexOf(StageAt(k)) == k
  {
    hide ValidStage, Prefix, Progress;
    if k < STAGE_COUNT { IndexOfStageAt(k); }
  }

  /** The workflow with its stage at the frontier set running. */
  lemma StageRuns(w: Workflow, k: nat)
    requires ShapeAt(w, k) && k < STAGE_COUNT && w.currentStage == Some(StageAt(k)) && !Finished(w.stages[k].status)
    requires w.status.Running? || w.status.WaitingForReview?
    ensures var r := ReplaceStage(w, w.stages[k].(status := StageRunning), Running, Some(StageAt(k)));
      && ValidWorkflow(r) && ShapeAt(r, k) && r.stages == w.stages[k := w.stages[k].(status := StageRunning)]
      && r.progress == w.progress && UnfinishedCount(r.stages) == UnfinishedCount(w.stages)
      && r.status.Running? && r.id == w.id && r.version == w.version + 1 && r.currentStage == w.currentStage
  {
    hide ReplaceStage, Prefix, Phase, ValidStage;
    ReplacesRunning(w, k);
    var stage := w.stages[k].(status := StageRunning);
    CountsAfterUpdate(w.stages, k, stage);
    var r := ReplaceStage(w, stage, Running, Some(StageAt(k)));
    KeepsPrefix(w, r, k);
    RunsInPhase(w, r, k);
  }

  lemma ReplacesRunning(w: Workflow, k: nat)
    requires ValidWorkflow(w) && k < STAGE_COUNT
    ensures var stages := w.stages[k := w.stages[k].(status := StageRunning)];
      var r := ReplaceStage(w, w.stages[k].(status := StageRunning), Running, Some(StageAt(k)));
      && r == w.(stages := stages, progress := Progress(stages), version := w.version + 1, status := Running,
                 currentStage := Some(StageAt(k)))
      && ValidWorkflow(r)
  {
    IndexOfStageAt(k);
    var stage := w.stages[k].(status := StageRunning);
    var r := ReplaceStage(w, stage, Running, Some(StageAt(k)));
    RunningIsValid(w.stages[k]);
    ValidWithStage(w, r, k, stage);
    hide ValidWorkflow, ValidStage;
  }

  lemma RunningIsValid(stage: Stage)
    ensures ValidStage(stage) ==> ValidStage(stage.(status := StageRunning))
  {
  }

  lemma KeepsPrefix(w: Workflow, r: Workflow, k: nat)
    requires k < |w.stages| == |r.stages| && Prefix(w, k) && !w.status.Failed? && r.references == w.references
    requires r.stages == w.stages[k := r.stages[k]]
    ensures Prefix(r, k)
  {
  }

  lemma RunsInPhase(w: Workflow, r: Workflow, k: nat)
    requires Ordered(w.stages) && k < STAGE_COUNT && Phase(w, k) && r.status.Running? && r.currentStage == Some(StageAt(k))
    requires w.status.Running? || w.status.WaitingForReview?
    requires r.stages == w.stages[k := w.stages[k].(status := StageRunning)]
    ensures Ordered(r.stages) && Phase(r, k)
  {
  }

  lemma NextAfterFrontier(w: Workflow, k: nat)
    requires Ordered(w.stages) && k < STAGE_COUNT && Suffix(w, k + 1)
    ensures NextStage(w.stages, StageAt(k)) == if k + 1 < STAGE_COUNT then Some(StageAt(k + 1)) else None
  {
    IndexOfStageAt(k);
    if k + 1 < STAGE_COUNT {
      assert w.stages[k + 1].status.NotStarted?;
    }
  }

  lemma ProgressGrows(before: nat, after: nat)
    requires before <= after
    ensures before * 100 / STAGE_COUNT <= after * 100 / STAGE_COUNT
  {
  }

  lemma PrefixAdvances(w: Workflow, k: nat, r: Workflow, stage: Stage)
    requires k < |w.stages| && r.stages == w.stages[k := stage] && w.status.Running?
    requires Prefix(w, k) && w.references.Keys <= r.references.Keys
    requires Finished(stage.status) && (stage.status.Skipped? ==> MaySkip(stage.name))
    requires stage.status.StageCompleted? && ResultReference(stage.name).Some?
             ==> ResultReference(stage.name).value in r.references
    requires stage.status.StageFailed? ==> Optional(stage.name) || r.status.Failed?
    ensures Prefix(r, k + 1)
  {
  }

  lemma PhaseAdvances(w: Workflow, k: nat, r: Workflow, stage: Stage)
    requires k < STAGE_COUNT && Ordered(w.stages) && Ordered(r.stages) && r.stages == w.stages[k := stage]
    requires w.status.Running? && Phase(w, k)
    requires match r.status
      case Running => r.currentStage == NextStage(w.stages, StageAt(k))
      case Failed => r.currentStage == None && stage.status.StageFailed?
      case _ => false
    ensures Phase(r, k + 1)
  {
    NextAfterFrontier(w, k);
    assert forall i :: k < i < STAGE_COUNT ==> r.stages[i] == w.stages[i];
  }

  /** Finishing the running frontier stage moves the frontier on by one. */
  lemma FrontierAdvances(w: Workflow, k: nat, r: Workflow, stage: Stage)
    requires ShapeAt(w, k) && k < STAGE_COUNT && w.status.Running? && w.stages[k].status.StageRunning?
    requires ValidWorkflow(r) && r.stages == w.stages[k := stage] && r.progress == Progress(r.stages)
    requires w.references.Keys <= r.references.Keys
    requires Finished(stage.status) && (stage.status.Skipped? ==> MaySkip(stage.name))
    requires stage.status.StageCompleted? && ResultReference(stage.name).Some?
             ==> ResultReference(stage.name).value in r.references
    requires stage.status.StageFailed? ==> Optional(stage.name) || r.status.Failed?
    requires match r.status
      case Running => r.currentStage == NextStage(w.stages, StageAt(k))
      case Failed => r.currentStage == None && stage.status.StageFailed?
      case _ => false
    ensures ShapeAt(r, k + 1)
    ensures UnfinishedCount(r.stages) == UnfinishedCount(w.stages) - 1
    ensures r.progress >= w.progress && (stage.status.StageFailed? ==> r.progress == w.progress)
  {
    CountsAfterUpdate(w.stages, k, stage);
    ProgressGrows(DoneCount(w.stages), DoneCount(r.stages));
    PhaseAdvances(w, k, r, stage);
    PrefixAdvances(w, k, r, stage);
  }

  lemma OutcomeStages(w: Workflow, name: StageName, o: Outcome)
    requires ValidWorkflow(w) && ApplyOutcome(w, name, o).Success?
    ensures var r := ApplyOutcome(w, name, o).value;
      var k := IndexOf(name);
      && ValidWorkflow(r) && r.stages == w.stages[k := r.stages[k]] && r.progress == Progress(r.stages)
      && r.stages[k].status == o.status && r.stages[k].name == name && r.references == w.references + o.references
      && r.status == (if o.status.Waiting? then WaitingForReview else Running)
      && r.currentStage == (if o.status.Waiting? then Some(name) else NextStage(w.stages, name))
  {
    hide NextStage, Progress;
  }

  /** The review stage waits: the frontier stays. */
  lemma ReviewWaits(w: Workflow, k: nat, r: Workflow)
    requires ShapeAt(w, k) && w.status.Running? && w.currentStage == Some(HumanReview)
    requires k == IndexOf(HumanReview) && w.stages[k].status.StageRunning?
    requires ValidWorkflow(r) && r.stages == w.stages[k := r.stages[k]] && r.stages[k].status.Waiting?
    requires r.progress == Progress(r.stages) && w.references.Keys <= r.references.Keys
    requires r.status.WaitingForReview? && r.currentStage == Some(HumanReview)
    ensures ShapeAt(r, k) && r.progress == w.progress
  {
    CountsAfterUpdate(w.stages, k, r.stages[k]);
    hide ValidStage;
  }

  /** Applying an outcome that fits its stage waits for the review, or moves the frontier on. */
  lemma ApplyOutcomeShape(w: Workflow, name: StageName, o: Outcome)
    requires AtStage(w, name, StageRunning) && OutcomeFits(name, o)
    ensures var r := ApplyOutcome(w, name, o);
      r.Success? ==>
        && Shape(r.value) && r.value.progress >= w.progress
        && (o.status.Waiting? ==> r.value.status.WaitingForReview?)
        && (!o.status.Waiting? ==> r.value.status.Running? && UnfinishedCount(r.value.stages) == UnfinishedCount(w.stages) - 1)
  {
    hide ValidStage, Prefix, Progress, NextStage;
    var k: nat :| ShapeAt(w, k);
    IndexOfStageAt(k);
    if ApplyOutcome(w, name, o).Success? {
      var r := ApplyOutcome(w, name, o).value;
      OutcomeStages(w, name, o);
      hide ApplyOutcome;
      if o.status.Waiting? { ReviewWaits(w, k, r); } else { FrontierAdvances(w, k, r, r.stages[k]); }
    }
  }

  lemma ResumeReviewShape(w: Workflow)
    requires Shape(w) && w.status.WaitingForReview?
    ensures ResumeReview(w).Success? && AtStage(ResumeReview(w).value, HumanReview, StageRunning)
    ensures ResumeReview(w).value.progress == w.progress && ResumeReview(w).value.id == w.id
    ensures ResumeReview(w).value.version == w.version + 1 && Ordered(w.stages) && Ordered(ResumeReview(w).value.stages)
  {
    hide ReplaceStage, Prefix, Suffix;
    var k: nat :| ShapeAt(w, k);
    IndexOfStageAt(k);
    StageRuns(w, k);
  }

  /** What `FailStage` builds before the constructors check it. */
  function FailedRecord(w: Workflow, name: StageName, code: string, message: string, terminal: bool): Workflow
    requires Ordered(w.stages)
  {
    var k := IndexOf(name);
    var stages := w.stages[k := w.stages[k].(status := StageFailed, errorCode := Some(code), errorMessage := Some(message))];
    w.(stages := stages, progress := Progress(stages), version := w.version + 1,
       status := if terminal then Failed else Running,
       currentStage := if terminal then None else NextStage(w.stages, name),
       errorCode := if terminal then Some(code) else None,
       errorMessage := if terminal then Some(message) else None)
  }

  /** Whether a workflow with one stage replaced is valid is a matter of that stage, the review and the error code. */
  lemma ValidWithStage(w: Workflow, r: Workflow, k: nat, stage: Stage)
    requires ValidWorkflow(w) && k < STAGE_COUNT && stage.name == w.stages[k].name
    requires r.stages == w.stages[k := stage] && r.version >= 1 && r.productVersion == w.productVersion
    requires r.sources == w.sources && r.progress == Progress(r.stages)
    ensures ValidWorkflow(r) <==>
      && ValidStage(stage) && (r.status.WaitingForReview? ==> ReviewId in r.references)
      && (r.status.Failed? ==> r.errorCode.Some? && r.errorCode.value != "")
  {
  }

  lemma FailedRecordValid(w: Workflow, name: StageName, code: string, message: string, terminal: bool)
    requires ValidWorkflow(w) && w.stages[IndexOf(name)].status.StageRunning?
    ensures var r := FailedRecord(w, name, code, message, terminal);
      ValidWorkflow(r) <==> TextFits(Some(code), 100) && TextFits(Some(message), 2000)
  {
    var k := IndexOf(name);
    var r := FailedRecord(w, name, code, message, terminal);
    var stage := w.stages[k].(status := StageFailed, errorCode := Some(code), errorMessage := Some(message));
    assert ValidStage(w.stages[k]);
    FailedStageValid(w.stages[k], code, message);
    ValidWithStage(w, r, k, stage);
    hide ValidWorkflow, ValidStage;
  }

  lemma FailedStageValid(stage: Stage, code: string, message: string)
    requires ValidStage(stage) && stage.status.StageRunning?
    ensures ValidStage(stage.(status := StageFailed, errorCode := Some(code), errorMessage := Some(message)))
      <==> TextFits(Some(code), 100) && TextFits(Some(message), 2000)
  {
  }

  lemma FailedStages(w: Workflow, name: StageName, code: string, message: string, terminal: bool)
    requires ValidWorkflow(w) && w.stages[IndexOf(name)].status.StageRunning?
    ensures FailStage(w, name, code, message, terminal) == Checked(FailedRecord(w, name, code, message, terminal))
  {
    hide ValidStage, ReplaceStage, Progress, NextStage, StageAt, Checked;
    var stage := w.stages[IndexOf(name)].(status := StageFailed, errorCode := Some(code), errorMessage := Some(message));
    ReplacesOne(w, stage, if terminal then Failed else Running, if terminal then None else NextStage(w.stages, name));
  }

  lemma ReplacesOne(w: Workflow, stage: Stage, status: WorkflowStatus, current: Option<StageName>)
    requires Ordered(w.stages)
    ensures var stages := w.stages[IndexOf(stage.name) := stage];
      ReplaceStage(w, stage, status, current)
      == w.(stages := stages, progress := Progress(stages), version := w.version + 1, status := status, currentStage := current)
  {
  }

  /** Failing the current stage is refused exactly when the error texts are blank or too long. */
  lemma FailStageShape(w: Workflow, name: StageName, code: string, message: string, terminal: bool)
    requires AtStage(w, name, StageRunning) && (terminal || Optional(name))
    ensures var r := FailStage(w, name, code, message, terminal);
      && (r.Success? <==> Visible(code) && |code| <= 100 && Visible(message) && |message| <= 2000)
      && (r.Success? ==>
        && Shape(r.value) && r.value.progress == w.progress
        && r.value.status == (if terminal then Failed else Running)
        && UnfinishedCount(r.value.stages) == UnfinishedCount(w.stages) - 1)
  {
    var k: nat :| ShapeAt(w, k);
    IndexOfStageAt(k);
    FailedStages(w, name, code, message, terminal);
    FailedRecordValid(w, name, code, message, terminal);
    var r := FailStage(w, name, code, message, terminal);
    if r.Success? {
      FrontierAdvances(w, k, r.value, r.value.stages[k]);
    }
  }

  /** A running workflow without a current stage can always finish. */
  lemma FinishShape(w: Workflow, withWarnings: bool)
    requires Shape(w) && w.status.Running? && w.currentStage.None?
    ensures Finish(w, withWarnings).Success?
    ensures var r := Finish(w, withWarnings).value;
      Shape(r) && Terminal(r.status) && r.progress == 100 && w.progress <= 100 && r.id == w.id
  {
    var k: nat :| ShapeAt(w, k);
    assert ShapeAt(Finish(w, withWarnings).value, STAGE_COUNT);
  }

  /** A terminal workflow has no running stage, so nothing can move it any more: even
      `FailStage`, which does not look at the workflow status. */
  lemma TerminalIsFinal(w: Workflow, name: StageName, o: Outcome, code: string, message: string, flag: bool)
    requires Shape(w) && Terminal(w.status)
    ensures Begin(w).Failure? && StartStage(w, name).Failure? && ApplyOutcome(w, name, o).Failure?
    ensures ResumeReview(w).Failure? && FailStage(w, name, code, message, flag).Failure? && Finish(w, flag).Failure?
  {
    var k: nat :| ShapeAt(w, k);
    var i := IndexOf(name);
    assert !w.stages[i].status.StageRunning? by { if i >= k { assert Suffix(w, k); } }
  }
}
