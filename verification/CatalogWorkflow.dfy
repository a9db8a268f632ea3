/**
 The catalog intelligence workflow: its stage vocabulary, its immutable
 entities with the checks their constructors make, and the transitions of the
 state machine. Timestamps are left out; identifiers are natural numbers.
 */
module CatalogWorkflow {
  import opened Wrappers
  import opened Texts

  type Id = nat

  datatype WorkflowStatus =
    | Pending | Running | WaitingForReview | Failed | Completed | CompletedWithWarnings

  datatype StageStatus =
    | NotStarted | StageRunning | StageCompleted | Skipped | Waiting | StageFailed

  datatype StageName =
    | SourceProcessing | ProductClassification | AttributeExtraction | AttributeNormalization
    | ConflictDetection | Completeness | AttributeValidation | AttributeSelection | HumanReview
    | ReviewedAttributeMaterialization | CatalogProjection | PublishingReadiness
    | CatalogExport | AiEnrichment | ProductIntelligenceScore

  /** The lineage identifiers that a workflow collects from its stages. */
  datatype Reference =
    | ClassificationId | ExtractionId | NormalizationId | ConflictDetectionId | CompletenessId
    | ValidationId | SelectionId | ReviewId | MaterializationId | ProjectionId | ExportId
    | EnrichmentId | ScoreId

  const STAGE_COUNT := 15

  function StageAt(i: int): StageName
    requires 0 <= i < STAGE_COUNT
  {
    [SourceProcessing, ProductClassification, AttributeExtraction, AttributeNormalization,
     ConflictDetection, Completeness, AttributeValidation, AttributeSelection, HumanReview,
     ReviewedAttributeMaterialization, CatalogProjection, PublishingReadiness,
     CatalogExport, AiEnrichment, ProductIntelligenceScore][i]
  }

  function IndexOf(stage: StageName): (i: nat)
    ensures i < STAGE_COUNT && StageAt(i) == stage
  {
    match stage
    case SourceProcessing => 0
    case ProductClassification => 1
    case AttributeExtraction => 2
    case AttributeNormalization => 3
    case ConflictDetection => 4
    case Completeness => 5
    case AttributeValidation => 6
    case AttributeSelection => 7
    case HumanReview => 8
    case ReviewedAttributeMaterialization => 9
    case CatalogProjection => 10
    case PublishingReadiness => 11
    case CatalogExport => 12
    case AiEnrichment => 13
    case ProductIntelligenceScore => 14
  }

  lemma IndexOfStageAt(i: nat)
    requires i < STAGE_COUNT
    ensures IndexOf(StageAt(i)) == i
  {
  }

  predicate Optional(stage: StageName) {
    stage in {CatalogExport, AiEnrichment, ProductIntelligenceScore}
  }

  predicate Terminal(status: WorkflowStatus) {
    status in {Failed, Completed, CompletedWithWarnings}
  }

  predicate Finished(status: StageStatus) {
    status in {StageCompleted, Skipped, StageFailed}
  }

  datatype SourceType = PdfSource | ImageSource | CsvSource | TextSource

  /** A product source as it was when the workflow was created. */
  datatype SourceEntry = SourceEntry(id: Id, kind: SourceType)

  datatype Configuration = Configuration(
    applyPublishingReadiness: bool, generateExport: bool, generateAiEnrichment: bool,
    calculateIntelligenceScore: bool, failOnOptionalStageError: bool)

  datatype Stage = Stage(
    name: StageName, status: StageStatus, jobId: Option<Id>, childJobIds: seq<Id>,
    resultReference: Option<string>, errorCode: Option<string>, errorMessage: Option<string>,
    skipReason: Option<string>)

  datatype Outcome = Outcome(
    status: StageStatus, jobId: Option<Id>, childJobIds: seq<Id>, resultReference: Option<string>,
    skipReason: Option<string>, references: map<Reference, Id>, productVersion: Option<int>)

  datatype Workflow = Workflow(
    id: Id, product: Id, status: WorkflowStatus, version: int, productVersion: int,
    configuration: Configuration, sources: seq<SourceEntry>, currentStage: Option<StageName>,
    progress: int, stages: seq<Stage>, references: map<Reference, Id>,
    errorCode: Option<string>, errorMessage: Option<string>)

  datatype WorkflowError = InvalidStatus | StageNotStartable | StageNotRunning
    | ReviewStageNotWaiting | UnfinishedStages | FailedCoreStage | InvalidEntity

  // ----- what the constructors accept ----------------------------------------

  predicate TextFits(text: Option<string>, maximum: nat) {
    text.Some? ==> Visible(text.value) && |text.value| <= maximum
  }

  predicate ValidStage(s: Stage) {
    && |s.childJobIds| <= 200
    && (s.status.NotStarted? ==> s.errorCode.None? && s.skipReason.None?)
    && (s.status.Skipped? ==> s.skipReason.Some? && s.skipReason.value != "")
    && (s.status.StageFailed? ==> s.errorCode.Some? && s.errorCode.value != "")
    && TextFits(s.resultReference, 1024) && TextFits(s.errorCode, 100)
    && TextFits(s.errorMessage, 2000) && TextFits(s.skipReason, 100)
  }

  predicate ValidOutcome(o: Outcome) {
    && o.status in {StageCompleted, Skipped, Waiting}
    && (o.status.Skipped? ==> o.skipReason.Some? && o.skipReason.value != "")
    && (o.status.Waiting? ==> ReviewId in o.references)
  }

  predicate Ordered(stages: seq<Stage>) {
    && |stages| == STAGE_COUNT
    && forall i :: 0 <= i < STAGE_COUNT ==> stages[i].name == StageAt(i)
  }

  predicate DistinctSources(sources: seq<SourceEntry>) {
    forall i, j :: 0 <= i < j < |sources| ==> sources[i].id != sources[j].id
  }

  predicate ValidWorkflow(w: Workflow) {
    && w.version >= 1 && w.productVersion >= 1
    && 0 <= w.progress <= 100
    && Ordered(w.stages)
    && 1 <= |w.sources| <= 50
    && DistinctSources(w.sources)
    && (w.status.WaitingForReview? ==> ReviewId in w.references)
    && (w.status.Failed? ==> w.errorCode.Some? && w.errorCode.value != "")
    && (forall i :: 0 <= i < |w.stages| ==> ValidStage(w.stages[i]))
  }

  function Checked(w: Workflow): Result<Workflow, WorkflowError> {
    if ValidWorkflow(w) then Success(w) else Failure(InvalidEntity)
  }

  // ----- helpers of the transitions ------------------------------------------

  function DoneCount(stages: seq<Stage>): (n: nat)
    ensures n <= |stages|
  {
    if stages == [] then 0
    else (if stages[0].status in {StageCompleted, Skipped} then 1 else 0) + DoneCount(stages[1..])
  }

  function Progress(stages: seq<Stage>): int
    requires |stages| > 0
  {
    DoneCount(stages) * 100 / |stages|
  }

  /** The first stage from position `from` on that has not started. */
  function FirstNotStarted(stages: seq<Stage>, from: nat): (r: Option<StageName>)
    requires from <= |stages|
    ensures r.Some? ==> exists i :: (
        && from <= i < |stages| && stages[i].name == r.value && stages[i].status.NotStarted?
        && forall j :: from <= j < i ==> !stages[j].status.NotStarted?)
    ensures r.None? ==> forall j :: from <= j < |stages| ==> !stages[j].status.NotStarted?
    decreases |stages| - from
  {
    if from == |stages| then None
    else if stages[from].status.NotStarted? then Some(stages[from].name)
    else FirstNotStarted(stages, from + 1)
  }

  function NextStage(stages: seq<Stage>, current: StageName): Option<StageName>
    requires Ordered(stages)
  {
    FirstNotStarted(stages, IndexOf(current) + 1)
  }

  /** The scan that the state machine runs, with its `found` flag. */
  method ScanForNextStage(stages: seq<Stage>, current: StageName) returns (r: Option<StageName>)
    requires Ordered(stages)
    ensures r == NextStage(stages, current)
  {
    var found := false;
    for i := 0 to |stages|
      invariant found <==> IndexOf(current) < i
      invariant found ==> FirstNotStarted(stages, i) == NextStage(stages, current)
    {
      IndexOfStageAt(i);
      if stages[i].name == current {
        found := true;
      } else if found && stages[i].status.NotStarted? {
        return Some(stages[i].name);
      }
    }
    return None;
  }

  function Replaced(stages: seq<Stage>, stage: Stage): (r: seq<Stage>)
    requires Ordered(stages)
    ensures r == stages[IndexOf(stage.name) := stage]
  {
    var r := seq(|stages|, i requires 0 <= i < |stages| =>
      if stages[i].name == stage.name then stage else stages[i]);
    assert forall i :: 0 <= i < STAGE_COUNT ==> IndexOf(StageAt(i)) == i;
    r
  }

  function ReplaceStage(w: Workflow, stage: Stage, status: WorkflowStatus,
                        current: Option<StageName>): Workflow
    requires Ordered(w.stages)
  {
    var stages := Replaced(w.stages, stage);
    w.(stages := stages, progress := Progress(stages), version := w.version + 1,
       status := status, currentStage := current)
  }

  predicate InStatus(w: Workflow, expected: WorkflowStatus) {
    !Terminal(w.status) && w.status == expected
  }

  // ----- the transitions -----------------------------------------------------

  function NewStage(name: StageName): Stage {
    Stage(name, NotStarted, None, [], None, None, None, None)
  }

  function NewWorkflow(id: Id, product: Id, productVersion: int, configuration: Configuration,
                       sources: seq<SourceEntry>): Result<Workflow, WorkflowError> {
    Checked(Workflow(id, product, Pending, 1, productVersion, configuration, sources,
                     Some(SourceProcessing), 0,
                     seq(STAGE_COUNT, i requires 0 <= i < STAGE_COUNT => NewStage(StageAt(i))),
                     map[], None, None))
  }

  function Begin(w: Workflow): Result<Workflow, WorkflowError> {
    if !InStatus(w, Pending) then Failure(InvalidStatus)
    else Checked(w.(status := Running, version := w.version + 1))
  }

  function StartStage(w: Workflow, name: StageName): Result<Workflow, WorkflowError>
    requires Ordered(w.stages)
  {
    var stage := w.stages[IndexOf(name)];
    if !InStatus(w, Running) then Failure(InvalidStatus)
    else if !stage.status.NotStarted? then Failure(StageNotStartable)
    else Checked(ReplaceStage(w, stage.(status := StageRunning), Running, Some(name)))
  }

  function ApplyOutcome(w: Workflow, name: StageName, o: Outcome): Result<Workflow, WorkflowError>
    requires Ordered(w.stages)
  {
    var stage := w.stages[IndexOf(name)];
    if !InStatus(w, Running) then Failure(InvalidStatus)
    else if !stage.status.StageRunning? then Failure(StageNotRunning)
    else
      var updated := stage.(status := o.status, jobId := o.jobId, childJobIds := o.childJobIds,
                            resultReference := o.resultReference, skipReason := o.skipReason);
      var current := if o.status.Waiting? then Some(name) else NextStage(w.stages, name);
      var next := ReplaceStage(w, updated, if o.status.Waiting? then WaitingForReview else Running, current);
      Checked(next.(references := w.references + o.references,
                    productVersion := if o.productVersion.Some? then o.productVersion.value
                                      else w.productVersion))
  }

  function ResumeReview(w: Workflow): Result<Workflow, WorkflowError>
    requires Ordered(w.stages)
  {
    var stage := w.stages[IndexOf(HumanReview)];
    if !InStatus(w, WaitingForReview) then Failure(InvalidStatus)
    else if !stage.status.Waiting? then Failure(ReviewStageNotWaiting)
    else Checked(ReplaceStage(w, stage.(status := StageRunning), Running, Some(HumanReview)))
  }

  /** There is no check of the workflow status here, only of the stage. */
  function FailStage(w: Workflow, name: StageName, code: string, message: string,
                     terminal: bool): Result<Workflow, WorkflowError>
    requires Ordered(w.stages)
  {
    var stage := w.stages[IndexOf(name)];
    if !stage.status.StageRunning? then Failure(StageNotRunning)
    else
      var failed := stage.(status := StageFailed, errorCode := Some(code), errorMessage := Some(message));
      var next := ReplaceStage(w, failed, if terminal then Failed else Running,
                               if terminal then None else NextStage(w.stages, name));
      Checked(next.(errorCode := if terminal then Some(code) else None,
                    errorMessage := if terminal then Some(message) else None))
  }

  function Finish(w: Workflow, withWarnings: bool): Result<Workflow, WorkflowError> {
    if !InStatus(w, Running) then Failure(InvalidStatus)
    else if exists i :: 0 <= i < |w.stages| && !Finished(w.stages[i].status) then Failure(UnfinishedStages)
    else if exists i :: 0 <= i < |w.stages| && w.stages[i].status.StageFailed? && !Optional(w.stages[i].name)
      then Failure(FailedCoreStage)
    else Checked(w.(status := if withWarnings then CompletedWithWarnings else Completed,
                    version := w.version + 1, currentStage := None, progress := 100))
  }
}
