/**
 What each stage of a workflow can give. The services, job lookups and stores
 that a stage consults are answers in an environment, one per call.
 */
module StageExecutor {
  import opened Wrappers
  import opened CatalogWorkflow
  import opened JobLookup
  import Numerals

  /** The code and the safe message that the orchestrator reads off an exception. */
  datatype Raised = Raised(code: string, message: string)

  const PLAIN_ERROR := Raised("WORKFLOW_STAGE_FAILED", "Workflow stage execution failed.")
  const UNRESOLVED := Raised("WORKFLOW_CLASSIFICATION_UNRESOLVED",
                             "Product classification did not resolve to one supported category.")
  const REVIEW_NOT_COMPLETED := 
    Raised("WORKFLOW_REVIEW_NOT_COMPLETED", "The exact Product review must be completed before resuming.")

  datatype RunResult = RunResult(id: Id, classified: bool)

  datatype ReviewView = ReviewView(id: Id, ofThisProduct: bool, completed: bool)
  datatype ProductView = ProductView(version: int, reviewRequired: bool, readyToPublish: bool)
  datatype ProjectionStatus = Ready | ReadyWithWarnings | Blocked

  datatype Environment = Environment(
    sourceJobs: Result<seq<Id>, Raised>,
    listing: Result<seq<seq<Job>>, Raised>,      // the jobs of the product, page by page
    loaded: Result<Option<RunResult>, Raised>,   // the stored result of the job found
    newJob: Id,
    created: Result<(), Raised>,                 // storing a new job
    run: Result<RunResult, Raised>,              // running it
    review: Result<ReviewView, Raised>,
    product: Result<Option<ProductView>, Raised>,
    productUpdate: Result<int, Raised>,
    projection: Result<Option<ProjectionStatus>, Raised>,
    readiness: Result<(), Raised>)

  /** The reference a job-backed stage adds to the workflow. */
  function ResultReference(stage: StageName): Option<Reference> {
    match stage
    case ProductClassification => Some(ClassificationId)
    case AttributeExtraction => Some(ExtractionId)
    case AttributeNormalization => Some(NormalizationId)
    case ConflictDetection => Some(ConflictDetectionId)
    case Completeness => Some(CompletenessId)
    case AttributeValidation => Some(ValidationId)
    case AttributeSelection => Some(SelectionId)
    case HumanReview => Some(ReviewId)
    case ReviewedAttributeMaterialization => Some(MaterializationId)
    case CatalogProjection => Some(ProjectionId)
    case CatalogExport => Some(ExportId)
    case AiEnrichment => Some(EnrichmentId)
    case ProductIntelligenceScore => Some(ScoreId)
    case _ => None
  }

  predicate MaySkip(stage: StageName) { Optional(stage) || stage.PublishingReadiness? }

  function Reason(reason: string): Outcome {
    Outcome(Skipped, None, [], None, Some(reason), map[], None)
  }

  function SourceOutcome(w: Workflow, env: Environment): Result<Outcome, Raised> {
    match env.sourceJobs
    case Failure(e) => Failure(e)
    case Success(jobs) =>
      Success(Outcome(StageCompleted, None, jobs,
                      Some("catalog-workflows/" + Numerals.Digits(w.id) + "/sources"), None, map[], None))
  }

  function ReviewOutcome(w: Workflow, env: Environment): Result<Outcome, Raised> {
    if SelectionId !in w.references then Failure(PLAIN_ERROR)
    else if env.review.Failure? then Failure(env.review.error)
    else
      var review := env.review.value;
      var reference := Some("product-reviews/" + Numerals.Digits(review.id));
      if !review.ofThisProduct then Failure(REVIEW_NOT_COMPLETED)
      else if env.product.Failure? then Failure(env.product.error)
      else if env.product.value.None? then Failure(PLAIN_ERROR)
      else
        var product := env.product.value.value;
        if review.completed then
          Success(Outcome(StageCompleted, None, [], reference, None, map[ReviewId := review.id],
                          Some(product.version)))
        else if !product.reviewRequired && env.productUpdate.Failure? then Failure(env.productUpdate.error)
        else
          Success(Outcome(Waiting, None, [], reference, None, map[ReviewId := review.id],
                          Some(if product.reviewRequired then product.version else env.productUpdate.value)))
  }

  function ReadinessOutcome(w: Workflow, env: Environment): Result<Outcome, Raised> {
    if !w.configuration.applyPublishingReadiness then Success(Reason("DISABLED"))
    else if ProjectionId !in w.references then Failure(PLAIN_ERROR)
    else if env.projection.Failure? then Failure(env.projection.error)
    else if env.projection.value.None? then Failure(PLAIN_ERROR)
    else if env.projection.value.value.Blocked? then Success(Reason("PROJECTION_BLOCKED"))
    else if env.product.Failure? then Failure(env.product.error)
    else if env.product.value.None? then Failure(PLAIN_ERROR)
    else if env.product.value.value.readyToPublish then Success(Reason("ALREADY_READY_TO_PUBLISH"))
    else if env.readiness.Failure? then Failure(env.readiness.error)
    else
      Success(Outcome(StageCompleted, None, [],
                      Some("catalog-projection-results/" + Numerals.Digits(w.references[ProjectionId]) + "/readiness"),
                      None, map[], None))
  }

  predicate Disabled(stage: StageName, configuration: Configuration) {
    match stage
    case CatalogExport => !configuration.generateExport
    case AiEnrichment => !configuration.generateAiEnrichment
    case ProductIntelligenceScore => !configuration.calculateIntelligenceScore
    case _ => false
  }

  /** A skip, nothing, or the error of reading the projection. */
  function OptionalSkip(stage: StageName, w: Workflow, env: Environment): Result<Option<Outcome>, Raised> {
    if Disabled(stage, w.configuration) then Success(Some(Reason("DISABLED")))
    else if stage in {CatalogExport, AiEnrichment} && ProjectionId in w.references then
      match env.projection
      case Failure(e) => Failure(e)
      case Success(Some(Blocked)) => Success(Some(Reason("PROJECTION_BLOCKED")))
      case Success(_) => Success(None)
    else Success(None)
  }

  /** The outcome of a stage with the job it holds and that job's result. */
  function CompletedWith(stage: StageName, job: Job, result: RunResult): Result<Outcome, Raised> {
    if stage.ProductClassification? && !result.classified then Failure(UNRESOLVED)
    else if job.result.None? then Failure(PLAIN_ERROR)
    else
      var references := if ResultReference(stage).Some? then map[ResultReference(stage).value := result.id] else map[];
      Success(Outcome(StageCompleted, Some(job.id), [], job.result, None, references, None))
  }

  /** A completed compatible job is reused; if there is none, a new one is stored and run. */
  function JobOutcome(stage: StageName, w: Workflow, env: Environment): Result<Outcome, Raised> {
    var expected := NewJob(env.newJob, stage, w.references);
    if expected.Failure? then Failure(PLAIN_ERROR)
    else if env.listing.Failure? then Failure(env.listing.error)
    else
      match FirstCompatible(env.listing.value, expected.value)
      case Some(job) =>
        (match env.loaded
         case Failure(e) => Failure(e)
         case Success(None) => Failure(PLAIN_ERROR)
         case Success(Some(result)) => CompletedWith(stage, job, result))
      case None =>
        if env.created.Failure? then Failure(env.created.error)
        else if env.run.Failure? then Failure(env.run.error)
        else CompletedWith(stage, expected.value, env.run.value)
  }

  /** Only the review stage waits, only four stages skip, and a completed stage leaves its reference. */
  ghost predicate OutcomeFits(stage: StageName, o: Outcome) {
    && ValidOutcome(o)
    && (o.status.Waiting? ==> stage.HumanReview?)
    && (o.status.Skipped? ==> MaySkip(stage))
    && (o.status.StageCompleted? && ResultReference(stage).Some? ==> ResultReference(stage).value in o.references)
  }

  function Execute(stage: StageName, w: Workflow, env: Environment): (r: Result<Outcome, Raised>)
    ensures r.Success? ==> OutcomeFits(stage, r.value)
  {
    if stage.SourceProcessing? then SourceOutcome(w, env)
    else if stage.HumanReview? then ReviewOutcome(w, env)
    else if stage.PublishingReadiness? then ReadinessOutcome(w, env)
    else
      match OptionalSkip(stage, w, env)
      case Failure(e) => Failure(e)
      case Success(Some(skip)) => Success(skip)
      case Success(None) => JobOutcome(stage, w, env)
  }

  /** The listing holds a completed job for exactly what the workflow has so far, and its result loads. */
  ghost predicate ReusesCompletedJob(stage: StageName, w: Workflow, env: Environment) {
    && env.listing.Success? && (exists job :: Listed(env.listing.value, job) && MadeFor(job, stage, w.references))
    && env.loaded.Success? && env.loaded.value.Some?
    && (stage.ProductClassification? ==> env.loaded.value.value.classified)
  }

  /** A job-backed stage that is not skipped completes exactly on a job that was completed before
      and is in the listing, which it names; a job that it creates itself never completes it, for
      the record the stage holds is the pending one, which has no result. */
  lemma JobStageCompletes(stage: StageName, w: Workflow, env: Environment)
    requires JobBacked(stage) && OptionalSkip(stage, w, env) == Success(None)
    ensures (Execute(stage, w, env).Success? && Execute(stage, w, env).value.status.StageCompleted?)
       <==> RequiredLineage(stage) <= w.references.Keys && ReusesCompletedJob(stage, w, env)
  {
    hide NewJob, FirstCompatible, Listed, MadeFor, RequiredLineage, OptionalSkip, NoneBefore;
    NewJobNeedsItsLineage(env.newJob, stage, w.references);
    if env.listing.Success? && NewJob(env.newJob, stage, w.references).Success? {
      FirstCompatibleIs(env.listing.value, env.newJob, stage, w.references);
    }
  }

  /** The outcome of a completed job-backed stage names the job found and that job's result, and its one
      reference is the identifier of the result that was loaded. */
  lemma CompletedNamesJob(stage: StageName, w: Workflow, env: Environment)
    requires JobBacked(stage) && Execute(stage, w, env).Success? && Execute(stage, w, env).value.status.StageCompleted?
    ensures env.listing.Success? && env.loaded.Success? && env.loaded.value.Some?
    ensures ResultReference(stage).Some?
    ensures Execute(stage, w, env).value.references == map[ResultReference(stage).value := env.loaded.value.value.id]
    ensures var o := Execute(stage, w, env).value;
      exists job :: Listed(env.listing.value, job) && MadeFor(job, stage, w.references) && o.jobId == Some(job.id)
                    && o.resultReference == job.result
  {
    hide NewJob, FirstCompatible, Listed, MadeFor, RequiredLineage;
    NewJobNeedsItsLineage(env.newJob, stage, w.references);
    if env.listing.Success? && NewJob(env.newJob, stage, w.references).Success? {
      FirstCompatibleIs(env.listing.value, env.newJob, stage, w.references);
    }
  }

  /** The review stage completes on a completed review and waits on an open one, of this product in
      either case, and leaves the review and the product's version. */
  lemma ReviewStageWaitsWhileOpen(w: Workflow, env: Environment)
    requires Execute(HumanReview, w, env).Success?
    ensures var o := Execute(HumanReview, w, env).value;
      && env.review.Success? && env.review.value.ofThisProduct && SelectionId in w.references
      && o.references == map[ReviewId := env.review.value.id] && o.productVersion.Some?
      && o.resultReference == Some("product-reviews/" + Numerals.Digits(env.review.value.id))
      && (o.status.StageCompleted? <==> env.review.value.completed) && (o.status.Waiting? <==> !env.review.value.completed)
  {
  }

  /** The review stage has an outcome exactly if there is a selection, the review is found and is of this
      product, the product is found, and, for an open review of a product that does not say so yet, its
      update succeeds. */
  lemma ReviewStageSucceedsIff(w: Workflow, env: Environment)
    ensures Execute(HumanReview, w, env).Success? <==>
      && SelectionId in w.references && env.review.Success? && env.review.value.ofThisProduct
      && env.product.Success? && env.product.value.Some?
      && (env.review.value.completed || env.product.value.value.reviewRequired || env.productUpdate.Success?)
  {
  }

  /** The readiness stage has an outcome exactly if it is turned off, or its projection is found and is
      blocked, or the product is found and is ready already or can be made so. */
  lemma ReadinessStageSucceedsIff(w: Workflow, env: Environment)
    ensures Execute(PublishingReadiness, w, env).Success? <==>
      || !w.configuration.applyPublishingReadiness
      || (&& ProjectionId in w.references && env.projection.Success? && env.projection.value.Some?
          && (|| env.projection.value.value.Blocked?
              || (&& env.product.Success? && env.product.value.Some?
                  && (env.product.value.value.readyToPublish || env.readiness.Success?))))
  {
  }

  /** The error of an answer that was asked for. */
  predicate AnsweredWith(env: Environment, e: Raised) {
    || env.sourceJobs == Failure(e) || env.listing == Failure(e) || env.loaded == Failure(e) || env.created == Failure(e)
    || env.run == Failure(e) || env.review == Failure(e) || env.product == Failure(e) || env.productUpdate == Failure(e)
    || env.projection == Failure(e) || env.readiness == Failure(e)
  }

  /** An error that the executor raises is that of an answer, or says that the classification is
      unresolved, that the review is of another product, or that something is missing. */
  lemma ErrorsAreTold(stage: StageName, w: Workflow, env: Environment)
    requires Execute(stage, w, env).Failure?
    ensures var e := Execute(stage, w, env).error;
      || AnsweredWith(env, e) || e == PLAIN_ERROR
      || (e == UNRESOLVED && stage.ProductClassification?)
      || (e == REVIEW_NOT_COMPLETED && stage.HumanReview? && env.review.Success? && !env.review.value.ofThisProduct)
  {
    hide NewJob, FirstCompatible;
  }

  /** A stage that no job is behind names none; only that of the sources lists any. */
  lemma OwnStagesNameNoJob(stage: StageName, w: Workflow, env: Environment)
    requires !JobBacked(stage) && Execute(stage, w, env).Success?
    ensures var o := Execute(stage, w, env).value;
      o.jobId.None? && (o.childJobIds == [] || stage.SourceProcessing?)
  {
  }

  /** The configuration of its workflow turns the stage off. */
  ghost predicate TurnedOff(stage: StageName, c: Configuration) {
    || (stage == CatalogExport && c.generateExport == false)
    || (stage == AiEnrichment && c.generateAiEnrichment == false)
    || (stage == ProductIntelligenceScore && c.calculateIntelligenceScore == false)
    || (stage == PublishingReadiness && c.applyPublishingReadiness == false)
  }

  lemma NeverSkips(stage: StageName, w: Workflow, env: Environment)
    ensures JobOutcome(stage, w, env).Success? ==> JobOutcome(stage, w, env).value.status.StageCompleted?
    ensures ReviewOutcome(w, env).Success? ==> !ReviewOutcome(w, env).value.status.Skipped?
    ensures SourceOutcome(w, env).Success? ==> SourceOutcome(w, env).value.status.StageCompleted?
  {
    hide NewJob, FirstCompatible;
  }

  /** A stage that gives an outcome skips exactly when it is disabled, when its projection is
      blocked, or when the product is ready to publish already. */
  lemma SkipsExactlyWhen(stage: StageName, w: Workflow, env: Environment)
    requires Execute(stage, w, env).Success?
    ensures Execute(stage, w, env).value.status.Skipped? <==>
      || TurnedOff(stage, w.configuration)
      || (stage in {PublishingReadiness, CatalogExport, AiEnrichment} && ProjectionId in w.references
          && env.projection == Success(Some(Blocked)))
      || (stage.PublishingReadiness? && ProjectionId in w.references
          && env.product.Success? && env.product.value.Some? && env.product.value.value.readyToPublish)
  {
    NeverSkips(stage, w, env);
    hide JobOutcome, ReviewOutcome, SourceOutcome;
  }

  /** Why a stage skips, in the words it leaves. */
  lemma SkipReasons(stage: StageName, w: Workflow, env: Environment)
    requires Execute(stage, w, env).Success? && Execute(stage, w, env).value.status.Skipped?
    ensures match Execute(stage, w, env).value.skipReason
      case Some("DISABLED") =>
        TurnedOff(stage, w.configuration)
      case Some("PROJECTION_BLOCKED") =>
        && stage in {PublishingReadiness, CatalogExport, AiEnrichment} && ProjectionId in w.references
        && env.projection == Success(Some(Blocked))
      case Some("ALREADY_READY_TO_PUBLISH") =>
        && stage.PublishingReadiness? && ProjectionId in w.references
        && env.product.Success? && env.product.value.Some? && env.product.value.value.readyToPublish
      case _ => false
  {
    NeverSkips(stage, w, env);
    hide JobOutcome, ReviewOutcome, SourceOutcome;
  }
}
