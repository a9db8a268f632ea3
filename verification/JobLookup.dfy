/**
 The jobs behind the stages of a workflow: which identifiers a new job is given,
 when its constructor accepts them, and the search for a completed job to reuse.
 */
module JobLookup {
  import opened Wrappers
  import opened CatalogWorkflow

  /** A job of the type that belongs to a stage, with the result identifiers it was made for. */
  datatype Job = Job(id: Id, stage: StageName, completed: bool, result: Option<string>, lineage: map<Reference, Id>)

  predicate JobBacked(stage: StageName) {
    stage !in {SourceProcessing, HumanReview, PublishingReadiness}
  }

  /** The lineage without which the job, or the step, of a stage is refused. */
  function RequiredLineage(stage: StageName): set<Reference> {
    match stage
    case AttributeExtraction => {ClassificationId}
    case AttributeNormalization => {ExtractionId}
    case ConflictDetection => {NormalizationId}
    case Completeness => {ConflictDetectionId}
    case AttributeValidation => {NormalizationId}
    case AttributeSelection => {NormalizationId, ConflictDetectionId, ValidationId, CompletenessId}
    case HumanReview => {SelectionId}
    case ReviewedAttributeMaterialization => {ReviewId}
    case CatalogProjection => {MaterializationId}
    case PublishingReadiness => {ProjectionId}
    case CatalogExport => {ProjectionId}
    case AiEnrichment => {ProjectionId}
    case ProductIntelligenceScore => {ProjectionId}
    case _ => {}
  }

  /** The references of a workflow that a new job of a stage is given, where the workflow has them. */
  function GivenTo(stage: StageName): set<Reference> {
    match stage
    case AttributeExtraction => {ClassificationId}
    case AttributeNormalization => {ExtractionId}
    case ConflictDetection => {NormalizationId}
    case Completeness => {ConflictDetectionId}
    case AttributeValidation => {NormalizationId}
    case AttributeSelection => {NormalizationId, ConflictDetectionId, ValidationId, CompletenessId}
    case ReviewedAttributeMaterialization => {ReviewId}
    case CatalogProjection => {MaterializationId}
    case CatalogExport => {ProjectionId}
    case AiEnrichment => {ProjectionId}
    case ProductIntelligenceScore => {ProjectionId, EnrichmentId}
    case _ => {}
  }

  function Given(stage: StageName, references: map<Reference, Id>): map<Reference, Id> {
    map r | r in GivenTo(stage) && r in references :: references[r]
  }

  /** The constructor's checks, identifier by identifier. */
  predicate LineageAccepted(stage: StageName, lineage: map<Reference, Id>) {
    && (ClassificationId in lineage <==> stage.AttributeExtraction?)
    && (ExtractionId in lineage <==> stage.AttributeNormalization?)
    && (NormalizationId in lineage <==> stage in {ConflictDetection, AttributeValidation, AttributeSelection})
    && (ConflictDetectionId in lineage <==> stage in {Completeness, AttributeSelection})
    && (ValidationId in lineage <==> stage.AttributeSelection?)
    && (CompletenessId in lineage <==> stage.AttributeSelection?)
    && (ReviewId in lineage <==> stage.ReviewedAttributeMaterialization?)
    && (MaterializationId in lineage <==> stage.CatalogProjection?)
    && (ProjectionId in lineage <==> stage in {CatalogExport, AiEnrichment, ProductIntelligenceScore})
    && (EnrichmentId in lineage ==> stage.ProductIntelligenceScore?)
  }

  function NewJob(id: Id, stage: StageName, references: map<Reference, Id>): Result<Job, WorkflowError> {
    var lineage := Given(stage, references);
    if LineageAccepted(stage, lineage) then Success(Job(id, stage, false, None, lineage)) else Failure(InvalidEntity)
  }

  /** A new job is refused exactly when the workflow lacks what its stage requires; it is pending,
      without a result, for just the references the workflow has. */
  lemma NewJobNeedsItsLineage(id: Id, stage: StageName, references: map<Reference, Id>)
    requires JobBacked(stage)
    ensures NewJob(id, stage, references).Success? <==> RequiredLineage(stage) <= references.Keys
    ensures NewJob(id, stage, references).Success? ==>
      NewJob(id, stage, references).value == Job(id, stage, false, None, Given(stage, references))
  {
    hide GivenTo, RequiredLineage, LineageAccepted;
    RequiredIsGiven(stage);
    LineageAcceptedIff(stage, Given(stage, references));
  }

  lemma RequiredIsGiven(stage: StageName)
    requires JobBacked(stage)
    ensures RequiredLineage(stage) <= GivenTo(stage)
  {
  }

  lemma AcceptedIsGiven(stage: StageName, lineage: map<Reference, Id>, r: Reference)
    requires JobBacked(stage) && LineageAccepted(stage, lineage) && r in lineage
    ensures r in GivenTo(stage) || r in {SelectionId, ExportId, ScoreId}
  {
    match r
    case ClassificationId =>
    case ExtractionId =>
    case NormalizationId =>
    case ConflictDetectionId =>
    case CompletenessId =>
    case ValidationId =>
    case ReviewId =>
    case MaterializationId =>
    case ProjectionId =>
    case EnrichmentId =>
    case _ =>
  }

  /** Of the identifiers it looks at, which leave out those of a selection, an export and a score, the
      constructor accepts any lineage with what the stage requires and nothing the stage is not given. */
  lemma LineageAcceptedIff(stage: StageName, lineage: map<Reference, Id>)
    requires JobBacked(stage)
    ensures LineageAccepted(stage, lineage) <==>
      && RequiredLineage(stage) <= lineage.Keys
      && forall r :: r in lineage ==> r in GivenTo(stage) || r in {SelectionId, ExportId, ScoreId}
  {
    if LineageAccepted(stage, lineage) {
      forall r | r in lineage ensures r in GivenTo(stage) || r in {SelectionId, ExportId, ScoreId} {
        AcceptedIsGiven(stage, lineage, r);
      }
    }
  }

  // ----- the search for a job to reuse ---------------------------------------------------------

  predicate Reusable(job: Job, stage: StageName) { job.stage == stage && job.completed && job.result.Some? }

  predicate Compatible(job: Job, expected: Job) { Reusable(job, expected.stage) && job.lineage == expected.lineage }

  /** A completed job, with its result, that was made for a stage on exactly those of these references
      that jobs of the stage are given. */
  ghost predicate MadeFor(job: Job, stage: StageName, references: map<Reference, Id>) {
    && job.stage == stage && job.completed && job.result.Some?
    && forall r :: (r in job.lineage <==> r in GivenTo(stage) && r in references)
                   && (r in job.lineage && r in references ==> job.lineage[r] == references[r])
  }

  /** A job is given what its stage requires; only the score is given the enrichment besides, if there is one. */
  lemma GivenIs(stage: StageName)
    requires JobBacked(stage)
    ensures GivenTo(stage) == RequiredLineage(stage) + if stage.ProductIntelligenceScore? then {EnrichmentId} else {}
  {
  }

  ghost predicate Listed(pages: seq<seq<Job>>, job: Job) { exists i :: 0 <= i < |pages| && job in pages[i] }

  function FirstOnPage(jobs: seq<Job>, expected: Job): (r: Option<Job>)
    ensures r.Some? ==> r.value in jobs && Compatible(r.value, expected)
    ensures r.None? ==> forall job :: job in jobs ==> !Compatible(job, expected)
  {
    if jobs == [] then None
    else if Compatible(jobs[0], expected) then Some(jobs[0])
    else FirstOnPage(jobs[1..], expected)
  }

  /** The first compatible job in the order of the listing. */
  function FirstCompatible(pages: seq<seq<Job>>, expected: Job): (r: Option<Job>)
    ensures r.Some? ==> Listed(pages, r.value) && Compatible(r.value, expected)
    ensures r.None? ==> forall job :: Listed(pages, job) ==> !Compatible(job, expected)
  {
    if pages == [] then None
    else
      match FirstOnPage(pages[0], expected)
      case Some(job) => Some(job)
      case None =>
        var r := FirstCompatible(pages[1..], expected);
        assert forall i :: 1 <= i < |pages| ==> pages[i] == pages[1..][i - 1];
        r
  }

  /** What is found is a job made for the stage on the workflow's references, if one is listed. */
  lemma FirstCompatibleIs(pages: seq<seq<Job>>, id: Id, stage: StageName, references: map<Reference, Id>)
    requires NewJob(id, stage, references).Success?
    ensures var r := FirstCompatible(pages, NewJob(id, stage, references).value);
      && (r.Some? <==> exists job :: Listed(pages, job) && MadeFor(job, stage, references))
      && (r.Some? ==> Listed(pages, r.value) && MadeFor(r.value, stage, references) && r.value.result.Some?)
  {
    hide Listed, GivenTo, FirstCompatible, LineageAccepted;
    var expected := NewJob(id, stage, references).value;
    forall job ensures Compatible(job, expected) <==> MadeFor(job, stage, references) {
      assert MadeFor(job, stage, references) ==> job.lineage == Given(stage, references);
    }
  }

  /** No job of the first `i` pages, nor of the first `j` on the page after them, is compatible. */
  ghost predicate NoneBefore(pages: seq<seq<Job>>, i: nat, j: nat, expected: Job) {
    && (forall a, b :: 0 <= a < i && a < |pages| && 0 <= b < |pages[a]| ==> !Compatible(pages[a][b], expected))
    && (forall b :: i < |pages| && 0 <= b < j && b < |pages[i]| ==> !Compatible(pages[i][b], expected))
  }

  /** The page loop: it returns the first compatible job, none before it being so. */
  method FindCompatibleJob(pages: seq<seq<Job>>, expected: Job) returns (r: Option<Job>)
    ensures r == FirstCompatible(pages, expected)
    ensures r.Some? ==> exists i, j ::
      (0 <= i < |pages| && 0 <= j < |pages[i]| && pages[i][j] == r.value && NoneBefore(pages, i, j, expected))
  {
    hide Compatible;
    assert pages[0..] == pages;
    for i := 0 to |pages|
      invariant NoneBefore(pages, i, 0, expected)
      invariant FirstCompatible(pages, expected) == FirstCompatible(pages[i..], expected)
    {
      assert pages[i][0..] == pages[i];
      for j := 0 to |pages[i]|
        invariant NoneBefore(pages, i, j, expected)
        invariant FirstOnPage(pages[i], expected) == FirstOnPage(pages[i][j..], expected)
      {
        assert pages[i][j..][1..] == pages[i][j + 1..];
        if Compatible(pages[i][j], expected) {
          return Some(pages[i][j]);
        }
      }
      assert pages[i..][1..] == pages[i + 1..];
    }
    return None;
  }

  /** A job that two workflows could both reuse for a stage was made for the same upstream results
      of both: of one workflow's lineage and another's, no result is ever shared. */
  lemma ReuseKeepsLineage(job: Job, a: Id, b: Id, stage: StageName, first: map<Reference, Id>, second: map<Reference, Id>)
    requires NewJob(a, stage, first).Success? && Compatible(job, NewJob(a, stage, first).value)
    requires NewJob(b, stage, second).Success? && Compatible(job, NewJob(b, stage, second).value)
    ensures forall r :: r in GivenTo(stage) ==>
      (r in first <==> r in second) && (r in first && r in second ==> first[r] == second[r])
  {
    forall r | r in GivenTo(stage)
      ensures (r in first <==> r in second) && (r in first && r in second ==> first[r] == second[r])
    {
      assert r in Given(stage, first) <==> r in first;
      assert r in Given(stage, second) <==> r in second;
    }
  }
}
