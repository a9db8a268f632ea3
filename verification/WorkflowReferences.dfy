/**
 Which results a workflow refers to: every reference is the identifier of the
 result, or of the review, that an execution of its stage has found, and the
 product version is the one that the review left.
 */
module WorkflowReferences {
  import opened Wrappers
  import opened CatalogWorkflow
  import opened JobLookup
  import opened StageExecutor
  import opened WorkflowShape
  import opened WorkflowProtocol
  import opened WorkflowHistory
  import opened WorkflowTheorems
  import opened WorkflowExecution
  import opened WorkflowTransitions

  /** The stage whose result a reference names. */
  function SourceOf(r: Reference): StageName {
    match r
    case ClassificationId => ProductClassification
    case ExtractionId => AttributeExtraction
    case NormalizationId => AttributeNormalization
    case ConflictDetectionId => ConflictDetection
    case CompletenessId => Completeness
    case ValidationId => AttributeValidation
    case SelectionId => AttributeSelection
    case ReviewId => HumanReview
    case MaterializationId => ReviewedAttributeMaterialization
    case ProjectionId => CatalogProjection
    case ExportId => CatalogExport
    case EnrichmentId => AiEnrichment
    case ScoreId => ProductIntelligenceScore
  }

  /** The environment shows the review, or the result of a completed job for what the workflow has so far. */
  ghost predicate Shows(stage: StageName, w: Workflow, env: Environment, found: Id) {
    if stage.HumanReview? then env.review.Success? && env.review.value.ofThisProduct && env.review.value.id == found
    else
      && env.listing.Success? && (exists job :: Listed(env.listing.value, job) && MadeFor(job, stage, w.references))
      && env.loaded.Success? && env.loaded.value.Some? && env.loaded.value.value.id == found
  }

  /** The step executes the stage of the workflow that the reference is of, and finds this result or review. */
  ghost predicate Finds(s: State, step: Step, id: Id, r: Reference, found: Id) {
    var q := ProcessOf(s, step.p);
    step.RunStage? && q.Executing? && q.w.id == id && q.stage == SourceOf(r) && Shows(q.stage, q.w, step.env, found)
  }

  lemma OutcomeReferences(stage: StageName, w: Workflow, env: Environment, r: Reference)
    requires Execute(stage, w, env).Success? && r in Execute(stage, w, env).value.references
    ensures SourceOf(r) == stage && Shows(stage, w, env, Execute(stage, w, env).value.references[r])
  {
    hide Execute, Listed, MadeFor;
    if JobBacked(stage) {
      if Execute(stage, w, env).value.status.StageCompleted? {
        CompletedNamesJob(stage, w, env);
      } else {
        UncompletedReferToNothing(stage, w, env);
      }
    } else {
      OwnReferences(stage, w, env);
    }
  }

  lemma OwnReferences(stage: StageName, w: Workflow, env: Environment)
    requires !JobBacked(stage) && Execute(stage, w, env).Success?
    ensures var o := Execute(stage, w, env).value;
      if stage.HumanReview? then env.review.Success? && env.review.value.ofThisProduct && o.references == map[ReviewId := env.review.value.id]
      else o.references == map[]
  {
    hide JobOutcome, OptionalSkip;
  }

  lemma UncompletedReferToNothing(stage: StageName, w: Workflow, env: Environment)
    requires JobBacked(stage) && Execute(stage, w, env).Success? && !Execute(stage, w, env).value.status.StageCompleted?
    ensures Execute(stage, w, env).value.references == map[]
  {
    hide FirstCompatible, NewJob;
  }

  // ----- transitions add just what an outcome brings ---------------------------------------------------

  ghost predicate Adds(w: Workflow, next: Workflow, references: map<Reference, Id>, version: Option<int>) {
    && next.references == w.references + references
    && next.productVersion == if version.Some? then version.value else w.productVersion
  }

  lemma OutcomeAdds(w: Workflow, name: StageName, o: Outcome)
    requires Ordered(w.stages) && ApplyOutcome(w, name, o).Success?
    ensures Adds(w, ApplyOutcome(w, name, o).value, o.references, o.productVersion)
  {
    hide ValidWorkflow, NextStage, Progress, Replaced, Ordered;
  }

  lemma OthersAddNothing(w: Workflow, name: StageName, error: Raised, warnings: bool)
    requires Ordered(w.stages)
    ensures Begin(w).Success? ==> Adds(w, Begin(w).value, map[], None)
    ensures StartStage(w, name).Success? ==> Adds(w, StartStage(w, name).value, map[], None)
    ensures ResumeReview(w).Success? ==> Adds(w, ResumeReview(w).value, map[], None)
    ensures Fallback(w, name, error).Success? ==> Adds(w, Fallback(w, name, error).value, map[], None)
    ensures Finish(w, warnings).Success? ==> Adds(w, Finish(w, warnings).value, map[], None)
  {
    hide ValidWorkflow, NextStage, Progress, Replaced, Ordered, Truncated, FailureIsTerminal;
    assert w.references + map[] == w.references;
  }

  /** What a step writes has what its outcome brings, and nothing else that is new. */
  lemma WrittenAdds(s: State, step: Step)
    requires Inv(s) && Written(s, step).Some?
    ensures var q, next := ProcessOf(s, step.p), Written(s, step).value;
      if step.RunStage? && q.Executing? then
        && Execute(q.stage, q.w, step.env).Success?
        && var o := Execute(q.stage, q.w, step.env).value; Adds(q.w, next, o.references, o.productVersion)
      else (q.Beginning? || q.Resuming? || q.Looping? || q.Recovering?) && Adds(q.w, next, map[], None)
  {
    CopyIsKnown(s, step.p);
    hide Inv, Adds, Begin, StartStage, ApplyOutcome, ResumeReview, Fallback, Finish, Execute, Ordered, AnyFailed;
    match (step, ProcessOf(s, step.p))
    case (SendBegin(_, _), Beginning(w)) => OthersAddNothing(w, HumanReview, PLAIN_ERROR, false);
    case (SendResume(_, _), Resuming(w)) => OthersAddNothing(w, HumanReview, PLAIN_ERROR, false);
    case (Loop(_, warnings, _), Looping(w)) =>
      OthersAddNothing(w, if w.currentStage.Some? then w.currentStage.value else HumanReview, PLAIN_ERROR, warnings || AnyFailed(w));
    case (RunStage(_, env, _), Executing(w, stage)) => OutcomeAdds(w, stage, Execute(stage, w, env).value);
    case (Recover(_, _), Recovering(w, stage, error)) => OthersAddNothing(w, stage, error, false);
    case _ =>
  }

  lemma NewReferenceIsFound(s: State, step: Step, id: Id, r: Reference)
    requires Inv(s) && id in Apply(s, step).store.workflows && r in Apply(s, step).store.workflows[id].references
    requires id in s.store.workflows ==> ReferenceOf(r)(s.store.workflows[id]) != ReferenceOf(r)(Apply(s, step).store.workflows[id])
    ensures Finds(s, step, id, r, Apply(s, step).store.workflows[id].references[r])
  {
    hide Inv, Apply, Holds, Written, Execute, Shows;
    ChangesAreWritten(s, step, id);
    var q := ProcessOf(s, step.p);
    if id in s.store.workflows {
      HeldIs(q, s.store, id);
      WrittenAdds(s, step);
      if step.RunStage? && q.Executing? { OutcomeReferences(q.stage, q.w, step.env, r); }
    } else {
      NewIsUnmarked(s, step.p);
    }
  }

  /** Every reference of a stored workflow is the identifier of the result, or of the review, that a
      caller found when it executed the stage of the reference for that workflow. */
  lemma ReferencesAreFound(steps: seq<Step>, id: Id, r: Reference)
    ensures var st := Run(INITIAL, steps).store;
      id in st.workflows && r in st.workflows[id].references ==>
        exists j: nat :: j < |steps| && Finds(Run(INITIAL, steps[..j]), steps[j], id, r, st.workflows[id].references[r])
  {
    hide Run, Inv, Apply, Finds;
    var st := Run(INITIAL, steps).store;
    if id in st.workflows && r in st.workflows[id].references {
      LastChange(steps, id, ReferenceOf(r));
      var j: nat :| j < |steps| && Sets(steps, j, id, ReferenceOf(r), ReferenceOf(r)(st.workflows[id]));
      Reached(steps[..j]);
      NewReferenceIsFound(Run(INITIAL, steps[..j]), steps[j], id, r);
    }
  }

  // ----- the product version ------------------------------------------------------------------------------

  /** The step executes the review stage and finds the product at this version, or brings it there if
      the review is open and the product does not say so yet. */
  ghost predicate FindsVersion(s: State, step: Step, id: Id, version: int) {
    var q := ProcessOf(s, step.p);
    && step.RunStage? && q.Executing? && q.w.id == id && q.stage.HumanReview?
    && step.env.review.Success? && step.env.product.Success? && step.env.product.value.Some?
    && if step.env.review.value.completed || step.env.product.value.value.reviewRequired then step.env.product.value.value.version == version
       else step.env.productUpdate == Success(version)
  }

  lemma OutcomeVersion(stage: StageName, w: Workflow, env: Environment)
    requires Execute(stage, w, env).Success? && Execute(stage, w, env).value.productVersion.Some?
    ensures stage.HumanReview? && env.review.Success? && env.product.Success? && env.product.value.Some?
    ensures if env.review.value.completed || env.product.value.value.reviewRequired
            then env.product.value.value.version == Execute(stage, w, env).value.productVersion.value
            else env.productUpdate == Success(Execute(stage, w, env).value.productVersion.value)
  {
    hide FirstCompatible, NewJob;
  }

  /** The product version of a workflow is the one it was stored with until a caller executes the
      review stage, and then the one that was found, or made, there. */
  lemma VersionIsFound(steps: seq<Step>, step: Step, id: Id)
    ensures var s, s' := Run(INITIAL, steps), Apply(Run(INITIAL, steps), step);
      id in s.store.workflows ==>
        && id in s'.store.workflows
        && (s'.store.workflows[id].productVersion == s.store.workflows[id].productVersion
            || FindsVersion(s, step, id, s'.store.workflows[id].productVersion))
  {
    Reached(steps);
    hide Run;
    var s := Run(INITIAL, steps);
    StepKeeps(s, step);
    hide Inv, Apply, Holds, Written, Execute;
    if id in s.store.workflows && Apply(s, step).store.workflows[id] != s.store.workflows[id] {
      ChangesAreWritten(s, step, id);
      var q := ProcessOf(s, step.p);
      HeldIs(q, s.store, id);
      WrittenAdds(s, step);
      if step.RunStage? && q.Executing? && Execute(q.stage, q.w, step.env).value.productVersion.Some? {
        OutcomeVersion(q.stage, q.w, step.env);
      }
    }
  }
}
