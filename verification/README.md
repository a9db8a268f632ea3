# Catalog intelligence: a verified model

This project models the catalog intelligence backend under `apps/api/app` in Dafny and proves
what its services and stores promise together.

**The workflow.** `CatalogWorkflow` holds the transitions of the fifteen-stage workflow,
`JobLookup` the jobs behind the stages, `StageExecutor` what each stage answers,
`WorkflowStore` and `WorkflowRepository` the transactional table with its guard record per product,
and `WorkflowService` the orchestrator. `WorkflowProtocol` is the state machine of any number of
callers of `start` and `resume`: a step is one store request or the local work between two, every
write can be lost or lose its acknowledgement, and reads go page by page. `WorkflowShape`,
`WorkflowTheorems`, `WorkflowHistory`, `WorkflowExecution`, `WorkflowTransitions`, `WorkflowOutcomes`,
`WorkflowReferences`, `WorkflowFailures` and `WorkflowJobs` prove what every run keeps, and
`WorkflowProgress` that every running workflow can be brought to its end. The imperative methods are proved to be runs of one caller of that machine.

**The attribute evidence pipeline.** `Decimals` and `NumericAgreement` are the arithmetic over exact
decimals, `Grouping` and `Sorting` the ordered grouping and sorting the engines use,
`AttributeNormalization`, `ConflictDetection`, `AttributeCompleteness`, `AttributeValidation` and
`AttributeSelection` the engines. `EvidenceTheorems`, `AgreementTheorems`, `PipelineTheorems`,
`AutoSelectionTheorem` and `AutoSelectionCriterion` prove what appears only when they are composed;
`NormalizationMeaning`, `DetectionMeaning`, `ValidationMeaning` and `SelectionMeaning` say what each result
means in terms of the evidence alone, and `EngineRefusals`, with them, when an engine refuses.
`ShortestNumerals` says that the canonical text of a number has no shorter one. `Texts` has the white space of Unicode and the form in which text is kept, and `TextMeaning` what that form comes to. The pattern, case and
decimal libraries are functions collected in `Library`; `Faithful` says what is needed of them:
plain numerals are read as numbers, and the rewriting of some texts of some attributes neither
blanks a text out nor makes something of nothing.

**Images.** `ImageOrientation` has the pixel operations and the transformed boxes,
`TextRecognition` the bounded read and the recognition of regions, `BlockMerging` the merging of
blocks that overlapping regions both found.

**Stores and compensation.** `ConflictRecords` and `RecordKeys` are the multi-record encoding of a
conflict result; `ExportProtocol`, `ExportTheorems`, `ExportRecords`, `ExportFates` and `ExportService` the export with
its object cleanup; `ProductStore` and `ProductProtocol` the product table with derived index keys;
`ReviewProtocol`, `ReviewTheorems`, `ReviewCompletion` and `ReviewService` the product review.

## What the code does not keep

Each of these is stated with the exact condition under which the promise holds.

- A job that a workflow stage creates and runs itself never completes the stage: the record the
  stage holds is the pending one, without a result reference, so the stage is recorded as failed.
  Stages complete iff a job completed before is listed (`StageExecutor.JobStageCompletes`), so
  without one no workflow gets beyond its classification (`WorkflowJobs.NothingBeyondClassification`).
- On a workflow nobody moved on meanwhile, a stage failure is recorded iff the truncated error texts
  are visible ones; a message of white space makes the recording itself raise and leaves the workflow
  running (`WorkflowTheorems.FallbackIsRecorded`).
- Grouping the candidates of an attribute by value raises iff one of them has the empty text as its
  value; a text of blanks normalizes to it (`AgreementTheorems.GroupsAreRefusedIff`, `AgreementTheorems.BlankTextIsRefused`).
- A failed export leaves an object iff the save of it was stored though reported as refused or its
  deletion failed, a readable result iff the last artifact record was stored though its put reported
  an error, and the guard of its projection iff its result was created, for ever
  (`ExportFates.FailedExportLeaves`, `ExportTheorems.GuardIsForever`).
- Only the first page of the query for current decisions is read. The counts stored with a decision
  are those of the CURRENT records iff that page holds all that matter
  (`ReviewTheorems.CountsAreExactIff`); they are never too high. A review can be completed without
  another decision iff its stored required count is the number of its required attributes
  (`ReviewCompletion.CanCompleteIff`), and that can fail with all of them resolved
  (`ReviewCompletion.LowCountBlocks`).
- Merging recognized blocks can leave duplicates, and then merging again merges more. Of a set of
  blocks no list does so iff none of them bridges two others (`BlockMerging.FreeIffNotBridged`).
- `mark_ready_to_publish` for a version that the product does not have yet can leave an index key of
  the category it read before (`ProductProtocol.UnobservedVersionBreaksKey`).
- A stored conflict result reads back as itself iff no number in its record keys needs a seventh
  digit (`ConflictRecordTheorems.DecodesIffSixDigits`).

## Model

| member | source | states |
|---|---|---|
| WorkflowTheorems.GuardIffOneActive | apps/api/app/repositories/dynamodb_catalog_workflow.py:49-92 | in every reachable state of any interleaving of starts and resumes, a product has a guard record iff exactly one of its stored workflows is non-terminal, and the guard names that workflow |
| WorkflowTheorems.VersionIdentifiesState | apps/api/app/repositories/dynamodb_catalog_workflow.py:122-184 | a caller whose local version equals the stored version holds exactly the stored workflow, also when it read the records page by page between other commits |
| WorkflowTheorems.OneCallerDrives | apps/api/app/repositories/dynamodb_catalog_workflow.py:122-143 | no two callers ever drive one workflow with copies as new as the store |
| WorkflowTheorems.StoredShape | apps/api/app/services/catalog_workflow_state_machine.py:72-198 | every stored workflow has a finished prefix, at most one active stage that is the current one, and a suffix that has not started; a core stage is failed only in a failed workflow |
| WorkflowTheorems.LoopNeverRaises | apps/api/app/services/catalog_workflow_orchestrator.py:135-155 | in every reachable state both errors of `finish`, a refused `start_stage` and the branch for an unexpected stage status are unreachable for a caller in the run loop |
| WorkflowTheorems.StagesHaveTheirLineage | apps/api/app/services/catalog_workflow_stage_executor.py:292-346 | no reachable execution of a stage lacks an identifier that its job requires |
| WorkflowTheorems.TerminalForever | apps/api/app/services/catalog_workflow_state_machine.py:143-198 | whatever runs later, a terminal workflow stays as it is, and no version or progress of a stored workflow goes back |
| WorkflowTheorems.CompletedWorkflows | apps/api/app/services/catalog_workflow_state_machine.py:174-230 | progress is always in 0..100 and is 100 in a completed workflow, which also carries all ten references from classification to projection |
| WorkflowTheorems.CommittedOutcomeSurvives | apps/api/app/services/catalog_workflow_orchestrator.py:155-188 | if a stage outcome commits but its save reports an error, the failure written afterwards changes nothing, whatever other callers do in between and however that write fares |
| WorkflowTheorems.FallbackIsRecorded | apps/api/app/services/catalog_workflow_orchestrator.py:161-186 | the failure of a stage is recorded iff the store still holds the workflow the stage was run on and the truncated code and message are visible texts, of which something is left when all Unicode white space is stripped |
| WorkflowTheorems.OthersLeaveAlone | apps/api/app/services/catalog_workflow_orchestrator.py:135-191 | steps of other callers do not change a caller's local state |
| WorkflowTheorems.ResumesIff | apps/api/app/services/catalog_workflow_orchestrator.py:107-126 | a caller that has read a workflow goes on to resume it iff it is of its product, at the version it asked for, waiting, with the same sources and its review completed |
| WorkflowTheorems.StoredProgress | apps/api/app/services/catalog_workflow_state_machine.py:206-230 | the progress of every stored workflow that has not completed is the share of its fifteen stages that are completed or skipped, in whole percents rounded down |
| WorkflowTransitions.ChangesAreWritten | apps/api/app/services/catalog_workflow_orchestrator.py:135-191 | whatever step changes a stored workflow: its caller held that very workflow, and what is stored is the transition that the phase of the caller calls for; a new one is the caller's |
| WorkflowFailures.FailureEndsWorkflowIff | apps/api/app/services/catalog_workflow_orchestrator.py:161-186 | in every reachable state a workflow with a failed stage is FAILED iff the stage is none of export, enrichment and score or the configuration is to fail with those too, and then nothing was started after it and the workflow has its code and message |
| WorkflowFailures.FailedIffFatalStage | apps/api/app/services/catalog_workflow_orchestrator.py:161-186 | a stored workflow is FAILED iff such a stage of it has failed; no other has an error |
| WorkflowFailures.RecordedFailure | apps/api/app/services/catalog_workflow_orchestrator.py:174-188 | once a failure is recorded, the caller loops on with the workflow, RUNNING, iff the failure is passed over and the save confirmed; otherwise it stops |
| WorkflowFailures.FailuresAreRecorded | apps/api/app/services/catalog_workflow_orchestrator.py:161-186 | every failed stage was recorded by a caller recovering from its execution, with the code and message of the error as far as there is room |
| WorkflowFailures.RecoveringWasRaised | apps/api/app/services/catalog_workflow_orchestrator.py:155-165 | and that error is what an execution of its own left it: that of the executor, of an outcome that cannot be applied, or of the save |
| WorkflowFailures.CompletedWithWarningsIff | apps/api/app/services/catalog_workflow_orchestrator.py:135-148 | every completed workflow was finished by a caller in its loop, with warnings iff the executor gave warnings then or a stage of it has failed |
| WorkflowProgress.NewWorkflowIff | apps/api/app/domain/catalog_workflow/entities.py:188-235 | a new workflow is refused iff its product version is below one or its sources are none, more than fifty or not distinct; it has done nothing yet |
| WorkflowProgress.OutcomeAcceptedIff | apps/api/app/services/catalog_workflow_state_machine.py:93-127 | an outcome of the running stage is refused iff it has more child jobs, longer or blank texts, or a lower product version than the records can hold |
| WorkflowProgress.StartsAcceptedIff | apps/api/app/services/catalog_workflow_state_machine.py:61-91 | beginning, starting a stage and resuming are refused iff the workflow or the stage is in another status |
| WorkflowProgress.FinishAcceptedIff | apps/api/app/services/catalog_workflow_state_machine.py:174-198 | finishing is refused iff the workflow is not running, a stage is not finished, or one that is none of export, enrichment and score has failed |
| WorkflowProgress.RunningCanComplete | apps/api/app/services/catalog_workflow_orchestrator.py:135-191 | from every reachable state, whatever the others did, the workflow of a caller in its loop can be completed, without warnings unless a stage of it had failed |
| WorkflowProgress.EveryWorkflowCanComplete | apps/api/app/services/catalog_workflow_orchestrator.py:71-93 | every workflow that the constructor accepts, in every configuration, can be started and completed without warnings |
| WorkflowHistory.FinishedStagesAreForever | docs/specs/SPEC-037-end-to-end-catalog-intelligence-workflow-orchestration-api.md:67-69 | the record of a finished stage is never rewritten: it is the same in every later state of any run |
| WorkflowExecution.HandedOnce | docs/specs/SPEC-037-end-to-end-catalog-intelligence-workflow-orchestration-api.md:67-69 | stages never rerun: over any run, every stage of a workflow but the human review is handed to the executor at most once, by whichever callers |
| WorkflowExecution.WorkersHoldTheStored | apps/api/app/services/catalog_workflow_orchestrator.py:135-191 | in every reachable state a caller that begins, loops or executes holds exactly the stored workflow, and the stage it executes is the current one and running in the store |
| WorkflowHistory.StepLeavesHistory | apps/api/app/services/catalog_workflow_state_machine.py:206-221 | no step of any caller changes a finished stage, the configuration or the source list of any stored workflow |
| WorkflowProtocol.StepKeeps | apps/api/app/repositories/dynamodb_catalog_workflow.py:122-184 | every request and every local step keeps the invariant that ties versions, shapes and guards together, and every stored workflow only moves on |
| WorkflowShape.ApplyOutcomeShape | apps/api/app/services/catalog_workflow_state_machine.py:93-127 | an outcome that fits its stage parks the workflow at the review, or moves the frontier on by one and lowers the number of unfinished stages; progress does not fall |
| WorkflowShape.FailStageShape | apps/api/app/services/catalog_workflow_state_machine.py:143-172 | failing the running stage is refused iff the code or message is too long or all white space, and otherwise moves the frontier on, or ends the workflow |
| WorkflowShape.StartStageShape | apps/api/app/services/catalog_workflow_state_machine.py:72-91 | the current stage of a running workflow can always be started, at the same progress |
| WorkflowShape.ResumeReviewShape | apps/api/app/services/catalog_workflow_state_machine.py:129-141 | a workflow waiting for its review can always be resumed, at the same progress |
| WorkflowShape.FinishShape | apps/api/app/services/catalog_workflow_state_machine.py:174-198 | a running workflow without a current stage can always be finished, with progress 100 |
| WorkflowShape.TerminalIsFinal | apps/api/app/services/catalog_workflow_state_machine.py:143-172 | no transition is possible from a terminal workflow, not even `fail_stage`, which does not look at the status |
| CatalogWorkflow.ScanForNextStage | apps/api/app/services/catalog_workflow_state_machine.py:232-243 | the scan with its `found` flag gives the first stage after the current one that has not started, if there is one |
| Texts.TextFormKeepsVisible | apps/api/app/services/attribute_normalization_engine.py:193-198 | the form in which text is kept shows something iff the text has a character that is no white space, and that of a blank text is empty |
| TextMeaning.TextFormMeans | apps/api/app/services/attribute_normalization_engine.py:193-198 | the kept form of a text of lines, whichever of the three line breaks is between them, has the same lines, each with the same words and one blank between them |
| TextMeaning.StripMeans | apps/api/app/services/attribute_normalization_engine.py:193-198 | stripping takes the blanks off both ends, all of them, and nothing else |
| Texts.PlainFormAgain | apps/api/app/domain/image_ocr/entities.py:27-37 | normalizing a recognized text again changes nothing, so the check of the block constructor for normalized text never fails on it |
| TextMeaning.PlainFormMeans | apps/api/app/domain/image_ocr/entities.py:27-37 | the form of recognized text has the lines of the text without null characters, whatever the line breaks, from the first that shows something to the last, each with its words and one blank between them |
| Texts.VisibleIffStripped | apps/api/app/domain/catalog_workflow/entities.py:114-116 | stripping leaves something iff some character is no white space, of all that Unicode has |
| StageExecutor.Execute | apps/api/app/services/catalog_workflow_stage_executor.py:113-148 | only the human review waits, only the optional stages and publishing readiness are skipped, and a completed stage leaves its result reference |
| StageExecutor.JobStageCompletes | apps/api/app/services/catalog_workflow_stage_executor.py:126-148 | a job-backed stage that is not skipped completes iff its workflow has the identifiers it requires and the listing holds a job for it, completed before on those very identifiers, whose result can be loaded and, for the classification, is classified; the pending record of a job it creates itself has no result reference, however the run of it ends (against docs/specs/SPEC-037, Automatic Stages) |
| StageExecutor.CompletedNamesJob | apps/api/app/services/catalog_workflow_stage_executor.py:126-148 | the job a completed stage names is one of the listing, made for the stage on the references of the workflow; its result was loaded, the result reference is that of the job, and the one reference it adds is the identifier of the loaded result |
| StageExecutor.ReviewStageSucceedsIff | apps/api/app/services/catalog_workflow_stage_executor.py:195-229 | the review stage has an outcome iff there is a selection, its review is found and of this product, the product is found, and the update of a product that is not marked for review yet succeeds |
| StageExecutor.ReadinessStageSucceedsIff | apps/api/app/services/catalog_workflow_stage_executor.py:231-256 | the readiness stage has an outcome iff it is turned off, its projection is blocked, or the product is found and is ready or can be made so |
| StageExecutor.ErrorsAreTold | apps/api/app/services/catalog_workflow_stage_executor.py:113-148 | an error raised is that of a service that was asked, or one of the three the executor has for what is unresolved, foreign or missing |
| WorkflowReferences.ReferencesAreFound | apps/api/app/services/catalog_workflow_stage_executor.py:141-148 | in every reachable state each reference of a stored workflow is the identifier of the result, or of the review, that some execution of the stage it belongs to found for that workflow |
| WorkflowReferences.VersionIsFound | apps/api/app/services/catalog_workflow_stage_executor.py:206-229 | the product version of a stored workflow changes only with the review stage, to the one found there or brought about |
| WorkflowJobs.StagesCompleteFromJobs | apps/api/app/services/catalog_workflow_stage_executor.py:126-148 | in every reachable state each completed job-backed stage came from a job that some call of the executor found listed as completed, and names its result |
| WorkflowJobs.NothingBeyondClassification | apps/api/app/services/catalog_workflow_stage_executor.py:126-148 | in any run in which no call lists a completed classification job, no stored workflow ever gets beyond PRODUCT_CLASSIFICATION |
| WorkflowJobs.ClassificationFails | apps/api/app/services/catalog_workflow_orchestrator.py:155-186 | and a caller that executes that stage without such a job raises, and ends the workflow FAILED if the error texts can be recorded |
| WorkflowOutcomes.ReviewStageFollowsReview | apps/api/app/services/catalog_workflow_stage_executor.py:195-229 | in every reachable state a completed review stage was once executed for that workflow when the review of its product was completed, and a waiting one when it was open |
| WorkflowOutcomes.StagesSettleByOutcomes | apps/api/app/services/catalog_workflow_orchestrator.py:135-165 | in every reachable state each completed, skipped or waiting stage shows status, job, result and reason of an outcome that the executor answered for that stage of that workflow |
| WorkflowOutcomes.SourcesStageListsJobs | apps/api/app/services/catalog_workflow_stage_executor.py:170-193 | a stored workflow with its sources processed lists the jobs that an execution found of them |
| WorkflowOutcomes.DisabledIffTurnedOff | apps/api/app/services/catalog_workflow_stage_executor.py:231-290 | of the completed and skipped stages of a stored workflow, those its configuration turns off are exactly those skipped as DISABLED |
| WorkflowOutcomes.SkippedForAReason | apps/api/app/services/catalog_workflow_stage_executor.py:231-290 | every other skipped stage was executed for that workflow when its projection was blocked, or when the product was ready to publish already, and says which |
| JobLookup.FindCompatibleJob | apps/api/app/services/catalog_workflow_stage_executor.py:361-388 | the search over the pages gives the first compatible job, none before it being compatible, and none iff there is none |
| JobLookup.FirstCompatibleIs | apps/api/app/services/catalog_workflow_stage_executor.py:361-396 | what the search finds for the job a stage would create is a completed job of that stage on just those identifiers, and it finds one iff one is listed |
| JobLookup.LineageAcceptedIff | apps/api/app/domain/processing_jobs/entities.py:87-158 | the constructor accepts a lineage iff it has what the stage requires and, of the identifiers a job can hold, none that the stage is not given |
| JobLookup.NewJobNeedsItsLineage | apps/api/app/domain/processing_jobs/entities.py:87-158 | a new job is accepted by the constructor iff the workflow has all the identifiers that its stage requires; it is pending, without a result, and has just the references the workflow has |
| JobLookup.GivenIs | apps/api/app/services/catalog_workflow_stage_executor.py:292-346 | a job is given just the identifiers its stage requires, and the score that of the enrichment besides |
| JobLookup.ReuseKeepsLineage | apps/api/app/services/catalog_workflow_stage_executor.py:361-396 | a job that two workflows could reuse for a stage was made for the same upstream identifiers of both |
| WorkflowStore.DecodeRoundTrip | apps/api/app/repositories/dynamodb_catalog_workflow.py:271-333 | the META record and the stage records of one version decode to that version |
| WorkflowStore.SaveKeeps | apps/api/app/repositories/dynamodb_catalog_workflow.py:122-184 | a save from a copy known to the store keeps guards and shapes, and only replaces the very state it was made from |
| WorkflowRepository.WorkflowTable.Create | apps/api/app/repositories/dynamodb_catalog_workflow.py:49-92 | puts guard and all records or nothing, iff the product has no guard and no record exists; the error is told apart from a lost request |
| WorkflowRepository.WorkflowTable.SaveState | apps/api/app/repositories/dynamodb_catalog_workflow.py:122-184 | replaces the workflow iff the stored version is the expected one and, for a terminal state, the guard names it, which it then deletes |
| WorkflowRepository.WorkflowTable.GetById | apps/api/app/repositories/dynamodb_catalog_workflow.py:94-120 | reading in pages of any size gives the stored workflow, nothing if there is none |
| WorkflowRepository.FromItems | apps/api/app/repositories/dynamodb_catalog_workflow.py:271-333 | the workflow is rebuilt from the records by name, and refused iff META or a stage is missing or a constructor check fails |
| WorkflowService.SourceSnapshot | apps/api/app/services/catalog_workflow_orchestrator.py:193-216 | the paged source listing gives the sources with their types, sorted by identifier, and is refused when there are none or too many |
| WorkflowService.SnapshotsCompareSources | apps/api/app/services/catalog_workflow_orchestrator.py:115-118 | equal snapshots list the same sources with the same types; and two listings of the same sources, in whatever order, have equal snapshots, for a listing names no source twice |
| WorkflowService.RunLoop | apps/api/app/services/catalog_workflow_orchestrator.py:135-191 | the loop ends after at most as many executor calls as there are unfinished stages; what it does is a run of one caller of the protocol; and what it returns is stored, no longer running, and no further back |
| WorkflowService.StartWorkflow | apps/api/app/services/catalog_workflow_orchestrator.py:71-93 | refuses an unknown product or an unfit source list before it writes; otherwise what it does is a run of one caller, and what it returns is stored and not running |
| WorkflowService.ResumeWorkflow | apps/api/app/services/catalog_workflow_orchestrator.py:107-133 | answers the first check that fails and then leaves the store as it was; only a workflow waiting for its review is ever resumed |
| Decimals.CanonicalRoundTrip | apps/api/app/services/numeric_normalizer.py:16-41 | the canonical text of every number parses back to that number |
| Decimals.CanonicalIsFaithful | apps/api/app/services/numeric_normalizer.py:35-41 | two canonical texts are equal iff the numbers are |
| ShortestNumerals.CanonicalIsShortest | apps/api/app/services/numeric_normalizer.py:35-41 | no text that is read as the same number is shorter than its canonical text |
| Decimals.RoundIsRoundReal | apps/api/app/services/numeric_normalizer.py:26-33 | the decimal rounding is rounding of the exact value to the nearest, halves away from zero |
| Decimals.RoundingError | apps/api/app/services/numeric_normalizer.py:26-33 | rounding moves a value by at most half of ten to the minus places |
| Decimals.RoundingIsMonotone | apps/api/app/services/numeric_normalizer.py:26-33 | rounding never reverses an order |
| Decimals.RoundingIsIdempotent | apps/api/app/services/numeric_normalizer.py:26-33 | rounding a rounded number changes nothing, and leaves at most the given places |
| Decimals.IntegralIsWhole | apps/api/app/services/attribute_normalization_engine.py:113-126 | the integrality test on the coefficient holds iff the value is a whole number |
| NumericAgreement.CompareAllPairs | apps/api/app/services/attribute_conflict_detection_engine.py:161-181 | the double loop over all pairs gives the worst comparison among them |
| NumericAgreement.ComparisonMeans | apps/api/app/services/attribute_numeric_comparator.py:29-40 | exact iff the values are equal; tolerance iff they differ, need not be whole, and are within the absolute tolerance or within the relative one of the larger; different otherwise |
| NumericAgreement.VerdictMeans | apps/api/app/services/attribute_conflict_detection_engine.py:161-181 | the verdict over a list is exact iff all its values are equal, and tolerance iff they are not but every two are equal or, for numbers that need not be whole, near |
| NumericAgreement.VerdictIsOneComparison | apps/api/app/services/attribute_numeric_comparator.py:29-40 | for every list of mixed-sign values and every tolerance in range the pairwise verdict equals one comparison of the least with the greatest value |
| NumericAgreement.VerdictForgetsOrder | apps/api/app/services/attribute_conflict_detection_engine.py:161-181 | the numeric verdict does not depend on the order of the candidates |
| NumericAgreement.SubsetIsNoWorse | apps/api/app/services/attribute_conflict_detection_engine.py:161-181 | fewer numbers, in any order, never get a worse verdict |
| NumericAgreement.DroppingIsNoWorse | apps/api/app/services/attribute_conflict_detection_engine.py:161-181 | dropping a candidate never turns agreement into conflict |
| Grouping.GroupInOrder | apps/api/app/services/attribute_conflict_detection_engine.py:65-70 | filling an ordered dictionary gives the groups in first-seen order, each with its items in order |
| Grouping.GroupsPartition | apps/api/app/services/attribute_conflict_detection_engine.py:188-210 | groups are non-empty, have different keys, and hold every item under its own key |
| Grouping.FirstSeenInOrder | apps/api/app/services/attribute_conflict_detection_engine.py:65-70 | the groups are in the order in which their keys are first seen |
| Grouping.GroupingConserves | apps/api/app/services/attribute_conflict_detection_engine.py:65-70 | grouping loses and duplicates nothing |
| ConflictDetection.DetectConflicts | apps/api/app/services/attribute_conflict_detection_engine.py:58-82 | detection as the loops do it is the detection function that the theorems are about |
| ConflictDetection.Assess | apps/api/app/services/attribute_conflict_detection_engine.py:84-133 | the assessment of one attribute, with its warnings appended in turn, is the assessment function |
| ConflictDetection.GroupValues | apps/api/app/services/attribute_conflict_detection_engine.py:188-210 | the agreement groups of the loop are those of the grouping function, or a refusal |
| EvidenceTheorems.DetectionConserves | apps/api/app/services/attribute_conflict_detection_engine.py:58-82 | detection partitions all candidates by attribute in first-seen order; each attribute accounts for exactly its own, and all identifiers together are those of the candidates |
| EvidenceTheorems.AssessmentAccounts | apps/api/app/services/attribute_conflict_detection_engine.py:84-133 | comparable and excluded counts add up to the candidate count, and the groups cover exactly the comparable candidates with a value, each once |
| EvidenceTheorems.AgreementGroupsCover | apps/api/app/services/attribute_conflict_detection_engine.py:188-210 | agreement groups are non-empty, differ in value or unit, and cover exactly the candidates with a value |
| EvidenceTheorems.ComparableOrExcluded | apps/api/app/services/attribute_conflict_detection_engine.py:90-105 | every candidate is comparable or excluded, never both |
| DetectionMeaning.AssessmentMeans | apps/api/app/services/attribute_conflict_detection_engine.py:84-185 | the consensus says what the candidates call for: none, one, unclear, in agreement, within tolerance or in conflict, with the confidence and the conflict that belong to it, more if two sources agree, and the warnings and counts of its candidates |
| DetectionMeaning.DetectionMeans | apps/api/app/services/attribute_conflict_detection_engine.py:58-82 | so says every consensus of a detection of the candidates of its name, and its groups |
| DetectionMeaning.GroupsMean | apps/api/app/services/attribute_conflict_detection_engine.py:188-210 | each agreement group is numbered and has exactly the compared candidates with its value and unit, and their distinct sources |
| AgreementTheorems.AgreementIffOneGroup | apps/api/app/services/attribute_conflict_detection_engine.py:169-174 | two or more canonical numbers of one unit are in agreement iff they form one agreement group |
| AgreementTheorems.ConsensusAgreesIffOneGroup | apps/api/app/services/attribute_conflict_detection_engine.py:84-133 | the same of the consensus that detection reports |
| AgreementTheorems.GroupsAreRefusedIff | apps/api/app/services/attribute_conflict_detection_engine.py:188-210 | grouping raises iff some candidate has the empty text as its value |
| AgreementTheorems.BlankTextIsRefused | apps/api/app/services/attribute_normalization_engine.py:193-210 | a text source of blanks normalizes to the empty text and then makes detection raise; extraction is what keeps it out |
| AgreementTheorems.DetectionOnlyLimited | apps/api/app/services/attribute_conflict_detection_engine.py:58-82 | on the normalization of an extraction, detection never fails to read a number nor builds an invalid entity: it is refused iff there are too many attributes, or too many candidates or compared values of one |
| AttributeNormalization.CandidateIsWell | apps/api/app/services/attribute_normalization_engine.py:77-191 | every candidate comes out well normalized: a value iff not invalid or of an unsupported unit, canonical numbers (whole for integers), canonical booleans, never a blank text |
| AttributeNormalization.NormalizationIsWell | apps/api/app/services/attribute_normalization_engine.py:38-75 | the normalization of an extraction has distinct identifiers and only well-normalized candidates of attributes of the schema |
| NormalizationMeaning.CandidateMeans | apps/api/app/services/attribute_normalization_engine.py:77-191 | every candidate keeps what was extracted and says what its data type calls for: the number read from the raw text, or its product with the factor of the unit rule, rounded, in the canonical unit; true or false for the words that mean so; the allowed value that is the raw text but for case and blanks; else the kept text; or nothing, with the status that tells why |
| NormalizationMeaning.NormalizationMeans | apps/api/app/services/attribute_normalization_engine.py:38-75 | a normalization has one such candidate for each extracted one, in order, numbered from one |
| NormalizationMeaning.UnitOutcomeMeans | apps/api/app/services/unit_normalizer.py:24-53 | a value is converted iff a rule of the attribute's dimension has an alias that the raw unit is, and the schema allows the source unit of the first such rule; then it is multiplied by the factor of that rule |
| NormalizationMeaning.NumeralsAreRead | apps/api/app/services/numeric_normalizer.py:16-24 | a numeral, an optional sign with digits and an optional point with digits, is read as the number it says |
| NormalizationMeaning.OnlyNumeralsAreRead | apps/api/app/services/numeric_normalizer.py:16-24 | and nothing else is read |
| NormalizationMeaning.NormalizedIff | apps/api/app/services/attribute_normalization_engine.py:38-75 | normalization is refused iff there are too many candidates, one of an attribute that the schema does not have, or one whose value is too long |
| AttributeValidation.ValidateNumber | apps/api/app/services/attribute_numeric_validator.py:14-53 | the issues appended are none iff the value is a number of the type and within its limits |
| AttributeValidation.CollectIssues | apps/api/app/services/attribute_validation_engine.py:173-216 | the issue list grown by append and extend is that of the rules function |
| AttributeValidation.ValidateCandidates | apps/api/app/services/attribute_validation_engine.py:73-124 | the validation loop is the validation function, with the same refusal at the same candidate |
| ValidationMeaning.CandidateAssessed | apps/api/app/services/attribute_validation_engine.py:126-215 | a candidate is assessed iff its texts are short enough, its pattern works, its issues can quote what they are about, and they are not too many; then it has one issue for each broken rule of type, range, allowed values, pattern and unit, in this order, and the status that sums them up |
| ValidationMeaning.ValidationMeans | apps/api/app/services/attribute_validation_engine.py:73-124 | a validation assesses each candidate so, in order, by a definition of its attribute |
| ValidationMeaning.ValidatedIff | apps/api/app/services/attribute_validation_engine.py:73-124 | validation is refused iff the schema is another one, a candidate cannot be assessed, or there are too many candidates, attributes or issues |
| PipelineTheorems.NormalizedIsTyped | apps/api/app/services/attribute_validation_engine.py:173-216 | a candidate that is normalized, converted, kept as text or lacks only its unit never gets a type issue |
| PipelineTheorems.NormalizationIsTyped | apps/api/app/services/attribute_normalization_engine.py:77-191 | the same of every usable candidate of the normalization of any extraction, end to end |
| PipelineTheorems.EvaluatedEach | apps/api/app/services/attribute_completeness_engine.py:48-134 | what completeness says of an attribute, its state for each consensus status, its counts and its three flags, agrees with the consensus that selection will look up, and names, order and requirement are those of its definition |
| EngineRefusals.EvaluatedIff | apps/api/app/services/attribute_completeness_engine.py:48-81 | completeness of what detection found is refused iff the schema is another one, or has too many attributes, or one of them too many candidates |
| PipelineTheorems.EvaluationCoversSchema | apps/api/app/services/attribute_completeness_engine.py:48-81 | completeness says something of every attribute of the schema, once, in display order |
| PipelineTheorems.ComposesWithoutLineageFailure | apps/api/app/services/attribute_selection_engine.py:114-196 | selection on the three results of one normalization never raises a lineage mismatch |
| AutoSelectionTheorem.AutoSelectionIsSound | apps/api/app/services/attribute_selection_engine.py:192-315 | whatever the candidates, schema and limits: all candidates of an auto-selected attribute are VALID, share one unit, come from enough distinct sources and agree pairwise in what their values are worth; the supporting identifiers are theirs, the more confident before the less and then by identifier, and the proposed value is that of the first |
| AutoSelectionCriterion.AutoSelectedIffConvincing | apps/api/app/services/attribute_selection_engine.py:145-315 | the converse too: selection auto-selects exactly the attributes with two or more candidates, all VALID, of one unit, from enough distinct sources, that agree exactly with one value, or else within tolerance, at a confidence that meets the threshold |
| AutoSelectionCriterion.PipelineSelectsRightly | apps/api/app/services/attribute_selection_engine.py:69-112 | both at once of a run of the whole pipeline, on any candidates, schema and limits: one selection for each attribute of the schema, auto-selected iff its candidates are convincing, and then with the ids and the value that soundness asks for |
| AutoSelectionCriterion.AutoSelectedIntegersAreEqual | apps/api/app/services/attribute_numeric_comparator.py:29-34 | so in any run two candidates of an auto-selected integer attribute are worth the same, whatever the tolerances |
| SelectionMeaning.SelectedMeans | apps/api/app/services/attribute_selection_engine.py:145-315 | what selection says of an attribute is what the evidence calls for: the status, the reason that tells what stands in the way, the confidence that belongs to it, and the numbers of candidates, usable ones and sources |
| SelectionMeaning.PipelineSelectionMeans | apps/api/app/services/attribute_selection_engine.py:69-112 | so of every attribute in a run of the engines on one normalization |
| EngineRefusals.SelectionChecksLineage | apps/api/app/services/attribute_selection_engine.py:114-143 | on results that are not of one normalization selection raises a lineage mismatch, or that there are too many attributes |
| AutoSelectionCriterion.AssessedIff | apps/api/app/services/attribute_conflict_detection_engine.py:84-185 | of usable candidates of one unit the consensus is agreement, or agreement with tolerance, iff there are two or more that pairwise agree so |
| AutoSelectionTheorem.SelectionOnlyLimited | apps/api/app/services/attribute_selection_engine.py:343-391 | selection on those results always builds valid entities: it is refused iff there are too many attributes, or too many candidates or no room for a reason of one |
| AttributeSelection.RanksBeforeIsPreorder | apps/api/app/services/attribute_candidate_ranker.py:8-24 | the ranking by validation, confidence and identifier is a total order of preference |
| AttributeSelection.RankingMeans | apps/api/app/services/attribute_candidate_ranker.py:8-24 | the better validated is ranked first, then the one extracted with more confidence, then the one normalized with more, then the lower identifier |
| ImageOrientation.CroppingCommutes | apps/api/app/services/image_ocr_pipeline.py:206-241 | for every image, in-bounds region and orientation, cropping the oriented image by the oriented box gives the pixels of the oriented crop |
| ImageOrientation.OrientedBoxFits | apps/api/app/services/image_ocr_pipeline.py:218-241 | the oriented box of an in-bounds region exists and lies inside the oriented size |
| ImageOrientation.OrientingInverts | apps/api/app/services/image_ocr_pipeline.py:206-216 | the opposite orientation gives every image back |
| ImageOrientation.BoxInverts | apps/api/app/services/image_ocr_pipeline.py:224-241 | the opposite orientation gives every region back |
| TextRecognition.ReadExactBounded | apps/api/app/services/image_ocr_pipeline.py:111-132 | succeeds iff the object has exactly the expected size, whatever portions the stream answers with, and never reads more than one byte further |
| TextRecognition.AppendRegion | apps/api/app/services/image_ocr_pipeline.py:164-202 | the blocks of one region are appended iff none is out of its crop and all limits hold with them |
| TextRecognition.PlacedAre | apps/api/app/services/image_ocr_pipeline.py:163-201 | the blocks placed of a region are its recognized blocks with text, in order, numbered from one |
| TextRecognition.MovedShowsTheSame | apps/api/app/services/image_ocr_pipeline.py:186-198 | a placed block is where it was found: the oriented image cropped by its box is the crop that was recognized, cropped by the box recognized in it |
| TextRecognition.InCropIff | apps/api/app/services/image_ocr_pipeline.py:165-173 | a recognized block is taken iff it has pixels and all of them are pixels of the crop |
| TextRecognition.CreatableIff | apps/api/app/domain/image_ocr/entities.py:56-120 | a block is accepted iff its text and confidence are, it lies in the image, and on both axes a mark of the scale of ten thousand falls into it |
| TextRecognition.RecognizedText | apps/api/app/domain/image_ocr/entities.py:58-63 | of the texts that recognition comes to for an analyzed region, the block constructor refuses exactly those that are too long |
| TextRecognition.RecognizeRegions | apps/api/app/services/image_ocr_pipeline.py:134-204 | succeeds iff regions, blocks and limits are acceptable, and then gives what the recognizer finds, region by region, in the upright part of the stored image, at its place in the oriented image, with duplicates merged and counted |
| BlockMerging.Deduplicate | apps/api/app/domain/image_ocr/entities.py:129-163 | the merging loop with its numbering computes the arranged blocks, and counts every block that it merged away |
| BlockMerging.NoTextIsLost | apps/api/app/domain/image_ocr/entities.py:129-163 | for every recognized block some block of the result has the same words, at no lower confidence |
| BlockMerging.OnlyDuplicatesGo | apps/api/app/domain/image_ocr/entities.py:123-152 | only duplicates go: a block that is not retained has the words of another block, in an overlapping box, that is at least as confident |
| BlockMerging.OverlapIffSharedPixel | apps/api/app/domain/image_ocr/entities.py:123-126 | two boxes overlap iff some pixel is in both |
| BlockMerging.SameWordsIff | apps/api/app/domain/image_ocr/entities.py:136-141 | two blocks are compared as equal iff they have the same words, whatever is between them |
| BlockMerging.MergedKeeps | apps/api/app/domain/image_ocr/entities.py:145-150 | a retained block keeps its place and is replaced only by a more confident one with the same words |
| BlockMerging.MergesIffDuplicates | apps/api/app/domain/image_ocr/entities.py:129-152 | no block is merged away iff no two have the same words in overlapping boxes, and then all are retained as they came |
| BlockMerging.FreeIffNotBridged | apps/api/app/domain/image_ocr/entities.py:123-163 | of a set of blocks no list can leave duplicates in the result iff none of them bridges two others: is a duplicate of both, which are none of each other, and more confident than one of them |
| BlockMerging.BridgeIsLeft | apps/api/app/domain/image_ocr/entities.py:136-152 | a bridge that comes last takes the place of the one it is more confident than and stays beside the other; merging the result again leaves one block |
| BlockMerging.RegionsAreNumbered | apps/api/app/domain/image_ocr/entities.py:152-163 | the result comes region by region in ascending order, and the blocks of each are numbered from one without gaps |
| BlockMerging.RegionsKeepReadingOrder | apps/api/app/domain/image_ocr/entities.py:145-163 | the result is of the retained blocks, renumbered, and those of a region stay in the order in which they were read |
| ConflictRecords.CollectRecords | apps/api/app/repositories/dynamodb_attribute_conflicts.py:37-53 | the records put are META, and each attribute followed by its groups, numbered from one |
| ConflictRecordTheorems.RecordsDecode | apps/api/app/repositories/dynamodb_attribute_conflicts.py:190-268 | with indexes below one million, the records decode in any order to the original result with attribute and group order intact, and no part of them ever decodes to another result |
| ConflictRecordTheorems.DecodesIffSixDigits | apps/api/app/repositories/dynamodb_attribute_conflicts.py:190-268 | and the bound is exact: a result whose attributes differ in name, and whose groups differ within each, reads back as itself iff it has fewer than a million attributes and fewer than a million groups in each |
| ConflictRecordTheorems.DecodedIsChecked | apps/api/app/repositories/dynamodb_attribute_conflicts.py:190-268 | whatever records are read, what they decode to has a META record among them with as many attributes, and passes the checks of the constructors |
| RecordKeys.NumberedKeysSort | apps/api/app/repositories/dynamodb_attribute_conflicts.py:148-188 | keys numbered from one sort in numeric order iff there are fewer than one million |
| RecordKeys.PaddedOrder | apps/api/app/repositories/dynamodb_attribute_conflicts.py:148-188 | zero-padded numerals below one million compare as their numbers do |
| ExportTheorems.OneCallerPerJob | apps/api/app/services/catalog_export.py:68-82 | no two callers are ever past moving the same job to RUNNING |
| ExportTheorems.OneResultPerJob | apps/api/app/services/catalog_export.py:68-147 | at most one result is ever created for a job |
| ExportTheorems.CompletedHasResult | apps/api/app/services/catalog_export.py:147-183 | a completed job has its result, readable, with all three objects stored with the recorded size and hash, whatever requests failed |
| ExportTheorems.StatusMoves | apps/api/app/domain/processing_jobs/transitions.py:27-55 | one step moves a job only along the allowed transitions, with its version raised by one |
| ExportTheorems.StatusOnlyAdvances | apps/api/app/repositories/dynamodb_processing_jobs.py:183-246 | over any run a job never goes back, and a completed, failed or cancelled one stays as it is |
| ExportRecords.RecordsAgree | apps/api/app/repositories/dynamodb_processing_jobs.py:183-246 | in every reachable state a job has the version and, only if completed, the result of its status; its projection never changes, and a recorded result is of it |
| ExportFates.FailedExportLeaves | apps/api/app/services/catalog_export.py:96-166 | of a failed export: an object is left iff its own save was stored though reported as refused, or its own deletion did not succeed; the result is readable iff the last artifact record was stored though its put reported an error; and the projection stays guarded iff the result was created |
| ExportFates.FailedLeavesNothing | apps/api/app/services/catalog_export.py:96-166 | so a failed export leaves neither object nor readable result iff none of those requests of its own went that way |
| ExportFates.ReadableIsBacked | apps/api/app/services/catalog_export.py:96-166 | every readable result has all its objects as recorded, unless the put of its last record was stored and reported an error |
| ExportFates.ReadableForever | apps/api/app/repositories/dynamodb_catalog_export.py:58-83 | a readable result stays readable whatever runs later |
| ExportFates.LostLastRecord | apps/api/app/repositories/dynamodb_catalog_export.py:58-83 | from every reachable state about to put the last artifact record of a job nobody cancelled, there is a run that fails the job, deletes every object and leaves the result readable for ever |
| ExportTheorems.GuardIsForever | apps/api/app/repositories/dynamodb_catalog_export.py:37-57 | a projection guard once written, also by a run that then fails, is never changed, and no result of the projection but the guarded one is ever recorded |
| ExportTheorems.OneExportPerProjection | apps/api/app/repositories/dynamodb_catalog_export.py:37-57 | in no reachable state are there two results of one projection |
| ExportProtocol.StepKeeps | apps/api/app/services/catalog_export.py:68-193 | every request of every caller, whether it succeeds, is lost or loses its answer, keeps what ties jobs, exports, objects and records together |
| ExportService.SaveArtifacts | apps/api/app/services/catalog_export.py:96-130 | the save loop keeps count of exactly the keys to delete; its requests are steps of the protocol |
| ExportService.Cleanup | apps/api/app/services/catalog_export.py:229-246 | deletes the saved keys last first; when every deletion succeeds none is left |
| ExportService.ExportForJob | apps/api/app/services/catalog_export.py:68-193 | one whole call is a run of one caller of the protocol; on success the job is completed with the new export |
| ProductStore.UpdateIsItem | apps/api/app/repositories/dynamodb_products.py:94-183 | the update expression, on any stored item, leaves exactly the item the product would be created as: every derived index attribute is set or removed |
| ProductStore.ReadyIsItem | apps/api/app/repositories/dynamodb_products.py:195-257 | the readiness expression with the product's own category leaves the item of the product made ready |
| ProductStore.BuildExpression | apps/api/app/repositories/dynamodb_products.py:94-150 | the lists built in place are the set and remove parts of the update |
| ProductStore.ProductTable.Update | apps/api/app/repositories/dynamodb_products.py:94-183 | succeeds iff the stored version is the expected one, stores the product at the next version, and tells conflict from absence |
| ProductStore.ProductTable.MarkReady | apps/api/app/repositories/dynamodb_products.py:195-257 | uninterrupted: succeeds iff version and status are as expected, and then only status, key and version change |
| ProductStore.ProductTable.Delete | apps/api/app/repositories/dynamodb_products.py:373-390 | removes the product iff the stored version is the expected one |
| ProductProtocol.StoreOfProducts | apps/api/app/repositories/dynamodb_products.py:62-390 | however callers interleave, the table is a plain store of versioned products: a new one goes under an identifier never used, an update, a deletion and a readiness transition take effect iff the product has the version asked for (and the status, for the last), and nothing else changes, provided each readiness call so far was for a version the product has had |
| ProductProtocol.StepWaits | apps/api/app/repositories/dynamodb_products.py:195-257 | a readiness transition waits with what it was asked for until it is written, and identifiers stay used |
| ProductProtocol.IndexKeysAreDerived | apps/api/app/repositories/dynamodb_products.py:195-257 | however callers interleave, every stored item is that of some product, so its key is category#status and its normalized names are those of its fields, present iff the fields are, provided each readiness call is for a version the product has had and identifiers are not reused |
| ProductProtocol.UnobservedVersionBreaksKey | apps/api/app/repositories/dynamodb_products.py:195-257 | the proviso is needed: a call for any later version than the one it reads can be overtaken by updates, and then leaves the key of the category it read |
| ReviewTheorems.CurrentNamesItsDecision | apps/api/app/repositories/dynamodb_product_review.py:129-201 | under racing reviewers every CURRENT record names an existing decision on its attribute with the same sequence number, and decisions are numbered without gaps |
| ReviewTheorems.ReadsAreConsistent | apps/api/app/repositories/dynamodb_product_review.py:81-104 | a read of a review, however paged between other commits, never reports an inconsistency |
| ReviewTheorems.EachWriteRaisesOnce | apps/api/app/repositories/dynamodb_product_review.py:129-201 | every change of a review, by whomever, raises its version by exactly one |
| ReviewTheorems.VersionCountsWrites | apps/api/app/repositories/dynamodb_product_review.py:129-288 | the version is one plus the decisions plus the completion |
| ReviewTheorems.CompletedIsResolved | apps/api/app/services/product_review.py:272-309 | the stored counts are never above those of the CURRENT records, and a completed review has every required attribute resolved |
| ReviewTheorems.CountsAreExactIff | apps/api/app/repositories/dynamodb_product_review.py:234-251 | a decision stores the counts of the CURRENT records iff the one page of the query for them holds every current record, but that of the decided attribute, that resolves a selected attribute |
| ReviewCompletion.CompletesIff | apps/api/app/services/product_review.py:272-309 | a caller that has read a review as it still is completes it iff its page has the CURRENT records of all required attributes, all of these are resolved, and the stored counts are those of the page |
| ReviewCompletion.CanCompleteIff | apps/api/app/services/product_review.py:272-309 | an open review can be completed by some run with no further decision iff its stored required count is the number of its required attributes, whatever its CURRENT records are |
| ReviewCompletion.LowCountBlocks | apps/api/app/repositories/dynamodb_product_review.py:234-251 | and from the empty table there are runs after which all required attributes are resolved, the stored count is too low, and no run completes the review without another decision |
| ReviewTheorems.FirstWriterWins | apps/api/app/repositories/dynamodb_product_review.py:129-201 | once anybody has changed a review, a decision or completion that another caller had prepared before changes nothing, whatever ran in between |
| ReviewTheorems.HistoryIsAppendOnly | apps/api/app/repositories/dynamodb_product_review.py:129-201 | over any run decisions are only added, and a completed review does not change |
| ReviewTheorems.DecisionsAreForever | apps/api/app/repositories/dynamodb_product_review.py:129-201 | the same from the empty table on, for every decision |
| ReviewProtocol.StepKeeps | apps/api/app/repositories/dynamodb_product_review.py:129-288 | every page read, every preparation and every write keeps numbering, counts and versions in step |
| ReviewService.ResolvedCounts | apps/api/app/services/product_review.py:418-432 | the counters of the loop are the numbers of required and optional attributes with a resolving current decision |
| ReviewService.ReadReview | apps/api/app/repositories/dynamodb_product_review.py:290-313 | the page loop collects the records of the review, and succeeds only on an open review at the requested version |
| ReviewService.SubmitDecision | apps/api/app/services/product_review.py:143-270 | on success adds exactly the decision with the next number, makes it the current one of its attribute and raises the version once; on a failure that is not a lost answer changes nothing |
| ReviewService.CompleteReview | apps/api/app/services/product_review.py:272-309 | completes only an open review at the requested version with every required attribute resolved, and changes only status and version |

## Left out

- Wire format, item-size guards, cursors and error parsing of the database client: stores are maps with conditional writes and all-or-nothing transactions.
- Identifiers are numbers, new ones fresh; timestamps, clocks and logging have no state of interest.
- HTTP routes, configuration, the frontend, model calls and prompts, image decoding and hashing: foreign code or plumbing. The hash of an object is a function.
- Case folding, the rewriting of some attributes' texts, the matching of patterns and the folding of unit aliases are functions of `Library`; digits are the ASCII ones.
- WorkflowProgress.EveryWorkflowCanComplete: identifiers of more than 900 digits are left out, for the name of the sources record would then be too long; the program's have 36 characters.
- WorkflowProgress.RunningCanComplete: the same holds here.
- The decimal library's 28-digit context: numbers are exact.
- StageExecutor.Execute: the services that a stage consults, the job listing among them, are answers in an environment, one per call, so the creation of source jobs and their child identifiers, and the product update of the review stage, are answers too.
- WorkflowService.RunLoop: one call is proved uninterrupted; how calls interleave is what the protocol is about. Crash recovery of a workflow left RUNNING is not offered by the code.
- ExportService.ExportForJob: one call is proved uninterrupted, and the table writes of the package builder are not part of it; interleavings are in the protocol.
- ReviewService.SubmitDecision: which value a decision approves, its reviewer and comment are left out; a decision is its attribute and whether it resolves it. The manual override normalizer is not part of this model.
- ReviewService.ReadReview: the review read is the records' consistency and the META record; the list and history pages are left out.
- AttributeValidation.ValidateNumber: the `expected` text of an issue is left out, as are evidence excerpts and locations of candidates.
- ConflictDetection.DetectConflicts: result summaries and status tallies that follow from the attributes are left out, here and in validation and completeness.
- TextRecognition.RecognizeRegions: block identifiers, which only repeat the position, and the basis-point boxes are left out.
- ConflictRecordTheorems.RecordsDecode: each record's fields other than keys and order are carried as they are, without the value encoding of the database.
- ProductStore.ProductTable.Update: list and search queries over the indexes are left out.
- The remaining one-shot result repositories, Unilog import and evaluation, and table creation repeat easier versions of the stores here.
