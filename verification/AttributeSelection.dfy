/** The selection engine: propose a value only where the evidence leaves no choice, else ask for review. */
module AttributeSelection {
  import opened Wrappers
  import opened CatalogAttributes
  import opened AttributeCompleteness
  import opened Sorting
  import opened Grouping
  import RecordKeys

  datatype SelectionLimits = SelectionLimits(threshold: int, minSources: nat, attributes: nat, candidates: nat, reasons: nat)

  ghost predicate AcceptedSelection(limits: SelectionLimits) {
    && 0 <= limits.threshold <= 10_000 && limits.minSources >= 1 && limits.attributes >= 1
    && limits.candidates >= 1 && limits.reasons >= 1
  }

  // ----- ranking ---------------------------------------------------------------------------

  function ValidationRank(status: ValidationStatus): int {
    match status
    case Valid => 4
    case ValidWithWarnings => 3
    case Invalid => 2
    case NotValidatable => 1
  }

  /** A candidate with the validation status it is ranked by. */
  datatype Ranked = Ranked(candidate: Candidate, status: ValidationStatus)

  /** Better validated first, then more confident, then by identifier. */
  predicate RanksBefore(a: Ranked, b: Ranked) {
    var x, y := ValidationRank(a.status), ValidationRank(b.status);
    var m, n := a.candidate, b.candidate;
    if x != y then x > y
    else if m.extractionConfidence != n.extractionConfidence then m.extractionConfidence > n.extractionConfidence
    else if m.confidence != n.confidence then m.confidence > n.confidence
    else RecordKeys.TextLe(m.id, n.id)
  }

  lemma RanksBeforeIsPreorder()
    ensures TotalPreorder(RanksBefore)
  {
    RecordKeys.TextLeIsTotalOrder();
    forall a, b: Ranked ensures RanksBefore(a, b) || RanksBefore(b, a) {
      RecordKeys.TextLeTotal(a.candidate.id, b.candidate.id);
    }
    forall a, b, c: Ranked | RanksBefore(a, b) && RanksBefore(b, c) ensures RanksBefore(a, c) {
      if RecordKeys.TextLe(a.candidate.id, b.candidate.id) && RecordKeys.TextLe(b.candidate.id, c.candidate.id) {
        RecordKeys.TextLeTransitive(a.candidate.id, b.candidate.id, c.candidate.id);
      }
    }
  }

  /** It is more confident, by extraction and then by normalization, or as confident with a lower identifier. */
  ghost predicate AtLeastAsGood(a: Candidate, b: Candidate) {
    || a.extractionConfidence > b.extractionConfidence
    || (a.extractionConfidence == b.extractionConfidence
        && (a.confidence > b.confidence || (a.confidence == b.confidence && RecordKeys.TextLe(a.id, b.id))))
  }

  /** Valid is better than valid with warnings, that than invalid, and that than not validatable. */
  ghost predicate BetterValidated(s: ValidationStatus, t: ValidationStatus) {
    || (s.Valid? && !t.Valid?) || (s.ValidWithWarnings? && t in {Invalid, NotValidatable}) || (s.Invalid? && t.NotValidatable?)
  }

  /** The order is by validation first, then by confidence, then by identifier. */
  lemma RankingMeans(a: Ranked, b: Ranked)
    ensures RanksBefore(a, b) <==>
      BetterValidated(a.status, b.status) || (a.status == b.status && AtLeastAsGood(a.candidate, b.candidate))
  {
  }

  // ----- lookups -----------------------------------------------------------------------------

  /** The candidate with an identifier; of several, the last. */
  function CandidateWith(candidates: seq<Candidate>, id: string): (r: Option<Candidate>)
    ensures r.Some? ==> r.value in candidates && r.value.id == id
    ensures r.None? ==> forall c :: c in candidates ==> c.id != id
  {
    LastWith(candidates, (c: Candidate) => c.id == id)
  }

  function AssessmentOf(assessments: seq<Assessment>, id: string): (r: Option<Assessment>)
    ensures r.Some? ==> r.value in assessments && r.value.candidate == id
    ensures r.None? ==> forall a :: a in assessments ==> a.candidate != id
  {
    LastWith(assessments, (a: Assessment) => a.candidate == id)
  }

  /** The candidates and assessments that a selection looks up by identifier. */
  datatype Evidence = Evidence(candidates: seq<Candidate>, assessments: seq<Assessment>)

  predicate Known(e: Evidence, ids: seq<string>) {
    forall i :: 0 <= i < |ids| ==> CandidateWith(e.candidates, ids[i]).Some? && AssessmentOf(e.assessments, ids[i]).Some?
  }

  function LookedUp(e: Evidence, ids: seq<string>): (r: seq<Ranked>)
    requires Known(e, ids)
    ensures |r| == |ids|
    ensures forall i :: 0 <= i < |ids| ==>
      r[i] == Ranked(CandidateWith(e.candidates, ids[i]).value, AssessmentOf(e.assessments, ids[i]).value.status)
  {
    seq(|ids|, i requires 0 <= i < |ids| =>
      Ranked(CandidateWith(e.candidates, ids[i]).value, AssessmentOf(e.assessments, ids[i]).value.status))
  }

  function RankedId(r: Ranked): string { r.candidate.id }
  function RankedSource(r: Ranked): nat { r.candidate.source }
  function RankedUnit(r: Ranked): Option<string> { r.candidate.unit }
  function RankedValue(r: Ranked): Option<string> { r.candidate.value }
  predicate IsValid(r: Ranked) { r.status.Valid? }
  predicate IsUsable(r: Ranked) { r.status in {Valid, ValidWithWarnings} }

  // ----- one attribute -------------------------------------------------------------------------

  /** What the constructor of a proposal accepts. */
  predicate ValidSelection(s: Selection) {
    && s.name != "" && s.displayOrder >= 1
    && s.validCount <= s.candidateCount && s.sourceCount <= s.candidateCount && 0 <= s.confidence <= 10_000
    && (forall i, j :: 0 <= i < j < |s.supporting| ==> s.supporting[i] != s.supporting[j])
    && (forall i, j :: 0 <= i < j < |s.review| ==> s.review[i] != s.review[j])
    && (if s.status.AutoSelected? then
          && !s.reviewRequired && s.value.Some? && s.primary.Some? && s.primary.value in s.supporting && s.review == []
        else s.value.None? && s.unit.None? && s.primary.None? && s.supporting == [])
    && (s.status.ReviewRequired? ==> s.reviewRequired)
    && (s.required && !s.status.AutoSelected? ==> s.reviewRequired)
  }

  function Built(limits: SelectionLimits, s: Selection): Result<Selection, PipelineError> {
    if limits.reasons < 1 then Failure(LimitExceeded)
    else if ValidSelection(s) then Success(s) else Failure(InvalidEntity)
  }

  function Unresolved(c: Completeness, status: SelectionStatus, consensus: Option<ConsensusStatus>, review: seq<string>,
                      count: nat, valid: nat, sources: nat, confidence: int, reason: Reason): Selection {
    Selection(c.name, c.required, c.displayOrder, status, status.ReviewRequired? || c.required, None, None, None, [], review,
              count, valid, sources, consensus, confidence, reason)
  }

  /** The reason for a review, with its confidence, if the consensus or the validation asks for one. */
  function ReviewReason(limits: SelectionLimits, status: ConsensusStatus, ranked: seq<Ranked>): Option<(Reason, int)> {
    var valid := Where(ranked, IsValid);
    var confidence := if status.Agreement? then 10_000 else 9_000;
    if status.Conflict? then Some((ValueConflictReason, 0))
    else if status.Indeterminate? then Some((UnitIndeterminateReason, 0))
    else if status.SingleCandidate? then Some((SingleSourceOnly, 6_000))
    else if |valid| != |ranked| then Some((ValidationWarning, 0))
    else if |Image(ranked, RankedSource)| < limits.minSources then Some((InsufficientCorroboration, 7_000))
    else if |Image(valid, RankedUnit)| != 1 || (status.Agreement? && |Image(valid, RankedValue)| != 1)
            || confidence < limits.threshold then Some((InsufficientCorroboration, confidence))
    else None
  }

  function Proposal(c: Completeness, status: ConsensusStatus, ranked: seq<Ranked>): Selection
    requires Where(ranked, IsValid) != []
  {
    var order := Sort(Where(ranked, IsValid), RanksBefore);
    SortPermutes(Where(ranked, IsValid), RanksBefore);
    var first := order[0].candidate;
    Selection(c.name, c.required, c.displayOrder, AutoSelected, false, first.value, first.unit, Some(first.id),
              Mapped(order, RankedId), [], |ranked|, |Where(ranked, IsUsable)|, |Image(ranked, RankedSource)|, Some(status),
              if status.Agreement? then 10_000 else 9_000,
              if status.Agreement? then MultiSourceExactAgreement else MultiSourceToleranceAgreement)
  }

  function SelectAttribute(limits: SelectionLimits, c: Completeness, consensus: Option<Consensus>, e: Evidence)
    : Result<Selection, PipelineError>
  {
    if c.state.Missing? then
      Built(limits, Unresolved(c, NoCandidate, None, [], 0, 0, 0, 0,
                               if c.required then MissingAttribute else OptionalAttributeUnresolved))
    else if c.state.InvalidOnly? then
      if |c.candidates| > limits.candidates || !Known(e, c.candidates) then Failure(LimitExceeded)
      else
        Built(limits, Unresolved(c, NoValidCandidate, if consensus.Some? then Some(consensus.value.status) else None,
                                 c.candidates, |c.candidates|, 0,
                                 |Image(LookedUp(e, c.candidates), RankedSource)|, 0, NoValidCandidateReason))
    else if consensus.None? then Failure(LineageMismatch)
    else
      var ids, status := consensus.value.candidates, consensus.value.status;
      if |ids| > limits.candidates || !Known(e, ids) then Failure(LimitExceeded)
      else
        var ranked := LookedUp(e, ids);
        var usable, sources := |Where(ranked, IsUsable)|, |Image(ranked, RankedSource)|;
        if status.NoValidCandidates? || Where(ranked, IsValid) == [] then
          Built(limits, Unresolved(c, NoValidCandidate, Some(status), ids, |ids|, usable, sources, 0, NoValidCandidateReason))
        else
          match ReviewReason(limits, status, ranked)
          case Some((reason, confidence)) =>
            Built(limits, Unresolved(c, ReviewRequired, Some(status), ids, |ids|, usable, sources, confidence, reason))
          case None => Built(limits, Proposal(c, status, ranked))
  }

  function SelectAt(limits: SelectionLimits, detection: Detection, e: Evidence)
    : (nat, Completeness) -> Result<Selection, PipelineError>
  {
    (index: nat, c: Completeness) => SelectAttribute(limits, c, ConsensusFor(detection.attributes, c.name), e)
  }

  predicate OneLineage(detection: Detection, validation: Validation, evaluation: Evaluation, n: Normalization) {
    && detection.lineage == validation.lineage == evaluation.lineage == n.lineage
    && evaluation.detection == detection.id
  }

  /** The same candidates were normalized and validated. */
  predicate SameCandidates(n: Normalization, validation: Validation) {
    && (forall i :: 0 <= i < |n.candidates| ==> AssessmentOf(validation.assessments, n.candidates[i].id).Some?)
    && (forall i :: 0 <= i < |validation.assessments| ==>
          CandidateWith(n.candidates, validation.assessments[i].candidate).Some?)
  }

  function Select(limits: SelectionLimits, detection: Detection, validation: Validation, evaluation: Evaluation, n: Normalization)
    : Result<seq<Selection>, PipelineError>
  {
    if !OneLineage(detection, validation, evaluation, n) then Failure(LineageMismatch)
    else if |evaluation.attributes| > limits.attributes then Failure(LimitExceeded)
    else if !SameCandidates(n, validation) then Failure(LineageMismatch)
    else
      Traverse(evaluation.attributes, SelectAt(limits, detection, Evidence(n.candidates, validation.assessments)))
  }
}
