/**
 What the selection of an attribute says: why it proposes a value or does not,
 how sure it is, and on how many candidates and sources it rests.
 */
module SelectionMeaning {
  import opened Wrappers
  import opened Grouping
  import opened Sorting
  import opened CatalogAttributes
  import opened AttributeCompleteness
  import opened AttributeValidation
  import opened AttributeSelection
  import opened PipelineTheorems
  import opened AutoSelectionTheorem
  import opened AutoSelectionCriterion
  import opened DetectionMeaning

  predicate Passable(r: Ranked) { r.status == Valid || r.status == ValidWithWarnings }

  ghost predicate AllValid(ranked: seq<Ranked>) { forall r :: r in ranked ==> r.status == Valid }

  /** The candidates come from fewer distinct sources than are asked for. */
  ghost predicate TooFewSources(limits: SelectionLimits, ranked: seq<Ranked>) {
    |set r | r in ranked :: r.candidate.source| < limits.minSources
  }

  /** The candidates have one unit, and one value if they are said to agree exactly. */
  ghost predicate Uniform(ranked: seq<Ranked>, exact: bool) {
    forall r, o :: r in ranked && o in ranked ==>
      r.candidate.unit == o.candidate.unit && (exact ==> r.candidate.value == o.candidate.value)
  }

  predicate Agreed(status: ConsensusStatus) { status.Agreement? || status.AgreementWithTolerance? }

  function Sureness(status: ConsensusStatus): int { if status.Agreement? then 10_000 else 9_000 }

  ghost predicate NothingValid(status: ConsensusStatus, ranked: seq<Ranked>) {
    status.NoValidCandidates? || !exists r :: r in ranked && r.status == Valid
  }

  /** Agreement of valid candidates alone is not enough. */
  ghost predicate Corroborated(limits: SelectionLimits, status: ConsensusStatus, ranked: seq<Ranked>) {
    !TooFewSources(limits, ranked) && Uniform(ranked, status.Agreement?) && Sureness(status) >= limits.threshold
  }

  ghost predicate StatusIs(limits: SelectionLimits, status: ConsensusStatus, ranked: seq<Ranked>, s: Selection) {
    && (s.status.NoValidCandidate? <==> NothingValid(status, ranked))
    && (s.status.AutoSelected? <==>
          !NothingValid(status, ranked) && Agreed(status) && AllValid(ranked) && Corroborated(limits, status, ranked))
    && !s.status.NoCandidate?
  }

  /** The reason tells what stands in the way, or how the candidates agree. */
  ghost predicate ReasonIs(status: ConsensusStatus, ranked: seq<Ranked>, s: Selection) {
    && (s.status.NoValidCandidate? ==> s.reason.NoValidCandidateReason?)
    && (s.status.AutoSelected? ==> s.reason == if status.Agreement? then MultiSourceExactAgreement else MultiSourceToleranceAgreement)
    && (s.status.ReviewRequired? ==>
          match status
          case Conflict => s.reason.ValueConflictReason?
          case Indeterminate => s.reason.UnitIndeterminateReason?
          case SingleCandidate => s.reason.SingleSourceOnly?
          case _ => s.reason == if AllValid(ranked) then InsufficientCorroboration else ValidationWarning)
  }

  ghost predicate ConfidenceIs(limits: SelectionLimits, status: ConsensusStatus, ranked: seq<Ranked>, s: Selection) {
    s.confidence ==
      if s.status.AutoSelected? then Sureness(status)
      else if s.reason.SingleSourceOnly? then 6_000
      else if s.reason.InsufficientCorroboration? then if TooFewSources(limits, ranked) then 7_000 else Sureness(status)
      else 0
  }

  /** How many candidates, valid ones and sources there are, and which are up for review. */
  ghost predicate CountsAre(status: ConsensusStatus, ids: seq<string>, ranked: seq<Ranked>, s: Selection) {
    && s.consensus == Some(status) && s.candidateCount == |ids|
    && s.validCount == (if status.NoValidCandidates? then 0 else |Where(ranked, Passable)|)
    && s.sourceCount == |set r | r in ranked :: r.candidate.source|
    && s.review == (if s.status.AutoSelected? then [] else ids)
  }

  ghost predicate SelectionMeans(limits: SelectionLimits, c: Completeness, consensus: Option<Consensus>, e: Evidence, s: Selection) {
    && s.name == c.name && s.required == c.required && s.displayOrder == c.displayOrder
    && (s.reviewRequired <==> s.status.ReviewRequired? || (s.required && !s.status.AutoSelected?))
    && match consensus
       case None =>
         && s.status.NoCandidate? && s.reason == (if s.required then MissingAttribute else OptionalAttributeUnresolved)
         && s.candidateCount == 0 && s.validCount == 0 && s.sourceCount == 0 && s.confidence == 0
         && s.consensus.None? && s.review == []
       case Some(found) =>
         && Known(e, found.candidates)
         && var ranked := LookedUp(e, found.candidates);
            && StatusIs(limits, found.status, ranked, s) && ReasonIs(found.status, ranked, s)
            && ConfidenceIs(limits, found.status, ranked, s) && CountsAre(found.status, found.candidates, ranked, s)
  }

  // ----- the terms of selection ----------------------------------------------------------------

  lemma SourcesAre(ranked: seq<Ranked>)
    ensures Image(ranked, RankedSource) == set r | r in ranked :: r.candidate.source
  {
    var mapped := Mapped(ranked, RankedSource);
    forall r | r in ranked ensures r.candidate.source in Image(ranked, RankedSource) {
      var i :| 0 <= i < |ranked| && ranked[i] == r;
      assert mapped[i] == r.candidate.source;
    }
    forall x | x in Image(ranked, RankedSource) ensures x in set r | r in ranked :: r.candidate.source {
      var i :| 0 <= i < |ranked| && mapped[i] == x;
      assert ranked[i] in ranked;
    }
  }

  lemma AllValidIff(ranked: seq<Ranked>)
    ensures |Where(ranked, IsValid)| == |ranked| <==> AllValid(ranked)
    ensures AllValid(ranked) ==> Where(ranked, IsValid) == ranked
    ensures Where(ranked, IsValid) == [] <==> !exists r :: r in ranked && r.status == Valid
  {
    if AllValid(ranked) { WhereAll(ranked, IsValid); }
    if |Where(ranked, IsValid)| == |ranked| { AllPass(ranked, IsValid); }
    NoneWhere(ranked, IsValid);
    hide Where;
  }

  lemma UniformIff(ranked: seq<Ranked>, exact: bool)
    requires ranked != []
    ensures Uniform(ranked, exact) <==> |Image(ranked, RankedUnit)| == 1 && (exact ==> |Image(ranked, RankedValue)| == 1)
  {
    OneImageIff(ranked, RankedUnit);
    OneImageIff(ranked, RankedValue);
    hide Image;
    assert forall i :: 0 <= i < |ranked| ==> ranked[i] in ranked;
    if !Uniform(ranked, exact) {
      var r, o :| r in ranked && o in ranked
                  && !(r.candidate.unit == o.candidate.unit && (exact ==> r.candidate.value == o.candidate.value));
      var i :| 0 <= i < |ranked| && ranked[i] == r;
      var j :| 0 <= j < |ranked| && ranked[j] == o;
    }
  }

  lemma ReviewReasonIs(limits: SelectionLimits, status: ConsensusStatus, ranked: seq<Ranked>)
    requires !NothingValid(status, ranked)
    ensures match ReviewReason(limits, status, ranked)
      case None => Agreed(status) && AllValid(ranked) && Corroborated(limits, status, ranked)
      case Some((reason, confidence)) =>
        && !(Agreed(status) && AllValid(ranked) && Corroborated(limits, status, ranked))
        && (match status
            case Conflict => reason.ValueConflictReason?
            case Indeterminate => reason.UnitIndeterminateReason?
            case SingleCandidate => reason.SingleSourceOnly?
            case _ => reason == if AllValid(ranked) then InsufficientCorroboration else ValidationWarning)
        && confidence == if reason.SingleSourceOnly? then 6_000
                         else if reason.InsufficientCorroboration? then if TooFewSources(limits, ranked) then 7_000 else Sureness(status)
                         else 0
  {
    hide Where, Image, AllValid, Uniform, TooFewSources, NothingValid;
    AllValidIff(ranked);
    NothingIs(status, ranked);
    FewIff(limits, ranked);
    if AllValid(ranked) { UniformIff(ranked, status.Agreement?); }
  }

  lemma FewIff(limits: SelectionLimits, ranked: seq<Ranked>)
    ensures TooFewSources(limits, ranked) <==> |Image(ranked, RankedSource)| < limits.minSources
  {
    SourcesAre(ranked);
  }

  lemma NothingIs(status: ConsensusStatus, ranked: seq<Ranked>)
    ensures NothingValid(status, ranked) <==> status.NoValidCandidates? || Where(ranked, IsValid) == []
  {
    AllValidIff(ranked);
  }

  lemma PassableIsUsable(ranked: seq<Ranked>)
    ensures |Where(ranked, IsUsable)| == |Where(ranked, Passable)|
  {
    SameFilter(ranked, IsUsable, Passable);
  }

  /** Whatever the evidence is: what selection says of an attribute is what the evidence calls for. */
  lemma SelectedMeans(limits: SelectionLimits, c: Completeness, consensus: Option<Consensus>, e: Evidence)
    requires AgreesWith(c, consensus) && SelectAttribute(limits, c, consensus, e).Success?
    ensures SelectionMeans(limits, c, consensus, e, SelectAttribute(limits, c, consensus, e).value)
  {
    hide Known, LookedUp, ReviewReason, Where, Image, ValidSelection, NothingValid, AllValid, Corroborated, TooFewSources, Proposal;
    if consensus.Some? && Known(e, consensus.value.candidates) {
      var ranked := LookedUp(e, consensus.value.candidates);
      NothingIs(consensus.value.status, ranked);
      SourcesAre(ranked);
      PassableIsUsable(ranked);
      if !NothingValid(consensus.value.status, ranked) {
        ReviewReasonIs(limits, consensus.value.status, ranked);
        ProposalSays(c, consensus.value.status, ranked);
      }
    }
  }

  lemma ProposalSays(c: Completeness, status: ConsensusStatus, ranked: seq<Ranked>)
    requires Where(ranked, IsValid) != []
    ensures var s := Proposal(c, status, ranked);
      && s.name == c.name && s.required == c.required && s.displayOrder == c.displayOrder && s.status.AutoSelected? && !s.reviewRequired
      && s.reason == (if status.Agreement? then MultiSourceExactAgreement else MultiSourceToleranceAgreement)
      && s.confidence == Sureness(status) && s.consensus == Some(status) && s.candidateCount == |ranked|
      && s.validCount == |Where(ranked, IsUsable)| && s.sourceCount == |Image(ranked, RankedSource)| && s.review == []
  {
    hide Where, Image, RanksBefore, Insert, Mapped;
    SortPermutes(Where(ranked, IsValid), RanksBefore);
  }

  /** So does every selection of a run of the engines on one normalization. */
  lemma PipelineSelectionMeans(g: Engines, n: Normalization, schema: Schema, detection: Detection, evaluation: Evaluation,
                               validation: Validation, i: nat)
    requires Upstream(g, n, schema, detection, evaluation, validation)
    requires Select(g.selection, detection, validation, evaluation, n).Success?
    requires i < |Select(g.selection, detection, validation, evaluation, n).value|
    ensures i < |evaluation.attributes|
    ensures var c, s := evaluation.attributes[i], Select(g.selection, detection, validation, evaluation, n).value[i];
      var consensus := ConsensusFor(detection.attributes, c.name);
      AgreesWith(c, consensus) && SelectionMeans(g.selection, c, consensus, Evidence(n.candidates, validation.assessments), s)
  {
    var e := Evidence(n.candidates, validation.assessments);
    var s := Select(g.selection, detection, validation, evaluation, n).value[i];
    assert SelectAt(g.selection, detection, e)(i, evaluation.attributes[i]) == Success(s);
    hide SelectAttribute, SelectionMeans, AgreesWith, ConsensusFor, Evaluate, Validate;
    EvaluatedEach(g.completeness, evaluation.id, detection, schema, i);
    SelectedMeans(g.selection, evaluation.attributes[i], ConsensusFor(detection.attributes, evaluation.attributes[i].name), e);
  }
}
