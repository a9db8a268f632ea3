/** When the engines refuse: exactly on another schema's results, or when there is too much. */
module EngineRefusals {
  import opened Wrappers
  import opened Grouping
  import opened Sorting
  import opened CatalogAttributes
  import opened AttributeCompleteness
  import opened AttributeValidation
  import opened AttributeSelection
  import opened EvidenceTheorems
  import opened PipelineTheorems
  import opened AutoSelectionTheorem
  import opened DetectionMeaning
  import V = ValidationMeaning
  import D = ConflictDetection

  // ----- completeness -----------------------------------------------------------------------------

  /** The counts of a consensus that detection reports. */
  lemma DetectedCounts(g: Engines, n: Normalization, detection: Detection, name: string)
    requires D.Detect(g.lib, g.detection, detection.id, n) == Success(detection) && ConsensusFor(detection.attributes, name).Some?
    ensures var c := ConsensusFor(detection.attributes, name).value;
      c.candidateCount == |c.candidates| && c.comparableCount <= c.candidateCount && c.sourceCount <= c.candidateCount
  {
    hide D.Detect, ConsensusFor, Of, D.AssessAttribute, ConsensusMeans, Accounts;
    var c := ConsensusFor(detection.attributes, name).value;
    var items := Of(n, name);
    DetectedEach(g, n, detection, name);
    EvidenceTheorems.AssessmentAccounts(g.lib, g.detection, name, items);
    DetectionMeaning.AssessmentMeans(g.lib, g.detection, name, items);
    ImageSize(items, D.SourceOf);
    SourcesOf(items);
    CountsFit(g.lib, g.detection, name, items, c);
  }

  lemma CountsFit(lib: Library, limits: D.Limits, name: string, items: seq<Candidate>, c: Consensus)
    requires items != [] && ConsensusMeans(lib, limits, name, items, c) && Accounts(c, name, items) && D.SourceCount(items) <= |items|
    requires D.SourceCount(items) == |set candidate | candidate in items :: candidate.source|
    ensures c.candidateCount == |c.candidates| && c.comparableCount <= c.candidateCount && c.sourceCount <= c.candidateCount
  {
    hide StatusMeans, JudgementMeans, GroupsCover, D.SourceCount, Where;
  }

  lemma AssessedIffFits(limits: AttributeCompleteness.Limits, d: Definition, consensus: Option<Consensus>)
    requires ValidDefinition(d)
    requires consensus.Some? ==>
      var c := consensus.value;
      c.candidateCount == |c.candidates| && c.comparableCount <= c.candidateCount && c.sourceCount <= c.candidateCount
    ensures var r := AttributeCompleteness.Assess(limits, d, consensus);
      && (r.Failure? ==> r.error == LimitExceeded)
      && (r.Success? <==> consensus.None? || |consensus.value.candidates| <= limits.candidates)
  {
  }

  /** Completeness of what detection found is refused exactly for another schema, or if the schema has
      too many attributes or one of them too many candidates. */
  lemma EvaluatedIff(g: Engines, n: Normalization, schema: Schema, detection: Detection, id: nat)
    requires D.Detect(g.lib, g.detection, detection.id, n) == Success(detection) && ValidSchema(schema)
    ensures var r := Evaluate(g.completeness, id, detection, schema);
      && (r == Failure(SchemaMismatch) <==> !V.OfSchema(schema, detection.lineage))
      && (r.Failure? ==> r.error == SchemaMismatch || r.error == LimitExceeded)
      && (r.Success? <==>
            && V.OfSchema(schema, detection.lineage) && |schema.attributes| <= g.completeness.attributes
            && forall d :: d in schema.attributes && ConsensusFor(detection.attributes, d.name).Some? ==>
                 |ConsensusFor(detection.attributes, d.name).value.candidates| <= g.completeness.candidates)
      && (r.Success? ==> r.value.id == id && r.value.detection == detection.id && r.value.lineage == detection.lineage)
  {
    hide D.Detect, ConsensusFor, AttributeCompleteness.Assess, ValidDefinition, Sort;
    var sorted := Sort(schema.attributes, BY_DISPLAY_ORDER);
    var f := AssessAt(g.completeness, detection);
    SortPermutes(schema.attributes, BY_DISPLAY_ORDER);
    SameElements(sorted, schema.attributes);
    forall i: nat | i < |sorted|
      ensures var consensus := ConsensusFor(detection.attributes, sorted[i].name);
        && (f(i, sorted[i]).Failure? ==> f(i, sorted[i]).error == LimitExceeded)
        && (f(i, sorted[i]).Success? <==> consensus.None? || |consensus.value.candidates| <= g.completeness.candidates)
    {
      assert sorted[i] in sorted && sorted[i] in schema.attributes;
      if ConsensusFor(detection.attributes, sorted[i].name).Some? { DetectedCounts(g, n, detection, sorted[i].name); }
      AssessedIffFits(g.completeness, sorted[i], ConsensusFor(detection.attributes, sorted[i].name));
    }
    var r := Traverse(sorted, f);
    if r.Success? {
      forall d | d in schema.attributes && ConsensusFor(detection.attributes, d.name).Some?
        ensures |ConsensusFor(detection.attributes, d.name).value.candidates| <= g.completeness.candidates
      {
        assert d in sorted;
        var i: nat :| i < |sorted| && sorted[i] == d;
        assert f(i, sorted[i]) == Success(r.value[i]);
      }
    } else {
      var i: nat :| i < |sorted| && f(i, sorted[i]) == Failure(r.error);
      assert sorted[i] in sorted && sorted[i] in schema.attributes;
    }
  }

  // ----- selection ---------------------------------------------------------------------------------

  /** The results are of one normalization: they share its lineage, the evaluation is of the detection,
      and the identifiers validated are those normalized. */
  ghost predicate OfOneNormalization(detection: Detection, validation: Validation, evaluation: Evaluation, n: Normalization) {
    && detection.lineage == n.lineage && validation.lineage == n.lineage && evaluation.lineage == n.lineage
    && evaluation.detection == detection.id
    && (set c | c in n.candidates :: c.id) == set a | a in validation.assessments :: a.candidate
  }

  lemma SameCandidatesIff(n: Normalization, validation: Validation)
    ensures SameCandidates(n, validation) <==>
      (set c | c in n.candidates :: c.id) == set a | a in validation.assessments :: a.candidate
  {
    var normalized, validated := set c | c in n.candidates :: c.id, set a | a in validation.assessments :: a.candidate;
    forall c | c in n.candidates ensures AssessmentOf(validation.assessments, c.id).Some? <==> c.id in validated {
      AssessmentOfSome(validation, c.id);
    }
    forall a | a in validation.assessments ensures CandidateWith(n.candidates, a.candidate).Some? <==> a.candidate in normalized {
      CandidateWithSome(n, a.candidate);
    }
    hide AssessmentOf, CandidateWith;
    assert forall i :: 0 <= i < |n.candidates| ==> n.candidates[i] in n.candidates;
    assert forall i :: 0 <= i < |validation.assessments| ==> validation.assessments[i] in validation.assessments;
  }

  lemma AssessmentOfSome(validation: Validation, id: string)
    ensures AssessmentOf(validation.assessments, id).Some? <==> exists a :: a in validation.assessments && a.candidate == id
  {
    var r := AssessmentOf(validation.assessments, id);
    hide AssessmentOf;
  }

  lemma CandidateWithSome(n: Normalization, id: string)
    ensures CandidateWith(n.candidates, id).Some? <==> exists c :: c in n.candidates && c.id == id
  {
    var r := CandidateWith(n.candidates, id);
    hide CandidateWith;
  }

  /** On results of different normalizations selection raises a lineage mismatch, or that there are too many. */
  lemma SelectionChecksLineage(limits: SelectionLimits, detection: Detection, validation: Validation, evaluation: Evaluation,
                               n: Normalization)
    requires !OfOneNormalization(detection, validation, evaluation, n)
    ensures var r := Select(limits, detection, validation, evaluation, n);
      r == Failure(LineageMismatch) || (r == Failure(LimitExceeded) && |evaluation.attributes| > limits.attributes)
  {
    SameCandidatesIff(n, validation);
    hide SameCandidates, SelectAt;
  }
}
