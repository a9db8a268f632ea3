/** What the attribute engines promise when they are composed. */
module PipelineTheorems {
  import opened Wrappers
  import opened Texts
  import opened Decimals
  import opened Grouping
  import opened Sorting
  import opened CatalogAttributes
  import opened AttributeNormalization
  import opened AttributeCompleteness
  import opened AttributeValidation
  import opened AttributeSelection
  import opened EvidenceTheorems
  import opened AgreementTheorems
  import D = ConflictDetection

  // ----- validation of normalized candidates --------------------------------------------------

  ghost predicate NoTypeIssue(issues: seq<Issue>) {
    forall i :: 0 <= i < |issues| ==> !issues[i].kind.TypeInvalid?
  }

  lemma NormalizedNumberReads(lib: Library, c: Candidate, d: Definition)
    requires Faithful(lib) && WellNormalized(c, d) && c.value.Some? && Numeric(d.dataType)
    ensures lib.decimalOf(c.value.value).Some?
    ensures d.dataType.Integer? ==> IsIntegral(lib.decimalOf(c.value.value).value)
  {
    hide Faithful, Canonical, ParsePlain, IsIntegral, Value, Strip;
    var text := c.value.value;
    var n :| Canonical(n) == text && (d.dataType.Integer? ==> IsIntegral(n));
    CanonicalRoundTrip(n);
    CanonicalTextReads(lib, text);
    SameValueSameIntegrality(n, ParsePlain(text).value);
  }

  lemma NormalizedTypeIssues(lib: Library, c: Candidate, d: Definition)
    requires Faithful(lib) && WellNormalized(c, d) && c.value.Some?
    ensures NoTypeIssue(TypeIssues(lib, c.value, d))
  {
    hide Faithful, Strip, CanonicalNumber, IsIntegral, Below;
    if Numeric(d.dataType) { NormalizedNumberReads(lib, c, d); }
  }

  /** A candidate that was normalized, with or without a conversion, or that kept its text or
      lacks only its unit, never gets a type issue. */
  lemma NormalizedIsTyped(lib: Library, limits: ValidationLimits, c: Candidate, d: Definition)
    requires Faithful(lib) && WellNormalized(c, d) && (D.Direct(c) || D.LacksUnit(c))
    requires IssuesOf(lib, limits, c, d).Success?
    ensures NoTypeIssue(IssuesOf(lib, limits, c, d).value)
  {
    assert c.value.Some?;
    hide Faithful, TypeIssues, Strip, WellNormalized, NoTypeIssue, AllowedIssues, PatternIssues, UnitIssues, ValidIssue;
    NormalizedTypeIssues(lib, c, d);
    RuleIssuesAreNotTypeIssues(lib, limits, c, d);
    var typed, allowed := TypeIssues(lib, c.value, d), AllowedIssues(c.value, d);
    var pattern, unit := PatternIssues(lib, limits, c.value, d).value, UnitIssues(c, d);
    Joined(typed, allowed);
    Joined(typed + allowed, pattern);
    Joined(typed + allowed + pattern, unit);
  }

  lemma RuleIssuesAreNotTypeIssues(lib: Library, limits: ValidationLimits, c: Candidate, d: Definition)
    ensures NoTypeIssue(AllowedIssues(c.value, d)) && NoTypeIssue(UnitIssues(c, d))
    ensures var pattern := PatternIssues(lib, limits, c.value, d);
      pattern.Success? ==> NoTypeIssue(pattern.value)
  {
  }

  lemma Joined(a: seq<Issue>, b: seq<Issue>)
    requires NoTypeIssue(a) && NoTypeIssue(b)
    ensures NoTypeIssue(a + b)
  {
  }

  lemma {:induction false} AssessedEach(lib: Library, limits: ValidationLimits, candidates: seq<Candidate>, schema: Schema, i: nat)
    requires AssessAll(lib, limits, candidates, schema).Success? && i < |candidates|
    ensures var c := candidates[i];
      Find(schema.attributes, c.name).Some?
      && AssessCandidate(lib, limits, c, Find(schema.attributes, c.name).value)
         == Success(AssessAll(lib, limits, candidates, schema).value[i])
  {
    hide Find, AssessCandidate;
    if i < |candidates| - 1 {
      AssessedEach(lib, limits, candidates[..|candidates| - 1], schema, i);
    }
  }

  lemma AssessmentFacts(lib: Library, limits: ValidationLimits, c: Candidate, d: Definition)
    requires AssessCandidate(lib, limits, c, d).Success?
    ensures var a := AssessCandidate(lib, limits, c, d).value;
      && a.candidate == c.id && a.value == c.value && a.unit == c.unit
      && (a.status.Valid? ==> D.Direct(c) && c.value.Some?)
  {
    var a := AssessCandidate(lib, limits, c, d).value;
    hide NumericIssues, PatternIssues, Strip;
    if a.status.Valid? {
      assert !Has(a.issues, Error) && !Has(a.issues, Warning);
      UnitIssueShows(lib, limits, c, d);
      if c.value.None? { TypeIssueShows(lib, limits, c, d); }
    }
  }

  lemma UnitIssueShows(lib: Library, limits: ValidationLimits, c: Candidate, d: Definition)
    requires !c.status.InvalidValue? && IssuesOf(lib, limits, c, d).Success?
    ensures c.status.UnitMissing? ==> Has(IssuesOf(lib, limits, c, d).value, Warning)
    ensures c.status.UnsupportedUnit? ==> Has(IssuesOf(lib, limits, c, d).value, Error)
  {
    hide TypeAndRules;
    var issues := IssuesOf(lib, limits, c, d).value;
    if c.status.UnitMissing? || c.status.UnsupportedUnit? {
      assert issues[|issues| - 1] == UnitIssues(c, d)[0];
    }
  }

  lemma TypeIssueShows(lib: Library, limits: ValidationLimits, c: Candidate, d: Definition)
    requires !c.status.InvalidValue? && IssuesOf(lib, limits, c, d).Success? && c.value.None?
    ensures Has(IssuesOf(lib, limits, c, d).value, Error)
  {
    hide UnitIssues, PatternIssues;
    var issues := IssuesOf(lib, limits, c, d).value;
    assert issues[0] == TypeIssues(lib, c.value, d)[0];
  }

  // ----- the engines, one after another ----------------------------------------------------------

  /** So no candidate that normalization itself marked as usable, from whatever extraction, gets one. */
  lemma NormalizationIsTyped(lib: Library, normalizing: AttributeNormalization.Limits, validating: ValidationLimits, id: nat,
                             extraction: Extraction, schema: Schema, i: nat)
    requires Faithful(lib) && ValidSchema(schema) && ExtractedBy(extraction, schema)
    requires Normalize(lib, normalizing, id, extraction, schema).Success?
    requires i < |Normalize(lib, normalizing, id, extraction, schema).value.candidates|
    ensures var c := Normalize(lib, normalizing, id, extraction, schema).value.candidates[i];
      && Find(schema.attributes, c.name).Some?
      && var issues := IssuesOf(lib, validating, c, Find(schema.attributes, c.name).value);
         (D.Direct(c) || D.LacksUnit(c)) && issues.Success? ==> NoTypeIssue(issues.value)
  {
    hide Normalize, Faithful, ValidSchema, ExtractedBy, Find, WellNormalized, IssuesOf, NoTypeIssue;
    NormalizationIsWell(lib, normalizing, id, extraction, schema);
    var c := Normalize(lib, normalizing, id, extraction, schema).value.candidates[i];
    if (D.Direct(c) || D.LacksUnit(c)) && IssuesOf(lib, validating, c, Find(schema.attributes, c.name).value).Success? {
      NormalizedIsTyped(lib, validating, c, Find(schema.attributes, c.name).value);
    }
  }

  datatype Engines = Engines(
    lib: Library, detection: D.Limits, completeness: AttributeCompleteness.Limits, validation: ValidationLimits,
    selection: SelectionLimits)

  /** The three results that selection is given are those of the engines on one normalization. */
  ghost predicate Upstream(g: Engines, n: Normalization, schema: Schema, detection: Detection, evaluation: Evaluation,
                           validation: Validation) {
    && D.Detect(g.lib, g.detection, detection.id, n) == Success(detection)
    && Evaluate(g.completeness, evaluation.id, detection, schema) == Success(evaluation)
    && Validate(g.lib, g.validation, n, schema) == Success(validation)
  }

  lemma ValidatedSameCandidates(g: Engines, n: Normalization, schema: Schema, validation: Validation)
    requires Validate(g.lib, g.validation, n, schema) == Success(validation)
    ensures SameCandidates(n, validation)
  {
    var assessments := validation.assessments;
    hide AssessmentOf, CandidateWith, AssessAll, Find;
    forall i | 0 <= i < |n.candidates|
      ensures assessments[i].candidate == n.candidates[i].id && assessments[i] in assessments && n.candidates[i] in n.candidates
    {
      AssessedEach(g.lib, g.validation, n.candidates, schema, i);
      var d := Find(schema.attributes, n.candidates[i].name).value;
      AssessmentFacts(g.lib, g.validation, n.candidates[i], d);
      hide AssessCandidate;
    }
  }

  /** The three flags of an attribute follow from the status of its consensus, and imply one another in turn. */
  ghost predicate FlagsFollow(c: Completeness, consensus: Option<Consensus>) {
    && (c.available <==> consensus.Some? && !consensus.value.status.NoValidCandidates?)
    && (c.resolved <==> consensus.Some? && consensus.value.status in {Agreement, AgreementWithTolerance, SingleCandidate})
    && (c.verified <==> consensus.Some? && consensus.value.status in {Agreement, AgreementWithTolerance})
    && (c.verified ==> c.resolved) && (c.resolved ==> c.available) && (c.available ==> !c.state.Missing?)
  }

  lemma CompletenessFollowsConsensus(limits: AttributeCompleteness.Limits, d: Definition, consensus: Option<Consensus>)
    requires AttributeCompleteness.Assess(limits, d, consensus).Success?
    ensures var c := AttributeCompleteness.Assess(limits, d, consensus).value;
      FlagsFollow(c, consensus) && c.required == d.required
  {
  }

  /** What completeness hands to selection agrees with the consensus that selection looks up. */
  ghost predicate AgreesWith(c: Completeness, consensus: Option<Consensus>) {
    if consensus.None? then
      && c.state.Missing? && c.candidates == [] && c.consensus.None?
      && c.candidateCount == 0 && c.comparableCount == 0 && c.sourceCount == 0
    else
      var from := consensus.value;
      && (c.state.Present? <==> from.status.Agreement?)
      && (c.state.PresentWithTolerance? <==> from.status.AgreementWithTolerance?)
      && (c.state.PresentSingleSource? <==> from.status.SingleCandidate?)
      && (c.state.Conflicted? <==> from.status.Conflict?)
      && (c.state.IndeterminateState? <==> from.status.Indeterminate?)
      && (c.state.InvalidOnly? <==> from.status.NoValidCandidates?)
      && !c.state.Missing? && c.candidates == from.candidates && c.consensus == Some(from.status)
      && c.candidateCount == from.candidateCount && c.comparableCount == from.comparableCount && c.sourceCount == from.sourceCount
  }

  lemma EvaluatedEach(limits: AttributeCompleteness.Limits, id: nat, detection: Detection, schema: Schema, i: nat)
    requires Evaluate(limits, id, detection, schema).Success?
    requires i < |Evaluate(limits, id, detection, schema).value.attributes|
    ensures var c := Evaluate(limits, id, detection, schema).value.attributes[i];
      AgreesWith(c, ConsensusFor(detection.attributes, c.name)) && FlagsFollow(c, ConsensusFor(detection.attributes, c.name))
      && exists d :: d in schema.attributes && d.name == c.name && d.displayName == c.displayName
                     && d.displayOrder == c.displayOrder && d.required == c.required
  {
    hide ConsensusFor, ValidCompleteness, Sort, FlagsFollow;
    var c := Evaluate(limits, id, detection, schema).value.attributes[i];
    var sorted := Sort(schema.attributes, BY_DISPLAY_ORDER);
    assert AssessAt(limits, detection)(i, sorted[i]) == Success(c);
    CompletenessFollowsConsensus(limits, sorted[i], ConsensusFor(detection.attributes, c.name));
    SortPermutes(schema.attributes, BY_DISPLAY_ORDER);
    SameElements(sorted, schema.attributes);
    assert sorted[i] in sorted;
  }

  function DefinedName(d: Definition): string { d.name }
  function EvaluatedName(c: Completeness): string { c.name }

  /** Completeness says something of every attribute of the schema, once, in display order. */
  lemma EvaluationCoversSchema(limits: AttributeCompleteness.Limits, id: nat, detection: Detection, schema: Schema)
    requires Evaluate(limits, id, detection, schema).Success?
    ensures var attributes := Evaluate(limits, id, detection, schema).value.attributes;
      && |attributes| == |schema.attributes|
      && multiset(Mapped(attributes, EvaluatedName)) == multiset(Mapped(schema.attributes, DefinedName))
      && forall i, j :: 0 <= i < j < |attributes| ==> attributes[i].displayOrder <= attributes[j].displayOrder
  {
    hide ConsensusFor, ValidCompleteness, Sort, AttributeCompleteness.Assess;
    var attributes, sorted := Evaluate(limits, id, detection, schema).value.attributes, Sort(schema.attributes, BY_DISPLAY_ORDER);
    SortPermutes(schema.attributes, BY_DISPLAY_ORDER);
    SortSorts(schema.attributes, BY_DISPLAY_ORDER);
    assert |sorted| == |multiset(sorted)| == |schema.attributes|;
    forall i | 0 <= i < |sorted|
      ensures attributes[i].name == sorted[i].name && attributes[i].displayOrder == sorted[i].displayOrder
    {
      assert AssessAt(limits, detection)(i, sorted[i]) == Success(attributes[i]);
      AssessedKeeps(limits, sorted[i], ConsensusFor(detection.attributes, sorted[i].name));
    }
    assert Mapped(attributes, EvaluatedName) == Mapped(sorted, DefinedName);
    MappedMultiset(sorted, schema.attributes, DefinedName);
  }

  lemma AssessedKeeps(limits: AttributeCompleteness.Limits, d: Definition, consensus: Option<Consensus>)
    ensures var r := AttributeCompleteness.Assess(limits, d, consensus);
      r.Success? ==> r.value.name == d.name && r.value.displayOrder == d.displayOrder
  {
  }

  lemma SelectKeepsLineage(limits: SelectionLimits, c: Completeness, consensus: Option<Consensus>, e: Evidence)
    requires AgreesWith(c, consensus)
    ensures var r := SelectAttribute(limits, c, consensus, e);
      r.Failure? ==> r.error != LineageMismatch
  {
    hide Known, ReviewReason, ValidSelection, Where;
  }

  /** Selection never finds a lineage mismatch between the results of one normalization. */
  lemma ComposesWithoutLineageFailure(g: Engines, n: Normalization, schema: Schema, detection: Detection,
                                      evaluation: Evaluation, validation: Validation)
    requires Upstream(g, n, schema, detection, evaluation, validation)
    ensures var r := Select(g.selection, detection, validation, evaluation, n);
      r.Failure? ==> r.error != LineageMismatch
  {
    ValidatedSameCandidates(g, n, schema, validation);
    hide SelectAttribute, SameCandidates, AgreesWith, ConsensusFor;
    var e := Evidence(n.candidates, validation.assessments);
    forall i | 0 <= i < |evaluation.attributes|
      ensures var r := SelectAt(g.selection, detection, e)(i, evaluation.attributes[i]);
        r.Failure? ==> r.error != LineageMismatch
    {
      var c := evaluation.attributes[i];
      EvaluatedEach(g.completeness, evaluation.id, detection, schema, i);
      SelectKeepsLineage(g.selection, c, ConsensusFor(detection.attributes, c.name), e);
    }
    assert OneLineage(detection, validation, evaluation, n);
  }
}
