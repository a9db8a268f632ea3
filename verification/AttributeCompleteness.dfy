/** The completeness engine: what the consensus says about every attribute of the schema. */
module AttributeCompleteness {
  import opened Wrappers
  import opened CatalogAttributes
  import opened Sorting

  datatype Limits = Limits(attributes: nat, candidates: nat)

  function StateOf(status: ConsensusStatus): State {
    match status
    case Agreement => Present
    case AgreementWithTolerance => PresentWithTolerance
    case SingleCandidate => PresentSingleSource
    case Conflict => Conflicted
    case Indeterminate => IndeterminateState
    case NoValidCandidates => InvalidOnly
  }

  const AVAILABLE: set<State> := {Present, PresentWithTolerance, PresentSingleSource, Conflicted, IndeterminateState}
  const RESOLVED: set<State> := {Present, PresentWithTolerance, PresentSingleSource}
  const VERIFIED: set<State> := {Present, PresentWithTolerance}

  /** The consensus of an attribute by name; of several, the last. */
  function ConsensusFor(attributes: seq<Consensus>, name: string): (r: Option<Consensus>)
    ensures r.Some? ==> r.value in attributes && r.value.name == name
    ensures r.None? ==> forall c :: c in attributes ==> c.name != name
  {
    LastWith(attributes, (c: Consensus) => c.name == name)
  }

  /** What the constructor accepts, of the parts that the state does not settle. */
  predicate ValidCompleteness(c: Completeness) {
    && c.name != "" && c.displayName != "" && c.displayOrder >= 1
    && c.candidateCount == |c.candidates| && c.comparableCount <= c.candidateCount && c.sourceCount <= c.candidateCount
  }

  function Assess(limits: Limits, d: Definition, consensus: Option<Consensus>): Result<Completeness, PipelineError> {
    match consensus
    case None =>
      Success(Completeness(d.name, d.displayName, d.required, d.displayOrder, Missing, 0, 0, 0, None, [], false, false, false))
    case Some(c) =>
      if |c.candidates| > limits.candidates then Failure(LimitExceeded)
      else
        var state := StateOf(c.status);
        var r := Completeness(d.name, d.displayName, d.required, d.displayOrder, state, c.candidateCount, c.comparableCount,
                              c.sourceCount, Some(c.status), c.candidates, state in AVAILABLE, state in RESOLVED,
                              state in VERIFIED);
        if ValidCompleteness(r) then Success(r) else Failure(InvalidEntity)
  }

  const BY_DISPLAY_ORDER: (Definition, Definition) -> bool :=
    (a: Definition, b: Definition) => a.displayOrder <= b.displayOrder

  function AssessAt(limits: Limits, detection: Detection): (nat, Definition) -> Result<Completeness, PipelineError> {
    (index: nat, d: Definition) => Assess(limits, d, ConsensusFor(detection.attributes, d.name))
  }

  predicate SameSchema(schema: Schema, lineage: Lineage) {
    schema.category == lineage.category && schema.version == lineage.version && schema.fingerprint == lineage.fingerprint
  }

  function Evaluate(limits: Limits, id: nat, detection: Detection, schema: Schema): Result<Evaluation, PipelineError> {
    if !SameSchema(schema, detection.lineage) then Failure(SchemaMismatch)
    else if |schema.attributes| > limits.attributes then Failure(LimitExceeded)
    else
      match Traverse(Sort(schema.attributes, BY_DISPLAY_ORDER), AssessAt(limits, detection))
      case Failure(e) => Failure(e)
      case Success(attributes) => Success(Evaluation(id, detection.id, detection.lineage, attributes))
  }
}
