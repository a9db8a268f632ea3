/**
 The conflict detection engine: candidates grouped by attribute in first-seen
 order, the comparable ones judged and grouped by value.
 */
module ConflictDetection {
  import opened Wrappers
  import opened Texts
  import opened Decimals
  import opened NumericAgreement
  import opened Grouping
  import opened CatalogAttributes
  import RecordKeys

  datatype Limits = Limits(comparator: Comparator, attributes: nat, candidates: nat, groups: nat)

  /** What the constructor of the engine accepts. */
  ghost predicate AcceptedLimits(limits: Limits) {
    Accepted(limits.comparator) && limits.attributes >= 1 && limits.candidates >= 1 && limits.groups >= 1
  }

  datatype Judgement = Judgement(status: ConsensusStatus, confidence: int, conflict: Option<ConflictType>)

  function NameOf(c: Candidate): string { c.name }
  function IdOf(c: Candidate): string { c.id }
  function SourceOf(c: Candidate): nat { c.source }
  function UnitOf(c: Candidate): Option<string> { c.unit }

  predicate HasValue(c: Candidate) { c.value.Some? }
  predicate Excluded(c: Candidate) { c.status in {UnsupportedUnit, InvalidValue} }
  predicate Direct(c: Candidate) { c.status in {Normalized, NormalizedWithConversion, RawTextPreserved} }
  predicate LacksUnit(c: Candidate) { c.status.UnitMissing? }

  function SourceCount(candidates: seq<Candidate>): nat { |Image(candidates, SourceOf)| }

  function Decimal(lib: Library, c: Candidate): Option<Dec> {
    lib.decimalOf(if c.value.Some? then c.value.value else "")
  }

  function Numbers(lib: Library, candidates: seq<Candidate>): Option<seq<Dec>> {
    if exists i :: 0 <= i < |candidates| && Decimal(lib, candidates[i]).None? then None
    else Some(seq(|candidates|, i requires 0 <= i < |candidates| && Decimal(lib, candidates[i]).Some? =>
                  Decimal(lib, candidates[i]).value))
  }

  function Form(lib: Library): Candidate -> string {
    (c: Candidate) => lib.casefold(Collapsed(if c.value.Some? then c.value.value else ""))
  }

  function Agreed(candidates: seq<Candidate>, several: int, one: int): int {
    if SourceCount(candidates) >= 2 then several else one
  }

  const UNCLEAR_UNITS := Judgement(Indeterminate, 5_000, Some(UnitIndeterminate))
  const DISAGREEMENT := Judgement(Conflict, 10_000, Some(ValueConflict))

  function Judge(lib: Library, comparator: Comparator, dataType: DataType, candidates: seq<Candidate>)
    : Result<Judgement, PipelineError>
  {
    if candidates == [] then Success(Judgement(NoValidCandidates, 10_000, None))
    else if |candidates| == 1 then Success(Judgement(SingleCandidate, 6_000, None))
    else if exists i :: 0 <= i < |candidates| && candidates[i].value.None? then Success(UNCLEAR_UNITS)
    else if Numeric(dataType) then
      if |Image(candidates, UnitOf)| != 1 then Success(UNCLEAR_UNITS)
      else
        match Numbers(lib, candidates)
        case None => Failure(DetectionFailed)
        case Some(numbers) =>
          match Verdict(comparator, numbers, dataType.Integer?)
          case Exact => Success(Judgement(Agreement, Agreed(candidates, 10_000, 8_500), None))
          case Tolerance => Success(Judgement(AgreementWithTolerance, Agreed(candidates, 9_000, 8_000), None))
          case Different => Success(DISAGREEMENT)
    else if |Image(candidates, Form(lib))| == 1 then
      Success(Judgement(Agreement, Agreed(candidates, 10_000, 8_500), None))
    else Success(DISAGREEMENT)
  }

  // ----- agreement groups ----------------------------------------------------------------

  function KeyOf(c: Candidate): (string, Option<string>) { (if c.value.Some? then c.value.value else "", c.unit) }

  function ValueGroups(candidates: seq<Candidate>): seq<Group<(string, Option<string>), Candidate>> {
    GroupBy(Where(candidates, HasValue), KeyOf)
  }

  function AgreementOf(index: nat, g: Group<(string, Option<string>), Candidate>): AgreementGroup {
    AgreementGroup("group-" + RecordKeys.Padded(index + 1), g.key.0, g.key.1, Mapped(g.items, IdOf),
                   FirstSeen(Mapped(g.items, SourceOf)))
  }

  const CHECKED_GROUP: (nat, Group<(string, Option<string>), Candidate>) -> Result<AgreementGroup, PipelineError> :=
    (index: nat, g: Group<(string, Option<string>), Candidate>) =>
      if ValidGroup(AgreementOf(index, g)) then Success(AgreementOf(index, g)) else Failure(InvalidEntity)

  function AgreementGroups(candidates: seq<Candidate>): Result<seq<AgreementGroup>, PipelineError> {
    Traverse(ValueGroups(candidates), CHECKED_GROUP)
  }

  // ----- one attribute --------------------------------------------------------------------

  /** Candidates with a unit are compared among themselves, unless some lack one. */
  function Comparable(candidates: seq<Candidate>): seq<Candidate> {
    var direct, missing := Where(candidates, Direct), Where(candidates, LacksUnit);
    if missing != [] && direct != [] then direct + missing else if direct != [] then direct else missing
  }

  predicate Mixed(candidates: seq<Candidate>) {
    Where(candidates, LacksUnit) != [] && Where(candidates, Direct) != []
  }

  function JudgeAttribute(lib: Library, limits: Limits, candidates: seq<Candidate>): Result<Judgement, PipelineError>
    requires candidates != []
  {
    if Mixed(candidates) then Success(UNCLEAR_UNITS)
    else Judge(lib, limits.comparator, candidates[0].dataType, Comparable(candidates))
  }

  function Warnings(candidates: seq<Candidate>): seq<ConflictType> {
    (if Where(candidates, Excluded) != [] then [MixedValidity] else [])
    + (if Mixed(candidates) then [UnitIndeterminate] else [])
  }

  function ConsensusOf(name: string, candidates: seq<Candidate>, j: Judgement, groups: seq<AgreementGroup>): Consensus
    requires candidates != []
  {
    var first := candidates[0];
    Consensus(name, first.displayName, first.dataType, j.status, |candidates|, |Comparable(candidates)|,
              |Where(candidates, Excluded)|, SourceCount(candidates), |groups|, j.conflict, Mapped(candidates, IdOf),
              groups, j.confidence, Warnings(candidates))
  }

  function AssessAttribute(lib: Library, limits: Limits, name: string, candidates: seq<Candidate>)
    : Result<Consensus, PipelineError>
    requires candidates != []
  {
    if |candidates| > limits.candidates then Failure(LimitExceeded)
    else
      match JudgeAttribute(lib, limits, candidates)
      case Failure(e) => Failure(e)
      case Success(j) =>
        match AgreementGroups(Comparable(candidates))
        case Failure(e) => Failure(e)
        case Success(groups) =>
          if |groups| > limits.groups then Failure(LimitExceeded)
          else if !ValidConsensus(ConsensusOf(name, candidates, j, groups)) then Failure(InvalidEntity)
          else Success(ConsensusOf(name, candidates, j, groups))
  }

  function AssessAt(lib: Library, limits: Limits): (nat, Group<string, Candidate>) -> Result<Consensus, PipelineError> {
    (index: nat, g: Group<string, Candidate>) =>
      if g.items == [] then Failure(InvalidEntity) else AssessAttribute(lib, limits, g.key, g.items)
  }

  function Detect(lib: Library, limits: Limits, id: nat, n: Normalization): Result<Detection, PipelineError> {
    var groups := GroupBy(n.candidates, NameOf);
    if |groups| > limits.attributes then Failure(LimitExceeded)
    else
      match Traverse(groups, AssessAt(lib, limits))
      case Failure(e) => Failure(e)
      case Success(attributes) => Success(Detection(id, n.lineage, attributes))
  }

  // ----- the loops of the engine -------------------------------------------------------------

  method GroupValues(candidates: seq<Candidate>) returns (r: Result<seq<AgreementGroup>, PipelineError>)
    ensures r == AgreementGroups(candidates)
  {
    var grouped := GroupInOrder(Where(candidates, HasValue), KeyOf);
    r := Traverse(grouped, CHECKED_GROUP);
  }

  method Assess(lib: Library, limits: Limits, name: string, candidates: seq<Candidate>)
    returns (r: Result<Consensus, PipelineError>)
    requires candidates != []
    ensures r == AssessAttribute(lib, limits, name, candidates)
  {
    if |candidates| > limits.candidates {
      return Failure(LimitExceeded);
    }
    hide Judge, AgreementGroups, ValidConsensus, SourceCount, Mapped, Where;
    var first := candidates[0];
    var excluded, direct, missing := Where(candidates, Excluded), Where(candidates, Direct), Where(candidates, LacksUnit);
    var warnings: seq<ConflictType> := [];
    var comparable: seq<Candidate>;
    var judged: Result<Judgement, PipelineError>;
    if excluded != [] {
      warnings := warnings + [MixedValidity];
    }
    if missing != [] && direct != [] {
      comparable, judged := direct + missing, Success(UNCLEAR_UNITS);
      warnings := warnings + [UnitIndeterminate];
    } else {
      comparable := if direct != [] then direct else missing;
      judged := Judge(lib, limits.comparator, first.dataType, comparable);
    }
    if judged.Failure? {
      return Failure(judged.error);
    }
    var groups := GroupValues(comparable);
    if groups.Failure? {
      return Failure(groups.error);
    }
    if |groups.value| > limits.groups {
      return Failure(LimitExceeded);
    }
    var consensus := Consensus(
      name, first.displayName, first.dataType, judged.value.status, |candidates|, |comparable|, |excluded|,
      SourceCount(candidates), |groups.value|, judged.value.conflict, Mapped(candidates, IdOf), groups.value,
      judged.value.confidence, warnings);
    assert warnings == Warnings(candidates);
    assert consensus == ConsensusOf(name, candidates, judged.value, groups.value);
    return if ValidConsensus(consensus) then Success(consensus) else Failure(InvalidEntity);
  }

  method DetectConflicts(lib: Library, limits: Limits, id: nat, n: Normalization) returns (r: Result<Detection, PipelineError>)
    ensures r == Detect(lib, limits, id, n)
  {
    var grouped := GroupInOrder(n.candidates, NameOf);
    if |grouped| > limits.attributes {
      return Failure(LimitExceeded);
    }
    GroupsPartition(n.candidates, NameOf);
    var attributes: seq<Consensus> := [];
    for i := 0 to |grouped|
      invariant Traverse(grouped[..i], AssessAt(lib, limits)) == Success(attributes)
    {
      var assessed := Assess(lib, limits, grouped[i].key, grouped[i].items);
      TraverseOneMore(grouped, i, AssessAt(lib, limits));
      if assessed.Failure? {
        TraverseStops(grouped, i + 1, AssessAt(lib, limits));
        return Failure(assessed.error);
      }
      attributes := attributes + [assessed.value];
    }
    assert grouped[..|grouped|] == grouped;
    return Success(Detection(id, n.lineage, attributes));
  }

  lemma TraverseOneMore<T, U, E>(s: seq<T>, i: nat, f: (nat, T) -> Result<U, E>)
    requires i < |s|
    ensures var before, after := Traverse(s[..i], f), Traverse(s[..i + 1], f);
      && (before.Failure? ==> after == before)
      && (before.Success? ==> after == match f(i, s[i]) case Failure(e) => Failure(e) case Success(u) => Success(before.value + [u]))
  {
    assert s[..i + 1][..i] == s[..i];
  }

  /** The first failure is the failure of the whole. */
  lemma {:induction false} TraverseStops<T, U, E>(s: seq<T>, i: nat, f: (nat, T) -> Result<U, E>)
    requires i <= |s| && Traverse(s[..i], f).Failure?
    ensures Traverse(s, f) == Traverse(s[..i], f)
    decreases |s| - i
  {
  }
}
