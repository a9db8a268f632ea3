/**
 The entities of the attribute pipeline: schemas, candidates, and the results
 that the engines hand to one another. Evidence excerpts, locations, engine
 names and timestamps are left out.
 */
module CatalogAttributes {
  import opened Wrappers
  import opened Decimals
  import opened Texts

  datatype DataType = Text | Number | Integer | Boolean | Enumeration

  predicate Numeric(t: DataType) { t in {Number, Integer} }

  // ----- schemas -----------------------------------------------------------------------

  datatype Unit = Unit(symbol: string, canonical: string)

  datatype Rules = Rules(minimum: Option<Dec>, maximum: Option<Dec>, allowedValues: seq<string>, pattern: Option<string>)

  datatype Definition = Definition(
    name: string, displayName: string, dataType: DataType, required: bool, allowedUnits: seq<Unit>,
    rules: Rules, displayOrder: int)

  datatype Schema = Schema(category: string, version: int, fingerprint: string, attributes: seq<Definition>)

  predicate Stripped(text: string) { text != "" && !IsBlank(text[0]) && !IsBlank(text[|text| - 1]) }

  /** What is needed of the definitions, of all that their constructor checks. */
  ghost predicate ValidDefinition(d: Definition) {
    && Stripped(d.name) && Stripped(d.displayName) && d.displayOrder >= 1
    && forall i :: 0 <= i < |d.rules.allowedValues| ==> Stripped(d.rules.allowedValues[i])
  }

  ghost predicate ValidSchema(s: Schema) { forall i :: 0 <= i < |s.attributes| ==> ValidDefinition(s.attributes[i]) }

  /** The definition of an attribute, by name. */
  function Find(attributes: seq<Definition>, name: string): (r: Option<Definition>)
    ensures r.Some? ==> r.value in attributes && r.value.name == name
    ensures r.None? ==> forall d :: d in attributes ==> d.name != name
  {
    LastWith(attributes, (d: Definition) => d.name == name)
  }

  // ----- candidates ----------------------------------------------------------------------

  /** An extracted candidate. */
  datatype Source = Source(
    id: string, name: string, displayName: string, dataType: DataType, rawValue: Option<string>,
    rawUnit: Option<string>, source: nat, confidence: int)

  datatype Extraction = Extraction(
    product: nat, extraction: nat, classification: nat, category: string, version: int, fingerprint: string,
    candidates: seq<Source>)

  datatype NormalizationStatus =
    | Normalized | NormalizedWithConversion | UnitMissing | UnsupportedUnit | InvalidValue | RawTextPreserved

  datatype Candidate = Candidate(
    id: string, name: string, displayName: string, dataType: DataType, rawValue: Option<string>,
    rawUnit: Option<string>, value: Option<string>, unit: Option<string>, status: NormalizationStatus,
    conversion: Option<string>, source: nat, extractionConfidence: int, confidence: int)

  /** What ties the results of the engines together. */
  datatype Lineage = Lineage(
    product: nat, normalization: nat, extraction: nat, classification: nat, category: string, version: int,
    fingerprint: string)

  datatype Normalization = Normalization(lineage: Lineage, candidates: seq<Candidate>)

  /** Candidates are looked up by their identifiers. */
  ghost predicate DistinctIds(candidates: seq<Candidate>) {
    forall i, j :: 0 <= i < j < |candidates| ==> candidates[i].id != candidates[j].id
  }

  // ----- consensus -----------------------------------------------------------------------

  datatype ConsensusStatus =
    | Agreement | AgreementWithTolerance | SingleCandidate | Conflict | Indeterminate | NoValidCandidates

  datatype ConflictType = MixedValidity | UnitIndeterminate | ValueConflict

  datatype AgreementGroup = AgreementGroup(
    id: string, value: string, unit: Option<string>, candidates: seq<string>, sources: seq<nat>)

  datatype Consensus = Consensus(
    name: string, displayName: string, dataType: DataType, status: ConsensusStatus, candidateCount: nat,
    comparableCount: nat, excludedCount: nat, sourceCount: nat, groupCount: nat, conflict: Option<ConflictType>,
    candidates: seq<string>, groups: seq<AgreementGroup>, confidence: int, warnings: seq<ConflictType>)

  datatype Detection = Detection(id: nat, lineage: Lineage, attributes: seq<Consensus>)

  /** What the constructors of a group and of a consensus accept. */
  predicate ValidGroup(g: AgreementGroup) {
    g.id != "" && g.value != "" && g.candidates != []
  }

  predicate ValidConsensus(c: Consensus) {
    && c.name != "" && c.displayName != ""
    && c.candidateCount == |c.candidates|
    && c.comparableCount + c.excludedCount == c.candidateCount
    && c.groupCount == |c.groups|
    && 0 <= c.confidence <= 10_000
    && (forall i, j :: 0 <= i < j < |c.warnings| ==> c.warnings[i] != c.warnings[j])
  }

  // ----- completeness ----------------------------------------------------------------------

  datatype State =
    | Present | PresentWithTolerance | PresentSingleSource | Conflicted | IndeterminateState | InvalidOnly | Missing

  datatype Completeness = Completeness(
    name: string, displayName: string, required: bool, displayOrder: int, state: State, candidateCount: nat,
    comparableCount: nat, sourceCount: nat, consensus: Option<ConsensusStatus>, candidates: seq<string>,
    available: bool, resolved: bool, verified: bool)

  datatype Evaluation = Evaluation(id: nat, detection: nat, lineage: Lineage, attributes: seq<Completeness>)

  // ----- validation --------------------------------------------------------------------------

  datatype IssueType =
    | NormalizationInvalid | TypeInvalid | NumericMinViolation | NumericMaxViolation | AllowedValueViolation
    | PatternViolation | UnitMissingIssue | UnitUnsupported

  datatype Severity = Error | Warning

  datatype Issue = Issue(kind: IssueType, severity: Severity, code: string, actual: Option<string>)

  datatype ValidationStatus = Valid | ValidWithWarnings | Invalid | NotValidatable

  datatype Assessment = Assessment(
    candidate: string, name: string, dataType: DataType, status: ValidationStatus, value: Option<string>,
    unit: Option<string>, issues: seq<Issue>, source: nat)

  datatype Validation = Validation(lineage: Lineage, assessments: seq<Assessment>)

  // ----- selection -----------------------------------------------------------------------------

  datatype SelectionStatus = AutoSelected | ReviewRequired | NoCandidate | NoValidCandidate

  datatype Reason =
    | MissingAttribute | OptionalAttributeUnresolved | NoValidCandidateReason | ValueConflictReason
    | UnitIndeterminateReason | SingleSourceOnly | ValidationWarning | InsufficientCorroboration
    | MultiSourceExactAgreement | MultiSourceToleranceAgreement

  datatype Selection = Selection(
    name: string, required: bool, displayOrder: int, status: SelectionStatus, reviewRequired: bool,
    value: Option<string>, unit: Option<string>, primary: Option<string>, supporting: seq<string>,
    review: seq<string>, candidateCount: nat, validCount: nat, sourceCount: nat,
    consensus: Option<ConsensusStatus>, confidence: int, reason: Reason)

  datatype PipelineError =
    | LimitExceeded | UnknownAttribute | SchemaMismatch | LineageMismatch | DetectionFailed | RuleInvalid | InvalidEntity

  // ----- what the pipeline takes from its libraries ----------------------------------------------

  datatype UnitRule = UnitRule(
    dimension: string, sourceUnit: string, canonicalUnit: string, aliases: seq<string>, factor: Dec,
    conversion: Option<string>)

  /** Functions of the decimal, text and pattern libraries, and the unit registry. */
  datatype Library = Library(
    decimalOf: string -> Option<Dec>,            // a finite decimal, in the whole grammar of the decimal library
    rewritten: (string, string) -> string,       // some texts of some attributes, by attribute name
    casefold: string -> string,
    matches: (string, string) -> Option<bool>,   // nothing if the pattern does not compile
    unitAlias: string -> string,
    dimensions: map<string, string>,
    unitRules: seq<UnitRule>)

  /** What is needed of the libraries: plain numbers are read as numbers, and rewriting a text
      neither blanks it out nor makes something of nothing. */
  ghost predicate Faithful(lib: Library) {
    && (forall t :: ParsePlain(t).Some? ==> lib.decimalOf(t) == ParsePlain(t))
    && (forall n, t :: Visible(t) ==> Visible(lib.rewritten(n, t)))
    && (forall n :: lib.rewritten(n, "") == "")
  }
}
