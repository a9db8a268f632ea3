/** The validation engine: type, range, allowed value, pattern and unit checks of every candidate. */
module AttributeValidation {
  import opened Wrappers
  import opened Texts
  import opened Decimals
  import opened CatalogAttributes
  import opened AttributeCompleteness

  datatype ValidationLimits = ValidationLimits(
    candidates: nat, attributes: nat, characters: nat, patternCharacters: nat, issuesPerCandidate: nat, issues: nat)

  function ErrorOf(kind: IssueType, code: string, actual: Option<string>): Issue { Issue(kind, Error, code, actual) }

  /** What the constructor of an issue accepts of the value it quotes. */
  predicate ValidIssue(i: Issue) { i.actual.Some? ==> 0 < |i.actual.value| <= 10_000 }

  function Created(issues: seq<Issue>): Result<seq<Issue>, PipelineError> {
    if forall i :: 0 <= i < |issues| ==> ValidIssue(issues[i]) then Success(issues) else Failure(InvalidEntity)
  }

  // ----- numbers -------------------------------------------------------------------------

  predicate Below(a: Dec, b: Dec) { Value(a) < Value(b) }

  function RangeIssues(rules: Rules, number: Dec, text: string): seq<Issue> {
    (if rules.minimum.Some? && Below(number, rules.minimum.value)
     then [ErrorOf(NumericMinViolation, "VALUE_BELOW_MIN", Some(text))] else [])
    + (if rules.maximum.Some? && Below(rules.maximum.value, number)
       then [ErrorOf(NumericMaxViolation, "VALUE_ABOVE_MAX", Some(text))] else [])
  }

  function NumericIssues(lib: Library, value: Option<string>, d: Definition): seq<Issue> {
    if value.None? then [ErrorOf(TypeInvalid, "VALUE_REQUIRED", None)]
    else
      match lib.decimalOf(value.value)
      case None => [ErrorOf(TypeInvalid, "DECIMAL_REQUIRED", value)]
      case Some(number) =>
        if d.dataType.Integer? && !IsIntegral(number) then [ErrorOf(TypeInvalid, "INTEGER_REQUIRED", value)]
        else RangeIssues(d.rules, number, value.value)
  }

  method ValidateNumber(lib: Library, value: Option<string>, d: Definition) returns (issues: seq<Issue>)
    ensures issues == NumericIssues(lib, value, d)
    // what the issues mean: none exactly when the value is a number of the type and in range
    ensures issues == [] <==> InRange(lib, value, d)
  {
    if value.None? {
      return [ErrorOf(TypeInvalid, "VALUE_REQUIRED", None)];
    }
    var number := lib.decimalOf(value.value);
    if number.None? {
      return [ErrorOf(TypeInvalid, "DECIMAL_REQUIRED", value)];
    }
    issues := [];
    if d.dataType.Integer? && !IsIntegral(number.value) {
      issues := issues + [ErrorOf(TypeInvalid, "INTEGER_REQUIRED", value)];
      return;
    }
    if d.rules.minimum.Some? && Below(number.value, d.rules.minimum.value) {
      issues := issues + [ErrorOf(NumericMinViolation, "VALUE_BELOW_MIN", value)];
    }
    if d.rules.maximum.Some? && Below(d.rules.maximum.value, number.value) {
      issues := issues + [ErrorOf(NumericMaxViolation, "VALUE_ABOVE_MAX", value)];
    }
  }

  predicate InRange(lib: Library, value: Option<string>, d: Definition) {
    && value.Some? && lib.decimalOf(value.value).Some?
    && var number := lib.decimalOf(value.value).value;
    && (d.dataType.Integer? ==> IsIntegral(number))
    && (d.rules.minimum.Some? ==> Value(d.rules.minimum.value) <= Value(number))
    && (d.rules.maximum.Some? ==> Value(number) <= Value(d.rules.maximum.value))
  }

  // ----- one value -------------------------------------------------------------------------

  function TypeIssues(lib: Library, value: Option<string>, d: Definition): seq<Issue> {
    if Numeric(d.dataType) then NumericIssues(lib, value, d)
    else if value.None? || Strip(value.value) == "" then [ErrorOf(TypeInvalid, "NONEMPTY_VALUE_REQUIRED", value)]
    else if d.dataType.Boolean? && value.value !in {"true", "false"} then
      [ErrorOf(TypeInvalid, "CANONICAL_BOOLEAN_REQUIRED", value)]
    else []
  }

  function AllowedIssues(value: Option<string>, d: Definition): seq<Issue> {
    if value.Some? && d.rules.allowedValues != [] && value.value !in d.rules.allowedValues
    then [ErrorOf(AllowedValueViolation, "VALUE_NOT_ALLOWED", value)] else []
  }

  function PatternIssues(lib: Library, limits: ValidationLimits, value: Option<string>, d: Definition)
    : Result<seq<Issue>, PipelineError>
  {
    if value.None? || d.rules.pattern.None? then Success([])
    else if |d.rules.pattern.value| > limits.patternCharacters then Failure(RuleInvalid)
    else
      match lib.matches(d.rules.pattern.value, value.value)
      case None => Failure(RuleInvalid)
      case Some(true) => Success([])
      case Some(false) => Created([ErrorOf(PatternViolation, "PATTERN_MISMATCH", value)])
  }

  function UnitIssues(c: Candidate, d: Definition): seq<Issue> {
    if c.status.UnitMissing? then [Issue(UnitMissingIssue, Warning, "UNIT_MISSING", None)]
    else if c.status.UnsupportedUnit? then
      [ErrorOf(UnitUnsupported, "UNIT_UNSUPPORTED", if c.rawUnit.Some? && c.rawUnit.value != "" then c.rawUnit else c.unit)]
    else if d.allowedUnits != [] && c.unit.None? then [Issue(UnitMissingIssue, Warning, "UNIT_MISSING", None)]
    else if d.allowedUnits != [] && forall i :: 0 <= i < |d.allowedUnits| ==> d.allowedUnits[i].canonical != c.unit.value
      then [ErrorOf(UnitUnsupported, "UNIT_UNSUPPORTED", c.unit)]
    else []
  }

  function TypeAndRules(lib: Library, limits: ValidationLimits, value: Option<string>, d: Definition)
    : Result<seq<Issue>, PipelineError>
  {
    match Created(TypeIssues(lib, value, d) + AllowedIssues(value, d))
    case Failure(e) => Failure(e)
    case Success(issues) =>
      match PatternIssues(lib, limits, value, d)
      case Failure(e) => Failure(e)
      case Success(pattern) => Success(issues + pattern)
  }

  method CollectIssues(lib: Library, limits: ValidationLimits, value: Option<string>, d: Definition)
    returns (r: Result<seq<Issue>, PipelineError>)
    ensures r == TypeAndRules(lib, limits, value, d)
  {
    var issues: seq<Issue>;
    if Numeric(d.dataType) {
      issues := ValidateNumber(lib, value, d);
    } else if value.None? || Strip(value.value) == "" {
      issues := [ErrorOf(TypeInvalid, "NONEMPTY_VALUE_REQUIRED", value)];
    } else if d.dataType.Boolean? && value.value !in {"true", "false"} {
      issues := [ErrorOf(TypeInvalid, "CANONICAL_BOOLEAN_REQUIRED", value)];
    } else {
      issues := [];
    }
    if value.Some? && d.rules.allowedValues != [] && value.value !in d.rules.allowedValues {
      issues := issues + [ErrorOf(AllowedValueViolation, "VALUE_NOT_ALLOWED", value)];
    }
    assert issues == TypeIssues(lib, value, d) + AllowedIssues(value, d);
    var created := Created(issues);
    if created.Failure? {
      return Failure(created.error);
    }
    if value.Some? {
      var pattern := PatternIssues(lib, limits, value, d);
      if pattern.Failure? {
        return Failure(pattern.error);
      }
      issues := issues + pattern.value;
    }
    return Success(issues);
  }

  // ----- one candidate -----------------------------------------------------------------------

  predicate Has(issues: seq<Issue>, severity: Severity) {
    exists i :: 0 <= i < |issues| && issues[i].severity == severity
  }

  function StatusOf(issues: seq<Issue>): ValidationStatus {
    if Has(issues, Error) then Invalid else if Has(issues, Warning) then ValidWithWarnings else Valid
  }

  function IssuesOf(lib: Library, limits: ValidationLimits, c: Candidate, d: Definition): Result<seq<Issue>, PipelineError> {
    if c.status.InvalidValue? then Success([ErrorOf(NormalizationInvalid, "NORMALIZATION_INVALID", None)])
    else
      match TypeAndRules(lib, limits, c.value, d)
      case Failure(e) => Failure(e)
      case Success(issues) =>
        match Created(UnitIssues(c, d))
        case Failure(e) => Failure(e)
        case Success(unit) => Success(issues + unit)
  }

  predicate TooLong(text: Option<string>, maximum: nat) { text.Some? && |text.value| > maximum }

  function AssessCandidate(lib: Library, limits: ValidationLimits, c: Candidate, d: Definition): Result<Assessment, PipelineError> {
    if TooLong(c.value, limits.characters) || TooLong(c.unit, limits.characters) then Failure(LimitExceeded)
    else
      match IssuesOf(lib, limits, c, d)
      case Failure(e) => Failure(e)
      case Success(issues) =>
        if |issues| > limits.issuesPerCandidate then Failure(LimitExceeded)
        else Success(Assessment(c.id, c.name, d.dataType,
                                if c.status.InvalidValue? then NotValidatable else StatusOf(issues),
                                c.value, c.unit, issues, c.source))
  }

  // ----- all candidates ------------------------------------------------------------------------

  function IssueCount(assessments: seq<Assessment>): nat {
    if assessments == [] then 0 else IssueCount(assessments[..|assessments| - 1]) + |assessments[|assessments| - 1].issues|
  }

  /** Candidate after candidate, until the first that is refused or one issue too many. */
  function AssessAll(lib: Library, limits: ValidationLimits, candidates: seq<Candidate>, schema: Schema)
    : (r: Result<seq<Assessment>, PipelineError>)
    ensures r.Success? ==> |r.value| == |candidates|
  {
    if candidates == [] then Success([])
    else
      match AssessAll(lib, limits, candidates[..|candidates| - 1], schema)
      case Failure(e) => Failure(e)
      case Success(before) =>
        var c := candidates[|candidates| - 1];
        match Find(schema.attributes, c.name)
        case None => Failure(UnknownAttribute)
        case Some(d) =>
          match AssessCandidate(lib, limits, c, d)
          case Failure(e) => Failure(e)
          case Success(a) => if IssueCount(before + [a]) > limits.issues then Failure(LimitExceeded) else Success(before + [a])
  }

  function Validate(lib: Library, limits: ValidationLimits, n: Normalization, schema: Schema): Result<Validation, PipelineError> {
    if !SameSchema(schema, n.lineage) then Failure(SchemaMismatch)
    else if |n.candidates| > limits.candidates then Failure(LimitExceeded)
    else if |schema.attributes| > limits.attributes then Failure(LimitExceeded)
    else
      match AssessAll(lib, limits, n.candidates, schema)
      case Failure(e) => Failure(e)
      case Success(assessments) => Success(Validation(n.lineage, assessments))
  }

  lemma {:induction false} AssessAllStops(lib: Library, limits: ValidationLimits, candidates: seq<Candidate>, i: nat, schema: Schema)
    requires i <= |candidates| && AssessAll(lib, limits, candidates[..i], schema).Failure?
    ensures AssessAll(lib, limits, candidates, schema) == AssessAll(lib, limits, candidates[..i], schema)
    decreases |candidates| - i
  {
    if i == |candidates| {
      assert candidates[..i] == candidates;
    } else {
      assert candidates[..i + 1][..i] == candidates[..i];
      AssessAllStops(lib, limits, candidates, i + 1, schema);
    }
  }

  lemma NothingAssessed(lib: Library, limits: ValidationLimits, schema: Schema)
    ensures AssessAll(lib, limits, [], schema) == Success([])
  {
  }

  /** One candidate more: its refusal, or one issue too many, decides the whole. */
  lemma AssessOneMore(lib: Library, limits: ValidationLimits, candidates: seq<Candidate>, i: nat, schema: Schema)
    requires i < |candidates| && AssessAll(lib, limits, candidates[..i], schema).Success?
    ensures var before, d := AssessAll(lib, limits, candidates[..i], schema).value, Find(schema.attributes, candidates[i].name);
      if d.None? then AssessAll(lib, limits, candidates, schema) == Failure(UnknownAttribute)
      else
        match AssessCandidate(lib, limits, candidates[i], d.value)
        case Failure(e) => AssessAll(lib, limits, candidates, schema) == Failure(e)
        case Success(a) =>
          if IssueCount(before + [a]) > limits.issues then AssessAll(lib, limits, candidates, schema) == Failure(LimitExceeded)
          else AssessAll(lib, limits, candidates[..i + 1], schema) == Success(before + [a])
  {
    hide Find, AssessCandidate, IssueCount;
    assert candidates[..i + 1][..i] == candidates[..i];
    if AssessAll(lib, limits, candidates[..i + 1], schema).Failure? {
      AssessAllStops(lib, limits, candidates, i + 1, schema);
    }
  }

  method ValidateCandidates(lib: Library, limits: ValidationLimits, n: Normalization, schema: Schema)
    returns (r: Result<Validation, PipelineError>)
    ensures r == Validate(lib, limits, n, schema)
  {
    if !SameSchema(schema, n.lineage) {
      return Failure(SchemaMismatch);
    }
    if |n.candidates| > limits.candidates || |schema.attributes| > limits.attributes {
      return Failure(LimitExceeded);
    }
    hide Find, AssessCandidate, AssessAll, IssueCount;
    NothingAssessed(lib, limits, schema);
    var assessments: seq<Assessment> := [];
    for i := 0 to |n.candidates|
      invariant AssessAll(lib, limits, n.candidates[..i], schema) == Success(assessments)
    {
      AssessOneMore(lib, limits, n.candidates, i, schema);
      var definition := Find(schema.attributes, n.candidates[i].name);
      if definition.None? {
        return Failure(UnknownAttribute);
      }
      var assessed := AssessCandidate(lib, limits, n.candidates[i], definition.value);
      if assessed.Failure? {
        return Failure(assessed.error);
      }
      assessments := assessments + [assessed.value];
      if IssueCount(assessments) > limits.issues {
        return Failure(LimitExceeded);
      }
    }
    assert n.candidates[..|n.candidates|] == n.candidates;
    return Success(Validation(n.lineage, assessments));
  }
}
