/**
 What validation says of a candidate: one issue for each rule that it breaks, in
 the order of the rules, and the status that sums them up.
 */
module ValidationMeaning {
  import opened Wrappers
  import opened Texts
  import opened Decimals
  import opened CatalogAttributes
  import opened AttributeValidation
  import P = PipelineTheorems

  ghost predicate OfSchema(schema: Schema, lineage: Lineage) {
    lineage.category == schema.category && lineage.version == schema.version && lineage.fingerprint == schema.fingerprint
  }

  // ----- the rules -----------------------------------------------------------------------------

  /** The number that a value is, in the grammar of the decimal library. */
  ghost predicate IsNumber(lib: Library, value: Option<string>, x: real) {
    value.Some? && lib.decimalOf(value.value).Some? && Value(lib.decimalOf(value.value).value) == x
  }

  ghost predicate TypeFits(lib: Library, value: Option<string>, t: DataType) {
    match t
    case Number => exists x :: IsNumber(lib, value, x)
    case Integer => exists x :: IsNumber(lib, value, x) && x == x.Floor as real
    case Boolean => value == Some("true") || value == Some("false")
    case _ => value.Some? && Visible(value.value)
  }

  ghost predicate TooLow(lib: Library, value: Option<string>, d: Definition) {
    Numeric(d.dataType) && d.rules.minimum.Some? && exists x :: IsNumber(lib, value, x) && x < Value(d.rules.minimum.value)
  }

  ghost predicate TooHigh(lib: Library, value: Option<string>, d: Definition) {
    Numeric(d.dataType) && d.rules.maximum.Some? && exists x :: IsNumber(lib, value, x) && x > Value(d.rules.maximum.value)
  }

  ghost predicate NotAllowed(value: Option<string>, rules: Rules) {
    value.Some? && rules.allowedValues != [] && forall i :: 0 <= i < |rules.allowedValues| ==> rules.allowedValues[i] != value.value
  }

  ghost predicate Mismatches(lib: Library, value: Option<string>, rules: Rules) {
    value.Some? && rules.pattern.Some? && lib.matches(rules.pattern.value, value.value) == Some(false)
  }

  /** A unit is called for, or was when the candidate was normalized, and there is none. */
  ghost predicate LacksUnit(c: Candidate, d: Definition) {
    c.status.UnitMissing? || (!c.status.UnsupportedUnit? && d.allowedUnits != [] && c.unit.None?)
  }

  ghost predicate WrongUnit(c: Candidate, d: Definition) {
    || c.status.UnsupportedUnit?
    || (!c.status.UnitMissing? && c.unit.Some? && d.allowedUnits != []
        && !exists i :: 0 <= i < |d.allowedUnits| && d.allowedUnits[i].canonical == c.unit.value)
  }

  // ----- the issues -----------------------------------------------------------------------------

  ghost function One(broken: bool, kind: IssueType, severity: Severity, code: string, actual: Option<string>): seq<Issue> {
    if broken then [Issue(kind, severity, code, actual)] else []
  }

  /** What is wrong with a value that does not fit its type. */
  ghost function TypeCode(lib: Library, value: Option<string>, t: DataType): string {
    if t.Number? || t.Integer? then
      if value.None? then "VALUE_REQUIRED" else if exists x :: IsNumber(lib, value, x) then "INTEGER_REQUIRED" else "DECIMAL_REQUIRED"
    else if value.Some? && Visible(value.value) then "CANONICAL_BOOLEAN_REQUIRED"
    else "NONEMPTY_VALUE_REQUIRED"
  }

  /** The unit that a unit issue quotes: the extracted one if it was not supported, and if there was one. */
  ghost function QuotedUnit(c: Candidate): Option<string> {
    if c.status.UnsupportedUnit? && c.rawUnit.Some? && |c.rawUnit.value| > 0 then c.rawUnit else c.unit
  }

  ghost function BrokenType(lib: Library, value: Option<string>, d: Definition): seq<Issue> {
    var fits := TypeFits(lib, value, d.dataType);
    One(!fits, TypeInvalid, Error, TypeCode(lib, value, d.dataType), value)
    + One(fits && TooLow(lib, value, d), NumericMinViolation, Error, "VALUE_BELOW_MIN", value)
    + One(fits && TooHigh(lib, value, d), NumericMaxViolation, Error, "VALUE_ABOVE_MAX", value)
  }

  ghost function BrokenUnit(c: Candidate, d: Definition): seq<Issue> {
    One(LacksUnit(c, d), UnitMissingIssue, Warning, "UNIT_MISSING", None)
    + One(WrongUnit(c, d), UnitUnsupported, Error, "UNIT_UNSUPPORTED", QuotedUnit(c))
  }

  /** One issue for each broken rule; only a missing unit is a mere warning. */
  ghost function Broken(lib: Library, c: Candidate, d: Definition): seq<Issue> {
    if c.status.InvalidValue? then One(true, NormalizationInvalid, Error, "NORMALIZATION_INVALID", None)
    else
      BrokenType(lib, c.value, d)
      + One(NotAllowed(c.value, d.rules), AllowedValueViolation, Error, "VALUE_NOT_ALLOWED", c.value)
      + One(Mismatches(lib, c.value, d.rules), PatternViolation, Error, "PATTERN_MISMATCH", c.value)
      + BrokenUnit(c, d)
  }

  lemma NumberOfValue(lib: Library, value: Option<string>)
    requires value.Some? && lib.decimalOf(value.value).Some?
    ensures IsNumber(lib, value, Value(lib.decimalOf(value.value).value))
    ensures forall x :: IsNumber(lib, value, x) ==> x == Value(lib.decimalOf(value.value).value)
  {
  }

  lemma NumericIssuesAre(lib: Library, value: Option<string>, d: Definition)
    requires Numeric(d.dataType)
    ensures NumericIssues(lib, value, d) == BrokenType(lib, value, d)
  {
    hide Value, IsIntegral;
    if value.Some? && lib.decimalOf(value.value).Some? {
      NumberOfValue(lib, value);
      IntegralIsWhole(lib.decimalOf(value.value).value);
      hide IsNumber;
    }
  }

  lemma TypeIssuesAre(lib: Library, value: Option<string>, d: Definition)
    ensures TypeIssues(lib, value, d) == BrokenType(lib, value, d)
  {
    hide NumericIssues, Strip, Visible, IsNumber;
    if Numeric(d.dataType) {
      NumericIssuesAre(lib, value, d);
      hide BrokenType;
    } else {
      if value.Some? { VisibleIffStripped(value.value); }
      BooleansShow();
    }
  }

  lemma BooleansShow()
    ensures Visible("true") && Visible("false")
  {
    assert !IsBlank("true"[0]) && !IsBlank("false"[0]);
  }

  lemma AllowedIssuesAre(value: Option<string>, d: Definition)
    ensures AllowedIssues(value, d) == One(NotAllowed(value, d.rules), AllowedValueViolation, Error, "VALUE_NOT_ALLOWED", value)
  {
  }

  /** A text that an issue can quote. */
  ghost predicate Quotable(text: Option<string>) { text.Some? ==> 0 < |text.value| <= 10_000 }

  /** The pattern, if there is one and a value to match, is not too long and compiles. */
  ghost predicate PatternWorks(lib: Library, limits: ValidationLimits, value: Option<string>, rules: Rules) {
    value.Some? && rules.pattern.Some? ==>
      |rules.pattern.value| <= limits.patternCharacters && lib.matches(rules.pattern.value, value.value).Some?
  }

  lemma PatternIssuesAre(lib: Library, limits: ValidationLimits, value: Option<string>, d: Definition)
    ensures var r := PatternIssues(lib, limits, value, d);
      && (r.Success? <==> PatternWorks(lib, limits, value, d.rules) && (Mismatches(lib, value, d.rules) ==> Quotable(value)))
      && (r.Success? ==> r.value == One(Mismatches(lib, value, d.rules), PatternViolation, Error, "PATTERN_MISMATCH", value))
  {
    var issues := [ErrorOf(PatternViolation, "PATTERN_MISMATCH", value)];
    assert ValidIssue(issues[0]) <==> Quotable(value);
  }

  lemma UnitIssuesAre(c: Candidate, d: Definition)
    ensures !(LacksUnit(c, d) && WrongUnit(c, d)) && UnitIssues(c, d) == BrokenUnit(c, d)
  {
  }

  /** Each issue quotes what it is about, if that can be quoted. */
  ghost predicate CanQuote(lib: Library, c: Candidate, d: Definition) {
    c.status.InvalidValue?
    || (&& (BrokenType(lib, c.value, d) != [] || NotAllowed(c.value, d.rules) || Mismatches(lib, c.value, d.rules) ==> Quotable(c.value))
        && (WrongUnit(c, d) ==> Quotable(QuotedUnit(c))))
  }

  /** The issues of a candidate are those of its broken rules; they can be told if the pattern works
      and what they are about can be quoted. */
  lemma IssuesAre(lib: Library, limits: ValidationLimits, c: Candidate, d: Definition)
    ensures var r := IssuesOf(lib, limits, c, d);
      && (r.Success? <==> (c.status.InvalidValue? || PatternWorks(lib, limits, c.value, d.rules)) && CanQuote(lib, c, d))
      && (r.Success? ==> r.value == Broken(lib, c, d))
  {
    hide TypeIssues, AllowedIssues, PatternIssues, UnitIssues, NotAllowed, Mismatches, LacksUnit, WrongUnit, QuotedUnit, BrokenType,
      Created, PatternWorks;
    if !c.status.InvalidValue? {
      TypeIssuesAre(lib, c.value, d);
      AllowedIssuesAre(c.value, d);
      PatternIssuesAre(lib, limits, c.value, d);
      UnitIssuesAre(c, d);
      TypeQuotes(lib, c.value, d);
      UnitQuotes(c, d);
    }
  }

  lemma TypeQuotes(lib: Library, value: Option<string>, d: Definition)
    ensures var allowed := One(NotAllowed(value, d.rules), AllowedValueViolation, Error, "VALUE_NOT_ALLOWED", value);
      var r := Created(BrokenType(lib, value, d) + allowed);
      && (r.Success? <==> (BrokenType(lib, value, d) != [] || NotAllowed(value, d.rules) ==> Quotable(value)))
      && (r.Success? ==> r.value == BrokenType(lib, value, d) + allowed)
  {
    hide TypeFits, TooLow, TooHigh, NotAllowed, TypeCode;
    var issues := BrokenType(lib, value, d) + One(NotAllowed(value, d.rules), AllowedValueViolation, Error, "VALUE_NOT_ALLOWED", value);
    assert forall i :: 0 <= i < |issues| ==> issues[i].actual == value;
    if issues != [] && Created(issues).Success? { assert ValidIssue(issues[0]); }
  }

  lemma UnitQuotes(c: Candidate, d: Definition)
    ensures var r := Created(BrokenUnit(c, d));
      && (r.Success? <==> (WrongUnit(c, d) ==> Quotable(QuotedUnit(c)))) && (r.Success? ==> r.value == BrokenUnit(c, d))
  {
    hide LacksUnit, WrongUnit, QuotedUnit;
    var issues := BrokenUnit(c, d);
    if WrongUnit(c, d) {
      assert issues[|issues| - 1].actual == QuotedUnit(c);
      if Created(issues).Success? { assert ValidIssue(issues[|issues| - 1]); }
    }
  }

  // ----- the status ----------------------------------------------------------------------------------

  /** A rule is broken that makes the value unfit. */
  ghost predicate Unfit(lib: Library, c: Candidate, d: Definition) {
    || !TypeFits(lib, c.value, d.dataType) || TooLow(lib, c.value, d) || TooHigh(lib, c.value, d)
    || NotAllowed(c.value, d.rules) || Mismatches(lib, c.value, d.rules) || WrongUnit(c, d)
  }

  /** The assessment is of the candidate, its issues are those of the broken rules, and its status sums them up. */
  ghost predicate AssessmentMeans(lib: Library, a: Assessment, c: Candidate, d: Definition) {
    && a.candidate == c.id && a.name == c.name && a.dataType == d.dataType && a.value == c.value && a.unit == c.unit
    && a.source == c.source && a.issues == Broken(lib, c, d)
    && (a.status.NotValidatable? <==> c.status.InvalidValue?)
    && (a.status.Invalid? <==> !c.status.InvalidValue? && Unfit(lib, c, d))
    && (a.status.ValidWithWarnings? <==> !c.status.InvalidValue? && !Unfit(lib, c, d) && LacksUnit(c, d))
    && (a.status.Valid? <==> !c.status.InvalidValue? && !Unfit(lib, c, d) && !LacksUnit(c, d))
  }

  lemma HasJoined(a: seq<Issue>, b: seq<Issue>, severity: Severity)
    ensures Has(a + b, severity) <==> Has(a, severity) || Has(b, severity)
  {
    if i :| 0 <= i < |a| && a[i].severity == severity { assert (a + b)[i].severity == severity; }
    if i :| 0 <= i < |b| && b[i].severity == severity { assert (a + b)[|a| + i].severity == severity; }
  }

  lemma HasOne(broken: bool, kind: IssueType, graded: Severity, code: string, actual: Option<string>, severity: Severity)
    ensures Has(One(broken, kind, graded, code, actual), severity) <==> broken && severity == graded
  {
    if broken { assert One(broken, kind, graded, code, actual)[0].severity == graded; }
  }

  lemma TypeSeverity(lib: Library, value: Option<string>, d: Definition)
    ensures !Has(BrokenType(lib, value, d), Warning)
    ensures Has(BrokenType(lib, value, d), Error) <==> !TypeFits(lib, value, d.dataType) || TooLow(lib, value, d) || TooHigh(lib, value, d)
  {
    hide Has, TypeFits, TooLow, TooHigh, TypeCode, One;
    var fits, code := TypeFits(lib, value, d.dataType), TypeCode(lib, value, d.dataType);
    var a := One(!fits, TypeInvalid, Error, code, value);
    var b := One(fits && TooLow(lib, value, d), NumericMinViolation, Error, "VALUE_BELOW_MIN", value);
    var c := One(fits && TooHigh(lib, value, d), NumericMaxViolation, Error, "VALUE_ABOVE_MAX", value);
    forall severity ensures Has(a + b + c, severity) <==>
      severity == Error && (!fits || TooLow(lib, value, d) || TooHigh(lib, value, d))
    {
      HasOne(!fits, TypeInvalid, Error, code, value, severity);
      HasOne(fits && TooLow(lib, value, d), NumericMinViolation, Error, "VALUE_BELOW_MIN", value, severity);
      HasOne(fits && TooHigh(lib, value, d), NumericMaxViolation, Error, "VALUE_ABOVE_MAX", value, severity);
      HasJoined(a, b, severity);
      HasJoined(a + b, c, severity);
    }
  }

  lemma SeverityOf(lib: Library, c: Candidate, d: Definition, severity: Severity)
    requires !c.status.InvalidValue?
    ensures Has(Broken(lib, c, d), severity) <==> if severity.Error? then Unfit(lib, c, d) else LacksUnit(c, d)
  {
    hide Has, TypeFits, TooLow, TooHigh, NotAllowed, Mismatches, LacksUnit, WrongUnit, BrokenType, QuotedUnit, One;
    var typed := BrokenType(lib, c.value, d);
    var allowed := One(NotAllowed(c.value, d.rules), AllowedValueViolation, Error, "VALUE_NOT_ALLOWED", c.value);
    var pattern := One(Mismatches(lib, c.value, d.rules), PatternViolation, Error, "PATTERN_MISMATCH", c.value);
    var missing := One(LacksUnit(c, d), UnitMissingIssue, Warning, "UNIT_MISSING", None);
    var wrong := One(WrongUnit(c, d), UnitUnsupported, Error, "UNIT_UNSUPPORTED", QuotedUnit(c));
    TypeSeverity(lib, c.value, d);
    HasOne(NotAllowed(c.value, d.rules), AllowedValueViolation, Error, "VALUE_NOT_ALLOWED", c.value, severity);
    HasOne(Mismatches(lib, c.value, d.rules), PatternViolation, Error, "PATTERN_MISMATCH", c.value, severity);
    HasOne(LacksUnit(c, d), UnitMissingIssue, Warning, "UNIT_MISSING", None, severity);
    HasOne(WrongUnit(c, d), UnitUnsupported, Error, "UNIT_UNSUPPORTED", QuotedUnit(c), severity);
    HasJoined(typed, allowed, severity);
    HasJoined(typed + allowed, pattern, severity);
    HasJoined(missing, wrong, severity);
    HasJoined(typed + allowed + pattern, missing + wrong, severity);
  }

  /** No text of the candidate is too long, its issues can be told, and there are not too many of them. */
  ghost predicate Assessable(lib: Library, limits: ValidationLimits, c: Candidate, d: Definition) {
    && (c.value.Some? ==> |c.value.value| <= limits.characters) && (c.unit.Some? ==> |c.unit.value| <= limits.characters)
    && (c.status.InvalidValue? || PatternWorks(lib, limits, c.value, d.rules)) && CanQuote(lib, c, d)
    && |Broken(lib, c, d)| <= limits.issuesPerCandidate
  }

  lemma CandidateAssessed(lib: Library, limits: ValidationLimits, c: Candidate, d: Definition)
    ensures AssessCandidate(lib, limits, c, d).Success? <==> Assessable(lib, limits, c, d)
    ensures AssessCandidate(lib, limits, c, d).Success? ==> AssessmentMeans(lib, AssessCandidate(lib, limits, c, d).value, c, d)
  {
    hide IssuesOf, TypeFits, TooLow, TooHigh, NotAllowed, Mismatches, LacksUnit, WrongUnit, Has, Broken, CanQuote, PatternWorks, Unfit;
    IssuesAre(lib, limits, c, d);
    if !c.status.InvalidValue? {
      SeverityOf(lib, c, d, Error);
      SeverityOf(lib, c, d, Warning);
    }
  }

  /** A validation assesses each candidate of the normalization, in the same order, by a definition of
      its attribute, and every assessment means what it says. */
  lemma ValidationMeans(lib: Library, limits: ValidationLimits, n: Normalization, schema: Schema, i: nat)
    requires Validate(lib, limits, n, schema).Success?
    ensures var v := Validate(lib, limits, n, schema).value;
      v.lineage == n.lineage && |v.assessments| == |n.candidates|
      && (i < |n.candidates| ==>
            exists d :: d in schema.attributes && d.name == n.candidates[i].name
                        && AssessmentMeans(lib, v.assessments[i], n.candidates[i], d))
  {
    hide AssessAll, AssessCandidate, Find, AssessmentMeans;
    if i < |n.candidates| {
      P.AssessedEach(lib, limits, n.candidates, schema, i);
      CandidateAssessed(lib, limits, n.candidates[i], Find(schema.attributes, n.candidates[i].name).value);
    }
  }

  // ----- when validation is refused -------------------------------------------------------------------

  /** How many issues there are of some candidates, whose definitions are found. */
  ghost function IssueTotal(lib: Library, candidates: seq<Candidate>, schema: Schema): nat {
    if candidates == [] then 0
    else
      var c := candidates[|candidates| - 1];
      IssueTotal(lib, candidates[..|candidates| - 1], schema)
      + match Find(schema.attributes, c.name) case None => 0 case Some(d) => |Broken(lib, c, d)|
  }

  ghost predicate AllAssessable(lib: Library, limits: ValidationLimits, candidates: seq<Candidate>, schema: Schema) {
    forall c :: c in candidates ==>
      match Find(schema.attributes, c.name) case None => false case Some(d) => Assessable(lib, limits, c, d)
  }

  lemma {:induction false} AllAssessed(lib: Library, limits: ValidationLimits, candidates: seq<Candidate>, schema: Schema)
    ensures var r := AssessAll(lib, limits, candidates, schema);
      && (r.Success? <==> AllAssessable(lib, limits, candidates, schema) && IssueTotal(lib, candidates, schema) <= limits.issues)
      && (r.Success? ==> IssueCount(r.value) == IssueTotal(lib, candidates, schema))
  {
    if candidates != [] {
      var init, last := candidates[..|candidates| - 1], candidates[|candidates| - 1];
      assert candidates == init + [last] && last in candidates && forall c :: c in init ==> c in candidates;
      AllAssessed(lib, limits, init, schema);
      var d := Find(schema.attributes, last.name);
      if d.Some? {
        CandidateAssessed(lib, limits, last, d.value);
        hide AssessCandidate, Assessable, Broken, Find;
        var before, a := AssessAll(lib, limits, init, schema), AssessCandidate(lib, limits, last, d.value);
        if before.Success? && a.Success? { IssuesAdd(before.value, a.value); }
      }
    }
  }

  lemma IssuesAdd(before: seq<Assessment>, a: Assessment)
    ensures IssueCount(before + [a]) == IssueCount(before) + |a.issues|
  {
    assert (before + [a])[..|before|] == before;
  }

  /** Validation is refused exactly for another schema, for a candidate that cannot be assessed, or if
      there are too many candidates, attributes or issues. */
  lemma ValidatedIff(lib: Library, limits: ValidationLimits, n: Normalization, schema: Schema)
    ensures var r := Validate(lib, limits, n, schema);
      && (r == Failure(SchemaMismatch) <==> !OfSchema(schema, n.lineage))
      && (r.Success? <==>
            && OfSchema(schema, n.lineage) && |n.candidates| <= limits.candidates && |schema.attributes| <= limits.attributes
            && AllAssessable(lib, limits, n.candidates, schema) && IssueTotal(lib, n.candidates, schema) <= limits.issues)
  {
    AllAssessed(lib, limits, n.candidates, schema);
    NoMismatch(lib, limits, n.candidates, schema);
    hide AssessAll, AllAssessable, IssueTotal;
  }

  lemma {:induction false} NoMismatch(lib: Library, limits: ValidationLimits, candidates: seq<Candidate>, schema: Schema)
    ensures AssessAll(lib, limits, candidates, schema) != Failure(SchemaMismatch)
  {
    if candidates != [] {
      var last := candidates[|candidates| - 1];
      NoMismatch(lib, limits, candidates[..|candidates| - 1], schema);
      if Find(schema.attributes, last.name).Some? {
        CandidateIsNoMismatch(lib, limits, last, Find(schema.attributes, last.name).value);
        hide AssessCandidate;
      }
    }
  }

  lemma CandidateIsNoMismatch(lib: Library, limits: ValidationLimits, c: Candidate, d: Definition)
    ensures AssessCandidate(lib, limits, c, d) != Failure(SchemaMismatch)
  {
    hide TypeIssues, AllowedIssues, UnitIssues, ValidIssue;
  }
}
