/** The normalization engine: candidate by candidate, by the data type of the attribute. */
module AttributeNormalization {
  import opened Wrappers
  import opened Decimals
  import opened CatalogAttributes
  import opened Texts
  import RecordKeys

  datatype Limits = Limits(places: nat, candidates: nat, characters: nat)

  datatype UnitOutcome = UnitOutcome(value: Dec, unit: string, conversion: Option<string>)

  function Times(a: Dec, b: Dec): Dec { Dec(a.coef * b.coef, a.scale + b.scale) }

  function RuleFor(lib: Library, dimension: string, alias: string, rules: seq<UnitRule>): Option<UnitRule> {
    if rules == [] then None
    else if rules[0].dimension == dimension
            && exists i :: 0 <= i < |rules[0].aliases| && lib.unitAlias(rules[0].aliases[i]) == alias then Some(rules[0])
    else RuleFor(lib, dimension, alias, rules[1..])
  }

  function NormalizeUnit(lib: Library, attribute: Definition, value: Dec, rawUnit: string): Option<UnitOutcome> {
    if attribute.name !in lib.dimensions then None
    else
      match RuleFor(lib, lib.dimensions[attribute.name], lib.unitAlias(rawUnit), lib.unitRules)
      case None => None
      case Some(rule) =>
        if exists i :: 0 <= i < |attribute.allowedUnits|
                       && lib.unitAlias(attribute.allowedUnits[i].symbol) == lib.unitAlias(rule.sourceUnit)
        then Some(UnitOutcome(Times(value, rule.factor), rule.canonicalUnit, rule.conversion))
        else None
  }

  /** The value, unit, status, conversion and confidence that normalization decides on. */
  datatype Decision = Decision(
    value: Option<string>, unit: Option<string>, status: NormalizationStatus, conversion: Option<string>, confidence: int)

  const INVALID := Decision(None, None, InvalidValue, None, 0)

  function NormalizeNumber(lib: Library, places: nat, source: Source, attribute: Definition): Decision
    requires source.rawValue.Some?
  {
    match Parse(source.rawValue.value)
    case None => INVALID
    case Some(parsed) =>
      if attribute.dataType.Integer? && !IsIntegral(parsed) then INVALID
      else if attribute.allowedUnits != [] && source.rawUnit.None? then
        Decision(Some(Canonical(parsed)), None, UnitMissing, None, 5_000)
      else if attribute.allowedUnits != [] then
        (match NormalizeUnit(lib, attribute, parsed, source.rawUnit.value)
         case None => Decision(None, None, UnsupportedUnit, None, 0)
         case Some(unit) =>
           var converted := RoundConversion(unit.value, places);
           if attribute.dataType.Integer? && !IsIntegral(converted) then INVALID
           else Decision(Some(Canonical(converted)), Some(unit.unit),
                         if unit.conversion.Some? then NormalizedWithConversion else Normalized, unit.conversion, 10_000))
      else Decision(Some(Canonical(parsed)), None, Normalized, None, 10_000)
  }

  /** The allowed value with the same folded text; of several, the last. */
  function AllowedFor(lib: Library, allowed: seq<string>, folded: string): (r: Option<string>)
    ensures r.Some? ==> r.value in allowed
  {
    LastWith(allowed, (text: string) => lib.casefold(TextForm(text)) == folded)
  }

  function CanonicalText(lib: Library, name: string, raw: string): string { lib.rewritten(name, TextForm(raw)) }

  function Decide(lib: Library, places: nat, source: Source, attribute: Definition): Decision {
    if source.rawValue.None? then INVALID
    else
      match attribute.dataType
      case Number => NormalizeNumber(lib, places, source, attribute)
      case Integer => NormalizeNumber(lib, places, source, attribute)
      case Boolean =>
        var token := Collapsed(lib.casefold(source.rawValue.value));
        if token in {"true", "yes", "y", "1"} then Decision(Some("true"), None, Normalized, None, 10_000)
        else if token in {"false", "no", "n", "0"} then Decision(Some("false"), None, Normalized, None, 10_000)
        else INVALID
      case Enumeration =>
        var value := TextForm(source.rawValue.value);
        var allowed := AllowedFor(lib, attribute.rules.allowedValues, lib.casefold(value));
        if allowed.Some? then Decision(allowed, None, Normalized, None, 10_000)
        else Decision(Some(value), None, RawTextPreserved, None, 7_000)
      case Text => Decision(Some(CanonicalText(lib, attribute.name, source.rawValue.value)), None, Normalized, None, 10_000)
  }

  function CandidateId(index: nat): string { "normalized-candidate-" + RecordKeys.Padded(index + 1) }

  function NormalizeCandidate(lib: Library, places: nat, index: nat, source: Source, attribute: Definition): Candidate {
    var d := Decide(lib, places, source, attribute);
    Candidate(CandidateId(index), source.name, source.displayName, source.dataType, source.rawValue, source.rawUnit,
              d.value, d.unit, d.status, d.conversion, source.source, source.confidence, d.confidence)
  }

  function NormalizeAt(lib: Library, places: nat, schema: Schema): (nat, Source) -> Result<Candidate, PipelineError> {
    (index: nat, source: Source) =>
      match Find(schema.attributes, source.name)
      case None => Failure(UnknownAttribute)
      case Some(attribute) => Success(NormalizeCandidate(lib, places, index, source, attribute))
  }

  function Normalize(lib: Library, limits: Limits, id: nat, extraction: Extraction, schema: Schema)
    : Result<Normalization, PipelineError>
  {
    if |extraction.candidates| > limits.candidates then Failure(LimitExceeded)
    else
      match Traverse(extraction.candidates, NormalizeAt(lib, limits.places, schema))
      case Failure(e) => Failure(e)
      case Success(candidates) =>
        if exists i :: 0 <= i < |candidates| && candidates[i].value.Some? && |candidates[i].value.value| > limits.characters
        then Failure(LimitExceeded)
        else Success(Normalization(Lineage(extraction.product, id, extraction.extraction, extraction.classification,
                                           extraction.category, extraction.version, extraction.fingerprint), candidates))
  }

  // ===== what a normalized candidate is ======================================================

  /** What the extraction engine makes of a schema: the data types are the schema's, and no text is blank. */
  ghost predicate ExtractedBy(extraction: Extraction, schema: Schema) {
    forall i :: 0 <= i < |extraction.candidates| ==>
      var source := extraction.candidates[i];
      && source.displayName != ""
      && (Find(schema.attributes, source.name).Some? ==> source.dataType == Find(schema.attributes, source.name).value.dataType)
      && (source.rawValue.Some? ==> Strip(source.rawValue.value) != "")
  }

  /** The text is the canonical text of some number, a whole one if need be. */
  ghost predicate CanonicalNumber(text: string, whole: bool) {
    exists d :: Canonical(d) == text && (whole ==> IsIntegral(d))
  }

  /** Everything later engines rely on in a candidate of an attribute. */
  ghost predicate WellNormalized(c: Candidate, attribute: Definition) {
    && c.name == attribute.name && c.dataType == attribute.dataType && c.displayName != ""
    && (c.value.None? <==> c.status in {InvalidValue, UnsupportedUnit})
    && (c.value.Some? ==> Strip(c.value.value) != "")
    && (c.value.Some? && Numeric(c.dataType) ==> CanonicalNumber(c.value.value, c.dataType.Integer?))
    && (c.value.Some? && c.dataType.Boolean? ==> c.value.value in {"true", "false"})
    && (c.status in {UnitMissing, UnsupportedUnit, NormalizedWithConversion} ==> Numeric(c.dataType))
    && (c.unit.Some? ==> Numeric(c.dataType))
  }

  lemma NumberIsWell(lib: Library, places: nat, index: nat, source: Source, attribute: Definition)
    requires Numeric(attribute.dataType) && source.rawValue.Some? && source.displayName != ""
    requires source.name == attribute.name && source.dataType == attribute.dataType
    ensures WellNormalized(NormalizeCandidate(lib, places, index, source, attribute), attribute)
  {
    hide Parse, NormalizeUnit, Canonical, RoundConversion, IsIntegral, Strip, CanonicalText, TextForm, AllowedFor, CandidateId;
    var c := NormalizeCandidate(lib, places, index, source, attribute);
    var parsed := Parse(source.rawValue.value);
    if parsed.Some? { CanonicalEnds(parsed.value); }
    if attribute.allowedUnits != [] && source.rawUnit.Some? && parsed.Some? {
      var unit := NormalizeUnit(lib, attribute, parsed.value, source.rawUnit.value);
      if unit.Some? { CanonicalEnds(RoundConversion(unit.value.value, places)); }
    }
  }

  lemma AllowedIsVisible(lib: Library, attribute: Definition, folded: string)
    requires ValidDefinition(attribute) && AllowedFor(lib, attribute.rules.allowedValues, folded).Some?
    ensures Strip(AllowedFor(lib, attribute.rules.allowedValues, folded).value) != ""
  {
  }

  lemma CandidateIsWell(lib: Library, places: nat, index: nat, source: Source, attribute: Definition)
    requires Faithful(lib) && ValidDefinition(attribute)
    requires source.name == attribute.name && source.dataType == attribute.dataType && source.displayName != ""
    requires source.rawValue.Some? ==> Strip(source.rawValue.value) != ""
    ensures WellNormalized(NormalizeCandidate(lib, places, index, source, attribute), attribute)
  {
    hide NormalizeNumber, Faithful, ValidDefinition, Strip, ParsePlain, AllowedFor, CanonicalNumber, CandidateId, TextForm,
      CanonicalText;
    if source.rawValue.Some? && Numeric(attribute.dataType) {
      NumberIsWell(lib, places, index, source, attribute);
    } else if source.rawValue.Some? {
      var raw := source.rawValue.value;
      TextStaysVisible(lib, attribute.name, raw);
      BooleansAreVisible();
      var folded := lib.casefold(TextForm(raw));
      if AllowedFor(lib, attribute.rules.allowedValues, folded).Some? { AllowedIsVisible(lib, attribute, folded); }
    }
  }

  lemma BooleansAreVisible()
    ensures Strip("true") != "" && Strip("false") != ""
  {
  }

  lemma TextStaysVisible(lib: Library, name: string, raw: string)
    requires Faithful(lib) && Strip(raw) != ""
    ensures Strip(TextForm(raw)) != "" && Strip(CanonicalText(lib, name, raw)) != ""
  {
    hide Strip, TextForm;
    VisibleIffStripped(raw);
    TextFormKeepsVisible(raw);
    VisibleIffStripped(TextForm(raw));
    VisibleIffStripped(CanonicalText(lib, name, raw));
  }

  lemma BlankCanonicalText(lib: Library, name: string, raw: string)
    requires Faithful(lib) && Strip(raw) == ""
    ensures CanonicalText(lib, name, raw) == ""
  {
    hide Strip, TextForm;
    VisibleIffStripped(raw);
    TextFormKeepsVisible(raw);
  }

  /** The normalization of an extraction: one candidate per source, each well normalized for its attribute. */
  ghost predicate NormalizedBy(n: Normalization, schema: Schema) {
    && DistinctIds(n.candidates)
    && forall i :: 0 <= i < |n.candidates| ==>
         var c := n.candidates[i];
         c.id != "" && Find(schema.attributes, c.name).Some? && WellNormalized(c, Find(schema.attributes, c.name).value)
  }

  lemma CandidateIdsDiffer(i: nat, j: nat)
    ensures CandidateId(i) == CandidateId(j) <==> i == j
  {
    RecordKeys.PaddedIsInjective(i + 1, j + 1);
    var prefix := "normalized-candidate-";
    assert CandidateId(i)[|prefix|..] == RecordKeys.Padded(i + 1) && CandidateId(j)[|prefix|..] == RecordKeys.Padded(j + 1);
  }

  lemma NormalizationIsWell(lib: Library, limits: Limits, id: nat, extraction: Extraction, schema: Schema)
    requires Faithful(lib) && ValidSchema(schema) && ExtractedBy(extraction, schema)
    requires Normalize(lib, limits, id, extraction, schema).Success?
    ensures NormalizedBy(Normalize(lib, limits, id, extraction, schema).value, schema)
  {
    var n := Normalize(lib, limits, id, extraction, schema).value;
    hide WellNormalized, Faithful, ValidDefinition, Find, Strip, CandidateId;
    forall i | 0 <= i < |n.candidates|
      ensures n.candidates[i].id == CandidateId(i) && n.candidates[i].id != ""
      ensures Find(schema.attributes, n.candidates[i].name).Some?
      ensures WellNormalized(n.candidates[i], Find(schema.attributes, n.candidates[i].name).value)
    {
      var source := extraction.candidates[i];
      assert NormalizeAt(lib, limits.places, schema)(i, source) == Success(n.candidates[i]);
      CandidateIsWell(lib, limits.places, i, source, Find(schema.attributes, source.name).value);
      NonEmptyId(i);
    }
    forall i, j | 0 <= i < j < |n.candidates| ensures n.candidates[i].id != n.candidates[j].id { CandidateIdsDiffer(i, j); }
  }

  lemma NonEmptyId(i: nat)
    ensures CandidateId(i) != ""
  {
  }
}
