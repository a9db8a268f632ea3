/**
 What a normalized candidate says of what was extracted: which number, in which
 unit and by which rule, which truth value, which of the allowed values.
 */
module NormalizationMeaning {
  import opened Wrappers
  import opened Texts
  import opened Numerals
  import opened Decimals
  import opened CatalogAttributes
  import opened AttributeNormalization

  // ----- numbers and their texts ----------------------------------------------------------------

  ghost predicate Whole(x: real) { x == x.Floor as real }

  /** The text is the canonical one of a number that is worth `x`. */
  ghost predicate Says(text: Option<string>, x: real) {
    && text.Some? && ParsePlain(text.value).Some? && Value(ParsePlain(text.value).value) == x
    && Canonical(ParsePlain(text.value).value) == text.value
  }

  lemma CanonicalSays(d: Dec)
    ensures Says(Some(Canonical(d)), Value(d))
  {
    hide Canonical, Value, ParsePlain;
    CanonicalRoundTrip(d);
    CanonicalIsFaithful(ParsePlain(Canonical(d)).value, d);
  }

  function Pointed(whole: string, fraction: string): string { whole + (if fraction == "" then "" else "." + fraction) }

  /** A sign or none, digits, and a point with more digits or neither. */
  ghost predicate Numeral(s: string, sign: string, whole: string, fraction: string) {
    && (sign == "" || sign == "+" || sign == "-") && whole != "" && AllDigits(whole) && AllDigits(fraction)
    && s == sign + Pointed(whole, fraction)
  }

  lemma PlainOfSigned(sign: string, unsigned: string)
    requires sign == "" || sign == "+" || sign == "-"
    requires unsigned != "" && IsDigit(unsigned[0])
    ensures ParsePlain(sign + unsigned) == if sign == "-" then Negated(ParseUnsigned(unsigned)) else ParseUnsigned(unsigned)
  {
    hide ParseUnsigned, Negated;
    if sign == "" {
      assert sign + unsigned == unsigned;
    } else {
      assert (sign + unsigned)[0] == sign[0] && (sign + unsigned)[1..] == unsigned;
    }
  }

  /** A numeral is read, and as the number it says. */
  lemma NumeralsAreRead(s: string, sign: string, whole: string, fraction: string)
    requires Numeral(s, sign, whole, fraction)
    ensures ParsePlain(s).Some? && AllDigits(whole + fraction)
    ensures var n: int := NumberOf(whole + fraction);
      Value(ParsePlain(s).value) == Frac(if sign == "-" then -n else n, Pow10(|fraction|))
  {
    hide NumberOf, ParseUnsigned, ParsePlain, IsDigit, Pow10, Frac;
    ParseDigits(whole, fraction);
    PlainOfSigned(sign, Pointed(whole, fraction));
    hide Pointed;
  }

  lemma UnsignedNumeral(s: string) returns (whole: string, fraction: string)
    requires ParseUnsigned(s).Some?
    ensures whole != "" && AllDigits(whole) && AllDigits(fraction) && s == Pointed(whole, fraction)
  {
    hide AllDigits, NumberOf;
    var dot := DotAt(s);
    whole := s[..dot];
    fraction := if dot < |s| then s[dot + 1..] else "";
    if dot < |s| { assert s == s[..dot] + [s[dot]] + s[dot + 1..]; }
  }

  /** Nothing else is read. */
  lemma OnlyNumeralsAreRead(s: string)
    requires ParsePlain(s).Some?
    ensures exists sign, whole, fraction :: Numeral(s, sign, whole, fraction)
  {
    hide ParseUnsigned, AllDigits, Pointed;
    if s != "" && (s[0] == '-' || s[0] == '+') {
      var whole, fraction := UnsignedNumeral(s[1..]);
      assert s == [s[0]] + s[1..];
      assert Numeral(s, [s[0]], whole, fraction);
    } else {
      var whole, fraction := UnsignedNumeral(s);
      assert s == "" + s;
      assert Numeral(s, "", whole, fraction);
    }
  }

  // ----- units --------------------------------------------------------------------------------------

  /** The rule is of the attribute's dimension, and the unit is one of its aliases. */
  ghost predicate RuleMatches(lib: Library, rule: UnitRule, name: string, unit: string) {
    && name in lib.dimensions && rule.dimension == lib.dimensions[name]
    && exists i :: 0 <= i < |rule.aliases| && lib.unitAlias(rule.aliases[i]) == lib.unitAlias(unit)
  }

  /** Rule `k` is the first that matches, and the schema allows its source unit. */
  ghost predicate RuleApplies(lib: Library, k: nat, attribute: Definition, unit: string) {
    && k < |lib.unitRules| && RuleMatches(lib, lib.unitRules[k], attribute.name, unit)
    && (forall j :: 0 <= j < k ==> !RuleMatches(lib, lib.unitRules[j], attribute.name, unit))
    && exists i :: 0 <= i < |attribute.allowedUnits|
                   && lib.unitAlias(attribute.allowedUnits[i].symbol) == lib.unitAlias(lib.unitRules[k].sourceUnit)
  }

  /** The rule found in a part of the registry is the first that matches there. */
  lemma {:induction false} FirstRule(lib: Library, name: string, unit: string, rules: seq<UnitRule>)
    requires name in lib.dimensions
    ensures match RuleFor(lib, lib.dimensions[name], lib.unitAlias(unit), rules)
      case None => forall j :: 0 <= j < |rules| ==> !RuleMatches(lib, rules[j], name, unit)
      case Some(rule) =>
        exists k: nat :: k < |rules| && rules[k] == rule && RuleMatches(lib, rule, name, unit)
                    && forall j :: 0 <= j < k ==> !RuleMatches(lib, rules[j], name, unit)
  {
    if rules != [] && !RuleMatches(lib, rules[0], name, unit) {
      FirstRule(lib, name, unit, rules[1..]);
      match RuleFor(lib, lib.dimensions[name], lib.unitAlias(unit), rules[1..])
      case None =>
        forall j | 0 <= j < |rules| ensures !RuleMatches(lib, rules[j], name, unit) {
          if j > 0 { assert rules[j] == rules[1..][j - 1]; }
        }
      case Some(rule) =>
        var k: nat :| k < |rules[1..]| && rules[1..][k] == rule && RuleMatches(lib, rule, name, unit)
                 && forall j :: 0 <= j < k ==> !RuleMatches(lib, rules[1..][j], name, unit);
        forall j | 0 <= j < k + 1 ensures !RuleMatches(lib, rules[j], name, unit) {
          if j > 0 { assert rules[j] == rules[1..][j - 1]; }
        }
        assert rules[k + 1] == rule;
    }
  }

  ghost function Product(x: real, factor: Dec): real { x * Value(factor) }

  lemma TimesIsProduct(a: Dec, b: Dec)
    ensures Value(Times(a, b)) == Product(Value(a), b)
  {
    Pow10Adds(a.scale, b.scale);
    ProductOfFractions(a.coef, Pow10(a.scale), b.coef, Pow10(b.scale));
  }

  lemma ProductOfFractions(a: int, p: int, b: int, q: int)
    requires p > 0 && q > 0
    ensures p * q > 0 && Frac(a * b, p * q) == Frac(a, p) * Frac(b, q)
  {
  }

  /** The unit outcome is there exactly if a rule applies, and then it is the value converted by it. */
  lemma UnitOutcomeMeans(lib: Library, attribute: Definition, value: Dec, unit: string)
    ensures NormalizeUnit(lib, attribute, value, unit).Some? <==> exists k: nat :: RuleApplies(lib, k, attribute, unit)
    ensures forall k: nat :: RuleApplies(lib, k, attribute, unit) ==>
      var outcome, rule := NormalizeUnit(lib, attribute, value, unit), lib.unitRules[k];
      && outcome.Some? && Value(outcome.value.value) == Product(Value(value), rule.factor)
      && outcome.value.unit == rule.canonicalUnit && outcome.value.conversion == rule.conversion
  {
    hide Value, Times, Product;
    if attribute.name in lib.dimensions {
      FirstRule(lib, attribute.name, unit, lib.unitRules);
      var found := RuleFor(lib, lib.dimensions[attribute.name], lib.unitAlias(unit), lib.unitRules);
      if found.Some? {
        TimesIsProduct(value, found.value.factor);
        var k: nat :| k < |lib.unitRules| && lib.unitRules[k] == found.value
                 && RuleMatches(lib, found.value, attribute.name, unit)
                 && forall j :: 0 <= j < k ==> !RuleMatches(lib, lib.unitRules[j], attribute.name, unit);
        hide RuleFor, RuleMatches;
        if NormalizeUnit(lib, attribute, value, unit).Some? { assert RuleApplies(lib, k, attribute, unit); }
        forall m: nat | RuleApplies(lib, m, attribute, unit) ensures m == k {}
      }
    }
  }

  // ----- what a candidate says -------------------------------------------------------------------------

  /** What was extracted stays with the candidate as it was. */
  ghost predicate TakenFrom(c: Candidate, source: Source) {
    && c.name == source.name && c.displayName == source.displayName && c.dataType == source.dataType
    && c.rawValue == source.rawValue && c.rawUnit == source.rawUnit
    && c.source == source.source && c.extractionConfidence == source.confidence
  }

  ghost predicate Without(c: Candidate, status: NormalizationStatus) {
    c.value.None? && c.unit.None? && c.conversion.None? && c.status == status && c.confidence == 0
  }

  /** A number without a unit. */
  ghost predicate Plain(c: Candidate, x: real, status: NormalizationStatus, confidence: int) {
    Says(c.value, x) && c.unit.None? && c.conversion.None? && c.status == status && c.confidence == confidence
  }

  /** A number converted by a rule: the product with its factor, rounded to the places, in its canonical unit. */
  ghost predicate Converted(c: Candidate, x: real, rule: UnitRule, places: nat) {
    var product := Product(x, rule.factor);
    && Says(c.value, RoundReal(product, places)) && c.unit == Some(rule.canonicalUnit) && c.conversion == rule.conversion
    && c.status == (if rule.conversion.Some? then NormalizedWithConversion else Normalized) && c.confidence == 10_000
    && -0.5 <= (RoundReal(product, places) - product) * Pow10(places) as real <= 0.5
  }

  ghost predicate NumberMeans(lib: Library, places: nat, c: Candidate, attribute: Definition) {
    var whole := attribute.dataType.Integer?;
    if c.rawValue.None? || ParsePlain(Strip(c.rawValue.value)).None? then Without(c, InvalidValue)
    else
      var x := Value(ParsePlain(Strip(c.rawValue.value)).value);
      if whole && !Whole(x) then Without(c, InvalidValue)
      else if attribute.allowedUnits == [] then Plain(c, x, Normalized, 10_000)
      else if c.rawUnit.None? then Plain(c, x, UnitMissing, 5_000)
      else
        && ((exists k: nat :: RuleApplies(lib, k, attribute, c.rawUnit.value)) || Without(c, UnsupportedUnit))
        && forall k: nat :: RuleApplies(lib, k, attribute, c.rawUnit.value) ==>
             if whole && !Whole(RoundReal(Product(x, lib.unitRules[k].factor), places)) then Without(c, InvalidValue)
             else Converted(c, x, lib.unitRules[k], places)
  }

  ghost predicate Textual(c: Candidate, value: string, status: NormalizationStatus, confidence: int) {
    c.value == Some(value) && c.unit.None? && c.conversion.None? && c.status == status && c.confidence == confidence
  }

  /** The words that say yes, and those that say no, in any case and with any blanks around them. */
  ghost predicate BooleanMeans(lib: Library, c: Candidate) {
    if c.rawValue.None? then Without(c, InvalidValue)
    else
      var token := Collapsed(lib.casefold(c.rawValue.value));
      if token == "true" || token == "yes" || token == "y" || token == "1" then Textual(c, "true", Normalized, 10_000)
      else if token == "false" || token == "no" || token == "n" || token == "0" then Textual(c, "false", Normalized, 10_000)
      else Without(c, InvalidValue)
  }

  ghost predicate SameFolded(lib: Library, a: string, b: string) { lib.casefold(TextForm(a)) == lib.casefold(TextForm(b)) }

  /** Value `k` is the last allowed one that is the raw text but for case and blanks. */
  ghost predicate AllowedAt(lib: Library, allowed: seq<string>, k: nat, raw: string) {
    && k < |allowed| && SameFolded(lib, allowed[k], raw)
    && forall j :: k < j < |allowed| ==> !SameFolded(lib, allowed[j], raw)
  }

  ghost predicate EnumerationMeans(lib: Library, c: Candidate, attribute: Definition) {
    if c.rawValue.None? then Without(c, InvalidValue)
    else
      var allowed := attribute.rules.allowedValues;
      && ((exists k: nat :: AllowedAt(lib, allowed, k, c.rawValue.value))
          || Textual(c, TextForm(c.rawValue.value), RawTextPreserved, 7_000))
      && forall k: nat :: AllowedAt(lib, allowed, k, c.rawValue.value) ==> Textual(c, allowed[k], Normalized, 10_000)
  }

  ghost predicate TextMeans(lib: Library, c: Candidate, attribute: Definition) {
    if c.rawValue.None? then Without(c, InvalidValue)
    else Textual(c, lib.rewritten(attribute.name, TextForm(c.rawValue.value)), Normalized, 10_000)
  }

  ghost predicate Means(lib: Library, places: nat, c: Candidate, attribute: Definition) {
    match attribute.dataType
    case Number => NumberMeans(lib, places, c, attribute)
    case Integer => NumberMeans(lib, places, c, attribute)
    case Boolean => BooleanMeans(lib, c)
    case Enumeration => EnumerationMeans(lib, c, attribute)
    case Text => TextMeans(lib, c, attribute)
  }

  lemma RoundedSays(d: Dec, places: nat)
    ensures Says(Some(Canonical(RoundConversion(d, places))), RoundReal(Value(d), places))
    ensures IsIntegral(RoundConversion(d, places)) <==> Whole(RoundReal(Value(d), places))
    ensures -0.5 <= (RoundReal(Value(d), places) - Value(d)) * Pow10(places) as real <= 0.5
  {
    hide Canonical, RoundConversion, IsIntegral, Value, RoundReal, Says, Pow10;
    RoundIsRoundReal(d, places);
    RoundingError(d, places);
    IntegralIsWhole(RoundConversion(d, places));
    CanonicalSays(RoundConversion(d, places));
  }

  lemma InRegistry(lib: Library, k: nat, attribute: Definition, unit: string)
    requires RuleApplies(lib, k, attribute, unit)
    ensures k < |lib.unitRules|
  {
  }

  lemma ConvertedMeans(lib: Library, places: nat, index: nat, source: Source, attribute: Definition, k: nat)
    requires Numeric(attribute.dataType) && source.rawValue.Some? && source.rawUnit.Some?
    requires Parse(source.rawValue.value).Some? && attribute.allowedUnits != [] && RuleApplies(lib, k, attribute, source.rawUnit.value)
    requires attribute.dataType.Integer? ==> IsIntegral(Parse(source.rawValue.value).value)
    ensures var c, x, rule := NormalizeCandidate(lib, places, index, source, attribute), Value(Parse(source.rawValue.value).value), lib.unitRules[k];
      if attribute.dataType.Integer? && !Whole(RoundReal(Product(x, rule.factor), places)) then Without(c, InvalidValue)
      else Converted(c, x, rule, places)
  {
    hide Parse, RuleApplies, NormalizeUnit, Canonical, RoundConversion, IsIntegral, Value, RoundReal, Says, CandidateId, Pow10, Whole, Product;
    var parsed := Parse(source.rawValue.value).value;
    InRegistry(lib, k, attribute, source.rawUnit.value);
    UnitOutcomeMeans(lib, attribute, parsed, source.rawUnit.value);
    var outcome := NormalizeUnit(lib, attribute, parsed, source.rawUnit.value);
    assert outcome.Some? && Value(outcome.value.value) == Product(Value(parsed), lib.unitRules[k].factor);
    RoundedSays(outcome.value.value, places);
  }

  lemma ParseIs(raw: string)
    ensures Parse(raw) == ParsePlain(Strip(raw))
  {
  }

  lemma NumberIsMeant(lib: Library, places: nat, index: nat, source: Source, attribute: Definition)
    requires Numeric(attribute.dataType)
    ensures NumberMeans(lib, places, NormalizeCandidate(lib, places, index, source, attribute), attribute)
  {
    hide Parse, ParsePlain, Strip, RuleApplies, NormalizeUnit, Canonical, RoundConversion, IsIntegral, Value, RoundReal, Says,
      CandidateId, Converted, Product;
    if source.rawValue.Some? {
      ParseIs(source.rawValue.value);
    }
    if source.rawValue.Some? && Parse(source.rawValue.value).Some? {
      var parsed := Parse(source.rawValue.value).value;
      IntegralIsWhole(parsed);
      CanonicalSays(parsed);
      if source.rawUnit.Some? && attribute.allowedUnits != [] && (attribute.dataType.Integer? ==> IsIntegral(parsed)) {
        UnitOutcomeMeans(lib, attribute, parsed, source.rawUnit.value);
        forall k: nat | RuleApplies(lib, k, attribute, source.rawUnit.value)
          ensures k < |lib.unitRules|
          ensures var c, x, rule := NormalizeCandidate(lib, places, index, source, attribute), Value(parsed), lib.unitRules[k];
            if attribute.dataType.Integer? && !Whole(RoundReal(Product(x, rule.factor), places)) then Without(c, InvalidValue)
            else Converted(c, x, rule, places)
        {
          InRegistry(lib, k, attribute, source.rawUnit.value);
          ConvertedMeans(lib, places, index, source, attribute, k);
        }
      }
    }
  }

  lemma {:induction false} LastAllowed(lib: Library, allowed: seq<string>, raw: string)
    ensures match AllowedFor(lib, allowed, lib.casefold(TextForm(raw)))
      case None => forall k: nat :: !AllowedAt(lib, allowed, k, raw)
      case Some(value) => exists k: nat :: AllowedAt(lib, allowed, k, raw) && allowed[k] == value
  {
    hide TextForm;
    if allowed != [] {
      var n := |allowed| - 1;
      if SameFolded(lib, allowed[n], raw) {
        assert AllowedAt(lib, allowed, n, raw);
      } else {
        LastAllowed(lib, allowed[..n], raw);
        assert AllowedFor(lib, allowed, lib.casefold(TextForm(raw))) == AllowedFor(lib, allowed[..n], lib.casefold(TextForm(raw)));
        forall k: nat ensures AllowedAt(lib, allowed, k, raw) <==> AllowedAt(lib, allowed[..n], k, raw) {}
      }
    }
  }

  lemma OneAllowed(lib: Library, allowed: seq<string>, raw: string, j: nat, k: nat)
    requires AllowedAt(lib, allowed, j, raw) && AllowedAt(lib, allowed, k, raw)
    ensures j == k
  {
  }

  lemma EnumerationIsMeant(lib: Library, places: nat, index: nat, source: Source, attribute: Definition)
    requires attribute.dataType.Enumeration?
    ensures EnumerationMeans(lib, NormalizeCandidate(lib, places, index, source, attribute), attribute)
  {
    hide TextForm, AllowedFor, CandidateId, AllowedAt;
    if source.rawValue.Some? {
      var raw, allowed := source.rawValue.value, attribute.rules.allowedValues;
      LastAllowed(lib, allowed, raw);
      forall j: nat, k: nat | AllowedAt(lib, allowed, j, raw) && AllowedAt(lib, allowed, k, raw) ensures j == k { OneAllowed(lib, allowed, raw, j, k); }
    }
  }

  /** Whatever the source and the definition: the candidate keeps what was extracted and says of it
      what its data type calls for. */
  lemma CandidateMeans(lib: Library, places: nat, index: nat, source: Source, attribute: Definition)
    ensures var c := NormalizeCandidate(lib, places, index, source, attribute);
      TakenFrom(c, source) && Means(lib, places, c, attribute)
  {
    hide NumberMeans, EnumerationMeans, NormalizeNumber, AllowedFor, TextForm, Collapsed, CandidateId;
    match attribute.dataType
    case Number => NumberIsMeant(lib, places, index, source, attribute);
    case Integer => NumberIsMeant(lib, places, index, source, attribute);
    case Enumeration => EnumerationIsMeant(lib, places, index, source, attribute);
    case _ =>
  }

  /** A normalization has one candidate for each extracted one, in the same order, numbered from
      one, and each says what its source and its definition call for. */
  lemma NormalizationMeans(lib: Library, limits: Limits, id: nat, extraction: Extraction, schema: Schema, i: nat)
    requires Normalize(lib, limits, id, extraction, schema).Success?
    ensures var n := Normalize(lib, limits, id, extraction, schema).value;
      && n.lineage == Lineage(extraction.product, id, extraction.extraction, extraction.classification, extraction.category,
                              extraction.version, extraction.fingerprint)
      && |n.candidates| == |extraction.candidates|
      && (i < |n.candidates| ==>
            var c, source := n.candidates[i], extraction.candidates[i];
            && c.id == "normalized-candidate-" + PaddedTo(i + 1, 6) && TakenFrom(c, source)
            && exists d :: d in schema.attributes && d.name == source.name && Means(lib, limits.places, c, d))
  {
    hide Means, TakenFrom, Find, Decide;
    var n := Normalize(lib, limits, id, extraction, schema).value;
    if i < |n.candidates| {
      var source := extraction.candidates[i];
      assert NormalizeAt(lib, limits.places, schema)(i, source) == Success(n.candidates[i]);
      CandidateMeans(lib, limits.places, i, source, Find(schema.attributes, source.name).value);
    }
  }

  /** The attribute of the source is one of the schema. */
  ghost predicate KnownAttribute(schema: Schema, source: Source) { exists d :: d in schema.attributes && d.name == source.name }

  ghost predicate TooLong(text: Option<string>, room: nat) { text.Some? && |text.value| > room }

  /** Normalization is refused exactly if there are too many candidates, one of an attribute that the
      schema does not have, or one whose value comes out too long. */
  lemma NormalizedIff(lib: Library, limits: Limits, id: nat, extraction: Extraction, schema: Schema)
    ensures var r, sources := Normalize(lib, limits, id, extraction, schema), extraction.candidates;
      && (r.Success? <==>
            && |sources| <= limits.candidates && (forall i :: 0 <= i < |sources| ==> KnownAttribute(schema, sources[i]))
            && forall i: nat, d :: i < |sources| && Find(schema.attributes, sources[i].name) == Some(d) ==>
                 !TooLong(NormalizeCandidate(lib, limits.places, i, sources[i], d).value, limits.characters))
      && (r == Failure(UnknownAttribute) <==>
            |sources| <= limits.candidates && exists i :: 0 <= i < |sources| && !KnownAttribute(schema, sources[i]))
      && (r.Failure? ==> r.error == UnknownAttribute || r.error == LimitExceeded)
  {
    hide NormalizeCandidate, Find;
    var sources, f := extraction.candidates, NormalizeAt(lib, limits.places, schema);
    var r := Traverse(sources, f);
    forall i: nat | i < |sources|
      ensures f(i, sources[i]) == match Find(schema.attributes, sources[i].name)
        case None => Failure(UnknownAttribute)
        case Some(d) => Success(NormalizeCandidate(lib, limits.places, i, sources[i], d))
      ensures KnownAttribute(schema, sources[i]) <==> Find(schema.attributes, sources[i].name).Some?
    {
      assert Find(schema.attributes, sources[i].name).Some? ==> KnownAttribute(schema, sources[i]);
    }
    hide KnownAttribute, NormalizeAt;
    if r.Success? {
      assert forall i: nat :: i < |sources| ==> f(i, sources[i]) == Success(r.value[i]);
    }
  }
}
