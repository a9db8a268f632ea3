/** When detection succeeds on normalized candidates, and when it finds agreement. */
module AgreementTheorems {
  import opened Wrappers
  import opened Texts
  import opened Decimals
  import opened NumericAgreement
  import opened Grouping
  import opened CatalogAttributes
  import opened AttributeNormalization
  import opened EvidenceTheorems
  import D = ConflictDetection

  /** Candidates with canonical numbers. */
  ghost predicate CanonicalNumbers(candidates: seq<Candidate>) {
    forall i :: 0 <= i < |candidates| ==> candidates[i].value.Some? && CanonicalNumber(candidates[i].value.value, false)
  }

  lemma CanonicalTextReads(lib: Library, text: string)
    requires Faithful(lib) && CanonicalNumber(text, false)
    ensures ParsePlain(text).Some? && lib.decimalOf(text) == ParsePlain(text)
    ensures Canonical(ParsePlain(text).value) == text
  {
    var d :| Canonical(d) == text;
    CanonicalRoundTrip(d);
    CanonicalIsFaithful(ParsePlain(text).value, d);
  }

  /** The numbers are read, and two are equal exactly when their texts are. */
  lemma NumbersAreTexts(lib: Library, candidates: seq<Candidate>)
    requires Faithful(lib) && CanonicalNumbers(candidates)
    ensures D.Numbers(lib, candidates).Some?
    ensures var numbers := D.Numbers(lib, candidates).value;
      && |numbers| == |candidates|
      && forall i, j :: 0 <= i < |numbers| && 0 <= j < |numbers| ==>
           (Value(numbers[i]) == Value(numbers[j]) <==> candidates[i].value == candidates[j].value)
  {
    hide ParsePlain, Canonical, Value, Faithful, CanonicalNumber;
    forall i | 0 <= i < |candidates|
      ensures D.Decimal(lib, candidates[i]).Some? && Canonical(D.Decimal(lib, candidates[i]).value) == candidates[i].value.value
    {
      CanonicalTextReads(lib, candidates[i].value.value);
    }
    var numbers := D.Numbers(lib, candidates).value;
    forall i, j | 0 <= i < |numbers| && 0 <= j < |numbers|
      ensures Value(numbers[i]) == Value(numbers[j]) <==> candidates[i].value == candidates[j].value
    {
      CanonicalIsFaithful(numbers[i], numbers[j]);
    }
  }

  ghost predicate OneUnit(candidates: seq<Candidate>) {
    forall i :: 0 <= i < |candidates| ==> candidates[i].unit == candidates[0].unit
  }

  lemma OneUnitIsOneImage(candidates: seq<Candidate>)
    requires candidates != []
    ensures OneUnit(candidates) <==> |Image(candidates, D.UnitOf)| == 1
  {
    var mapped, image := Mapped(candidates, D.UnitOf), Image(candidates, D.UnitOf);
    assert mapped[0] in image;
    if OneUnit(candidates) {
      assert image == {candidates[0].unit};
    }
    if |image| == 1 {
      forall i | 0 <= i < |candidates| ensures candidates[i].unit == candidates[0].unit {
        assert mapped[i] in image;
        OneMember(image, mapped[i], mapped[0]);
      }
    }
  }

  lemma OneMember<T>(s: set<T>, x: T, y: T)
    requires |s| == 1 && x in s && y in s
    ensures x == y
  {
    assert |s - {x}| == 0;
    assert s - {x} == {};
  }

  lemma ExactIffEqualTexts(lib: Library, comparator: Comparator, candidates: seq<Candidate>, integer: bool)
    requires Faithful(lib) && CanonicalNumbers(candidates) && candidates != []
    ensures D.Numbers(lib, candidates).Some?
    ensures Verdict(comparator, D.Numbers(lib, candidates).value, integer).Exact?
       <==> forall i :: 0 <= i < |candidates| ==> candidates[i].value == candidates[0].value
  {
    NumbersAreTexts(lib, candidates);
    hide D.Numbers, Value, CompareReals, CanonicalNumber, Faithful;
    var numbers := D.Numbers(lib, candidates).value;
    forall i, j | 0 <= i < j < |numbers|
      ensures Compare(comparator, numbers[i], numbers[j], integer).Exact? <==> candidates[i].value == candidates[j].value
    {
      ExactIsEqual(comparator, numbers[i], numbers[j], integer);
    }
    hide Compare;
    if Verdict(comparator, numbers, integer).Exact? {
      forall i | 0 <= i < |candidates| ensures candidates[i].value == candidates[0].value {
        assert i > 0 ==> Compare(comparator, numbers[0], numbers[i], integer) in {Exact};
      }
    }
  }

  lemma ExactIsEqual(c: Comparator, a: Dec, b: Dec, integer: bool)
    ensures Compare(c, a, b, integer).Exact? <==> Value(a) == Value(b)
  {
  }

  /** Two or more canonical numbers of one unit agree exactly when they form one agreement group. */
  lemma AgreementIffOneGroup(lib: Library, comparator: Comparator, dataType: DataType, candidates: seq<Candidate>)
    requires Faithful(lib) && Numeric(dataType) && |candidates| >= 2
    requires CanonicalNumbers(candidates) && OneUnit(candidates)
    ensures D.Judge(lib, comparator, dataType, candidates).Success?
    ensures D.Judge(lib, comparator, dataType, candidates).value.status.Agreement? <==> |D.ValueGroups(candidates)| == 1
  {
    hide Verdict, D.Numbers, Image, GroupBy, Where, CanonicalNumber, Faithful, Mapped;
    OneUnitIsOneImage(candidates);
    ExactIffEqualTexts(lib, comparator, candidates, dataType.Integer?);
    ValuedAreAll(candidates);
    OneGroupIff(candidates, D.KeyOf);
    assert forall i :: 0 <= i < |candidates| ==>
      (D.KeyOf(candidates[i]) == D.KeyOf(candidates[0]) <==> candidates[i].value == candidates[0].value);
  }

  lemma ValuedAreAll(candidates: seq<Candidate>)
    requires CanonicalNumbers(candidates)
    ensures Where(candidates, D.HasValue) == candidates
  {
  }

  // ----- when detection is refused -----------------------------------------------------------

  /** Agreement groups are refused exactly when a candidate to be grouped has the empty text as
      its value. */
  lemma GroupsAreRefusedIff(candidates: seq<Candidate>)
    ensures D.AgreementGroups(candidates).Failure? <==> exists c :: c in candidates && c.value == Some("")
    ensures D.AgreementGroups(candidates).Failure? ==> D.AgreementGroups(candidates).error == InvalidEntity
  {
    hide GroupBy, FirstSeen, Where, D.AgreementOf, ValidGroup;
    var values := D.ValueGroups(candidates);
    forall i | 0 <= i < |values|
      ensures D.CHECKED_GROUP(i, values[i]).Failure? <==> values[i].key.0 == ""
      ensures D.CHECKED_GROUP(i, values[i]).Failure? ==> D.CHECKED_GROUP(i, values[i]).error == InvalidEntity
    {
      GroupIsRefusedIff(candidates, i);
    }
    if D.AgreementGroups(candidates).Failure? {
      var i :| 0 <= i < |values| && D.CHECKED_GROUP(i, values[i]).Failure?;
      GroupHasItem(candidates, i);
    }
    if c :| c in candidates && c.value == Some("") {
      var i := GroupOfValue(candidates, c);
      assert D.CHECKED_GROUP(i, values[i]).Failure?;
    }
  }

  lemma GroupIsRefusedIff(candidates: seq<Candidate>, i: nat)
    requires i < |D.ValueGroups(candidates)|
    ensures var g := D.ValueGroups(candidates)[i];
      ValidGroup(D.AgreementOf(i, g)) <==> g.key.0 != ""
  {
    GroupsPartition(Where(candidates, D.HasValue), D.KeyOf);
    hide GroupBy, FirstSeen, Where;
    NamedGroup(i);
  }

  lemma GroupHasItem(candidates: seq<Candidate>, i: nat)
    requires i < |D.ValueGroups(candidates)|
    ensures exists c :: c in candidates && c.value == Some(D.ValueGroups(candidates)[i].key.0)
  {
    GroupsPartition(Where(candidates, D.HasValue), D.KeyOf);
    hide GroupBy, FirstSeen;
    var items := D.ValueGroups(candidates)[i].items;
    var c := items[0];
    WhereMembers(candidates, D.HasValue);
    assert c in items;
    assert c in candidates && c.value.Some? && D.KeyOf(c) == D.ValueGroups(candidates)[i].key;
  }

  lemma GroupOfValue(candidates: seq<Candidate>, c: Candidate) returns (i: nat)
    requires c in candidates && c.value.Some?
    ensures i < |D.ValueGroups(candidates)| && D.ValueGroups(candidates)[i].key.0 == c.value.value
  {
    var valued, values := Where(candidates, D.HasValue), D.ValueGroups(candidates);
    GroupsPartition(valued, D.KeyOf);
    hide GroupBy, FirstSeen;
    WhereMembers(candidates, D.HasValue);
    assert c in valued;
    i :| 0 <= i < |values| && c in values[i].items;
  }

  lemma NamedGroup(i: nat)
    ensures "group-" + D.RecordKeys.Padded(i + 1) != ""
  {
  }

  lemma ComparableAreCandidates(items: seq<Candidate>)
    ensures forall c :: c in D.Comparable(items) ==> c in items && !D.Excluded(c)
  {
    hide Where;
    WhereMembers(items, D.Direct);
    WhereMembers(items, D.LacksUnit);
  }

  /** All candidates of one attribute are well normalized for it. */
  ghost predicate WellOf(items: seq<Candidate>, attribute: Definition) {
    forall c :: c in items ==> WellNormalized(c, attribute)
  }

  lemma WellIsCanonical(items: seq<Candidate>, attribute: Definition)
    requires WellOf(items, attribute) && Numeric(attribute.dataType) && forall c :: c in items ==> c.value.Some?
    ensures CanonicalNumbers(items)
  {
    forall i | 0 <= i < |items| ensures CanonicalNumber(items[i].value.value, false) {
      assert items[i] in items;
      var d :| Canonical(d) == items[i].value.value;
    }
  }

  lemma JudgingSucceeds(lib: Library, limits: D.Limits, items: seq<Candidate>, attribute: Definition)
    requires Faithful(lib) && items != [] && WellOf(items, attribute)
    ensures D.JudgeAttribute(lib, limits, items).Success?
    ensures 0 <= D.JudgeAttribute(lib, limits, items).value.confidence <= 10_000
  {
    hide D.Comparable, Where, Faithful, WellNormalized, D.Mixed, D.Judge;
    var comparable := D.Comparable(items);
    FirstOf(items, attribute);
    ComparableHaveValues(items, attribute);
    if Numeric(attribute.dataType) { WellIsCanonical(comparable, attribute); }
    JudgeSucceeds(lib, limits.comparator, attribute.dataType, comparable);
  }

  lemma JudgeSucceeds(lib: Library, comparator: Comparator, dataType: DataType, candidates: seq<Candidate>)
    requires Faithful(lib) && (Numeric(dataType) ==> CanonicalNumbers(candidates))
    ensures D.Judge(lib, comparator, dataType, candidates).Success?
    ensures 0 <= D.Judge(lib, comparator, dataType, candidates).value.confidence <= 10_000
  {
    hide Faithful, D.Numbers, CanonicalNumbers, Image, Verdict;
    if Numeric(dataType) { NumbersAreTexts(lib, candidates); }
  }

  lemma FirstOf(items: seq<Candidate>, attribute: Definition)
    requires items != [] && WellOf(items, attribute)
    ensures items[0].dataType == attribute.dataType && items[0].displayName != ""
  {
    assert items[0] in items;
    assert WellNormalized(items[0], attribute);
  }

  lemma ComparableHaveValues(items: seq<Candidate>, attribute: Definition)
    requires WellOf(items, attribute)
    ensures WellOf(D.Comparable(items), attribute) && forall c :: c in D.Comparable(items) ==> c.value.Some?
  {
    ComparableAreCandidates(items);
    hide D.Comparable, CanonicalNumber, Strip;
    forall c | c in D.Comparable(items) ensures c.value.Some? && WellNormalized(c, attribute) {
      assert c in items && WellNormalized(c, attribute);
    }
  }

  /** How many values, with their units, the candidates have. */
  ghost function ValueCount(candidates: seq<Candidate>): nat {
    |set c | c in candidates && c.value.Some? :: (c.value, c.unit)|
  }

  /** The candidates of an attribute, and the values of those that are compared, are not too many. */
  ghost predicate Within(limits: D.Limits, items: seq<Candidate>) {
    |items| <= limits.candidates && ValueCount(D.Comparable(items)) <= limits.groups
  }

  lemma {:induction false} DistinctSize<T>(s: seq<T>)
    requires Distinct(s)
    ensures |s| == |set x | x in s|
  {
    if s == [] {
      assert (set x | x in s) == {};
    } else {
      var init, last := s[..|s| - 1], s[|s| - 1];
      DistinctSize(init);
      assert s == init + [last];
      assert (set x | x in s) == (set x | x in init) + {last};
    }
  }

  lemma SameSize<T, U>(a: set<T>, b: set<U>, f: T -> U)
    requires forall x, y :: x in a && y in a && f(x) == f(y) ==> x == y
    requires forall x :: x in a ==> f(x) in b
    requires forall y :: y in b ==> exists x :: x in a && f(x) == y
    ensures |a| == |b|
    decreases a
  {
    if x :| x in a {
      SameSize(a - {x}, b - {f(x)}, f);
    } else if y :| y in b {
      assert false;
    }
  }

  function Paired(k: (string, Option<string>)): (Option<string>, Option<string>) { (Some(k.0), k.1) }

  lemma GroupCount(comparable: seq<Candidate>)
    ensures |D.ValueGroups(comparable)| == ValueCount(comparable)
    ensures D.AgreementGroups(comparable).Success? ==> |D.AgreementGroups(comparable).value| == ValueCount(comparable)
  {
    if D.AgreementGroups(comparable).Success? { GroupsAreChecked(comparable); }
    var valued := Where(comparable, D.HasValue);
    var keys := FirstSeen(Mapped(valued, D.KeyOf));
    DistinctSize(keys);
    WhereMembers(comparable, D.HasValue);
    hide Where, FirstSeen, D.AgreementGroups, Mapped, Paired, Distinct;
    var keySet, pairs := set k | k in keys, set c | c in comparable && c.value.Some? :: (c.value, c.unit);
    forall k | k in keySet ensures Paired(k) in pairs { KeyIsPaired(valued, k); }
    forall p | p in pairs ensures exists k :: k in keySet && Paired(k) == p {
      var c :| c in comparable && c.value.Some? && (c.value, c.unit) == p;
      assert D.HasValue(c) && c in valued;
      PairIsKey(valued, c);
    }
    forall k, l | k in keySet && l in keySet && Paired(k) == Paired(l) ensures k == l { PairedApart(k, l); }
    SameSize(keySet, pairs, Paired);
  }

  lemma PairedApart(k: (string, Option<string>), l: (string, Option<string>))
    ensures Paired(k) == Paired(l) ==> k == l
  {
  }

  lemma KeyIsPaired(valued: seq<Candidate>, k: (string, Option<string>))
    requires k in Mapped(valued, D.KeyOf) && forall c :: c in valued ==> D.HasValue(c)
    ensures exists c :: c in valued && c.value.Some? && (c.value, c.unit) == Paired(k)
  {
    var i :| 0 <= i < |valued| && Mapped(valued, D.KeyOf)[i] == k;
    assert valued[i] in valued && D.HasValue(valued[i]);
  }

  lemma PairIsKey(valued: seq<Candidate>, c: Candidate)
    requires c in valued && c.value.Some?
    ensures D.KeyOf(c) in Mapped(valued, D.KeyOf) && Paired(D.KeyOf(c)) == (c.value, c.unit)
  {
    var i :| 0 <= i < |valued| && valued[i] == c;
    assert Mapped(valued, D.KeyOf)[i] == D.KeyOf(c);
  }

  /** On well normalized candidates an attribute is refused only for its size, and exactly then. */
  lemma AssessmentOnlyLimited(lib: Library, limits: D.Limits, name: string, items: seq<Candidate>, attribute: Definition)
    requires Faithful(lib) && items != [] && WellOf(items, attribute) && name == attribute.name && name != ""
    ensures var r := D.AssessAttribute(lib, limits, name, items);
      && (r.Failure? ==> r.error == LimitExceeded)
      && (r.Success? <==> Within(limits, items))
  {
    GroupCount(D.Comparable(items));
    hide D.Comparable, D.JudgeAttribute, ValueCount, D.ValueGroups, D.AgreementGroups, Where, WellNormalized, Faithful, D.SourceCount, D.Mixed, Mapped;
    JudgingSucceeds(lib, limits, items, attribute);
    GroupsAreRefusedIff(D.Comparable(items));
    ComparableOrExcluded(items);
    ComparableHaveValues(items, attribute);
    NoEmptyValues(D.Comparable(items), attribute);
    FirstOf(items, attribute);
    hide WellOf;
  }

  lemma NoEmptyValues(items: seq<Candidate>, attribute: Definition)
    requires WellOf(items, attribute)
    ensures forall c :: c in items ==> c.value != Some("")
  {
  }

  /** Detection never fails to read a normalized number and never builds an invalid entity: on
      the normalization of an extraction it is refused only for its size: if there are too many
      attributes, or too many candidates or values of one. */
  lemma DetectionOnlyLimited(lib: Library, limits: D.Limits, id: nat, n: Normalization, schema: Schema)
    requires Faithful(lib) && ValidSchema(schema) && NormalizedBy(n, schema)
    ensures D.Detect(lib, limits, id, n).Failure? ==> D.Detect(lib, limits, id, n).error == LimitExceeded
    ensures D.Detect(lib, limits, id, n).Success? <==>
      && |set c | c in n.candidates :: c.name| <= limits.attributes
      && forall c :: c in n.candidates ==> Within(limits, ItemsOf(n.candidates, D.NameOf, c.name))
  {
    NameCount(n.candidates);
    AllGroupsWithin(limits, n.candidates);
    var groups, names := GroupBy(n.candidates, D.NameOf), FirstSeen(Mapped(n.candidates, D.NameOf));
    GroupsPartition(n.candidates, D.NameOf);
    hide GroupBy, FirstSeen, ItemsOf, WellNormalized, Faithful, D.AssessAttribute, Find, Within;
    forall i | 0 <= i < |groups|
      ensures D.AssessAt(lib, limits)(i, groups[i]).Failure? ==> D.AssessAt(lib, limits)(i, groups[i]).error == LimitExceeded
      ensures D.AssessAt(lib, limits)(i, groups[i]).Success? <==> Within(limits, groups[i].items)
    {
      forall c | c in groups[i].items ensures c in n.candidates && c.name == groups[i].key { assert D.NameOf(c) == c.name; }
      var attribute := AttributeOf(n, schema, groups[i].key, groups[i].items);
      AssessmentOnlyLimited(lib, limits, groups[i].key, groups[i].items, attribute);
    }
  }

  lemma AllGroupsWithin(limits: D.Limits, candidates: seq<Candidate>)
    ensures var groups := GroupBy(candidates, D.NameOf);
      (forall i :: 0 <= i < |groups| ==> Within(limits, groups[i].items))
      <==> forall c :: c in candidates ==> Within(limits, ItemsOf(candidates, D.NameOf, c.name))
  {
    var groups := GroupBy(candidates, D.NameOf);
    GroupsPartition(candidates, D.NameOf);
    GroupsByName(candidates);
    hide GroupBy, FirstSeen, ItemsOf, Within;
    if forall i :: 0 <= i < |groups| ==> Within(limits, groups[i].items) {
      forall c | c in candidates ensures Within(limits, ItemsOf(candidates, D.NameOf, c.name)) {
        var i :| 0 <= i < |groups| && c in groups[i].items;
        assert D.NameOf(c) == groups[i].key;
      }
    }
    if forall c :: c in candidates ==> Within(limits, ItemsOf(candidates, D.NameOf, c.name)) {
      forall i | 0 <= i < |groups| ensures Within(limits, groups[i].items) {
        var c := groups[i].items[0];
        assert c in groups[i].items && D.NameOf(c) == groups[i].key;
      }
    }
  }

  lemma NameCount(candidates: seq<Candidate>)
    ensures |GroupBy(candidates, D.NameOf)| == |set c | c in candidates :: c.name|
  {
    var names := FirstSeen(Mapped(candidates, D.NameOf));
    DistinctSize(names);
    hide FirstSeen;
    forall c | c in candidates ensures c.name in names {
      var i :| 0 <= i < |candidates| && candidates[i] == c;
      assert Mapped(candidates, D.NameOf)[i] == c.name;
    }
    forall name | name in names ensures exists c :: c in candidates && c.name == name {
      var i :| 0 <= i < |candidates| && Mapped(candidates, D.NameOf)[i] == name;
      assert candidates[i] in candidates;
    }
    assert (set x | x in names) == set c | c in candidates :: c.name;
  }

  lemma AttributeOf(n: Normalization, schema: Schema, name: string, items: seq<Candidate>) returns (attribute: Definition)
    requires ValidSchema(schema) && NormalizedBy(n, schema) && items != []
    requires forall c :: c in items ==> c in n.candidates && c.name == name
    ensures Find(schema.attributes, name) == Some(attribute) && WellOf(items, attribute) && name == attribute.name && name != ""
  {
    hide WellNormalized;
    assert items[0] in items;
    attribute := Find(schema.attributes, name).value;
    forall c | c in items ensures WellNormalized(c, attribute) {
      var i :| 0 <= i < |n.candidates| && n.candidates[i] == c;
    }
  }

  /** A source whose text is only blanks, which extraction never produces, normalizes to the
      empty text, and detection is then refused for an invalid entity. */
  lemma BlankTextIsRefused(lib: Library, limits: D.Limits, source: Source, attribute: Definition)
    requires Faithful(lib) && D.AcceptedLimits(limits) && attribute.dataType.Text?
    requires source.dataType.Text? && source.rawValue.Some? && Strip(source.rawValue.value) == ""
    ensures var c := NormalizeCandidate(lib, 6, 0, source, attribute);
      c.value == Some("") && D.AssessAttribute(lib, limits, source.name, [c]) == Failure(InvalidEntity)
  {
    BlankCanonicalText(lib, attribute.name, source.rawValue.value);
    hide TextForm, CanonicalText, Strip;
    var c := NormalizeCandidate(lib, 6, 0, source, attribute);
    assert [c][..0] == [];
    assert D.Comparable([c]) == [c];
    GroupsAreRefusedIff([c]);
    assert c in [c];
  }

  /** So for an attribute with two or more comparable numbers of one unit: the consensus is
      agreement exactly when it lists one agreement group. */
  lemma ConsensusAgreesIffOneGroup(lib: Library, limits: D.Limits, name: string, items: seq<Candidate>, attribute: Definition)
    requires Faithful(lib) && items != [] && WellOf(items, attribute) && Numeric(attribute.dataType)
    requires !D.Mixed(items) && |D.Comparable(items)| >= 2 && OneUnit(D.Comparable(items))
    requires D.AssessAttribute(lib, limits, name, items).Success?
    ensures var c := D.AssessAttribute(lib, limits, name, items).value;
      c.status.Agreement? <==> c.groupCount == 1
  {
    hide D.Comparable, Where, Faithful, WellNormalized, D.Mixed, D.Judge, D.ValueGroups, ValidConsensus, D.SourceCount, Mapped;
    var comparable := D.Comparable(items);
    FirstOf(items, attribute);
    ComparableHaveValues(items, attribute);
    WellIsCanonical(comparable, attribute);
    AgreementIffOneGroup(lib, limits.comparator, attribute.dataType, comparable);
    hide OneUnit, WellOf, CanonicalNumbers;
  }
}
