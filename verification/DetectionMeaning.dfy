/**
 What the consensus of an attribute says of its candidates: how many of them
 can be compared, whether they agree, from how many sources, and what stands
 in the way.
 */
module DetectionMeaning {
  import opened Wrappers
  import opened Numerals
  import opened NumericAgreement
  import opened Grouping
  import opened CatalogAttributes
  import opened EvidenceTheorems
  import opened AgreementTheorems
  import opened AutoSelectionTheorem
  import opened AutoSelectionCriterion
  import D = ConflictDetection

  // ----- the evidence -------------------------------------------------------------------------

  predicate Usable(c: Candidate) { c.status != UnsupportedUnit && c.status != InvalidValue }

  ghost predicate SomeUnitMissing(items: seq<Candidate>) { exists c :: c in items && c.status == UnitMissing }

  ghost predicate SomeUnitless(items: seq<Candidate>) {
    SomeUnitMissing(items) && exists c :: c in items && Usable(c) && c.status != UnitMissing
  }

  ghost predicate TwoSources(items: seq<Candidate>) {
    exists i, j :: 0 <= i < j < |items| && items[i].source != items[j].source
  }

  /** The units or the values of comparable candidates are not known well enough to compare them. */
  ghost predicate Unclear(t: DataType, fit: seq<Candidate>) {
    (exists c :: c in fit && c.value.None?) || ((t.Number? || t.Integer?) && !OneUnit(fit))
  }

  /** The status that the evidence calls for. */
  ghost predicate StatusMeans(lib: Library, comparator: Comparator, t: DataType, items: seq<Candidate>, status: ConsensusStatus) {
    var fit := Where(items, Usable);
    match status
    case NoValidCandidates => fit == []
    case SingleCandidate => |fit| == 1 && !SomeUnitless(items)
    case Indeterminate => |fit| >= 2 && (SomeUnitless(items) || Unclear(t, fit))
    case _ =>
      && |fit| >= 2 && !SomeUnitless(items) && !Unclear(t, fit)
      && (status.Agreement? <==> AgreeAs(lib, comparator, t, fit, true))
      && (status.AgreementWithTolerance? <==>
            !AgreeAs(lib, comparator, t, fit, true) && AgreeAs(lib, comparator, t, fit, false))
  }

  /** How sure the status is, and which conflict it stands for. */
  ghost predicate JudgementMeans(j: D.Judgement, fit: seq<Candidate>) {
    && j.conflict == (if j.status.Conflict? then Some(ValueConflict) else if j.status.Indeterminate? then Some(UnitIndeterminate) else None)
    && match j.status
       case Agreement => j.confidence == if TwoSources(fit) then 10_000 else 8_500
       case AgreementWithTolerance => j.confidence == if TwoSources(fit) then 9_000 else 8_000
       case SingleCandidate => j.confidence == 6_000
       case Indeterminate => j.confidence == 5_000
       case _ => j.confidence == 10_000
  }

  ghost predicate ConsensusMeans(lib: Library, limits: D.Limits, name: string, items: seq<Candidate>, c: Consensus)
    requires items != []
  {
    && c.name == name && c.displayName == items[0].displayName && c.dataType == items[0].dataType
    && StatusMeans(lib, limits.comparator, items[0].dataType, items, c.status)
    && JudgementMeans(D.Judgement(c.status, c.confidence, c.conflict), Where(items, Usable))
    && c.candidateCount == |items| && c.comparableCount == |Where(items, Usable)|
    && c.sourceCount == |set candidate | candidate in items :: candidate.source|
    && (MixedValidity in c.warnings <==> exists candidate :: candidate in items && !Usable(candidate))
    && (UnitIndeterminate in c.warnings <==> SomeUnitless(items))
    && ValueConflict !in c.warnings && |c.warnings| <= 2
  }

  // ----- comparable is usable ------------------------------------------------------------------------

  lemma {:induction false} SameFilter<T(!new)>(s: seq<T>, p: T -> bool, q: T -> bool)
    requires forall x :: x in s ==> (p(x) <==> q(x))
    ensures Where(s, p) == Where(s, q)
  {
    if s != [] {
      assert forall x :: x in s[..|s| - 1] ==> x in s;
      assert s[|s| - 1] in s;
      SameFilter(s[..|s| - 1], p, q);
    }
  }

  lemma NoneWhere<T(!new)>(s: seq<T>, p: T -> bool)
    ensures Where(s, p) == [] <==> forall x :: x in s ==> !p(x)
  {
    WhereMembers(s, p);
    if Where(s, p) != [] { assert Where(s, p)[0] in Where(s, p); }
  }

  lemma MixedIff(items: seq<Candidate>)
    ensures D.Mixed(items) <==> SomeUnitless(items)
  {
    NoneWhere(items, D.Direct);
    NoneWhere(items, D.LacksUnit);
    hide Where;
    assert forall c: Candidate :: D.Direct(c) <==> Usable(c) && c.status != UnitMissing;
    assert forall c: Candidate :: D.LacksUnit(c) <==> c.status == UnitMissing;
    hide Usable, D.Direct, D.LacksUnit;
  }

  lemma ComparableIsUsable(items: seq<Candidate>)
    ensures |D.Comparable(items)| == |Where(items, Usable)|
    ensures !D.Mixed(items) ==> D.Comparable(items) == Where(items, Usable)
  {
    ComparableOrExcluded(items);
    WithoutUsable(items);
    NoneWhere(items, D.Direct);
    NoneWhere(items, D.LacksUnit);
    if Where(items, D.LacksUnit) == [] { SameFilter(items, D.Direct, Usable); }
    if Where(items, D.Direct) == [] { SameFilter(items, D.LacksUnit, Usable); }
    hide Where;
  }

  lemma {:induction false} WithoutUsable(items: seq<Candidate>)
    ensures |Where(items, Usable)| + |Where(items, D.Excluded)| == |items|
  {
    if items != [] { WithoutUsable(items[..|items| - 1]); }
  }

  // ----- the judgement ---------------------------------------------------------------------------------

  lemma TwoSourcesIff(items: seq<Candidate>)
    requires items != []
    ensures D.SourceCount(items) >= 2 <==> TwoSources(items)
  {
    OneImageIff(items, D.SourceOf);
    var mapped := Mapped(items, D.SourceOf);
    assert mapped[0] in Image(items, D.SourceOf);
    hide Image;
    if D.SourceCount(items) == 1 {
      assert forall i :: 0 <= i < |items| ==> D.SourceOf(items[i]) == D.SourceOf(items[0]);
    } else {
      var i :| 0 <= i < |items| && D.SourceOf(items[i]) != D.SourceOf(items[0]);
      assert items[0].source != items[i].source;
    }
  }

  lemma JudgedMeans(lib: Library, comparator: Comparator, t: DataType, items: seq<Candidate>, fit: seq<Candidate>)
    requires fit == Where(items, Usable) && !SomeUnitless(items) && D.Judge(lib, comparator, t, fit).Success?
    ensures var j := D.Judge(lib, comparator, t, fit).value;
      StatusMeans(lib, comparator, t, items, j.status) && JudgementMeans(j, fit)
  {
    hide Where, SomeUnitless, AgreeAs, OneUnit, TwoSources, Verdict, D.Numbers, Image, D.SourceCount;
    if |fit| >= 2 {
      TwoSourcesIff(fit);
      OneUnitIsOneImage(fit);
      if !Unclear(t, fit) { JudgedIff(lib, comparator, t, fit); }
    }
  }

  lemma MixedMeans(lib: Library, comparator: Comparator, t: DataType, items: seq<Candidate>)
    requires D.Mixed(items)
    ensures StatusMeans(lib, comparator, t, items, Indeterminate)
  {
    MixedIff(items);
    ComparableIsUsable(items);
    hide Where, SomeUnitless, Unclear, AgreeAs;
  }

  lemma SourcesOf(items: seq<Candidate>)
    ensures D.SourceCount(items) == |set candidate | candidate in items :: candidate.source|
  {
    var image, sources := Image(items, D.SourceOf), set candidate | candidate in items :: candidate.source;
    forall c | c in items ensures c.source in image {
      var i :| 0 <= i < |items| && items[i] == c;
      assert Mapped(items, D.SourceOf)[i] == c.source;
    }
    forall x | x in image ensures x in sources {
      var i :| 0 <= i < |items| && Mapped(items, D.SourceOf)[i] == x;
      assert items[i] in items;
    }
    assert image == sources;
  }

  lemma WarningsMean(items: seq<Candidate>)
    ensures var warnings := D.Warnings(items);
      && (MixedValidity in warnings <==> exists candidate :: candidate in items && !Usable(candidate))
      && (UnitIndeterminate in warnings <==> SomeUnitless(items)) && ValueConflict !in warnings && |warnings| <= 2
  {
    MixedIff(items);
    NoneWhere(items, D.Excluded);
    hide Where, SomeUnitless, D.Mixed;
  }

  /** Whatever the candidates of an attribute are: if they are assessed, the consensus says of them
      what they call for. */
  lemma AssessmentMeans(lib: Library, limits: D.Limits, name: string, items: seq<Candidate>)
    requires items != [] && D.AssessAttribute(lib, limits, name, items).Success?
    ensures ConsensusMeans(lib, limits, name, items, D.AssessAttribute(lib, limits, name, items).value)
  {
    SourcesOf(items);
    WarningsMean(items);
    MixedIff(items);
    ComparableIsUsable(items);
    hide D.Comparable, D.Mixed, D.Judge, D.AgreementGroups, ValidConsensus, D.Warnings, Where, D.SourceCount, SomeUnitless,
      StatusMeans, Usable, TwoSources;
    if D.Mixed(items) {
      MixedMeans(lib, limits.comparator, items[0].dataType, items);
    } else {
      JudgedMeans(lib, limits.comparator, items[0].dataType, items, Where(items, Usable));
    }
  }

  // ----- the agreement groups ------------------------------------------------------------------------------

  /** The candidates with the value and the unit of a group. */
  function InGroup(g: AgreementGroup): Candidate -> bool { (c: Candidate) => c.value == Some(g.value) && c.unit == g.unit }

  /** A group has its number, and exactly the candidates with its value and unit, and their sources. */
  ghost predicate GroupMeans(g: AgreementGroup, index: nat, comparable: seq<Candidate>) {
    var members := Where(comparable, InGroup(g));
    && g.id == "group-" + PaddedTo(index + 1, 6) && g.candidates == Mapped(members, D.IdOf)
    && (forall source :: source in g.sources <==> exists c :: c in members && c.source == source) && Distinct(g.sources)
  }

  lemma {:induction false} WhereTwice<T(!new)>(s: seq<T>, p: T -> bool, q: T -> bool, both: T -> bool)
    requires forall x :: both(x) <==> p(x) && q(x)
    ensures Where(Where(s, p), q) == Where(s, both)
  {
    if s != [] {
      var init, last := s[..|s| - 1], s[|s| - 1];
      WhereTwice(init, p, q, both);
      if p(last) { WhereAppended(Where(init, p), last, q); } else { assert Where(s, p) == Where(init, p); }
    }
  }

  lemma WhereAppended<T>(s: seq<T>, x: T, p: T -> bool)
    ensures Where(s + [x], p) == Where(s, p) + if p(x) then [x] else []
  {
    assert (s + [x])[..|s|] == s;
  }

  lemma {:induction false} ItemsAreWhere<K, V(!new)>(s: seq<V>, key: V -> K, k: K, p: V -> bool)
    requires forall v :: v in s ==> (p(v) <==> key(v) == k)
    ensures ItemsOf(s, key, k) == Where(s, p)
  {
    if s != [] {
      assert forall v :: v in s[..|s| - 1] ==> v in s;
      assert s[|s| - 1] in s;
      ItemsAreWhere(s[..|s| - 1], key, k, p);
    }
  }

  lemma MembersOf(comparable: seq<Candidate>, g: AgreementGroup)
    ensures ItemsOf(Where(comparable, D.HasValue), D.KeyOf, (g.value, g.unit)) == Where(comparable, InGroup(g))
  {
    WhereTwice(comparable, D.HasValue, InGroup(g), InGroup(g));
    WhereMembers(comparable, D.HasValue);
    ItemsAreWhere(Where(comparable, D.HasValue), D.KeyOf, (g.value, g.unit), InGroup(g));
  }

  lemma SourcesListed(members: seq<Candidate>, source: nat)
    ensures source in FirstSeen(Mapped(members, D.SourceOf)) <==> exists c :: c in members && c.source == source
  {
    hide FirstSeen;
    if source in Mapped(members, D.SourceOf) {
      var i :| 0 <= i < |members| && Mapped(members, D.SourceOf)[i] == source;
      assert members[i] in members;
    }
    if c :| c in members && c.source == source {
      var i :| 0 <= i < |members| && members[i] == c;
      assert Mapped(members, D.SourceOf)[i] == source;
    }
  }

  lemma GroupsMean(comparable: seq<Candidate>, i: nat)
    requires D.AgreementGroups(comparable).Success? && i < |D.AgreementGroups(comparable).value|
    ensures GroupMeans(D.AgreementGroups(comparable).value[i], i, comparable)
  {
    var g, values := D.AgreementGroups(comparable).value[i], D.ValueGroups(comparable);
    assert D.CHECKED_GROUP(i, values[i]) == Success(g);
    assert g == D.AgreementOf(i, values[i]);
    GroupIsOf(comparable, i);
    hide D.AgreementGroups, D.ValueGroups, ItemsOf, Where, FirstSeen;
    MembersOf(comparable, g);
    forall source ensures source in g.sources <==> exists c :: c in Where(comparable, InGroup(g)) && c.source == source {
      SourcesListed(Where(comparable, InGroup(g)), source);
    }
  }

  lemma GroupIsOf(comparable: seq<Candidate>, i: nat)
    requires i < |D.ValueGroups(comparable)|
    ensures var g := D.ValueGroups(comparable)[i];
      g.items == ItemsOf(Where(comparable, D.HasValue), D.KeyOf, g.key)
  {
    hide FirstSeen, Where;
  }

  // ----- the whole detection ----------------------------------------------------------------------------------

  function Named(name: string): Candidate -> bool { (c: Candidate) => c.name == name }

  /** Every consensus of a detection is about the candidates of its name, and says what they call for;
      so do its groups. */
  lemma DetectionMeans(lib: Library, limits: D.Limits, id: nat, n: Normalization, i: nat)
    requires D.Detect(lib, limits, id, n).Success?
    ensures var r := D.Detect(lib, limits, id, n).value;
      && r.id == id && r.lineage == n.lineage
      && (i < |r.attributes| ==>
            var c := r.attributes[i];
            var items := Where(n.candidates, Named(c.name));
            && items != [] && ConsensusMeans(lib, limits, c.name, items, c)
            && |c.groups| <= limits.groups && |items| <= limits.candidates
            && forall k :: 0 <= k < |c.groups| ==> GroupMeans(c.groups[k], k, D.Comparable(items)))
  {
    var r := D.Detect(lib, limits, id, n).value;
    var groups := GroupBy(n.candidates, D.NameOf);
    GroupsPartition(n.candidates, D.NameOf);
    GroupsByName(n.candidates);
    if i < |r.attributes| {
      var name, items := groups[i].key, groups[i].items;
      assert D.AssessAt(lib, limits)(i, groups[i]) == Success(r.attributes[i]);
      ItemsAreNamed(n.candidates, name);
      hide D.Detect, GroupBy, FirstSeen, ItemsOf, D.AssessAttribute, Where, ConsensusMeans, GroupMeans, D.Comparable;
      AssessmentMeans(lib, limits, name, items);
      AssessedGroups(lib, limits, name, items);
    }
  }

  lemma ItemsAreNamed(candidates: seq<Candidate>, name: string)
    ensures ItemsOf(candidates, D.NameOf, name) == Where(candidates, Named(name))
  {
    ItemsAreWhere(candidates, D.NameOf, name, Named(name));
  }

  lemma AssessedGroups(lib: Library, limits: D.Limits, name: string, items: seq<Candidate>)
    requires items != [] && D.AssessAttribute(lib, limits, name, items).Success?
    ensures var c := D.AssessAttribute(lib, limits, name, items).value;
      && c.name == name && |c.groups| <= limits.groups && |items| <= limits.candidates
      && forall k :: 0 <= k < |c.groups| ==> GroupMeans(c.groups[k], k, D.Comparable(items))
  {
    hide D.Comparable, D.JudgeAttribute, D.AgreementGroups, ValidConsensus, D.Warnings, Where, D.SourceCount, GroupMeans;
    var groups := D.AgreementGroups(D.Comparable(items)).value;
    forall k | 0 <= k < |groups| ensures GroupMeans(groups[k], k, D.Comparable(items)) { GroupsMean(D.Comparable(items), k); }
  }
}
