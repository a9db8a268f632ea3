/** Auto-selection is sound, end to end: what a proposed value rests on. */
module AutoSelectionTheorem {
  import opened Wrappers
  import opened Texts
  import opened Decimals
  import opened NumericAgreement
  import opened Grouping
  import opened Sorting
  import opened CatalogAttributes
  import opened AttributeCompleteness
  import opened AttributeValidation
  import opened AttributeSelection
  import opened EvidenceTheorems
  import opened AgreementTheorems
  import opened PipelineTheorems
  import D = ConflictDetection
  import RecordKeys

  /** The candidates of an attribute, in their order. */
  function Of(n: Normalization, name: string): seq<Candidate> { ItemsOf(n.candidates, D.NameOf, name) }

  /** The validation status the engine gave a candidate. */
  ghost predicate ValidatedAs(g: Engines, schema: Schema, c: Candidate, status: ValidationStatus) {
    && Find(schema.attributes, c.name).Some?
    && var r := AssessCandidate(g.lib, g.validation, c, Find(schema.attributes, c.name).value);
       r.Success? && r.value.status == status
  }

  /** The value of a candidate is read as a number. */
  ghost predicate Reads(lib: Library, c: Candidate) { c.value.Some? && lib.decimalOf(c.value.value).Some? }

  /** What its number is worth. */
  ghost function Worth(lib: Library, c: Candidate): real
    requires Reads(lib, c)
  {
    Value(lib.decimalOf(c.value.value).value)
  }

  /** Two numbers are equal, or near if that will do and they need not be whole. */
  ghost predicate NumbersAgree(lib: Library, comparator: Comparator, a: Candidate, b: Candidate, whole: bool, exact: bool)
    requires Reads(lib, a) && Reads(lib, b)
  {
    Worth(lib, a) == Worth(lib, b) || (!exact && !whole && Near(comparator, Worth(lib, a), Worth(lib, b)))
  }

  /** Two texts have one compared form. */
  ghost predicate TextsAgree(lib: Library, a: Candidate, b: Candidate) {
    a.value.Some? && b.value.Some? && lib.casefold(Collapsed(a.value.value)) == lib.casefold(Collapsed(b.value.value))
  }

  /** The candidates agree pairwise: numbers in what they are worth, texts in their compared form. */
  ghost predicate AgreeAs(lib: Library, comparator: Comparator, t: DataType, items: seq<Candidate>, exact: bool) {
    if t.Number? || t.Integer? then
      && (forall i :: 0 <= i < |items| ==> Reads(lib, items[i]))
      && forall i, j :: 0 <= i < j < |items| ==> NumbersAgree(lib, comparator, items[i], items[j], t.Integer?, exact)
    else
      exact && forall i, j :: 0 <= i < |items| && 0 <= j < |items| ==> TextsAgree(lib, items[i], items[j])
  }

  ghost predicate PairwiseAgree(lib: Library, comparator: Comparator, items: seq<Candidate>, exact: bool)
    requires items != []
  {
    AgreeAs(lib, comparator, items[0].dataType, items, exact)
  }

  lemma NumbersRead(lib: Library, items: seq<Candidate>)
    requires forall i :: 0 <= i < |items| ==> items[i].value.Some?
    ensures D.Numbers(lib, items).Some? <==> forall i :: 0 <= i < |items| ==> Reads(lib, items[i])
    ensures D.Numbers(lib, items).Some? ==>
      && |D.Numbers(lib, items).value| == |items|
      && forall i :: 0 <= i < |items| ==> Reads(lib, items[i]) && ValuesOf(D.Numbers(lib, items).value)[i] == Worth(lib, items[i])
  {
    hide Value;
  }

  /** Pairwise agreement is what the verdict over the numbers says. */
  lemma AgreementOfNumbers(lib: Library, comparator: Comparator, t: DataType, items: seq<Candidate>, exact: bool)
    requires Numeric(t) && forall i :: 0 <= i < |items| ==> items[i].value.Some?
    ensures AgreeAs(lib, comparator, t, items, exact) <==>
      && D.Numbers(lib, items).Some?
      && ValuesAgree(comparator, ValuesOf(D.Numbers(lib, items).value), t.Integer?, exact)
  {
    NumbersRead(lib, items);
    hide D.Numbers, ValuesOf, Worth, Reads, Near;
  }

  ghost predicate RanksFirst(c: Candidate, items: seq<Candidate>) {
    c in items && forall o :: o in items ==> AtLeastAsGood(c, o)
  }

  /** The identifiers are those of the items, the better before the worse. */
  ghost predicate InRankOrder(ids: seq<string>, items: seq<Candidate>) {
    exists order :: IsOrderOf(order, ids, items)
  }

  ghost predicate IsOrderOf(order: seq<Candidate>, ids: seq<string>, items: seq<Candidate>) {
    && multiset(order) == multiset(items) && |ids| == |order|
    && (forall i :: 0 <= i < |order| ==> ids[i] == order[i].id)
    && forall i, j :: 0 <= i < j < |order| ==> AtLeastAsGood(order[i], order[j])
  }

  // ----- looking candidates up ---------------------------------------------------------------

  lemma LookupFinds(candidates: seq<Candidate>, c: Candidate)
    requires DistinctIds(candidates) && c in candidates
    ensures CandidateWith(candidates, c.id) == Some(c)
  {
  }

  lemma AssessmentFound(g: Engines, n: Normalization, schema: Schema, validation: Validation, c: Candidate)
    requires Validate(g.lib, g.validation, n, schema) == Success(validation)
    requires DistinctIds(n.candidates) && c in n.candidates
    ensures AssessmentOf(validation.assessments, c.id).Some?
    ensures ValidatedAs(g, schema, c, AssessmentOf(validation.assessments, c.id).value.status)
  {
    hide AssessmentOf, AssessCandidate, Find, AssessAll;
    var i :| 0 <= i < |n.candidates| && n.candidates[i] == c;
    AssessedEach(g.lib, g.validation, n.candidates, schema, i);
    AssessmentFacts(g.lib, g.validation, c, Find(schema.attributes, c.name).value);
    assert validation.assessments[i] in validation.assessments;
    var found := AssessmentOf(validation.assessments, c.id).value;
    var j :| 0 <= j < |n.candidates| && validation.assessments[j] == found;
    AssessedEach(g.lib, g.validation, n.candidates, schema, j);
    AssessmentFacts(g.lib, g.validation, n.candidates[j], Find(schema.attributes, n.candidates[j].name).value);
    assert i == j;
  }

  lemma LookedUpItems(g: Engines, n: Normalization, schema: Schema, validation: Validation, items: seq<Candidate>)
    requires Validate(g.lib, g.validation, n, schema) == Success(validation) && DistinctIds(n.candidates)
    requires forall c :: c in items ==> c in n.candidates
    ensures var e := Evidence(n.candidates, validation.assessments);
      var ids := Mapped(items, D.IdOf);
      && Known(e, ids)
      && forall i :: 0 <= i < |items| ==>
           LookedUp(e, ids)[i].candidate == items[i] && ValidatedAs(g, schema, items[i], LookedUp(e, ids)[i].status)
  {
    hide CandidateWith, AssessmentOf, ValidatedAs, Validate, DistinctIds;
    forall i | 0 <= i < |items|
      ensures CandidateWith(n.candidates, items[i].id) == Some(items[i])
      ensures AssessmentOf(validation.assessments, items[i].id).Some?
      ensures ValidatedAs(g, schema, items[i], AssessmentOf(validation.assessments, items[i].id).value.status)
    {
      assert items[i] in items;
      LookupFinds(n.candidates, items[i]);
      AssessmentFound(g, n, schema, validation, items[i]);
    }
  }

  /** The consensus found for a name is the assessment of that attribute's candidates. */
  lemma DetectedEach(g: Engines, n: Normalization, detection: Detection, name: string)
    requires D.Detect(g.lib, g.detection, detection.id, n) == Success(detection)
    requires ConsensusFor(detection.attributes, name).Some?
    ensures Of(n, name) != [] && (forall c :: c in Of(n, name) ==> c in n.candidates)
    ensures D.AssessAttribute(g.lib, g.detection, name, Of(n, name)) == Success(ConsensusFor(detection.attributes, name).value)
  {
    var groups := GroupBy(n.candidates, D.NameOf);
    GroupsByName(n.candidates);
    GroupsPartition(n.candidates, D.NameOf);
    hide GroupBy, FirstSeen, ItemsOf, D.AssessAttribute, ConsensusFor;
    var consensus := ConsensusFor(detection.attributes, name).value;
    var i :| 0 <= i < |groups| && detection.attributes[i] == consensus;
    assert D.AssessAt(g.lib, g.detection)(i, groups[i]) == Success(consensus);
    AssessedName(g.lib, g.detection, groups[i].key, groups[i].items);
  }

  lemma AssessedName(lib: Library, limits: D.Limits, name: string, items: seq<Candidate>)
    requires items != [] && D.AssessAttribute(lib, limits, name, items).Success?
    ensures D.AssessAttribute(lib, limits, name, items).value.name == name
  {
    hide D.JudgeAttribute, D.AgreementGroups, ValidConsensus;
  }

  // ----- what the checks before a proposal mean -------------------------------------------------

  lemma {:induction false} AllPass<T(!new)>(s: seq<T>, p: T -> bool)
    requires |Where(s, p)| == |s|
    ensures Where(s, p) == s && forall x :: x in s ==> p(x)
  {
    if s != [] {
      var init, last := s[..|s| - 1], s[|s| - 1];
      assert s == init + [last];
      assert |Where(init, p)| <= |init|;
      AllPass(init, p);
    }
  }

  lemma NoReview(limits: SelectionLimits, status: ConsensusStatus, ranked: seq<Ranked>)
    requires ReviewReason(limits, status, ranked).None? && !status.NoValidCandidates?
    ensures status in {Agreement, AgreementWithTolerance}
    ensures Where(ranked, IsValid) == ranked && forall r :: r in ranked ==> r.status.Valid?
    ensures |Image(ranked, RankedSource)| >= limits.minSources && |Image(ranked, RankedUnit)| == 1
  {
    AllPass(ranked, IsValid);
    hide Where, Image;
  }

  lemma DirectOnly(items: seq<Candidate>)
    requires forall c :: c in items ==> D.Direct(c)
    ensures !D.Mixed(items) && D.Comparable(items) == items
  {
    WhereAll(items, D.Direct);
    WhereMembers(items, D.LacksUnit);
    var missing := Where(items, D.LacksUnit);
    hide Where;
    FirstTwoAreMembers(missing);
  }

  lemma JudgedAgreement(lib: Library, comparator: Comparator, items: seq<Candidate>)
    requires items != [] && D.Judge(lib, comparator, items[0].dataType, items).Success?
    requires D.Judge(lib, comparator, items[0].dataType, items).value.status in {Agreement, AgreementWithTolerance}
    ensures PairwiseAgree(lib, comparator, items, D.Judge(lib, comparator, items[0].dataType, items).value.status.Agreement?)
  {
    hide Verdict, D.Numbers, Worth, Reads, Near, ValuesOf, ValuesAgree;
    var exact := D.Judge(lib, comparator, items[0].dataType, items).value.status.Agreement?;
    if Numeric(items[0].dataType) {
      hide AgreeAs;
      AgreementOfNumbers(lib, comparator, items[0].dataType, items, exact);
      VerdictMeans(comparator, D.Numbers(lib, items).value, items[0].dataType.Integer?);
    } else {
      var forms := Mapped(items, D.Form(lib));
      assert forall i :: 0 <= i < |items| ==> forms[i] in Image(items, D.Form(lib));
      forall i, j | 0 <= i < |items| && 0 <= j < |items| ensures TextsAgree(lib, items[i], items[j]) {
        OneMember(Image(items, D.Form(lib)), forms[i], forms[j]);
      }
    }
  }

  lemma AssessedAgreement(lib: Library, limits: D.Limits, name: string, items: seq<Candidate>)
    requires items != [] && (forall c :: c in items ==> D.Direct(c))
    requires D.AssessAttribute(lib, limits, name, items).Success?
    requires D.AssessAttribute(lib, limits, name, items).value.status in {Agreement, AgreementWithTolerance}
    ensures PairwiseAgree(lib, limits.comparator, items, D.AssessAttribute(lib, limits, name, items).value.status.Agreement?)
  {
    DirectOnly(items);
    hide D.Comparable, D.Mixed, D.Judge, D.AgreementGroups, ValidConsensus, PairwiseAgree, D.Warnings, Where, D.SourceCount;
    JudgedAgreement(lib, limits.comparator, items);
  }

  // ----- the theorem --------------------------------------------------------------------------

  lemma AutoSelectedMeans(limits: SelectionLimits, c: Completeness, consensus: Option<Consensus>, e: Evidence)
    requires SelectAttribute(limits, c, consensus, e).Success?
    requires SelectAttribute(limits, c, consensus, e).value.status.AutoSelected?
    ensures consensus.Some? && Known(e, consensus.value.candidates)
    ensures var ranked := LookedUp(e, consensus.value.candidates);
      var status := consensus.value.status;
      && !status.NoValidCandidates? && Where(ranked, IsValid) != [] && ReviewReason(limits, status, ranked).None?
      && SelectAttribute(limits, c, consensus, e).value == Proposal(c, status, ranked)
  {
    hide Known, LookedUp, ReviewReason, Where, Image, ValidSelection, Proposal;
  }

  lemma ValidIsDirect(g: Engines, schema: Schema, c: Candidate)
    requires ValidatedAs(g, schema, c, Valid)
    ensures D.Direct(c) && c.value.Some?
  {
    AssessmentFacts(g.lib, g.validation, c, Find(schema.attributes, c.name).value);
  }

  /** The ranked candidates are the attribute's candidates, all of them valid. */
  ghost predicate RankedAre(ranked: seq<Ranked>, items: seq<Candidate>) {
    |ranked| == |items| && forall i :: 0 <= i < |items| ==> ranked[i] == Ranked(items[i], Valid)
  }

  lemma RankedImages(ranked: seq<Ranked>, items: seq<Candidate>)
    requires RankedAre(ranked, items)
    ensures Image(ranked, RankedSource) == Image(items, D.SourceOf)
    ensures Image(ranked, RankedUnit) == Image(items, D.UnitOf)
    ensures Mapped(ranked, RankedId) == Mapped(items, D.IdOf)
  {
  }

  lemma ProposalRanksFirst(c: Completeness, status: ConsensusStatus, ranked: seq<Ranked>, items: seq<Candidate>)
    requires RankedAre(ranked, items) && Where(ranked, IsValid) == ranked && ranked != []
    ensures var s := Proposal(c, status, ranked);
      && multiset(s.supporting) == multiset(Mapped(items, D.IdOf)) && InRankOrder(s.supporting, items)
      && exists best :: RanksFirst(best, items) && s.primary == Some(best.id) && s.value == best.value && s.unit == best.unit
  {
    hide Where, Image, RanksBefore, Insert;
    var order := Sort(ranked, RanksBefore);
    RanksBeforeIsPreorder();
    SortPermutes(ranked, RanksBefore);
    SortSorts(ranked, RanksBefore);
    SameElements(order, ranked);
    hide Sort;
    MappedMultiset(order, ranked, RankedId);
    RankedImages(ranked, items);
    OrderOfItems(order, ranked, items);
    var best := order[0].candidate;
    assert RanksFirst(best, items) by { FirstOfOrder(Mapped(order, RankedCandidate), items); }
    assert IsOrderOf(Mapped(order, RankedCandidate), Mapped(order, RankedId), items);
  }

  function RankedCandidate(r: Ranked): Candidate { r.candidate }

  /** Sorting valid candidates by the ranking puts the better before the worse. */
  lemma OrderOfItems(order: seq<Ranked>, ranked: seq<Ranked>, items: seq<Candidate>)
    requires RankedAre(ranked, items) && multiset(order) == multiset(ranked) && Sorted(order, RanksBefore)
    ensures var sorted := Mapped(order, RankedCandidate);
      && multiset(sorted) == multiset(items)
      && forall i, j :: 0 <= i < j < |sorted| ==> AtLeastAsGood(sorted[i], sorted[j])
  {
    MappedMultiset(order, ranked, RankedCandidate);
    assert Mapped(ranked, RankedCandidate) == items;
    SameElements(order, ranked);
    hide AtLeastAsGood;
    forall i | 0 <= i < |order| ensures order[i].status.Valid? { assert order[i] in order && order[i] in ranked; }
    forall i, j | 0 <= i < j < |order| ensures AtLeastAsGood(order[i].candidate, order[j].candidate) {
      ValidRanking(order[i], order[j]);
    }
  }

  lemma ValidRanking(a: Ranked, b: Ranked)
    requires a.status == b.status && RanksBefore(a, b)
    ensures AtLeastAsGood(a.candidate, b.candidate)
  {
    RankingMeans(a, b);
  }

  lemma FirstOfOrder(sorted: seq<Candidate>, items: seq<Candidate>)
    requires sorted != [] && multiset(sorted) == multiset(items)
    requires forall i, j :: 0 <= i < j < |sorted| ==> AtLeastAsGood(sorted[i], sorted[j])
    ensures RanksFirst(sorted[0], items)
  {
    SameElements(sorted, items);
    assert sorted[0] in sorted;
    AsGoodAsItself(sorted[0]);
    hide AtLeastAsGood;
    forall o | o in items ensures AtLeastAsGood(sorted[0], o) {
      assert o in sorted;
      var j :| 0 <= j < |sorted| && sorted[j] == o;
    }
  }

  lemma AsGoodAsItself(c: Candidate)
    ensures AtLeastAsGood(c, c)
  {
    RecordKeys.TextLeTotal(c.id, c.id);
  }

  /** What an auto-selected proposal rests on: every candidate of the attribute is valid, all
      share one unit, enough distinct sources say so, and they agree pairwise; the supporting
      identifiers are those of all the candidates; and the proposed value is that of the
      candidate that ranks first. */
  ghost predicate Sound(g: Engines, schema: Schema, n: Normalization, s: Selection) {
    var items := Of(n, s.name);
    && items != []
    && (forall c :: c in items ==> ValidatedAs(g, schema, c, Valid))
    && OneUnit(items)
    && |Image(items, D.SourceOf)| >= g.selection.minSources
    && PairwiseAgree(g.lib, g.detection.comparator, items, s.reason.MultiSourceExactAgreement?)
    && multiset(s.supporting) == multiset(Mapped(items, D.IdOf)) && InRankOrder(s.supporting, items)
    && exists best :: RanksFirst(best, items) && s.primary == Some(best.id) && s.value == best.value && s.unit == best.unit
  }

  lemma ConsensusIds(g: Engines, n: Normalization, detection: Detection, name: string)
    requires D.Detect(g.lib, g.detection, detection.id, n) == Success(detection)
    requires ConsensusFor(detection.attributes, name).Some?
    ensures ConsensusFor(detection.attributes, name).value.candidates == Mapped(Of(n, name), D.IdOf)
  {
    hide D.Detect, D.AssessAttribute, ConsensusFor, Of, Accounts;
    DetectedEach(g, n, detection, name);
    AssessmentAccounts(g.lib, g.detection, name, Of(n, name));
    AccountedIds(ConsensusFor(detection.attributes, name).value, name, Of(n, name));
  }

  lemma ProposedIsSound(g: Engines, n: Normalization, schema: Schema, detection: Detection, validation: Validation, c: Completeness)
    requires D.Detect(g.lib, g.detection, detection.id, n) == Success(detection)
    requires Validate(g.lib, g.validation, n, schema) == Success(validation) && DistinctIds(n.candidates)
    requires var r := SelectAttribute(g.selection, c, ConsensusFor(detection.attributes, c.name),
                                      Evidence(n.candidates, validation.assessments));
      r.Success? && r.value.status.AutoSelected?
    ensures var r := SelectAttribute(g.selection, c, ConsensusFor(detection.attributes, c.name),
                                     Evidence(n.candidates, validation.assessments));
      Sound(g, schema, n, r.value)
  {
    hide D.Detect, Validate, DistinctIds, ConsensusFor, SelectAttribute, Of, ValidatedAs, ReviewReason, Where, Image,
      LookedUp, Known, D.AssessAttribute, PairwiseAgree, OneUnit, RanksFirst, InRankOrder, Mapped;
    var consensus, e := ConsensusFor(detection.attributes, c.name), Evidence(n.candidates, validation.assessments);
    var items := Of(n, c.name);
    AutoSelectedMeans(g.selection, c, consensus, e);
    DetectedEach(g, n, detection, c.name);
    ConsensusIds(g, n, detection, c.name);
    LookedUpItems(g, n, schema, validation, items);
    var status, ranked := consensus.value.status, LookedUp(e, consensus.value.candidates);
    NoReview(g.selection, status, ranked);
    forall i | 0 <= i < |items|
      ensures ranked[i] == Ranked(items[i], Valid) && ValidatedAs(g, schema, items[i], Valid) && D.Direct(items[i])
    {
      assert ranked[i] in ranked;
      ValidIsDirect(g, schema, items[i]);
    }
    RankedImages(ranked, items);
    OneUnitIsOneImage(items);
    AssessedAgreement(g.lib, g.detection, c.name, items);
    ProposalRanksFirst(c, status, ranked, items);
  }

  /** Whatever the candidates, the schema and the limits are: an attribute that selection, given the
      results of the other engines, marks as auto-selected rests on sound evidence. */
  lemma AutoSelectionIsSound(g: Engines, n: Normalization, schema: Schema, detection: Detection, evaluation: Evaluation,
                             validation: Validation, i: nat)
    requires Upstream(g, n, schema, detection, evaluation, validation) && DistinctIds(n.candidates)
    requires Select(g.selection, detection, validation, evaluation, n).Success?
    requires i < |Select(g.selection, detection, validation, evaluation, n).value|
    ensures var s := Select(g.selection, detection, validation, evaluation, n).value[i];
      s.status.AutoSelected? ==> Sound(g, schema, n, s)
  {
    var e := Evidence(n.candidates, validation.assessments);
    var s := Select(g.selection, detection, validation, evaluation, n).value[i];
    assert SelectAt(g.selection, detection, e)(i, evaluation.attributes[i]) == Success(s);
    hide Sound, SelectAttribute, D.Detect, Validate, Evaluate, DistinctIds;
    if s.status.AutoSelected? {
      ProposedIsSound(g, n, schema, detection, validation, evaluation.attributes[i]);
    }
  }

  // ----- when selection is refused --------------------------------------------------------------

  lemma {:induction false} ImageSize<T, U>(s: seq<T>, f: T -> U)
    ensures |Image(s, f)| <= |s|
  {
    if s == [] {
      assert Image(s, f) == {};
    } else {
      var init, last := s[..|s| - 1], s[|s| - 1];
      ImageSize(init, f);
      assert Mapped(s, f) == Mapped(init, f) + [f(last)];
      assert Image(s, f) == Image(init, f) + {f(last)};
    }
  }

  lemma {:induction false} MultiplicityOne<T>(s: seq<T>, x: T)
    requires Distinct(s)
    ensures multiset(s)[x] <= 1
  {
    if s != [] {
      var init, last := s[..|s| - 1], s[|s| - 1];
      assert s == init + [last];
      MultiplicityOne(init, x);
      if x == last { assert x !in init; }
    }
  }

  lemma DistinctPermutation<T>(a: seq<T>, b: seq<T>)
    requires multiset(a) == multiset(b) && Distinct(a)
    ensures Distinct(b)
  {
    forall i, j | 0 <= i < j < |b| ensures b[i] != b[j] {
      MultiplicityOne(a, b[j]);
      assert b == b[..j] + [b[j]] + b[j + 1..];
      assert b[i] in b[..j];
      assert multiset(b) == multiset(b[..j]) + multiset{b[j]} + multiset(b[j + 1..]);
    }
  }

  lemma {:induction false} DistinctAmong(candidates: seq<Candidate>, name: string)
    requires DistinctIds(candidates)
    ensures DistinctIds(ItemsOf(candidates, D.NameOf, name))
  {
    if candidates != [] {
      var init, last := candidates[..|candidates| - 1], candidates[|candidates| - 1];
      DistinctAmong(init, name);
      KeysGrow(init, D.NameOf, last);
      assert init + [last] == candidates;
      forall c | c in init ensures c.id != last.id {}
      ItemsOfMembers(init, D.NameOf, name);
      var before := ItemsOf(init, D.NameOf, name);
      forall i | 0 <= i < |before| ensures before[i].id != last.id { assert before[i] in before; }
    }
  }

  lemma IdsAreDistinct(n: Normalization, name: string)
    requires DistinctIds(n.candidates)
    ensures Distinct(Mapped(Of(n, name), D.IdOf))
  {
    DistinctAmong(n.candidates, name);
    hide ItemsOf;
  }

  lemma UnresolvedIsValid(c: Completeness, status: SelectionStatus, consensus: Option<ConsensusStatus>, review: seq<string>,
                          count: nat, valid: nat, sources: nat, confidence: int, reason: Reason)
    requires c.name != "" && c.displayOrder >= 1 && !status.AutoSelected?
    requires valid <= count && sources <= count && 0 <= confidence <= 10_000 && (Distinct(review) || review == [])
    ensures ValidSelection(Unresolved(c, status, consensus, review, count, valid, sources, confidence, reason))
  {
  }

  lemma ProposalIsValid(c: Completeness, status: ConsensusStatus, ranked: seq<Ranked>)
    requires c.name != "" && c.displayOrder >= 1 && ranked != [] && Where(ranked, IsValid) == ranked
    requires Distinct(Mapped(ranked, RankedId)) && forall r :: r in ranked ==> r.candidate.value.Some?
    ensures ValidSelection(Proposal(c, status, ranked))
  {
    hide Where, Image, RanksBefore, Insert;
    var order := Sort(ranked, RanksBefore);
    SortPermutes(ranked, RanksBefore);
    SameElements(order, ranked);
    assert |Where(ranked, IsUsable)| <= |ranked|;
    ImageSize(ranked, RankedSource);
    hide Sort;
    MappedMultiset(order, ranked, RankedId);
    DistinctPermutation(Mapped(ranked, RankedId), Mapped(order, RankedId));
    assert order[0] in order;
    assert Mapped(order, RankedId)[0] == order[0].candidate.id;
  }

  /** What selection needs of an attribute to build its entity. */
  ghost predicate Buildable(c: Completeness, consensus: Option<Consensus>, e: Evidence) {
    && c.name != "" && c.displayOrder >= 1 && AgreesWith(c, consensus) && Distinct(c.candidates)
    && Known(e, c.candidates)
    && forall r :: r in LookedUp(e, c.candidates) && r.status.Valid? ==> r.candidate.value.Some?
  }

  lemma ReviewConfidence(limits: SelectionLimits, status: ConsensusStatus, ranked: seq<Ranked>)
    ensures var r := ReviewReason(limits, status, ranked);
      r.Some? ==> 0 <= r.value.1 <= 10_000
  {
  }

  lemma BuildableIsBuilt(limits: SelectionLimits, c: Completeness, consensus: Option<Consensus>, e: Evidence)
    requires Buildable(c, consensus, e)
    ensures var r := SelectAttribute(limits, c, consensus, e);
      && (r.Failure? ==> r.error == LimitExceeded)
      && (r.Success? <==> limits.reasons >= 1 && |c.candidates| <= limits.candidates)
  {
    var ranked := LookedUp(e, c.candidates);
    hide Where, Image, LookedUp, Known, ReviewReason, Mapped, Proposal, ValidSelection, Distinct, RankedId;
    RankedIds(e, c.candidates);
    ImageSize(ranked, RankedSource);
    if c.state.Missing? {
      UnresolvedIsValid(c, NoCandidate, None, [], 0, 0, 0, 0, if c.required then MissingAttribute else OptionalAttributeUnresolved);
    } else if c.state.InvalidOnly? {
      UnresolvedIsValid(c, NoValidCandidate, Some(consensus.value.status), c.candidates, |c.candidates|, 0,
                        |Image(ranked, RankedSource)|, 0, NoValidCandidateReason);
    } else {
      var status, usable, sources := consensus.value.status, |Where(ranked, IsUsable)|, |Image(ranked, RankedSource)|;
      ResolvableIsBuilt(limits, c, status, ranked);
      UnresolvedIsValid(c, NoValidCandidate, Some(status), c.candidates, |c.candidates|, usable, sources, 0, NoValidCandidateReason);
      var r := ReviewReason(limits, status, ranked);
      if r.Some? {
        UnresolvedIsValid(c, ReviewRequired, Some(status), c.candidates, |c.candidates|, usable, sources, r.value.1, r.value.0);
      }
    }
  }

  lemma RankedIds(e: Evidence, ids: seq<string>)
    requires Known(e, ids)
    ensures Mapped(LookedUp(e, ids), RankedId) == ids
  {
  }

  lemma ResolvableIsBuilt(limits: SelectionLimits, c: Completeness, status: ConsensusStatus, ranked: seq<Ranked>)
    requires c.name != "" && c.displayOrder >= 1 && Distinct(Mapped(ranked, RankedId))
    requires forall r :: r in ranked && r.status.Valid? ==> r.candidate.value.Some?
    ensures var r := ReviewReason(limits, status, ranked);
      && (r.Some? ==> 0 <= r.value.1 <= 10_000)
      && (r.None? && !status.NoValidCandidates? && Where(ranked, IsValid) != [] ==>
            ValidSelection(Proposal(c, status, ranked)))
  {
    ReviewConfidence(limits, status, ranked);
    hide ValidSelection, Proposal, ReviewReason, Mapped;
    if ReviewReason(limits, status, ranked).None? && !status.NoValidCandidates? && Where(ranked, IsValid) != [] {
      NoReview(limits, status, ranked);
      ProposalIsValid(c, status, ranked);
    }
  }

  lemma EachIsBuildable(g: Engines, n: Normalization, schema: Schema, detection: Detection, evaluation: Evaluation,
                        validation: Validation, i: nat)
    requires Upstream(g, n, schema, detection, evaluation, validation) && DistinctIds(n.candidates) && ValidSchema(schema)
    requires i < |evaluation.attributes|
    ensures var c := evaluation.attributes[i];
      Buildable(c, ConsensusFor(detection.attributes, c.name), Evidence(n.candidates, validation.assessments))
  {
    hide D.Detect, Validate, Evaluate, DistinctIds, ConsensusFor, Of, ValidatedAs, Mapped;
    var c := evaluation.attributes[i];
    var consensus := ConsensusFor(detection.attributes, c.name);
    EvaluatedEach(g.completeness, evaluation.id, detection, schema, i);
    if consensus.Some? {
      var items := Of(n, c.name);
      DetectedEach(g, n, detection, c.name);
      ConsensusIds(g, n, detection, c.name);
      IdsAreDistinct(n, c.name);
      LookedUpItems(g, n, schema, validation, items);
      var ranked := LookedUp(Evidence(n.candidates, validation.assessments), c.candidates);
      forall r | r in ranked && r.status.Valid? ensures r.candidate.value.Some? {
        var k :| 0 <= k < |ranked| && ranked[k] == r;
        ValidIsDirect(g, schema, items[k]);
      }
    }
  }

  /** On the results of one normalization with a schema's constructor checks met, selection is
      refused only for size, and exactly then: every attribute gets a well-formed proposal or review. */
  lemma SelectionOnlyLimited(g: Engines, n: Normalization, schema: Schema, detection: Detection, evaluation: Evaluation,
                             validation: Validation)
    requires Upstream(g, n, schema, detection, evaluation, validation) && DistinctIds(n.candidates) && ValidSchema(schema)
    ensures var r, attributes := Select(g.selection, detection, validation, evaluation, n), evaluation.attributes;
      && (r.Failure? ==> r.error == LimitExceeded)
      && (r.Success? <==>
            && |attributes| <= g.selection.attributes
            && forall i :: 0 <= i < |attributes| ==> g.selection.reasons >= 1 && |attributes[i].candidates| <= g.selection.candidates)
  {
    ComposesWithoutLineageFailure(g, n, schema, detection, evaluation, validation);
    var e := Evidence(n.candidates, validation.assessments);
    forall i | 0 <= i < |evaluation.attributes|
      ensures var r := SelectAt(g.selection, detection, e)(i, evaluation.attributes[i]);
        && (r.Failure? ==> r.error == LimitExceeded)
        && (r.Success? <==> g.selection.reasons >= 1 && |evaluation.attributes[i].candidates| <= g.selection.candidates)
    {
      EachIsBuildable(g, n, schema, detection, evaluation, validation, i);
      hide Buildable, SelectAttribute;
      var c := evaluation.attributes[i];
      BuildableIsBuilt(g.selection, c, ConsensusFor(detection.attributes, c.name), e);
    }
    hide SelectAttribute, Upstream, ConsensusFor, SameCandidates;
  }
}
