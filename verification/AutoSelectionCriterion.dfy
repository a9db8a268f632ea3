/** When an attribute is auto-selected: exactly on this evidence, end to end. */
module AutoSelectionCriterion {
  import opened Wrappers
  import opened NumericAgreement
  import opened Grouping
  import opened Sorting
  import opened CatalogAttributes
  import opened AttributeCompleteness
  import opened AttributeValidation
  import opened AttributeSelection
  import opened EvidenceTheorems
  import opened AgreementTheorems
  import opened PipelineTheorems
  import opened AutoSelectionTheorem
  import D = ConflictDetection

  ghost predicate OneValue(items: seq<Candidate>) {
    forall i :: 0 <= i < |items| ==> items[i].value == items[0].value
  }

  /** Two or more candidates, all of them valid and of one unit, from enough distinct sources, that
      agree exactly and have one value, or else within tolerance; each with its confidence. */
  ghost predicate Convincing(g: Engines, schema: Schema, items: seq<Candidate>) {
    && |items| >= 2
    && (forall c :: c in items ==> ValidatedAs(g, schema, c, Valid))
    && OneUnit(items)
    && |Image(items, D.SourceOf)| >= g.selection.minSources
    && if PairwiseAgree(g.lib, g.detection.comparator, items, true) then OneValue(items) && g.selection.threshold <= 10_000
       else PairwiseAgree(g.lib, g.detection.comparator, items, false) && g.selection.threshold <= 9_000
  }

  // ----- what detection says of such candidates ---------------------------------------------------

  lemma OneImageIff<T, U>(s: seq<T>, f: T -> U)
    requires s != []
    ensures |Image(s, f)| == 1 <==> forall i :: 0 <= i < |s| ==> f(s[i]) == f(s[0])
  {
    var mapped, image := Mapped(s, f), Image(s, f);
    assert mapped[0] in image;
    if forall i :: 0 <= i < |s| ==> f(s[i]) == f(s[0]) {
      assert image == {f(s[0])};
    } else {
      var i :| 0 <= i < |s| && f(s[i]) != f(s[0]);
      assert mapped[i] in image;
      if |image| == 1 { OneMember(image, f(s[i]), f(s[0])); }
    }
  }

  lemma JudgedIff(lib: Library, comparator: Comparator, t: DataType, items: seq<Candidate>)
    requires |items| >= 2 && (Numeric(t) ==> OneUnit(items)) && forall c :: c in items ==> c.value.Some?
    requires D.Judge(lib, comparator, t, items).Success?
    ensures var status := D.Judge(lib, comparator, t, items).value.status;
      && (status.Agreement? <==> AgreeAs(lib, comparator, t, items, true))
      && (status.AgreementWithTolerance? <==> !AgreeAs(lib, comparator, t, items, true) && AgreeAs(lib, comparator, t, items, false))
      && status in {Agreement, AgreementWithTolerance, Conflict}
  {
    hide Verdict, D.Numbers, Image, D.SourceCount, Worth, Reads, Near, ValuesOf, ValuesAgree;
    OneUnitIsOneImage(items);
    OneImageIff(items, D.Form(lib));
    assert forall i :: 0 <= i < |items| ==> items[i] in items;
    if Numeric(t) {
      hide AgreeAs;
      AgreementOfNumbers(lib, comparator, t, items, true);
      AgreementOfNumbers(lib, comparator, t, items, false);
      VerdictMeans(comparator, D.Numbers(lib, items).value, t.Integer?);
    }
  }

  /** Of candidates that are all usable, the consensus is agreement, or agreement within tolerance,
      exactly when there are two or more of one unit that agree so. */
  lemma AssessedIff(lib: Library, limits: D.Limits, name: string, items: seq<Candidate>)
    requires items != [] && (forall c :: c in items ==> D.Direct(c) && c.value.Some?) && OneUnit(items)
    requires D.AssessAttribute(lib, limits, name, items).Success?
    ensures var status := D.AssessAttribute(lib, limits, name, items).value.status;
      && (status.Agreement? <==> |items| >= 2 && PairwiseAgree(lib, limits.comparator, items, true))
      && (status.AgreementWithTolerance? <==>
            (&& |items| >= 2 && !PairwiseAgree(lib, limits.comparator, items, true)
             && PairwiseAgree(lib, limits.comparator, items, false)))
  {
    hide D.AssessAttribute, AgreeAs, OneUnit, D.Numbers, Image;
    AssessedIsJudged(lib, limits, name, items);
    if |items| >= 2 {
      JudgedIff(lib, limits.comparator, items[0].dataType, items);
      hide D.Judge;
    }
  }

  lemma AssessedIsJudged(lib: Library, limits: D.Limits, name: string, items: seq<Candidate>)
    requires items != [] && (forall c :: c in items ==> D.Direct(c)) && D.AssessAttribute(lib, limits, name, items).Success?
    ensures var judged := D.Judge(lib, limits.comparator, items[0].dataType, items);
      judged.Success? && D.AssessAttribute(lib, limits, name, items).value.status == judged.value.status
  {
    hide D.Comparable, D.Mixed, D.AgreementGroups, ValidConsensus, D.Warnings, Where, D.SourceCount, D.Judge;
    DirectOnly(items);
  }

  // ----- what selection makes of it -----------------------------------------------------------------

  /** When no review is asked for. */
  lemma NoReviewIff(limits: SelectionLimits, status: ConsensusStatus, ranked: seq<Ranked>)
    requires ranked != []
    ensures ReviewReason(limits, status, ranked).None? && !status.NoValidCandidates? && Where(ranked, IsValid) != [] <==>
      && status in {Agreement, AgreementWithTolerance} && (forall r :: r in ranked ==> r.status.Valid?)
      && |Image(ranked, RankedSource)| >= limits.minSources && |Image(ranked, RankedUnit)| == 1
      && (status.Agreement? ==> |Image(ranked, RankedValue)| == 1 && limits.threshold <= 10_000)
      && (status.AgreementWithTolerance? ==> limits.threshold <= 9_000)
  {
    hide Where, Image, IsValid;
    AllOrSome(ranked);
  }

  lemma AllOrSome(ranked: seq<Ranked>)
    ensures |Where(ranked, IsValid)| == |ranked| <==> forall r :: r in ranked ==> r.status.Valid?
    ensures |Where(ranked, IsValid)| == |ranked| ==> Where(ranked, IsValid) == ranked
  {
    if forall r :: r in ranked ==> r.status.Valid? {
      WhereAll(ranked, IsValid);
    } else if |Where(ranked, IsValid)| == |ranked| {
      AllPass(ranked, IsValid);
    }
    hide Where;
  }

  lemma SelectedIff(limits: SelectionLimits, c: Completeness, consensus: Option<Consensus>, e: Evidence)
    requires AgreesWith(c, consensus) && SelectAttribute(limits, c, consensus, e).Success?
    ensures SelectAttribute(limits, c, consensus, e).value.status.AutoSelected? <==>
      && consensus.Some? && !consensus.value.status.NoValidCandidates? && Known(e, consensus.value.candidates)
      && var ranked := LookedUp(e, consensus.value.candidates);
         Where(ranked, IsValid) != [] && ReviewReason(limits, consensus.value.status, ranked).None?
  {
    hide Known, LookedUp, ReviewReason, Where, Image, ValidSelection;
  }

  /** An attribute with candidates has its consensus. */
  lemma DetectedIfAny(g: Engines, n: Normalization, detection: Detection, name: string)
    requires D.Detect(g.lib, g.detection, detection.id, n) == Success(detection) && Of(n, name) != []
    ensures ConsensusFor(detection.attributes, name).Some?
  {
    hide D.Detect, ConsensusFor, Accounts, FirstSeen;
    DetectionConserves(g.lib, g.detection, detection.id, n);
    var names := FirstSeen(Mapped(n.candidates, D.NameOf));
    NameIsSeen(n, name);
    var i :| 0 <= i < |names| && names[i] == name;
    AccountedName(detection.attributes[i], name, ItemsOf(n.candidates, D.NameOf, name));
    assert detection.attributes[i] in detection.attributes;
  }

  lemma NameIsSeen(n: Normalization, name: string)
    requires Of(n, name) != []
    ensures name in FirstSeen(Mapped(n.candidates, D.NameOf))
  {
    ItemsOfMembers(n.candidates, D.NameOf, name);
    var c := Of(n, name)[0];
    assert c in Of(n, name);
    var i :| 0 <= i < |n.candidates| && n.candidates[i] == c;
    assert Mapped(n.candidates, D.NameOf)[i] == name;
  }

  lemma AccountedName(c: Consensus, name: string, items: seq<Candidate>)
    requires Accounts(c, name, items)
    ensures c.name == name
  {
  }

  /** The ranked candidates are the attribute's, each with the status validation gave it. */
  ghost predicate RankedAs(g: Engines, schema: Schema, ranked: seq<Ranked>, items: seq<Candidate>) {
    |ranked| == |items|
    && forall i :: 0 <= i < |items| ==> ranked[i].candidate == items[i] && ValidatedAs(g, schema, items[i], ranked[i].status)
  }

  lemma AllValidIff(g: Engines, schema: Schema, ranked: seq<Ranked>, items: seq<Candidate>)
    requires RankedAs(g, schema, ranked, items)
    ensures (forall r :: r in ranked ==> r.status.Valid?) <==> forall c :: c in items ==> ValidatedAs(g, schema, c, Valid)
  {
    if forall r :: r in ranked ==> r.status.Valid? {
      forall c | c in items ensures ValidatedAs(g, schema, c, Valid) {
        var i :| 0 <= i < |items| && items[i] == c;
        assert ranked[i] in ranked;
      }
    }
    if forall c :: c in items ==> ValidatedAs(g, schema, c, Valid) {
      forall r | r in ranked ensures r.status.Valid? {
        var i :| 0 <= i < |ranked| && ranked[i] == r;
        assert items[i] in items;
        assert ValidatedAs(g, schema, items[i], ranked[i].status);
      }
    }
  }

  lemma RankedImagesOf(g: Engines, schema: Schema, ranked: seq<Ranked>, items: seq<Candidate>)
    requires RankedAs(g, schema, ranked, items) && items != []
    ensures Image(ranked, RankedSource) == Image(items, D.SourceOf)
    ensures |Image(ranked, RankedUnit)| == 1 <==> OneUnit(items)
    ensures |Image(ranked, RankedValue)| == 1 <==> OneValue(items)
  {
    hide ValidatedAs;
    assert Mapped(ranked, RankedSource) == Mapped(items, D.SourceOf);
    OneImageIff(ranked, RankedUnit);
    OneImageIff(ranked, RankedValue);
  }

  /** On the consensus of its candidates, an attribute needs no review exactly when they are convincing. */
  lemma ConvincingIff(g: Engines, schema: Schema, name: string, items: seq<Candidate>, ranked: seq<Ranked>)
    requires items != [] && RankedAs(g, schema, ranked, items)
    requires D.AssessAttribute(g.lib, g.detection, name, items).Success?
    ensures var status := D.AssessAttribute(g.lib, g.detection, name, items).value.status;
      (ReviewReason(g.selection, status, ranked).None? && !status.NoValidCandidates? && Where(ranked, IsValid) != [])
      <==> Convincing(g, schema, items)
  {
    hide D.AssessAttribute, ReviewReason, Where, Image, ValidatedAs, PairwiseAgree, OneUnit, OneValue, RankedAs;
    var status := D.AssessAttribute(g.lib, g.detection, name, items).value.status;
    RankedSize(g, schema, ranked, items);
    NoReviewIff(g.selection, status, ranked);
    AllValidIff(g, schema, ranked, items);
    RankedImagesOf(g, schema, ranked, items);
    if OneUnit(items) && forall c :: c in items ==> ValidatedAs(g, schema, c, Valid) {
      forall c | c in items ensures D.Direct(c) && c.value.Some? { ValidIsDirect(g, schema, c); }
      AssessedIff(g.lib, g.detection, name, items);
    }
  }

  lemma RankedSize(g: Engines, schema: Schema, ranked: seq<Ranked>, items: seq<Candidate>)
    requires RankedAs(g, schema, ranked, items)
    ensures |ranked| == |items|
  {
  }

  lemma ProposedIff(g: Engines, n: Normalization, schema: Schema, detection: Detection, validation: Validation, c: Completeness)
    requires D.Detect(g.lib, g.detection, detection.id, n) == Success(detection)
    requires Validate(g.lib, g.validation, n, schema) == Success(validation) && DistinctIds(n.candidates)
    requires AgreesWith(c, ConsensusFor(detection.attributes, c.name))
    requires SelectAttribute(g.selection, c, ConsensusFor(detection.attributes, c.name),
                             Evidence(n.candidates, validation.assessments)).Success?
    ensures SelectAttribute(g.selection, c, ConsensusFor(detection.attributes, c.name),
                            Evidence(n.candidates, validation.assessments)).value.status.AutoSelected?
      <==> Convincing(g, schema, Of(n, c.name))
  {
    hide D.Detect, Validate, DistinctIds, ConsensusFor, SelectAttribute, Of, ValidatedAs, ReviewReason, Where, Image, LookedUp, Known,
      D.AssessAttribute, PairwiseAgree, OneUnit, OneValue, Mapped, AgreesWith;
    var consensus, e, items := ConsensusFor(detection.attributes, c.name), Evidence(n.candidates, validation.assessments), Of(n, c.name);
    SelectedIff(g.selection, c, consensus, e);
    if consensus.Some? {
      DetectedEach(g, n, detection, c.name);
      ConsensusIds(g, n, detection, c.name);
      LookedUpItems(g, n, schema, validation, items);
      var ranked := LookedUp(e, consensus.value.candidates);
      assert RankedAs(g, schema, ranked, items);
      hide RankedAs, Convincing;
      ConvincingIff(g, schema, c.name, items, ranked);
    } else if items != [] {
      DetectedIfAny(g, n, detection, c.name);
    }
  }

  /** Whatever the candidates, the schema and the limits are: of the results of one normalization,
      selection auto-selects exactly the attributes whose candidates are convincing. */
  lemma AutoSelectedIffConvincing(g: Engines, n: Normalization, schema: Schema, detection: Detection, evaluation: Evaluation,
                                  validation: Validation, i: nat)
    requires Upstream(g, n, schema, detection, evaluation, validation) && DistinctIds(n.candidates)
    requires Select(g.selection, detection, validation, evaluation, n).Success?
    requires i < |Select(g.selection, detection, validation, evaluation, n).value|
    ensures var s := Select(g.selection, detection, validation, evaluation, n).value[i];
      i < |evaluation.attributes|
      && (s.status.AutoSelected? <==> Convincing(g, schema, Of(n, evaluation.attributes[i].name)))
  {
    var e := Evidence(n.candidates, validation.assessments);
    var s := Select(g.selection, detection, validation, evaluation, n).value[i];
    assert SelectAt(g.selection, detection, e)(i, evaluation.attributes[i]) == Success(s);
    hide Convincing, SelectAttribute, D.Detect, Validate, Evaluate, DistinctIds, AgreesWith, ConsensusFor;
    EvaluatedEach(g.completeness, evaluation.id, detection, schema, i);
    ProposedIff(g, n, schema, detection, validation, evaluation.attributes[i]);
  }

  // ----- the engines in a row -----------------------------------------------------------------------

  /** Detection, completeness, validation and selection, one after the other on one normalization. */
  function Pipeline(g: Engines, detectionId: nat, evaluationId: nat, n: Normalization, schema: Schema)
    : Result<seq<Selection>, PipelineError>
  {
    match D.Detect(g.lib, g.detection, detectionId, n)
    case Failure(e) => Failure(e)
    case Success(detection) =>
      match Evaluate(g.completeness, evaluationId, detection, schema)
      case Failure(e) => Failure(e)
      case Success(evaluation) =>
        match Validate(g.lib, g.validation, n, schema)
        case Failure(e) => Failure(e)
        case Success(validation) => Select(g.selection, detection, validation, evaluation, n)
  }

  lemma DetectKeepsId(lib: Library, limits: D.Limits, id: nat, n: Normalization)
    ensures D.Detect(lib, limits, id, n).Success? ==> D.Detect(lib, limits, id, n).value.id == id
  {
    hide GroupBy, D.AssessAttribute;
  }

  lemma EvaluateKeepsId(limits: AttributeCompleteness.Limits, id: nat, detection: Detection, schema: Schema)
    ensures Evaluate(limits, id, detection, schema).Success? ==> Evaluate(limits, id, detection, schema).value.id == id
  {
    hide Sort, AttributeCompleteness.Assess;
  }

  lemma SelectKeepsName(limits: SelectionLimits, c: Completeness, consensus: Option<Consensus>, e: Evidence)
    requires SelectAttribute(limits, c, consensus, e).Success?
    ensures SelectAttribute(limits, c, consensus, e).value.name == c.name
  {
    hide Known, LookedUp, ReviewReason, Where, Image, ValidSelection;
  }

  /** What selection says of its `i`-th attribute. */
  ghost predicate RightlySelected(g: Engines, schema: Schema, n: Normalization, s: Selection) {
    && (s.status.AutoSelected? <==> Convincing(g, schema, Of(n, s.name)))
    && (s.status.AutoSelected? ==> Sound(g, schema, n, s))
  }

  /** Two candidates of an auto-selected integer attribute are worth the same, whatever the tolerances. */
  lemma SoundIntegersAreEqual(g: Engines, schema: Schema, n: Normalization, s: Selection, i: nat, j: nat)
    requires Sound(g, schema, n, s) && Of(n, s.name)[0].dataType.Integer? && i < |Of(n, s.name)| && j < |Of(n, s.name)|
    ensures var items := Of(n, s.name);
      Reads(g.lib, items[i]) && Reads(g.lib, items[j]) && Worth(g.lib, items[i]) == Worth(g.lib, items[j])
  {
    hide Of, Worth, ValidatedAs, RanksFirst, InRankOrder;
    var items := Of(n, s.name);
    if i < j {
      assert NumbersAgree(g.lib, g.detection.comparator, items[i], items[j], true, s.reason.MultiSourceExactAgreement?);
    } else if j < i {
      assert NumbersAgree(g.lib, g.detection.comparator, items[j], items[i], true, s.reason.MultiSourceExactAgreement?);
    }
  }

  lemma SelectedRightly(g: Engines, n: Normalization, schema: Schema, detection: Detection, evaluation: Evaluation,
                        validation: Validation, i: nat)
    requires Upstream(g, n, schema, detection, evaluation, validation) && DistinctIds(n.candidates)
    requires Select(g.selection, detection, validation, evaluation, n).Success?
    requires i < |Select(g.selection, detection, validation, evaluation, n).value|
    ensures i < |evaluation.attributes|
    ensures var s := Select(g.selection, detection, validation, evaluation, n).value[i];
      s.name == evaluation.attributes[i].name && RightlySelected(g, schema, n, s)
  {
    var e := Evidence(n.candidates, validation.assessments);
    var s := Select(g.selection, detection, validation, evaluation, n).value[i];
    assert SelectAt(g.selection, detection, e)(i, evaluation.attributes[i]) == Success(s);
    hide Convincing, Sound, SelectAttribute, D.Detect, Validate, Evaluate, DistinctIds, ConsensusFor, Of;
    SelectKeepsName(g.selection, evaluation.attributes[i], ConsensusFor(detection.attributes, evaluation.attributes[i].name), e);
    hide Upstream, Select;
    AutoSelectedIffConvincing(g, n, schema, detection, evaluation, validation, i);
    AutoSelectionIsSound(g, n, schema, detection, evaluation, validation, i);
  }

  /** For any candidates, schema and limits: a run of the whole pipeline gives one selection for each
      attribute of the schema, auto-selected exactly on convincing evidence, and then soundly. */
  lemma PipelineSelectsRightly(g: Engines, detectionId: nat, evaluationId: nat, n: Normalization, schema: Schema)
    requires DistinctIds(n.candidates)
    ensures var r := Pipeline(g, detectionId, evaluationId, n, schema);
      r.Success? ==>
        && |r.value| == |schema.attributes|
        && forall i :: 0 <= i < |r.value| ==> RightlySelected(g, schema, n, r.value[i])
  {
    hide D.Detect, Evaluate, Validate, DistinctIds, RightlySelected;
    var r := Pipeline(g, detectionId, evaluationId, n, schema);
    if r.Success? {
      var detection := D.Detect(g.lib, g.detection, detectionId, n).value;
      var evaluation := Evaluate(g.completeness, evaluationId, detection, schema).value;
      var validation := Validate(g.lib, g.validation, n, schema).value;
      DetectKeepsId(g.lib, g.detection, detectionId, n);
      EvaluateKeepsId(g.completeness, evaluationId, detection, schema);
      EvaluationCoversSchema(g.completeness, evaluationId, detection, schema);
      assert Upstream(g, n, schema, detection, evaluation, validation);
      assert |r.value| == |evaluation.attributes|;
      hide Select, Pipeline, Upstream;
      forall i | 0 <= i < |r.value| ensures RightlySelected(g, schema, n, r.value[i]) {
        SelectedRightly(g, n, schema, detection, evaluation, validation, i);
      }
    }
  }

  /** So in any run, two candidates of one auto-selected integer attribute are worth the same. */
  lemma AutoSelectedIntegersAreEqual(g: Engines, detectionId: nat, evaluationId: nat, n: Normalization, schema: Schema, k: nat,
                                     i: nat, j: nat)
    requires DistinctIds(n.candidates)
    ensures var r := Pipeline(g, detectionId, evaluationId, n, schema);
      r.Success? && k < |r.value| && r.value[k].status.AutoSelected? ==>
        var items := Of(n, r.value[k].name);
        && items != []
        && (items[0].dataType.Integer? && i < |items| && j < |items| ==>
              Reads(g.lib, items[i]) && Reads(g.lib, items[j]) && Worth(g.lib, items[i]) == Worth(g.lib, items[j]))
  {
    hide Pipeline, Of, Worth, DistinctIds, Convincing;
    PipelineSelectsRightly(g, detectionId, evaluationId, n, schema);
    var r := Pipeline(g, detectionId, evaluationId, n, schema);
    if r.Success? && k < |r.value| && r.value[k].status.AutoSelected? {
      assert RightlySelected(g, schema, n, r.value[k]);
      var items := Of(n, r.value[k].name);
      if items[0].dataType.Integer? && i < |items| && j < |items| {
        SoundIntegersAreEqual(g, schema, n, r.value[k], i, j);
      }
    }
  }
}
