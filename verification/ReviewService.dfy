/**
 The review service over its table: a review is read page by page, a decision
 or the completion is prepared from what was read, and written under the version
 read. What a call does to the table is proved to be a run of one process of the
 protocol.
 */
module ReviewService {
  import opened Wrappers
  import opened ReviewProtocol

  datatype ReviewError =
    | NotFound | AlreadyExists | AlreadyCompleted | VersionConflict | DecisionLimit | UnknownAttribute
    | Unresolved | Serialization | Unavailable

  /** What one page of a read brings: CURRENT# records of some attributes, or the next DECISION# records. */
  datatype Page = CurrentPage(attributes: set<string>) | DecisionPage(count: nat)

  class ReviewTable {
    var reviews: map<Id, Partition>
    var guards: map<Id, Id>
    /** The decision identifiers issued so far: a new one is never among them. */
    ghost var issued: set<Id>

    constructor ()
      ensures Show(INITIAL)
    {
      reviews, guards, issued := map[], map[], {};
    }

    ghost predicate Show(s: State)
      reads this
    {
      s.reviews == reviews && s.guards == guards && s.issued == issued
    }

    /** META and the guard of the selection, both new, in one transaction. */
    method Create(review: Id, selection: Id, attributes: map<string, bool>, fault: Fault, ghost s: State)
      returns (r: Result<Id, ReviewError>)
      requires Show(s)
      modifies `reviews, `guards
      ensures Show(CreateOf(s, review, selection, attributes, fault))
      ensures r.Success? ==>
        review in reviews && reviews[review] == Partition(Session(selection, attributes, Open, 1, 0, 0, 0), map[], map[])
      ensures r.Success? <==> fault.NoFault? && review !in old(reviews) && selection !in old(guards)
    {
      var holds := review !in reviews && selection !in guards;
      if holds && !fault.NotApplied? {
        reviews := reviews[review := Partition(Session(selection, attributes, Open, 1, 0, 0, 0), map[], map[])];
        guards := guards[selection := review];
      }
      return if !fault.NoFault? then Failure(Unavailable) else if holds then Success(review) else Failure(AlreadyExists);
    }

    /** The decision, its CURRENT record and the new counts, if META is still open at the version read. */
    method AppendDecision(review: Id, expected: int, sequence: nat, d: Decision, updated: Session, fault: Fault)
      returns (acknowledged: bool)
      modifies `reviews
      ensures reviews == Appended(old(reviews), review, expected, sequence, d, updated, fault)
      ensures acknowledged == (fault.NoFault? && MayAppend(old(reviews), review, expected, sequence))
    {
      var holds := MayAppend(reviews, review, expected, sequence);
      if holds && !fault.NotApplied? {
        var part := reviews[review];
        var decisions, currents := part.decisions[sequence := d], part.currents[d.attribute := Current(d.id, sequence, d.resolving)];
        reviews := reviews[review := Partition(WithCounts(part.meta, updated), decisions, currents)];
      }
      return holds && fault.NoFault?;
    }

    method Complete(review: Id, expected: int, fault: Fault) returns (acknowledged: bool)
      modifies `reviews
      ensures reviews == Closed(old(reviews), review, expected, fault)
      ensures acknowledged == (fault.NoFault? && review in old(reviews) && Writable(old(reviews)[review].meta, expected))
    {
      var holds := review in reviews && Writable(reviews[review].meta, expected);
      if holds && !fault.NotApplied? {
        var part := reviews[review];
        reviews := reviews[review := part.(meta := part.meta.(status := Completed, version := expected + 1))];
      }
      return holds && fault.NoFault?;
    }
  }

  // ----- the writes on the stored reviews -----------------------------------------------------

  predicate MayAppend(reviews: map<Id, Partition>, review: Id, expected: int, sequence: nat) {
    review in reviews && Writable(reviews[review].meta, expected) && sequence !in reviews[review].decisions
  }

  function WithCounts(meta: Session, updated: Session): Session {
    meta.(version := updated.version, decisionCount := updated.decisionCount,
          requiredResolved := updated.requiredResolved, optionalResolved := updated.optionalResolved)
  }

  function Appended(reviews: map<Id, Partition>, review: Id, expected: int, sequence: nat, d: Decision, updated: Session,
                    fault: Fault): map<Id, Partition> {
    if !MayAppend(reviews, review, expected, sequence) || fault.NotApplied? then reviews
    else
      var part := reviews[review];
      reviews[review := Partition(WithCounts(part.meta, updated), part.decisions[sequence := d],
                                  part.currents[d.attribute := Current(d.id, sequence, d.resolving)])]
  }

  function Closed(reviews: map<Id, Partition>, review: Id, expected: int, fault: Fault): map<Id, Partition> {
    if review !in reviews || !Writable(reviews[review].meta, expected) || fault.NotApplied? then reviews
    else reviews[review := reviews[review].(meta := reviews[review].meta.(status := Completed, version := expected + 1))]
  }

  // ----- counting ---------------------------------------------------------------------------------

  /** The selected attributes by name; a later one of the same name would replace an earlier one. */
  function Selected(attributes: seq<(string, bool)>): map<string, bool> {
    if attributes == [] then map[]
    else Selected(attributes[..|attributes| - 1])[attributes[|attributes| - 1].0 := attributes[|attributes| - 1].1]
  }

  ghost predicate DistinctNames(attributes: seq<(string, bool)>) {
    forall i, j :: 0 <= i < j < |attributes| ==> attributes[i].0 != attributes[j].0
  }

  lemma {:induction false} SelectedNames(attributes: seq<(string, bool)>, name: string)
    ensures name in Selected(attributes) <==> exists i :: 0 <= i < |attributes| && attributes[i].0 == name
  {
    if attributes != [] {
      var n := |attributes| - 1;
      SelectedNames(attributes[..n], name);
      if name in Selected(attributes[..n]) {
        var i :| 0 <= i < n && attributes[..n][i].0 == name;
        assert attributes[i].0 == name;
      }
      if i :| 0 <= i < n && attributes[i].0 == name {
        assert attributes[..n][i].0 == name;
      }
    }
  }

  lemma OneMoreCounted(attributes: seq<(string, bool)>, i: nat, currents: map<string, Current>, required: bool)
    requires DistinctNames(attributes) && i < |attributes|
    ensures var (name, wanted) := attributes[i];
      Resolved(Selected(attributes[..i + 1]), currents, required) ==
        Resolved(Selected(attributes[..i]), currents, required)
        + (if wanted == required && name in currents && currents[name].resolving then 1 else 0)
  {
    hide Resolved;
    var (name, wanted) := attributes[i];
    assert attributes[..i + 1][..i] == attributes[..i];
    SelectedNames(attributes[..i], name);
    assert name !in Selected(attributes[..i]);
    OneNameMore(Selected(attributes[..i]), name, wanted, currents, required);
  }

  lemma OneNameMore(before: map<string, bool>, name: string, wanted: bool, currents: map<string, Current>, required: bool)
    requires name !in before
    ensures Resolved(before[name := wanted], currents, required) ==
      Resolved(before, currents, required) + (if wanted == required && name in currents && currents[name].resolving then 1 else 0)
  {
    hide ResolvedNames;
    NamesGrow(before, name, wanted, currents, required);
  }

  lemma NamesGrow(before: map<string, bool>, name: string, wanted: bool, currents: map<string, Current>, required: bool)
    requires name !in before
    ensures var names := ResolvedNames(before, currents, required);
      && name !in names
      && ResolvedNames(before[name := wanted], currents, required) ==
         if wanted == required && name in currents && currents[name].resolving then names + {name} else names
  {
    var names, more := ResolvedNames(before, currents, required), ResolvedNames(before[name := wanted], currents, required);
    forall n
      ensures n in more <==> n in names || (n == name && wanted == required && name in currents && currents[name].resolving)
    {
    }
  }

  /** How many required and how many optional attributes are resolved. */
  method ResolvedCounts(attributes: seq<(string, bool)>, currents: map<string, Current>) returns (required: nat, optional: nat)
    requires DistinctNames(attributes)
    ensures required == Resolved(Selected(attributes), currents, true)
    ensures optional == Resolved(Selected(attributes), currents, false)
  {
    hide Selected;
    required, optional := 0, 0;
    NoneCounted(currents);
    for i := 0 to |attributes|
      invariant required == Resolved(Selected(attributes[..i]), currents, true)
      invariant optional == Resolved(Selected(attributes[..i]), currents, false)
    {
      hide Resolved;
      OneMoreCounted(attributes, i, currents, true);
      OneMoreCounted(attributes, i, currents, false);
      var (name, wanted) := attributes[i];
      if name !in currents || !currents[name].resolving {
        continue;
      }
      if wanted {
        required := required + 1;
      } else {
        optional := optional + 1;
      }
    }
    assert attributes[..|attributes|] == attributes;
  }

  lemma NoneCounted(currents: map<string, Current>)
    ensures forall required :: Resolved(Selected([]), currents, required) == 0
  {
  }

  // ----- runs of one process ------------------------------------------------------------------------

  ghost predicate At(t: ReviewTable, s: State, p: nat, q: Process)
    reads t
  {
    t.Show(s) && ProcessOf(s, p) == q
  }

  lemma {:induction false} RunAppends(s: State, steps: seq<Step>, more: seq<Step>)
    ensures Run(s, steps + more) == Run(Run(s, steps), more)
    decreases |steps|
  {
    hide Apply;
    if steps == [] {
      assert steps + more == more;
    } else {
      assert (steps + more)[1..] == steps[1..] + more;
      RunAppends(Apply(s, steps[0]), steps[1..], more);
    }
  }

  lemma RunOne(s: State, steps: seq<Step>, step: Step)
    ensures Run(s, steps + [step]) == Apply(Run(s, steps), step)
  {
    hide Apply;
    RunAppends(s, steps, [step]);
    assert [step][1..] == [];
  }

  lemma RunNone(s: State)
    ensures Run(s, []) == s
  {
  }

  /** What a page adds to the records read so far. */
  function AfterPage(part: Partition, q: Process, page: Page): Process
    requires q.Reading?
  {
    match page
    case CurrentPage(attributes) =>
      if q.next != 1 then q
      else q.(currents := q.currents + map n | n in attributes && n in part.currents :: part.currents[n])
    case DecisionPage(count) =>
      var upto := if q.next + count <= part.meta.decisionCount + 1 then q.next + count else part.meta.decisionCount + 1;
      q.(decisions := q.decisions + map i | q.next <= i < upto && i in part.decisions :: part.decisions[i],
         next := if q.next <= upto then upto else q.next)
  }

  function PageStep(p: nat, page: Page): Step {
    match page
    case CurrentPage(attributes) => ReadCurrents(p, attributes)
    case DecisionPage(count) => ReadDecisions(p, count)
  }

  lemma PageApplied(s: State, p: nat, page: Page)
    requires var q := ProcessOf(s, p); q.Reading? && q.review in s.reviews
    ensures var q, s' := ProcessOf(s, p), Apply(s, PageStep(p, page));
      s'.reviews == s.reviews && s'.guards == s.guards && s'.issued == s.issued
      && ProcessOf(s', p) == AfterPage(s.reviews[q.review], q, page)
  {
  }

  /** Reads a review page by page, checks that every CURRENT record names its decision, and that the
      review is open at the requested version. */
  method ReadReview(t: ReviewTable, review: Id, request: Request, pages: seq<Page>, ghost s: State, ghost p: nat)
    returns (r: Result<Session, ReviewError>, ghost steps: seq<Step>)
    requires At(t, s, p, Idle)
    ensures At(t, Run(s, steps), p,
               if r.Success? then Checked(review, r.value, request) else if r.error.Serialization? then Inconsistent else Stopped)
    ensures r.Success? ==> review in t.reviews && r.value == t.reviews[review].meta && Writable(r.value, request.version)
  {
    hide Run, Apply, AfterPage;
    RunNone(s);
    RunOne(s, [], Begin(p, review, request));
    assert [] + [Begin(p, review, request)] == [Begin(p, review, request)];
    BeginApplied(s, p, review, request);
    steps := [Begin(p, review, request)];
    if review !in t.reviews {
      return Failure(NotFound), steps;
    }
    var part := t.reviews[review];
    var read := Reading(review, request, map[], map[], 1);
    for i := 0 to |pages|
      invariant read.Reading? && read.review == review && read.request == request
      invariant At(t, Run(s, steps), p, read)
    {
      PageApplied(Run(s, steps), p, pages[i]);
      RunOne(s, steps, PageStep(p, pages[i]));
      PageOfReading(part, read, pages[i]);
      steps := steps + [PageStep(p, pages[i])];
      read := AfterPage(part, read, pages[i]);
    }
    var decisions := read.decisions + map i | i in part.decisions && i >= read.next :: part.decisions[i];
    RestApplied(Run(s, steps), p);
    RunOne(s, steps, ReadRest(p));
    steps := steps + [ReadRest(p)];
    if !Consistent(read.currents, decisions) {
      return Failure(Serialization), steps;
    }
    if part.meta.status.Completed? {
      return Failure(AlreadyCompleted), steps;
    }
    return if part.meta.version != request.version then Failure(VersionConflict) else Success(part.meta), steps;
  }

  lemma PageOfReading(part: Partition, q: Process, page: Page)
    requires q.Reading?
    ensures var q' := AfterPage(part, q, page); q'.Reading? && q'.review == q.review && q'.request == q.request
  {
  }

  lemma BeginApplied(s: State, p: nat, review: Id, request: Request)
    requires ProcessOf(s, p).Idle?
    ensures Apply(s, Begin(p, review, request)) ==
      ReviewProtocol.At(s, p, if review in s.reviews then Reading(review, request, map[], map[], 1) else Stopped)
  {
  }

  lemma RestApplied(s: State, p: nat)
    requires var q := ProcessOf(s, p); q.Reading? && q.review in s.reviews
    ensures Apply(s, ReadRest(p)) == ReadRestOf(s, p, ProcessOf(s, p))
  {
  }

  lemma ComputeApplied(s: State, p: nat, decision: Id, page: set<string>)
    requires var q := ProcessOf(s, p); q.Checked? && q.review in s.reviews
    ensures Apply(s, Compute(p, decision, page)) == ComputeOf(s, p, ProcessOf(s, p), decision, page)
  {
  }

  lemma AppendApplied(s: State, p: nat, fault: Fault)
    requires ProcessOf(s, p).Appending?
    ensures var q, s' := ProcessOf(s, p), Apply(s, Write(p, fault));
      && s'.guards == s.guards && s'.issued == s.issued && ProcessOf(s', p).Stopped?
      && s'.reviews == Appended(s.reviews, q.review, q.session.version, q.session.decisionCount + 1, q.decision, q.updated, fault)
  {
  }

  lemma CompleteApplied(s: State, p: nat, fault: Fault)
    requires ProcessOf(s, p).Completing?
    ensures var q, s' := ProcessOf(s, p), Apply(s, Write(p, fault));
      && s'.guards == s.guards && s'.issued == s.issued && ProcessOf(s', p).Stopped?
      && s'.reviews == Closed(s.reviews, q.review, q.session.version, fault)
  {
  }

  /** The selection a review is of has the attributes of its META record. */
  ghost predicate SelectionOf(t: ReviewTable, review: Id, attributes: seq<(string, bool)>)
    reads t
  {
    DistinctNames(attributes) && (review in t.reviews ==> Selected(attributes) == t.reviews[review].meta.attributes)
  }

  /** A reviewer's decision on one attribute; its sequence number is the answer. `page` holds the
      attributes whose current decisions are on the one page that is read of them. */
  method SubmitDecision(t: ReviewTable, review: Id, attributes: seq<(string, bool)>, attribute: string, resolving: bool, version: int,
                        decision: Id, pages: seq<Page>, page: set<string>, fault: Fault, ghost s: State, ghost p: nat)
    returns (r: Result<nat, ReviewError>, ghost steps: seq<Step>)
    requires At(t, s, p, Idle) && SelectionOf(t, review, attributes) && decision !in s.issued
    modifies t
    ensures t.Show(Run(s, steps)) && (ProcessOf(Run(s, steps), p).Stopped? || ProcessOf(Run(s, steps), p).Inconsistent?)
    ensures r.Success? ==>
      && review in old(t.reviews) && review in t.reviews
      && Writable(old(t.reviews)[review].meta, version) && attribute in Selected(attributes)
      && r.value == old(t.reviews)[review].meta.decisionCount + 1
      && t.reviews[review].decisions == old(t.reviews)[review].decisions[r.value := Decision(decision, attribute, resolving)]
      && t.reviews[review].currents == old(t.reviews)[review].currents[attribute := Current(decision, r.value, resolving)]
      && t.reviews[review].meta.version == version + 1 && t.reviews[review].meta.decisionCount == r.value
    ensures r.Failure? && !fault.LostAcknowledgement? ==> t.reviews == old(t.reviews)
  {
    hide Run, Apply, Resolved, Selected, FirstPage;
    var request := Decide(attribute, resolving, version);
    var read, reading := ReadReview(t, review, request, pages, s, p);
    steps := reading;
    if read.Failure? {
      return Failure(read.error), steps;
    }
    var session := read.value;
    ComputeApplied(Run(s, steps), p, decision, page);
    RunOne(s, steps, Compute(p, decision, page));
    steps := steps + [Compute(p, decision, page)];
    if session.decisionCount >= MAX_DECISIONS {
      return Failure(DecisionLimit), steps;
    }
    if attribute !in session.attributes {
      return Failure(UnknownAttribute), steps;
    }
    var sequence := session.decisionCount + 1;
    var next := FirstPage(t.reviews[review].currents, page)[attribute := Current(decision, sequence, resolving)];
    var required, optional := ResolvedCounts(attributes, next);
    var updated := session.(version := session.version + 1, decisionCount := sequence,
                            requiredResolved := required, optionalResolved := optional);
    t.issued := t.issued + {decision};
    AppendApplied(Run(s, steps), p, fault);
    RunOne(s, steps, Write(p, fault));
    steps := steps + [Write(p, fault)];
    var acknowledged := t.AppendDecision(review, version, sequence, Decision(decision, attribute, resolving), updated, fault);
    return if acknowledged then Success(sequence) else if fault.NoFault? then Failure(VersionConflict) else Failure(Unavailable), steps;
  }

  /** Completes a review whose required attributes are all resolved. */
  method CompleteReview(t: ReviewTable, review: Id, attributes: seq<(string, bool)>, version: int, pages: seq<Page>, page: set<string>,
                        fault: Fault, ghost s: State, ghost p: nat)
    returns (r: Result<Session, ReviewError>, ghost steps: seq<Step>)
    requires At(t, s, p, Idle) && SelectionOf(t, review, attributes)
    modifies t
    ensures t.Show(Run(s, steps)) && (ProcessOf(Run(s, steps), p).Stopped? || ProcessOf(Run(s, steps), p).Inconsistent?)
    ensures r.Success? ==>
      && review in old(t.reviews) && Writable(old(t.reviews)[review].meta, version)
      && Resolved(Selected(attributes), old(t.reviews)[review].currents, true) == |Required(Selected(attributes))|
      && t.reviews == old(t.reviews)[review := old(t.reviews)[review].(meta := r.value)]
      && r.value == old(t.reviews)[review].meta.(status := Completed, version := version + 1)
    ensures r.Failure? && !fault.LostAcknowledgement? ==> t.reviews == old(t.reviews)
  {
    hide Run, Apply, Resolved, Selected, Required, FirstPage;
    var read, reading := ReadReview(t, review, Request.Finish(version), pages, s, p);
    steps := reading;
    if read.Failure? {
      return Failure(read.error), steps;
    }
    var session := read.value;
    ComputeApplied(Run(s, steps), p, 0, page);
    RunOne(s, steps, Compute(p, 0, page));
    steps := steps + [Compute(p, 0, page)];
    var stored := FirstPage(t.reviews[review].currents, page);
    var required, optional := ResolvedCounts(attributes, stored);
    PageResolvesNoMore(Selected(attributes), t.reviews[review].currents, page, true);
    if required != RequiredCount(attributes) || session.requiredResolved != required || session.optionalResolved != optional {
      return Failure(Unresolved), steps;
    }
    CompleteApplied(Run(s, steps), p, fault);
    RunOne(s, steps, Write(p, fault));
    steps := steps + [Write(p, fault)];
    var acknowledged := t.Complete(review, version, fault);
    return if acknowledged then Success(session.(status := Completed, version := version + 1))
           else if fault.NoFault? then Failure(VersionConflict) else Failure(Unavailable), steps;
  }

  /** How many of the selected attributes are required. */
  function RequiredCount(attributes: seq<(string, bool)>): nat {
    |Required(Selected(attributes))|
  }
}
