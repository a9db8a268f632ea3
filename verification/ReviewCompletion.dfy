/**
 When a review can be completed. A caller counts one page of the CURRENT records
 and compares with the stored counts, so a count that was stored too low stands
 in the way of the completion until another decision is made.
 */
module ReviewCompletion {
  import opened ReviewProtocol
  import opened ReviewTheorems

  ghost predicate AllRequiredResolved(part: Partition) {
    forall n :: n in part.meta.attributes && part.meta.attributes[n] ==> n in part.currents && part.currents[n].resolving
  }

  /** The page has the CURRENT records of all required attributes, all of these are resolved, and the
      stored counts are those of the page. */
  ghost predicate Completable(part: Partition, page: set<string>) {
    && AllRequiredResolved(part) && Required(part.meta.attributes) <= page
    && part.meta.requiredResolved == |Required(part.meta.attributes)|
    && part.meta.optionalResolved == Resolved(part.meta.attributes, FirstPage(part.currents, page), false)
  }

  lemma PageCountsAll(part: Partition, page: set<string>)
    ensures Resolved(part.meta.attributes, FirstPage(part.currents, page), true) == |Required(part.meta.attributes)|
       <==> AllRequiredResolved(part) && Required(part.meta.attributes) <= page
  {
    var attributes, seen := part.meta.attributes, FirstPage(part.currents, page);
    SubsetSize(ResolvedNames(attributes, seen, true), Required(attributes));
    if |ResolvedNames(attributes, seen, true)| == |Required(attributes)| {
      AllResolved(attributes, seen);
      assert forall n :: n in Required(attributes) ==> n in seen;
    }
    if AllRequiredResolved(part) && Required(attributes) <= page {
      forall n | n in Required(attributes) ensures n in ResolvedNames(attributes, seen, true) { assert n in page; }
      assert ResolvedNames(attributes, seen, true) == Required(attributes);
    }
  }

  lemma ComputesCompletion(s: State, p: nat, decision: Id, page: set<string>)
    requires var q := ProcessOf(s, p);
      q.Checked? && q.request.Finish? && q.review in s.reviews && s.reviews[q.review].meta == q.session
    ensures var q, s' := ProcessOf(s, p), Apply(s, Compute(p, decision, page));
      && s'.reviews == s.reviews
      && ProcessOf(s', p) == if Completable(s.reviews[q.review], page) then Completing(q.review, q.session) else Stopped
  {
    PageCountsAll(s.reviews[ProcessOf(s, p).review], page);
    hide Resolved, Required, AllRequiredResolved, FirstPage;
  }

  lemma WritesCompletion(s: State, p: nat)
    requires var q := ProcessOf(s, p);
      q.Completing? && q.review in s.reviews && s.reviews[q.review].meta == q.session && q.session.status.Open?
    ensures var q, s' := ProcessOf(s, p), Apply(s, Write(p, NoFault));
      q.review in s'.reviews && s'.reviews[q.review].meta == q.session.(status := Completed, version := q.session.version + 1)
  {
  }

  /** The caller of a completion that has read the review as it still is gets to write it, and
      completes it, exactly if the page and the stored counts allow it. */
  lemma CompletesIff(steps: seq<Step>, p: nat, decision: Id, page: set<string>)
    ensures var s := Run(INITIAL, steps);
      var q, s' := ProcessOf(s, p), Apply(s, Compute(p, decision, page));
      q.Checked? && q.request.Finish? && q.review in s.reviews && s.reviews[q.review].meta.version == q.session.version ==>
        && (ProcessOf(s', p).Completing? <==> Completable(s.reviews[q.review], page))
        && var after := Apply(s', Write(p, NoFault));
           q.review in after.reviews
           && (after.reviews[q.review].meta.status.Completed? <==> Completable(s.reviews[q.review], page))
  {
    hide Run, Completable, GoodReview;
    Reached(steps);
    var s := Run(INITIAL, steps);
    var q := ProcessOf(s, p);
    if q.Checked? && q.request.Finish? && q.review in s.reviews && s.reviews[q.review].meta.version == q.session.version {
      assert ProcessInv(s, q);
      ComputesCompletion(s, p, decision, page);
      if Completable(s.reviews[q.review], page) { WritesCompletion(Apply(s, Compute(p, decision, page)), p); }
    }
  }

  // ----- without another decision ----------------------------------------------------------------------

  lemma {:induction false} CountsStay(s: State, more: seq<Step>, review: Id)
    requires Inv(s) && review in s.reviews
    ensures var s' := Run(s, more);
      && review in s'.reviews && s'.reviews[review].meta.attributes == s.reviews[review].meta.attributes
      && s'.reviews[review].meta.decisionCount >= s.reviews[review].meta.decisionCount
      && (s'.reviews[review].meta.decisionCount == s.reviews[review].meta.decisionCount ==>
            s'.reviews[review].meta.requiredResolved == s.reviews[review].meta.requiredResolved)
    decreases |more|
  {
    hide Inv, Apply;
    if more != [] {
      StepKeeps(s, more[0]);
      CountsStay(Apply(s, more[0]), more[1..], review);
    }
  }

  /** Some run from here completes the review, with no further decision in it. */
  ghost predicate CanComplete(s: State, review: Id) {
    exists more :: CompletedBy(s, more, review)
  }

  ghost predicate CompletedBy(s: State, more: seq<Step>, review: Id) {
    var s' := Run(s, more);
    && review in s.reviews && review in s'.reviews && s'.reviews[review].meta.status.Completed?
    && s'.reviews[review].meta.decisionCount == s.reviews[review].meta.decisionCount
  }

  lemma CompletedNeedsCount(s: State, more: seq<Step>, review: Id)
    requires Inv(s) && CompletedBy(s, more, review)
    ensures s.reviews[review].meta.requiredResolved == |Required(s.reviews[review].meta.attributes)|
  {
    hide ProcessInv, Run, Required, Resolved;
    RunKeeps(s, more);
    assert GoodReview(Run(s, more).reviews[review], Run(s, more).issued);
    CountsStay(s, more, review);
  }

  lemma {:induction false} SomeOfSize<T>(s: set<T>, n: nat) returns (t: set<T>)
    requires n <= |s|
    ensures t <= s && |t| == n
  {
    if n == |s| {
      t := s;
    } else {
      var x :| x in s;
      t := SomeOfSize(s - {x}, n);
    }
  }

  lemma {:induction false} AboveAll(s: set<nat>) returns (m: nat)
    ensures forall x :: x in s ==> x < m
  {
    if s == {} {
      m := 0;
    } else {
      var x :| x in s;
      var k := AboveAll(s - {x});
      m := if x < k then k else x + 1;
      forall y | y in s ensures y < m { assert y == x || y in s - {x}; }
    }
  }

  /** A page on which the stored counts are found. */
  lemma SomePage(part: Partition, issued: set<Id>) returns (page: set<string>)
    requires GoodReview(part, issued) && part.meta.requiredResolved == |Required(part.meta.attributes)|
    ensures Completable(part, page)
  {
    var attributes, currents := part.meta.attributes, part.currents;
    PageResolvesNoMore(attributes, currents, {}, true);
    AllResolved(attributes, currents);
    var optional := SomeOfSize(ResolvedNames(attributes, currents, false), part.meta.optionalResolved);
    page := Required(attributes) + optional;
    assert ResolvedNames(attributes, FirstPage(currents, page), false) == optional;
  }

  /** A whole read by a new caller, between nobody's commits. */
  function ReadSteps(p: nat, review: Id, request: Request, names: set<string>): seq<Step> {
    [Begin(p, review, request), ReadCurrents(p, names), ReadRest(p)]
  }

  lemma ReadTaken(s: State, p: nat, review: Id, request: Request, names: set<string>, rest: seq<Step>)
    requires Inv(s) && p !in s.processes && review in s.reviews && Writable(s.reviews[review].meta, request.version)
    ensures Run(s, ReadSteps(p, review, request, names) + rest) == Run(At(s, p, Checked(review, s.reviews[review].meta, request)), rest)
  {
    var all := ReadSteps(p, review, request, names) + rest;
    var s1 := Apply(s, all[0]);
    var s2 := Apply(s1, all[1..][0]);
    var s3 := Apply(s2, all[1..][1..][0]);
    assert all[1..][1..][1..] == rest;
    ReadEnds(s, p, review, request, names);
    hide Inv, Apply;
    assert all[0] == Begin(p, review, request) && all[1..][0] == ReadCurrents(p, names) && all[1..][1..][0] == ReadRest(p);
    assert Run(s, all) == Run(s1, all[1..]) == Run(s2, all[1..][1..]) == Run(s3, rest);
  }

  lemma ReadEnds(s: State, p: nat, review: Id, request: Request, names: set<string>)
    requires Inv(s) && p !in s.processes && review in s.reviews && Writable(s.reviews[review].meta, request.version)
    ensures Apply(Apply(Apply(s, Begin(p, review, request)), ReadCurrents(p, names)), ReadRest(p))
            == At(s, p, Checked(review, s.reviews[review].meta, request))
  {
    var currents := s.reviews[review].currents;
    var seen := map n | n in names && n in currents :: currents[n];
    var q1, q2 := Reading(review, request, map[], map[], 1), Reading(review, request, seen, map[], 1);
    ReadBegins(s, p, review, request, names, seen);
    StepKeeps(s, Begin(p, review, request));
    StepKeeps(At(s, p, q1), ReadCurrents(p, names));
    hide Apply;
    ReadRests(s, p, review, request, seen);
  }

  lemma ReadBegins(s: State, p: nat, review: Id, request: Request, names: set<string>, seen: map<string, Current>)
    requires p !in s.processes && review in s.reviews
    requires seen == map n | n in names && n in s.reviews[review].currents :: s.reviews[review].currents[n]
    ensures var q1, q2 := Reading(review, request, map[], map[], 1), Reading(review, request, seen, map[], 1);
      && Apply(s, Begin(p, review, request)) == At(s, p, q1)
      && Apply(At(s, p, q1), ReadCurrents(p, names)) == At(s, p, q2)
  {
    var q1, q2 := Reading(review, request, map[], map[], 1), Reading(review, request, seen, map[], 1);
    assert map[] + seen == seen;
    assert s.processes[p := q1][p := q2] == s.processes[p := q2];
  }

  lemma ReadRests(s: State, p: nat, review: Id, request: Request, seen: map<string, Current>)
    requires Inv(At(s, p, Reading(review, request, seen, map[], 1)))
    requires review in s.reviews && Writable(s.reviews[review].meta, request.version)
    ensures Apply(At(s, p, Reading(review, request, seen, map[], 1)), ReadRest(p))
            == At(s, p, Checked(review, s.reviews[review].meta, request))
  {
    var q, checked := Reading(review, request, seen, map[], 1), Checked(review, s.reviews[review].meta, request);
    var now := At(s, p, q);
    assert ProcessInv(now, q) by { assert now.processes[p] == q; }
    assert GoodReview(now.reviews[review], now.issued);
    hide Inv, GoodReview, ProcessInv;
    ReadIsConsistent(now, q);
    hide Consistent;
    assert s.processes[p := q][p := checked] == s.processes[p := checked];
    assert Apply(now, ReadRest(p)) == ReadRestOf(now, p, q);
  }

  lemma CompletionRuns(s: State, review: Id, p: nat)
    requires Inv(s) && p !in s.processes && review in s.reviews && s.reviews[review].meta.status.Open?
    requires s.reviews[review].meta.requiredResolved == |Required(s.reviews[review].meta.attributes)|
    ensures CanComplete(s, review)
  {
    var part := s.reviews[review];
    GoodIn(s, review);
    hide Inv, GoodReview, Completable, Required, Run;
    var page := SomePage(part, s.issued);
    var request, rest := Finish(part.meta.version), [Compute(p, 0, page), Write(p, NoFault)];
    var more := ReadSteps(p, review, request, part.currents.Keys) + rest;
    ReadTaken(s, p, review, request, part.currents.Keys, rest);
    var s1 := At(s, p, Checked(review, part.meta, request));
    ComputesCompletion(s1, p, 0, page);
    var s2 := Apply(s1, Compute(p, 0, page));
    WritesCompletion(s2, p);
    hide Apply;
    TwoSteps(s1, Compute(p, 0, page), Write(p, NoFault));
    assert CompletedBy(s, more, review);
  }

  /** An open review can be completed without another decision exactly if its stored required count
      is the number of its required attributes, whatever its CURRENT records are. */
  lemma CanCompleteIff(steps: seq<Step>, review: Id)
    ensures var s := Run(INITIAL, steps);
      review in s.reviews && s.reviews[review].meta.status.Open? ==>
        (CanComplete(s, review) <==> s.reviews[review].meta.requiredResolved == |Required(s.reviews[review].meta.attributes)|)
  {
    hide Run, Inv, Required;
    Reached(steps);
    var s := Run(INITIAL, steps);
    if review in s.reviews && s.reviews[review].meta.status.Open? {
      if more :| CompletedBy(s, more, review) { CompletedNeedsCount(s, more, review); }
      if s.reviews[review].meta.requiredResolved == |Required(s.reviews[review].meta.attributes)| {
        var p := AboveAll(s.processes.Keys);
        CompletionRuns(s, review, p);
      }
    }
  }

  // ----- a count that was stored too low --------------------------------------------------------------------

  function DecisionSteps(p: nat, review: Id, name: string, version: int, d: Id, names: set<string>): seq<Step> {
    ReadSteps(p, review, Decide(name, true, version), names) + [Compute(p, d, {}), Write(p, NoFault)]
  }

  /** A decision by a new caller, whose query for the current decisions answers an empty page. */
  lemma DecisionTaken(s: State, p: nat, review: Id, name: string, d: Id, names: set<string>)
    requires Inv(s) && p !in s.processes && review in s.reviews && s.reviews[review].meta.status.Open?
    requires name in s.reviews[review].meta.attributes && s.reviews[review].meta.attributes[name]
    requires s.reviews[review].meta.decisionCount < MAX_DECISIONS && d !in s.issued
    ensures var part, s' := s.reviews[review], Run(s, DecisionSteps(p, review, name, s.reviews[review].meta.version, d, names));
      && Inv(s') && s'.processes == s.processes[p := Stopped] && s'.issued == s.issued + {d} && review in s'.reviews
      && s'.reviews[review].currents == part.currents[name := Current(d, part.meta.decisionCount + 1, true)]
      && s'.reviews[review].meta == part.meta.(version := part.meta.version + 1, decisionCount := part.meta.decisionCount + 1,
                                               requiredResolved := 1, optionalResolved := 0)
  {
    var part := s.reviews[review];
    var request, rest := Decide(name, true, part.meta.version), [Compute(p, d, {}), Write(p, NoFault)];
    GoodIn(s, review);
    hide Inv, Apply, GoodReview, ReadSteps, Run;
    RunKeeps(s, DecisionSteps(p, review, name, part.meta.version, d, names));
    ReadTaken(s, p, review, request, names, rest);
    NextIsFree(part, s.issued);
    DecisionEnds(s, p, review, name, d);
    var s1 := At(s, p, Checked(review, part.meta, request));
    TwoSteps(s1, Compute(p, d, {}), Write(p, NoFault));
  }

  lemma GoodIn(s: State, review: Id)
    requires Inv(s) && review in s.reviews
    ensures GoodReview(s.reviews[review], s.issued)
  {
  }

  lemma TwoSteps(s: State, first: Step, second: Step)
    ensures Run(s, [first, second]) == Apply(Apply(s, first), second)
  {
    hide Apply;
    var steps, next := [first, second], Apply(s, first);
    assert steps[0] == first && steps[1..] == [second] && [second][0] == second && [second][1..] == [];
    assert Run(s, steps) == Run(next, [second]) == Run(Apply(next, second), []);
  }

  lemma NextIsFree(part: Partition, issued: set<Id>)
    ensures GoodReview(part, issued) ==> part.meta.decisionCount + 1 !in part.decisions
  {
  }

  lemma OnlyOneCounted(attributes: map<string, bool>, currents: map<string, Current>, name: string, current: Current)
    requires name in attributes && attributes[name] && current.resolving
    ensures var seen := FirstPage(currents, {})[name := current];
      Resolved(attributes, seen, true) == 1 && Resolved(attributes, seen, false) == 0
  {
    var seen := FirstPage(currents, {})[name := current];
    assert ResolvedNames(attributes, seen, true) == {name} && ResolvedNames(attributes, seen, false) == {};
  }

  lemma DecisionEnds(s: State, p: nat, review: Id, name: string, d: Id)
    requires review in s.reviews && s.reviews[review].meta.status.Open?
    requires name in s.reviews[review].meta.attributes && s.reviews[review].meta.attributes[name]
    requires s.reviews[review].meta.decisionCount < MAX_DECISIONS && d !in s.issued
    requires s.reviews[review].meta.decisionCount + 1 !in s.reviews[review].decisions
    ensures var part := s.reviews[review];
      var s1 := At(s, p, Checked(review, part.meta, Decide(name, true, part.meta.version)));
      var s' := Apply(Apply(s1, Compute(p, d, {})), Write(p, NoFault));
      && s'.processes == s.processes[p := Stopped] && s'.issued == s.issued + {d} && review in s'.reviews
      && s'.reviews[review].currents == part.currents[name := Current(d, part.meta.decisionCount + 1, true)]
      && s'.reviews[review].meta == part.meta.(version := part.meta.version + 1, decisionCount := part.meta.decisionCount + 1,
                                               requiredResolved := 1, optionalResolved := 0)
  {
    var part := s.reviews[review];
    OnlyOneCounted(part.meta.attributes, part.currents, name, Current(d, part.meta.decisionCount + 1, true));
    hide Resolved, FirstPage, Required;
  }

  /** Two required attributes, both decided, each by a caller whose page held no CURRENT record. */
  function TwoDecisions(review: Id, selection: Id, a: string, b: string, d: Id, e: Id): seq<Step> {
    [Create(review, selection, map[a := true, b := true], NoFault)]
    + (DecisionSteps(0, review, a, 1, d, {}) + DecisionSteps(1, review, b, 2, e, {a}))
  }

  lemma {:induction false} RunAppends(s: State, steps: seq<Step>, more: seq<Step>)
    ensures Run(s, steps + more) == Run(Run(s, steps), more)
    decreases |steps|
  {
    hide Apply;
    if steps == [] {
      assert steps + more == more;
    } else {
      assert (steps + more)[1..] == steps[1..] + more;
      RunAppends(Apply(s, steps[0]), steps[1..], more);
    }
  }

  /** Then all required attributes are resolved, and the review cannot be completed. */
  lemma LowCountBlocks(review: Id, selection: Id, a: string, b: string, d: Id, e: Id)
    requires a != b && d != e
    ensures var s := Run(INITIAL, TwoDecisions(review, selection, a, b, d, e));
      && review in s.reviews && s.reviews[review].meta.status.Open? && AllRequiredResolved(s.reviews[review])
      && s.reviews[review].meta.requiredResolved < Resolved(s.reviews[review].meta.attributes, s.reviews[review].currents, true)
      && !CanComplete(s, review)
  {
    hide Apply, Inv, DecisionSteps, CanComplete, AllRequiredResolved;
    var steps, attributes := TwoDecisions(review, selection, a, b, d, e), map[a := true, b := true];
    var created := Apply(INITIAL, steps[0]);
    var first, second := DecisionSteps(0, review, a, 1, d, {}), DecisionSteps(1, review, b, 2, e, {a});
    assert steps[1..] == first + second;
    CreatedReview(review, selection, attributes);
    StepKeeps(INITIAL, steps[0]);
    RunAppends(created, first, second);
    DecisionTaken(created, 0, review, a, d, {});
    DecisionTaken(Run(created, first), 1, review, b, e, {a});
    var s := Run(INITIAL, steps);
    assert s == Run(Run(created, first), second);
    hide Run, TwoDecisions;
    BothResolved(s.reviews[review], a, b);
    CanCompleteIff(steps, review);
  }

  lemma BothResolved(part: Partition, a: string, b: string)
    requires a != b && part.meta.attributes == map[a := true, b := true]
    requires a in part.currents && b in part.currents && part.currents[a].resolving && part.currents[b].resolving
    ensures AllRequiredResolved(part)
    ensures |Required(part.meta.attributes)| == Resolved(part.meta.attributes, part.currents, true) == 2
  {
    var attributes := part.meta.attributes;
    assert Required(attributes) == {a, b} == ResolvedNames(attributes, part.currents, true);
    assert |{a, b}| == 2;
  }

  lemma CreatedReview(review: Id, selection: Id, attributes: map<string, bool>)
    ensures var s := Apply(INITIAL, Create(review, selection, attributes, NoFault));
      && s.processes == map[] && s.issued == {} && review in s.reviews && Inv(INITIAL)
      && s.reviews[review] == Partition(Session(selection, attributes, Open, 1, 0, 0, 0), map[], map[])
  {
  }
}
