/** What holds however reviewers race. */
module ReviewTheorems {
  import opened ReviewProtocol

  lemma Reached(steps: seq<Step>)
    ensures Inv(Run(INITIAL, steps))
  {
    RunKeeps(INITIAL, steps);
  }

  /** Every CURRENT record names an existing decision on its attribute, with the same sequence
      number and the same effect; and the decisions are numbered from one without a gap. */
  lemma CurrentNamesItsDecision(steps: seq<Step>, review: Id)
    ensures var s := Run(INITIAL, steps);
      review in s.reviews ==>
        var part := s.reviews[review];
        && (forall i :: i in part.decisions <==> 1 <= i <= part.meta.decisionCount)
        && (forall n :: n in part.currents ==>
              && part.currents[n].sequence in part.decisions
              && part.decisions[part.currents[n].sequence] == Decision(part.currents[n].decision, n, part.currents[n].resolving))
  {
    hide Run, ProcessInv, Resolved;
    Reached(steps);
    var s := Run(INITIAL, steps);
    assert review in s.reviews ==> GoodReview(s.reviews[review], s.issued);
  }

  /** The version counts the writes: one for each decision and one for the completion. */
  lemma VersionCountsWrites(steps: seq<Step>, review: Id)
    ensures var s := Run(INITIAL, steps);
      review in s.reviews ==>
        var meta := s.reviews[review].meta;
        meta.version == 1 + |s.reviews[review].decisions| + (if meta.status.Completed? then 1 else 0)
  {
    hide Run, ProcessInv, Resolved;
    Reached(steps);
    var s := Run(INITIAL, steps);
    if review in s.reviews {
      assert GoodReview(s.reviews[review], s.issued);
      hide GoodReview;
      CountNumbered(s.reviews[review].decisions, s.reviews[review].meta.decisionCount);
    }
  }

  lemma {:induction false} CountNumbered<T>(m: map<nat, T>, n: nat)
    requires forall i :: i in m <==> 1 <= i <= n
    ensures |m| == n
  {
    if n == 0 {
      assert m == map[];
    } else {
      var rest := m - {n};
      CountNumbered(rest, n - 1);
      assert m == rest[n := m[n]];
    }
  }

  /** The stored counts are never above those of the CURRENT records, and a completed review has every
      required attribute resolved, though only one page of the CURRENT records is ever counted. */
  lemma CompletedIsResolved(steps: seq<Step>, review: Id)
    ensures var s := Run(INITIAL, steps);
      review in s.reviews ==>
        var part := s.reviews[review];
        && part.meta.requiredResolved <= Resolved(part.meta.attributes, part.currents, true)
        && part.meta.optionalResolved <= Resolved(part.meta.attributes, part.currents, false)
        && (part.meta.status.Completed? ==>
              forall n :: n in part.meta.attributes && part.meta.attributes[n] ==> n in part.currents && part.currents[n].resolving)
  {
    hide Run, ProcessInv, Resolved, FirstPage;
    Reached(steps);
    var s := Run(INITIAL, steps);
    if review in s.reviews {
      var part := s.reviews[review];
      assert GoodReview(part, s.issued);
      hide Inv, GoodReview;
      PageResolvesNoMore(part.meta.attributes, part.currents, {}, true);
      if part.meta.status.Completed? { AllResolved(part.meta.attributes, part.currents); }
    }
  }

  lemma AllResolved(attributes: map<string, bool>, currents: map<string, Current>)
    requires Resolved(attributes, currents, true) == |Required(attributes)|
    ensures forall n :: n in attributes && attributes[n] ==> n in currents && currents[n].resolving
  {
    SubsetSize(ResolvedNames(attributes, currents, true), Required(attributes));
    forall n | n in attributes && attributes[n] ensures n in currents && currents[n].resolving {
      assert n in Required(attributes);
    }
  }

  /** The page holds every CURRENT record that resolves a selected attribute, but that of the decision. */
  ghost predicate Covers(page: set<string>, attributes: map<string, bool>, currents: map<string, Current>, decided: string) {
    forall n :: n in currents && currents[n].resolving && n in attributes && n != decided ==> n in page
  }

  lemma CountsIffCovered(attributes: map<string, bool>, currents: map<string, Current>, page: set<string>, name: string, current: Current)
    ensures var some, all := FirstPage(currents, page)[name := current], currents[name := current];
      (Resolved(attributes, some, true) == Resolved(attributes, all, true)
       && Resolved(attributes, some, false) == Resolved(attributes, all, false)) <==> Covers(page, attributes, currents, name)
  {
    var some, all := FirstPage(currents, page)[name := current], currents[name := current];
    SubsetSize(ResolvedNames(attributes, some, true), ResolvedNames(attributes, all, true));
    SubsetSize(ResolvedNames(attributes, some, false), ResolvedNames(attributes, all, false));
    if ResolvedNames(attributes, some, true) == ResolvedNames(attributes, all, true)
       && ResolvedNames(attributes, some, false) == ResolvedNames(attributes, all, false) {
      forall n | n in currents && currents[n].resolving && n in attributes && n != name ensures n in page {
        assert n in ResolvedNames(attributes, all, attributes[n]);
        assert n in ResolvedNames(attributes, some, attributes[n]);
      }
    }
    if Covers(page, attributes, currents, name) {
      assert ResolvedNames(attributes, some, true) == ResolvedNames(attributes, all, true);
      assert ResolvedNames(attributes, some, false) == ResolvedNames(attributes, all, false);
    }
  }

  /** A decision that is stored leaves the counts of the CURRENT records exactly if the page it was
      prepared from holds every other one of them that resolves a selected attribute. */
  lemma CountsAreExactIff(steps: seq<Step>, p: nat, fault: Fault)
    ensures var s := Run(INITIAL, steps);
      var q, s' := ProcessOf(s, p), Apply(s, Write(p, fault));
      q.Appending? && s'.reviews != s.reviews ==>
        && q.review in s.reviews && q.review in s'.reviews
        && var part := s'.reviews[q.review];
           (part.meta.requiredResolved == Resolved(part.meta.attributes, part.currents, true)
            && part.meta.optionalResolved == Resolved(part.meta.attributes, part.currents, false))
           <==> Covers(q.page, part.meta.attributes, s.reviews[q.review].currents, q.decision.attribute)
  {
    hide Run, Resolved, FirstPage, GoodReview, Covers;
    Reached(steps);
    var s := Run(INITIAL, steps);
    var q := ProcessOf(s, p);
    if q.Appending? && Apply(s, Write(p, fault)).reviews != s.reviews {
      assert ProcessInv(s, q);
      var before, d := s.reviews[q.review], q.decision;
      CountsIffCovered(before.meta.attributes, before.currents, q.page, d.attribute,
                       Current(d.id, q.session.decisionCount + 1, d.resolving));
    }
  }

  /** However a read is paged between other reviewers' commits, it never finds a CURRENT record
      without its decision. */
  lemma ReadsAreConsistent(steps: seq<Step>, p: nat)
    ensures !ProcessOf(Run(INITIAL, steps), p).Inconsistent?
  {
    hide Run, GoodReview;
    Reached(steps);
    var s := Run(INITIAL, steps);
    if p in s.processes { assert ProcessInv(s, s.processes[p]); }
  }

  /** Every change of a review raises its version by exactly one, whoever makes it. */
  lemma EachWriteRaisesOnce(steps: seq<Step>, step: Step, review: Id)
    ensures var s := Run(INITIAL, steps);
      review in s.reviews ==>
        var s' := Apply(s, step);
        && review in s'.reviews
        && (s'.reviews[review] != s.reviews[review] <==> s'.reviews[review].meta.version == s.reviews[review].meta.version + 1)
        && (s'.reviews[review] == s.reviews[review] || s'.reviews[review].meta.version == s.reviews[review].meta.version + 1)
  {
    hide Run, Inv, Apply;
    Reached(steps);
    StepKeeps(Run(INITIAL, steps), step);
  }

  /** A decision or completion prepared at an older version changes nothing. */
  lemma StaleWriteIsRefused(s: State, p: nat, fault: Fault)
    requires var q := ProcessOf(s, p);
      (q.Appending? || q.Completing?) && q.review in s.reviews && s.reviews[q.review].meta.version != q.session.version
    ensures Apply(s, Write(p, fault)).reviews == s.reviews
  {
  }

  lemma {:induction false} VersionRises(s: State, more: seq<Step>, review: Id)
    requires Inv(s) && review in s.reviews
    ensures var s' := Run(s, more);
      review in s'.reviews
      && (s'.reviews[review] == s.reviews[review] || s'.reviews[review].meta.version > s.reviews[review].meta.version)
    decreases |more|
  {
    hide Inv, Apply;
    if more != [] {
      StepKeeps(s, more[0]);
      VersionRises(Apply(s, more[0]), more[1..], review);
    }
  }

  /** The step is another caller's. */
  predicate Others(step: Step, p: nat) { step.Create? || step.p != p }

  lemma OtherLeavesAlone(s: State, step: Step, p: nat)
    requires Others(step, p)
    ensures ProcessOf(Apply(s, step), p) == ProcessOf(s, p)
  {
    hide Consistent, Resolved, Required, FirstPage;
  }

  lemma {:induction false} OthersLeaveAlone(s: State, more: seq<Step>, p: nat)
    requires forall i :: 0 <= i < |more| ==> Others(more[i], p)
    ensures ProcessOf(Run(s, more), p) == ProcessOf(s, p)
    decreases |more|
  {
    hide Apply, Others;
    if more != [] {
      OtherLeavesAlone(s, more[0], p);
      OthersLeaveAlone(Apply(s, more[0]), more[1..], p);
    }
  }

  /** Of writers that prepared at the same time the first wins: once anybody has changed the review,
      whatever another caller had prepared before changes nothing. */
  lemma FirstWriterWins(steps: seq<Step>, more: seq<Step>, p: nat, fault: Fault)
    requires forall i :: 0 <= i < |more| ==> Others(more[i], p)
    ensures var s, s' := Run(INITIAL, steps), Run(Run(INITIAL, steps), more);
      var q := ProcessOf(s, p);
      q.Appending? || q.Completing? ==>
        && q.review in s.reviews && q.review in s'.reviews
        && (s'.reviews[q.review] != s.reviews[q.review] ==> Apply(s', Write(p, fault)).reviews == s'.reviews)
  {
    hide Run, GoodReview, Apply, Resolved, FirstPage;
    Reached(steps);
    var s := Run(INITIAL, steps);
    var q := ProcessOf(s, p);
    if q.Appending? || q.Completing? {
      assert ProcessInv(s, q);
      VersionRises(s, more, q.review);
      OthersLeaveAlone(s, more, p);
      var s' := Run(s, more);
      if s'.reviews[q.review] != s.reviews[q.review] { StaleWriteIsRefused(s', p, fault); }
    }
  }

  /** Later states of a review: its history only grows, and nothing follows its completion. */
  ghost predicate Later(before: Partition, after: Partition) {
    && after.meta.version >= before.meta.version && after.meta.decisionCount >= before.meta.decisionCount
    && (forall i :: 1 <= i <= before.meta.decisionCount && i in before.decisions ==>
          i in after.decisions && after.decisions[i] == before.decisions[i])
    && (before.meta.status.Completed? ==> after == before)
  }

  lemma {:induction false} HistoryIsAppendOnly(s: State, steps: seq<Step>, review: Id)
    requires Inv(s) && review in s.reviews
    ensures var s' := Run(s, steps);
      review in s'.reviews && Later(s.reviews[review], s'.reviews[review])
    decreases |steps|
  {
    hide Inv, Apply;
    if steps != [] {
      StepKeeps(s, steps[0]);
      HistoryIsAppendOnly(Apply(s, steps[0]), steps[1..], review);
    }
  }

  /** What was decided stays decided, and a completed review stays as it is, whatever runs later. */
  lemma DecisionsAreForever(steps: seq<Step>, more: seq<Step>, review: Id, sequence: nat)
    ensures var before, after := Run(INITIAL, steps), Run(Run(INITIAL, steps), more);
      review in before.reviews ==>
        && review in after.reviews
        && (sequence in before.reviews[review].decisions ==>
              sequence in after.reviews[review].decisions
              && after.reviews[review].decisions[sequence] == before.reviews[review].decisions[sequence])
        && (before.reviews[review].meta.status.Completed? ==> after.reviews[review] == before.reviews[review])
  {
    hide Run, ProcessInv, Resolved;
    Reached(steps);
    var s := Run(INITIAL, steps);
    if review in s.reviews {
      assert GoodReview(s.reviews[review], s.issued);
      HistoryIsAppendOnly(s, more, review);
    }
  }
}
