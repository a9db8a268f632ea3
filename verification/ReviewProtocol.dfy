/**
 Product reviews as a state machine: racing reviewers read a review page by
 page, decide or complete it, and write with the version they read. A
 decision's contents are its identifier, its attribute and whether it resolves
 the attribute.
 */
module ReviewProtocol {

  type Id = nat

  datatype Status = Open | Completed

  /** The META record; `attributes` says of each selected attribute whether it is required. */
  datatype Session = Session(
    selection: Id, attributes: map<string, bool>, status: Status, version: int, decisionCount: nat,
    requiredResolved: nat, optionalResolved: nat)

  datatype Decision = Decision(id: Id, attribute: string, resolving: bool)

  /** The CURRENT record of an attribute names the decision that counts. */
  datatype Current = Current(decision: Id, sequence: nat, resolving: bool)

  /** All records of one review: META, DECISION# by sequence number, CURRENT# by attribute. */
  datatype Partition = Partition(meta: Session, decisions: map<nat, Decision>, currents: map<string, Current>)

  datatype Fault = NoFault | NotApplied | LostAcknowledgement

  datatype Request = Decide(attribute: string, resolving: bool, version: int) | Finish(version: int)

  datatype Process =
    | Idle
    | Reading(review: Id, request: Request, currents: map<string, Current>, decisions: map<nat, Decision>, next: nat)
    | Checked(review: Id, session: Session, request: Request)   // read and found open at the requested version
    | Appending(review: Id, session: Session, decision: Decision, page: set<string>, updated: Session)
    | Completing(review: Id, session: Session)
    | Inconsistent                                              // the read found a CURRENT record without its decision
    | Stopped

  /** `issued` remembers which decision identifiers exist: a new one is never among them. */
  datatype State = State(
    reviews: map<Id, Partition>, guards: map<Id, Id>, issued: set<Id>, processes: map<nat, Process>)

  datatype Step =
    | Create(review: Id, selection: Id, selected: map<string, bool>, fault: Fault)
    | Begin(p: nat, review: Id, request: Request)
    | ReadCurrents(p: nat, attributes: set<string>)
    | ReadDecisions(p: nat, count: nat)
    | ReadRest(p: nat)
    | Compute(p: nat, decision: Id, page: set<string>)
    | Write(p: nat, fault: Fault)

  const MAX_DECISIONS := 1_000

  function ProcessOf(s: State, p: nat): Process { if p in s.processes then s.processes[p] else Idle }

  function At(s: State, p: nat, q: Process): State { s.(processes := s.processes[p := q]) }

  // ----- counting resolved attributes -------------------------------------------------------------

  function ResolvedNames(attributes: map<string, bool>, currents: map<string, Current>, required: bool): set<string> {
    set n | n in attributes && attributes[n] == required && n in currents && currents[n].resolving
  }

  function Required(attributes: map<string, bool>): set<string> { set n | n in attributes && attributes[n] }

  function Resolved(attributes: map<string, bool>, currents: map<string, Current>, required: bool): nat {
    |ResolvedNames(attributes, currents, required)|
  }

  /** What one query answers of the CURRENT records: those on its first page, whichever they are. */
  function FirstPage(currents: map<string, Current>, page: set<string>): map<string, Current> {
    map n | n in currents && n in page :: currents[n]
  }

  // ----- the requests ---------------------------------------------------------------------------------

  function CreateOf(s: State, review: Id, selection: Id, attributes: map<string, bool>, fault: Fault): State {
    if fault.NotApplied? || review in s.reviews || selection in s.guards then s
    else s.(reviews := s.reviews[review := Partition(Session(selection, attributes, Open, 1, 0, 0, 0), map[], map[])],
            guards := s.guards[selection := review])
  }

  /** A page of CURRENT# records, which sort before all others. */
  function ReadCurrentsOf(s: State, p: nat, q: Process, attributes: set<string>): State
    requires q.Reading? && q.review in s.reviews
  {
    var currents := s.reviews[q.review].currents;
    At(s, p, q.(currents := q.currents + map n | n in attributes && n in currents :: currents[n]))
  }

  /** A page of DECISION# records: the next of them, in the order of their sequence numbers. */
  function ReadDecisionsOf(s: State, p: nat, q: Process, count: nat): State
    requires q.Reading? && q.review in s.reviews
  {
    var part := s.reviews[q.review];
    var upto := if q.next + count <= part.meta.decisionCount + 1 then q.next + count else part.meta.decisionCount + 1;
    At(s, p, q.(decisions := q.decisions + map i | q.next <= i < upto && i in part.decisions :: part.decisions[i],
                next := if q.next <= upto then upto else q.next))
  }

  predicate Names(decisions: map<nat, Decision>, c: Current) {
    exists i :: i in decisions && decisions[i].id == c.decision && i == c.sequence
  }

  predicate Consistent(currents: map<string, Current>, decisions: map<nat, Decision>) {
    forall n :: n in currents ==> Names(decisions, currents[n])
  }

  predicate Writable(session: Session, version: int) { session.status.Open? && session.version == version }

  /** The last page: the rest of the decisions, and META, which sorts after them. */
  function ReadRestOf(s: State, p: nat, q: Process): State
    requires q.Reading? && q.review in s.reviews
  {
    var part := s.reviews[q.review];
    var decisions := q.decisions + map i | i in part.decisions && i >= q.next :: part.decisions[i];
    At(s, p,
       if !Consistent(q.currents, decisions) then Inconsistent
       else if !Writable(part.meta, q.request.version) then Stopped
       else Checked(q.review, part.meta, q.request))
  }

  /** Reads the current decisions, of which it gets the first page only, and prepares the write. */
  function ComputeOf(s: State, p: nat, q: Process, decision: Id, page: set<string>): State
    requires q.Checked? && q.review in s.reviews
  {
    var session, stored := q.session, FirstPage(s.reviews[q.review].currents, page);
    match q.request
    case Finish(_) =>
      var required, optional := Resolved(session.attributes, stored, true), Resolved(session.attributes, stored, false);
      At(s, p,
         if required != |Required(session.attributes)| || session.requiredResolved != required
            || session.optionalResolved != optional then Stopped
         else Completing(q.review, session))
    case Decide(attribute, resolving, _) =>
      if session.decisionCount >= MAX_DECISIONS || attribute !in session.attributes || decision in s.issued then At(s, p, Stopped)
      else
        var next := stored[attribute := Current(decision, session.decisionCount + 1, resolving)];
        var updated := session.(version := session.version + 1, decisionCount := session.decisionCount + 1,
                                requiredResolved := Resolved(session.attributes, next, true),
                                optionalResolved := Resolved(session.attributes, next, false));
        At(s.(issued := s.issued + {decision}), p, Appending(q.review, session, Decision(decision, attribute, resolving), page, updated))
  }

  /** One transaction: the decision, which must be new, its CURRENT record, and META under its version. */
  function AppendOf(s: State, p: nat, q: Process, fault: Fault): State
    requires q.Appending?
  {
    var d, sequence := q.decision, q.session.decisionCount + 1;
    var holds := q.review in s.reviews
                 && Writable(s.reviews[q.review].meta, q.session.version) && sequence !in s.reviews[q.review].decisions;
    if !holds || fault.NotApplied? then At(s, p, Stopped)
    else
      var part := s.reviews[q.review];
      var meta := part.meta.(version := q.updated.version, decisionCount := q.updated.decisionCount,
                             requiredResolved := q.updated.requiredResolved, optionalResolved := q.updated.optionalResolved);
      At(s.(reviews := s.reviews[q.review := Partition(
             meta, part.decisions[sequence := d], part.currents[d.attribute := Current(d.id, sequence, d.resolving)])]),
         p, Stopped)
  }

  function CompleteOf(s: State, p: nat, q: Process, fault: Fault): State
    requires q.Completing?
  {
    if q.review !in s.reviews || !Writable(s.reviews[q.review].meta, q.session.version) || fault.NotApplied? then At(s, p, Stopped)
    else
      var part := s.reviews[q.review];
      At(s.(reviews := s.reviews[q.review := part.(meta := part.meta.(status := Completed, version := q.session.version + 1))]),
         p, Stopped)
  }

  /** A step that its process is not ready for changes nothing. */
  function Apply(s: State, step: Step): State {
    match step
    case Create(review, selection, selected, fault) => CreateOf(s, review, selection, selected, fault)
    case Begin(p, review, request) =>
      if ProcessOf(s, p).Idle? then At(s, p, if review in s.reviews then Reading(review, request, map[], map[], 1) else Stopped) else s
    case ReadCurrents(p, attributes) =>
      var q := ProcessOf(s, p);
      if q.Reading? && q.review in s.reviews && q.next == 1 then ReadCurrentsOf(s, p, q, attributes) else s
    case ReadDecisions(p, count) =>
      var q := ProcessOf(s, p); if q.Reading? && q.review in s.reviews then ReadDecisionsOf(s, p, q, count) else s
    case ReadRest(p) =>
      var q := ProcessOf(s, p); if q.Reading? && q.review in s.reviews then ReadRestOf(s, p, q) else s
    case Compute(p, decision, page) =>
      var q := ProcessOf(s, p); if q.Checked? && q.review in s.reviews then ComputeOf(s, p, q, decision, page) else s
    case Write(p, fault) =>
      var q := ProcessOf(s, p);
      if q.Appending? then AppendOf(s, p, q, fault) else if q.Completing? then CompleteOf(s, p, q, fault) else s
  }

  const INITIAL := State(map[], map[], {}, map[])

  function Run(s: State, steps: seq<Step>): State
    decreases |steps|
  {
    if steps == [] then s else Run(Apply(s, steps[0]), steps[1..])
  }

  // ----- the invariant -----------------------------------------------------------------------------------

  /** What every stored review is: numbered decisions without gaps, each CURRENT record naming one
      of them, counts not above those of the CURRENT records, and a version that counts the writes. */
  ghost predicate GoodReview(part: Partition, issued: set<Id>) {
    && (forall i :: i in part.decisions <==> 1 <= i <= part.meta.decisionCount)
    && (forall i :: i in part.decisions ==> part.decisions[i].id in issued)
    && (forall n :: n in part.currents ==>
          && part.currents[n].sequence in part.decisions
          && var d := part.decisions[part.currents[n].sequence];
             d == Decision(part.currents[n].decision, n, part.currents[n].resolving))
    && part.meta.requiredResolved <= Resolved(part.meta.attributes, part.currents, true)
    && part.meta.optionalResolved <= Resolved(part.meta.attributes, part.currents, false)
    && part.meta.version == part.meta.decisionCount + (if part.meta.status.Open? then 1 else 2)
    && (part.meta.status.Completed? ==> part.meta.requiredResolved == |Required(part.meta.attributes)|)
  }

  /** A session that was read is not ahead of the stored one, and is the stored one if not behind. */
  ghost predicate Read(s: State, review: Id, session: Session) {
    && review in s.reviews && session.status.Open? && session.version <= s.reviews[review].meta.version
    && (session.version == s.reviews[review].meta.version ==> session == s.reviews[review].meta)
  }

  ghost predicate ProcessInv(s: State, q: Process) {
    match q
    case Reading(review, _, currents, decisions, next) =>
      && review in s.reviews && 1 <= next <= s.reviews[review].meta.decisionCount + 1
      && (forall n :: n in currents ==> Names(s.reviews[review].decisions, currents[n]))
      && (forall i :: i in decisions <==> 1 <= i < next)
      && (forall i :: i in decisions ==> i in s.reviews[review].decisions && decisions[i] == s.reviews[review].decisions[i])
    case Checked(review, session, _) => Read(s, review, session)
    case Appending(review, session, d, page, updated) =>
      && Read(s, review, session) && d.id in s.issued
      && (session.version == s.reviews[review].meta.version ==>
            var next := FirstPage(s.reviews[review].currents, page)[d.attribute := Current(d.id, session.decisionCount + 1, d.resolving)];
            updated == session.(version := session.version + 1, decisionCount := session.decisionCount + 1,
                                requiredResolved := Resolved(session.attributes, next, true),
                                optionalResolved := Resolved(session.attributes, next, false)))
    case Completing(review, session) =>
      Read(s, review, session) && session.requiredResolved == |Required(session.attributes)|
    case Inconsistent => false
    case _ => true
  }

  ghost predicate Inv(s: State) {
    && (forall r :: r in s.reviews ==> GoodReview(s.reviews[r], s.issued))
    && (forall p :: p in s.processes ==> ProcessInv(s, s.processes[p]))
  }

  /** How a review moves: not at all, by one decision, or by being completed; each raises the
      version by one, and nothing follows a completion. */
  ghost predicate Moves(before: Partition, after: Partition) {
    || after == before
    || (&& before.meta.status.Open? && after.meta.version == before.meta.version + 1
        && after.meta.selection == before.meta.selection && after.meta.attributes == before.meta.attributes
        && var next := before.meta.decisionCount + 1;
           (|| (next in after.decisions && after.decisions == before.decisions[next := after.decisions[next]]
                && after.meta.decisionCount == next && after.meta.status.Open?)
            || after == before.(meta := before.meta.(status := Completed, version := before.meta.version + 1))))
  }

  ghost predicate Evolves(s: State, s': State) {
    && s.issued <= s'.issued
    && forall r :: r in s.reviews ==> r in s'.reviews && Moves(s.reviews[r], s'.reviews[r])
  }

  // ----- every step keeps it ---------------------------------------------------------------------------------

  /** Others' commits do not disturb what a process has read. */
  lemma OthersKeep(s: State, s': State, q: Process)
    requires ProcessInv(s, q) && Evolves(s, s')
    requires forall r :: r in s.reviews ==> GoodReview(s.reviews[r], s.issued)
    ensures ProcessInv(s', q)
  {
    if q.Reading? {
      ReadingKeeps(s, s', q);
    }
  }

  lemma ReadingKeeps(s: State, s': State, q: Process)
    requires ProcessInv(s, q) && Evolves(s, s') && q.Reading?
    requires forall r :: r in s.reviews ==> GoodReview(s.reviews[r], s.issued)
    ensures ProcessInv(s', q)
  {
    var before, after := s.reviews[q.review], s'.reviews[q.review];
    forall i | i in before.decisions ensures i in after.decisions && after.decisions[i] == before.decisions[i] {
      assert GoodReview(before, s.issued);
    }
    forall n | n in q.currents ensures Names(after.decisions, q.currents[n]) {
      var i :| i in before.decisions && before.decisions[i].id == q.currents[n].decision && i == q.currents[n].sequence;
      assert i in after.decisions && after.decisions[i] == before.decisions[i];
    }
  }

  lemma MoveKeeps(s: State, s': State, p: nat, q: Process)
    requires Inv(s) && Evolves(s, s') && s'.processes == s.processes[p := q] && ProcessInv(s', q)
    requires forall r :: r in s'.reviews ==> GoodReview(s'.reviews[r], s'.issued)
    ensures Inv(s')
  {
    hide ProcessInv, GoodReview, Evolves;
    forall o | o in s'.processes ensures ProcessInv(s', s'.processes[o]) {
      if o != p { OthersKeep(s, s', s.processes[o]); }
    }
  }

  lemma NewReviewIsGood(s: State, step: Step)
    requires step.Create? && Apply(s, step).reviews != s.reviews
    ensures var reviews := Apply(s, step).reviews; step.review in reviews && GoodReview(reviews[step.review], s.issued)
  {
  }

  lemma CreateKeeps(s: State, step: Step)
    requires Inv(s) && step.Create?
    ensures Inv(Apply(s, step)) && Evolves(s, Apply(s, step))
  {
    hide GoodReview, ProcessInv;
    var s' := Apply(s, step);
    if s'.reviews != s.reviews { NewReviewIsGood(s, step); }
    forall o | o in s'.processes ensures ProcessInv(s', s'.processes[o]) { OthersKeep(s, s', s.processes[o]); }
  }

  lemma BeginKeeps(s: State, step: Step)
    requires Inv(s) && step.Begin?
    ensures Inv(Apply(s, step)) && Evolves(s, Apply(s, step))
  {
    if ProcessOf(s, step.p).Idle? { MoveKeeps(s, Apply(s, step), step.p, Apply(s, step).processes[step.p]); }
  }

  lemma ReadCurrentsKeeps(s: State, step: Step)
    requires Inv(s) && step.ReadCurrents?
    ensures Inv(Apply(s, step)) && Evolves(s, Apply(s, step))
  {
    var q := ProcessOf(s, step.p);
    if q.Reading? && q.review in s.reviews && q.next == 1 {
      CurrentsArePaged(s, step.p, q, step.attributes);
      hide ProcessInv, GoodReview;
      MoveKeeps(s, Apply(s, step), step.p, Apply(s, step).processes[step.p]);
    }
  }

  lemma CurrentsArePaged(s: State, p: nat, q: Process, attributes: set<string>)
    requires q.Reading? && ProcessInv(s, q) && GoodReview(s.reviews[q.review], s.issued)
    ensures var s' := ReadCurrentsOf(s, p, q, attributes);
      ProcessInv(s', s'.processes[p])
  {
    var part, r := s.reviews[q.review], ReadCurrentsOf(s, p, q, attributes).processes[p];
    forall n | n in r.currents ensures Names(part.decisions, r.currents[n]) {
      if n in attributes && n in part.currents { assert part.decisions[part.currents[n].sequence].id == part.currents[n].decision; }
    }
  }

  lemma ReadDecisionsKeeps(s: State, step: Step)
    requires Inv(s) && step.ReadDecisions?
    ensures Inv(Apply(s, step)) && Evolves(s, Apply(s, step))
  {
    var q := ProcessOf(s, step.p);
    if q.Reading? && q.review in s.reviews {
      var s' := Apply(s, step);
      assert GoodReview(s.reviews[q.review], s.issued);
      hide Names, Inv;
      DecisionsArePaged(s, step.p, q, step.count);
      hide ProcessInv, GoodReview;
      PageKeeps(s, s', step.p, s'.processes[step.p]);
    }
  }

  lemma PageKeeps(s: State, s': State, p: nat, q: Process)
    requires Inv(s) && s' == At(s, p, q) && ProcessInv(s', q)
    ensures Inv(s') && Evolves(s, s')
  {
    hide ProcessInv, GoodReview;
    MoveKeeps(s, s', p, q);
  }

  lemma DecisionsArePaged(s: State, p: nat, q: Process, count: nat)
    requires q.Reading? && ProcessInv(s, q) && GoodReview(s.reviews[q.review], s.issued)
    ensures var s' := ReadDecisionsOf(s, p, q, count);
      ProcessInv(s', s'.processes[p])
  {
  }

  /** A page-by-page read finds every CURRENT record's decision: CURRENT# records are read first,
      and decisions are only ever added. */
  lemma ReadIsConsistent(s: State, q: Process)
    requires q.Reading? && ProcessInv(s, q) && GoodReview(s.reviews[q.review], s.issued)
    ensures var part := s.reviews[q.review];
      Consistent(q.currents, q.decisions + map i | i in part.decisions && i >= q.next :: part.decisions[i])
  {
    var part := s.reviews[q.review];
    var all := q.decisions + map i | i in part.decisions && i >= q.next :: part.decisions[i];
    hide Resolved;
    assert forall i :: i in part.decisions ==> i in all && all[i] == part.decisions[i];
  }

  lemma ReadRestKeeps(s: State, step: Step)
    requires Inv(s) && step.ReadRest?
    ensures Inv(Apply(s, step)) && Evolves(s, Apply(s, step))
  {
    var q := ProcessOf(s, step.p);
    if q.Reading? && q.review in s.reviews {
      var s' := Apply(s, step);
      assert GoodReview(s.reviews[q.review], s.issued) && ProcessInv(s, q);
      ReadIsConsistent(s, q);
      hide Consistent, GoodReview, Inv;
      PageKeeps(s, s', step.p, s'.processes[step.p]);
    }
  }

  lemma GoodStays(part: Partition, issued: set<Id>, more: set<Id>)
    requires GoodReview(part, issued) && issued <= more
    ensures GoodReview(part, more)
  {
  }

  lemma ComputedIsReady(s: State, p: nat, q: Process, decision: Id, page: set<string>)
    requires q.Checked? && ProcessInv(s, q)
    ensures var s' := ComputeOf(s, p, q, decision, page);
      && s'.processes == s.processes[p := s'.processes[p]] && ProcessInv(s', s'.processes[p])
      && s'.reviews == s.reviews && s.issued <= s'.issued
  {
    hide Resolved, Required;
  }

  lemma ComputeKeeps(s: State, step: Step)
    requires Inv(s) && step.Compute?
    ensures Inv(Apply(s, step)) && Evolves(s, Apply(s, step))
  {
    var q := ProcessOf(s, step.p);
    if q.Checked? && q.review in s.reviews {
      var s' := Apply(s, step);
      assert ProcessInv(s, q);
      hide ProcessInv, GoodReview, Resolved, Moves, ComputeOf;
      ComputedIsReady(s, step.p, q, step.decision, step.page);
      forall r | r in s.reviews ensures GoodReview(s.reviews[r], s'.issued) { GoodStays(s.reviews[r], s.issued, s'.issued); }
      SameMoves(s.reviews);
      MoveKeeps(s, s', step.p, s'.processes[step.p]);
    }
  }

  /** A page of the CURRENT records counts no more than all of them. */
  lemma PageCountsNoMore(attributes: map<string, bool>, currents: map<string, Current>, page: set<string>, name: string,
                         current: Current, required: bool)
    ensures Resolved(attributes, FirstPage(currents, page)[name := current], required) <= Resolved(attributes, currents[name := current], required)
  {
    var some, all := ResolvedNames(attributes, FirstPage(currents, page)[name := current], required),
                     ResolvedNames(attributes, currents[name := current], required);
    SubsetSize(some, all);
  }

  lemma PageResolvesNoMore(attributes: map<string, bool>, currents: map<string, Current>, page: set<string>, required: bool)
    ensures Resolved(attributes, FirstPage(currents, page), required) <= Resolved(attributes, currents, required)
    ensures Resolved(attributes, currents, true) <= |Required(attributes)|
  {
    SubsetSize(ResolvedNames(attributes, FirstPage(currents, page), required), ResolvedNames(attributes, currents, required));
    SubsetSize(ResolvedNames(attributes, currents, true), Required(attributes));
  }

  lemma SubsetSize<T>(a: set<T>, b: set<T>)
    requires a <= b
    ensures |a| <= |b| && (|a| == |b| ==> a == b)
  {
    assert b == a + (b - a);
    assert |b| == |a| + |b - a|;
  }

  lemma AppendIsGood(s: State, p: nat, q: Process, fault: Fault)
    requires q.Appending? && ProcessInv(s, q) && GoodReview(s.reviews[q.review], s.issued)
    ensures var s' := AppendOf(s, p, q, fault);
      q.review in s'.reviews && GoodReview(s'.reviews[q.review], s'.issued) && Moves(s.reviews[q.review], s'.reviews[q.review])
  {
    hide Resolved, FirstPage, GoodReview, Moves;
    var before, after := s.reviews[q.review], AppendOf(s, p, q, fault).reviews[q.review];
    if after == before {
      Stays(before);
    } else {
      var d, sequence := q.decision, q.session.decisionCount + 1;
      PageCountsNoMore(before.meta.attributes, before.currents, q.page, d.attribute, Current(d.id, sequence, d.resolving), true);
      PageCountsNoMore(before.meta.attributes, before.currents, q.page, d.attribute, Current(d.id, sequence, d.resolving), false);
      AppendedIsGood(before, s.issued, d, after.meta);
    }
  }

  lemma Stays(part: Partition)
    ensures Moves(part, part)
  {
  }

  /** One more decision, and counts that are not above the real ones. */
  lemma AppendedIsGood(before: Partition, issued: set<Id>, d: Decision, meta: Session)
    requires GoodReview(before, issued) && before.meta.status.Open? && d.id in issued
    requires meta == before.meta.(version := before.meta.version + 1, decisionCount := before.meta.decisionCount + 1,
                                  requiredResolved := meta.requiredResolved, optionalResolved := meta.optionalResolved)
    requires var currents := before.currents[d.attribute := Current(d.id, meta.decisionCount, d.resolving)];
      && meta.requiredResolved <= Resolved(meta.attributes, currents, true)
      && meta.optionalResolved <= Resolved(meta.attributes, currents, false)
    ensures var after := Partition(meta, before.decisions[meta.decisionCount := d],
                                   before.currents[d.attribute := Current(d.id, meta.decisionCount, d.resolving)]);
      GoodReview(after, issued) && Moves(before, after)
  {
    hide Resolved;
  }

  lemma CompleteIsGood(s: State, p: nat, q: Process, fault: Fault)
    requires q.Completing? && ProcessInv(s, q) && GoodReview(s.reviews[q.review], s.issued)
    ensures var s' := CompleteOf(s, p, q, fault);
      q.review in s'.reviews && GoodReview(s'.reviews[q.review], s'.issued) && Moves(s.reviews[q.review], s'.reviews[q.review])
  {
  }

  /** A write changes its own review in a good way, and nothing else. */
  ghost predicate Wrote(s: State, s': State, p: nat, review: Id) {
    && review in s.reviews && review in s'.reviews
    && GoodReview(s'.reviews[review], s'.issued) && Moves(s.reviews[review], s'.reviews[review])
    && s'.reviews == s.reviews[review := s'.reviews[review]] && s'.issued == s.issued
    && s'.processes == s.processes[p := Stopped]
  }

  lemma WriteIsGood(s: State, p: nat, q: Process, fault: Fault)
    requires ProcessInv(s, q) && (q.Appending? || q.Completing?) && GoodReview(s.reviews[q.review], s.issued)
    ensures Wrote(s, if q.Appending? then AppendOf(s, p, q, fault) else CompleteOf(s, p, q, fault), p, q.review)
  {
    if q.Appending? { AppendIsGood(s, p, q, fault); } else { CompleteIsGood(s, p, q, fault); }
    hide GoodReview, Moves;
  }

  lemma WriteKeeps(s: State, step: Step)
    requires Inv(s) && step.Write?
    ensures Inv(Apply(s, step)) && Evolves(s, Apply(s, step))
  {
    var q := ProcessOf(s, step.p);
    if q.Appending? || q.Completing? {
      assert ProcessInv(s, q);
      hide Inv, Evolves, GoodReview, Moves, Wrote, Resolved, AppendOf, CompleteOf;
      WriteIsGood(s, step.p, q, step.fault);
      WroteKeeps(s, Apply(s, step), step.p, q.review);
    }
  }

  lemma WroteKeeps(s: State, s': State, p: nat, review: Id)
    requires Inv(s) && Wrote(s, s', p, review)
    ensures Inv(s') && Evolves(s, s')
  {
    hide GoodReview, Moves, Resolved;
    SameMoves(s.reviews);
    MoveKeeps(s, s', p, Stopped);
  }

  lemma SameMoves(reviews: map<Id, Partition>)
    ensures forall r :: r in reviews ==> Moves(reviews[r], reviews[r])
  {
  }

  lemma StepKeeps(s: State, step: Step)
    requires Inv(s)
    ensures Inv(Apply(s, step)) && Evolves(s, Apply(s, step))
  {
    hide *;
    match step
    case Create(_, _, _, _) => CreateKeeps(s, step);
    case Begin(_, _, _) => BeginKeeps(s, step);
    case ReadCurrents(_, _) => ReadCurrentsKeeps(s, step);
    case ReadDecisions(_, _) => ReadDecisionsKeeps(s, step);
    case ReadRest(_) => ReadRestKeeps(s, step);
    case Compute(_, _, _) => ComputeKeeps(s, step);
    case Write(_, _) => WriteKeeps(s, step);
  }

  lemma {:induction false} RunKeeps(s: State, steps: seq<Step>)
    requires Inv(s)
    ensures Inv(Run(s, steps))
    decreases |steps|
  {
    hide Inv, Apply;
    if steps != [] {
      StepKeeps(s, steps[0]);
      RunKeeps(Apply(s, steps[0]), steps[1..]);
    }
  }
}
