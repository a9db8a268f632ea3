/**
 What a failed export leaves behind, exactly: the objects whose save was stored
 though it was reported as refused, those whose deletion failed, and a readable
 result if its last artifact record was stored though its put reported an error.
 */
module ExportFates {
  import opened Wrappers
  import opened ExportProtocol
  import opened ExportTheorems

  /** What happened to exports in a run: saves that were lost, deletions that failed, by export and
      artifact; last artifact records that were lost; and results that were created. */
  datatype Log = Log(lost: set<(Id, nat)>, undeleted: set<(Id, nat)>, last: set<Id>, created: set<Id>)

  const NOTHING := Log({}, {}, {}, {})

  /** What one step adds. */
  function Noted(s: State, log: Log, step: Step): Log {
    match step
    case SaveObject(p, Lost(_)) =>
      var q := ProcessOf(s, p);
      if q.Saving? && q.saved < |q.o.package| then log.(lost := log.lost + {(q.o.exportId, q.saved)}) else log
    case Delete(p, false) =>
      var q := ProcessOf(s, p);
      if q.Cleaning? && q.left > 0 then log.(undeleted := log.undeleted + {(q.o.exportId, q.left - 1)}) else log
    case PutRecord(p, LostAcknowledgement) =>
      var q := ProcessOf(s, p);
      if q.Recording? && q.recorded < |q.o.package| && q.recorded == ARTIFACTS - 1 then log.(last := log.last + {q.o.exportId}) else log
    case CreateResult(p, fault) =>
      var q := ProcessOf(s, p);
      if q.Saving? && q.saved == ARTIFACTS && !fault.NotApplied? && q.o.exportId !in s.metas && q.o.projection !in s.guards
      then log.(created := log.created + {q.o.exportId}) else log
    case _ => log
  }

  function LogOf(h: Bytes -> nat, s: State, log: Log, steps: seq<Step>): Log
    decreases |steps|
  {
    if steps == [] then log else LogOf(h, Apply(h, s, steps[0]), Noted(s, log, steps[0]), steps[1..])
  }

  // ----- the invariant ---------------------------------------------------------------------------

  predicate Left(log: Log, e: Id, i: nat) { (e, i) in log.lost || (e, i) in log.undeleted }

  /** From artifact `from` on, the objects of an export are those that were left. */
  ghost predicate OnlyLeft(s: State, log: Log, e: Id, from: nat) {
    forall i: nat :: i >= from ==> ((e, i) in s.objects <==> Left(log, e, i))
  }

  ghost predicate Unmarked(log: Log, e: Id) { e !in log.last && forall i: nat :: !Left(log, e, i) }

  /** All that is stored of an export is what the log says was left. */
  ghost predicate Settled(s: State, log: Log, e: Id) {
    OnlyLeft(s, log, e, 0) && ((e, 2) in s.records <==> e in log.last)
  }

  ghost predicate JobSettled(s: State, log: Log, job: Id) {
    forall e :: e in s.exports && s.exports[e] == job ==> Settled(s, log, e)
  }

  ghost predicate SettledProcess(s: State, log: Log, q: Process) {
    match q
    case Saving(o, saved) => OnlyLeft(s, log, o.exportId, saved) && Unmarked(log, o.exportId)
    case Recording(o, _) => OnlyLeft(s, log, o.exportId, ARTIFACTS) && Unmarked(log, o.exportId)
    case Cleaning(o, left) =>
      && OnlyLeft(s, log, o.exportId, left) && ((o.exportId, 2) in s.records <==> o.exportId in log.last)
      && forall i: nat :: i < left ==> (o.exportId, i) in s.objects && !Left(log, o.exportId, i)
    case Failing(job, _, _) => JobSettled(s, log, job)
    case Claimed(job, _, _) => JobSettled(s, log, job)
    case _ => true
  }

  /** The log is of issued exports, and a lost last record made its export readable. */
  ghost predicate Issued(s: State, log: Log) {
    && (forall e, i :: Left(log, e, i) ==> e in s.exports)
    && (forall e :: e in log.last ==> Readable(s, e))
    && (forall e :: e in log.created <==> e in s.metas)
  }

  /** Of all jobs but one: their readable results are backed or of the log, and the failed are settled. */
  ghost predicate SettledExports(h: Bytes -> nat, s: State, log: Log, exempt: Option<Id>) {
    && (forall e :: Readable(s, e) && e in s.exports && Some(s.exports[e]) != exempt && e !in log.last ==> Backed(h, s, e))
    && (forall j :: j in s.jobs && s.jobs[j].status.Failed? && Some(j) != exempt ==> JobSettled(s, log, j))
  }

  ghost predicate Accounted(h: Bytes -> nat, s: State, log: Log) {
    && Issued(s, log) && SettledExports(h, s, log, None)
    && forall p :: p in s.processes ==> SettledProcess(s, log, s.processes[p])
  }

  /** Only what the log says of one job's export changes. */
  ghost predicate LogTouches(s: State, log: Log, log': Log, mine: Option<Id>) {
    forall e :: e !in s.exports || mine != Some(s.exports[e]) ==>
      (e in log'.last <==> e in log.last) && forall i: nat :: Left(log', e, i) <==> Left(log, e, i)
  }

  // ----- a step of one process ----------------------------------------------------------------------

  lemma OthersStaySettled(s: State, s': State, log: Log, log': Log, mine: Option<Id>, q: Process)
    requires Holds(s, q) && SettledProcess(s, log, q) && Touches(s, s', mine) && LogTouches(s, log, log', mine)
    requires JobOf(q).Some? ==> JobOf(q) != mine
    ensures SettledProcess(s', log', q)
  {
    hide Tables, Left;
  }

  lemma OtherExportsStaySettled(h: Bytes -> nat, s: State, s': State, log: Log, log': Log, mine: Option<Id>)
    requires Tables(s) && Tables(s') && SettledExports(h, s, log, None) && Touches(s, s', mine) && JobsMove(s, s', mine)
    requires LogTouches(s, log, log', mine)
    requires forall j :: j in s'.jobs && j !in s.jobs ==> !s'.jobs[j].status.Failed?
    ensures SettledExports(h, s', log', mine)
  {
    hide Left, Readable, Backed, Tables, Touches, JobSettled, LogTouches;
    forall e | Readable(s', e) && e in s'.exports && Some(s'.exports[e]) != mine && e !in log'.last ensures Backed(h, s', e) {
      OtherStaysBacked(h, s, s', log, log', mine, e);
    }
    forall j | j in s'.jobs && s'.jobs[j].status.Failed? && Some(j) != mine ensures JobSettled(s', log', j) {
      assert j in s.jobs && s.jobs[j].status.Failed?;
      OtherJobStaysSettled(s, s', log, log', mine, j);
    }
  }

  lemma OtherStaysBacked(h: Bytes -> nat, s: State, s': State, log: Log, log': Log, mine: Option<Id>, e: Id)
    requires Tables(s) && Tables(s') && SettledExports(h, s, log, None) && Touches(s, s', mine) && LogTouches(s, log, log', mine)
    requires Readable(s', e) && e in s'.exports && Some(s'.exports[e]) != mine && e !in log'.last
    ensures Backed(h, s', e)
  {
    hide Left, Tables, JobSettled;
    assert e in s.exports && s.exports[e] == s'.exports[e];
    assert Readable(s, e);
  }

  lemma OtherJobStaysSettled(s: State, s': State, log: Log, log': Log, mine: Option<Id>, j: Id)
    requires Touches(s, s', mine) && LogTouches(s, log, log', mine) && Some(j) != mine && JobSettled(s, log, j)
    ensures JobSettled(s', log', j)
  {
    hide Left;
  }

  /** The results and the failure of the job that a step is about. */
  ghost predicate MineSettled(h: Bytes -> nat, s: State, log: Log, job: Id) {
    && (forall e :: Readable(s, e) && e in s.exports && s.exports[e] == job && e !in log.last ==> Backed(h, s, e))
    && (job in s.jobs && s.jobs[job].status.Failed? ==> JobSettled(s, log, job))
  }

  lemma MoveStaysSettled(h: Bytes -> nat, s: State, s': State, log: Log, log': Log, mine: Option<Id>, p: nat, q: Process)
    requires Inv(h, s) && Accounted(h, s, log) && Tables(s') && Touches(s, s', mine) && JobsMove(s, s', mine)
    requires LogTouches(s, log, log', mine) && Issued(s', log')
    requires s'.processes == s.processes[p := q] && SettledProcess(s', log', q)
    requires forall r :: r in s.processes && r != p && JobOf(s.processes[r]).Some? ==> JobOf(s.processes[r]) != mine
    requires forall j :: j in s'.jobs && j !in s.jobs ==> !s'.jobs[j].status.Failed?
    requires mine.Some? ==> MineSettled(h, s', log', mine.value)
    ensures Accounted(h, s', log')
  {
    hide Tables, Touches, JobsMove, Progress, CompletedJobs, OneRunPerJob, Holds, SettledProcess, Readable, Backed, JobSettled, JobOf,
      LogTouches, Issued;
    forall r | r in s'.processes ensures SettledProcess(s', log', s'.processes[r]) {
      if r != p { OthersStaySettled(s, s', log, log', mine, s.processes[r]); }
    }
    OtherExportsStaySettled(h, s, s', log, log', mine);
  }

  lemma SameLog(s: State, log: Log, mine: Option<Id>)
    ensures LogTouches(s, log, log, mine)
  {
  }

  /** A step that leaves results and records alone leaves the log right. */
  lemma StaysIssued(s: State, s': State, log: Log)
    requires Issued(s, log) && s'.metas == s.metas && s'.records == s.records
    requires forall e :: e in s.exports ==> e in s'.exports
    ensures Issued(s', log)
  {
  }

  lemma NobodyStaysSettled(h: Bytes -> nat, s: State, s': State, log: Log)
    requires Inv(h, s) && Accounted(h, s, log) && NobodysStep(s, s') && Issued(s', log)
    ensures Accounted(h, s', log)
  {
    hide Tables, Touches, JobsMove, Progress, CompletedJobs, OneRunPerJob, Holds, SettledProcess, Readable, Backed, JobSettled, JobOf,
      LogTouches, Issued;
    SameLog(s, log, None);
    forall r | r in s'.processes ensures SettledProcess(s', log, s'.processes[r]) {
      OthersStaySettled(s, s', log, log, None, s.processes[r]);
    }
    OtherExportsStaySettled(h, s, s', log, log, None);
  }

  lemma AccountedParts(h: Bytes -> nat, s: State, log: Log, p: nat)
    requires Accounted(h, s, log)
    ensures Issued(s, log) && (p in s.processes ==> SettledProcess(s, log, s.processes[p]))
  {
  }

  lemma JobStepStaysSettled(h: Bytes -> nat, s: State, log: Log, step: Step)
    requires Inv(h, s) && Accounted(h, s, log) && (step.CreateJob? || step.Cancel?)
    ensures Accounted(h, Apply(h, s, step), log)
  {
    hide Inv, Accounted, NobodysStep, Tables, CompletedJobs, Holds, Progress, Issued;
    InvParts(h, s, 0);
    AccountedParts(h, s, log, 0);
    if step.CreateJob? { CreateJobMoves(s, step.job, step.projection); } else { CancelMoves(s, step.job); }
    StaysIssued(s, Apply(h, s, step), log);
    NobodyStaysSettled(h, s, Apply(h, s, step), log);
  }

  lemma ReadJobStaysSettled(h: Bytes -> nat, s: State, log: Log, step: Step)
    requires Inv(h, s) && Accounted(h, s, log) && step.ReadJob?
    ensures Accounted(h, Apply(h, s, step), log)
  {
    if ProcessOf(s, step.p).Idle? {
      hide Inv, Accounted, Tables, Touches, CompletedJobs, Holds, Progress, Issued, LogTouches, SettledProcess;
      var s' := Apply(h, s, step);
      NothingToSettle(s', log, s'.processes[step.p]);
      InvParts(h, s, step.p);
      AccountedParts(h, s, log, step.p);
      JobsOnly(s, s', None);
      SameLog(s, log, None);
      StaysIssued(s, s', log);
      MoveStaysSettled(h, s, s', log, log, None, step.p, s'.processes[step.p]);
    }
  }

  /** A pending job has no exports yet. */
  lemma PendingIsFresh(s: State, log: Log, job: Id)
    requires Tables(s) && job in s.jobs && s.jobs[job].status.Pending?
    ensures JobSettled(s, log, job) && forall e :: e in s.exports ==> s.exports[e] != job
  {
  }

  lemma ClaimStaysSettled(h: Bytes -> nat, s: State, log: Log, step: Step)
    requires Inv(h, s) && Accounted(h, s, log) && step.Claim?
    ensures Accounted(h, Apply(h, s, step), log)
  {
    hide Inv, Accounted, Tables, Touches, CompletedJobs, Progress, Readable, Backed, Issued, LogTouches, Settled;
    var q := ProcessOf(s, step.p);
    if q.Claiming? {
      var s' := Apply(h, s, step);
      InvParts(h, s, step.p);
      AccountedParts(h, s, log, step.p);
      StaysIssued(s, s', log);
      if s'.jobs == s.jobs {
        JobsOnly(s, s', None);
        SameLog(s, log, None);
        MoveStaysSettled(h, s, s', log, log, None, step.p, s'.processes[step.p]);
      } else {
        JobsOnly(s, s', Some(q.job));
        SameLog(s, log, Some(q.job));
        PendingIsFresh(s, log, q.job);
        forall r | r in s.processes ensures JobOf(s.processes[r]) != Some(q.job) { InvParts(h, s, r); }
        MoveStaysSettled(h, s, s', log, log, Some(q.job), step.p, s'.processes[step.p]);
      }
    }
  }

  lemma BuildIsSettled(h: Bytes -> nat, s: State, s': State, log: Log, p: nat, q: Process, exportId: Id, package: Option<seq<Bytes>>)
    requires Tables(s) && Holds(s, q) && Issued(s, log) && q.Claimed? && exportId !in s.exports
    requires s' == BuildOf(s, p, q, exportId, package)
    ensures SettledProcess(s', log, s'.processes[p]) && MineSettled(h, s', log, q.job)
  {
    hide Backed;
    assert forall i: nat :: (exportId, i) !in s'.objects && !Left(log, exportId, i);
    assert exportId !in s'.metas && (exportId, 2) !in s'.records && exportId !in log.last;
    assert Settled(s', log, exportId);
    assert forall e :: e in s'.exports && s'.exports[e] == q.job ==> e == exportId;
  }

  lemma BuildStaysSettled(h: Bytes -> nat, s: State, log: Log, step: Step)
    requires Inv(h, s) && Accounted(h, s, log) && step.Build?
    ensures Accounted(h, Apply(h, s, step), log)
  {
    var q := ProcessOf(s, step.p);
    if q.Claimed? && step.exportId !in s.exports {
      hide Inv, Accounted, CompletedJobs, Backed, OneRunPerJob, Holds, Progress, Touches, JobsMove, MineMoves, Tables, MineSettled,
        SettledProcess, Issued, LogTouches;
      MineAlone(h, s, step.p);
      AccountedParts(h, s, log, step.p);
      var s' := Apply(h, s, step);
      BuildMoves(s, s', step.p, q, step.exportId, step.package);
      BuildIsSettled(h, s, s', log, step.p, q, step.exportId, step.package);
      SameLog(s, log, Some(q.job));
      StaysIssued(s, s', log);
      MoveStaysSettled(h, s, s', log, log, Some(q.job), step.p, s'.processes[step.p]);
    }
  }

  // ----- a step on the own export ----------------------------------------------------------------------

  /** A job has one export, so what holds of that holds of the job. */
  lemma OwnIsMine(h: Bytes -> nat, s: State, log: Log, o: Own)
    requires Tables(s) && o.exportId in s.exports && s.exports[o.exportId] == o.job
    requires Readable(s, o.exportId) && o.exportId !in log.last ==> Backed(h, s, o.exportId)
    requires o.job in s.jobs && !s.jobs[o.job].status.Failed?
    ensures MineSettled(h, s, log, o.job)
    ensures Settled(s, log, o.exportId) ==> JobSettled(s, log, o.job)
  {
  }

  /** What a step on the own export leaves to check: its process, its result, and the log. */
  ghost predicate OwnSettled(h: Bytes -> nat, s: State, s': State, log: Log, log': Log, p: nat, o: Own) {
    && p in s'.processes && SettledProcess(s', log', s'.processes[p]) && MineSettled(h, s', log', o.job)
    && LogTouches(s, log, log', Some(o.job)) && Issued(s', log')
  }

  lemma OwnStaysSettled(h: Bytes -> nat, s: State, s': State, log: Log, log': Log, p: nat, o: Own)
    requires Inv(h, s) && Accounted(h, s, log) && p in s.processes && OwnOf(s.processes[p]) == Some(o) && OwnStep(h, s, s', p, o)
    requires OwnSettled(h, s, s', log, log', p, o)
    ensures Accounted(h, s', log')
  {
    hide Inv, Accounted, Tables, Touches, JobsMove, Progress, CompletedJobs, Backed, MineSettled, SettledProcess, LogTouches, Issued;
    MineAlone(h, s, p);
    MoveStaysSettled(h, s, s', log, log', Some(o.job), p, s'.processes[p]);
  }

  /** What a save leaves of its export's objects: those before it are stored, and after it only what was lost. */
  lemma SaveObjectLeaves(h: Bytes -> nat, s: State, s': State, log: Log, p: nat, q: Process, outcome: SaveOutcome)
    requires Progress(h, s, q) && SettledProcess(s, log, q)
    requires q.Saving? && q.saved < |q.o.package| && s' == SaveObjectOf(h, s, p, q, outcome) && ProcessOf(s, p) == q
    ensures var log', e, upto := Noted(s, log, SaveObject(p, outcome)), q.o.exportId, if outcome.Kept? then q.saved + 1 else q.saved;
      && OnlyLeft(s', log', e, upto) && (e, 2) !in s'.records && e !in log'.last && e !in s'.metas
      && (forall i: nat :: i < upto ==> (e, i) in s'.objects && !Left(log', e, i))
      && (s'.processes[p].Saving? ==> Unmarked(log', e))
  {
    hide SameObject;
    forall i: nat | i < q.saved ensures (q.o.exportId, i) in s.objects && !Left(log, q.o.exportId, i) {
      assert SameObject(h, s.objects[(q.o.exportId, i)], q.o.package[i]);
    }
  }

  lemma SaveObjectLogs(s: State, s': State, log: Log, p: nat, q: Process, outcome: SaveOutcome)
    requires Issued(s, log) && q.Saving? && q.saved < |q.o.package| && ProcessOf(s, p) == q
    requires q.o.exportId in s.exports && s.exports[q.o.exportId] == q.o.job
    requires s'.metas == s.metas && s'.records == s.records && s'.exports == s.exports
    ensures var log' := Noted(s, log, SaveObject(p, outcome));
      LogTouches(s, log, log', Some(q.o.job)) && Issued(s', log')
  {
  }

  lemma SaveObjectIsSettled(h: Bytes -> nat, s: State, s': State, log: Log, p: nat, q: Process, outcome: SaveOutcome)
    requires Tables(s') && Holds(s, q) && Progress(h, s, q) && SettledProcess(s, log, q) && Issued(s, log)
    requires q.Saving? && q.saved < |q.o.package| && s' == SaveObjectOf(h, s, p, q, outcome) && ProcessOf(s, p) == q
    ensures OwnSettled(h, s, s', log, Noted(s, log, SaveObject(p, outcome)), p, q.o)
  {
    hide Backed, SameObject, Noted, OnlyLeft, Progress, Issued, LogTouches, Left, Unmarked, Tables, JobSettled, MineSettled;
    var log' := Noted(s, log, SaveObject(p, outcome));
    SaveObjectLeaves(h, s, s', log, p, q, outcome);
    SaveObjectLogs(s, s', log, p, q, outcome);
    OwnIsMine(h, s', log', q.o);
  }

  lemma SaveObjectStaysSettled(h: Bytes -> nat, s: State, log: Log, step: Step)
    requires Inv(h, s) && Accounted(h, s, log) && step.SaveObject?
    ensures Accounted(h, Apply(h, s, step), Noted(s, log, step))
  {
    var q := ProcessOf(s, step.p);
    if q.Saving? && q.saved < |q.o.package| {
      hide Inv, Accounted, CompletedJobs, Backed, OneRunPerJob, Holds, Progress, Touches, JobsMove, MineMoves, Tables, SettledProcess,
        OwnSettled, Noted, Issued;
      MineAlone(h, s, step.p);
      AccountedParts(h, s, log, step.p);
      var s' := Apply(h, s, step);
      SaveObjectMoves(h, s, s', step.p, q, step.outcome);
      hide SaveObjectOf;
      assert Tables(s');
      SaveObjectIsSettled(h, s, s', log, step.p, q, step.outcome);
      hide OwnStep;
      OwnStaysSettled(h, s, s', log, Noted(s, log, step), step.p, q.o);
    }
  }

  lemma CreateResultIsSettled(h: Bytes -> nat, s: State, s': State, log: Log, p: nat, q: Process, fault: Fault)
    requires Tables(s') && Holds(s, q) && Progress(h, s, q) && SettledProcess(s, log, q) && Issued(s, log)
    requires q.Saving? && q.saved == ARTIFACTS && s' == CreateResultOf(s, p, q, fault) && ProcessOf(s, p) == q
    ensures OwnSettled(h, s, s', log, Noted(s, log, CreateResult(p, fault)), p, q.o)
  {
    hide MineSettled, SettledProcess, LogTouches, Issued, Holds, Progress, Tables;
    var log' := Noted(s, log, CreateResult(p, fault));
    CreateResultSettlesMine(h, s, s', log, log', p, q, fault);
    CreateResultSettlesOwn(h, s, s', log, log', p, q, fault);
    CreateResultIsIssued(s, s', log, p, q, fault);
  }

  lemma CreateResultSettlesMine(h: Bytes -> nat, s: State, s': State, log: Log, log': Log, p: nat, q: Process, fault: Fault)
    requires Tables(s') && Holds(s, q) && Progress(h, s, q) && q.Saving? && q.saved == ARTIFACTS
    requires s' == CreateResultOf(s, p, q, fault)
    ensures MineSettled(h, s', log', q.o.job)
  {
    hide Backed, MineSettled, JobSettled, Settled, Tables, Saved;
    assert (q.o.exportId, 2) !in s'.records;
    OwnIsMine(h, s', log', q.o);
  }

  lemma CreateResultSettlesOwn(h: Bytes -> nat, s: State, s': State, log: Log, log': Log, p: nat, q: Process, fault: Fault)
    requires Holds(s, q) && Progress(h, s, q) && SettledProcess(s, log, q) && q.Saving? && q.saved == ARTIFACTS
    requires s' == CreateResultOf(s, p, q, fault) && log' == Noted(s, log, CreateResult(p, fault)) && ProcessOf(s, p) == q
    ensures p in s'.processes && SettledProcess(s', log', s'.processes[p]) && LogTouches(s, log, log', Some(q.o.job))
  {
    hide SameObject;
    assert log'.lost == log.lost && log'.undeleted == log.undeleted && log'.last == log.last;
    assert forall e, i :: Left(log', e, i) == Left(log, e, i);
    assert forall i: nat :: i < ARTIFACTS ==> (q.o.exportId, i) in s'.objects;
  }

  lemma CreateResultIsIssued(s: State, s': State, log: Log, p: nat, q: Process, fault: Fault)
    requires Issued(s, log) && q.Saving? && q.saved == ARTIFACTS && s' == CreateResultOf(s, p, q, fault) && ProcessOf(s, p) == q
    ensures Issued(s', Noted(s, log, CreateResult(p, fault)))
  {
    var log' := Noted(s, log, CreateResult(p, fault));
    assert log'.lost == log.lost && log'.undeleted == log.undeleted && log'.last == log.last;
    assert forall e, i :: Left(log', e, i) == Left(log, e, i);
    assert forall e :: Readable(s, e) ==> Readable(s', e);
  }

  lemma CreateResultStaysSettled(h: Bytes -> nat, s: State, log: Log, step: Step)
    requires Inv(h, s) && Accounted(h, s, log) && step.CreateResult?
    ensures Accounted(h, Apply(h, s, step), Noted(s, log, step))
  {
    var q := ProcessOf(s, step.p);
    if q.Saving? && q.saved == ARTIFACTS {
      hide Inv, Accounted, CompletedJobs, Backed, OneRunPerJob, Holds, Progress, Touches, JobsMove, MineMoves, Tables, SettledProcess,
        OwnSettled, Noted, Issued;
      MineAlone(h, s, step.p);
      AccountedParts(h, s, log, step.p);
      var s' := Apply(h, s, step);
      CreateResultMoves(h, s, s', step.p, q, step.fault);
      hide CreateResultOf;
      assert Tables(s');
      CreateResultIsSettled(h, s, s', log, step.p, q, step.fault);
      hide OwnStep;
      OwnStaysSettled(h, s, s', log, Noted(s, log, step), step.p, q.o);
    }
  }

  /** What a put leaves: the objects as they were, and the last record only if it was stored. */
  lemma PutRecordLeaves(h: Bytes -> nat, s: State, s': State, log: Log, p: nat, q: Process, fault: Fault)
    requires Progress(h, s, q) && SettledProcess(s, log, q)
    requires q.Recording? && q.recorded < |q.o.package| && s' == PutRecordOf(h, s, p, q, fault) && ProcessOf(s, p) == q
    ensures var log', e := Noted(s, log, PutRecord(p, fault)), q.o.exportId;
      && OnlyLeft(s', log', e, ARTIFACTS) && (forall i: nat :: i < ARTIFACTS ==> (e, i) in s'.objects && !Left(log', e, i))
      && (s'.processes[p].Completing? || ((e, 2) in s'.records <==> e in log'.last))
      && (s'.processes[p].Recording? ==> Unmarked(log', e))
      && (e in log'.last ==> Readable(s', e))
  {
    hide SameObject;
    var log', e := Noted(s, log, PutRecord(p, fault)), q.o.exportId;
    assert log'.lost == log.lost && log'.undeleted == log.undeleted;
    assert forall i: nat :: Left(log', e, i) == Left(log, e, i);
    forall i: nat | i < ARTIFACTS ensures (e, i) in s.objects && !Left(log, e, i) {
      assert SameObject(h, s.objects[(e, i)], q.o.package[i]);
    }
  }

  lemma PutRecordLogs(h: Bytes -> nat, s: State, s': State, log: Log, p: nat, q: Process, fault: Fault)
    requires Issued(s, log) && q.Recording? && ProcessOf(s, p) == q
    requires q.o.exportId in s.exports && s.exports[q.o.exportId] == q.o.job
    requires s'.metas == s.metas && s'.exports == s.exports && forall key :: key in s.records ==> key in s'.records
    requires q.o.exportId in Noted(s, log, PutRecord(p, fault)).last ==> Readable(s', q.o.exportId)
    ensures var log' := Noted(s, log, PutRecord(p, fault));
      LogTouches(s, log, log', Some(q.o.job)) && Issued(s', log')
  {
  }

  lemma PutRecordTables(h: Bytes -> nat, s: State, s': State, p: nat, q: Process, fault: Fault)
    requires q.Recording? && q.recorded < |q.o.package| && s' == PutRecordOf(h, s, p, q, fault)
    ensures s'.metas == s.metas && s'.exports == s.exports && s'.jobs == s.jobs && p in s'.processes
    ensures forall key :: key in s.records ==> key in s'.records
    ensures s'.processes[p] in {Recording(q.o, q.recorded + 1), Completing(q.o), Cleaning(q.o, ARTIFACTS)}
  {
  }

  lemma PutRecordIsSettled(h: Bytes -> nat, s: State, s': State, log: Log, p: nat, q: Process, fault: Fault)
    requires Tables(s') && Holds(s, q) && Progress(h, s, q) && SettledProcess(s, log, q) && Issued(s, log)
    requires q.Recording? && q.recorded < |q.o.package| && s' == PutRecordOf(h, s, p, q, fault) && ProcessOf(s, p) == q
    requires Progress(h, s', s'.processes[p])
    ensures OwnSettled(h, s, s', log, Noted(s, log, PutRecord(p, fault)), p, q.o)
  {
    hide Backed, SameObject, Noted, OnlyLeft, Progress, Issued, LogTouches, Left, Unmarked, Tables, JobSettled, MineSettled, PutRecordOf;
    var log' := Noted(s, log, PutRecord(p, fault));
    PutRecordTables(h, s, s', p, q, fault);
    PutRecordLeaves(h, s, s', log, p, q, fault);
    PutRecordLogs(h, s, s', log, p, q, fault);
    if s'.processes[p].Completing? { CompletingIsBacked(h, s', s', q.o); }
    OwnIsMine(h, s', log', q.o);
  }

  lemma PutRecordStaysSettled(h: Bytes -> nat, s: State, log: Log, step: Step)
    requires Inv(h, s) && Accounted(h, s, log) && step.PutRecord?
    ensures Accounted(h, Apply(h, s, step), Noted(s, log, step))
  {
    var q := ProcessOf(s, step.p);
    if q.Recording? && q.recorded < |q.o.package| {
      hide Inv, Accounted, CompletedJobs, Backed, OneRunPerJob, Holds, Progress, Touches, JobsMove, MineMoves, Tables, SettledProcess,
        OwnSettled, Noted, Issued;
      MineAlone(h, s, step.p);
      AccountedParts(h, s, log, step.p);
      var s' := Apply(h, s, step);
      PutRecordMoves(h, s, s', step.p, q, step.fault);
      hide PutRecordOf;
      assert Tables(s') && Progress(h, s', s'.processes[step.p]);
      PutRecordIsSettled(h, s, s', log, step.p, q, step.fault);
      hide OwnStep;
      OwnStaysSettled(h, s, s', log, Noted(s, log, step), step.p, q.o);
    }
  }

  lemma DeleteIsSettled(h: Bytes -> nat, s: State, s': State, log: Log, p: nat, q: Process, succeeds: bool)
    requires Tables(s') && Holds(s, q) && SettledProcess(s, log, q) && Issued(s, log) && ProcessOf(s, p) == q
    requires q.Cleaning? && q.left > 0 && s' == DeleteOf(s, p, q, succeeds)
    ensures OwnSettled(h, s, s', log, Noted(s, log, Delete(p, succeeds)), p, q.o)
  {
    hide Backed, Tables, JobSettled, MineSettled, Noted, Issued, LogTouches, Left, OnlyLeft, Readable;
    var log' := Noted(s, log, Delete(p, succeeds));
    DeleteLeaves(s, s', log, p, q, succeeds);
    DeleteLogs(s, s', log, p, q, succeeds);
    OwnIsMine(h, s', log', q.o);
  }

  lemma DeleteLeaves(s: State, s': State, log: Log, p: nat, q: Process, succeeds: bool)
    requires Holds(s, q) && SettledProcess(s, log, q) && ProcessOf(s, p) == q
    requires q.Cleaning? && q.left > 0 && s' == DeleteOf(s, p, q, succeeds)
    ensures var log' := Noted(s, log, Delete(p, succeeds));
      && OnlyLeft(s', log', q.o.exportId, q.left - 1)
      && ((q.o.exportId, 2) in s'.records <==> q.o.exportId in log'.last)
      && (Readable(s', q.o.exportId) ==> q.o.exportId in log'.last)
      && forall i: nat :: i < q.left - 1 ==> (q.o.exportId, i) in s'.objects && !Left(log', q.o.exportId, i)
  {
  }

  lemma DeleteLogs(s: State, s': State, log: Log, p: nat, q: Process, succeeds: bool)
    requires Holds(s, q) && Issued(s, log) && ProcessOf(s, p) == q
    requires q.Cleaning? && q.left > 0 && s' == DeleteOf(s, p, q, succeeds)
    ensures var log' := Noted(s, log, Delete(p, succeeds));
      LogTouches(s, log, log', Some(q.o.job)) && Issued(s', log')
  {
  }

  lemma DeleteStaysSettled(h: Bytes -> nat, s: State, log: Log, step: Step)
    requires Inv(h, s) && Accounted(h, s, log) && step.Delete?
    ensures Accounted(h, Apply(h, s, step), Noted(s, log, step))
  {
    var q := ProcessOf(s, step.p);
    if q.Cleaning? && q.left > 0 {
      hide Inv, Accounted, CompletedJobs, Backed, OneRunPerJob, Holds, Progress, Touches, JobsMove, MineMoves, Tables, SettledProcess,
        OwnSettled, Noted, Issued;
      MineAlone(h, s, step.p);
      AccountedParts(h, s, log, step.p);
      var s' := Apply(h, s, step);
      DeleteMoves(h, s, s', step.p, q, step.succeeds);
      hide DeleteOf;
      assert Tables(s');
      DeleteIsSettled(h, s, s', log, step.p, q, step.succeeds);
      hide OwnStep;
      OwnStaysSettled(h, s, s', log, Noted(s, log, step), step.p, q.o);
    }
  }

  // ----- the end of a run ---------------------------------------------------------------------------------

  lemma FailIsSettled(h: Bytes -> nat, s: State, s': State, log: Log, job: Id)
    requires Tables(s) && JobSettled(s, log, job) && s'.exports == s.exports && s'.objects == s.objects && s'.records == s.records
    requires s'.metas == s.metas && Issued(s, log)
    ensures MineSettled(h, s', log, job)
  {
    hide Backed, Left;
    forall e | Readable(s', e) && e in s'.exports && s'.exports[e] == job ensures e in log.last { assert Settled(s, log, e); }
  }

  lemma FailStaysSettled(h: Bytes -> nat, s: State, log: Log, step: Step)
    requires Inv(h, s) && Accounted(h, s, log) && step.Fail?
    ensures Accounted(h, Apply(h, s, step), log)
  {
    var q := ProcessOf(s, step.p);
    if q.Failing? {
      hide Inv, Accounted, CompletedJobs, OneRunPerJob, Progress, Touches, JobsMove, MineMoves, Applied, Tables, Backed, Issued,
        LogTouches, MineSettled, Settled, JobSettled;
      MineAlone(h, s, step.p);
      AccountedParts(h, s, log, step.p);
      var s' := Apply(h, s, step);
      EndMoves(s, s', step.p, q.job, q.version, Job(Failed, 0, q.projection, None), step.fault);
      hide Holds;
      SameLog(s, log, Some(q.job));
      StaysIssued(s, s', log);
      FailIsSettled(h, s, s', log, q.job);
      MoveStaysSettled(h, s, s', log, log, Some(q.job), step.p, Stopped);
    }
  }

  lemma CompletedIsMine(h: Bytes -> nat, s: State, s': State, log: Log, o: Own)
    requires Progress(h, s, Completing(o)) && Tables(s') && (s'.objects, s'.records, s'.metas) == (s.objects, s.records, s.metas)
    requires o.exportId in s'.exports && s'.exports[o.exportId] == o.job && o.job in s'.jobs && !s'.jobs[o.job].status.Failed?
    ensures MineSettled(h, s', log, o.job)
  {
    hide Tables, Backed, MineSettled, Settled, JobSettled, Progress;
    CompletingIsBacked(h, s, s', o);
    OwnIsMine(h, s', log, o);
  }

  lemma NothingToSettle(s: State, log: Log, q: Process)
    requires q.Stopped? || q.Claiming?
    ensures SettledProcess(s, log, q)
  {
  }

  lemma CompleteApplied(h: Bytes -> nat, s: State, step: Step)
    requires step.Complete?
    ensures var q := ProcessOf(s, step.p);
      Apply(h, s, step) == if q.Completing? then CompleteOf(s, step.p, q, step.fault) else s
  {
  }

  lemma CompleteEnds(h: Bytes -> nat, s: State, s': State, log: Log, p: nat, q: Process, fault: Fault)
    requires Tables(s) && Holds(s, q) && Progress(h, s, q) && Issued(s, log) && q.Completing? && s' == CompleteOf(s, p, q, fault)
    ensures Tables(s') && Touches(s, s', Some(q.o.job)) && JobsMove(s, s', Some(q.o.job))
    ensures s'.processes == s.processes[p := Stopped] && forall j :: j in s'.jobs ==> j in s.jobs
    ensures MineSettled(h, s', log, q.o.job) && Issued(s', log)
  {
    hide Tables, Touches, JobsMove, Applied, Progress, Issued, MineSettled;
    EndMoves(s, s', p, q.o.job, q.o.version, Job(Completed, 0, q.o.projection, Some(q.o.exportId)), fault);
    CompletedIsMine(h, s, s', log, q.o);
    StaysIssued(s, s', log);
  }

  lemma CompleteStaysSettled(h: Bytes -> nat, s: State, log: Log, step: Step)
    requires Inv(h, s) && Accounted(h, s, log) && step.Complete?
    ensures Accounted(h, Apply(h, s, step), log)
  {
    var q := ProcessOf(s, step.p);
    CompleteApplied(h, s, step);
    hide Apply;
    if q.Completing? {
      hide Inv, Accounted, Progress, Touches, JobsMove, Tables, Issued, LogTouches, MineSettled, Holds, SettledProcess, CompleteOf;
      MineAlone(h, s, step.p);
      AccountedParts(h, s, log, step.p);
      var s' := Apply(h, s, step);
      CompleteEnds(h, s, s', log, step.p, q, step.fault);
      NothingToSettle(s', log, Stopped);
      SameLog(s, log, Some(q.o.job));
      MoveStaysSettled(h, s, s', log, log, Some(q.o.job), step.p, Stopped);
    }
  }

  lemma StepStaysAccounted(h: Bytes -> nat, s: State, log: Log, step: Step)
    requires Inv(h, s) && Accounted(h, s, log)
    ensures Accounted(h, Apply(h, s, step), Noted(s, log, step))
  {
    hide Inv, Accounted, Apply;
    match step
    case CreateJob(_, _) => JobStepStaysSettled(h, s, log, step);
    case Cancel(_) => JobStepStaysSettled(h, s, log, step);
    case ReadJob(_, _, _) => ReadJobStaysSettled(h, s, log, step);
    case Claim(_, _) => ClaimStaysSettled(h, s, log, step);
    case Build(_, _, _) => BuildStaysSettled(h, s, log, step);
    case SaveObject(_, _) => SaveObjectStaysSettled(h, s, log, step);
    case CreateResult(_, _) => CreateResultStaysSettled(h, s, log, step);
    case PutRecord(_, _) => PutRecordStaysSettled(h, s, log, step);
    case Delete(_, _) => DeleteStaysSettled(h, s, log, step);
    case Fail(_, _) => FailStaysSettled(h, s, log, step);
    case Complete(_, _) => CompleteStaysSettled(h, s, log, step);
  }

  lemma {:induction false} RunStaysAccounted(h: Bytes -> nat, s: State, log: Log, steps: seq<Step>)
    requires Inv(h, s) && Accounted(h, s, log)
    ensures Accounted(h, Run(h, s, steps), LogOf(h, s, log, steps))
    decreases |steps|
  {
    hide Inv, Apply, Accounted, Noted;
    if steps != [] {
      StepStaysAccounted(h, s, log, steps[0]);
      StepKeeps(h, s, steps[0]);
      RunStaysAccounted(h, Apply(h, s, steps[0]), Noted(s, log, steps[0]), steps[1..]);
    }
  }

  // ----- the theorems ----------------------------------------------------------------------------------------

  /** A failed export has left exactly the objects whose save was lost or whose deletion failed; it
      is readable exactly if its last artifact record was lost; and its projection is guarded by it
      exactly if its result was created. */
  lemma FailedExportLeaves(h: Bytes -> nat, steps: seq<Step>, j: Id, e: Id)
    ensures var s, log := Run(h, INITIAL, steps), LogOf(h, INITIAL, NOTHING, steps);
      j in s.jobs && s.jobs[j].status.Failed? && e in s.exports && s.exports[e] == j ==>
        && (forall i: nat :: (e, i) in s.objects <==> (e, i) in log.lost || (e, i) in log.undeleted)
        && (Readable(s, e) <==> e in log.last)
        && ((exists p :: p in s.guards && s.guards[p] == e) <==> e in log.created)
  {
    hide Run, LogOf, Inv, Accounted;
    Reached(h, steps);
    InitiallyAccounted(h);
    RunStaysAccounted(h, INITIAL, NOTHING, steps);
    RunKeepsGuards(h, INITIAL, steps);
    var s, log := Run(h, INITIAL, steps), LogOf(h, INITIAL, NOTHING, steps);
    AccountedParts(h, s, log, 0);
    if j in s.jobs && s.jobs[j].status.Failed? && e in s.exports && s.exports[e] == j { AccountedExport(h, s, log, j, e); }
  }

  lemma InitiallyAccounted(h: Bytes -> nat)
    ensures Inv(h, INITIAL) && Accounted(h, INITIAL, NOTHING)
  {
  }

  lemma AccountedExport(h: Bytes -> nat, s: State, log: Log, j: Id, e: Id)
    requires Accounted(h, s, log)
    requires j in s.jobs && s.jobs[j].status.Failed? && e in s.exports && s.exports[e] == j
    ensures forall i: nat :: (e, i) in s.objects <==> (e, i) in log.lost || (e, i) in log.undeleted
    ensures Readable(s, e) <==> e in log.last
  {
    hide Backed, SettledProcess;
    assert JobSettled(s, log, j);
    assert Settled(s, log, e);
    assert forall i: nat :: (e, i) in s.objects <==> Left(log, e, i);
  }

  /** So it has left nothing, no object and no readable result, exactly if none of its saves and not
      its last record was lost, and all its deletions succeeded. */
  lemma FailedLeavesNothing(h: Bytes -> nat, steps: seq<Step>, j: Id, e: Id)
    ensures var s, log := Run(h, INITIAL, steps), LogOf(h, INITIAL, NOTHING, steps);
      j in s.jobs && s.jobs[j].status.Failed? && e in s.exports && s.exports[e] == j ==>
        (!Readable(s, e) && (forall i: nat :: (e, i) !in s.objects)
         <==> e !in log.last && forall i: nat :: (e, i) !in log.lost && (e, i) !in log.undeleted)
  {
    hide Run, LogOf;
    FailedExportLeaves(h, steps, j, e);
  }

  /** Every result that can be read has its three objects, with the recorded size and hash, unless its
      last artifact record was lost. */
  lemma ReadableIsBacked(h: Bytes -> nat, steps: seq<Step>, e: Id)
    ensures var s := Run(h, INITIAL, steps);
      Readable(s, e) && e !in LogOf(h, INITIAL, NOTHING, steps).last ==> Backed(h, s, e)
  {
    hide Run, LogOf, Inv, Backed;
    Reached(h, steps);
    InitiallyAccounted(h);
    RunStaysAccounted(h, INITIAL, NOTHING, steps);
    var s := Run(h, INITIAL, steps);
    MetaIsIssued(h, s, e);
  }

  lemma MetaIsIssued(h: Bytes -> nat, s: State, e: Id)
    requires Inv(h, s)
    ensures e in s.metas ==> e in s.exports
  {
  }

  // ----- a lost last record is for ever ------------------------------------------------------------------------

  lemma ResultsStay(h: Bytes -> nat, s: State, step: Step)
    ensures forall e :: e in s.metas ==> e in Apply(h, s, step).metas
    ensures forall key :: key in s.records ==> key in Apply(h, s, step).records
  {
  }

  /** What could once be read can be read for ever. */
  lemma {:induction false} ReadableForever(h: Bytes -> nat, s: State, steps: seq<Step>, e: Id)
    requires Readable(s, e)
    ensures Readable(Run(h, s, steps), e)
    decreases |steps|
  {
    hide Apply;
    if steps != [] {
      ResultsStay(h, s, steps[0]);
      ReadableForever(h, Apply(h, s, steps[0]), steps[1..], e);
    }
  }

  /** The end of a run whose last record is lost: the clean-up deletes its objects and records its failure. */
  const LOST_LAST: nat -> seq<Step> := (p: nat) =>
    [PutRecord(p, LostAcknowledgement), Delete(p, true), Delete(p, true), Delete(p, true), Fail(p, NoFault)]

  lemma RunFirst(h: Bytes -> nat, s: State, step: Step, rest: seq<Step>)
    ensures Run(h, s, [step] + rest) == Run(h, Apply(h, s, step), rest)
  {
    hide Apply;
    assert ([step] + rest)[1..] == rest;
  }

  /** One deletion that succeeds. */
  lemma Deleted(h: Bytes -> nat, s: State, p: nat, o: Own, left: nat)
    requires left > 0 && ProcessOf(s, p) == Cleaning(o, left)
    ensures var s' := Apply(h, s, Delete(p, true));
      && ProcessOf(s', p) == StartCleaning(o, left - 1) && s'.objects == s.objects - {(o.exportId, left - 1)}
      && (s'.jobs, s'.metas, s'.records) == (s.jobs, s.metas, s.records)
  {
  }

  lemma LostThird(h: Bytes -> nat, s: State, p: nat, o: Own)
    requires ProcessOf(s, p) == Recording(o, 2) && Progress(h, s, Recording(o, 2))
    ensures var s' := Apply(h, s, PutRecord(p, LostAcknowledgement));
      && ProcessOf(s', p) == Cleaning(o, ARTIFACTS) && s'.objects == s.objects && s'.jobs == s.jobs && Readable(s', o.exportId)
  {
    hide Saved;
    assert (o.exportId, 0) in s.records && (o.exportId, 1) in s.records by {
      assert s.records[(o.exportId, 0)] == Record(|o.package[0]|, h(o.package[0]));
      assert s.records[(o.exportId, 1)] == Record(|o.package[1]|, h(o.package[1]));
    }
  }

  lemma RecordedFailure(h: Bytes -> nat, s: State, p: nat, o: Own)
    requires ProcessOf(s, p) == Failing(o.job, o.version, o.projection) && o.job in s.jobs && s.jobs[o.job].version == o.version
    ensures var s' := Apply(h, s, Fail(p, NoFault));
      && o.job in s'.jobs && s'.jobs[o.job].status.Failed?
      && (s'.objects, s'.metas, s'.records) == (s.objects, s.metas, s.records)
  {
  }

  /** The five steps, one after the other. */
  lemma LostLastEnds(h: Bytes -> nat, s: State, p: nat, o: Own)
    requires ProcessOf(s, p) == Recording(o, 2) && Progress(h, s, Recording(o, 2))
    requires o.job in s.jobs && s.jobs[o.job].version == o.version
    ensures var s' := Run(h, s, LOST_LAST(p));
      && o.job in s'.jobs && s'.jobs[o.job].status.Failed? && Readable(s', o.exportId)
      && s'.objects == s.objects - {(o.exportId, 2)} - {(o.exportId, 1)} - {(o.exportId, 0)}
  {
    hide Run, Apply, Progress;
    LostThird(h, s, p, o);
    var s1 := Apply(h, s, PutRecord(p, LostAcknowledgement));
    Deleted(h, s1, p, o, 3);
    var s2 := Apply(h, s1, Delete(p, true));
    Deleted(h, s2, p, o, 2);
    var s3 := Apply(h, s2, Delete(p, true));
    Deleted(h, s3, p, o, 1);
    var s4 := Apply(h, s3, Delete(p, true));
    RecordedFailure(h, s4, p, o);
    RunsThrough(h, s, p);
  }

  lemma RunsThrough(h: Bytes -> nat, s: State, p: nat)
    ensures var s1 := Apply(h, s, PutRecord(p, LostAcknowledgement));
      var s4 := Apply(h, Apply(h, Apply(h, s1, Delete(p, true)), Delete(p, true)), Delete(p, true));
      Run(h, s, LOST_LAST(p)) == Apply(h, s4, Fail(p, NoFault))
  {
    hide Run, Apply;
    var a, d, e := PutRecord(p, LostAcknowledgement), Delete(p, true), Fail(p, NoFault);
    assert [a, d, d, d, e] == [a] + [d, d, d, e] && [d, d, d, e] == [d] + [d, d, e] && [d, d, e] == [d] + [d, e];
    assert [d, e] == [d] + [e] && [e] == [e] + [];
    var s1 := Apply(h, s, a);
    var s2 := Apply(h, s1, d);
    var s3 := Apply(h, s2, d);
    var s4 := Apply(h, s3, d);
    RunFirst(h, s, a, [d, d, d, e]);
    RunFirst(h, s1, d, [d, d, e]);
    RunFirst(h, s2, d, [d, e]);
    RunFirst(h, s3, d, [e]);
    RunFirst(h, s4, e, []);
    RunNothing(h, Apply(h, s4, e));
  }

  lemma RunNothing(h: Bytes -> nat, s: State)
    ensures Run(h, s, []) == s
  {
  }

  /** A run that records has no objects but its three. */
  lemma OnlyThreeObjects(h: Bytes -> nat, steps: seq<Step>, p: nat)
    ensures var s := Run(h, INITIAL, steps);
      var q := ProcessOf(s, p);
      q.Recording? ==> Progress(h, s, q) && forall i: nat :: i >= ARTIFACTS ==> (q.o.exportId, i) !in s.objects
  {
    hide Run, LogOf, Inv, Accounted, Progress;
    Reached(h, steps);
    InitiallyAccounted(h);
    RunStaysAccounted(h, INITIAL, NOTHING, steps);
    InvParts(h, Run(h, INITIAL, steps), p);
    AccountedParts(h, Run(h, INITIAL, steps), LogOf(h, INITIAL, NOTHING, steps), p);
  }

  /** Any export about to put its last record ends so, if that request is lost and everything after it
      succeeds: failed, without an object, and readable for ever. */
  lemma LostLastRecord(h: Bytes -> nat, steps: seq<Step>, p: nat)
    ensures var s := Run(h, INITIAL, steps);
      var q, s' := ProcessOf(s, p), Run(h, s, LOST_LAST(p));
      q.Recording? && q.recorded == 2 && q.o.job in s.jobs && s.jobs[q.o.job].version == q.o.version ==>
        && q.o.job in s'.jobs && s'.jobs[q.o.job].status.Failed? && (forall i: nat :: (q.o.exportId, i) !in s'.objects)
        && forall more :: Readable(Run(h, s', more), q.o.exportId)
  {
    hide Run, Progress, Readable;
    OnlyThreeObjects(h, steps, p);
    var s := Run(h, INITIAL, steps);
    var q := ProcessOf(s, p);
    if q.Recording? && q.recorded == 2 && q.o.job in s.jobs && s.jobs[q.o.job].version == q.o.version {
      LostLastEnds(h, s, p, q.o);
      var s' := Run(h, s, LOST_LAST(p));
      forall more ensures Readable(Run(h, s', more), q.o.exportId) { ReadableForever(h, s', more, q.o.exportId); }
    }
  }
}
