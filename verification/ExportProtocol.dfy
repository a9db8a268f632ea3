/**
 Catalog exports as a state machine: any number of callers run export jobs
 against the job table, the object storage and the result table, one request
 at a time, and each request can fail with or without having been applied.
 */
module ExportProtocol {
  import opened Wrappers

  type Id = nat
  type Bytes = seq<bv8>

  /** The three artifacts of an export: canonical JSON, CSV, manifest. */
  const ARTIFACTS := 3

  datatype JobStatus = Pending | Running | Completed | Failed | Cancelled
  datatype Job = Job(status: JobStatus, version: int, projection: Id, result: Option<Id>)
  datatype Meta = Meta(job: Id, projection: Id)
  datatype Record = Record(size: nat, hash: nat)

  datatype Fault = NoFault | NotApplied | LostAcknowledgement

  /** A refused object is not stored; a kept one is stored as some bytes; a lost one is stored but reported as refused. */
  datatype SaveOutcome = Refused | Kept(bytes: Bytes) | Lost(bytes: Bytes)

  /** One run past its build: what it holds of its job, and the artifacts it exports. */
  datatype Own = Own(job: Id, version: int, projection: Id, exportId: Id, package: seq<Bytes>)

  datatype Process =
    | Idle
    | Claiming(job: Id, version: int, projection: Id)   // read the job as pending, about to mark it running
    | Claimed(job: Id, version: int, projection: Id)    // about to build the package
    | Saving(o: Own, saved: nat)                        // that many objects are saved
    | Recording(o: Own, recorded: nat)                  // the result is created, that many artifact records are put
    | Completing(o: Own)
    | Cleaning(o: Own, left: nat)                       // that many saved keys are left to delete
    | Failing(job: Id, version: int, projection: Id)    // about to record the failure
    | Stopped

  /** `exports` remembers which identifiers were issued, and for which job. */
  datatype State = State(
    jobs: map<Id, Job>, objects: map<(Id, nat), Bytes>, metas: map<Id, Meta>, records: map<(Id, nat), Record>,
    guards: map<Id, Id>, exports: map<Id, Id>, processes: map<nat, Process>)

  datatype Step =
    | CreateJob(job: Id, projection: Id)
    | Cancel(job: Id)
    | ReadJob(p: nat, job: Id, valid: bool)
    | Claim(p: nat, fault: Fault)
    | Build(p: nat, exportId: Id, package: Option<seq<Bytes>>)
    | SaveObject(p: nat, outcome: SaveOutcome)
    | CreateResult(p: nat, fault: Fault)
    | PutRecord(p: nat, fault: Fault)
    | Delete(p: nat, succeeds: bool)
    | Fail(p: nat, fault: Fault)
    | Complete(p: nat, fault: Fault)

  function ProcessOf(s: State, p: nat): Process { if p in s.processes then s.processes[p] else Idle }

  function At(s: State, p: nat, q: Process): State { s.(processes := s.processes[p := q]) }

  /** Version compare-and-swap on a job record. */
  function Updated(jobs: map<Id, Job>, job: Id, expected: int, next: Job): Option<map<Id, Job>> {
    if job in jobs && jobs[job].version == expected then Some(jobs[job := next.(version := expected + 1)]) else None
  }

  function Applied(jobs: map<Id, Job>, job: Id, expected: int, next: Job, fault: Fault): map<Id, Job> {
    var updated := Updated(jobs, job, expected, next);
    if fault.NotApplied? || updated.None? then jobs else updated.value
  }

  predicate Acknowledged(jobs: map<Id, Job>, job: Id, expected: int, fault: Fault) {
    fault.NoFault? && Updated(jobs, job, expected, Job(Running, 0, 0, None)).Some?
  }

  function StartCleaning(o: Own, saved: nat): Process {
    if saved == 0 then Failing(o.job, o.version, o.projection) else Cleaning(o, saved)
  }

  predicate SameObject(h: Bytes -> nat, a: Bytes, b: Bytes) { |a| == |b| && h(a) == h(b) }

  // ----- the steps --------------------------------------------------------------------------

  function CreateJobOf(s: State, job: Id, projection: Id): State {
    if job in s.jobs then s else s.(jobs := s.jobs[job := Job(Pending, 1, projection, None)])
  }

  function CancelOf(s: State, job: Id): State {
    if job in s.jobs && s.jobs[job].status in {Pending, Running}
    then s.(jobs := s.jobs[job := s.jobs[job].(status := Cancelled, version := s.jobs[job].version + 1)]) else s
  }

  function ReadJobOf(s: State, p: nat, job: Id, valid: bool): State {
    At(s, p, if job in s.jobs && s.jobs[job].status.Pending? && valid
             then Claiming(job, s.jobs[job].version, s.jobs[job].projection) else Stopped)
  }

  function ClaimOf(s: State, p: nat, q: Process, fault: Fault): State
    requires q.Claiming?
  {
    At(s.(jobs := Applied(s.jobs, q.job, q.version, Job(Running, 0, q.projection, None), fault)), p,
       if Acknowledged(s.jobs, q.job, q.version, fault) then Claimed(q.job, q.version + 1, q.projection) else Stopped)
  }

  function BuildOf(s: State, p: nat, q: Process, exportId: Id, package: Option<seq<Bytes>>): State
    requires q.Claimed?
  {
    if exportId in s.exports then s
    else
      At(s.(exports := s.exports[exportId := q.job]), p,
         if package.None? || |package.value| != ARTIFACTS then Failing(q.job, q.version, q.projection)
         else Saving(Own(q.job, q.version, q.projection, exportId, package.value), 0))
  }

  function SaveObjectOf(h: Bytes -> nat, s: State, p: nat, q: Process, outcome: SaveOutcome): State
    requires q.Saving? && q.saved < |q.o.package|
  {
    var key := (q.o.exportId, q.saved);
    match outcome
    case Refused => At(s, p, StartCleaning(q.o, q.saved))
    case Lost(bytes) => At(s.(objects := s.objects[key := bytes]), p, StartCleaning(q.o, q.saved))
    case Kept(bytes) =>
      At(s.(objects := s.objects[key := bytes]), p,
         if SameObject(h, bytes, q.o.package[q.saved]) then Saving(q.o, q.saved + 1) else StartCleaning(q.o, q.saved + 1))
  }

  /** META and the guard of the projection go in one transaction, the artifact records one by one after it. */
  function CreateResultOf(s: State, p: nat, q: Process, fault: Fault): State
    requires q.Saving?
  {
    var holds := q.o.exportId !in s.metas && q.o.projection !in s.guards;
    var stored := if !holds || fault.NotApplied? then s
                  else s.(metas := s.metas[q.o.exportId := Meta(q.o.job, q.o.projection)],
                          guards := s.guards[q.o.projection := q.o.exportId]);
    At(stored, p, if holds && fault.NoFault? then Recording(q.o, 0) else StartCleaning(q.o, ARTIFACTS))
  }

  function PutRecordOf(h: Bytes -> nat, s: State, p: nat, q: Process, fault: Fault): State
    requires q.Recording? && q.recorded < |q.o.package|
  {
    var key, bytes := (q.o.exportId, q.recorded), q.o.package[q.recorded];
    var holds := key !in s.records;
    var stored := if !holds || fault.NotApplied? then s
                  else s.(records := s.records[key := Record(|bytes|, h(bytes))]);
    At(stored, p,
       if !holds || !fault.NoFault? then StartCleaning(q.o, ARTIFACTS)
       else if q.recorded + 1 == ARTIFACTS then Completing(q.o) else Recording(q.o, q.recorded + 1))
  }

  /** Saved keys are deleted last first; a deletion that fails is only logged. */
  function DeleteOf(s: State, p: nat, q: Process, succeeds: bool): State
    requires q.Cleaning? && q.left > 0
  {
    At(if succeeds then s.(objects := s.objects - {(q.o.exportId, q.left - 1)}) else s, p, StartCleaning(q.o, q.left - 1))
  }

  function FailOf(s: State, p: nat, q: Process, fault: Fault): State
    requires q.Failing?
  {
    At(s.(jobs := Applied(s.jobs, q.job, q.version, Job(Failed, 0, q.projection, None), fault)), p, Stopped)
  }

  function CompleteOf(s: State, p: nat, q: Process, fault: Fault): State
    requires q.Completing?
  {
    At(s.(jobs := Applied(s.jobs, q.o.job, q.o.version, Job(Completed, 0, q.o.projection, Some(q.o.exportId)), fault)), p, Stopped)
  }

  /** A step that its process is not ready for changes nothing. */
  function Apply(h: Bytes -> nat, s: State, step: Step): State {
    match step
    case CreateJob(job, projection) => CreateJobOf(s, job, projection)
    case Cancel(job) => CancelOf(s, job)
    case ReadJob(p, job, valid) => if ProcessOf(s, p).Idle? then ReadJobOf(s, p, job, valid) else s
    case Claim(p, fault) =>
      var q := ProcessOf(s, p); if q.Claiming? then ClaimOf(s, p, q, fault) else s
    case Build(p, exportId, package) =>
      var q := ProcessOf(s, p); if q.Claimed? then BuildOf(s, p, q, exportId, package) else s
    case SaveObject(p, outcome) =>
      var q := ProcessOf(s, p);
      if q.Saving? && q.saved < |q.o.package| then SaveObjectOf(h, s, p, q, outcome) else s
    case CreateResult(p, fault) =>
      var q := ProcessOf(s, p); if q.Saving? && q.saved == ARTIFACTS then CreateResultOf(s, p, q, fault) else s
    case PutRecord(p, fault) =>
      var q := ProcessOf(s, p);
      if q.Recording? && q.recorded < |q.o.package| then PutRecordOf(h, s, p, q, fault) else s
    case Delete(p, succeeds) =>
      var q := ProcessOf(s, p); if q.Cleaning? && q.left > 0 then DeleteOf(s, p, q, succeeds) else s
    case Fail(p, fault) =>
      var q := ProcessOf(s, p); if q.Failing? then FailOf(s, p, q, fault) else s
    case Complete(p, fault) =>
      var q := ProcessOf(s, p); if q.Completing? then CompleteOf(s, p, q, fault) else s
  }

  const INITIAL := State(map[], map[], map[], map[], map[], map[], map[])

  function Run(h: Bytes -> nat, s: State, steps: seq<Step>): State
    decreases |steps|
  {
    if steps == [] then s else Run(h, Apply(h, s, steps[0]), steps[1..])
  }

  // ----- what a reader of the tables sees ----------------------------------------------------------

  /** A result decodes only with its META record and all three artifact records. */
  ghost predicate Readable(s: State, exportId: Id) {
    exportId in s.metas && (exportId, 0) in s.records && (exportId, 1) in s.records && (exportId, 2) in s.records
  }

  /** All three objects are stored, with the recorded size and hash. */
  ghost predicate Backed(h: Bytes -> nat, s: State, exportId: Id) {
    forall i :: 0 <= i < ARTIFACTS ==>
      && (exportId, i) in s.objects && (exportId, i) in s.records
      && s.records[(exportId, i)] == Record(|s.objects[(exportId, i)]|, h(s.objects[(exportId, i)]))
  }

  // ----- the invariant of every run --------------------------------------------------------------

  function JobOf(q: Process): Option<Id> {
    match q
    case Claimed(job, _, _) => Some(job)
    case Failing(job, _, _) => Some(job)
    case Saving(o, _) => Some(o.job)
    case Recording(o, _) => Some(o.job)
    case Completing(o) => Some(o.job)
    case Cleaning(o, _) => Some(o.job)
    case _ => None
  }

  function VersionOf(q: Process): int {
    match q
    case Claimed(_, version, _) => version
    case Failing(_, version, _) => version
    case Saving(o, _) => o.version
    case Recording(o, _) => o.version
    case Completing(o) => o.version
    case Cleaning(o, _) => o.version
    case _ => 0
  }

  function OwnOf(q: Process): Option<Own> {
    match q
    case Saving(o, _) => Some(o)
    case Recording(o, _) => Some(o)
    case Completing(o) => Some(o)
    case Cleaning(o, _) => Some(o)
    case _ => None
  }

  /** What a process knows of its job: it stays marked running until the process itself, or a
      cancellation, raises its version. */
  ghost predicate Holds(s: State, q: Process) {
    && (q.Claiming? ==>
          && q.job in s.jobs && q.version <= s.jobs[q.job].version
          && (q.version == s.jobs[q.job].version ==> s.jobs[q.job].status.Pending?))
    && (JobOf(q).Some? ==>
          var job := JobOf(q).value;
          && job in s.jobs && s.jobs[job].status in {Running, Cancelled} && VersionOf(q) <= s.jobs[job].version
          && (VersionOf(q) == s.jobs[job].version ==> s.jobs[job].status.Running?))
    && (q.Claimed? ==> forall e :: e in s.exports ==> s.exports[e] != q.job)
    && (OwnOf(q).Some? ==>
          var o := OwnOf(q).value;
          |o.package| == ARTIFACTS && o.exportId in s.exports && s.exports[o.exportId] == o.job)
  }

  /** The first `count` objects of a run are stored as its artifacts. */
  ghost predicate Saved(h: Bytes -> nat, s: State, o: Own, count: nat) {
    count <= |o.package| == ARTIFACTS
    && forall i :: 0 <= i < count ==>
         (o.exportId, i) in s.objects && SameObject(h, s.objects[(o.exportId, i)], o.package[i])
  }

  ghost predicate Recorded(h: Bytes -> nat, s: State, o: Own, count: nat) {
    count <= |o.package| == ARTIFACTS
    && o.exportId in s.metas && s.metas[o.exportId].job == o.job
    && forall i :: 0 <= i < count ==>
         (o.exportId, i) in s.records && s.records[(o.exportId, i)] == Record(|o.package[i]|, h(o.package[i]))
  }

  ghost predicate Unrecorded(s: State, exportId: Id, from: nat) {
    forall i :: from <= i < ARTIFACTS ==> (exportId, i) !in s.records
  }

  ghost predicate Progress(h: Bytes -> nat, s: State, q: Process) {
    match q
    case Saving(o, saved) => Saved(h, s, o, saved) && o.exportId !in s.metas && Unrecorded(s, o.exportId, 0)
    case Recording(o, recorded) =>
      Saved(h, s, o, ARTIFACTS) && recorded < ARTIFACTS && Recorded(h, s, o, recorded) && Unrecorded(s, o.exportId, recorded)
    case Completing(o) => Saved(h, s, o, ARTIFACTS) && Recorded(h, s, o, ARTIFACTS)
    case Cleaning(o, left) => 0 < left <= ARTIFACTS
    case _ => true
  }

  ghost predicate OneRunPerJob(s: State) {
    forall p, q :: p in s.processes && q in s.processes && p != q && JobOf(s.processes[p]).Some? ==>
      JobOf(s.processes[p]) != JobOf(s.processes[q])
  }

  ghost predicate Tables(s: State) {
    && (forall d, e :: d in s.exports && e in s.exports && s.exports[d] == s.exports[e] ==> d == e)
    && (forall e :: e in s.exports ==> s.exports[e] in s.jobs && !s.jobs[s.exports[e]].status.Pending?)
    && (forall e :: e in s.metas ==> e in s.exports && s.metas[e].job == s.exports[e])
    && (forall e, i :: (e, i) in s.objects ==> e in s.exports)
    && (forall e, i :: (e, i) in s.records ==> e in s.metas)
  }

  /** The result of a completed job is stored with all its objects, and nobody works on the job any more. */
  ghost predicate CompletedJobs(h: Bytes -> nat, s: State) {
    forall j :: j in s.jobs && s.jobs[j].status.Completed? ==>
      && s.jobs[j].result.Some?
      && var e := s.jobs[j].result.value;
         e in s.metas && s.metas[e].job == j && Backed(h, s, e)
  }

  ghost predicate Inv(h: Bytes -> nat, s: State) {
    && Tables(s) && OneRunPerJob(s) && CompletedJobs(h, s)
    && forall p :: p in s.processes ==> Holds(s, s.processes[p]) && Progress(h, s, s.processes[p])
  }

  // ----- every step keeps it ----------------------------------------------------------------------

  /** How one step of a process moves the tables: only the records of its own run change. */
  ghost predicate Touches(s: State, s': State, mine: Option<Id>) {
    && (forall e, i :: e !in s.exports || mine != Some(s.exports[e]) ==>
          ((e, i) in s'.objects <==> (e, i) in s.objects) && ((e, i) in s.objects ==> s'.objects[(e, i)] == s.objects[(e, i)]))
    && (forall e, i :: e !in s.exports || mine != Some(s.exports[e]) ==>
          ((e, i) in s'.records <==> (e, i) in s.records) && ((e, i) in s.records ==> s'.records[(e, i)] == s.records[(e, i)]))
    && (forall e :: e !in s.exports || mine != Some(s.exports[e]) ==>
          (e in s'.metas <==> e in s.metas) && (e in s.metas ==> s'.metas[e] == s.metas[e]))
    && (forall e :: e in s.exports ==> e in s'.exports && s'.exports[e] == s.exports[e])
    && (forall e :: e in s'.exports && e !in s.exports ==> mine == Some(s'.exports[e]))
  }

  /** Jobs other than `mine` are only created or cancelled. */
  ghost predicate JobsMove(s: State, s': State, mine: Option<Id>) {
    forall j :: j in s.jobs ==>
      && j in s'.jobs
      && (s'.jobs[j] == s.jobs[j] || mine == Some(j)
          || (s.jobs[j].status in {Pending, Running} && s'.jobs[j].status.Cancelled? && s'.jobs[j].version > s.jobs[j].version))
  }

  /** A process of another job does not notice. */
  lemma OthersKeep(h: Bytes -> nat, s: State, s': State, mine: Option<Id>, q: Process)
    requires Tables(s) && Holds(s, q) && Progress(h, s, q) && Touches(s, s', mine) && JobsMove(s, s', mine)
    requires mine.Some? ==> JobOf(q) != mine
    requires q.Claiming? && mine == Some(q.job) ==>
      q.job in s'.jobs && (s'.jobs[q.job] == s.jobs[q.job] || s'.jobs[q.job].version > s.jobs[q.job].version)
    ensures Holds(s', q) && Progress(h, s', q)
  {
    hide Tables, Touches, JobsMove, Holds, Progress;
    HoldsKeeps(s, s', mine, q);
    ProgressKeeps(h, s, s', mine, q);
  }

  lemma HoldsKeeps(s: State, s': State, mine: Option<Id>, q: Process)
    requires Holds(s, q) && Touches(s, s', mine) && JobsMove(s, s', mine) && (mine.Some? ==> JobOf(q) != mine)
    requires q.Claiming? && mine == Some(q.job) ==>
      q.job in s'.jobs && (s'.jobs[q.job] == s.jobs[q.job] || s'.jobs[q.job].version > s.jobs[q.job].version)
    ensures Holds(s', q)
  {
  }

  lemma ProgressKeeps(h: Bytes -> nat, s: State, s': State, mine: Option<Id>, q: Process)
    requires Tables(s) && Holds(s, q) && Progress(h, s, q) && Touches(s, s', mine) && (mine.Some? ==> JobOf(q) != mine)
    ensures Progress(h, s', q)
  {
    hide Tables;
  }

  ghost predicate MineMoves(s: State, s': State, mine: Option<Id>) {
    mine.Some? ==>
      && mine.value in s.jobs && mine.value in s'.jobs && !s.jobs[mine.value].status.Completed?
      && (s'.jobs[mine.value] == s.jobs[mine.value] || s'.jobs[mine.value].version > s.jobs[mine.value].version)
  }

  lemma CompletedKeep(h: Bytes -> nat, s: State, s': State, mine: Option<Id>, j: Id)
    requires Tables(s) && CompletedJobs(h, s) && Touches(s, s', mine) && JobsMove(s, s', mine)
    requires j in s.jobs && j in s'.jobs && s'.jobs[j].status.Completed? && mine != Some(j)
    ensures s'.jobs[j].result.Some?
    ensures var e := s'.jobs[j].result.value;
      e in s'.metas && s'.metas[e].job == j && Backed(h, s', e)
  {
  }

  /** What is to check of a step of process `p`: its own successor, and its own job. */
  lemma MoveKeeps(h: Bytes -> nat, s: State, s': State, mine: Option<Id>, p: nat, q: Process)
    requires Inv(h, s) && Tables(s') && Touches(s, s', mine) && JobsMove(s, s', mine) && MineMoves(s, s', mine)
    requires s'.processes == s.processes[p := q] && Holds(s', q) && Progress(h, s', q)
    requires JobOf(q).Some? ==> JobOf(q) == mine
    requires forall r :: r in s.processes && r != p && mine.Some? ==> JobOf(s.processes[r]) != mine
    requires forall j :: j in s'.jobs && j !in s.jobs ==> s'.jobs[j].status.Pending?
    requires mine.Some? && s'.jobs[mine.value].status.Completed? ==>
      && s'.jobs[mine.value].result.Some?
      && var e := s'.jobs[mine.value].result.value;
         e in s'.metas && s'.metas[e].job == mine.value && Backed(h, s', e)
    ensures Inv(h, s')
  {
    hide Tables, Touches, JobsMove, Holds, Progress, Backed;
    forall r | r in s'.processes && r != p
      ensures r in s.processes && s'.processes[r] == s.processes[r] && Holds(s', s.processes[r]) && Progress(h, s', s.processes[r])
    {
      OthersKeep(h, s, s', mine, s.processes[r]);
    }
    forall j | j in s'.jobs && s'.jobs[j].status.Completed?
      ensures s'.jobs[j].result.Some?
        && var e := s'.jobs[j].result.value; e in s'.metas && s'.metas[e].job == j && Backed(h, s', e)
    {
      if mine != Some(j) { CompletedKeep(h, s, s', mine, j); }
    }
  }

  /** The job of a running process is nobody else's and is not completed. */
  lemma MineAlone(h: Bytes -> nat, s: State, p: nat)
    requires Inv(h, s) && p in s.processes && JobOf(s.processes[p]).Some?
    ensures forall r :: r in s.processes && r != p ==> JobOf(s.processes[r]) != JobOf(s.processes[p])
    ensures Tables(s) && Holds(s, s.processes[p]) && Progress(h, s, s.processes[p])
  {
  }

  lemma InvParts(h: Bytes -> nat, s: State, p: nat)
    requires Inv(h, s)
    ensures Tables(s) && CompletedJobs(h, s) && (p in s.processes ==> Holds(s, s.processes[p]) && Progress(h, s, s.processes[p]))
  {
  }

  /** A step that leaves all tables but the job table alone. */
  lemma JobsOnly(s: State, s': State, mine: Option<Id>)
    requires Tables(s) && (s'.objects, s'.metas, s'.records, s'.exports) == (s.objects, s.metas, s.records, s.exports)
    requires forall j :: j in s.jobs ==> j in s'.jobs && (s.jobs[j].status.Pending? || !s'.jobs[j].status.Pending?)
    ensures Touches(s, s', mine) && Tables(s')
  {
  }

  ghost predicate NobodysStep(s: State, s': State) {
    && Tables(s') && Touches(s, s', None) && JobsMove(s, s', None) && s'.processes == s.processes
    && forall j :: j in s'.jobs && j !in s.jobs ==> s'.jobs[j].status.Pending?
  }

  /** Only the job table changes, and by what anybody may do to it. */
  ghost predicate MovesJobs(s: State, s': State) {
    && s' == s.(jobs := s'.jobs) && JobsMove(s, s', None)
    && (forall j :: j in s.jobs ==> s.jobs[j].status.Pending? || !s'.jobs[j].status.Pending?)
    && forall j :: j in s'.jobs && j !in s.jobs ==> s'.jobs[j].status.Pending?
  }

  lemma MovedJobs(s: State, s': State)
    requires Tables(s) && MovesJobs(s, s')
    ensures NobodysStep(s, s')
  {
    hide Tables, Touches;
    JobsOnly(s, s', None);
  }

  lemma CreateJobMoves(s: State, job: Id, projection: Id)
    requires Tables(s)
    ensures NobodysStep(s, CreateJobOf(s, job, projection))
  {
    hide Tables, NobodysStep;
    MovedJobs(s, CreateJobOf(s, job, projection));
  }

  lemma CancelMoves(s: State, job: Id)
    requires Tables(s)
    ensures NobodysStep(s, CancelOf(s, job))
  {
    hide Tables, NobodysStep;
    MovedJobs(s, CancelOf(s, job));
  }

  lemma JobStepKeeps(h: Bytes -> nat, s: State, step: Step)
    requires Inv(h, s) && (step.CreateJob? || step.Cancel?)
    ensures Inv(h, Apply(h, s, step))
  {
    hide Inv, Tables, Touches, JobsMove, Holds, Progress, CompletedJobs, CreateJobOf, CancelOf, NobodysStep;
    InvParts(h, s, 0);
    if step.CreateJob? { CreateJobMoves(s, step.job, step.projection); } else { CancelMoves(s, step.job); }
    NobodyMoves(h, s, Apply(h, s, step));
  }

  lemma NobodyMoves(h: Bytes -> nat, s: State, s': State)
    requires Inv(h, s) && NobodysStep(s, s')
    ensures Inv(h, s')
  {
    hide Tables, Touches, JobsMove, Holds, Progress, Backed;
    forall r | r in s'.processes ensures Holds(s', s.processes[r]) && Progress(h, s', s.processes[r]) {
      OthersKeep(h, s, s', None, s.processes[r]);
    }
    forall j | j in s'.jobs && s'.jobs[j].status.Completed?
      ensures s'.jobs[j].result.Some?
        && var e := s'.jobs[j].result.value; e in s'.metas && s'.metas[e].job == j && Backed(h, s', e)
    {
      CompletedKeep(h, s, s', None, j);
    }
  }

  lemma ReadJobKeeps(h: Bytes -> nat, s: State, step: Step)
    requires Inv(h, s) && step.ReadJob?
    ensures Inv(h, Apply(h, s, step))
  {
    if ProcessOf(s, step.p).Idle? {
      var s' := Apply(h, s, step);
      hide Inv, Tables, Touches, Backed, CompletedJobs;
      InvParts(h, s, step.p);
      JobsOnly(s, s', None);
      MoveKeeps(h, s, s', None, step.p, s'.processes[step.p]);
    }
  }

  lemma ClaimKeeps(h: Bytes -> nat, s: State, step: Step)
    requires Inv(h, s) && step.Claim?
    ensures Inv(h, Apply(h, s, step))
  {
    var q := ProcessOf(s, step.p);
    if q.Claiming? {
      hide Inv, Touches, JobsMove, MineMoves, Backed, CompletedJobs, Tables, Progress, ClaimOf;
      InvParts(h, s, step.p);
      var s' := Apply(h, s, step);
      ClaimMoves(h, s, s', step.p, q, step.fault);
      if s'.jobs == s.jobs {
        hide Holds;
        MoveKeeps(h, s, s', None, step.p, s'.processes[step.p]);
      } else {
        forall r | r in s.processes ensures JobOf(s.processes[r]) != Some(q.job) { InvParts(h, s, r); }
        hide Holds;
        MoveKeeps(h, s, s', Some(q.job), step.p, s'.processes[step.p]);
      }
    }
  }

  lemma ClaimMoves(h: Bytes -> nat, s: State, s': State, p: nat, q: Process, fault: Fault)
    requires Tables(s) && Holds(s, q) && q.Claiming? && s' == ClaimOf(s, p, q, fault)
    ensures var mine := if s'.jobs == s.jobs then None else Some(q.job);
      && Tables(s') && Touches(s, s', mine) && JobsMove(s, s', mine) && MineMoves(s, s', mine)
    ensures p in s'.processes && s'.processes == s.processes[p := s'.processes[p]]
    ensures Holds(s', s'.processes[p]) && Progress(h, s', s'.processes[p])
    ensures JobOf(s'.processes[p]).Some? ==> JobOf(s'.processes[p]) == Some(q.job) && s'.jobs != s.jobs
    ensures forall j :: j in s'.jobs ==> j in s.jobs
    ensures s'.jobs != s.jobs ==> s.jobs[q.job].status.Pending? && s'.jobs[q.job].status.Running?
  {
    hide Touches;
    JobsOnly(s, s', if s'.jobs == s.jobs then None else Some(q.job));
  }

  lemma BuildMoves(s: State, s': State, p: nat, q: Process, exportId: Id, package: Option<seq<Bytes>>)
    requires Tables(s) && Holds(s, q) && q.Claimed? && exportId !in s.exports && s' == BuildOf(s, p, q, exportId, package)
    ensures Tables(s') && Touches(s, s', Some(q.job)) && JobsMove(s, s', Some(q.job)) && MineMoves(s, s', Some(q.job))
  {
  }

  lemma BuildHolds(h: Bytes -> nat, s: State, s': State, p: nat, q: Process, exportId: Id, package: Option<seq<Bytes>>)
    requires Tables(s) && Holds(s, q) && q.Claimed? && exportId !in s.exports && s' == BuildOf(s, p, q, exportId, package)
    ensures p in s'.processes && s'.processes == s.processes[p := s'.processes[p]] && s'.jobs == s.jobs
    ensures Holds(s', s'.processes[p]) && Progress(h, s', s'.processes[p]) && JobOf(s'.processes[p]) == Some(q.job)
    ensures s.jobs[q.job].status in {Running, Cancelled}
  {
  }

  lemma BuildKeeps(h: Bytes -> nat, s: State, step: Step)
    requires Inv(h, s) && step.Build?
    ensures Inv(h, Apply(h, s, step))
  {
    var q := ProcessOf(s, step.p);
    if q.Claimed? && step.exportId !in s.exports {
      hide Inv, CompletedJobs, Backed, OneRunPerJob, BuildOf, Holds, Progress, Touches, JobsMove, MineMoves, Tables;
      MineAlone(h, s, step.p);
      var s' := Apply(h, s, step);
      BuildMoves(s, s', step.p, q, step.exportId, step.package);
      BuildHolds(h, s, s', step.p, q, step.exportId, step.package);
      MoveKeeps(h, s, s', Some(q.job), step.p, s'.processes[step.p]);
    }
  }

  /** A step of process `p` on the records of its own export, and what `p` is then. */
  ghost predicate OwnStep(h: Bytes -> nat, s: State, s': State, p: nat, o: Own) {
    && Tables(s') && Touches(s, s', Some(o.job)) && JobsMove(s, s', Some(o.job)) && MineMoves(s, s', Some(o.job))
    && s'.jobs == s.jobs && p in s'.processes && s'.processes == s.processes[p := s'.processes[p]]
    && Holds(s', s'.processes[p]) && Progress(h, s', s'.processes[p])
    && (JobOf(s'.processes[p]).Some? ==> JobOf(s'.processes[p]) == Some(o.job))
  }

  /** A step of a run that changes only the records of its own export. */
  lemma OwnMoves(s: State, s': State, o: Own)
    requires Tables(s) && o.exportId in s.exports && s.exports[o.exportId] == o.job
    requires o.job in s.jobs && s.jobs[o.job].status in {Running, Cancelled}
    requires s'.jobs == s.jobs && s'.exports == s.exports
    requires forall e, i :: e != o.exportId ==>
      ((e, i) in s'.objects <==> (e, i) in s.objects) && ((e, i) in s.objects ==> s'.objects[(e, i)] == s.objects[(e, i)])
    requires forall e, i :: e != o.exportId ==>
      ((e, i) in s'.records <==> (e, i) in s.records) && ((e, i) in s.records ==> s'.records[(e, i)] == s.records[(e, i)])
    requires forall e :: e != o.exportId ==> (e in s'.metas <==> e in s.metas) && (e in s.metas ==> s'.metas[e] == s.metas[e])
    requires o.exportId in s'.metas ==> s'.metas[o.exportId].job == o.job
    requires forall i :: (o.exportId, i) in s'.records ==> o.exportId in s'.metas
    ensures Tables(s') && Touches(s, s', Some(o.job)) && JobsMove(s, s', Some(o.job)) && MineMoves(s, s', Some(o.job))
  {
  }

  lemma SaveObjectProgress(h: Bytes -> nat, s: State, s': State, p: nat, q: Process, outcome: SaveOutcome)
    requires Holds(s, q) && Progress(h, s, q) && q.Saving? && q.saved < |q.o.package|
    requires s' == SaveObjectOf(h, s, p, q, outcome)
    ensures Holds(s', s'.processes[p]) && Progress(h, s', s'.processes[p])
  {
  }

  lemma SaveObjectMoves(h: Bytes -> nat, s: State, s': State, p: nat, q: Process, outcome: SaveOutcome)
    requires Tables(s) && Holds(s, q) && Progress(h, s, q) && q.Saving? && q.saved < |q.o.package|
    requires s' == SaveObjectOf(h, s, p, q, outcome)
    ensures OwnStep(h, s, s', p, q.o)
  {
    hide Touches, JobsMove, MineMoves;
    SaveObjectProgress(h, s, s', p, q, outcome);
    assert forall e, i :: (e, i) in s.records ==> e in s.metas;
    OwnMoves(s, s', q.o);
    hide Tables, Holds, Progress;
  }

  lemma SaveObjectKeeps(h: Bytes -> nat, s: State, step: Step)
    requires Inv(h, s) && step.SaveObject?
    ensures Inv(h, Apply(h, s, step))
  {
    var q := ProcessOf(s, step.p);
    if q.Saving? && q.saved < |q.o.package| {
      hide Inv, CompletedJobs, Backed, OneRunPerJob, Holds, Progress, Touches, JobsMove, MineMoves, Tables, OwnStep;
      MineAlone(h, s, step.p);
      var s' := Apply(h, s, step);
      SaveObjectMoves(h, s, s', step.p, q, step.outcome);
      hide SaveObjectOf;
      OwnContinues(h, s, s', step.p, q.o);
    }
  }

  /** The successor of a run of an export, whose job is still not completed. */
  lemma OwnContinues(h: Bytes -> nat, s: State, s': State, p: nat, o: Own)
    requires Inv(h, s) && p in s.processes && OwnOf(s.processes[p]) == Some(o)
    requires OwnStep(h, s, s', p, o)
    ensures Inv(h, s')
  {
    hide Inv, Tables, Touches, JobsMove, Progress, CompletedJobs, Backed;
    MineAlone(h, s, p);
    MoveKeeps(h, s, s', Some(o.job), p, s'.processes[p]);
  }

  lemma CreateResultProgress(h: Bytes -> nat, s: State, s': State, p: nat, q: Process, fault: Fault)
    requires Holds(s, q) && Progress(h, s, q) && q.Saving? && q.saved == ARTIFACTS
    requires s' == CreateResultOf(s, p, q, fault)
    ensures Holds(s', s'.processes[p]) && Progress(h, s', s'.processes[p])
  {
  }

  lemma CreateResultMoves(h: Bytes -> nat, s: State, s': State, p: nat, q: Process, fault: Fault)
    requires Tables(s) && Holds(s, q) && Progress(h, s, q) && q.Saving? && q.saved == ARTIFACTS
    requires s' == CreateResultOf(s, p, q, fault)
    ensures OwnStep(h, s, s', p, q.o)
  {
    hide Touches, JobsMove, MineMoves;
    CreateResultProgress(h, s, s', p, q, fault);
    assert forall e, i :: (e, i) in s.records ==> e in s.metas;
    OwnMoves(s, s', q.o);
    hide Tables, Holds, Progress;
  }

  lemma CreateResultKeeps(h: Bytes -> nat, s: State, step: Step)
    requires Inv(h, s) && step.CreateResult?
    ensures Inv(h, Apply(h, s, step))
  {
    var q := ProcessOf(s, step.p);
    if q.Saving? && q.saved == ARTIFACTS {
      hide Inv, CompletedJobs, Backed, OneRunPerJob, Holds, Progress, Touches, JobsMove, MineMoves, Tables, OwnStep;
      MineAlone(h, s, step.p);
      var s' := Apply(h, s, step);
      CreateResultMoves(h, s, s', step.p, q, step.fault);
      hide CreateResultOf;
      OwnContinues(h, s, s', step.p, q.o);
    }
  }

  lemma PutRecordProgress(h: Bytes -> nat, s: State, s': State, p: nat, q: Process, fault: Fault)
    requires Holds(s, q) && Progress(h, s, q) && q.Recording? && q.recorded < |q.o.package|
    requires s' == PutRecordOf(h, s, p, q, fault)
    ensures Holds(s', s'.processes[p]) && Progress(h, s', s'.processes[p])
  {
    if s'.processes[p] == StartCleaning(q.o, ARTIFACTS) {
      CleaningProgress(h, s, s', q);
    } else {
      hide SameObject;
      assert s'.records == s.records[(q.o.exportId, q.recorded) := Record(|q.o.package[q.recorded]|, h(q.o.package[q.recorded]))];
    }
  }

  lemma CleaningProgress(h: Bytes -> nat, s: State, s': State, q: Process)
    requires Holds(s, q) && q.Recording? && s'.jobs == s.jobs && s'.exports == s.exports
    ensures Holds(s', StartCleaning(q.o, ARTIFACTS)) && Progress(h, s', StartCleaning(q.o, ARTIFACTS))
  {
  }

  lemma PutRecordMoves(h: Bytes -> nat, s: State, s': State, p: nat, q: Process, fault: Fault)
    requires Tables(s) && Holds(s, q) && Progress(h, s, q) && q.Recording? && q.recorded < |q.o.package|
    requires s' == PutRecordOf(h, s, p, q, fault)
    ensures OwnStep(h, s, s', p, q.o)
  {
    hide Touches, JobsMove, MineMoves, Tables, Holds, Progress, PutRecordOf;
    PutRecordProgress(h, s, s', p, q, fault);
    PutRecordFrame(h, s, s', p, q, fault);
    OwnMoves(s, s', q.o);
  }

  lemma PutRecordFrame(h: Bytes -> nat, s: State, s': State, p: nat, q: Process, fault: Fault)
    requires Tables(s) && Holds(s, q) && Progress(h, s, q) && q.Recording? && q.recorded < |q.o.package|
    requires s' == PutRecordOf(h, s, p, q, fault)
    ensures s' == s.(records := s'.records, processes := s'.processes)
    ensures p in s'.processes && s'.processes == s.processes[p := s'.processes[p]]
    ensures JobOf(s'.processes[p]) == Some(q.o.job)
    ensures q.o.exportId in s.exports && s.exports[q.o.exportId] == q.o.job
    ensures q.o.job in s.jobs && s.jobs[q.o.job].status in {Running, Cancelled}
    ensures q.o.exportId in s.metas && s.metas[q.o.exportId].job == q.o.job
    ensures forall e, i :: e != q.o.exportId ==>
      ((e, i) in s'.records <==> (e, i) in s.records) && ((e, i) in s.records ==> s'.records[(e, i)] == s.records[(e, i)])
  {
    hide Saved, Unrecorded;
  }

  lemma PutRecordKeeps(h: Bytes -> nat, s: State, step: Step)
    requires Inv(h, s) && step.PutRecord?
    ensures Inv(h, Apply(h, s, step))
  {
    var q := ProcessOf(s, step.p);
    if q.Recording? && q.recorded < |q.o.package| {
      hide Inv, CompletedJobs, Backed, OneRunPerJob, Holds, Progress, Touches, JobsMove, MineMoves, Tables, OwnStep;
      MineAlone(h, s, step.p);
      var s' := Apply(h, s, step);
      PutRecordMoves(h, s, s', step.p, q, step.fault);
      hide PutRecordOf;
      OwnContinues(h, s, s', step.p, q.o);
    }
  }

  lemma DeleteMoves(h: Bytes -> nat, s: State, s': State, p: nat, q: Process, succeeds: bool)
    requires Tables(s) && Holds(s, q) && Progress(h, s, q) && q.Cleaning? && q.left > 0
    requires s' == DeleteOf(s, p, q, succeeds)
    ensures OwnStep(h, s, s', p, q.o)
  {
    hide Touches, JobsMove, MineMoves;
    assert forall e, i :: (e, i) in s.records ==> e in s.metas;
    assert q.o.exportId in s.metas ==> s.metas[q.o.exportId].job == q.o.job;
    OwnMoves(s, s', q.o);
    hide Tables;
  }

  lemma DeleteKeeps(h: Bytes -> nat, s: State, step: Step)
    requires Inv(h, s) && step.Delete?
    ensures Inv(h, Apply(h, s, step))
  {
    var q := ProcessOf(s, step.p);
    if q.Cleaning? && q.left > 0 {
      hide Inv, CompletedJobs, Backed, OneRunPerJob, Holds, Progress, Touches, JobsMove, MineMoves, Tables, OwnStep;
      MineAlone(h, s, step.p);
      var s' := Apply(h, s, step);
      DeleteMoves(h, s, s', step.p, q, step.succeeds);
      hide DeleteOf;
      OwnContinues(h, s, s', step.p, q.o);
    }
  }

  /** The last write of a run: its job is updated if it is still at the version, and nothing else changes. */
  lemma EndMoves(s: State, s': State, p: nat, job: Id, version: int, next: Job, fault: Fault)
    requires Tables(s) && job in s.jobs && s.jobs[job].status in {Running, Cancelled} && version <= s.jobs[job].version
    requires next.status in {JobStatus.Failed, JobStatus.Completed}
    requires s' == At(s.(jobs := Applied(s.jobs, job, version, next, fault)), p, Stopped)
    ensures Tables(s') && Touches(s, s', Some(job)) && JobsMove(s, s', Some(job)) && MineMoves(s, s', Some(job))
    ensures s'.processes == s.processes[p := Stopped] && forall j :: j in s'.jobs ==> j in s.jobs
    ensures s'.jobs[job] == s.jobs[job] || s'.jobs[job] == next.(version := version + 1)
    ensures (s'.objects, s'.metas, s'.records, s'.exports) == (s.objects, s.metas, s.records, s.exports)
  {
    hide Tables, Touches;
    JobsOnly(s, s', Some(job));
  }

  lemma StoppedKeeps(h: Bytes -> nat, s: State)
    ensures Holds(s, Stopped) && Progress(h, s, Stopped)
  {
  }

  lemma FailKeeps(h: Bytes -> nat, s: State, step: Step)
    requires Inv(h, s) && step.Fail?
    ensures Inv(h, Apply(h, s, step))
  {
    var q := ProcessOf(s, step.p);
    if q.Failing? {
      hide Inv, CompletedJobs, Backed, OneRunPerJob, Touches, Tables, JobsMove, MineMoves, Applied;
      MineAlone(h, s, step.p);
      var s' := Apply(h, s, step);
      EndMoves(s, s', step.p, q.job, q.version, Job(Failed, 0, q.projection, None), step.fault);
      StoppedKeeps(h, s');
      hide Holds, Progress;
      MoveKeeps(h, s, s', Some(q.job), step.p, Stopped);
    }
  }

  /** What a run that has come to its completion has stored. */
  lemma CompletingIsBacked(h: Bytes -> nat, s: State, s': State, o: Own)
    requires Progress(h, s, Completing(o)) && s'.objects == s.objects && s'.records == s.records && s'.metas == s.metas
    ensures Backed(h, s', o.exportId) && o.exportId in s'.metas && s'.metas[o.exportId].job == o.job
  {
  }

  lemma CompleteKeeps(h: Bytes -> nat, s: State, step: Step)
    requires Inv(h, s) && step.Complete?
    ensures Inv(h, Apply(h, s, step))
  {
    var q := ProcessOf(s, step.p);
    if q.Completing? {
      hide Inv, CompletedJobs, Backed, OneRunPerJob, Touches, Tables, JobsMove, MineMoves, Applied, Progress;
      MineAlone(h, s, step.p);
      var s' := Apply(h, s, step);
      EndMoves(s, s', step.p, q.o.job, q.o.version, Job(Completed, 0, q.o.projection, Some(q.o.exportId)), step.fault);
      CompletingIsBacked(h, s, s', q.o);
      StoppedKeeps(h, s');
      hide Holds;
      MoveKeeps(h, s, s', Some(q.o.job), step.p, Stopped);
    }
  }

  lemma StepKeeps(h: Bytes -> nat, s: State, step: Step)
    requires Inv(h, s)
    ensures Inv(h, Apply(h, s, step))
  {
    hide *;
    match step
    case CreateJob(_, _) => JobStepKeeps(h, s, step);
    case Cancel(_) => JobStepKeeps(h, s, step);
    case ReadJob(_, _, _) => ReadJobKeeps(h, s, step);
    case Claim(_, _) => ClaimKeeps(h, s, step);
    case Build(_, _, _) => BuildKeeps(h, s, step);
    case SaveObject(_, _) => SaveObjectKeeps(h, s, step);
    case CreateResult(_, _) => CreateResultKeeps(h, s, step);
    case PutRecord(_, _) => PutRecordKeeps(h, s, step);
    case Delete(_, _) => DeleteKeeps(h, s, step);
    case Fail(_, _) => FailKeeps(h, s, step);
    case Complete(_, _) => CompleteKeeps(h, s, step);
  }

  lemma {:induction false} RunKeeps(h: Bytes -> nat, s: State, steps: seq<Step>)
    requires Inv(h, s)
    ensures Inv(h, Run(h, s, steps))
    decreases |steps|
  {
    hide Inv, Apply;
    if steps != [] {
      StepKeeps(h, s, steps[0]);
      RunKeeps(h, Apply(h, s, steps[0]), steps[1..]);
    }
  }
}
