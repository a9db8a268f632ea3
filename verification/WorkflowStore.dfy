/**
 The shared workflow store: one partition per workflow, one guard per product
 with an active workflow, and all-or-nothing conditional transactions.
 */
module WorkflowStore {
  import opened Wrappers
  import opened CatalogWorkflow
  import opened WorkflowShape

  datatype Store = Store(workflows: map<Id, Workflow>, guards: map<Id, Id>)

  /** A write can be lost, or be applied with its acknowledgement lost. */
  datatype Fault = NoFault | NotApplied | LostAcknowledgement

  datatype Sent = Sent(store: Store, acknowledged: bool)

  function CreateTransaction(st: Store, w: Workflow): Option<Store> {
    if w.product in st.guards || w.id in st.workflows then None
    else Some(Store(st.workflows[w.id := w], st.guards[w.product := w.id]))
  }

  function SaveTransaction(st: Store, w: Workflow, expected: int): Option<Store> {
    if w.version != expected + 1 then None
    else if w.id !in st.workflows || st.workflows[w.id].version != expected then None
    else if !Terminal(w.status) then Some(st.(workflows := st.workflows[w.id := w]))
    else if w.product !in st.guards || st.guards[w.product] != w.id then None
    else Some(Store(st.workflows[w.id := w], st.guards - {w.product}))
  }

  function Deliver(st: Store, transaction: Option<Store>, fault: Fault): Sent {
    if fault.NotApplied? || transaction.None? then Sent(st, false)
    else Sent(transaction.value, fault.NoFault?)
  }

  // ----- records: META is the workflow without its stages ---------------------

  function MetaOf(w: Workflow): Workflow { w.(stages := []) }

  function Decode(meta: Workflow, read: map<StageName, Stage>): Result<Workflow, WorkflowError> {
    if exists i :: 0 <= i < STAGE_COUNT && StageAt(i) !in read then Failure(InvalidEntity)
    else Checked(meta.(stages := seq(STAGE_COUNT, i requires 0 <= i < STAGE_COUNT && StageAt(i) in read => read[StageAt(i)])))
  }

  /** The META record and all stage records of one version decode to that version. */
  lemma DecodeRoundTrip(w: Workflow, read: map<StageName, Stage>)
    requires Ordered(w.stages)
    requires forall n :: n in read ==> read[n] == w.stages[IndexOf(n)]
    requires forall i :: 0 <= i < STAGE_COUNT ==> StageAt(i) in read
    ensures Decode(MetaOf(w), read) == Checked(w)
  {
    var stages := seq(STAGE_COUNT, i requires 0 <= i < STAGE_COUNT && StageAt(i) in read => read[StageAt(i)]);
    forall i | 0 <= i < STAGE_COUNT ensures stages[i] == w.stages[i] { IndexOfStageAt(i); }
    assert stages == w.stages;
    assert MetaOf(w).(stages := stages) == w;
  }

  // ----- the invariant of the store, and how it evolves -----------------------

  /** Every stored workflow has the shape that the transitions keep. */
  ghost predicate AllShaped(st: Store) {
    forall id :: id in st.workflows ==> Shape(st.workflows[id])
  }

  /** A guard stands for exactly one active workflow of its product. */
  ghost predicate Guarded(st: Store) {
    && (forall id :: id in st.workflows ==> st.workflows[id].id == id)
    && (forall p :: p in st.guards ==>
          st.guards[p] in st.workflows && st.workflows[st.guards[p]].product == p
          && !Terminal(st.workflows[st.guards[p]].status))
    && (forall id :: id in st.workflows && !Terminal(st.workflows[id].status) ==>
          st.workflows[id].product in st.guards && st.guards[st.workflows[id].product] == id)
  }

  ghost predicate StoreInv(st: Store) { AllShaped(st) && Guarded(st) }

  /** A copy that is not ahead of the store, and is the stored workflow if it is not behind. */
  ghost predicate Known(st: Store, w: Workflow) {
    && w.id in st.workflows && w.version <= st.workflows[w.id].version
    && (w.version == st.workflows[w.id].version ==> w == st.workflows[w.id])
  }

  /** Nothing is lost, versions rise with every change, and terminal workflows never change. */
  ghost predicate Evolves(st: Store, st': Store) {
    forall id :: id in st.workflows ==>
      && id in st'.workflows
      && (st'.workflows[id] == st.workflows[id]
          || (&& st'.workflows[id].version > st.workflows[id].version
              && !Terminal(st.workflows[id].status)
              && st'.workflows[id].product == st.workflows[id].product
              && st'.workflows[id].progress >= st.workflows[id].progress))
  }

  lemma EvolvesTransitive(a: Store, b: Store, c: Store)
    requires Evolves(a, b) && Evolves(b, c)
    ensures Evolves(a, c)
  {
  }

  lemma CreateGuards(st: Store, w: Workflow)
    requires Guarded(st) && !Terminal(w.status) && CreateTransaction(st, w).Some?
    ensures Guarded(CreateTransaction(st, w).value) && Evolves(st, CreateTransaction(st, w).value)
  {
  }

  lemma CreateKeeps(st: Store, w: Workflow, fault: Fault)
    requires StoreInv(st) && Shape(w) && w.status.Pending?
    ensures var sent := Deliver(st, CreateTransaction(st, w), fault);
      && StoreInv(sent.store) && Evolves(st, sent.store)
      && (sent.acknowledged ==> w.id !in st.workflows && w.id in sent.store.workflows && sent.store.workflows[w.id] == w)
  {
    if CreateTransaction(st, w).Some? { CreateGuards(st, w); }
  }

  /** A copy only reaches the store while it is the stored workflow. */
  lemma SaveReplaces(st: Store, w: Workflow, next: Workflow)
    requires Guarded(st) && Known(st, w)
    requires next.id == w.id && SaveTransaction(st, next, w.version).Some?
    ensures st.workflows[w.id] == w
    ensures SaveTransaction(st, next, w.version).value.workflows == st.workflows[w.id := next]
  {
  }

  lemma SaveGuards(st: Store, w: Workflow, next: Workflow)
    requires Guarded(st) && w.id in st.workflows && st.workflows[w.id] == w && !Terminal(w.status)
    requires next.id == w.id && next.product == w.product && next.version == w.version + 1
    requires next.progress >= w.progress && SaveTransaction(st, next, w.version).Some?
    ensures Guarded(SaveTransaction(st, next, w.version).value)
    ensures Evolves(st, SaveTransaction(st, next, w.version).value)
  {
    var st' := SaveTransaction(st, next, w.version).value;
    SaveReplaces(st, w, next);
    SaveReleases(st, w, next);
    hide SaveTransaction, Guarded, Terminal;
    if Terminal(next.status) { GuardReleased(st, st', w, next); } else { GuardStays(st, st', w, next); }
    OneEvolves(st, st', w, next);
  }

  lemma SaveReleases(st: Store, w: Workflow, next: Workflow)
    requires SaveTransaction(st, next, w.version).Some?
    ensures SaveTransaction(st, next, w.version).value.guards == if Terminal(next.status) then st.guards - {next.product} else st.guards
  {
  }

  lemma GuardStays(st: Store, st': Store, w: Workflow, next: Workflow)
    requires Guarded(st) && w.id in st.workflows && st.workflows[w.id] == w && !Terminal(w.status) && !Terminal(next.status)
    requires next.id == w.id && next.product == w.product && st' == Store(st.workflows[w.id := next], st.guards)
    ensures Guarded(st')
  {
    hide Terminal;
  }

  lemma GuardReleased(st: Store, st': Store, w: Workflow, next: Workflow)
    requires Guarded(st) && w.id in st.workflows && st.workflows[w.id] == w && !Terminal(w.status) && Terminal(next.status)
    requires next.id == w.id && next.product == w.product
    requires st' == Store(st.workflows[w.id := next], st.guards - {w.product})
    ensures Guarded(st')
  {
    hide Terminal;
  }

  lemma OneEvolves(st: Store, st': Store, w: Workflow, next: Workflow)
    requires w.id in st.workflows && st.workflows[w.id] == w && !Terminal(w.status) && st'.workflows == st.workflows[w.id := next]
    requires next.id == w.id && next.product == w.product && next.version == w.version + 1 && next.progress >= w.progress
    ensures Evolves(st, st')
  {
    hide Terminal;
  }

  lemma ShapedUpdate(st: Store, st': Store, next: Workflow)
    requires AllShaped(st) && Shape(next) && st'.workflows == st.workflows[next.id := next]
    ensures AllShaped(st')
  {
  }

  /** A successor that is good for the stored workflow keeps the invariant. */
  lemma SaveKeeps(st: Store, w: Workflow, next: Workflow, fault: Fault)
    requires StoreInv(st) && Known(st, w)
    requires next.id == w.id && next.product == w.product && next.version == w.version + 1
    requires st.workflows[w.id] == w ==> Shape(next) && !Terminal(w.status) && next.progress >= w.progress
    ensures var sent := Deliver(st, SaveTransaction(st, next, w.version), fault);
      && StoreInv(sent.store) && Evolves(st, sent.store)
      && (sent.store != st || sent.acknowledged ==>
            st.workflows[w.id] == w && w.id in sent.store.workflows && sent.store.workflows[w.id] == next)
  {
    var tx := SaveTransaction(st, next, w.version);
    if tx.Some? {
      SaveReplaces(st, w, next);
      SaveGuards(st, w, next);
      ShapedUpdate(st, tx.value, next);
    }
  }
}
