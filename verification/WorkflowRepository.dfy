/**
 The workflow table record by record: a META record and one record per stage,
 a guard record per product, and the transactions that write them.
 */
module WorkflowRepository {
  import opened Wrappers
  import opened CatalogWorkflow
  import opened WorkflowStore

  datatype StoreError = AlreadyActive | VersionConflict | Unavailable | VersionMustIncrement | BrokenRecords

  datatype Record = MetaRecord(header: Workflow) | StageRecord(stage: Stage)

  function StageRecords(records: seq<Record>): map<StageName, Stage> {
    if records == [] then map[]
    else
      var before := StageRecords(records[..|records| - 1]);
      match records[|records| - 1]
      case MetaRecord(_) => before
      case StageRecord(stage) => before[stage.name := stage]
  }

  /** Every META record has all its stage records, each under its own name, and no stage record is alone. */
  ghost predicate Consistent(metas: map<Id, Workflow>, stages: map<(Id, StageName), Stage>) {
    && (forall id :: id in metas ==> metas[id].id == id && metas[id].stages == [])
    && (forall id, n: StageName :: id in metas <==> (id, n) in stages)
    && (forall id, n: StageName :: (id, n) in stages ==> stages[(id, n)].name == n)
  }

  ghost function StagesOf(stages: map<(Id, StageName), Stage>, id: Id): (r: seq<Stage>)
    requires forall n: StageName :: (id, n) in stages
    ensures |r| == STAGE_COUNT && forall i :: 0 <= i < STAGE_COUNT ==> r[i] == stages[(id, StageAt(i))]
  {
    seq(STAGE_COUNT, i requires 0 <= i < STAGE_COUNT => stages[(id, StageAt(i))])
  }

  ghost function Workflows(metas: map<Id, Workflow>, stages: map<(Id, StageName), Stage>): map<Id, Workflow>
    requires Consistent(metas, stages)
  {
    map id | id in metas :: metas[id].(stages := StagesOf(stages, id))
  }

  /** The stage records of `w` are put over what was there. */
  ghost predicate Puts(before: map<(Id, StageName), Stage>, after: map<(Id, StageName), Stage>, w: Workflow)
    requires Ordered(w.stages)
  {
    && (forall key :: key in after <==> key in before || key.0 == w.id)
    && (forall key :: key in after ==>
          after[key] == if key.0 == w.id then w.stages[IndexOf(key.1)] else before[key])
  }

  /** The first `n` stage records of `w` are put. */
  ghost predicate Written(before: map<(Id, StageName), Stage>, after: map<(Id, StageName), Stage>, w: Workflow, n: nat)
    requires Ordered(w.stages)
  {
    && (forall key :: key in after <==> key in before || (key.0 == w.id && IndexOf(key.1) < n))
    && (forall key :: key in after ==>
          after[key] == if key.0 == w.id && IndexOf(key.1) < n then w.stages[IndexOf(key.1)] else before[key])
  }

  lemma WrittenNone(before: map<(Id, StageName), Stage>, w: Workflow)
    requires Ordered(w.stages)
    ensures Written(before, before, w, 0)
  {
  }

  lemma WrittenMore(before: map<(Id, StageName), Stage>, after: map<(Id, StageName), Stage>, w: Workflow, n: nat)
    requires Ordered(w.stages) && n < STAGE_COUNT && Written(before, after, w, n)
    ensures Written(before, after[(w.id, w.stages[n].name) := w.stages[n]], w, n + 1)
  {
    IndexOfStageAt(n);
  }

  lemma WrittenAll(before: map<(Id, StageName), Stage>, after: map<(Id, StageName), Stage>, w: Workflow)
    requires Ordered(w.stages) && Written(before, after, w, STAGE_COUNT)
    ensures Puts(before, after, w)
  {
  }

  lemma PutIsConsistent(metas: map<Id, Workflow>, before: map<(Id, StageName), Stage>,
                        after: map<(Id, StageName), Stage>, w: Workflow)
    requires Consistent(metas, before) && Ordered(w.stages) && Puts(before, after, w)
    ensures Consistent(metas[w.id := MetaOf(w)], after)
  {
  }

  /** Writing the records of one workflow replaces that workflow and no other. */
  lemma PutReplaces(metas: map<Id, Workflow>, before: map<(Id, StageName), Stage>,
                    after: map<(Id, StageName), Stage>, w: Workflow)
    requires Consistent(metas, before) && Ordered(w.stages) && Puts(before, after, w)
    ensures var metas' := metas[w.id := MetaOf(w)];
      Consistent(metas', after) && Workflows(metas', after) == Workflows(metas, before)[w.id := w]
  {
    hide Ordered, Puts;
    PutIsConsistent(metas, before, after, w);
    OwnStages(before, after, w);
    assert MetaOf(w).(stages := w.stages) == w;
    var metas' := metas[w.id := MetaOf(w)];
    hide StagesOf;
    forall id | id in metas && id != w.id
      ensures metas'[id].(stages := StagesOf(after, id)) == metas[id].(stages := StagesOf(before, id))
    {
      OtherStages(before, after, w, id);
    }
  }

  lemma OwnStages(before: map<(Id, StageName), Stage>, after: map<(Id, StageName), Stage>, w: Workflow)
    requires Ordered(w.stages) && Puts(before, after, w)
    ensures forall n: StageName :: (w.id, n) in after
    ensures StagesOf(after, w.id) == w.stages
  {
    forall i | 0 <= i < STAGE_COUNT ensures StagesOf(after, w.id)[i] == w.stages[i] { IndexOfStageAt(i); }
  }

  lemma OtherStages(before: map<(Id, StageName), Stage>, after: map<(Id, StageName), Stage>, w: Workflow, id: Id)
    requires Ordered(w.stages) && Puts(before, after, w) && id != w.id && forall n: StageName :: (id, n) in before
    ensures forall n: StageName :: (id, n) in after
    ensures StagesOf(after, id) == StagesOf(before, id)
  {
  }

  class WorkflowTable {
    var metas: map<Id, Workflow>
    var stages: map<(Id, StageName), Stage>
    var guards: map<Id, Id>
    /** How the coming writes will fare; none of them fails once the list is used up. */
    var faults: seq<Fault>

    constructor (coming: seq<Fault>)
      ensures Valid() && View() == Store(map[], map[]) && faults == coming
    {
      metas, stages, guards, faults := map[], map[], map[], coming;
    }

    ghost predicate Valid()
      reads `metas, `stages
    {
      Consistent(metas, stages)
    }

    /** The table as the store of the protocol. */
    ghost function View(): Store
      requires Valid()
      reads `metas, `stages, `guards
    {
      Store(Workflows(metas, stages), guards)
    }

    ghost function NextFault(): Fault
      reads `faults
    {
      if faults == [] then NoFault else faults[0]
    }

    method TakeFault() returns (fault: Fault)
      requires Valid()
      modifies `faults
      ensures fault == old(NextFault()) && faults == if old(faults) == [] then [] else old(faults)[1..]
    {
      if faults == [] {
        fault := NoFault;
      } else {
        fault, faults := faults[0], faults[1..];
      }
    }

    /** Puts the META record and every stage record of `w`. */
    method PutRecords(w: Workflow)
      requires Valid() && Ordered(w.stages)
      modifies `metas, `stages
      ensures Valid()
      ensures View() == Store(old(View()).workflows[w.id := w], guards)
    {
      hide Written, Puts, Consistent, Workflows, MetaOf;
      ghost var before := stages;
      var i := 0;
      WrittenNone(before, w);
      while i < |w.stages|
        invariant 0 <= i <= STAGE_COUNT
        invariant metas == old(metas) && Written(before, stages, w, i)
      {
        WrittenMore(before, stages, w, i);
        stages := stages[(w.id, w.stages[i].name) := w.stages[i]];
        i := i + 1;
      }
      metas := metas[w.id := MetaOf(w)];
      WrittenAll(before, stages, w);
      PutReplaces(old(metas), before, stages, w);
    }

    method Create(w: Workflow) returns (r: Result<Workflow, StoreError>)
      requires Valid() && Ordered(w.stages)
      modifies this
      ensures Valid()
      ensures var sent := Deliver(old(View()), CreateTransaction(old(View()), w), old(NextFault()));
        && View() == sent.store
        && (r.Success? <==> sent.acknowledged) && (r.Success? ==> r.value == w)
        && (r.Failure? ==> r.error == if old(NextFault()).NoFault? then AlreadyActive else Unavailable)
      ensures faults == if old(faults) == [] then [] else old(faults)[1..]
    {
      var fault := TakeFault();
      var holds := w.product !in guards && w.id !in metas
                   && forall i :: 0 <= i < STAGE_COUNT ==> (w.id, w.stages[i].name) !in stages;
      if holds && !fault.NotApplied? {
        PutRecords(w);
        guards := guards[w.product := w.id];
      }
      return if fault.NoFault? then (if holds then Success(w) else Failure(AlreadyActive)) else Failure(Unavailable);
    }

    method SaveState(w: Workflow, expected: int) returns (r: Result<Workflow, StoreError>)
      requires Valid() && Ordered(w.stages)
      modifies this
      ensures Valid()
      ensures var sent := Deliver(old(View()), SaveTransaction(old(View()), w, expected), old(NextFault()));
        && View() == sent.store
        && (r.Success? <==> sent.acknowledged) && (r.Success? ==> r.value == w)
        && (w.version == expected + 1 && r.Failure? ==>
              r.error == if old(NextFault()).NoFault? then VersionConflict else Unavailable)
      ensures w.version != expected + 1 ==> r == Failure(VersionMustIncrement) && faults == old(faults)
      ensures w.version == expected + 1 ==> faults == if old(faults) == [] then [] else old(faults)[1..]
    {
      if w.version != expected + 1 {
        return Failure(VersionMustIncrement);
      }
      var fault := TakeFault();
      var holds := w.id in metas && metas[w.id].version == expected
                   && (Terminal(w.status) ==> w.product in guards && guards[w.product] == w.id);
      if holds && !fault.NotApplied? {
        PutRecords(w);
        if Terminal(w.status) {
          guards := guards - {w.product};
        }
      }
      return if fault.NoFault? then (if holds then Success(w) else Failure(VersionConflict)) else Failure(Unavailable);
    }

    /** The partition of a workflow in key order: META sorts before every STAGE# record. */
    method Partition(id: Id) returns (records: seq<Record>)
      requires Valid()
      ensures id !in metas ==> records == []
      ensures id in metas ==>
        && |records| == STAGE_COUNT + 1 && records[0] == MetaRecord(metas[id])
        && forall i :: 0 <= i < STAGE_COUNT ==> records[i + 1] == StageRecord(StagesOf(stages, id)[i])
    {
      if id !in metas {
        return [];
      }
      records := [MetaRecord(metas[id])];
      for i := 0 to STAGE_COUNT
        invariant |records| == i + 1 && records[0] == MetaRecord(metas[id])
        invariant forall j :: 0 <= j < i ==> records[j + 1] == StageRecord(StagesOf(stages, id)[j])
      {
        records := records + [StageRecord(stages[(id, StageAt(i))])];
      }
    }

    /** Reads page after page, `sizes` giving how many records each page holds. */
    method GetById(id: Id, sizes: seq<nat>) returns (r: Result<Option<Workflow>, StoreError>)
      requires Valid()
      ensures id !in View().workflows ==> r == Success(None)
      ensures id in View().workflows ==>
        r == if ValidWorkflow(View().workflows[id]) then Success(Some(View().workflows[id])) else Failure(BrokenRecords)
    {
      var records := Partition(id);
      var items: seq<Record> := [];
      var start, page := 0, 0;
      while start < |records|
        invariant start <= |records| && items == records[..start]
        decreases |records| - start, |sizes| - page
      {
        var size := if page < |sizes| then sizes[page] else |records|;
        var next := if start + size < |records| then start + size else |records|;
        items := items + records[start..next];
        start, page := next, page + 1;
      }
      assert items == records;
      if items == [] {
        return Success(None);
      }
      var decoded := FromItems(items);
      assert metas[id].(stages := StagesOf(stages, id)) == View().workflows[id];
      PartitionDecodes(items, View().workflows[id]);
      return decoded;
    }
  }

  /** The META record among the items, wherever it is, and the stage records by name. */
  function FirstMeta(items: seq<Record>): Option<Workflow> {
    if items == [] then None
    else if items[0].MetaRecord? then Some(items[0].header)
    else FirstMeta(items[1..])
  }

  method FromItems(items: seq<Record>) returns (r: Result<Option<Workflow>, StoreError>)
    ensures r == match FirstMeta(items)
      case None => Failure(BrokenRecords)
      case Some(header) =>
        match Decode(header, StageRecords(items))
        case Failure(_) => Failure(BrokenRecords)
        case Success(w) => Success(Some(w))
  {
    var header := FirstMeta(items);
    if header.None? {
      return Failure(BrokenRecords);
    }
    var byName: map<StageName, Stage> := map[];
    for i := 0 to |items|
      invariant byName == StageRecords(items[..i])
    {
      assert items[..i + 1][..i] == items[..i];
      if items[i].StageRecord? {
        byName := byName[items[i].stage.name := items[i].stage];
      }
    }
    assert items[..|items|] == items;
    var decoded := Decode(header.value, byName);
    return if decoded.Failure? then Failure(BrokenRecords) else Success(Some(decoded.value));
  }

  lemma {:induction false} StageRecordsOf(records: seq<Record>, w: Workflow, n: nat)
    requires Ordered(w.stages) && n <= STAGE_COUNT && |records| == n + 1 && records[0].MetaRecord?
    requires forall i :: 0 <= i < n ==> records[i + 1] == StageRecord(w.stages[i])
    ensures forall name :: name in StageRecords(records) <==> IndexOf(name) < n
    ensures forall name :: name in StageRecords(records) ==> StageRecords(records)[name] == w.stages[IndexOf(name)]
  {
    if n == 0 {
      assert records[..0] == [];
    } else {
      StageRecordsOf(records[..n], w, n - 1);
      IndexOfStageAt(n - 1);
    }
  }

  lemma PartitionDecodes(records: seq<Record>, w: Workflow)
    requires Ordered(w.stages) && |records| == STAGE_COUNT + 1 && records[0] == MetaRecord(MetaOf(w))
    requires forall i :: 0 <= i < STAGE_COUNT ==> records[i + 1] == StageRecord(w.stages[i])
    ensures Decode(MetaOf(w), StageRecords(records)) == Checked(w)
  {
    StageRecordsOf(records, w, STAGE_COUNT);
    DecodeRoundTrip(w, StageRecords(records));
  }
}
