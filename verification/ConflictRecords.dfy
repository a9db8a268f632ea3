/**
 How a detection result is stored: a META record, a record per attribute and
 one per agreement group, with zero-padded numbers in their keys; and how it
 is rebuilt from the records in whatever order they are read.
 */
module ConflictRecords {
  import opened Wrappers
  import opened CatalogAttributes
  import opened Grouping
  import opened Sorting
  import opened RecordKeys

  datatype Body =
    | MetaBody(id: nat, lineage: Lineage, attributeCount: nat)
    | AttributeBody(consensus: Consensus)            // without its groups
    | GroupBody(group: AgreementGroup)

  datatype Record = Record(key: string, body: Body)

  const META := "META"
  const ATTRIBUTE := "ATTRIBUTE#"
  const GROUP := "GROUP#"

  function GroupPrefix(index: nat): string { GROUP + Padded(index) + "#" }

  function MetaRecord(d: Detection): Record { Record(META, MetaBody(d.id, d.lineage, |d.attributes|)) }

  function AttributeRecord(index: nat, c: Consensus): Record {
    Record(ATTRIBUTE + Padded(index), AttributeBody(c.(groups := [])))
  }

  function GroupRecord(index: nat, number: nat, g: AgreementGroup): Record {
    Record(GroupPrefix(index) + Padded(number), GroupBody(g))
  }

  function GroupRecords(index: nat, groups: seq<AgreementGroup>): (r: seq<Record>)
    ensures |r| == |groups| && forall j :: 0 <= j < |r| ==> r[j] == GroupRecord(index, j + 1, groups[j])
  {
    seq(|groups|, j requires 0 <= j < |groups| => GroupRecord(index, j + 1, groups[j]))
  }

  /** Attribute after attribute, each followed by its groups; both are numbered from one. */
  function AttributeRecords(attributes: seq<Consensus>): seq<Record> {
    if attributes == [] then []
    else
      var n, last := |attributes|, attributes[|attributes| - 1];
      AttributeRecords(attributes[..n - 1]) + [AttributeRecord(n, last)] + GroupRecords(n, last.groups)
  }

  function Records(d: Detection): seq<Record> { [MetaRecord(d)] + AttributeRecords(d.attributes) }

  method CollectRecords(d: Detection) returns (records: seq<Record>)
    ensures records == Records(d)
  {
    records := [MetaRecord(d)];
    for i := 0 to |d.attributes|
      invariant records == [MetaRecord(d)] + AttributeRecords(d.attributes[..i])
    {
      assert d.attributes[..i + 1][..i] == d.attributes[..i];
      records := records + [AttributeRecord(i + 1, d.attributes[i])];
      records := records + GroupRecords(i + 1, d.attributes[i].groups);
    }
    assert d.attributes[..|d.attributes|] == d.attributes;
  }

  // ----- reading -------------------------------------------------------------------------------

  predicate StartsWith(text: string, prefix: string) { |prefix| <= |text| && text[..|prefix|] == prefix }

  predicate IsMeta(r: Record) { r.key == META && r.body.MetaBody? }
  predicate IsAttribute(r: Record) { StartsWith(r.key, ATTRIBUTE) && r.body.AttributeBody? }

  function IsGroupOf(index: nat): Record -> bool {
    (r: Record) => StartsWith(r.key, GroupPrefix(index)) && r.body.GroupBody?
  }

  predicate ByKey(a: Record, b: Record) { TextLe(a.key, b.key) }

  function GroupsOf(records: seq<Record>): (groups: seq<AgreementGroup>)
    requires forall i :: 0 <= i < |records| ==> records[i].body.GroupBody?
    ensures |groups| == |records| && forall i :: 0 <= i < |records| ==> groups[i] == records[i].body.group
  {
    seq(|records|, i requires 0 <= i < |records| => records[i].body.group)
  }

  /** The groups of an attribute in key order, if their constructor accepts them all. */
  function DecodeGroups(items: seq<Record>, index: nat): Option<seq<AgreementGroup>> {
    SortPermutes(Where(items, IsGroupOf(index)), ByKey);
    var sorted := Sort(Where(items, IsGroupOf(index)), ByKey);
    SameElements(sorted, Where(items, IsGroupOf(index)));
    WhereMembers(items, IsGroupOf(index));
    assert forall i :: 0 <= i < |sorted| ==> sorted[i] in sorted;
    var groups := GroupsOf(sorted);
    if forall i :: 0 <= i < |groups| ==> ValidGroup(groups[i]) then Some(groups) else None
  }

  function DecodeAttribute(items: seq<Record>): (nat, Record) -> Result<Consensus, PipelineError> {
    (i: nat, r: Record) =>
      if !r.body.AttributeBody? then Failure(InvalidEntity)
      else
        match DecodeGroups(items, i + 1)
        case None => Failure(InvalidEntity)
        case Some(groups) =>
          var c := r.body.consensus.(groups := groups);
          if ValidConsensus(c) then Success(c) else Failure(InvalidEntity)
  }

  function Decode(items: seq<Record>): Result<Detection, PipelineError> {
    var metas := Where(items, IsMeta);
    if metas == [] then Failure(InvalidEntity)
    else
      WhereMembers(items, IsMeta);
      assert metas[0] in metas;
      var meta := metas[0].body;
      match Traverse(Sort(Where(items, IsAttribute), ByKey), DecodeAttribute(items))
      case Failure(e) => Failure(e)
      case Success(attributes) =>
        if meta.attributeCount != |attributes| then Failure(InvalidEntity)
        else Success(Detection(meta.id, meta.lineage, attributes))
  }
}
