/** The records of a detection result give the result back, from any order and never anything else. */
module ConflictRecordTheorems {
  import opened Wrappers
  import opened CatalogAttributes
  import opened Grouping
  import opened Sorting
  import opened RecordKeys
  import opened ConflictRecords

  /** What the constructors accept. */
  ghost predicate ValidDetection(d: Detection) {
    forall i :: 0 <= i < |d.attributes| ==>
      ValidConsensus(d.attributes[i])
      && forall j :: 0 <= j < |d.attributes[i].groups| ==> ValidGroup(d.attributes[i].groups[j])
  }

  /** Every number in a record key has at most six digits. */
  ghost predicate SixDigits(d: Detection) {
    |d.attributes| < FIRST_WIDER && forall i :: 0 <= i < |d.attributes| ==> |d.attributes[i].groups| < FIRST_WIDER
  }

  // ----- filtering the records ----------------------------------------------------------------

  lemma {:induction false} WhereAppends<T(!new)>(a: seq<T>, b: seq<T>, p: T -> bool)
    ensures Where(a + b, p) == Where(a, p) + Where(b, p)
  {
    if b == [] {
      assert a + b == a;
    } else {
      assert (a + b)[..|a + b| - 1] == a + b[..|b| - 1];
      WhereAppends(a, b[..|b| - 1], p);
    }
  }

  lemma {:induction false} WhereNone<T>(s: seq<T>, p: T -> bool)
    requires forall i :: 0 <= i < |s| ==> !p(s[i])
    ensures Where(s, p) == []
  {
    if s != [] { WhereNone(s[..|s| - 1], p); }
  }

  function AttributesOnly(attributes: seq<Consensus>): (r: seq<Record>)
    ensures |r| == |attributes| && forall i :: 0 <= i < |r| ==> r[i] == AttributeRecord(i + 1, attributes[i])
  {
    seq(|attributes|, i requires 0 <= i < |attributes| => AttributeRecord(i + 1, attributes[i]))
  }

  lemma AttributeKey(index: nat, c: Consensus)
    ensures IsAttribute(AttributeRecord(index, c)) && !IsMeta(AttributeRecord(index, c))
    ensures forall i :: !IsGroupOf(i)(AttributeRecord(index, c))
  {
  }

  lemma GroupKey(index: nat, number: nat, g: AgreementGroup, i: nat)
    requires index < FIRST_WIDER && i < FIRST_WIDER
    ensures !IsAttribute(GroupRecord(index, number, g)) && !IsMeta(GroupRecord(index, number, g))
    ensures IsGroupOf(i)(GroupRecord(index, number, g)) <==> i == index
  {
    PaddedWidth(i);
    PaddedWidth(index);
    PaddedIsInjective(i, index);
    var key, prefix := GroupPrefix(index) + Padded(number), GroupPrefix(i);
    assert |prefix| == |GroupPrefix(index)| && key[..|prefix|] == GroupPrefix(index);
    assert prefix[|GROUP|..|GROUP| + WIDTH] == Padded(i);
    assert GroupPrefix(index)[|GROUP|..|GROUP| + WIDTH] == Padded(index);
  }

  lemma GroupRecordsFiltered(index: nat, groups: seq<AgreementGroup>, i: nat)
    requires index < FIRST_WIDER && i < FIRST_WIDER
    ensures Where(GroupRecords(index, groups), IsAttribute) == []
    ensures Where(GroupRecords(index, groups), IsMeta) == []
    ensures Where(GroupRecords(index, groups), IsGroupOf(i)) == if i == index then GroupRecords(index, groups) else []
  {
    var r := GroupRecords(index, groups);
    forall j | 0 <= j < |r| ensures !IsAttribute(r[j]) && !IsMeta(r[j]) && (IsGroupOf(i)(r[j]) <==> i == index) {
      GroupKey(index, j + 1, groups[j], i);
    }
    hide IsAttribute, IsMeta, GroupRecords;
    WhereNone(r, IsAttribute);
    WhereNone(r, IsMeta);
    if i == index { WhereAll(r, IsGroupOf(i)); } else { WhereNone(r, IsGroupOf(i)); }
  }

  lemma OneFiltered(r: Record, p: Record -> bool)
    ensures Where([r], p) == if p(r) then [r] else []
  {
  }

  lemma AppendedFilter(before: seq<Record>, r: Record, groups: seq<Record>, p: Record -> bool)
    ensures Where(before + [r] + groups, p) == Where(before, p) + (if p(r) then [r] else []) + Where(groups, p)
  {
    WhereAppends(before + [r], groups, p);
    WhereAppends(before, [r], p);
    OneFiltered(r, p);
  }

  lemma NoneFiltered(i: nat)
    ensures var none := AttributeRecords([]);
      Where(none, IsAttribute) == Where(none, IsMeta) == Where(none, IsGroupOf(i)) == [] && AttributesOnly([]) == []
  {
  }

  lemma OneAttributeMore(attributes: seq<Consensus>)
    requires attributes != []
    ensures var n := |attributes|;
      AttributesOnly(attributes) == AttributesOnly(attributes[..n - 1]) + [AttributeRecord(n, attributes[n - 1])]
  {
  }

  /** Of the attribute and group records, the tests of the reader find exactly their own. */
  lemma {:induction false} RecordsFiltered(attributes: seq<Consensus>, i: nat)
    requires |attributes| < FIRST_WIDER && i < FIRST_WIDER
    ensures Where(AttributeRecords(attributes), IsAttribute) == AttributesOnly(attributes)
    ensures Where(AttributeRecords(attributes), IsMeta) == []
    ensures Where(AttributeRecords(attributes), IsGroupOf(i)) ==
            if 1 <= i <= |attributes| then GroupRecords(i, attributes[i - 1].groups) else []
  {
    hide IsAttribute, IsMeta, GroupRecords, AttributeRecord, Where, AttributeRecords, AttributesOnly;
    if attributes == [] {
      NoneFiltered(i);
    } else {
      var n, last := |attributes|, attributes[|attributes| - 1];
      RecordsFiltered(attributes[..n - 1], i);
      AttributeKey(n, last);
      GroupRecordsFiltered(n, last.groups, i);
      FilterStep(attributes, IsAttribute);
      FilterStep(attributes, IsMeta);
      FilterStep(attributes, IsGroupOf(i));
      OneAttributeMore(attributes);
      assert 1 <= i < n ==> attributes[..n - 1][i - 1] == attributes[i - 1];
    }
  }

  lemma FilterStep(attributes: seq<Consensus>, p: Record -> bool)
    requires attributes != []
    ensures var n, last := |attributes|, attributes[|attributes| - 1];
      Where(AttributeRecords(attributes), p) ==
        Where(AttributeRecords(attributes[..n - 1]), p)
        + (if p(AttributeRecord(n, last)) then [AttributeRecord(n, last)] else [])
        + Where(GroupRecords(n, last.groups), p)
  {
    hide GroupRecords, AttributeRecord, Where;
    var n, last := |attributes|, attributes[|attributes| - 1];
    AppendedFilter(AttributeRecords(attributes[..n - 1]), AttributeRecord(n, last), GroupRecords(n, last.groups), p);
  }

  lemma AllFiltered(d: Detection, i: nat)
    requires SixDigits(d) && 1 <= i <= |d.attributes|
    ensures Where(Records(d), IsGroupOf(i)) == GroupRecords(i, d.attributes[i - 1].groups)
  {
    RecordsFiltered(d.attributes, i);
    hide AttributeRecords;
    WhereAppends([MetaRecord(d)], AttributeRecords(d.attributes), IsGroupOf(i));
    OneFiltered(MetaRecord(d), IsGroupOf(i));
  }

  lemma HeadFiltered(d: Detection)
    requires SixDigits(d)
    ensures Where(Records(d), IsMeta) == [MetaRecord(d)]
    ensures Where(Records(d), IsAttribute) == AttributesOnly(d.attributes)
  {
    RecordsFiltered(d.attributes, 0);
    hide AttributeRecords;
    WhereAppends([MetaRecord(d)], AttributeRecords(d.attributes), IsMeta);
    WhereAppends([MetaRecord(d)], AttributeRecords(d.attributes), IsAttribute);
    OneFiltered(MetaRecord(d), IsMeta);
    OneFiltered(MetaRecord(d), IsAttribute);
  }

  // ----- sorting the records --------------------------------------------------------------------

  lemma ByKeyIsPreorder()
    ensures TotalPreorder(ByKey)
  {
    forall a, b: Record ensures ByKey(a, b) || ByKey(b, a) { TextLeTotal(a.key, b.key); }
    forall a, b, c: Record | ByKey(a, b) && ByKey(b, c) ensures ByKey(a, c) { TextLeTransitive(a.key, b.key, c.key); }
  }

  /** Records whose keys are a prefix and their number are in key order, and no two share a key. */
  ghost predicate Numbered(records: seq<Record>, prefix: string) {
    |records| < FIRST_WIDER && forall i :: 0 <= i < |records| ==> records[i].key == prefix + Padded(i + 1)
  }

  lemma NumberedKeys(records: seq<Record>, prefix: string, i: nat, j: nat)
    requires Numbered(records, prefix) && i < |records| && j < |records|
    ensures ByKey(records[i], records[j]) <==> i <= j
  {
    CommonPrefix(prefix, Padded(i + 1), Padded(j + 1));
    PaddedOrder(i + 1, j + 1);
  }

  lemma SortRestores(found: seq<Record>, records: seq<Record>, prefix: string)
    requires Numbered(records, prefix) && multiset(found) == multiset(records)
    ensures Sort(found, ByKey) == records
  {
    ByKeyIsPreorder();
    SortPermutes(found, ByKey);
    SortSorts(found, ByKey);
    var sorted := Sort(found, ByKey);
    hide Sort, ByKey;
    forall i, j | 0 <= i < j < |records| ensures ByKey(records[i], records[j]) { NumberedKeys(records, prefix, i, j); }
    forall x, y | x in records && y in records && ByKey(x, y) && ByKey(y, x) ensures x == y {
      var i :| 0 <= i < |records| && records[i] == x;
      var j :| 0 <= j < |records| && records[j] == y;
      NumberedKeys(records, prefix, i, j);
      NumberedKeys(records, prefix, j, i);
    }
    SortedIsUnique(records, sorted, ByKey);
  }

  // ----- any order, and any part -------------------------------------------------------------------

  lemma {:induction false} WhereCounts<T(!new)>(s: seq<T>, p: T -> bool, x: T)
    ensures multiset(Where(s, p))[x] == if p(x) then multiset(s)[x] else 0
  {
    if s != [] {
      assert s == s[..|s| - 1] + [s[|s| - 1]];
      WhereCounts(s[..|s| - 1], p, x);
    }
  }

  lemma PartFiltered(items: seq<Record>, all: seq<Record>, p: Record -> bool)
    requires multiset(items) <= multiset(all)
    ensures multiset(Where(items, p)) <= multiset(Where(all, p))
    ensures |Where(items, p)| <= |Where(all, p)|
    ensures |Where(items, p)| == |Where(all, p)| ==> multiset(Where(items, p)) == multiset(Where(all, p))
  {
    forall x ensures multiset(Where(items, p))[x] <= multiset(Where(all, p))[x] {
      WhereCounts(items, p, x);
      WhereCounts(all, p, x);
    }
    PartOfSameSize(multiset(Where(items, p)), multiset(Where(all, p)));
  }

  lemma PartOfSameSize<T>(a: multiset<T>, b: multiset<T>)
    requires a <= b
    ensures |a| <= |b| && (|a| == |b| ==> a == b)
  {
    assert b == a + (b - a);
  }

  /** The groups of an attribute are rebuilt exactly if all its group records are there. */
  lemma GroupsDecode(items: seq<Record>, d: Detection, i: nat)
    requires SixDigits(d) && ValidDetection(d) && 1 <= i <= |d.attributes| && multiset(items) <= multiset(Records(d))
    ensures var groups := d.attributes[i - 1].groups;
      var decoded := DecodeGroups(items, i);
      && |Where(items, IsGroupOf(i))| <= |groups|
      && (decoded.Some? ==> |decoded.value| == |Where(items, IsGroupOf(i))|)
      && (|Where(items, IsGroupOf(i))| == |groups| ==> decoded == Some(groups))
  {
    hide Sort, Where, Records, Padded, ByKey, GroupRecord;
    var groups := d.attributes[i - 1].groups;
    var found := Where(items, IsGroupOf(i));
    AllFiltered(d, i);
    PartFiltered(items, Records(d), IsGroupOf(i));
    SortPermutes(found, ByKey);
    if |found| == |groups| {
      GroupsAreNumbered(i, groups);
      SortRestores(found, GroupRecords(i, groups), GroupPrefix(i));
      SortedGroups(items, i, groups);
    }
  }

  lemma GroupsAreNumbered(i: nat, groups: seq<AgreementGroup>)
    requires |groups| < FIRST_WIDER
    ensures Numbered(GroupRecords(i, groups), GroupPrefix(i))
  {
  }

  lemma SortedGroups(items: seq<Record>, i: nat, groups: seq<AgreementGroup>)
    requires Sort(Where(items, IsGroupOf(i)), ByKey) == GroupRecords(i, groups)
    requires forall j :: 0 <= j < |groups| ==> ValidGroup(groups[j])
    ensures DecodeGroups(items, i) == Some(groups)
  {
    hide Sort, Where, Padded, ValidGroup;
    assert GroupsOf(GroupRecords(i, groups)) == groups;
  }

  lemma AttributeDecodes(items: seq<Record>, d: Detection, i: nat)
    requires SixDigits(d) && ValidDetection(d) && i < |d.attributes| && multiset(items) <= multiset(Records(d))
    ensures var r := DecodeAttribute(items)(i, AttributeRecord(i + 1, d.attributes[i]));
      && (r.Success? ==> r.value == d.attributes[i])
      && (multiset(items) == multiset(Records(d)) ==> r.Success?)
  {
    hide Where, DecodeGroups, Records, GroupRecords, ValidGroup;
    var c := d.attributes[i];
    GroupsDecode(items, d, i + 1);
    AllFiltered(d, i + 1);
    if multiset(items) == multiset(Records(d)) { PartFiltered(Records(d), items, IsGroupOf(i + 1)); }
    assert c.(groups := []).(groups := c.groups) == c;
    assert ValidConsensus(c);
  }

  /** Records read in any order, also only some of them, never decode to anything but the result
      they were made from; and all of them do decode to it. */
  lemma RecordsDecode(items: seq<Record>, d: Detection)
    requires SixDigits(d) && ValidDetection(d) && multiset(items) <= multiset(Records(d))
    ensures Decode(items).Success? ==> Decode(items).value == d
    ensures multiset(items) == multiset(Records(d)) ==> Decode(items) == Success(d)
  {
    hide Where, Sort, DecodeAttribute, Records, AttributeRecord, ByKey, ValidDetection, Traverse, MetaRecord;
    var metas, found := Where(items, IsMeta), Where(items, IsAttribute);
    HeadFiltered(d);
    PartFiltered(items, Records(d), IsMeta);
    PartFiltered(items, Records(d), IsAttribute);
    if multiset(items) == multiset(Records(d)) {
      PartFiltered(Records(d), items, IsMeta);
      PartFiltered(Records(d), items, IsAttribute);
    }
    SortPermutes(found, ByKey);
    MetaFound(metas, d);
    if |found| == |d.attributes| {
      AttributesAreNumbered(d.attributes);
      SortRestores(found, AttributesOnly(d.attributes), ATTRIBUTE);
      AttributesDecode(items, d);
    }
    MetaParts(d);
  }

  lemma MetaParts(d: Detection)
    ensures MetaRecord(d).body == MetaBody(d.id, d.lineage, |d.attributes|)
  {
  }

  lemma AttributesAreNumbered(attributes: seq<Consensus>)
    requires |attributes| < FIRST_WIDER
    ensures Numbered(AttributesOnly(attributes), ATTRIBUTE)
  {
  }

  lemma AttributesDecode(items: seq<Record>, d: Detection)
    requires SixDigits(d) && ValidDetection(d) && multiset(items) <= multiset(Records(d))
    ensures var r := Traverse(AttributesOnly(d.attributes), DecodeAttribute(items));
      && (r.Success? ==> r.value == d.attributes)
      && (multiset(items) == multiset(Records(d)) ==> r.Success?)
  {
    hide Where, DecodeAttribute, Records, AttributeRecord, ValidDetection, Traverse;
    forall i | 0 <= i < |d.attributes|
      ensures var r := DecodeAttribute(items)(i, AttributeRecord(i + 1, d.attributes[i]));
        && (r.Success? ==> r.value == d.attributes[i])
        && (multiset(items) == multiset(Records(d)) ==> r.Success?)
    {
      AttributeDecodes(items, d, i);
    }
  }

  lemma MetaFound(metas: seq<Record>, d: Detection)
    requires multiset(metas) <= multiset([MetaRecord(d)])
    ensures metas == [] || metas[0] == MetaRecord(d)
  {
    if metas != [] { assert metas[0] in multiset(metas); }
  }

  // ----- exactly up to a million ---------------------------------------------------------------------

  /** What detection promises: attributes differ in name, and the groups of one of them from each other. */
  ghost predicate Distinct(d: Detection) {
    && (forall i, j :: 0 <= i < j < |d.attributes| ==> d.attributes[i].name != d.attributes[j].name)
    && forall i :: 0 <= i < |d.attributes| ==> DistinctGroups(d.attributes[i].groups)
  }

  ghost predicate DistinctGroups(groups: seq<AgreementGroup>) {
    forall i, j :: 0 <= i < j < |groups| ==> groups[i] != groups[j]
  }

  ghost predicate IsRecordOf(attributes: seq<Consensus>, r: Record) {
    || (exists i :: 0 <= i < |attributes| && r == AttributeRecord(i + 1, attributes[i]))
    || (exists i, j :: 0 <= i < |attributes| && 0 <= j < |attributes[i].groups|
                       && r == GroupRecord(i + 1, j + 1, attributes[i].groups[j]))
  }

  lemma {:induction false} EveryRecord(attributes: seq<Consensus>, r: Record)
    requires r in AttributeRecords(attributes)
    ensures IsRecordOf(attributes, r)
  {
    hide AttributeRecord, GroupRecord;
    var n, last := |attributes|, attributes[|attributes| - 1];
    if r in AttributeRecords(attributes[..n - 1]) {
      EveryRecord(attributes[..n - 1], r);
    } else if r != AttributeRecord(n, last) {
      assert r in GroupRecords(n, last.groups);
      var j :| 0 <= j < |last.groups| && r == GroupRecord(n, j + 1, last.groups[j]);
    }
  }

  /** The last six-digit number and the first of seven digits are in the wrong order. */
  lemma SevenDigitsBreakOrder(sorted: seq<Record>, prefix: string)
    requires Sorted(sorted, ByKey) && |sorted| >= FIRST_WIDER
    requires sorted[FIRST_WIDER - 2].key == prefix + Padded(FIRST_WIDER - 1)
    ensures sorted[FIRST_WIDER - 1].key != prefix + Padded(FIRST_WIDER)
  {
    PaddedOrderBreaks();
    CommonPrefix(prefix, Padded(FIRST_WIDER - 1), Padded(FIRST_WIDER));
    assert ByKey(sorted[FIRST_WIDER - 2], sorted[FIRST_WIDER - 1]);
  }

  lemma SortedWhere(items: seq<Record>, p: Record -> bool)
    ensures var sorted := Sort(Where(items, p), ByKey);
      Sorted(sorted, ByKey) && forall i :: 0 <= i < |sorted| ==> sorted[i] in items && p(sorted[i])
  {
    ByKeyIsPreorder();
    SortSorts(Where(items, p), ByKey);
    SortPermutes(Where(items, p), ByKey);
    var sorted := Sort(Where(items, p), ByKey);
    SameElements(sorted, Where(items, p));
    WhereMembers(items, p);
    hide Sort, Where, ByKey;
    assert forall i :: 0 <= i < |sorted| ==> sorted[i] in sorted;
  }

  /** What a decoded attribute says of its record. */
  lemma DecodedAttribute(items: seq<Record>, i: nat, r: Record, c: Consensus)
    requires DecodeAttribute(items)(i, r) == Success(c)
    ensures r.body.AttributeBody? && r.body.consensus.name == c.name && DecodeGroups(items, i + 1) == Some(c.groups)
  {
    hide DecodeGroups, ValidConsensus;
  }

  lemma NamedAttribute(d: Detection, r: Record, i: nat)
    requires Distinct(d) && i < |d.attributes| && r in Records(d) && r.body.AttributeBody?
    requires r.body.consensus.name == d.attributes[i].name
    ensures r == AttributeRecord(i + 1, d.attributes[i])
  {
    hide AttributeRecords, Padded;
    EveryRecord(d.attributes, r);
  }

  lemma DecodedSorted(d: Detection, i: nat)
    requires Distinct(d) && i < |d.attributes| && Decode(Records(d)) == Success(d)
    ensures var sorted := Sort(Where(Records(d), IsAttribute), ByKey);
      |sorted| == |d.attributes| && sorted[i] == AttributeRecord(i + 1, d.attributes[i])
      && DecodeGroups(Records(d), i + 1) == Some(d.attributes[i].groups)
  {
    SortedWhere(Records(d), IsAttribute);
    var sorted := Sort(Where(Records(d), IsAttribute), ByKey);
    hide Where, Sort, Records, AttributeRecord, Sorted, DecodeGroups, Distinct, DecodeAttribute;
    DecodedAttribute(Records(d), i, sorted[i], d.attributes[i]);
    NamedAttribute(d, sorted[i], i);
  }

  lemma FewAttributes(d: Detection)
    requires Distinct(d) && Decode(Records(d)) == Success(d)
    ensures |d.attributes| < FIRST_WIDER
  {
    hide Decode, Records, Distinct, Where, Sort, Padded, ByKey;
    if |d.attributes| >= FIRST_WIDER {
      DecodedSorted(d, FIRST_WIDER - 2);
      DecodedSorted(d, FIRST_WIDER - 1);
      SortedWhere(Records(d), IsAttribute);
      SevenDigitsBreakOrder(Sort(Where(Records(d), IsAttribute), ByKey), ATTRIBUTE);
    }
  }

  lemma GroupOfAttribute(d: Detection, r: Record, i: nat, j: nat)
    requires Distinct(d) && |d.attributes| < FIRST_WIDER && i < |d.attributes| && j < |d.attributes[i].groups|
    requires r in Records(d) && IsGroupOf(i + 1)(r) && r.body.group == d.attributes[i].groups[j]
    ensures r == GroupRecord(i + 1, j + 1, d.attributes[i].groups[j])
  {
    hide AttributeRecords, AttributeRecord, Padded, IsGroupOf;
    GroupBodies(i + 1);
    EveryRecord(d.attributes, r);
    var m, n :| 0 <= m < |d.attributes| && 0 <= n < |d.attributes[m].groups|
                && r == GroupRecord(m + 1, n + 1, d.attributes[m].groups[n]);
    GroupKey(m + 1, n + 1, d.attributes[m].groups[n], i + 1);
    assert DistinctGroups(d.attributes[i].groups);
  }

  lemma GroupBodies(index: nat)
    ensures forall r :: IsGroupOf(index)(r) ==> r.body.GroupBody?
    ensures forall i, c :: AttributeRecord(i, c).body.AttributeBody?
    ensures forall d :: MetaRecord(d).body.MetaBody?
  {
  }

  lemma DecodedGroups(items: seq<Record>, index: nat, groups: seq<AgreementGroup>)
    requires DecodeGroups(items, index) == Some(groups)
    ensures var sorted := Sort(Where(items, IsGroupOf(index)), ByKey);
      |sorted| == |groups| && forall j :: 0 <= j < |groups| ==> sorted[j].body.GroupBody? && sorted[j].body.group == groups[j]
  {
    hide Sort, Where, ValidGroup, IsGroupOf, Sorted;
    SortedWhere(items, IsGroupOf(index));
    GroupBodies(index);
  }

  lemma FewGroups(d: Detection, i: nat)
    requires Distinct(d) && |d.attributes| < FIRST_WIDER && i < |d.attributes| && Decode(Records(d)) == Success(d)
    ensures |d.attributes[i].groups| < FIRST_WIDER
  {
    hide Decode, Records, Distinct, Where, Sort, Padded, ByKey, IsGroupOf, DecodeGroups, AttributeRecord, Sorted;
    var groups, sorted := d.attributes[i].groups, Sort(Where(Records(d), IsGroupOf(i + 1)), ByKey);
    if |groups| >= FIRST_WIDER {
      DecodedSorted(d, i);
      DecodedGroups(Records(d), i + 1, groups);
      SortedWhere(Records(d), IsGroupOf(i + 1));
      GroupOfAttribute(d, sorted[FIRST_WIDER - 2], i, FIRST_WIDER - 2);
      GroupOfAttribute(d, sorted[FIRST_WIDER - 1], i, FIRST_WIDER - 1);
      SevenDigitsBreakOrder(sorted, GroupPrefix(i + 1));
    }
  }

  /** A stored result reads back as itself exactly as long as no number in its keys needs a seventh digit. */
  lemma DecodesIffSixDigits(d: Detection)
    requires ValidDetection(d) && Distinct(d)
    ensures Decode(Records(d)) == Success(d) <==> SixDigits(d)
  {
    hide Decode, Records, Distinct, ValidDetection;
    if SixDigits(d) {
      RecordsDecode(Records(d), d);
    } else if Decode(Records(d)) == Success(d) {
      FewAttributes(d);
      forall i | 0 <= i < |d.attributes| ensures |d.attributes[i].groups| < FIRST_WIDER { FewGroups(d, i); }
    }
  }

  /** Whatever records are read: what they decode to has a META record among them with as many
      attributes, and passes the checks of the constructors. */
  lemma DecodedIsChecked(items: seq<Record>)
    requires Decode(items).Success?
    ensures var d := Decode(items).value;
      && (exists r :: r in items && r.key == META && r.body == MetaBody(d.id, d.lineage, |d.attributes|))
      && forall i :: 0 <= i < |d.attributes| ==>
           ValidConsensus(d.attributes[i]) && forall j :: 0 <= j < |d.attributes[i].groups| ==> ValidGroup(d.attributes[i].groups[j])
  {
    WhereMembers(items, IsMeta);
    assert Where(items, IsMeta)[0] in Where(items, IsMeta);
    hide Where, Sort, ValidConsensus, ValidGroup, DecodeGroups;
    var d, sorted := Decode(items).value, Sort(Where(items, IsAttribute), ByKey);
    forall i | 0 <= i < |d.attributes|
      ensures ValidConsensus(d.attributes[i]) && forall j :: 0 <= j < |d.attributes[i].groups| ==> ValidGroup(d.attributes[i].groups[j])
    {
      assert DecodeAttribute(items)(i, sorted[i]) == Success(d.attributes[i]);
      DecodedGroupsAreValid(items, i + 1);
    }
  }

  lemma DecodedGroupsAreValid(items: seq<Record>, index: nat)
    requires DecodeGroups(items, index).Some?
    ensures forall j :: 0 <= j < |DecodeGroups(items, index).value| ==> ValidGroup(DecodeGroups(items, index).value[j])
  {
    hide Where, Sort;
  }
}
