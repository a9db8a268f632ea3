/** What conflict detection promises about the evidence it is given. */
module EvidenceTheorems {
  import opened Wrappers
  import opened Grouping
  import opened CatalogAttributes
  import D = ConflictDetection

  // ----- nothing is lost and nothing counted twice ------------------------------------------

  /** Every candidate is exactly one of: with a usable value, without its unit, excluded. */
  lemma {:induction false} ThreeWaySplit(s: seq<Candidate>)
    ensures multiset(Where(s, D.Direct)) + multiset(Where(s, D.LacksUnit)) + multiset(Where(s, D.Excluded)) == multiset(s)
  {
    hide Where, Once;
    if s == [] {
      NothingSplits();
    } else {
      var init, last := s[..|s| - 1], s[|s| - 1];
      ThreeWaySplit(init);
      WhereStep(s, D.Direct);
      WhereStep(s, D.LacksUnit);
      WhereStep(s, D.Excluded);
      SumsAdd(multiset(Where(init, D.Direct)), multiset(Where(init, D.LacksUnit)), multiset(Where(init, D.Excluded)),
              Once(last, D.Direct), Once(last, D.LacksUnit), Once(last, D.Excluded));
      OneOfThree(last);
      LastCounts(s);
    }
  }

  lemma NothingSplits()
    ensures multiset(Where([], D.Direct)) + multiset(Where([], D.LacksUnit)) + multiset(Where([], D.Excluded)) == multiset([])
  {
  }

  lemma OneOfThree(c: Candidate)
    ensures Once(c, D.Direct) + Once(c, D.LacksUnit) + Once(c, D.Excluded) == multiset{c}
  {
  }

  lemma LastCounts<T>(s: seq<T>)
    requires s != []
    ensures multiset(s) == multiset(s[..|s| - 1]) + multiset{s[|s| - 1]}
  {
    assert s == s[..|s| - 1] + [s[|s| - 1]];
  }

  function Once(c: Candidate, p: Candidate -> bool): multiset<Candidate> { if p(c) then multiset{c} else multiset{} }

  lemma SumsAdd<T>(a: multiset<T>, b: multiset<T>, c: multiset<T>, x: multiset<T>, y: multiset<T>, z: multiset<T>)
    ensures (a + x) + (b + y) + (c + z) == (a + b + c) + (x + y + z)
  {
  }

  lemma WhereStep(s: seq<Candidate>, p: Candidate -> bool)
    requires s != []
    ensures var last := s[|s| - 1];
      multiset(Where(s, p)) == multiset(Where(s[..|s| - 1], p)) + Once(last, p)
  {
  }

  lemma ComparableOrExcluded(s: seq<Candidate>)
    ensures multiset(D.Comparable(s)) + multiset(Where(s, D.Excluded)) == multiset(s)
    ensures |D.Comparable(s)| + |Where(s, D.Excluded)| == |s|
  {
    ThreeWaySplit(s);
    hide Where;
    assert |multiset(D.Comparable(s)) + multiset(Where(s, D.Excluded))| == |multiset(s)|;
  }

  lemma {:induction false} MappedIsAdditive<T, U>(a: seq<T>, b: seq<T>, f: T -> U)
    ensures Mapped(a + b, f) == Mapped(a, f) + Mapped(b, f)
  {
  }

  lemma TakenOut<T>(s: seq<T>, k: nat)
    requires k < |s|
    ensures multiset(s) == multiset(s[..k] + s[k + 1..]) + multiset{s[k]}
  {
    assert s == s[..k] + [s[k]] + s[k + 1..];
  }

  lemma MappedTakenOut<T, U>(s: seq<T>, k: nat, f: T -> U)
    requires k < |s|
    ensures multiset(Mapped(s, f)) == multiset(Mapped(s[..k] + s[k + 1..], f)) + multiset{f(s[k])}
  {
    TakenOut(Mapped(s, f), k);
    assert Mapped(s, f)[..k] + Mapped(s, f)[k + 1..] == Mapped(s[..k] + s[k + 1..], f);
  }

  lemma CancelOne<T>(m: multiset<T>, n: multiset<T>, e: T)
    requires m + multiset{e} == n + multiset{e}
    ensures m == n
  {
    assert m == m + multiset{e} - multiset{e};
    assert n == n + multiset{e} - multiset{e};
  }

  lemma FirstTakenOut<T>(a: seq<T>, b: seq<T>) returns (k: nat)
    requires a != [] && multiset(a) == multiset(b)
    ensures k < |b| && b[k] == a[0] && multiset(a[1..]) == multiset(b[..k] + b[k + 1..])
  {
    assert a[0] in multiset(b);
    k :| 0 <= k < |b| && b[k] == a[0];
    TakenOut(a, 0);
    TakenOut(b, k);
    assert a[..0] + a[0 + 1..] == a[1..];
    CancelOne(multiset(a[1..]), multiset(b[..k] + b[k + 1..]), a[0]);
  }

  lemma {:induction false} MappedMultiset<T, U>(a: seq<T>, b: seq<T>, f: T -> U)
    requires multiset(a) == multiset(b)
    ensures multiset(Mapped(a, f)) == multiset(Mapped(b, f))
  {
    hide Mapped;
    if a == [] {
      assert |multiset(b)| == 0;
    } else {
      var k := FirstTakenOut(a, b);
      var rest := b[..k] + b[k + 1..];
      assert |rest| == |b| - 1 && a[..0] + a[0 + 1..] == a[1..];
      MappedTakenOut(a, 0, f);
      MappedTakenOut(b, k, f);
      MappedMultiset(a[1..], rest, f);
    }
  }

  /** The candidate identifiers of all groups, one group after another. */
  function GroupedIds(groups: seq<AgreementGroup>): seq<string> {
    if groups == [] then [] else GroupedIds(groups[..|groups| - 1]) + groups[|groups| - 1].candidates
  }

  function AllIds(attributes: seq<Consensus>): seq<string> {
    if attributes == [] then [] else AllIds(attributes[..|attributes| - 1]) + attributes[|attributes| - 1].candidates
  }

  lemma {:induction false} GroupedIdsAreMapped(groups: seq<AgreementGroup>, values: seq<Group<(string, Option<string>), Candidate>>)
    requires |groups| == |values|
    requires forall i :: 0 <= i < |groups| ==> groups[i].candidates == Mapped(values[i].items, D.IdOf)
    ensures GroupedIds(groups) == Mapped(Items(values), D.IdOf)
  {
    if groups != [] {
      var n := |groups| - 1;
      GroupedIdsAreMapped(groups[..n], values[..n]);
      MappedIsAdditive(Items(values[..n]), values[n].items, D.IdOf);
    }
  }

  lemma {:induction false} AllIdsAreMapped(attributes: seq<Consensus>, groups: seq<Group<string, Candidate>>)
    requires |attributes| == |groups|
    requires forall i :: 0 <= i < |groups| ==> attributes[i].candidates == Mapped(groups[i].items, D.IdOf)
    ensures AllIds(attributes) == Mapped(Items(groups), D.IdOf)
  {
    if groups != [] {
      var n := |groups| - 1;
      AllIdsAreMapped(attributes[..n], groups[..n]);
      MappedIsAdditive(Items(groups[..n]), groups[n].items, D.IdOf);
    }
  }

  /** The groups cover exactly the comparable candidates that have a value, each once; no two
      groups share value and unit, and none is empty. */
  ghost predicate GroupsCover(groups: seq<AgreementGroup>, comparable: seq<Candidate>) {
    && multiset(GroupedIds(groups)) == multiset(Mapped(Where(comparable, D.HasValue), D.IdOf))
    && (forall i :: 0 <= i < |groups| ==> groups[i].candidates != [])
    && (forall i, j :: 0 <= i < j < |groups| ==> (groups[i].value, groups[i].unit) != (groups[j].value, groups[j].unit))
  }

  lemma GroupsAreChecked(comparable: seq<Candidate>)
    requires D.AgreementGroups(comparable).Success?
    ensures var groups, values := D.AgreementGroups(comparable).value, D.ValueGroups(comparable);
      && |groups| == |values|
      && (forall i :: 0 <= i < |groups| ==> groups[i].candidates == Mapped(values[i].items, D.IdOf))
      && (forall i :: 0 <= i < |groups| ==> (groups[i].value, groups[i].unit) == values[i].key)
  {
  }

  lemma AgreementGroupsCover(comparable: seq<Candidate>)
    requires D.AgreementGroups(comparable).Success?
    ensures GroupsCover(D.AgreementGroups(comparable).value, comparable)
  {
    var groups, values := D.AgreementGroups(comparable).value, D.ValueGroups(comparable);
    var valued := Where(comparable, D.HasValue);
    hide GroupBy, FirstSeen, Where, Items, Mapped, D.AgreementGroups, GroupedIds;
    GroupingConserves(valued, D.KeyOf);
    ValueGroupsArePartition(comparable);
    GroupsAreChecked(comparable);
    GroupedIdsAreMapped(groups, values);
    MappedMultiset(Items(values), valued, D.IdOf);
  }

  lemma ValueGroupsArePartition(comparable: seq<Candidate>)
    ensures var values := D.ValueGroups(comparable);
      && (forall i :: 0 <= i < |values| ==> values[i].items != [])
      && (forall i, j :: 0 <= i < j < |values| ==> values[i].key != values[j].key)
  {
    hide GroupBy, FirstSeen, Where;
    GroupsPartition(Where(comparable, D.HasValue), D.KeyOf);
  }

  /** The consensus of an attribute accounts for all of its candidates. */
  ghost predicate Accounts(c: Consensus, name: string, items: seq<Candidate>) {
    && c.name == name && c.candidates == Mapped(items, D.IdOf) && c.candidateCount == |items|
    && c.comparableCount + c.excludedCount == c.candidateCount
    && c.comparableCount == |D.Comparable(items)|
    && c.groupCount == |c.groups| && GroupsCover(c.groups, D.Comparable(items))
  }

  lemma AssessmentAccounts(lib: Library, limits: D.Limits, name: string, items: seq<Candidate>)
    requires items != [] && D.AssessAttribute(lib, limits, name, items).Success?
    ensures Accounts(D.AssessAttribute(lib, limits, name, items).value, name, items)
  {
    ComparableOrExcluded(items);
    AgreementGroupsCover(D.Comparable(items));
    hide GroupsCover, D.Comparable, D.JudgeAttribute, Where, D.AgreementGroups, D.Warnings;
  }

  /** Detection partitions the candidates by attribute in first-seen order: each consensus
      accounts for exactly the candidates of its attribute, and together they list every
      candidate once. */
  lemma DetectionConserves(lib: Library, limits: D.Limits, id: nat, n: Normalization)
    requires D.Detect(lib, limits, id, n).Success?
    ensures var attributes := D.Detect(lib, limits, id, n).value.attributes;
      var names := FirstSeen(Mapped(n.candidates, D.NameOf));
      && |attributes| == |names|
      && (forall i :: 0 <= i < |names| ==> Accounts(attributes[i], names[i], ItemsOf(n.candidates, D.NameOf, names[i])))
      && multiset(AllIds(attributes)) == multiset(Mapped(n.candidates, D.IdOf))
  {
    var attributes, groups := D.Detect(lib, limits, id, n).value.attributes, GroupBy(n.candidates, D.NameOf);
    var names := FirstSeen(Mapped(n.candidates, D.NameOf));
    GroupsPartition(n.candidates, D.NameOf);
    GroupingConserves(n.candidates, D.NameOf);
    GroupsByName(n.candidates);
    hide GroupBy, FirstSeen, ItemsOf, Accounts, D.AssessAttribute;
    forall i | 0 <= i < |groups|
      ensures Accounts(attributes[i], names[i], groups[i].items)
      ensures attributes[i].candidates == Mapped(groups[i].items, D.IdOf)
    {
      assert D.AssessAt(lib, limits)(i, groups[i]) == Success(attributes[i]);
      AssessmentAccounts(lib, limits, names[i], groups[i].items);
      AccountedIds(attributes[i], names[i], groups[i].items);
    }
    AllIdsAreMapped(attributes, groups);
    MappedMultiset(Items(groups), n.candidates, D.IdOf);
  }

  lemma GroupsByName(s: seq<Candidate>)
    ensures var names, groups := FirstSeen(Mapped(s, D.NameOf)), GroupBy(s, D.NameOf);
      |groups| == |names| && forall i :: 0 <= i < |groups| ==> groups[i] == Group(names[i], ItemsOf(s, D.NameOf, names[i]))
  {
  }

  lemma AccountedIds(c: Consensus, name: string, items: seq<Candidate>)
    requires Accounts(c, name, items)
    ensures c.candidates == Mapped(items, D.IdOf)
  {
  }
}
