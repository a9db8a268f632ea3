/** Grouping a list by a key in first-seen order, as an ordered dictionary of lists does. */
module Grouping {
  datatype Group<K, V> = Group(key: K, items: seq<V>)

  function Mapped<T, U>(s: seq<T>, f: T -> U): (r: seq<U>)
    ensures |r| == |s| && forall i :: 0 <= i < |s| ==> r[i] == f(s[i])
  {
    seq(|s|, i requires 0 <= i < |s| => f(s[i]))
  }

  function Where<T>(s: seq<T>, p: T -> bool): (r: seq<T>)
    ensures |r| <= |s|
  {
    if s == [] then []
    else Where(s[..|s| - 1], p) + if p(s[|s| - 1]) then [s[|s| - 1]] else []
  }

  lemma {:induction false} WhereMembers<T(!new)>(s: seq<T>, p: T -> bool)
    ensures forall x :: x in Where(s, p) <==> x in s && p(x)
  {
    if s != [] {
      var init, last := s[..|s| - 1], s[|s| - 1];
      WhereMembers(init, p);
      assert s == init + [last];
      assert Where(s, p) == Where(init, p) + if p(last) then [last] else [];
    }
  }

  /** Each element once, where it was first seen. */
  function FirstSeen<T(==, !new)>(s: seq<T>): (r: seq<T>)
    ensures forall x :: x in r <==> x in s
    ensures Distinct(r)
  {
    if s == [] then []
    else
      var before, last := FirstSeen(s[..|s| - 1]), s[|s| - 1];
      assert s == s[..|s| - 1] + [last];
      if last in before then before else before + [last]
  }

  /** The order is that of first sight: each element is in the list before any sight of those after it. */
  lemma {:induction false} FirstSeenInOrder<T(!new)>(s: seq<T>, i: nat, j: nat)
    requires i < j < |FirstSeen(s)|
    ensures exists a :: 0 <= a < |s| && s[a] == FirstSeen(s)[i] && FirstSeen(s)[j] !in s[..a + 1]
  {
    if s != [] {
      var init, n := s[..|s| - 1], |s| - 1;
      var before := FirstSeen(init);
      if j < |before| {
        FirstSeenInOrder(init, i, j);
        var a :| 0 <= a < |init| && init[a] == before[i] && before[j] !in init[..a + 1];
        assert init[..a + 1] == s[..a + 1] && s[a] == before[i];
      } else {
        assert before[i] in before && before[i] in init;
        var a :| 0 <= a < |init| && init[a] == before[i];
        assert s[n] !in init && s[a] == before[i] && s[..a + 1] == init[..a + 1];
      }
    }
  }

  ghost predicate Distinct<T>(s: seq<T>) {
    forall i, j :: 0 <= i < j < |s| ==> s[i] != s[j]
  }

  function ItemsOf<K(==), V>(s: seq<V>, key: V -> K, k: K): seq<V> {
    Where(s, v => key(v) == k)
  }

  lemma ItemsOfMembers<K(!new), V(!new)>(s: seq<V>, key: V -> K, k: K)
    ensures forall x :: x in ItemsOf(s, key, k) <==> x in s && key(x) == k
  {
    WhereMembers(s, v => key(v) == k);
  }

  function GroupOf<K(==, !new), V(!new)>(s: seq<V>, key: V -> K, k: K): Group<K, V> { Group(k, ItemsOf(s, key, k)) }

  /** The groups of a list: one for each key in first-seen order, with the key's items in list order. */
  function GroupBy<K(==, !new), V(!new)>(s: seq<V>, key: V -> K): (groups: seq<Group<K, V>>) {
    Mapped(FirstSeen(Mapped(s, key)), k => GroupOf(s, key, k))
  }

  lemma TakeOneMore<T>(s: seq<T>, i: nat)
    requires i < |s|
    ensures s[..i] + [s[i]] == s[..i + 1]
  {
  }

  /** The dictionary of lists after some of the items. */
  ghost predicate Listed<K(!new), V(!new)>(s: seq<V>, key: V -> K, order: seq<K>, lists: map<K, seq<V>>) {
    && order == FirstSeen(Mapped(s, key))
    && (forall k :: k in lists <==> k in order)
    && forall k :: k in lists ==> lists[k] == ItemsOf(s, key, k)
  }

  lemma ListedGrows<K(!new), V(!new)>(s: seq<V>, key: V -> K, order: seq<K>, lists: map<K, seq<V>>, x: V)
    requires Listed(s, key, order, lists)
    ensures var k := key(x);
      if k in lists then Listed(s + [x], key, order, lists[k := lists[k] + [x]])
      else Listed(s + [x], key, order + [k], lists[k := [] + [x]])
  {
    KeysGrow(s, key, x);
    if key(x) !in lists { NoneOf(s, key, key(x)); }
    hide FirstSeen, Mapped, ItemsOf;
  }

  /** The dictionary loop of the program. */
  method GroupInOrder<K(==, !new), V(!new)>(s: seq<V>, key: V -> K) returns (groups: seq<Group<K, V>>)
    ensures groups == GroupBy(s, key)
  {
    var order: seq<K>, lists: map<K, seq<V>> := [], map[];
    for i := 0 to |s|
      invariant Listed(s[..i], key, order, lists)
    {
      hide Listed;
      var k := key(s[i]);
      TakeOneMore(s, i);
      ListedGrows(s[..i], key, order, lists, s[i]);
      if k !in lists {
        order, lists := order + [k], lists[k := []];
      }
      lists := lists[k := lists[k] + [s[i]]];
    }
    assert s[..|s|] == s;
    groups := ListGroups(order, lists);
    assert groups == GroupBy(s, key);
  }

  method ListGroups<K(==, !new), V(!new)>(order: seq<K>, lists: map<K, seq<V>>) returns (groups: seq<Group<K, V>>)
    requires forall k :: k in order ==> k in lists
    ensures |groups| == |order| && forall i :: 0 <= i < |order| ==> groups[i] == Group(order[i], lists[order[i]])
  {
    groups := [];
    for i := 0 to |order|
      invariant |groups| == i && forall j :: 0 <= j < i ==> groups[j] == Group(order[j], lists[order[j]])
    {
      groups := groups + [Group(order[i], lists[order[i]])];
    }
  }

  lemma FirstTwoAreMembers<T>(s: seq<T>)
    ensures s != [] ==> s[0] in s && (|s| > 1 ==> s[1] in s)
  {
  }

  lemma {:induction false} NoneOf<K(!new), V(!new)>(s: seq<V>, key: V -> K, k: K)
    requires k !in FirstSeen(Mapped(s, key))
    ensures ItemsOf(s, key, k) == []
  {
    forall x | x in s ensures key(x) != k {
      var i :| 0 <= i < |s| && s[i] == x;
      assert Mapped(s, key)[i] == key(x);
    }
    ItemsOfMembers(s, key, k);
    FirstTwoAreMembers(ItemsOf(s, key, k));
  }

  // ----- a grouping is a partition ------------------------------------------------------

  /** Keys are distinct, groups are non-empty, and hold exactly the items of their key. */
  lemma GroupsPartition<K(!new), V(!new)>(s: seq<V>, key: V -> K)
    ensures var groups := GroupBy(s, key);
      && (forall i, j :: 0 <= i < j < |groups| ==> groups[i].key != groups[j].key)
      && (forall i :: 0 <= i < |groups| ==> groups[i].items != [])
      && (forall i, x :: 0 <= i < |groups| ==> (x in groups[i].items <==> x in s && key(x) == groups[i].key))
      && (forall x :: x in s ==> exists i :: 0 <= i < |groups| && x in groups[i].items)
  {
    var keys, groups := FirstSeen(Mapped(s, key)), GroupBy(s, key);
    forall i | 0 <= i < |groups|
      ensures forall x :: x in groups[i].items <==> x in s && key(x) == groups[i].key
    {
      ItemsOfMembers(s, key, keys[i]);
    }
    hide ItemsOf;
    forall i | 0 <= i < |groups| ensures groups[i].items != [] {
      assert keys[i] in Mapped(s, key);
      var j :| 0 <= j < |s| && Mapped(s, key)[j] == keys[i];
      assert s[j] in groups[i].items;
    }
    forall x | x in s ensures exists i :: 0 <= i < |groups| && x in groups[i].items {
      var j :| 0 <= j < |s| && s[j] == x;
      assert Mapped(s, key)[j] == key(x);
      assert key(x) in keys;
      var i :| 0 <= i < |keys| && keys[i] == key(x);
      assert x in groups[i].items;
    }
  }

  /** There is one group exactly when there are items and all have the same key. */
  lemma OneGroupIff<K(!new), V(!new)>(s: seq<V>, key: V -> K)
    ensures |GroupBy(s, key)| == 1 <==> s != [] && forall i :: 0 <= i < |s| ==> key(s[i]) == key(s[0])
  {
    GroupsPartition(s, key);
    var keys, mapped := FirstSeen(Mapped(s, key)), Mapped(s, key);
    forall i | 0 <= i < |s| ensures key(s[i]) in keys { assert mapped[i] == key(s[i]); }
    if s != [] && forall i :: 0 <= i < |s| ==> key(s[i]) == key(s[0]) {
      forall k | k in keys ensures k == key(s[0]) { assert k in mapped; }
      assert key(s[0]) in keys;
      FirstTwoAreMembers(keys);
    }
  }

  function Items<K, V>(groups: seq<Group<K, V>>): seq<V> {
    if groups == [] then [] else Items(groups[..|groups| - 1]) + groups[|groups| - 1].items
  }

  lemma {:induction false} ItemsGrow<K, V>(before: seq<Group<K, V>>, after: seq<Group<K, V>>, i: nat, x: V)
    requires i < |before| == |after|
    requires forall j :: 0 <= j < |before| && j != i ==> after[j] == before[j]
    requires after[i].items == before[i].items + [x]
    ensures multiset(Items(after)) == multiset(Items(before)) + multiset{x}
  {
    var n := |before| - 1;
    if i == n {
      assert after[..n] == before[..n];
    } else {
      ItemsGrow(before[..n], after[..n], i, x);
    }
  }

  lemma KeysGrow<K(!new), V(!new)>(s: seq<V>, key: V -> K, x: V)
    ensures var before, after := FirstSeen(Mapped(s, key)), FirstSeen(Mapped(s + [x], key));
      after == if key(x) in before then before else before + [key(x)]
    ensures forall k :: ItemsOf(s + [x], key, k) == ItemsOf(s, key, k) + if key(x) == k then [x] else []
  {
    assert (s + [x])[..|s|] == s;
    assert Mapped(s + [x], key)[..|s|] == Mapped(s, key);
  }

  lemma GroupsGrow<K(!new), V(!new)>(s: seq<V>, key: V -> K, x: V)
    ensures var keys, before, after := FirstSeen(Mapped(s, key)), GroupBy(s, key), GroupBy(s + [x], key);
      && |before| == |keys| && |after| == |keys| + (if key(x) in keys then 0 else 1)
      && (forall j :: 0 <= j < |keys| ==>
            && before[j].key == keys[j]
            && after[j] == before[j].(items := before[j].items + if key(x) == keys[j] then [x] else []))
      && (key(x) !in keys ==> after[|keys|] == Group(key(x), ItemsOf(s, key, key(x)) + [x]))
  {
    KeysGrow(s, key, x);
    hide FirstSeen, ItemsOf;
  }

  lemma GroupByGrows<K(!new), V(!new)>(s: seq<V>, key: V -> K, x: V)
    ensures multiset(Items(GroupBy(s + [x], key))) == multiset(Items(GroupBy(s, key))) + multiset{x}
  {
    hide FirstSeen, ItemsOf, Mapped, GroupBy;
    var keys := FirstSeen(Mapped(s, key));
    var before, after := GroupBy(s, key), GroupBy(s + [x], key);
    GroupsGrow(s, key, x);
    if key(x) in keys {
      var i :| 0 <= i < |keys| && keys[i] == key(x);
      ItemsGrow(before, after, i, x);
    } else {
      NoneOf(s, key, key(x));
      forall j | 0 <= j < |keys| ensures after[j] == before[j] {
        assert keys[j] in keys;
        assert after[j].items == before[j].items + [] == before[j].items;
      }
      assert after[..|keys|] == before;
      assert after[|keys|].items == [] + [x];
    }
  }

  /** Grouping loses and duplicates nothing. */
  lemma {:induction false} GroupingConserves<K(!new), V(!new)>(s: seq<V>, key: V -> K)
    ensures multiset(Items(GroupBy(s, key))) == multiset(s)
  {
    if s == [] {
      assert GroupBy(s, key) == [];
    } else {
      var n := |s| - 1;
      GroupingConserves(s[..n], key);
      GroupByGrows(s[..n], key, s[n]);
      assert s == s[..n] + [s[n]];
    }
  }

  // ----- splitting a list by a test ------------------------------------------------------

  lemma {:induction false} WhereSplits<T(!new)>(s: seq<T>, p: T -> bool, q: T -> bool)
    requires forall x :: x in s ==> p(x) != q(x)
    ensures |Where(s, p)| + |Where(s, q)| == |s|
  {
    if s != [] {
      assert forall x :: x in s[..|s| - 1] ==> x in s;
      assert s[|s| - 1] in s;
      WhereSplits(s[..|s| - 1], p, q);
    }
  }

  lemma {:induction false} WhereAll<T>(s: seq<T>, p: T -> bool)
    requires forall i :: 0 <= i < |s| ==> p(s[i])
    ensures Where(s, p) == s
  {
    if s != [] {
      var init, last := s[..|s| - 1], s[|s| - 1];
      WhereAll(init, p);
      assert s == init + [last];
    }
  }

  /** The set of what a function gives on a list. */
  function Image<T, U(==)>(s: seq<T>, f: T -> U): set<U> { set x | x in Mapped(s, f) }
}
