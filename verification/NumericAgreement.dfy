/**
 Comparing the numbers of an attribute's candidates, and why the quadratic
 pairwise check is one comparison of the least with the greatest number.
 */
module NumericAgreement {
  import opened Decimals

  datatype Comparison = Exact | Tolerance | Different

  /** A relative tolerance in basis points and an absolute tolerance. */
  datatype Comparator = Comparator(relativeBp: int, absolute: real)

  /** What the constructor of the comparator accepts. */
  ghost predicate Accepted(c: Comparator) { 0 <= c.relativeBp <= 10_000 && c.absolute >= 0.0 }

  function AbsReal(x: real): real { if x < 0.0 then -x else x }

  function MaxReal(x: real, y: real): real { if x < y then y else x }

  function Relative(c: Comparator): real { c.relativeBp as real / 10_000.0 }

  function CompareReals(c: Comparator, left: real, right: real, integer: bool): Comparison {
    if left == right then Exact
    else if integer then Different
    else
      var difference := AbsReal(left - right);
      if difference <= c.absolute then Tolerance
      else
        var denominator := MaxReal(AbsReal(left), AbsReal(right));
        if denominator != 0.0 && difference / denominator <= Relative(c) then Tolerance else Different
  }

  function Compare(c: Comparator, left: Dec, right: Dec, integer: bool): Comparison {
    CompareReals(c, Value(left), Value(right), integer)
  }

  predicate AllPairs(c: Comparator, values: seq<Dec>, integer: bool, allowed: set<Comparison>) {
    forall i, j :: 0 <= i < j < |values| ==> Compare(c, values[i], values[j], integer) in allowed
  }

  /** The verdict of comparing every pair: the worst comparison among them. */
  function Verdict(c: Comparator, values: seq<Dec>, integer: bool): Comparison {
    if AllPairs(c, values, integer, {Exact}) then Exact
    else if AllPairs(c, values, integer, {Exact, Tolerance}) then Tolerance
    else Different
  }

  /** The pairs of the first `i` values with later ones are all allowed. */
  ghost predicate Rows(c: Comparator, values: seq<Dec>, integer: bool, allowed: set<Comparison>, i: nat) {
    forall a, b :: 0 <= a < i && a < b < |values| ==> Compare(c, values[a], values[b], integer) in allowed
  }

  /** And those of value `i` with the ones after it, up to `j`. */
  ghost predicate Row(c: Comparator, values: seq<Dec>, integer: bool, allowed: set<Comparison>, i: nat, j: nat) {
    forall b :: i < b < j && b < |values| ==> Compare(c, values[i], values[b], integer) in allowed
  }

  lemma RowsStep(c: Comparator, values: seq<Dec>, integer: bool, allowed: set<Comparison>, i: nat)
    requires i < |values|
    ensures Rows(c, values, integer, allowed, i + 1) <==> Rows(c, values, integer, allowed, i) && Row(c, values, integer, allowed, i, |values|)
    ensures Row(c, values, integer, allowed, i, i + 1)
  {
    hide Compare;
  }

  lemma RowStep(c: Comparator, values: seq<Dec>, integer: bool, allowed: set<Comparison>, i: nat, j: nat)
    requires i < j < |values|
    ensures Row(c, values, integer, allowed, i, j + 1)
       <==> Row(c, values, integer, allowed, i, j) && Compare(c, values[i], values[j], integer) in allowed
  {
    hide Compare;
  }

  lemma AllRows(c: Comparator, values: seq<Dec>, integer: bool, allowed: set<Comparison>)
    ensures Rows(c, values, integer, allowed, 0)
    ensures AllPairs(c, values, integer, allowed) <==> Rows(c, values, integer, allowed, |values|)
  {
    hide Compare;
  }

  method CompareAllPairs(c: Comparator, values: seq<Dec>, integer: bool) returns (r: Comparison)
    ensures r == Verdict(c, values, integer)
    ensures r.Exact? <==> ValuesAgree(c, ValuesOf(values), integer, true)
    ensures r.Different? <==> !ValuesAgree(c, ValuesOf(values), integer, false)
  {
    hide Compare, Rows, Row, AllPairs;
    VerdictMeans(c, values, integer);
    var exact, tolerated := true, true;
    ghost var same, near: set<Comparison> := {Exact}, {Exact, Tolerance};
    AllRows(c, values, integer, same);
    AllRows(c, values, integer, near);
    for i := 0 to |values|
      invariant exact <==> Rows(c, values, integer, same, i)
      invariant tolerated <==> Rows(c, values, integer, near, i)
    {
      RowsStep(c, values, integer, same, i);
      RowsStep(c, values, integer, near, i);
      for j := i + 1 to |values|
        invariant exact <==> Rows(c, values, integer, same, i) && Row(c, values, integer, same, i, j)
        invariant tolerated <==> Rows(c, values, integer, near, i) && Row(c, values, integer, near, i, j)
      {
        RowStep(c, values, integer, same, i, j);
        RowStep(c, values, integer, near, i, j);
        var compared := Compare(c, values[i], values[j], integer);
        exact := exact && compared.Exact?;
        tolerated := tolerated && !compared.Different?;
      }
    }
    return if exact then Exact else if tolerated then Tolerance else Different;
  }

  // ----- what a comparison means ----------------------------------------------------------

  /** Within the absolute tolerance, or within the relative one of the greater magnitude. */
  ghost predicate Near(c: Comparator, x: real, y: real) {
    var difference := if x < y then y - x else x - y;
    var a, b := if x < 0.0 then -x else x, if y < 0.0 then -y else y;
    difference <= c.absolute || difference * 10_000.0 <= c.relativeBp as real * (if a < b then b else a)
  }

  lemma RatioIsProduct(d: real, m: real, r: real)
    requires m > 0.0
    ensures d / m <= r <==> d <= r * m
  {
  }

  lemma NearIsRatio(c: Comparator, d: real, m: real)
    requires m > 0.0
    ensures d / m <= c.relativeBp as real / 10_000.0 <==> d * 10_000.0 <= c.relativeBp as real * m
  {
    var bp := c.relativeBp as real;
    RatioIsProduct(d, m, bp / 10_000.0);
    assert bp / 10_000.0 * m == bp * m / 10_000.0;
  }

  /** Exact means equal; within tolerance means different but near, of numbers that need not be whole. */
  lemma ComparisonMeans(c: Comparator, x: real, y: real, integer: bool)
    ensures CompareReals(c, x, y, integer).Exact? <==> x == y
    ensures CompareReals(c, x, y, integer).Tolerance? <==> x != y && !integer && Near(c, x, y)
  {
    if x != y {
      var difference, denominator := AbsReal(x - y), MaxReal(AbsReal(x), AbsReal(y));
      NearIsRatio(c, difference, denominator);
    }
  }

  /** Every two values are equal, or at least near if that will do. */
  ghost predicate ValuesAgree(c: Comparator, values: seq<real>, integer: bool, exact: bool) {
    forall i, j :: 0 <= i < j < |values| ==>
      values[i] == values[j] || (!exact && !integer && Near(c, values[i], values[j]))
  }

  function ValuesOf(numbers: seq<Dec>): (r: seq<real>)
    ensures |r| == |numbers| && forall i :: 0 <= i < |r| ==> r[i] == Value(numbers[i])
  {
    seq(|numbers|, i requires 0 <= i < |numbers| => Value(numbers[i]))
  }

  /** The verdict over all pairs, in terms of the values alone. */
  lemma VerdictMeans(c: Comparator, numbers: seq<Dec>, integer: bool)
    ensures AllPairs(c, numbers, integer, {Exact}) <==> ValuesAgree(c, ValuesOf(numbers), integer, true)
    ensures AllPairs(c, numbers, integer, {Exact, Tolerance}) <==> ValuesAgree(c, ValuesOf(numbers), integer, false)
    ensures Verdict(c, numbers, integer).Exact? <==> ValuesAgree(c, ValuesOf(numbers), integer, true)
    ensures Verdict(c, numbers, integer).Different? <==> !ValuesAgree(c, ValuesOf(numbers), integer, false)
  {
    var values := ValuesOf(numbers);
    forall i, j | 0 <= i < j < |numbers|
      ensures Compare(c, numbers[i], numbers[j], integer).Exact? <==> values[i] == values[j]
      ensures Compare(c, numbers[i], numbers[j], integer).Different?
              <==> values[i] != values[j] && (integer || !Near(c, values[i], values[j]))
    {
      ComparisonMeans(c, values[i], values[j], integer);
    }
    hide Compare, Near, ValuesOf;
  }

  function Rank(c: Comparison): nat {
    match c case Exact => 0 case Tolerance => 1 case Different => 2
  }

  // ----- a comparison is never worse than that of the extremes ------------------------

  lemma CompareIsSymmetric(c: Comparator, x: real, y: real, integer: bool)
    ensures CompareReals(c, x, y, integer) == CompareReals(c, y, x, integer)
  {
  }

  lemma RelativeRange(c: Comparator)
    requires Accepted(c)
    ensures 0.0 <= Relative(c) <= 1.0
  {
  }

  lemma ScaledInOrder(s: real, x: real, y: real)
    requires s >= 0.0 && x <= y
    ensures s * x <= s * y
  {
  }

  lemma Complement(r: real, x: real)
    ensures (1.0 - r) * x == x - r * x
  {
  }

  /** Narrowing an interval of numbers of one sign keeps its relative width within the tolerance. */
  lemma NarrowedUp(lo: real, x: real, y: real, hi: real, r: real)
    requires 0.0 <= lo <= x <= y <= hi && 0.0 <= r <= 1.0 && hi - lo <= r * hi
    ensures y - x <= r * y
  {
  }

  /** An interval with both signs in it is wider than its larger end. */
  lemma MixedSigns(lo: real, hi: real, r: real)
    requires lo < 0.0 < hi && 0.0 <= r <= 1.0
    ensures !(hi - lo <= r * MaxReal(AbsReal(lo), AbsReal(hi)))
  {
  }

  lemma ToleratedInside(c: Comparator, lo: real, x: real, y: real, hi: real)
    requires Accepted(c) && lo <= x < y <= hi
    requires !CompareReals(c, lo, hi, false).Different?
    ensures !CompareReals(c, x, y, false).Different?
  {
    if hi - lo > c.absolute {
      RelativeRange(c);
      var r, m, n := Relative(c), MaxReal(AbsReal(lo), AbsReal(hi)), MaxReal(AbsReal(x), AbsReal(y));
      hide Relative;
      RatioIsProduct(hi - lo, m, r);
      RatioIsProduct(y - x, n, r);
      if 0.0 <= lo {
        NarrowedUp(lo, x, y, hi, r);
      } else if hi <= 0.0 {
        NarrowedUp(-hi, -y, -x, -lo, r);
      } else {
        MixedSigns(lo, hi, r);
      }
    }
  }

  lemma InsideIsNoWorse(c: Comparator, lo: real, x: real, y: real, hi: real, integer: bool)
    requires Accepted(c) && lo <= x <= hi && lo <= y <= hi
    ensures Rank(CompareReals(c, x, y, integer)) <= Rank(CompareReals(c, lo, hi, integer))
  {
    if x < y && !integer && !CompareReals(c, lo, hi, integer).Different? {
      ToleratedInside(c, lo, x, y, hi);
    } else if y < x && !integer && !CompareReals(c, lo, hi, integer).Different? {
      ToleratedInside(c, lo, y, x, hi);
      hide CompareReals;
      CompareIsSymmetric(c, x, y, integer);
    }
  }

  // ----- the pairwise check is one comparison -------------------------------------------

  ghost predicate Extremes(values: seq<Dec>, lo: nat, hi: nat) {
    && lo < |values| && hi < |values|
    && forall i :: 0 <= i < |values| ==> Value(values[lo]) <= Value(values[i]) <= Value(values[hi])
  }

  lemma {:induction false} ExtremesExist(values: seq<Dec>) returns (lo: nat, hi: nat)
    requires values != []
    ensures Extremes(values, lo, hi)
  {
    hide Value;
    var rest := values[..|values| - 1];
    if rest == [] {
      lo, hi := 0, 0;
    } else {
      lo, hi := ExtremesExist(rest);
      var last := |values| - 1;
      assert forall i :: 0 <= i < last ==> values[i] == rest[i];
      if Value(values[last]) < Value(values[lo]) { lo := last; }
      if Value(values[last]) > Value(values[hi]) { hi := last; }
    }
  }

  /** The verdict over all pairs is the comparison of the least with the greatest number. */
  lemma VerdictIsOneComparison(c: Comparator, values: seq<Dec>, integer: bool, lo: nat, hi: nat)
    requires Accepted(c) && Extremes(values, lo, hi)
    ensures Verdict(c, values, integer) == Compare(c, values[lo], values[hi], integer)
  {
    var worst := Compare(c, values[lo], values[hi], integer);
    forall i, j | 0 <= i < j < |values|
      ensures Rank(Compare(c, values[i], values[j], integer)) <= Rank(worst)
    {
      InsideIsNoWorse(c, Value(values[lo]), Value(values[i]), Value(values[j]), Value(values[hi]), integer);
    }
    CompareIsSymmetric(c, Value(values[lo]), Value(values[hi]), integer);
    hide CompareReals, Value;
    if lo < hi {
      assert Compare(c, values[lo], values[hi], integer) == worst;
    } else if hi < lo {
      assert Compare(c, values[hi], values[lo], integer) == worst;
    } else {
      SelfIsExact(c, values[lo], integer);
    }
  }

  lemma SelfIsExact(c: Comparator, d: Dec, integer: bool)
    ensures Compare(c, d, d, integer).Exact?
  {
  }

  /** Fewer numbers, in any order, never make the verdict worse. */
  lemma SubsetIsNoWorse(c: Comparator, values: seq<Dec>, fewer: seq<Dec>, integer: bool)
    requires Accepted(c) && forall d :: d in fewer ==> d in values
    ensures Rank(Verdict(c, fewer, integer)) <= Rank(Verdict(c, values, integer))
  {
    if fewer != [] {
      assert fewer[0] in values;
      var lo, hi := ExtremesExist(values);
      var a, b := ExtremesExist(fewer);
      VerdictIsOneComparison(c, values, integer, lo, hi);
      VerdictIsOneComparison(c, fewer, integer, a, b);
      assert fewer[a] in values && fewer[b] in values;
      hide CompareReals, Verdict;
      assert Value(values[lo]) <= Value(fewer[a]) <= Value(fewer[b]) <= Value(values[hi]);
      InsideIsNoWorse(c, Value(values[lo]), Value(fewer[a]), Value(fewer[b]), Value(values[hi]), integer);
    }
  }

  /** The verdict does not depend on the order of the candidates. */
  lemma VerdictForgetsOrder(c: Comparator, values: seq<Dec>, others: seq<Dec>, integer: bool)
    requires Accepted(c) && multiset(values) == multiset(others)
    ensures Verdict(c, values, integer) == Verdict(c, others, integer)
  {
    forall d ensures d in values <==> d in others {
      assert d in values <==> d in multiset(values);
      assert d in others <==> d in multiset(others);
    }
    SubsetIsNoWorse(c, values, others, integer);
    SubsetIsNoWorse(c, others, values, integer);
    hide Verdict;
  }

  /** Dropping a candidate never turns agreement into conflict, nor exact agreement into less. */
  lemma DroppingIsNoWorse(c: Comparator, values: seq<Dec>, k: nat, integer: bool)
    requires Accepted(c) && k < |values|
    ensures Rank(Verdict(c, values[..k] + values[k + 1..], integer)) <= Rank(Verdict(c, values, integer))
  {
  }
}
