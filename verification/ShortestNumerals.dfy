/** The canonical text of a number is the shortest numeral that says it. */
module ShortestNumerals {
  import opened Wrappers
  import opened Numerals
  import opened Decimals
  import opened NormalizationMeaning

  lemma {:induction false} ShortestDigits(s: string)
    requires AllDigits(s) && NumberOf(s) > 0
    ensures |s| >= |Digits(NumberOf(s))|
  {
    if NumberOf(s) >= 10 {
      ShortestDigits(s[..|s| - 1]);
    }
  }

  lemma OneMoreZero(m: nat)
    requires m > 0
    ensures |Digits(10 * m)| == |Digits(m)| + 1
  {
    assert 10 * m / 10 == m;
  }

  lemma PowerStep(n: int, k: nat)
    requires k > 0
    ensures n * Pow10(k) == 10 * (n * Pow10(k - 1))
  {
    TenTimes(n, Pow10(k - 1));
  }

  lemma {:induction false} DigitsTimes(n: nat, k: nat)
    requires n > 0
    ensures n * Pow10(k) > 0 && |Digits(n * Pow10(k))| == |Digits(n)| + k
  {
    if k > 0 {
      hide Pow10, Digits;
      DigitsTimes(n, k - 1);
      PowerStep(n, k);
      OneMoreZero(n * Pow10(k - 1));
    } else {
      assert n * Pow10(0) == n;
    }
  }

  /** Reducing takes off as many trailing zeros as places. */
  lemma {:induction false} ReducedTimes(d: Dec)
    ensures Reduced(d).scale <= d.scale && d.coef == Reduced(d).coef * Pow10(d.scale - Reduced(d).scale)
    decreases d.scale
  {
    if d.scale > 0 && d.coef % 10 == 0 {
      var e := Dec(d.coef / 10, d.scale - 1);
      ReducedTimes(e);
      var r, k := Reduced(e), e.scale - Reduced(e).scale;
      assert Pow10(k + 1) == 10 * Pow10(k);
      TenTimes(r.coef, Pow10(k));
    }
  }

  lemma TenTimes(c: int, p: int)
    ensures c * (10 * p) == 10 * (c * p)
  {
  }

  function Longer(a: nat, b: nat): nat { if a < b then b else a }

  lemma RenderedLength(e: Dec)
    ensures |Rendered(e)| == (if e.coef < 0 then 1 else 0) + Longer(|Digits(Abs(e.coef))|, e.scale + 1) + (if e.scale > 0 then 1 else 0)
  {
    hide Digits;
  }

  lemma SameReduced(a: Dec, b: Dec)
    requires Value(a) == Value(b)
    ensures Reduced(a) == Reduced(b)
  {
    hide Value;
    ReducedValue(a);
    ReducedValue(b);
    if Reduced(a).scale <= Reduced(b).scale { ReducedIsUnique(Reduced(a), Reduced(b)); } else { ReducedIsUnique(Reduced(b), Reduced(a)); }
  }

  lemma AbsTimes(c: int, p: int)
    requires p > 0
    ensures Abs(c * p) == Abs(c) * p && (c < 0 <==> c * p < 0)
  {
  }

  lemma AbsPositive(c: int)
    ensures Abs(c) > 0 <==> c != 0
  {
  }

  /** The digits of a numeral are no fewer than those that its reduced number needs. */
  lemma EnoughDigits(digits: string, f: Dec)
    requires AllDigits(digits) && NumberOf(digits) == Abs(f.coef) && f.coef != 0 && |digits| > f.scale
    ensures var e := Reduced(f);
      e.coef != 0 && (e.coef < 0 <==> f.coef < 0) && e.scale <= f.scale
      && |digits| >= Longer(|Digits(Abs(e.coef))|, e.scale + 1) + (f.scale - e.scale)
  {
    hide Digits, Pow10, Value, Reduced, NumberOf, Abs;
    var e := Reduced(f);
    ReducedTimes(f);
    ReducedValue(f);
    var k := f.scale - e.scale;
    AbsTimes(e.coef, Pow10(k));
    AbsPositive(e.coef);
    AbsPositive(f.coef);
    DigitsTimes(Abs(e.coef), k);
    ShortestDigits(digits);
  }

  /** Whatever text is read as the same number, the canonical text of the number is no longer. */
  lemma CanonicalIsShortest(d: Dec, s: string)
    requires ParsePlain(s).Some? && Value(ParsePlain(s).value) == Value(d)
    ensures |Canonical(d)| <= |s|
  {
    hide Value, Canonical, Rendered, Reduced, ParsePlain, ParseUnsigned, Pow10;
    OnlyNumeralsAreRead(s);
    var sign, whole, fraction :| Numeral(s, sign, whole, fraction);
    ParseDigits(whole, fraction);
    PlainOfSigned(sign, Pointed(whole, fraction));
    var f := ParsePlain(s).value;
    if d.coef == 0 {
      ZeroIsOne(d);
    } else {
      SameReduced(f, d);
      NotZero(d, f);
      CanonicalIsReduced(d);
      RenderedLength(Reduced(d));
      EnoughDigits(whole + fraction, f);
    }
  }

  lemma ZeroIsOne(d: Dec)
    requires d.coef == 0
    ensures |Canonical(d)| == 1
  {
  }

  lemma NotZero(d: Dec, f: Dec)
    requires d.coef != 0 && Value(d) == Value(f)
    ensures f.coef != 0
  {
    ZeroValue(d);
    ZeroValue(f);
  }
}
