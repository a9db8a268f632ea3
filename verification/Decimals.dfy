/**
 Decimal numbers as the attribute pipeline uses them: parsing, rounding after a
 unit conversion, and the canonical text. A number is an integer coefficient
 with a count of fractional places, as the program's decimals are; what it is
 worth is a real.
 */
module Decimals {
  import opened Wrappers
  import opened Numerals
  import opened Texts

  datatype Dec = Dec(coef: int, scale: nat)

  function Frac(a: int, p: int): real
    requires p > 0
  {
    a as real / p as real
  }

  function Value(d: Dec): real { Frac(d.coef, Pow10(d.scale)) }

  function Abs(x: int): nat { if x < 0 then -x else x }

  // ----- reading ---------------------------------------------------------------

  function DotAt(s: string): (i: nat)
    ensures i <= |s| && (i < |s| ==> s[i] == '.') && forall j :: 0 <= j < i ==> s[j] != '.'
  {
    if s == "" || s[0] == '.' then 0 else 1 + DotAt(s[1..])
  }

  /** Digits, optionally a point with more digits. */
  function ParseUnsigned(s: string): Option<Dec> {
    var dot := DotAt(s);
    var whole := s[..dot];
    var frac := if dot < |s| then s[dot + 1..] else "";
    if whole == "" || !AllDigits(whole) || !AllDigits(frac) || (dot < |s| && frac == "") then None
    else Some(Dec(NumberOf(whole + frac), |frac|))
  }

  function Negated(d: Option<Dec>): Option<Dec> {
    if d.Some? then Some(Dec(-d.value.coef, d.value.scale)) else None
  }

  /** An unsigned number, optionally signed. */
  function ParsePlain(s: string): Option<Dec> {
    if s != "" && s[0] == '-' then Negated(ParseUnsigned(s[1..]))
    else if s != "" && s[0] == '+' then ParseUnsigned(s[1..])
    else ParseUnsigned(s)
  }

  function Parse(raw: string): Option<Dec> { ParsePlain(Strip(raw)) }

  // ----- the canonical text ------------------------------------------------------

  function Sign(d: Dec): string { if d.coef < 0 then "-" else "" }

  /** Fixed-point notation with every fractional place, without the sign. */
  function Unsigned(d: Dec): string {
    var digits := PaddedTo(Abs(d.coef), d.scale + 1);
    var split := |digits| - d.scale;
    digits[..split] + (if d.scale == 0 then "" else "." + digits[split..])
  }

  function Rendered(d: Dec): string { Sign(d) + Unsigned(d) }

  function RightStrip(s: string, c: char): string {
    if s != "" && s[|s| - 1] == c then RightStrip(s[..|s| - 1], c) else s
  }

  function Canonical(d: Dec): string {
    if d.coef == 0 then "0"
    else
      var rendered := Rendered(d);
      if '.' in rendered then RightStrip(RightStrip(rendered, '0'), '.') else rendered
  }

  // ----- rounding ------------------------------------------------------------------

  /** `n / unit` to the nearest integer, halves up. */
  function HalfUp(n: nat, unit: int): nat
    requires unit > 0
  {
    (2 * n + unit) / (2 * unit)
  }

  /** Half up, away from zero, once there are more than `places` fractional digits. */
  function RoundConversion(d: Dec, places: nat): Dec {
    if d.scale <= places then d
    else
      var n: int := HalfUp(Abs(d.coef), Pow10(d.scale - places));
      Dec(if d.coef < 0 then -n else n, places)
  }

  predicate IsIntegral(d: Dec) { d.coef % Pow10(d.scale) == 0 }

  // ===== what canonical texts promise ==================================================

  lemma {:induction false} Pow10Adds(a: nat, b: nat)
    ensures Pow10(a + b) == Pow10(a) * Pow10(b)
  {
    if a > 0 {
      Pow10Adds(a - 1, b);
      assert Pow10(a + b) == 10 * Pow10(a - 1 + b);
    }
  }

  function Scaled(x: real, k: int): real { x * k as real }

  lemma ScaledOrder(x: real, y: real, k: int)
    requires k > 0
    ensures x < y <==> Scaled(x, k) < Scaled(y, k)
    ensures x == y <==> Scaled(x, k) == Scaled(y, k)
  {
  }

  lemma ScaledTwice(x: real, p: int, q: int)
    ensures Scaled(Scaled(x, p), q) == Scaled(x, p * q)
  {
  }

  lemma ScaledDifference(x: real, y: real, k: int)
    ensures Scaled(x - y, k) == Scaled(x, k) - Scaled(y, k)
  {
  }

  lemma ScaledInt(n: int, k: int)
    ensures Scaled(n as real, k) == (n * k) as real
  {
  }

  lemma FracIs(x: real, a: int, p: int)
    requires p > 0
    ensures Scaled(x, p) == a as real <==> x == Frac(a, p)
  {
  }

  lemma EqualFractions(a: int, p: int, b: int, q: int)
    requires p > 0 && q > 0
    ensures Frac(a, p) == Frac(b, q) <==> a * q == b * p
  {
  }

  /** Without trailing fractional zeros. */
  function Reduced(d: Dec): (r: Dec)
    ensures r.scale > 0 ==> r.coef % 10 != 0
    decreases d.scale
  {
    if d.scale > 0 && d.coef % 10 == 0 then Reduced(Dec(d.coef / 10, d.scale - 1)) else d
  }

  lemma TenCancels(c: int, p: int)
    requires p > 0
    ensures Frac(10 * c, 10 * p) == Frac(c, p)
  {
  }

  lemma CancelInt(x: int, y: int, p: int)
    requires p > 0 && x * p == y * p
    ensures x == y
  {
  }

  lemma {:induction false} ReducedValue(d: Dec)
    ensures Value(Reduced(d)) == Value(d)
    ensures d.coef != 0 ==> Reduced(d).coef != 0
    decreases d.scale
  {
    if d.scale > 0 && d.coef % 10 == 0 {
      var e := Dec(d.coef / 10, d.scale - 1);
      hide Frac;
      ReducedValue(e);
      TenCancels(e.coef, Pow10(e.scale));
    }
  }

  lemma ReducedIsUnique(a: Dec, b: Dec)
    requires Value(a) == Value(b) && a.scale <= b.scale
    requires b.scale > 0 ==> b.coef % 10 != 0
    ensures a == b
  {
    EqualFractions(a.coef, Pow10(a.scale), b.coef, Pow10(b.scale));
    var k := b.scale - a.scale;
    Pow10Adds(a.scale, k);
    var p, q := Pow10(a.scale), Pow10(k);
    if k > 0 { TenDivides(a.coef, k); }
    hide Pow10, Frac;
    assert a.coef * (p * q) == (a.coef * q) * p;
    CancelInt(a.coef * q, b.coef, p);
  }

  lemma TenDivides(a: int, k: nat)
    requires k > 0
    ensures a * Pow10(k) % 10 == 0
  {
    assert a * Pow10(k) == 10 * (a * Pow10(k - 1)) by { assert a * (10 * Pow10(k - 1)) == 10 * (a * Pow10(k - 1)); }
  }

  // ----- the canonical text is the reduced number, rendered ----------------------------

  lemma RightStripDrops(s: string, c: char)
    ensures RightStrip(s + [c], c) == RightStrip(s, c)
  {
  }

  lemma PaddedTimesTen(n: nat, scale: nat)
    requires n > 0
    ensures PaddedTo(10 * n, scale + 2) == PaddedTo(n, scale + 1) + "0"
  {
  }

  /** One trailing zero more in the text of ten times the coefficient with one place more. */
  lemma RenderedTimesTen(e: Dec)
    requires e.coef != 0
    ensures Rendered(Dec(10 * e.coef, e.scale + 1)) == Rendered(e) + (if e.scale == 0 then ".0" else "0")
  {
    hide Unsigned;
    UnsignedTimesTen(e);
    assert Sign(Dec(10 * e.coef, e.scale + 1)) == Sign(e);
  }

  lemma UnsignedTimesTen(e: Dec)
    requires e.coef != 0
    ensures Unsigned(Dec(10 * e.coef, e.scale + 1)) == Unsigned(e) + (if e.scale == 0 then ".0" else "0")
  {
    hide PaddedTo;
    var n := Abs(e.coef);
    PaddedTimesTen(n, e.scale);
    assert Abs(10 * e.coef) == 10 * n;
    ZeroAppended(PaddedTo(n, e.scale + 1), e.scale);
  }

  /** A zero behind digits, of which `scale` are places, is a zero behind the places. */
  lemma ZeroAppended(digits: string, scale: nat)
    requires scale < |digits|
    ensures var split, long := |digits| - scale, digits + "0";
      && |long| - (scale + 1) == split
      && long[..split] + ("." + long[split..])
         == digits[..split] + (if scale == 0 then "" else "." + digits[split..]) + (if scale == 0 then ".0" else "0")
  {
    var split, long := |digits| - scale, digits + "0";
    assert long[..split] == digits[..split] && long[split..] == digits[split..] + "0";
  }

  lemma RenderedEnds(d: Dec)
    requires d.coef != 0
    ensures |Rendered(d)| > 0
    ensures Rendered(d)[|Rendered(d)| - 1] == DigitChar(Abs(d.coef) % 10)
    ensures '.' in Rendered(d) <==> d.scale > 0
  {
  }

  lemma {:induction false} CanonicalIsReduced(d: Dec)
    requires d.coef != 0
    ensures Canonical(d) == Rendered(Reduced(d))
    decreases d.scale
  {
    hide Rendered;
    RenderedEnds(d);
    if d.scale > 0 && d.coef % 10 == 0 {
      var e := Dec(d.coef / 10, d.scale - 1);
      assert d == Dec(10 * e.coef, e.scale + 1);
      RenderedTimesTen(e);
      CanonicalIsReduced(e);
      RenderedEnds(e);
      if e.scale > 0 {
        RightStripDrops(Rendered(e), '0');
      } else {
        PointZeroStripped(Rendered(e));
      }
    } else if d.scale > 0 {
      assert Abs(d.coef) % 10 != 0;
    }
  }

  lemma PointZeroStripped(s: string)
    requires s != "" && s[|s| - 1] != '.'
    ensures RightStrip(RightStrip(s + ".0", '0'), '.') == s
  {
    assert s + ".0" == (s + ".") + "0";
    RightStripDrops(s + ".", '0');
    assert RightStrip(s + ".", '0') == s + ".";
    RightStripDrops(s, '.');
  }

  // ----- reading a canonical text gives the number back --------------------------------

  lemma DotAfterDigits(whole: string, rest: string)
    requires AllDigits(whole) && (rest == "" || rest[0] == '.')
    ensures DotAt(whole + rest) == |whole|
  {
    var s := whole + rest;
    assert forall j :: 0 <= j < |whole| ==> IsDigit(s[j]) && s[j] != '.';
    assert rest != "" ==> s[|whole|] == '.';
  }

  lemma ParseDigits(whole: string, frac: string)
    requires AllDigits(whole) && whole != "" && AllDigits(frac)
    ensures var s := whole + (if frac == "" then "" else "." + frac);
      ParseUnsigned(s) == Some(Dec(NumberOf(whole + frac), |frac|)) && IsDigit(s[0])
  {
    hide NumberOf, DotAt;
    var rest := if frac == "" then "" else "." + frac;
    DotAfterDigits(whole, rest);
    var s := whole + rest;
    assert s[..|whole|] == whole;
    assert frac != "" ==> s[|whole| + 1..] == frac;
  }

  lemma ParseRendered(d: Dec)
    ensures d.coef != 0 ==> ParsePlain(Rendered(d)) == Some(d)
  {
    hide NumberOf, ParseUnsigned, Unsigned;
    var body := Unsigned(d);
    ParseUnsignedRendered(d);
    if d.coef < 0 {
      assert Rendered(d)[1..] == body;
    } else {
      assert Rendered(d) == body;
    }
  }

  lemma ParseUnsignedRendered(d: Dec)
    ensures ParseUnsigned(Unsigned(d)) == Some(Dec(Abs(d.coef), d.scale)) && Unsigned(d) != "" && IsDigit(Unsigned(d)[0])
  {
    hide PaddedTo, NumberOf, ParseUnsigned;
    PaddedRoundTrip(Abs(d.coef), d.scale + 1);
    var digits := PaddedTo(Abs(d.coef), d.scale + 1);
    var split := |digits| - d.scale;
    ParseDigits(digits[..split], digits[split..]);
    assert digits[..split] + digits[split..] == digits;
    assert d.scale == 0 <==> digits[split..] == "";
  }

  lemma ParseZero()
    ensures ParsePlain("0") == Some(Dec(0, 0))
  {
    assert DotAt("0") == 1 by { DotAfterDigits("0", ""); assert "0" + "" == "0"; }
    assert "0"[..1] + "" == "0";
    assert "0"[..0] == "";
    assert NumberOf("0") == 0;
  }

  lemma StripKeepsPlain(s: string)
    requires s != "" && !IsBlank(s[0]) && !IsBlank(s[|s| - 1])
    ensures Strip(s) == s
  {
  }

  lemma CanonicalEnds(d: Dec)
    ensures Canonical(d) != "" && Strip(Canonical(d)) == Canonical(d)
  {
    if d.coef != 0 {
      CanonicalIsReduced(d);
      var e := Reduced(d);
      RenderedStart(e);
      ReducedValue(d);
      RenderedEnds(e);
      var s := Rendered(e);
      hide Canonical, Rendered, Reduced;
      assert !IsBlank(s[0]) && !IsBlank(s[|s| - 1]);
      StripKeepsPlain(s);
    }
  }

  lemma RenderedStart(d: Dec)
    ensures Rendered(d) != "" && (Rendered(d)[0] == '-' || IsDigit(Rendered(d)[0]))
  {
    hide Unsigned;
    ParseUnsignedRendered(d);
  }

  /** The canonical text of a number reads back as that number. */
  lemma CanonicalRoundTrip(d: Dec)
    ensures Parse(Canonical(d)).Some? && Value(Parse(Canonical(d)).value) == Value(d)
    ensures ParsePlain(Canonical(d)) == Parse(Canonical(d))
  {
    CanonicalEnds(d);
    if d.coef == 0 {
      ParseZero();
    } else {
      CanonicalIsReduced(d);
      ReducedValue(d);
      ParseRendered(Reduced(d));
    }
  }

  lemma ZeroValue(d: Dec)
    ensures Value(d) == 0.0 <==> d.coef == 0
  {
  }

  /** Two canonical texts are equal exactly when the numbers are. */
  lemma CanonicalIsFaithful(a: Dec, b: Dec)
    ensures Canonical(a) == Canonical(b) <==> Value(a) == Value(b)
  {
    CanonicalRoundTrip(a);
    CanonicalRoundTrip(b);
    if Value(a) == Value(b) {
      ZeroValue(a);
      ZeroValue(b);
      if a.coef != 0 {
        CanonicalIsReduced(a);
        CanonicalIsReduced(b);
        ReducedValue(a);
        ReducedValue(b);
        if Reduced(a).scale <= Reduced(b).scale { ReducedIsUnique(Reduced(a), Reduced(b)); }
        else { ReducedIsUnique(Reduced(b), Reduced(a)); }
      }
    }
  }

  // ===== what rounding promises ==========================================================

  /** The nearest integer, halves away from zero. */
  function Nearest(u: real): int {
    if u < 0.0 then -(-u + 0.5).Floor else (u + 0.5).Floor
  }

  /** Rounding of a real to a number of places, half away from zero. */
  function RoundReal(v: real, places: nat): real {
    Frac(Nearest(Scaled(v, Pow10(places))), Pow10(places))
  }

  lemma QuotientBounds(n: nat, k: int)
    requires k > 0
    ensures (n / k) * k <= n < (n / k + 1) * k
  {
  }

  lemma HalfAdded(x: real, n: int, k: int)
    requires Scaled(x, k) == n as real
    ensures Scaled(x + 0.5, 2 * k) == (2 * n + k) as real
  {
  }

  lemma FloorOfHalfUp(n: nat, k: int)
    requires k > 0
    ensures (Frac(n, k) + 0.5).Floor == HalfUp(n, k)
  {
    var q, x := HalfUp(n, k), Frac(n, k);
    QuotientBounds(2 * n + k, 2 * k);
    FracIs(x, n, k);
    HalfAdded(x, n, k);
    hide Frac, Scaled, HalfUp;
    ScaledInt(q, 2 * k);
    ScaledInt(q + 1, 2 * k);
    ScaledOrder(x + 0.5, q as real, 2 * k);
    ScaledOrder(x + 0.5, (q + 1) as real, 2 * k);
  }

  /** What a number is worth in units of the last of `places` places. */
  lemma ScaledDown(n: int, scale: nat, places: nat)
    requires scale > places
    ensures Scaled(Frac(n, Pow10(scale)), Pow10(places)) == Frac(n, Pow10(scale - places))
  {
    var x := Frac(n, Pow10(scale));
    Pow10Adds(places, scale - places);
    FracIs(x, n, Pow10(scale));
    ScaledTwice(x, Pow10(places), Pow10(scale - places));
    FracIs(Scaled(x, Pow10(places)), n, Pow10(scale - places));
    hide Pow10, Frac, Scaled;
  }

  lemma ScaledUp(n: int, scale: nat, places: nat)
    requires scale <= places
    ensures Scaled(Frac(n, Pow10(scale)), Pow10(places)) == (n * Pow10(places - scale)) as real
  {
    var x := Frac(n, Pow10(scale));
    Pow10Adds(scale, places - scale);
    FracIs(x, n, Pow10(scale));
    ScaledTwice(x, Pow10(scale), Pow10(places - scale));
    ScaledInt(n, Pow10(places - scale));
    hide Pow10, Frac, Scaled;
  }

  lemma NegatedFrac(n: int, p: int)
    requires p > 0
    ensures Frac(-n, p) == -Frac(n, p)
    ensures Frac(n, p) < 0.0 <==> n < 0
  {
  }

  lemma NearestOfFrac(n: int, k: int)
    requires k > 0
    ensures var m: int := HalfUp(Abs(n), k);
      Nearest(Frac(n, k)) == if n < 0 then -m else m
  {
    FloorOfHalfUp(Abs(n), k);
    NegatedFrac(n, k);
    hide Frac, HalfUp;
  }

  lemma NearestIsMonotone(x: real, y: real)
    requires x <= y
    ensures Nearest(x) <= Nearest(y)
  {
  }

  lemma NearestError(x: real)
    ensures -0.5 <= Nearest(x) as real - x <= 0.5
  {
  }

  lemma NearestOfInt(n: int)
    ensures Nearest(n as real) == n
  {
  }

  /** The decimal rounding is the rounding of reals. */
  lemma RoundIsRoundReal(d: Dec, places: nat)
    ensures Value(RoundConversion(d, places)) == RoundReal(Value(d), places)
  {
    if d.scale > places {
      ScaledDown(d.coef, d.scale, places);
      NearestOfFrac(d.coef, Pow10(d.scale - places));
      hide Nearest, Frac, Pow10, Scaled, HalfUp;
    } else {
      ScaledUp(d.coef, d.scale, places);
      NearestOfInt(d.coef * Pow10(places - d.scale));
      FracIs(Value(d), d.coef * Pow10(places - d.scale), Pow10(places));
      hide Nearest, Frac, Pow10, Scaled;
    }
  }

  /** Rounding moves a number by at most half a unit of the last place. */
  lemma RoundingError(d: Dec, places: nat)
    ensures -0.5 <= (Value(RoundConversion(d, places)) - Value(d)) * Pow10(places) as real <= 0.5
  {
    ScaledError(d, places);
    hide Value, RoundConversion, Pow10;
  }

  lemma ScaledError(d: Dec, places: nat)
    ensures -0.5 <= Scaled(Value(RoundConversion(d, places)) - Value(d), Pow10(places)) <= 0.5
  {
    RoundIsRoundReal(d, places);
    hide Value, RoundConversion, Pow10, Frac, Nearest, Scaled;
    var u := Scaled(Value(d), Pow10(places));
    FracIs(Value(RoundConversion(d, places)), Nearest(u), Pow10(places));
    NearestError(u);
    ScaledDifference(Value(RoundConversion(d, places)), Value(d), Pow10(places));
  }

  /** Rounding never reverses an order, also between a number that is rounded and one that is not. */
  lemma RoundingIsMonotone(a: Dec, b: Dec, places: nat)
    requires Value(a) <= Value(b)
    ensures Value(RoundConversion(a, places)) <= Value(RoundConversion(b, places))
  {
    RoundIsRoundReal(a, places);
    RoundIsRoundReal(b, places);
    hide Value, RoundConversion, Pow10, Frac, Nearest, Scaled;
    var unit := Pow10(places);
    var u, w := Scaled(Value(a), unit), Scaled(Value(b), unit);
    ScaledOrder(Value(b), Value(a), unit);
    NearestIsMonotone(u, w);
    FracIs(RoundReal(Value(a), places), Nearest(u), unit);
    FracIs(RoundReal(Value(b), places), Nearest(w), unit);
    ScaledOrder(RoundReal(Value(b), places), RoundReal(Value(a), places), unit);
  }

  /** Once rounded, a number is left alone, and no number has more than `places` places. */
  lemma RoundingIsIdempotent(d: Dec, places: nat)
    ensures RoundConversion(d, places).scale <= places
    ensures RoundConversion(RoundConversion(d, places), places) == RoundConversion(d, places)
  {
  }

  /** The integrality test of the coefficient is integrality of the number. */
  lemma IntegralIsWhole(d: Dec)
    ensures IsIntegral(d) <==> Value(d) == Value(d).Floor as real
  {
    var p, f := Pow10(d.scale), Value(d).Floor;
    if Value(d) == f as real {
      EqualFractions(d.coef, p, f, 1);
      MultipleDivides(f, p);
    }
    if IsIntegral(d) {
      var q := d.coef / p;
      assert d.coef == q * p;
      EqualFractions(d.coef, p, q, 1);
      assert Value(d) == q as real;
    }
  }

  lemma MulSign(x: int, p: int)
    requires p > 0 && 0 <= x * p < p
    ensures x == 0
  {
  }

  lemma MultipleDivides(f: int, p: int)
    requires p > 0
    ensures f * p % p == 0
  {
    var r, q := f * p % p, f * p / p;
    assert r == (f - q) * p;
    MulSign(f - q, p);
  }

  lemma SameValueSameIntegrality(a: Dec, b: Dec)
    requires Value(a) == Value(b)
    ensures IsIntegral(a) <==> IsIntegral(b)
  {
    IntegralIsWhole(a);
    IntegralIsWhole(b);
  }
}
