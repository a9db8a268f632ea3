/**
 The order of texts, and record keys that end in zero-padded numbers: their
 order is the numeric order exactly as long as the padding suffices.
 */
module RecordKeys {
  import opened Numerals
  import opened Sorting

  /** Texts compare character by character, and a prefix comes first. */
  predicate TextLe(a: string, b: string) {
    a == "" || (b != "" && (a[0] < b[0] || (a[0] == b[0] && TextLe(a[1..], b[1..]))))
  }

  lemma {:induction false} TextLeTotal(a: string, b: string)
    ensures TextLe(a, b) || TextLe(b, a)
    ensures TextLe(a, b) && TextLe(b, a) ==> a == b
  {
    if a != "" && b != "" {
      TextLeTotal(a[1..], b[1..]);
      assert a == [a[0]] + a[1..] && b == [b[0]] + b[1..];
    }
  }

  lemma {:induction false} TextLeTransitive(a: string, b: string, c: string)
    requires TextLe(a, b) && TextLe(b, c)
    ensures TextLe(a, c)
  {
    if a != "" && a[0] == b[0] && b[0] == c[0] { TextLeTransitive(a[1..], b[1..], c[1..]); }
  }

  lemma TextLeIsTotalOrder()
    ensures TotalOrder(TextLe)
  {
    forall a, b: string ensures (TextLe(a, b) || TextLe(b, a)) && (TextLe(a, b) && TextLe(b, a) ==> a == b) {
      TextLeTotal(a, b);
    }
    forall a, b, c: string | TextLe(a, b) && TextLe(b, c) ensures TextLe(a, c) { TextLeTransitive(a, b, c); }
  }

  lemma {:induction false} CommonPrefix(prefix: string, a: string, b: string)
    ensures TextLe(prefix + a, prefix + b) <==> TextLe(a, b)
  {
    if prefix == "" {
      assert prefix + a == a && prefix + b == b;
    } else {
      assert (prefix + a)[1..] == prefix[1..] + a && (prefix + b)[1..] == prefix[1..] + b;
      CommonPrefix(prefix[1..], a, b);
    }
  }

  // ----- numerals of one length ---------------------------------------------------------

  function DigitOf(c: char): nat
    requires IsDigit(c)
  {
    c as int - '0' as int
  }

  lemma {:induction false} NumberFromFront(s: string)
    requires s != "" && AllDigits(s)
    ensures NumberOf(s) == DigitOf(s[0]) * Pow10(|s| - 1) + NumberOf(s[1..])
    ensures NumberOf(s[1..]) < Pow10(|s| - 1) && NumberOf(s) < Pow10(|s|)
  {
    var n := |s| - 1;
    if n == 0 {
      assert s[..0] == "" && s[1..] == "";
    } else {
      NumberFromFront(s[..n]);
      assert s[1..][..n - 1] == s[..n][1..];
      assert s[1..][n - 1] == s[n];
      OneDigitMore(DigitOf(s[0]), Pow10(n - 1), NumberOf(s[..n][1..]), DigitOf(s[n]));
    }
  }

  lemma OneDigitMore(d: nat, p: nat, m: nat, e: nat)
    ensures (d * p + m) * 10 + e == d * (10 * p) + (m * 10 + e)
  {
  }

  lemma {:induction false} EqualLengthOrder(a: string, b: string)
    requires |a| == |b| && AllDigits(a) && AllDigits(b)
    ensures TextLe(a, b) <==> NumberOf(a) <= NumberOf(b)
  {
    if a != "" {
      NumberFromFront(a);
      NumberFromFront(b);
      EqualLengthOrder(a[1..], b[1..]);
      LeadingDigits(DigitOf(a[0]), NumberOf(a[1..]), DigitOf(b[0]), NumberOf(b[1..]), Pow10(|a| - 1));
    }
  }

  lemma LeadingDigits(d: nat, m: nat, e: nat, n: nat, p: nat)
    requires m < p && n < p
    ensures d * p + m <= e * p + n <==> d < e || (d == e && m <= n)
  {
    if d < e { assert (d + 1) * p <= e * p; }
    if e < d { assert (e + 1) * p <= d * p; }
  }

  // ----- the padded numeral -------------------------------------------------------------

  const WIDTH := 6
  const FIRST_WIDER := 1_000_000

  /** `n` with leading zeros up to six digits, and as many as it needs beyond. */
  function Padded(n: nat): (s: string)
    ensures |s| >= WIDTH && AllDigits(s)
  {
    PaddedTo(n, WIDTH)
  }

  /** A numeral of `k` digits is below ten to the `k`, and one without leading zeros not below the next. */
  lemma {:induction false} DigitsLength(n: nat, k: nat)
    requires k >= 1
    ensures |Digits(n)| <= k <==> n < Pow10(k)
    decreases k
  {
    assert Pow10(1) == 10 * Pow10(0);
    if n >= 10 && k > 1 { DigitsLength(n / 10, k - 1); }
    else if n >= 10 { assert |Digits(n)| >= 2; }
    else { PowerGrows(k); }
  }

  lemma {:induction false} PowerGrows(k: nat)
    requires k >= 1
    ensures Pow10(k) >= 10
  {
  }

  lemma PaddedWidth(n: nat)
    ensures |Padded(n)| == WIDTH <==> n < FIRST_WIDER
  {
    DigitsLength(n, WIDTH);
    assert Pow10(6) == 10 * Pow10(5) && Pow10(5) == 10 * Pow10(4) && Pow10(4) == 10 * Pow10(3);
    assert Pow10(3) == 10 * Pow10(2) && Pow10(2) == 10 * Pow10(1) && Pow10(1) == 10 * Pow10(0);
  }

  lemma PaddedIsInjective(m: nat, n: nat)
    ensures Padded(m) == Padded(n) <==> m == n
  {
    PaddedRoundTrip(m, WIDTH);
    PaddedRoundTrip(n, WIDTH);
  }

  lemma PaddedOrder(m: nat, n: nat)
    requires m < FIRST_WIDER && n < FIRST_WIDER
    ensures TextLe(Padded(m), Padded(n)) <==> m <= n
  {
    PaddedWidth(m);
    PaddedWidth(n);
    PaddedRoundTrip(m, WIDTH);
    PaddedRoundTrip(n, WIDTH);
    EqualLengthOrder(Padded(m), Padded(n));
  }

  /** The first number that needs seven digits sorts before the last that needs six. */
  lemma PaddedOrderBreaks()
    ensures !TextLe(Padded(FIRST_WIDER - 1), Padded(FIRST_WIDER))
  {
    PaddedWidth(FIRST_WIDER - 1);
    NinesFirst();
    assert Digits(10) == Digits(1) + [DigitChar(0)];
    assert Digits(100) == Digits(10) + [DigitChar(0)];
    assert Digits(1_000) == Digits(100) + [DigitChar(0)];
    assert Digits(10_000) == Digits(1_000) + [DigitChar(0)];
    assert Digits(100_000) == Digits(10_000) + [DigitChar(0)];
    assert Digits(1_000_000) == Digits(100_000) + [DigitChar(0)];
    assert Padded(FIRST_WIDER)[0] == '1';
  }

  lemma NinesFirst()
    ensures Padded(999_999)[0] == '9'
  {
  }

  /** Keys numbered from one sort in numeric order exactly as long as there are fewer than a million. */
  lemma NumberedKeysSort(prefix: string, count: nat)
    ensures (forall i, j :: 1 <= i < j <= count ==> TextLe(prefix + Padded(i), prefix + Padded(j)))
       <==> count < FIRST_WIDER
  {
    forall i, j ensures TextLe(prefix + Padded(i), prefix + Padded(j)) <==> TextLe(Padded(i), Padded(j)) {
      CommonPrefix(prefix, Padded(i), Padded(j));
    }
    if count < FIRST_WIDER {
      forall i, j | 1 <= i < j <= count ensures TextLe(prefix + Padded(i), prefix + Padded(j)) { PaddedOrder(i, j); }
    } else {
      PaddedOrderBreaks();
      assert !TextLe(prefix + Padded(FIRST_WIDER - 1), prefix + Padded(FIRST_WIDER));
    }
  }
}
