/** Decimal notation of natural numbers, and what its prefixes and suffixes denote. */
module Decimal {

  predicate IsDigit(c: char) { '0' <= c <= '9' }

  predicate IsDigits(s: string) { forall c | c in s :: IsDigit(c) }

  function DigitValue(c: char): (d: nat)
    requires IsDigit(c)
    ensures d < 10 && c == "0123456789"[d]
  {
    c as nat - '0' as nat
  }

  function Digit(d: nat): (c: char)
    requires d < 10
    ensures IsDigit(c) && DigitValue(c) == d
  {
    ('0' as nat + d) as char
  }

  function ToDecimal(n: nat): string {
    if n < 10 then [Digit(n)] else ToDecimal(n / 10) + [Digit(n % 10)]
  }

  // The number a string of digits denotes; leading zeros are allowed.
  function FromDecimal(s: string): nat
    requires IsDigits(s)
  {
    if s == "" then 0 else FromDecimal(s[..|s| - 1]) * 10 + DigitValue(s[|s| - 1])
  }

  function Power10(k: nat): (p: nat)
    ensures p >= 1
  {
    if k == 0 then 1 else 10 * Power10(k - 1)
  }

  lemma {:induction false} ToDecimalDigits(n: nat)
    ensures ToDecimal(n) != "" && IsDigits(ToDecimal(n))
  {
    if n >= 10 { ToDecimalDigits(n / 10); }
  }

  lemma {:induction false} DecimalRoundTrip(n: nat)
    ensures IsDigits(ToDecimal(n)) && FromDecimal(ToDecimal(n)) == n
  {
    ToDecimalDigits(n);
    if n >= 10 {
      DecimalRoundTrip(n / 10);
      assert ToDecimal(n)[..|ToDecimal(n)| - 1] == ToDecimal(n / 10);
    } else {
      assert ToDecimal(n)[..0] == "";
    }
  }

  lemma {:induction false} FromDecimalBound(s: string)
    requires IsDigits(s)
    ensures FromDecimal(s) < Power10(|s|)
  {
    if s != "" {
      FromDecimalBound(s[..|s| - 1]);
      assert Power10(|s|) == 10 * Power10(|s| - 1);
    }
  }

  lemma {:induction false} FromDecimalConcat(a: string, b: string)
    requires IsDigits(a) && IsDigits(b)
    ensures IsDigits(a + b) && FromDecimal(a + b) == FromDecimal(a) * Power10(|b|) + FromDecimal(b)
  {
    if b == "" {
      assert a + b == a;
    } else {
      var front := b[..|b| - 1];
      FromDecimalConcat(a, front);
      assert (a + b)[..|a + b| - 1] == a + front && (a + b)[|a + b| - 1] == b[|b| - 1];
      ScaleUp(FromDecimal(a), Power10(|front|), FromDecimal(front), DigitValue(b[|b| - 1]));
    }
  }

  lemma ScaleUp(x: nat, p: nat, y: nat, d: nat)
    ensures (x * p + y) * 10 + d == x * (10 * p) + (y * 10 + d)
  {
  }

  lemma QuotientAndRemainder(q: nat, p: nat, r: nat)
    requires r < p
    ensures (q * p + r) / p == q && (q * p + r) % p == r
  {
    var n := q * p + r;
    var d := n / p - q;
    assert n == p * (n / p) + n % p;
    assert p * d == r - n % p by {
      assert p * (n / p) - q * p == p * d;
    }
    MultipleBound(p, d);
  }

  lemma MultipleBound(p: int, d: int)
    requires p >= 0
    ensures d >= 1 ==> p * d >= p
    ensures d <= -1 ==> p * d <= -p
  {
  }

  /** Cutting the last k digits off a string of digits divides the number by the k-th power of ten; the
      digits cut off are the remainder. */
  lemma CutDigits(s: string, k: nat)
    requires IsDigits(s) && k <= |s|
    ensures FromDecimal(s[..|s| - k]) == FromDecimal(s) / Power10(k)
    ensures FromDecimal(s[|s| - k..]) == FromDecimal(s) % Power10(k)
  {
    var a, b := s[..|s| - k], s[|s| - k..];
    assert s == a + b;
    FromDecimalConcat(a, b);
    FromDecimalBound(b);
    QuotientAndRemainder(FromDecimal(a), Power10(k), FromDecimal(b));
  }

  lemma {:induction false} LengthOfDecimal(n: nat, k: nat)
    requires k >= 1
    ensures |ToDecimal(n)| > k <==> n >= Power10(k)
    decreases k
  {
    if k == 1 {
      assert Power10(1) == 10;
    } else if n >= 10 {
      LengthOfDecimal(n / 10, k - 1);
      assert n / 10 >= Power10(k - 1) <==> n >= 10 * Power10(k - 1);
    } else {
      assert Power10(k) == 10 * Power10(k - 1);
    }
  }
}
