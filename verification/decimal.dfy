/**
 * Decimal digit strings: the building block of every fixed-width TLE field.
 * Digits(n, w) is the zero-padded rendering of the low w digits of n
 * (Python's f"{n:0w}" for 0 <= n < 10^w); ParseNat reads a digit string back.
 */
module Decimal {

  predicate IsDigit(c: char) { '0' <= c <= '9' }

  function DigitValue(c: char): (d: nat)
    requires IsDigit(c)
    ensures d < 10
  {
    c as int - '0' as int
  }

  function DigitChar(d: nat): (c: char)
    requires d < 10
    ensures IsDigit(c) && DigitValue(c) == d
  {
    ('0' as int + d) as char
  }

  predicate AllDigits(s: string) {
    forall i :: 0 <= i < |s| ==> IsDigit(s[i])
  }

  function Pow10(n: nat): (p: nat)
    ensures p >= 1
  {
    if n == 0 then 1 else 10 * Pow10(n - 1)
  }

  /** The value of a string of decimal digits (Python's int() on such a string); "" reads as 0. */
  function ParseNat(s: string): (n: nat)
    requires AllDigits(s)
    ensures n < Pow10(|s|)
  {
    if s == [] then 0 else 10 * ParseNat(s[..|s| - 1]) + DigitValue(s[|s| - 1])
  }

  /** The low `width` decimal digits of n, zero-padded to exactly `width` characters. */
  function Digits(n: nat, width: nat): (s: string)
    ensures |s| == width && AllDigits(s)
  {
    if width == 0 then [] else Digits(n / 10, width - 1) + [DigitChar(n % 10)]
  }

  /** The number of decimal digits Python's str() prints for n. */
  function NumDigits(n: nat): (k: nat)
    ensures k >= 1
    ensures n < Pow10(k)
    ensures k > 1 ==> Pow10(k - 1) <= n
  {
    if n < 10 then 1 else 1 + NumDigits(n / 10)
  }

  /** Python's str(n) for a non-negative integer: no padding, no leading zero. */
  function NatToString(n: nat): (s: string)
  {
    Digits(n, NumDigits(n))
  }

  lemma {:induction false} DigitsOfParse(s: string)
    requires AllDigits(s)
    ensures Digits(ParseNat(s), |s|) == s
  {
    if s != [] {
      var init, last := s[..|s| - 1], s[|s| - 1];
      var n := ParseNat(s);
      assert n == 10 * ParseNat(init) + DigitValue(last);
      SplitLastDigit(ParseNat(init), DigitValue(last));
      DigitsOfParse(init);
      assert Digits(n, |s|) == Digits(n / 10, |s| - 1) + [DigitChar(n % 10)];
      assert DigitChar(DigitValue(last)) == last;
      assert s == init + [last];
    }
  }

  lemma SplitLastDigit(a: nat, d: nat)
    requires d < 10
    ensures (10 * a + d) / 10 == a && (10 * a + d) % 10 == d
  {
  }

  /** Digits is exactly the zero-padded rendering of every n < 10^width. */
  lemma {:induction false} DigitsRoundTrip(n: nat, width: nat)
    requires n < Pow10(width)
    ensures ParseNat(Digits(n, width)) == n
  {
    if width > 0 {
      var s := Digits(n, width);
      assert s[..width - 1] == Digits(n / 10, width - 1);
      assert n / 10 < Pow10(width - 1);
      DigitsRoundTrip(n / 10, width - 1);
    }
  }

  lemma NatToStringRoundTrip(n: nat)
    ensures AllDigits(NatToString(n)) && ParseNat(NatToString(n)) == n
    ensures |NatToString(n)| == 1 || NatToString(n)[0] != '0'
  {
    var k := NumDigits(n);
    DigitsRoundTrip(n, k);
    if k > 1 {
      LeadingDigit(n, k);
    }
  }

  /** A k-digit rendering of a number that needs all k digits does not start with '0'. */
  lemma {:induction false} LeadingDigit(n: nat, k: nat)
    requires k >= 1 && Pow10(k - 1) <= n < Pow10(k)
    ensures Digits(n, k)[0] != '0'
  {
    if k == 1 {
      assert n % 10 == n;
    } else {
      var p := Pow10(k - 2);
      assert 10 * p <= n < 10 * Pow10(k - 1);
      assert p <= n / 10 < Pow10(k - 1);
      LeadingDigit(n / 10, k - 1);
      assert Digits(n, k)[0] == Digits(n / 10, k - 1)[0];
    }
  }

  /** A number below 10^w written in w + 1 digits starts with a zero. */
  lemma {:induction false} DigitsWiden(u: nat, w: nat)
    requires u < Pow10(w)
    ensures Digits(u, w + 1) == "0" + Digits(u, w)
    decreases w
  {
    if w == 0 {
      assert u == 0;
      assert Digits(0, 1) == "0";
    } else {
      DigitsWiden(u / 10, w - 1);
      assert "0" + Digits(u / 10, w - 1) + [DigitChar(u % 10)] == "0" + (Digits(u / 10, w - 1) + [DigitChar(u % 10)]);
    }
  }

  /** Reading a concatenation: the left part is shifted by the width of the right part. */
  lemma {:induction false} ParseNatAppend(a: string, b: string)
    requires AllDigits(a) && AllDigits(b)
    ensures AllDigits(a + b)
    ensures ParseNat(a + b) == ParseNat(a) * Pow10(|b|) + ParseNat(b)
  {
    assert AllDigits(a + b) by {
      forall i | 0 <= i < |a + b| ensures IsDigit((a + b)[i]) {
        if i >= |a| { assert (a + b)[i] == b[i - |a|]; }
      }
    }
    if b == [] {
      assert a + b == a;
    } else {
      var ab, b', d := a + b, b[..|b| - 1], b[|b| - 1];
      assert ab[..|ab| - 1] == a + b';
      assert ab[|ab| - 1] == d;
      ParseNatAppend(a, b');
      var x, y, p := ParseNat(a), ParseNat(b'), Pow10(|b'|);
      assert ParseNat(ab) == 10 * (x * p + y) + DigitValue(d);
      Shift10(x, p, y, DigitValue(d));
    }
  }

  /** The digits of a * 10^k + b, with b below 10^k, are those of a followed by those of b. */
  lemma {:induction false} DigitsConcat(a: nat, b: nat, n: nat, k: nat)
    requires b < Pow10(k)
    ensures Digits(a * Pow10(k) + b, n + k) == Digits(a, n) + Digits(b, k)
    decreases k
  {
    if k > 0 {
      var u := a * Pow10(k) + b;
      Shift10(a, Pow10(k - 1), b / 10, b % 10);
      assert u / 10 == a * Pow10(k - 1) + b / 10 && u % 10 == b % 10;
      DigitsConcat(a, b / 10, n, k - 1);
    }
  }

  lemma Shift10(x: int, p: int, y: int, d: int)
    ensures 10 * (x * p + y) + d == x * (10 * p) + (10 * y + d)
  {
  }

  lemma Pow10Add(a: nat, b: nat)
    ensures Pow10(a + b) == Pow10(a) * Pow10(b)
  {
    if b > 0 {
      Pow10Add(a, b - 1);
    }
  }
}

/**
 * Exact decimal scaling of reals. Scaling is written as repeated multiplication
 * or division by the constant 10, so that every fact about it stays linear.
 */
module Scaling {
  import opened Decimal

  /** x * 10^k */
  function Times10(x: real, k: nat): real
  {
    if k == 0 then x else 10.0 * Times10(x, k - 1)
  }

  /** x / 10^k */
  function Div10(x: real, k: nat): real
  {
    if k == 0 then x else Div10(x, k - 1) / 10.0
  }

  /** x * 10^e for any integer exponent e. */
  function Scale(x: real, e: int): real
  {
    if e >= 0 then Times10(x, e) else Div10(x, -e)
  }

  /** n / 10^k: the value of a digit string with k of its digits after the decimal point. */
  function Shifted(n: int, k: nat): real
  {
    Div10(n as real, k)
  }

  lemma {:induction false} Times10Div10(x: real, k: nat)
    ensures Times10(Div10(x, k), k) == x && Div10(Times10(x, k), k) == x
  {
    if k > 0 {
      Times10Div10(x, k - 1);
      var y, t := Div10(x, k - 1), Times10(x, k - 1);
      Times10Swap(y / 10.0, k - 1);
      assert 10.0 * (y / 10.0) == y;
      Div10Swap(10.0 * t, k - 1);
      assert (10.0 * t) / 10.0 == t;
    }
  }

  /** Scaling distributes over subtraction. */
  lemma {:induction false} Times10Linear(a: real, b: real, k: nat)
    ensures Times10(a - b, k) == Times10(a, k) - Times10(b, k)
  {
    if k > 0 { Times10Linear(a, b, k - 1); }
  }

  lemma {:induction false} Div10Linear(a: real, b: real, k: nat)
    ensures Div10(a - b, k) == Div10(a, k) - Div10(b, k)
  {
    if k > 0 { Div10Linear(a, b, k - 1); }
  }

  /** The last multiplication by 10 can be done first. */
  lemma {:induction false} Times10Swap(x: real, k: nat)
    ensures Times10(10.0 * x, k) == 10.0 * Times10(x, k)
  {
    if k > 0 { Times10Swap(x, k - 1); }
  }

  lemma {:induction false} Div10Swap(x: real, k: nat)
    ensures Div10(x / 10.0, k) == Div10(x, k) / 10.0
  {
    if k > 0 { Div10Swap(x, k - 1); }
  }

  lemma {:induction false} Times10Monotone(a: real, b: real, k: nat)
    requires a <= b
    ensures Times10(a, k) <= Times10(b, k)
  {
    if k > 0 { Times10Monotone(a, b, k - 1); }
  }

  lemma {:induction false} Div10Monotone(a: real, b: real, k: nat)
    requires a <= b
    ensures Div10(a, k) <= Div10(b, k)
  {
    if k > 0 { Div10Monotone(a, b, k - 1); }
  }

  /** On integers, scaling up is multiplication by Pow10. */
  lemma {:induction false} Times10Int(n: int, k: nat)
    ensures Times10(n as real, k) == (n * Pow10(k)) as real
  {
    if k > 0 {
      Times10Int(n, k - 1);
      assert n * Pow10(k) == 10 * (n * Pow10(k - 1)) by {
        MulAssoc10(n, Pow10(k - 1));
      }
    }
  }

  lemma MulAssoc10(n: int, p: int)
    ensures n * (10 * p) == 10 * (n * p)
  {
  }

  lemma {:induction false} Times10Compose(x: real, j: nat, k: nat)
    ensures Times10(Times10(x, j), k) == Times10(x, j + k)
  {
    if k > 0 {
      Times10Compose(x, j, k - 1);
    }
  }

  lemma {:induction false} Div10Positive(x: real, k: nat)
    requires x > 0.0
    ensures Div10(x, k) > 0.0
  {
    if k > 0 { Div10Positive(x, k - 1); }
  }

  lemma ScaleZero(k: nat)
    ensures Times10(0.0, k) == 0.0 && Div10(0.0, k) == 0.0
  {
    Times10Linear(0.0, 0.0, k);
    Div10Linear(0.0, 0.0, k);
  }
  /** Raising the exponent by one multiplies by 10, for exponents of either sign. */
  lemma ScaleStep(x: real, k: int)
    ensures Scale(x, k + 1) == 10.0 * Scale(x, k)
  {
    if k == -1 {
      assert Div10(x, 1) == Div10(x, 0) / 10.0;
    } else if k < -1 {
      assert Div10(x, -k) == Div10(x, -k - 1) / 10.0;
    }
  }

  /** Scaling by a and then by b is scaling by a + b. */
  lemma {:induction false} ScaleCompose(x: real, a: int, b: int)
    ensures Scale(Scale(x, a), b) == Scale(x, a + b)
    decreases if b >= 0 then b else -b
  {
    var y := Scale(x, a);
    if b > 0 {
      ScaleCompose(x, a, b - 1);
      ScaleStep(y, b - 1);
      ScaleStep(x, a + b - 1);
    } else if b < 0 {
      ScaleCompose(x, a, b + 1);
      ScaleStep(y, b);
      ScaleStep(x, a + b);
    }
  }

  lemma ScaleLinear(a: real, b: real, k: int)
    ensures Scale(a - b, k) == Scale(a, k) - Scale(b, k)
  {
    if k >= 0 { Times10Linear(a, b, k); } else { Div10Linear(a, b, -k); }
  }

  lemma ScaleMonotone(a: real, b: real, k: int)
    requires a <= b
    ensures Scale(a, k) <= Scale(b, k)
  {
    if k >= 0 { Times10Monotone(a, b, k); } else { Div10Monotone(a, b, -k); }
  }

  lemma ScaleOfZero(k: int)
    ensures Scale(0.0, k) == 0.0
  {
    ScaleZero(if k >= 0 then k else -k);
  }

  /** Scaling keeps the sign. */
  lemma ScaleSign(x: real, k: int)
    ensures x >= 0.0 ==> Scale(x, k) >= 0.0
    ensures x > 0.0 ==> Scale(x, k) > 0.0
  {
    ScaleOfZero(k);
    if x >= 0.0 { ScaleMonotone(0.0, x, k); }
    if x > 0.0 {
      if k >= 0 {
        Times10Grows(x, k);
      } else {
        Div10Positive(x, -k);
      }
    }
  }

  /** Scaling by a non-negative exponent never makes a non-negative value smaller. */
  lemma {:induction false} Times10Grows(x: real, k: nat)
    requires x >= 0.0
    ensures Times10(x, k) >= x
  {
    if k > 0 { Times10Grows(x, k - 1); }
  }
  /** A constant factor can be taken out of a scaling. */
  lemma {:induction false} ScaleTimes(c: real, x: real, k: int)
    ensures Scale(c * x, k) == c * Scale(x, k)
    decreases if k >= 0 then k else -k
  {
    if k > 0 {
      ScaleTimes(c, x, k - 1);
      ScaleStep(c * x, k - 1);
      ScaleStep(x, k - 1);
    } else if k < 0 {
      ScaleTimes(c, x, k + 1);
      ScaleStep(c * x, k);
      ScaleStep(x, k);
    }
  }
}
