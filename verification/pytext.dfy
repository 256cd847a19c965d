/**
 * The pieces of Python's text handling that the TLE codec relies on: slicing,
 * str.strip, int() and float() applied to a string, and the "d", "s" and "f"
 * format specifications. Python floats are modelled by Dafny reals, so float()
 * and formatting act on the exact decimal value.
 */
module PyText {
  import opened Wrappers
  import opened Decimal
  import opened Scaling

  /** The ASCII characters Python's str.isspace accepts; int() and float() ignore them at both ends. */
  predicate IsSpace(c: char) {
    c == ' ' || c == '\t' || c == '\n' || c == '\r' || c == '\U{0B}' || c == '\U{0C}'
    || ('\U{1C}' <= c <= '\U{1F}')
  }

  function Spaces(n: nat): (s: string)
    ensures |s| == n
  {
    seq(n, _ => ' ')
  }

  function Min(a: int, b: int): int { if a <= b then a else b }

  function Max(a: int, b: int): int { if a >= b then a else b }

  /** Python's s[i:j] for 0 <= i: bounds past the end are clipped, never an error. */
  function Slice(s: string, i: nat, j: nat): string
  {
    var lo, hi := Min(i, |s|), Min(j, |s|);
    if lo <= hi then s[lo..hi] else ""
  }

  function Abs(x: real): (r: real)
    ensures r >= 0.0 && (r == x || r == -x)
  {
    if x < 0.0 then -x else x
  }

  function StripLeft(s: string): string
  {
    if |s| > 0 && IsSpace(s[0]) then StripLeft(s[1..]) else s
  }

  function StripRight(s: string): string
  {
    if |s| > 0 && IsSpace(s[|s| - 1]) then StripRight(s[..|s| - 1]) else s
  }

  /** Python's str.strip(): drops leading and trailing whitespace. */
  function Strip(s: string): string
  {
    StripLeft(StripRight(s))
  }

  /** Python's f"{s:w}" for a string: left-justified, padded with spaces on the right. */
  function PadRight(s: string, width: nat): string
  {
    if |s| < width then s + Spaces(width - |s|) else s
  }

  /** Right-justification, the default of Python's format() for numbers. */
  function PadLeft(s: string, width: nat): string
  {
    if |s| < width then Spaces(width - |s|) + s else s
  }

  /** Python's s.replace(pat, rep): every non-overlapping occurrence of pat, found from the left, is replaced. */
  function Replace(s: string, pat: string, rep: string): string
    requires |pat| > 0
    decreases |s|
  {
    if |s| < |pat| then s
    else if s[..|pat|] == pat then rep + Replace(s[|pat|..], pat, rep)
    else [s[0]] + Replace(s[1..], pat, rep)
  }

  // ---------------------------------------------------------------------------
  // int() and float() applied to a string

  /** An optionally signed, non-empty run of digits, with nothing around it. */
  function ParseSignedDigits(t: string): Option<int>
  {
    var neg := |t| > 0 && t[0] == '-';
    var body := if |t| > 0 && (t[0] == '-' || t[0] == '+') then t[1..] else t;
    if |body| > 0 && AllDigits(body) then
      Some(if neg then -(ParseNat(body) as int) else ParseNat(body))
    else
      None
  }

  /** Python's int(s) in base 10: surrounding whitespace, an optional sign, then digits. */
  function ParseInt(s: string): Option<int>
  {
    ParseSignedDigits(Strip(s))
  }

  /** The index of the first character of t that is a or b, or |t| if there is none. */
  function FirstOf(t: string, a: char, b: char): nat
  {
    if t == [] then 0 else if t[0] == a || t[0] == b then 0 else 1 + FirstOf(t[1..], a, b)
  }

  /** t has neither a nor b in it. */
  predicate Avoids(t: string, a: char, b: char)
  {
    forall i :: 0 <= i < |t| ==> t[i] != a && t[i] != b
  }

  /** Digits with at most one '.', and at least one digit: "12", "12.5", ".5", "5." */
  function ParseMantissa(m: string): Option<real>
  {
    var d := FirstOf(m, '.', '.');
    var ip := if d <= |m| then m[..d] else m;
    var fp := if d < |m| then m[d + 1..] else "";
    if |ip| + |fp| > 0 && AllDigits(ip) && AllDigits(fp) then
      Some(Shifted(ParseNat(ip + fp), |fp|))
    else
      None
  }

  /** A mantissa, then optionally 'e' or 'E' and a signed decimal exponent. */
  function ParseUnsignedFloat(t: string): Option<real>
  {
    var k := FirstOf(t, 'e', 'E');
    var mantissa :- ParseMantissa(if k <= |t| then t[..k] else t);
    var exponent :- if k >= |t| then Some(0) else ParseSignedDigits(t[k + 1..]);
    Some(Scale(mantissa, exponent))
  }

  /** Python's float(s) on a decimal literal, with the value kept exact. */
  function ParseFloat(s: string): Option<real>
  {
    var t := Strip(s);
    if |t| > 0 && (t[0] == '-' || t[0] == '+') then
      var m :- ParseUnsignedFloat(t[1..]);
      Some(if t[0] == '-' then -m else m)
    else
      ParseUnsignedFloat(t)
  }

  // ---------------------------------------------------------------------------
  // Formatting

  /** Python's str(n) for an int. */
  function IntToString(n: int): string
  {
    if n < 0 then "-" + NatToString(-n) else NatToString(n)
  }

  /** Python's f"{n:w}" for an int: right-justified in at least w characters. */
  function FormatInt(n: int, width: nat): string
  {
    PadLeft(IntToString(n), width)
  }

  /**
   * The integer nearest to x, ties going to the even neighbour: how Python
   * rounds when it formats a number with a fixed number of digits.
   */
  function RoundHalfEven(x: real): (n: int)
    ensures -0.5 <= n as real - x <= 0.5
    ensures (n as real - x == 0.5 || x - n as real == 0.5) ==> n % 2 == 0
  {
    var f := x.Floor;
    var d := x - f as real;
    if d < 0.5 then f else if d > 0.5 then f + 1 else if f % 2 == 0 then f else f + 1
  }

  /** |v| rounded to `prec` decimals, counted in units of 10^-prec. */
  function FixedUnits(v: real, prec: nat): (u: nat)
    ensures -0.5 <= u as real - Times10(Abs(v), prec) <= 0.5
  {
    Times10Monotone(0.0, Abs(v), prec);
    ScaleZero(prec);
    RoundHalfEven(Times10(Abs(v), prec))
  }

  /** u in decimal, zero-padded to more than `prec` digits so that a point can go before the last `prec`. */
  function PaddedDigits(u: nat, prec: nat): (ds: string)
    ensures |ds| == Max(NumDigits(u), prec + 1) && AllDigits(ds)
  {
    Digits(u, Max(NumDigits(u), prec + 1))
  }

  /**
   * u written in decimal with a point before its last `prec` digits and at least
   * one digit before the point: u / 10^prec printed with `prec` decimals.
   */
  function PointDigits(u: nat, prec: nat): string
  {
    var ds := PaddedDigits(u, prec);
    ds[..|ds| - prec] + "." + ds[|ds| - prec..]
  }

  /**
   * Python's f"{v:w.pf}" (spaceSign false) and f"{v: w.pf}" (spaceSign true):
   * a '-' for every negative value, even one that rounds to zero, otherwise a
   * space when asked for; the integer part; '.'; exactly p decimals; the whole
   * right-justified in at least w characters.
   */
  function FormatFixed(v: real, prec: nat, width: nat, spaceSign: bool): string
  {
    var sign := if v < 0.0 then "-" else if spaceSign then " " else "";
    PadLeft(sign + PointDigits(FixedUnits(v, prec), prec), width)
  }

  function Zeros(n: nat): (s: string)
    ensures |s| == n
  {
    if n == 0 then "" else "0" + Zeros(n - 1)
  }

  /**
   * Python's f"{v:0w.pf}": as f"{v:.pf}", with zeros inserted between the sign
   * and the digits to make at least w characters.
   */
  function FormatFixedZero(v: real, prec: nat, width: nat): string
  {
    var sign := if v < 0.0 then "-" else "";
    var body := PointDigits(FixedUnits(v, prec), prec);
    sign + (if |sign| + |body| < width then Zeros(width - |sign| - |body|) else "") + body
  }

  /** The signed value that f"{v:.pf}" prints, as a real. */
  function FixedValue(v: real, prec: nat): real
  {
    var u := FixedUnits(v, prec);
    Shifted(if v < 0.0 then -(u as int) else u, prec)
  }
}
