/**
 * What the codec needs to know about the Python text helpers: how slicing,
 * padding and strip behave, that int() and float() read back the digit strings
 * the formatters write, and how close a fixed-point rendering is to its value.
 */
module PyTextFacts {
  import opened Wrappers
  import opened Decimal
  import opened Scaling
  import opened PyText

  predicate AllSpace(s: string) {
    forall i :: 0 <= i < |s| ==> IsSpace(s[i])
  }

  /** A string that str.strip() leaves as it is. */
  predicate Trimmed(s: string) {
    |s| > 0 && !IsSpace(s[0]) && !IsSpace(s[|s| - 1])
  }

  lemma {:induction false} SpacesAreSpace(n: nat)
    ensures AllSpace(Spaces(n))
  {
  }

  lemma {:induction false} SliceInRange(s: string, i: nat, j: nat)
    requires i <= j <= |s|
    ensures Slice(s, i, j) == s[i..j] && |Slice(s, i, j)| == j - i
  {
  }

  lemma {:induction false} SliceShort(s: string, i: nat, j: nat)
    ensures |Slice(s, i, j)| <= |s| && |Slice(s, i, j)| <= j
  {
  }

  lemma {:induction false} PadLeftShape(s: string, width: nat)
    ensures |PadLeft(s, width)| == Max(|s|, width)
    ensures PadLeft(s, width) == Spaces(|PadLeft(s, width)| - |s|) + s
  {
  }

  lemma {:induction false} PadRightShape(s: string, width: nat)
    ensures |PadRight(s, width)| == Max(|s|, width)
    ensures PadRight(s, width) == s + Spaces(|PadRight(s, width)| - |s|)
  {
  }

  // ---------------------------------------------------------------------------
  // strip

  lemma {:induction false} StripRightSpaces(body: string, post: string)
    requires Trimmed(body) && AllSpace(post)
    ensures StripRight(body + post) == body
    decreases |post|
  {
    if post == [] {
      assert body + post == body;
    } else {
      var shorter := post[..|post| - 1];
      assert (body + post)[..|body + post| - 1] == body + shorter;
      StripRightSpaces(body, shorter);
    }
  }

  lemma {:induction false} StripLeftSpaces(pre: string, body: string)
    requires Trimmed(body) && AllSpace(pre)
    ensures StripLeft(pre + body) == body
    decreases |pre|
  {
    if pre == [] {
      assert pre + body == body;
    } else {
      assert (pre + body)[1..] == pre[1..] + body;
      StripLeftSpaces(pre[1..], body);
    }
  }

  /** int() and float() see exactly `body` when it is surrounded by whitespace. */
  lemma {:induction false} StripAround(pre: string, body: string, post: string)
    requires Trimmed(body) && AllSpace(pre) && AllSpace(post)
    ensures Strip(pre + body + post) == body
  {
    StripRightOfPadded(pre, body, post);
    StripLeftSpaces(pre, body);
  }

  lemma {:induction false} StripRightOfPadded(pre: string, body: string, post: string)
    requires Trimmed(body) && AllSpace(pre) && AllSpace(post)
    ensures StripRight(pre + body + post) == pre + body
  {
    var inner := pre + body;
    assert inner[|inner| - 1] == body[|body| - 1];
    assert inner[0] == if pre == [] then body[0] else pre[0];
    if pre == [] {
      assert inner == body;
      StripRightSpaces(body, post);
    } else {
      StripRightKeepsPrefix(inner, post);
    }
  }

  /** Stripping trailing whitespace stops at the last non-space character, whatever comes before it. */
  lemma {:induction false} StripRightKeepsPrefix(inner: string, post: string)
    requires |inner| > 0 && !IsSpace(inner[|inner| - 1]) && AllSpace(post)
    ensures StripRight(inner + post) == inner
    decreases |post|
  {
    if post == [] {
      assert inner + post == inner;
    } else {
      var shorter := post[..|post| - 1];
      assert (inner + post)[..|inner + post| - 1] == inner + shorter;
      StripRightKeepsPrefix(inner, shorter);
    }
  }

  lemma {:induction false} StripTrimmed(body: string)
    requires Trimmed(body)
    ensures Strip(body) == body
  {
  }

  // ---------------------------------------------------------------------------
  // int()

  lemma {:induction false} ParseIntDigits(s: string)
    requires |s| > 0 && AllDigits(s)
    ensures ParseInt(s) == Some(ParseNat(s) as int)
  {
    assert Trimmed(s) by {
      assert IsDigit(s[0]) && IsDigit(s[|s| - 1]);
    }
    StripTrimmed(s);
  }

  /** int() of a single character succeeds exactly for a digit, and gives its value. */
  lemma {:induction false} ParseCharInt(c: char)
    ensures ParseInt([c]).Some? <==> IsDigit(c)
    ensures IsDigit(c) ==> ParseInt([c]) == Some(DigitValue(c))
  {
    if IsDigit(c) {
      ParseIntDigits([c]);
      assert [c][..0] == [];
    } else if IsSpace(c) {
      assert [c][..0] == [];
      assert StripRight([c]) == [];
    } else {
      assert Trimmed([c]);
      StripTrimmed([c]);
    }
  }

  /** int() reads back what str() writes for a natural number. */
  lemma {:induction false} ParseIntOfNatString(n: nat)
    ensures ParseInt(NatToString(n)) == Some(n as int)
  {
    NatToStringRoundTrip(n);
    ParseIntDigits(NatToString(n));
  }

  /** int() reads back what f"{n:w}" writes, for every int and every width. */
  lemma {:induction false} ParseFormatInt(n: int, width: nat)
    ensures ParseInt(FormatInt(n, width)) == Some(n)
  {
    IntStringShape(n);
    StripPadLeft(IntToString(n), width);
  }

  /** str(n) has no whitespace at its ends and reads back as n. */
  lemma {:induction false} IntStringShape(n: int)
    ensures Trimmed(IntToString(n)) && ParseSignedDigits(IntToString(n)) == Some(n)
  {
    if n < 0 {
      var digits := NatToString(-n);
      assert |digits| > 0 && AllDigits(digits) && ParseNat(digits) == -n by {
        NatToStringRoundTrip(-n);
      }
      MinusDigits(IntToString(n), digits, -n, n);
    } else {
      NatToStringRoundTrip(n);
      PlainDigits(IntToString(n), n);
    }
  }

  /** A non-empty run of digits reads as its value. */
  lemma {:induction false} PlainDigits(s: string, v: nat)
    requires |s| > 0 && AllDigits(s) && ParseNat(s) == v
    ensures Trimmed(s) && ParseSignedDigits(s) == Some(v as int)
  {
    assert IsDigit(s[0]) && IsDigit(s[|s| - 1]);
  }

  /** A minus sign before a non-empty run of digits reads as the negated value n. */
  lemma {:induction false} MinusDigits(s: string, digits: string, v: nat, n: int)
    requires s == "-" + digits && |digits| > 0 && AllDigits(digits) && ParseNat(digits) == v && n == -(v as int)
    ensures Trimmed(s) && ParseSignedDigits(s) == Some(n)
  {
    assert s[1..] == digits;
    assert s[|s| - 1] == digits[|digits| - 1];
    assert IsDigit(digits[|digits| - 1]);
  }

  /** strip() undoes right-justification of a string with no whitespace at its ends. */
  lemma {:induction false} StripPadLeft(s: string, width: nat)
    requires Trimmed(s)
    ensures Strip(PadLeft(s, width)) == s
  {
    PadLeftShape(s, width);
    SpacesAreSpace(|PadLeft(s, width)| - |s|);
    assert PadLeft(s, width) == Spaces(|PadLeft(s, width)| - |s|) + s + "";
    StripAround(Spaces(|PadLeft(s, width)| - |s|), s, "");
  }

  // ---------------------------------------------------------------------------
  // float()

  lemma {:induction false} FirstOfAbsent(t: string, a: char, b: char)
    requires Avoids(t, a, b)
    ensures FirstOf(t, a, b) == |t|
  {
    if t != [] {
      FirstOfAbsent(t[1..], a, b);
    }
  }

  lemma {:induction false} FirstOfSplit(x: string, c: char, y: string, a: char, b: char)
    requires Avoids(x, a, b)
    requires c == a || c == b
    ensures FirstOf(x + [c] + y, a, b) == |x|
  {
    if x == [] {
      assert (x + [c] + y)[0] == c;
    } else {
      assert (x + [c] + y)[1..] == x[1..] + [c] + y;
      FirstOfSplit(x[1..], c, y, a, b);
    }
  }

  lemma {:induction false} DigitsHaveNo(s: string, a: char, b: char)
    requires AllDigits(s)
    requires !IsDigit(a) && !IsDigit(b)
    ensures Avoids(s, a, b)
  {
  }

  /** A mantissa with a decimal point: ip.fp is the integer ip·fp scaled down by |fp| digits. */
  lemma {:induction false} ParseMantissaDotted(ip: string, fp: string)
    requires AllDigits(ip) && AllDigits(fp) && |ip| + |fp| > 0
    ensures ParseMantissa(ip + "." + fp) == Some(Shifted(ParseNat(ip + fp), |fp|))
  {
    var m := ip + "." + fp;
    DigitsHaveNo(ip, '.', '.');
    FirstOfSplit(ip, '.', fp, '.', '.');
    assert m[..|ip|] == ip;
    assert m[|ip| + 1..] == fp;
  }

  /** A mantissa that starts at the point: ".ddd" is ddd / 10^|ddd|. */
  lemma {:induction false} ParseMantissaPoint(fp: string, a: real)
    requires AllDigits(fp) && |fp| > 0 && a == Shifted(ParseNat(fp), |fp|)
    ensures ParseMantissa("." + fp) == Some(a)
  {
    var m := "." + fp;
    assert FirstOf(m, '.', '.') == 0;
    assert m[..0] + m[1..] == fp;
  }

  /** A mantissa without a decimal point is a whole number. */
  lemma {:induction false} ParseMantissaWhole(ip: string)
    requires AllDigits(ip) && |ip| > 0
    ensures ParseMantissa(ip) == Some(ParseNat(ip) as real)
  {
    DigitsHaveNo(ip, '.', '.');
    FirstOfAbsent(ip, '.', '.');
    assert ip + "" == ip;
    assert ip[..|ip|] == ip;
  }

  lemma {:induction false} ParseUnsignedNoExponent(t: string)
    requires Avoids(t, 'e', 'E')
    ensures ParseUnsignedFloat(t) == ParseMantissa(t)
  {
    FirstOfAbsent(t, 'e', 'E');
    assert t[..|t|] == t;
  }

  lemma {:induction false} ParseUnsignedWithExponent(m: string, x: string)
    requires Avoids(m, 'e', 'E')
    ensures ParseUnsignedFloat(m + "e" + x) ==
      match (ParseMantissa(m), ParseSignedDigits(x))
      case (Some(a), Some(k)) => Some(Scale(a, k))
      case _ => None
  {
    var t := m + "e" + x;
    FirstOfSplit(m, 'e', x, 'e', 'E');
    assert t[..|m|] == m;
    assert t[|m| + 1..] == x;
  }

  /** float() of a leading sign character (or a space) followed by an unsigned literal of value a. */
  lemma {:induction false} ParseFloatSigned(c: char, u: string, a: real)
    requires c == ' ' || c == '-' || c == '+'
    requires Trimmed(u) && u[0] != '-' && u[0] != '+'
    requires ParseUnsignedFloat(u) == Some(a)
    ensures ParseFloat([c] + u) == Some(if c == '-' then -a else a)
  {
    var t := [c] + u;
    if c == ' ' {
      SpacesAreSpace(1);
      assert Spaces(1) == [c];
      assert t == Spaces(1) + u + "";
      StripAround(Spaces(1), u, "");
      UnsignedFloat(t, u, a);
    } else {
      assert Trimmed(t) by {
        assert t[|t| - 1] == u[|u| - 1];
      }
      StripTrimmed(t);
      SignedFloat(t, c, u, a);
    }
  }

  /** float() of text that strips to an unsigned literal. */
  lemma UnsignedFloat(s: string, u: string, a: real)
    requires Strip(s) == u && |u| > 0 && u[0] != '-' && u[0] != '+'
    requires ParseUnsignedFloat(u) == Some(a)
    ensures ParseFloat(s) == Some(a)
  {
  }

  /** float() of text that strips to a sign and an unsigned literal. */
  lemma SignedFloat(s: string, c: char, u: string, a: real)
    requires Strip(s) == [c] + u && (c == '-' || c == '+')
    requires ParseUnsignedFloat(u) == Some(a)
    ensures ParseFloat(s) == Some(if c == '-' then -a else a)
  {
    var t := Strip(s);
    assert t[0] == c && t[1..] == u;
    var m := ParseUnsignedFloat(t[1..]);
    assert m == Some(a);
  }

  /** float() of a literal that carries no sign of its own. */
  lemma {:induction false} ParseFloatUnsigned(u: string)
    requires Trimmed(u) && u[0] != '-' && u[0] != '+'
    ensures ParseFloat(u) == ParseUnsignedFloat(u)
  {
    StripTrimmed(u);
  }

  /** float() reads "ip.fp" as the exact decimal value it spells. */
  lemma {:induction false} ParseDecimalLiteral(ip: string, fp: string)
    requires AllDigits(ip) && AllDigits(fp) && |ip| + |fp| > 0
    ensures ParseFloat(ip + "." + fp) == Some(Shifted(ParseNat(ip + fp), |fp|))
  {
    var u := ip + "." + fp;
    DottedEnds(ip, fp);
    DottedHasNoExponent(ip, fp);
    ParseFloatUnsigned(u);
    ParseUnsignedNoExponent(u);
    ParseMantissaDotted(ip, fp);
  }

  lemma {:induction false} DottedEnds(ip: string, fp: string)
    requires AllDigits(ip) && AllDigits(fp) && |ip| + |fp| > 0
    ensures Trimmed(ip + "." + fp)
    ensures (ip + "." + fp)[0] != '-' && (ip + "." + fp)[0] != '+'
  {
    var u := ip + "." + fp;
    if ip != [] {
      assert u[0] == ip[0];
    }
    if fp != [] {
      assert u[|u| - 1] == fp[|fp| - 1];
    }
  }

  lemma {:induction false} DottedHasNoExponent(ip: string, fp: string)
    requires AllDigits(ip) && AllDigits(fp)
    ensures Avoids(ip + "." + fp, 'e', 'E')
  {
    var u := ip + "." + fp;
    forall i | 0 <= i < |u|
      ensures u[i] != 'e' && u[i] != 'E'
    {
      if i < |ip| {
        assert u[i] == ip[i];
      } else if i > |ip| {
        assert u[i] == fp[i - |ip| - 1];
      }
    }
  }

  // ---------------------------------------------------------------------------
  // Fixed-point formatting

  /** The zero padding does not change the value the digits spell. */
  lemma {:induction false} PaddedDigitsValue(u: nat, prec: nat)
    ensures ParseNat(PaddedDigits(u, prec)) == u
  {
    Pow10Monotone(NumDigits(u), Max(NumDigits(u), prec + 1));
    DigitsRoundTrip(u, Max(NumDigits(u), prec + 1));
  }

  /** Writing a number in k more digits than it needs puts k zeros in front. */
  lemma {:induction false} ZerosWiden(u: nat, w: nat, k: nat)
    requires u < Pow10(w)
    ensures Digits(u, w + k) == Zeros(k) + Digits(u, w)
    decreases k
  {
    if k > 0 {
      ZerosWiden(u, w, k - 1);
      Pow10Monotone(w, w + k - 1);
      DigitsWiden(u, w + k - 1);
      assert Zeros(k) == "0" + Zeros(k - 1);
    }
  }

  lemma {:induction false} Pow10Monotone(a: nat, b: nat)
    requires a <= b
    ensures Pow10(a) <= Pow10(b)
    decreases b
  {
    if a < b {
      Pow10Monotone(a, b - 1);
    }
  }

  /** float() of a fixed-point rendering: the printed value, as exact as the digits allow. */
  lemma {:induction false} ParsePointDigits(u: nat, prec: nat)
    ensures ParseFloat(PointDigits(u, prec)) == Some(Shifted(u, prec))
  {
    var ds := PaddedDigits(u, prec);
    var k := |ds| - prec;
    var ip, fp := ds[..k], ds[k..];
    assert PointDigits(u, prec) == ip + "." + fp;
    SplitDigits(ds, k);
    PaddedDigitsValue(u, prec);
    ParseDecimalLiteral(ip, fp);
    assert |fp| == prec;
  }

  lemma {:induction false} SplitDigits(ds: string, k: nat)
    requires AllDigits(ds) && k <= |ds|
    ensures AllDigits(ds[..k]) && AllDigits(ds[k..]) && ds[..k] + ds[k..] == ds
  {
  }

  /** The rounded value f"{v:.pf}" stands for is within half a unit of the last place of v. */
  lemma {:induction false} FixedValueClose(v: real, prec: nat)
    ensures -0.5 <= Times10(FixedValue(v, prec) - v, prec) <= 0.5
  {
    var u := FixedUnits(v, prec);
    var w := if v < 0.0 then -(u as int) else u;
    Times10Div10(w as real, prec);
    Times10Linear(FixedValue(v, prec), v, prec);
    if v < 0.0 {
      NegTimes10(v, prec);
      NegTimes10(u as real, prec);
      assert Times10(w as real, prec) == -Times10(u as real, prec);
    }
  }

  lemma {:induction false} NegTimes10(x: real, k: nat)
    ensures Times10(-x, k) == -Times10(x, k)
  {
    Times10Linear(0.0, x, k);
    ScaleZero(k);
  }

  /** A value that already has at most `prec` decimals is printed exactly. */
  lemma {:induction false} FixedValueExact(n: nat, prec: nat)
    ensures FixedUnits(Shifted(n, prec), prec) == n
  {
    var v := Shifted(n, prec);
    Times10Div10(n as real, prec);
    Div10Monotone(0.0, n as real, prec);
    ScaleZero(prec);
    assert Abs(v) == v;
    assert Times10(Abs(v), prec) == n as real;
  }
  // ---------------------------------------------------------------------------
  // str.replace

  /** A prefix without the first character of the pattern is copied unchanged. */
  lemma {:induction false} ReplaceSkip(a: string, b: string, pat: string, rep: string)
    requires |pat| > 0 && pat[0] !in a
    ensures Replace(a + b, pat, rep) == a + Replace(b, pat, rep)
    decreases |a|
  {
    var s := a + b;
    if a == [] {
      assert s == b;
    } else if |s| < |pat| {
      assert Replace(b, pat, rep) == b;
    } else {
      assert s[..|pat|] != pat by { assert s[0] == a[0]; }
      assert s[1..] == a[1..] + b;
      ReplaceSkip(a[1..], b, pat, rep);
      assert a == [a[0]] + a[1..];
    }
  }

  /** An occurrence of the pattern at the front is replaced. */
  lemma ReplaceHit(b: string, pat: string, rep: string)
    requires |pat| > 0
    ensures Replace(pat + b, pat, rep) == rep + Replace(b, pat, rep)
  {
    var s := pat + b;
    assert s[..|pat|] == pat;
    assert s[|pat|..] == b;
  }

  /** A string without the first character of the pattern is left as it is. */
  lemma ReplaceAbsent(s: string, pat: string, rep: string)
    requires |pat| > 0 && pat[0] !in s
    ensures Replace(s, pat, rep) == s
  {
    ReplaceSkip(s, "", pat, rep);
    assert s + "" == s;
  }
  /** A single occurrence of the pattern, with nothing that could start another around it. */
  lemma ReplaceOne(a: string, b: string, pat: string, rep: string)
    requires |pat| > 0 && pat[0] !in a && pat[0] !in b
    ensures Replace(a + pat + b, pat, rep) == a + rep + b
  {
    assert a + pat + b == a + (pat + b);
    ReplaceSkip(a, pat + b, pat, rep);
    ReplaceHit(b, pat, rep);
    ReplaceAbsent(b, pat, rep);
  }

  // ---------------------------------------------------------------------------
  // Reading back the "f" format

  /** The point-separated digits of u have no whitespace at their ends, start with a digit and read back as u / 10^prec. */
  lemma {:induction false} PointDigitsShape(u: nat, prec: nat)
    ensures Trimmed(PointDigits(u, prec)) && IsDigit(PointDigits(u, prec)[0])
    ensures ParseUnsignedFloat(PointDigits(u, prec)) == Some(Shifted(u, prec))
  {
    var ds := PaddedDigits(u, prec);
    var k := |ds| - prec;
    var ip, fp := ds[..k], ds[k..];
    assert PointDigits(u, prec) == ip + "." + fp;
    SplitDigits(ds, k);
    DottedEnds(ip, fp);
    assert PointDigits(u, prec)[0] == ip[0];
    ParsePointDigits(u, prec);
    ParseFloatUnsigned(ip + "." + fp);
  }

  lemma {:induction false} NegDiv10(x: real, k: nat)
    ensures Div10(-x, k) == -Div10(x, k)
  {
    if k > 0 {
      NegDiv10(x, k - 1);
    }
  }

  /** float() reads back what f"{v:w.pf}" and f"{v: w.pf}" write: v rounded to p decimals, with its sign. */
  lemma {:induction false} FormatFixedRoundTrip(v: real, prec: nat, width: nat, spaceSign: bool)
    ensures ParseFloat(FormatFixed(v, prec, width, spaceSign)) == Some(FixedValue(v, prec))
  {
    var body, a := FixedText(v, prec, width, spaceSign);
    if v < 0.0 {
      NegativeRead(FormatFixed(v, prec, width, spaceSign), body, a, FixedValue(v, prec), width);
    } else if spaceSign {
      SpacedRead(FormatFixed(v, prec, width, spaceSign), body, a, width);
    } else {
      assert "" + body == body;
      PlainRead(FormatFixed(v, prec, width, spaceSign), body, a, width);
    }
  }

  /** The parts of f"{v:w.pf}": the sign, then digits with a point that read as the magnitude a of the rounded value. */
  lemma {:induction false} FixedText(v: real, prec: nat, width: nat, spaceSign: bool) returns (body: string, a: real)
    ensures Trimmed(body) && IsDigit(body[0]) && ParseUnsignedFloat(body) == Some(a)
    ensures FormatFixed(v, prec, width, spaceSign)
      == PadLeft((if v < 0.0 then "-" else if spaceSign then " " else "") + body, width)
    ensures FixedValue(v, prec) == if v < 0.0 then -a else a
  {
    var u := FixedUnits(v, prec);
    body, a := PointDigits(u, prec), Shifted(u, prec);
    assert Trimmed(body) && IsDigit(body[0]) && ParseUnsignedFloat(body) == Some(a) by {
      PointDigitsShape(u, prec);
    }
    FixedValueSign(v, prec, u, a);
  }

  /** The value f"{v:.pf}" stands for is the rounded magnitude a with the sign of v. */
  lemma {:induction false} FixedValueSign(v: real, prec: nat, u: nat, a: real)
    requires u == FixedUnits(v, prec) && a == Shifted(u, prec)
    ensures FixedValue(v, prec) == if v < 0.0 then -a else a
  {
    NegDiv10(u as real, prec);
  }

  /** A minus sign before the digits, padded on the left: float() reads the negated value. */
  lemma {:induction false} NegativeRead(s: string, body: string, a: real, r: real, width: nat)
    requires Trimmed(body) && IsDigit(body[0]) && ParseUnsignedFloat(body) == Some(a)
    requires s == PadLeft("-" + body, width) && r == -a
    ensures ParseFloat(s) == Some(r)
  {
    var t := "-" + body;
    assert Trimmed(t) by {
      assert t[|t| - 1] == body[|body| - 1];
    }
    StripPadLeft(t, width);
    assert t[1..] == body;
  }

  /** A space before the digits, padded on the left: float() reads the value. */
  lemma {:induction false} SpacedRead(s: string, body: string, a: real, width: nat)
    requires Trimmed(body) && IsDigit(body[0]) && ParseUnsignedFloat(body) == Some(a)
    requires s == PadLeft(" " + body, width)
    ensures ParseFloat(s) == Some(a)
  {
    assert Strip(s) == body by {
      SpacedStrip(body, width);
    }
  }

  /** The digits alone, padded on the left: float() reads the value. */
  lemma {:induction false} PlainRead(s: string, body: string, a: real, width: nat)
    requires Trimmed(body) && IsDigit(body[0]) && ParseUnsignedFloat(body) == Some(a)
    requires s == PadLeft(body, width)
    ensures ParseFloat(s) == Some(a)
  {
    StripPadLeft(body, width);
  }

  lemma {:induction false} SpacedStrip(body: string, width: nat)
    requires Trimmed(body)
    ensures Strip(PadLeft(" " + body, width)) == body
  {
    var s := " " + body;
    var n := |PadLeft(s, width)| - |s|;
    PadLeftShape(s, width);
    SpacesAreSpace(n + 1);
    assert Spaces(n) + s == Spaces(n + 1) + body + "";
    StripAround(Spaces(n + 1), body, "");
  }
}
