/**
 * The implied-decimal number fields of a TLE. A drag term such as "-11606-4"
 * stands for -0.11606e-4: a sign column, five mantissa digits read after an
 * implied leading point, and a signed one-digit power of ten. The eccentricity
 * field "0006703" stands for 0.0006703. Python's "e" presentation type, which
 * the encoder goes through, is modelled on exact reals.
 */
module ImpliedDecimal {
  import opened Wrappers
  import opened Decimal
  import opened Scaling
  import opened PyText
  import opened PyTextFacts

  // ---------------------------------------------------------------------------
  // Python's f"{x: 10.4e}"

  /** Every finite double has a decimal exponent in this range; the exponent search stops at its ends. */
  const MinExponent: int := -330
  const MaxExponent: int := 310

  /** x / 10^(e - 4), rounded: the five significant digits of x when its exponent is taken to be e. */
  function SigDigits(x: real, e: int): (m: nat)
    requires x >= 0.0
  {
    ScaleSign(x, 4 - e);
    RoundHalfEven(Scale(x, 4 - e))
  }

  /** The least exponent from e upwards whose rounded mantissa fits in five digits. */
  function FindExponent(x: real, e: int): (r: int)
    requires x >= 0.0 && e <= MaxExponent
    ensures e <= r <= MaxExponent
    ensures r < MaxExponent ==> SigDigits(x, r) <= 99999
    ensures r > e ==> SigDigits(x, r - 1) > 99999
    decreases MaxExponent - e
  {
    if e == MaxExponent || SigDigits(x, e) <= 99999 then e else FindExponent(x, e + 1)
  }

  /** The exponent the "e" format writes for x > 0 (a mantissa that rounds up to 10 moves it up by one). */
  function SciExponent(x: real): int
    requires x >= 0.0
  {
    FindExponent(x, MinExponent)
  }

  /** The digits d.dddd the "e" format writes for x > 0, as the integer ddddd. */
  function SciMantissa(x: real): nat
    requires x >= 0.0
  {
    SigDigits(x, SciExponent(x))
  }

  function AbsInt(n: int): nat
  {
    if n < 0 then -n else n
  }

  /**
   * Python's f"{x: 10.4e}": a sign column ('-' or a space), d.dddd, 'e', the
   * exponent's sign and at least two exponent digits, right-justified in ten
   * characters. Zero is written with exponent +00.
   */
  function FormatSci(x: real): string
  {
    var m := if x == 0.0 then 0 else SciMantissa(Abs(x));
    var e := if x == 0.0 then 0 else SciExponent(Abs(x));
    var ds := Digits(m, 5);
    var sign := if x < 0.0 then "-" else " ";
    var esign := if e < 0 then "-" else "+";
    PadLeft(sign + ds[..1] + "." + ds[1..] + "e" + esign + Digits(AbsInt(e), Max(2, NumDigits(AbsInt(e)))), 10)
  }

  // ---------------------------------------------------------------------------
  // The two codecs of utils.py

  /** value*10, the number float_to_scinot hands to the "e" format. */
  function Tenfold(v: real): real
  {
    10.0 * v
  }

  /**
   * float_to_scinot: 10 * v in the "e" format, then the tens digit of the
   * exponent cut out, '.' and 'e' removed and "+0" turned into "-0".
   */
  function FloatToScinot(v: real): string
  {
    Reformat(FormatSci(Tenfold(v)))
  }

  /** The string surgery of float_to_scinot on the "e" format of 10 * v. */
  function Reformat(tmp: string): string
  {
    var cut := Slice(tmp, 0, 9) + Slice(tmp, 10, 11);
    Replace(Replace(Replace(cut, ".", ""), "e", ""), "+0", "-0")
  }

  /** scinot_to_float: "SMMMMMXE" reads as float("S.MMMMMeXE"); an empty field is an error. */
  function ScinotToFloat(s: string): Option<real>
  {
    if s == [] then None else ParseFloat([s[0]] + ("." + Slice(s, 1, 6) + "e" + Slice(s, 6, 8)))
  }

  /** e_to_float: the field holds the digits after an implied leading point. */
  function EToFloat(s: string): Option<real>
  {
    ParseFloat("." + s)
  }

  /** float_to_e: the last seven characters of v printed with seven decimals. */
  function FloatToE(v: real): string
  {
    var t := FormatFixed(v, 7, 0, false);
    t[|t| - Min(7, |t|)..]
  }

  /** The values float_to_scinot writes faithfully: zero, and those whose exponent needs a single digit. */
  predicate SciRepresentable(v: real)
  {
    v == 0.0 || -9 <= SciExponent(Abs(Tenfold(v))) <= 9
  }

  /** The field "SMMMMMXE": the sign column, m in five digits, and the exponent e, with a zero exponent written "-0". */
  function ScinotField(negative: bool, m: nat, e: int): (s: string)
    requires -9 <= e <= 9
    ensures |s| == 8 && s[0] != '+'
  {
    [if negative then '-' else ' '] + Digits(m, 5) + [if e <= 0 then '-' else '+'] + [DigitChar(AbsInt(e))]
  }

  /** The mantissa digits and exponent float_to_scinot chooses for v. */
  function ScinotMantissa(v: real): nat
  {
    if v == 0.0 then 0 else SciMantissa(Abs(Tenfold(v)))
  }

  function ScinotExponent(v: real): int
  {
    if v == 0.0 then 0 else SciExponent(Abs(Tenfold(v)))
  }

  // ---------------------------------------------------------------------------
  // The "e" format

  /** Away from the ends of the search, the mantissa has exactly five digits. */
  lemma {:induction false} SciMantissaRange(x: real)
    requires x > 0.0 && MinExponent < SciExponent(x) < MaxExponent
    ensures 10000 <= SciMantissa(x) <= 99999
  {
    SearchStops(x, SciExponent(x));
    MantissaLower(x, SciExponent(x), Scale(x, 4 - SciExponent(x)));
  }

  /** The search stopped at e: the mantissa fits at e and not at e - 1. */
  lemma {:induction false} SearchStops(x: real, e: int)
    requires x > 0.0 && e == SciExponent(x) && MinExponent < e < MaxExponent
    ensures SigDigits(x, e) <= 99999 && SigDigits(x, e - 1) > 99999
  {
  }

  lemma {:induction false} MantissaLower(x: real, e: int, y: real)
    requires x > 0.0 && y == Scale(x, 4 - e) && SigDigits(x, e - 1) > 99999
    ensures SigDigits(x, e) >= 10000
  {
    ScaleStep(x, 4 - e);
    assert Scale(x, 4 - (e - 1)) == 10.0 * y;
    FifthDigit(y, SigDigits(x, e - 1), SigDigits(x, e));
  }

  /** If 10 * y rounds to six digits, y rounds to at least five. */
  lemma FifthDigit(y: real, a: int, b: int)
    requires a >= 100000 && -0.5 <= a as real - 10.0 * y <= 0.5 && -0.5 <= b as real - y <= 0.5
    ensures b >= 10000
  {
  }

  /** The ten characters of the "e" format when the exponent has one digit. */
  lemma {:induction false} FormatSciShape(x: real, m: nat, e: int)
    requires x != 0.0 && e == SciExponent(Abs(x)) && m == SciMantissa(Abs(x)) && -9 <= e <= 9
    ensures FormatSci(x) == [if x < 0.0 then '-' else ' '] + Digits(m, 5)[..1] + "." + Digits(m, 5)[1..] + "e"
      + [if e < 0 then '-' else '+'] + ['0', DigitChar(AbsInt(e))]
  {
    OneDigitExponent(e);
    SciText(if x < 0.0 then "-" else " ", Digits(m, 5), if e < 0 then "-" else "+", ['0', DigitChar(AbsInt(e))]);
  }

  /** A one-digit exponent is written with a leading zero. */
  lemma OneDigitExponent(e: int)
    requires -9 <= e <= 9
    ensures Digits(AbsInt(e), Max(2, NumDigits(AbsInt(e)))) == ['0', DigitChar(AbsInt(e))]
  {
    var a := AbsInt(e);
    assert NumDigits(a) == 1;
    assert a / 10 == 0 && a % 10 == a;
    assert Digits(0, 1) == "0";
  }

  /** The pieces of the "e" format are already ten characters wide, so no padding is added. */
  lemma SciText(sign: string, ds: string, esign: string, ed: string)
    requires |sign| == 1 && |ds| == 5 && |esign| == 1 && |ed| == 2
    ensures PadLeft(sign + ds[..1] + "." + ds[1..] + "e" + esign + ed, 10)
      == [sign[0]] + ds[..1] + "." + ds[1..] + "e" + [esign[0]] + ed
  {
    assert sign == [sign[0]] && esign == [esign[0]];
  }

  lemma FormatSciZero()
    ensures FormatSci(0.0) == " 0.0000e+00"
  {
    assert Digits(0, 5) == "00000";
    assert Digits(0, 2) == "00";
  }

  /** The characters of the sign column and of a digit string are none of '.', 'e' and '+'. */
  lemma {:induction false} FieldHeadHasNo(sign: char, ds: string)
    requires sign == ' ' || sign == '-'
    requires AllDigits(ds)
    ensures '.' !in [sign] + ds && 'e' !in [sign] + ds && '+' !in [sign] + ds
  {
    var h := [sign] + ds;
    forall i | 0 <= i < |h|
      ensures h[i] != '.' && h[i] != 'e' && h[i] != '+'
    {
      if i > 0 { assert h[i] == ds[i - 1]; }
    }
  }

  /** The string surgery of float_to_scinot on an eleven-character "e" format. */
  lemma {:induction false} CutAndStrip(sign: char, ds: string, esign: char, dc: char, tmp: string)
    requires sign == ' ' || sign == '-'
    requires |ds| == 5 && AllDigits(ds)
    requires esign == '+' || esign == '-'
    requires IsDigit(dc)
    requires tmp == [sign] + ds[..1] + "." + ds[1..] + "e" + [esign] + ['0', dc]
    ensures Reformat(tmp) == [sign] + ds + [if esign == '+' && dc == '0' then '-' else esign] + [dc]
  {
    SliceInRange(tmp, 0, 9);
    SliceInRange(tmp, 10, 11);
    var cut := Slice(tmp, 0, 9) + Slice(tmp, 10, 11);
    var s1 := CutDropPoint(sign, ds, esign, dc, cut);
    var pre := [sign] + ds;
    FieldHeadHasNo(sign, ds);
    ReplaceOne(pre, [esign, dc], "e", "");
    assert pre + "" + [esign, dc] == pre + [esign, dc];
    FixZeroExponent(pre, esign, dc);
  }

  /** The first replace of float_to_scinot: the point goes. */
  lemma {:induction false} CutDropPoint(sign: char, ds: string, esign: char, dc: char, cut: string) returns (s1: string)
    requires sign == ' ' || sign == '-'
    requires |ds| == 5 && AllDigits(ds)
    requires esign == '+' || esign == '-'
    requires IsDigit(dc)
    requires cut == [sign] + ds[..1] + "." + ds[1..] + "e" + [esign, dc]
    ensures s1 == Replace(cut, ".", "") && s1 == [sign] + ds + "e" + [esign, dc]
  {
    var head, tail := [sign] + ds[..1], ds[1..] + "e" + [esign, dc];
    assert cut == head + "." + tail;
    FieldHeadHasNo(sign, ds[..1]);
    assert '.' !in tail by {
      forall i | 0 <= i < |tail| ensures tail[i] != '.' {
        if i < 4 { assert tail[i] == ds[i + 1]; }
      }
    }
    ReplaceOne(head, tail, ".", "");
    s1 := head + "" + tail;
    assert s1 == [sign] + ds + "e" + [esign, dc];
  }

  /** The last replace of float_to_scinot: an exponent "+0" becomes "-0". */
  lemma {:induction false} FixZeroExponent(pre: string, esign: char, dc: char)
    requires '+' !in pre && (esign == '+' || esign == '-') && IsDigit(dc)
    ensures Replace(pre + [esign, dc], "+0", "-0") == pre + [if esign == '+' && dc == '0' then '-' else esign] + [dc]
  {
    ReplaceSkip(pre, [esign, dc], "+0", "-0");
    if esign == '+' && dc == '0' {
      ReplaceHit("", "+0", "-0");
      assert [esign, dc] == "+0" + "";
    } else if esign != '+' {
      ReplaceAbsent([esign, dc], "+0", "-0");
    } else {
      assert [esign, dc][..2] != "+0" by { assert [esign, dc][1] != "+0"[1]; }
      assert [esign, dc][1..] == [dc];
    }
  }

  /** Zero is written with mantissa 0 and exponent 0. */
  lemma {:induction false} ZeroScinotField(v: real)
    requires v == 0.0
    ensures FloatToScinot(v) == ScinotField(false, 0, 0)
  {
    FloatToScinotZero();
    assert Digits(0, 5) == "00000";
  }

  lemma FloatToScinotZero()
    ensures FloatToScinot(0.0) == " 00000-0"
  {
    FormatSciZero();
    assert " 0.0000e+00" == [' '] + "00000"[..1] + "." + "00000"[1..] + "e" + ['+'] + ['0', '0'];
    CutAndStrip(' ', "00000", '+', '0', " 0.0000e+00");
  }

  /** For v != 0, float_to_scinot writes the sign of v and the mantissa and exponent of the "e" format of 10 * v. */
  lemma {:induction false} FloatToScinotNonZero(v: real, m: nat, e: int)
    requires v != 0.0 && -9 <= e <= 9
    requires e == SciExponent(Abs(Tenfold(v))) && m == SciMantissa(Abs(Tenfold(v)))
    ensures FloatToScinot(v) == ScinotField(v < 0.0, m, e)
  {
    ReformatOfSci(Tenfold(v), m, e);
    assert (Tenfold(v) < 0.0) == (v < 0.0);
  }

  lemma AbsTimesTen(v: real)
    ensures Abs(Tenfold(v)) == 10.0 * Abs(v) && (Tenfold(v) < 0.0 <==> v < 0.0)
  {
  }

  /** The reformatted "e" format of a non-zero x with a one-digit exponent is the field of its sign, mantissa and exponent. */
  lemma {:induction false} ReformatOfSci(x: real, m: nat, e: int)
    requires x != 0.0 && -9 <= e <= 9
    requires e == SciExponent(Abs(x)) && m == SciMantissa(Abs(x))
    ensures Reformat(FormatSci(x)) == ScinotField(x < 0.0, m, e)
  {
    FormatSciShape(x, m, e);
    if x < 0.0 {
      ReformatSci(FormatSci(x), true, m, e);
    } else {
      ReformatSci(FormatSci(x), false, m, e);
    }
  }

  /** float_to_scinot's string surgery on an "e" format with a one-digit exponent. */
  lemma {:induction false} ReformatSci(tmp: string, negative: bool, m: nat, e: int)
    requires -9 <= e <= 9
    requires tmp == [if negative then '-' else ' '] + Digits(m, 5)[..1] + "." + Digits(m, 5)[1..] + "e"
      + [if e < 0 then '-' else '+'] + ['0', DigitChar(AbsInt(e))]
    ensures Reformat(tmp) == ScinotField(negative, m, e)
  {
    CutAndStrip(if negative then '-' else ' ', Digits(m, 5), if e < 0 then '-' else '+', DigitChar(AbsInt(e)), tmp);
    ExponentSignChar(e);
  }

  /** After the "+0" fix, the exponent sign column is '-' exactly for e <= 0. */
  lemma ExponentSignChar(e: int)
    requires -9 <= e <= 9
    ensures (if (if e < 0 then '-' else '+') == '+' && DigitChar(AbsInt(e)) == '0' then '-' else if e < 0 then '-' else '+')
      == (if e <= 0 then '-' else '+')
  {
    assert DigitValue(DigitChar(AbsInt(e))) == AbsInt(e);
  }

  /** scinot_to_float reads a field as ±0.MMMMM times ten to the signed exponent digit, v = M * 10^(e-5). */
  lemma {:induction false} ScinotFieldValue(negative: bool, m: nat, e: int, v: real)
    requires m <= 99999 && -9 <= e <= 9 && v == Scale(m as real, e - 5)
    ensures ScinotToFloat(ScinotField(negative, m, e)) == Some(if negative then -v else v)
  {
    ScinotFieldParts(negative, m, e);
    ScinotUnsignedField(m, e, v);
    ParseFloatSigned(if negative then '-' else ' ', "." + Digits(m, 5) + "e" + ExponentText(e), v);
  }

  /**
   * scinot_to_float on any field it accepts: a sign column of ' ', '+' or '-',
   * five mantissa digits and an exponent of '+' or '-' and one digit, which
   * reads as ±0.MMMMM times ten to the signed exponent digit, v = M * 10^(±d-5).
   */
  lemma {:induction false} ScinotFieldRead(c: char, m: nat, es: char, d: nat, v: real)
    requires c == ' ' || c == '+' || c == '-'
    requires es == '+' || es == '-'
    requires m <= 99999 && d <= 9
    requires v == Scale(m as real, (if es == '-' then -(d as int) else d) - 5)
    ensures ScinotToFloat([c] + Digits(m, 5) + [es, DigitChar(d)]) == Some(if c == '-' then -v else v)
  {
    var ds, x := Digits(m, 5), [es, DigitChar(d)];
    var k := if es == '-' then -(d as int) else d;
    var s := [c] + ds + x;
    SliceInRange(s, 1, 6);
    SliceInRange(s, 6, 8);
    assert Slice(s, 1, 6) == ds;
    assert Slice(s, 6, 8) == x;
    SignedExponentValue(es, d);
    ScaleCompose(m as real, -5, k);
    ScinotUnsigned(ds, x, ShiftedDigits(m), k, v);
    ScinotTrimmed(ds, x);
    ParseFloatSigned(c, "." + ds + "e" + x, v);
  }

  /** An exponent "XE" with either sign reads as the signed digit. */
  lemma {:induction false} SignedExponentValue(es: char, d: nat)
    requires (es == '+' || es == '-') && d <= 9
    ensures ParseSignedDigits([es, DigitChar(d)]) == Some(if es == '-' then -(d as int) else d)
  {
    var dc := DigitChar(d);
    assert [es, dc][1..] == [dc];
    assert ParseNat([dc]) == d by {
      assert [dc][..0] == [];
    }
  }

  /** The exponent columns "XE" of a field. */
  function ExponentText(e: int): (t: string)
    requires -9 <= e <= 9
    ensures |t| == 2 && IsDigit(t[1])
  {
    [if e <= 0 then '-' else '+', DigitChar(AbsInt(e))]
  }

  /** The three pieces scinot_to_float cuts a field into. */
  lemma {:induction false} ScinotFieldParts(negative: bool, m: nat, e: int)
    requires -9 <= e <= 9
    ensures ScinotToFloat(ScinotField(negative, m, e)) ==
      ParseFloat([if negative then '-' else ' '] + ("." + Digits(m, 5) + "e" + ExponentText(e)))
  {
    var s := ScinotField(negative, m, e);
    SliceInRange(s, 1, 6);
    SliceInRange(s, 6, 8);
    assert Slice(s, 1, 6) == Digits(m, 5);
    assert Slice(s, 6, 8) == ExponentText(e);
  }

  /**
   * A field cut one column too early (a space, then its first seven
   * characters): the exponent text becomes the last mantissa digit followed by
   * the exponent sign, which float() refuses.
   */
  lemma {:induction false} ShiftedFieldUnreadable(f: string, negative: bool, m: nat, e: int)
    requires -9 <= e <= 9 && f == ScinotField(negative, m, e)
    ensures ScinotToFloat(" " + f[..7]) == None
  {
    var s := " " + f[..7];
    var ds := Digits(m, 5);
    var sc, esign := if negative then '-' else ' ', if e <= 0 then '-' else '+';
    assert f[..7] == [sc] + ds + [esign];
    var mant := "." + ([sc] + ds[..4]);
    assert Slice(s, 1, 6) == [sc] + ds[..4];
    assert Slice(s, 6, 8) == [ds[4], esign];
    assert [s[0]] + ("." + Slice(s, 1, 6) + "e" + Slice(s, 6, 8)) == " " + (mant + "e" + [ds[4], esign]);
    assert Avoids(mant, 'e', 'E') by {
      assert IsDigit(ds[0]) && IsDigit(ds[1]) && IsDigit(ds[2]) && IsDigit(ds[3]);
    }
    SignLastUnreadable(mant, ds[4], esign);
  }

  /** float() refuses a literal whose exponent ends in a sign. */
  lemma {:induction false} SignLastUnreadable(mant: string, d: char, esign: char)
    requires Avoids(mant, 'e', 'E') && |mant| > 0 && mant[0] == '.'
    requires IsDigit(d) && (esign == '-' || esign == '+')
    ensures ParseFloat(" " + (mant + "e" + [d, esign])) == None
  {
    var x := [d, esign];
    var u := mant + "e" + x;
    assert ParseSignedDigits(x) == None by {
      assert !AllDigits(x) by {
        assert !IsDigit(x[1]);
      }
    }
    ParseUnsignedWithExponent(mant, x);
    assert Strip(" " + u + "") == u by {
      SpacesAreSpace(1);
      assert Spaces(1) == " ";
      assert u[|u| - 1] == esign;
      StripAround(" ", u, "");
    }
    assert " " + u + "" == " " + u;
  }

  /** Whatever value float_to_scinot wrote, its field read one column too early is refused. */
  lemma {:induction false} ShiftedScinotUnreadable(v: real)
    requires SciRepresentable(v)
    ensures |FloatToScinot(v)| == 8 && ScinotToFloat(" " + FloatToScinot(v)[..7]) == None
  {
    if v == 0.0 {
      ZeroScinotField(v);
      ShiftedFieldUnreadable(FloatToScinot(v), false, 0, 0);
    } else {
      var m, e := SciMantissa(Abs(Tenfold(v))), SciExponent(Abs(Tenfold(v)));
      FloatToScinotNonZero(v, m, e);
      ShiftedFieldUnreadable(FloatToScinot(v), v < 0.0, m, e);
    }
  }

  /** The unsigned part ".MMMMMeXE" of a field reads as M * 10^(e-5). */
  lemma {:induction false} ScinotUnsignedField(m: nat, e: int, v: real)
    requires m <= 99999 && -9 <= e <= 9 && v == Scale(m as real, e - 5)
    ensures ParseUnsignedFloat("." + Digits(m, 5) + "e" + ExponentText(e)) == Some(v)
    ensures Trimmed("." + Digits(m, 5) + "e" + ExponentText(e))
    ensures ("." + Digits(m, 5) + "e" + ExponentText(e))[0] == '.'
  {
    ExponentDigitValue(e);
    var a := ShiftedDigits(m);
    ScaleCompose(m as real, -5, e);
    ScinotUnsigned(Digits(m, 5), ExponentText(e), a, e, v);
    ScinotTrimmed(Digits(m, 5), ExponentText(e));
  }

  /** The mantissa digits of a field, read after the implied point. */
  function ShiftedDigits(m: nat): (a: real)
    requires m <= 99999
    ensures a == Shifted(ParseNat(Digits(m, 5)), |Digits(m, 5)|) && a == Scale(m as real, -5)
  {
    assert Pow10(5) == 100000;
    DigitsRoundTrip(m, 5);
    Shifted(m, 5)
  }

  /** The exponent part "XE" of a field reads as the signed digit. */
  lemma {:induction false} ExponentDigitValue(e: int)
    requires -9 <= e <= 9
    ensures ParseSignedDigits(ExponentText(e)) == Some(e)
  {
    var dc := DigitChar(AbsInt(e));
    var t := ExponentText(e);
    assert t[1..] == [dc];
    assert ParseNat([dc]) == AbsInt(e) by {
      assert [dc][..0] == [];
    }
  }

  /** float() of ".MMMMMeX", the field with its sign dropped. */
  lemma {:induction false} ScinotUnsigned(ds: string, x: string, a: real, k: int, v: real)
    requires |ds| > 0 && AllDigits(ds) && a == Shifted(ParseNat(ds), |ds|)
    requires ParseSignedDigits(x) == Some(k) && v == Scale(a, k)
    ensures ParseUnsignedFloat("." + ds + "e" + x) == Some(v)
  {
    ParseMantissaPoint(ds, a);
    PointAvoidsExponent(ds);
    ExponentForm("." + ds, x, a, k, v);
  }

  lemma {:induction false} ScinotTrimmed(ds: string, x: string)
    requires |x| > 0 && IsDigit(x[|x| - 1])
    ensures Trimmed("." + ds + "e" + x) && ("." + ds + "e" + x)[0] == '.'
  {
    var u := "." + ds + "e" + x;
    assert u[|u| - 1] == x[|x| - 1];
  }

  lemma {:induction false} PointAvoidsExponent(ds: string)
    requires AllDigits(ds)
    ensures Avoids("." + ds, 'e', 'E')
  {
    DigitsHaveNo(ds, 'e', 'E');
    assert forall i :: 1 <= i < |ds| + 1 ==> ("." + ds)[i] == ds[i - 1];
  }

  lemma {:induction false} ExponentForm(m: string, x: string, a: real, k: int, v: real)
    requires Avoids(m, 'e', 'E') && ParseMantissa(m) == Some(a) && ParseSignedDigits(x) == Some(k)
    requires v == Scale(a, k)
    ensures ParseUnsignedFloat(m + "e" + x) == Some(v)
  {
    ParseUnsignedWithExponent(m, x);
  }

  /** float_to_scinot keeps the sign of v and five significant digits: the relative error is at most 5e-5. */
  lemma {:induction false} ScinotRoundTrip(v: real)
    requires SciRepresentable(v)
    ensures ScinotToFloat(FloatToScinot(v)).Some?
    ensures var r := ScinotToFloat(FloatToScinot(v)).value;
      20000.0 * Abs(r - v) <= Abs(r) && (r < 0.0 <==> v < 0.0)
  {
    if v == 0.0 {
      ZeroScinotField(v);
      ScaleOfZero(-5);
      ScinotFieldValue(false, 0, 0, 0.0);
    } else {
      NonZeroRoundTrip(v);
    }
  }

  lemma {:induction false} NonZeroRoundTrip(v: real)
    requires v != 0.0 && -9 <= SciExponent(Abs(Tenfold(v))) <= 9
    ensures ScinotToFloat(FloatToScinot(v)).Some?
    ensures var r := ScinotToFloat(FloatToScinot(v)).value;
      20000.0 * Abs(r - v) <= Abs(r) && (r < 0.0 <==> v < 0.0)
  {
    var m, e := SciMantissa(Abs(Tenfold(v))), SciExponent(Abs(Tenfold(v)));
    FloatToScinotNonZero(v, m, e);
    SciMantissaRange(Abs(Tenfold(v)));
    MantissaRounds(Abs(Tenfold(v)));
    AbsTimesTen(v);
    var ar := Scale(m as real, e - 5);
    RoundingError(Abs(v), Abs(Tenfold(v)), m, e, ar);
    ScinotFieldValue(v < 0.0, m, e, ar);
  }

  /**
   * Rounding 10 * av to five significant digits at exponent e, then reading the
   * digits back as ar = m * 10^(e - 5), is off by at most half a unit of the
   * fifth digit: at most 1/20000 of ar.
   */
  lemma {:induction false} RoundingError(av: real, x: real, m: nat, e: int, ar: real)
    requires av > 0.0 && x == 10.0 * av && 10000 <= m
    requires -0.5 <= m as real - Scale(x, 4 - e) <= 0.5
    requires ar == Scale(m as real, e - 5)
    ensures ar > 0.0 && 20000.0 * Abs(ar - av) <= ar
  {
    var k := 5 - e;
    ScaleSign(m as real, e - 5);
    // 10 * av scaled by 4 - e is av scaled by k.
    ScaleStep(av, 0);
    ScaleCompose(av, 1, 4 - e);
    assert -0.5 <= m as real - Scale(av, k) <= 0.5;
    // ar scaled by k is m again.
    ScaleCompose(m as real, e - 5, k);
    var d := ar - av;
    ScaleLinear(ar, av, k);
    assert -0.5 <= Scale(d, k) <= 0.5;
    HalfUnitBound(ar, d, 20000.0, k);
    HalfUnitBound(ar, d, -20000.0, k);
  }

  /** A difference of at most half a unit after scaling, times 20000, stays within a scaled value of 10000 or more. */
  lemma {:induction false} HalfUnitBound(y: real, d: real, c: real, k: int)
    requires Scale(y, k) >= 10000.0 && -0.5 <= Scale(d, k) <= 0.5
    requires c == 20000.0 || c == -20000.0
    ensures y - c * d >= 0.0
  {
    ScaleTimes(c, d, k);
    ScaleLinear(y, c * d, k);
    if c == 20000.0 {
      assert Scale(y - c * d, k) == Scale(y, k) - 20000.0 * Scale(d, k);
    } else {
      assert Scale(y - c * d, k) == Scale(y, k) + 20000.0 * Scale(d, k);
    }
    NonNegativeUnscaled(y - c * d, k);
  }

  /** The "e" format's mantissa is the scaled value rounded to an integer. */
  lemma MantissaRounds(x: real)
    requires x >= 0.0
    ensures -0.5 <= SciMantissa(x) as real - Scale(x, 4 - SciExponent(x)) <= 0.5
  {
  }

  /** A value whose scaling is non-negative is itself non-negative. */
  lemma {:induction false} NonNegativeUnscaled(y: real, k: int)
    requires Scale(y, k) >= 0.0
    ensures y >= 0.0
  {
    ScaleCompose(y, k, -k);
    ScaleSign(Scale(y, k), -k);
  }

  /** At exponents below e, a mantissa of five digits scaled up no longer fits in five digits. */
  lemma {:induction false} FindExponentOf(m: nat, e: int, j: int)
    requires 10000 <= m <= 99999 && -9 <= e <= 9 && MinExponent <= j <= e
    ensures Scale(m as real, e - 4) >= 0.0
    ensures FindExponent(Scale(m as real, e - 4), j) == e
    decreases e - j
  {
    ScaleSign(m as real, e - 4);
    if j == e {
      ScaleCompose(m as real, e - 4, 4 - j);
    } else {
      assert Scale(Scale(m as real, e - 4), 4 - j) >= 10.0 * m as real by {
        ScaledAbove(m, e, j);
      }
      FindExponentOf(m, e, j + 1);
    }
  }

  /** Read at an exponent j below e, the value m * 10^(e - 4) has at least ten times m as its digits. */
  lemma ScaledAbove(m: nat, e: int, j: int)
    requires j < e
    ensures Scale(Scale(m as real, e - 4), 4 - j) >= 10.0 * m as real
  {
    ScaleCompose(m as real, e - 4, 4 - j);
    var t := Times10(m as real, 1);
    Times10Compose(m as real, 1, e - j - 1);
    Times10Grows(t, e - j - 1);
  }

  /**
   * Every field with a leading mantissa digit other than zero and a one-digit
   * exponent is what float_to_scinot writes for the value v it stands for.
   */
  lemma {:induction false} ScinotExact(negative: bool, m: nat, e: int, v: real)
    requires 10000 <= m <= 99999 && -9 <= e <= 9
    requires v == if negative then -Scale(m as real, e - 5) else Scale(m as real, e - 5)
    ensures SciRepresentable(v) && FloatToScinot(v) == ScinotField(negative, m, e)
  {
    FieldMagnitude(negative, m, e, v);
    ExactDigits(m, e, Abs(Tenfold(v)));
    FloatToScinotNonZero(v, m, e);
  }

  /** Ten times a field's value is its mantissa scaled by e - 4, with the field's sign. */
  lemma {:induction false} FieldMagnitude(negative: bool, m: nat, e: int, v: real)
    requires 10000 <= m
    requires v == if negative then -Scale(m as real, e - 5) else Scale(m as real, e - 5)
    ensures v != 0.0 && (v < 0.0 <==> negative) && Abs(Tenfold(v)) == Scale(m as real, e - 4)
  {
    ScaleSign(m as real, e - 5);
    ScaleStep(m as real, e - 5);
  }

  /** The "e" format finds exponent e and digits m again in m * 10^(e - 4). */
  lemma {:induction false} ExactDigits(m: nat, e: int, y: real)
    requires 10000 <= m <= 99999 && -9 <= e <= 9 && y == Scale(m as real, e - 4)
    ensures y >= 0.0 && SciExponent(y) == e && SciMantissa(y) == m
  {
    FindExponentOf(m, e, MinExponent);
    ScaleCompose(m as real, e - 4, 4 - e);
  }

  /** The test values of utils.py's scientific-notation codec: 0.1 is " 10000-0". */
  lemma ScinotEncodeTenth()
    ensures FloatToScinot(0.1) == " 10000-0"
  {
    TenthValue();
    ScinotExact(false, 10000, 0, 0.1);
    TenthField();
  }

  lemma ScinotDecodeTenth()
    ensures ScinotToFloat(" 10000-0") == Some(0.1)
  {
    TenthValue();
    ScinotFieldValue(false, 10000, 0, 0.1);
    TenthField();
  }

  lemma TenthValue()
    ensures Scale(10000.0, 0 - 5) == 0.1
  {
    assert Scale(10000.0, -5) == 0.1;
  }

  lemma TenthField()
    ensures ScinotField(false, 10000, 0) == " 10000-0"
  {
    assert Digits(10000, 5) == "10000";
  }

  /** Zero is " 00000-0" both ways. */
  lemma ScinotEncodeZero()
    ensures FloatToScinot(0.0) == " 00000-0"
  {
    FloatToScinotZero();
  }

  lemma ScinotDecodeZero()
    ensures ScinotToFloat(" 00000-0") == Some(0.0)
  {
    ScaleOfZero(-5);
    ScinotFieldValue(false, 0, 0, 0.0);
    ZeroField();
  }

  lemma ZeroField()
    ensures ScinotField(false, 0, 0) == " 00000-0"
  {
    assert Digits(0, 5) == "00000";
  }

  /** 0.16538e-3 is " 16538-3" both ways. */
  lemma ScinotEncodeSmall()
    ensures FloatToScinot(0.00016538) == " 16538-3"
  {
    SmallValue();
    ScinotExact(false, 16538, -3, 0.00016538);
    SmallField();
  }

  lemma ScinotDecodeSmall()
    ensures ScinotToFloat(" 16538-3") == Some(0.00016538)
  {
    SmallValue();
    ScinotFieldValue(false, 16538, -3, 0.00016538);
    SmallField();
  }

  lemma SmallValue()
    ensures Scale(16538.0, -3 - 5) == 0.00016538
  {
    assert Scale(16538.0, -8) == 0.00016538;
  }

  lemma SmallField()
    ensures ScinotField(false, 16538, -3) == " 16538-3"
  {
    assert Digits(16538, 5) == "16538";
  }

  /** A '+' in the sign column reads like a space: "+12345-1" is 0.012345. */
  lemma ScinotDecodePlusSign()
    ensures ScinotToFloat("+12345-1") == Some(0.012345)
  {
    PlusSignValue();
    ScinotFieldRead('+', 12345, '-', 1, 0.012345);
    PlusSignField();
  }

  lemma PlusSignValue()
    ensures Scale(12345.0, -1 - 5) == 0.012345
  {
    assert Scale(12345.0, -6) == 0.012345;
  }

  lemma PlusSignField()
    ensures ['+'] + Digits(12345, 5) + ['-', DigitChar(1)] == "+12345-1"
  {
    assert Digits(12345, 5) == "12345";
  }

  /** The "+0" exponent that float_to_scinot never writes still reads: " 00000+0" is 0.0. */
  lemma ScinotDecodePlusZero()
    ensures ScinotToFloat(" 00000+0") == Some(0.0)
  {
    ScaleOfZero(0 - 5);
    ScinotFieldRead(' ', 0, '+', 0, 0.0);
    assert [' '] + Digits(0, 5) + ['+', DigitChar(0)] == " 00000+0";
  }

  /** A positive exponent: "-31416+1" is -3.1416. */
  lemma ScinotDecodePositiveExponent()
    ensures ScinotToFloat("-31416+1") == Some(-3.1416)
  {
    PositiveExponentValue();
    ScinotFieldRead('-', 31416, '+', 1, 3.1416);
    PositiveExponentField();
  }

  lemma PositiveExponentValue()
    ensures Scale(31416.0, 1 - 5) == 3.1416
  {
    assert Scale(31416.0, -4) == 3.1416;
  }

  lemma PositiveExponentField()
    ensures ['-'] + Digits(31416, 5) + ['+', DigitChar(1)] == "-31416+1"
  {
    assert Digits(31416, 5) == "31416";
  }

  // ---------------------------------------------------------------------------
  // The seven-digit fraction codec

  /** Seven digits read after an implied point: EToFloat("ddddddd") is ddddddd / 10^7. */
  lemma {:induction false} EFieldValue(s: string, a: real)
    requires |s| > 0 && AllDigits(s) && a == Shifted(ParseNat(s), |s|)
    ensures EToFloat(s) == Some(a)
  {
    ParseMantissaPoint(s, a);
    PointAvoidsExponent(s);
    ParseUnsignedNoExponent("." + s);
    PointTrimmed(s);
    ParseFloatUnsigned("." + s);
  }

  lemma {:induction false} PointTrimmed(s: string)
    requires |s| > 0 && AllDigits(s)
    ensures Trimmed("." + s) && ("." + s)[0] == '.'
  {
    assert ("." + s)[|s|] == s[|s| - 1];
  }

  /** Fewer than eight digits: the "f" format pads u to exactly eight digits. */
  lemma {:induction false} PaddedSeven(u: nat)
    requires u < 10000000
    ensures PaddedDigits(u, 7) == Digits(u, 8)
  {
    assert Pow10(7) == 10000000;
    if NumDigits(u) > 8 {
      Pow10Monotone(7, NumDigits(u) - 1);
    }
  }

  /** Below 10^7 units, float_to_e writes the seven digits of the rounded value. */
  lemma {:induction false} FloatToEDigits(v: real, u: nat)
    requires v >= 0.0 && u == FixedUnits(v, 7) && u < 10000000
    ensures FloatToE(v) == Digits(u, 7)
  {
    PaddedSeven(u);
    assert Pow10(7) == 10000000;
    DigitsWiden(u, 7);
    var ds := Digits(u, 8);
    assert FormatFixed(v, 7, 0, false) == ds[..1] + "." + ds[1..];
  }

  /** Every seven-digit field is written back unchanged after it is read. */
  lemma {:induction false} EFieldRoundTrip(s: string, v: real)
    requires |s| == 7 && AllDigits(s) && v == Shifted(ParseNat(s), 7)
    ensures EToFloat(s) == Some(v) && FloatToE(v) == s
  {
    EFieldValue(s, v);
    FixedValueExact(ParseNat(s), 7);
    Div10Monotone(0.0, ParseNat(s) as real, 7);
    ScaleZero(7);
    assert Pow10(7) == 10000000;
    FloatToEDigits(v, ParseNat(s));
    DigitsOfParse(s);
  }

  /** Values in [0, 0.99999995) keep seven decimals: float_to_e then e_to_float is off by at most 5e-8. */
  lemma {:induction false} ERoundTrip(v: real)
    requires 0.0 <= v < 0.99999995
    ensures |FloatToE(v)| == 7 && EToFloat(FloatToE(v)) == Some(FixedValue(v, 7))
    ensures -0.00000005 <= FixedValue(v, 7) - v <= 0.00000005
  {
    ERead(v, FixedUnits(v, 7));
    EClose(v, FixedValue(v, 7));
  }

  /** Below 0.99999995 the seven written digits read back as the value rounded to seven decimals. */
  lemma {:induction false} ERead(v: real, u: nat)
    requires 0.0 <= v < 0.99999995 && u == FixedUnits(v, 7)
    ensures |FloatToE(v)| == 7 && EToFloat(FloatToE(v)) == Some(FixedValue(v, 7))
  {
    SevenPlaces(v);
    assert u < 10000000;
    FloatToEDigits(v, u);
    assert Pow10(7) == 10000000;
    DigitsRoundTrip(u, 7);
    assert FixedValue(v, 7) == Shifted(u, 7);
    EFieldValue(Digits(u, 7), FixedValue(v, 7));
  }

  /** Rounding to seven decimals moves a value by at most half a unit of the seventh. */
  lemma {:induction false} EClose(v: real, w: real)
    requires w == FixedValue(v, 7)
    ensures -0.00000005 <= w - v <= 0.00000005
  {
    FixedValueClose(v, 7);
    SevenPlaces(w - v);
  }

  lemma SevenPlaces(x: real)
    ensures Times10(x, 7) == 10000000.0 * x
  {
    assert Times10(x, 1) == 10.0 * x;
    assert Times10(x, 2) == 100.0 * x;
    assert Times10(x, 3) == 1000.0 * x;
    assert Times10(x, 4) == 10000.0 * x;
    assert Times10(x, 5) == 100000.0 * x;
    assert Times10(x, 6) == 1000000.0 * x;
  }

  /** From 0.99999995 up to 1 the rounding carries into the units digit, which float_to_e cuts off. */
  lemma {:induction false} ECarry(v: real)
    requires 0.99999995 <= v <= 1.0
    ensures FloatToE(v) == "0000000" && EToFloat(FloatToE(v)) == Some(0.0)
  {
    CarryUnits(v);
    CarryText();
    CarryCut(FormatFixed(v, 7, 0, false));
    ZerosValue();
  }

  /** The last seven characters of "1.0000000". */
  lemma CarryCut(t: string)
    requires t == "1.0000000"
    ensures t[|t| - Min(7, |t|)..] == "0000000"
  {
  }

  lemma {:induction false} CarryUnits(v: real)
    requires 0.99999995 <= v <= 1.0
    ensures FixedUnits(v, 7) == 10000000
  {
    SevenPlaces(v);
  }

  lemma CarryText()
    ensures PointDigits(10000000, 7) == "1.0000000"
  {
    CarryDigits();
    var ds := "10000000";
    assert ds[..1] + "." + ds[1..] == "1.0000000";
  }

  lemma CarryDigits()
    ensures PaddedDigits(10000000, 7) == "10000000"
  {
    CarryWidth();
    CarryEight();
  }

  lemma CarryWidth()
    ensures NumDigits(10000000) == 8
  {
    assert NumDigits(10) == 2;
    assert NumDigits(10000) == 5;
  }

  lemma CarryEight()
    ensures Digits(10000000, 8) == "10000000"
  {
    assert Digits(1, 1) == "1";
    assert Digits(10, 2) == "10";
    assert Digits(100, 3) == "100";
    assert Digits(1000, 4) == "1000";
    assert Digits(10000, 5) == "10000";
    assert Digits(100000, 6) == "100000";
    assert Digits(1000000, 7) == "1000000";
  }

  lemma ZerosValue()
    ensures EToFloat("0000000") == Some(0.0)
  {
    assert Digits(0, 7) == "0000000";
    assert Pow10(7) == 10000000;
    DigitsRoundTrip(0, 7);
    ScaleZero(7);
    EFieldValue("0000000", 0.0);
  }

  /** float_to_e drops the sign: -v and v give the same seven characters. */
  lemma {:induction false} ESignDropped(v: real)
    ensures FloatToE(-v) == FloatToE(v)
  {
    if v < 0.0 {
      ENegativeCut(-v);
      assert -(-v) == v;
    } else if v > 0.0 {
      ENegativeCut(v);
    }
  }

  /** For x > 0 the "f" format of -x is '-' before that of x, and the last seven characters agree. */
  lemma {:induction false} ENegativeCut(x: real)
    requires x > 0.0
    ensures FloatToE(-x) == FloatToE(x)
  {
    var p := PointDigits(FixedUnits(x, 7), 7);
    assert FixedUnits(-x, 7) == FixedUnits(x, 7);
    assert |p| >= 9;
    assert FormatFixed(-x, 7, 0, false) == "-" + p && FormatFixed(x, 7, 0, false) == p;
    LastSevenAfterSign(p);
  }

  lemma LastSevenAfterSign(p: string)
    requires |p| >= 7
    ensures ("-" + p)[|"-" + p| - Min(7, |"-" + p|)..] == p[|p| - Min(7, |p|)..]
  {
  }

  /** The test value of utils.py's fraction codec: "1234567" and 0.1234567. */
  lemma {:induction false} EExample(s: string, v: real)
    requires s == "1234567" && v == 0.1234567
    ensures EToFloat(s) == Some(v) && FloatToE(v) == s
  {
    EExampleDigits();
    EExampleValue(v);
    EFieldRoundTrip(s, v);
  }

  lemma EExampleDigits()
    ensures AllDigits("1234567") && ParseNat("1234567") == 1234567
  {
    assert Digits(12, 2) == "12";
    assert Digits(123, 3) == "123";
    assert Digits(1234, 4) == "1234";
    assert Digits(12345, 5) == "12345";
    assert Digits(123456, 6) == "123456";
    assert Digits(1234567, 7) == "1234567";
    DigitsRoundTrip(1234567, 7);
  }

  lemma {:induction false} EExampleValue(v: real)
    requires v == 0.1234567
    ensures v == Shifted(1234567, 7)
  {
    SevenPlaces(v);
    Times10Div10(v, 7);
  }
}
