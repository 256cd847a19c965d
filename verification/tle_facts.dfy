/**
 * What to_lines and parse_tle promise each other: every field to_lines writes
 * sits in the columns parse_tle reads it from, each line ends in its own
 * checksum digit, and reading the lines back gives the record again, each
 * value rounded to the precision of its field.
 */
module TleFacts {
  import opened Wrappers
  import opened Decimal
  import opened Scaling
  import opened PyText
  import opened PyTextFacts
  import opened Alpha5
  import opened Checksum
  import opened ImpliedDecimal
  import opened Calendar
  import opened Epoch
  import opened Tle

  // ---------------------------------------------------------------------------
  // The checksum digit

  /** The line's last character is the checksum digit of everything before it. */
  predicate ChecksumHolds(line: string)
  {
    |line| > 0 && line[|line| - 1] == ChecksumChar(line[..|line| - 1])
  }

  /** Appending str(compute_checksum(body)) keeps the body and makes the checksum hold. */
  lemma WithChecksumHolds(body: string)
    ensures |WithChecksum(body)| == |body| + 1 && WithChecksum(body)[..|body|] == body
    ensures ChecksumHolds(WithChecksum(body))
  {
    assert WithChecksum(body)[..|body|] == body;
  }

  /**
   * parse_tle reads the checksum column of line 1 only as a digit and never
   * compares it with the checksum: any two digits there give the same result.
   */
  lemma ParseLine1IgnoresChecksum(body: string, c1: char, c2: char, rest: string)
    requires |body| == 68 && IsDigit(c1) && IsDigit(c2)
    ensures ParseLine1(body + [c1] + rest) == ParseLine1(body + [c2] + rest)
  {
    var l, m := body + ([c1] + rest), body + ([c2] + rest);
    assert body + [c1] + rest == l && body + [c2] + rest == m;
    assert Line1Fields(l) == Line1Fields(m) by {
      assert l[2..7] == m[2..7] && l[9..17] == m[9..17] && l[18..32] == m[18..32] && l[33..43] == m[33..43];
      assert l[44..52] == m[44..52] && l[53..61] == m[53..61] && l[64..68] == m[64..68];
      assert l[7] == m[7] && l[62] == m[62];
    }
    assert At(l, 68) == Some(c1) && At(m, 68) == Some(c2);
    assert ParseInt([c1]).Some? && ParseInt([c2]).Some? by {
      ParseIntDigits([c1]);
      ParseIntDigits([c2]);
    }
  }

  /** parse_tle never reads line 2 past its first 68 columns: its checksum is not looked at. */
  lemma ParseLine2IgnoresChecksum(body: string, rest1: string, rest2: string)
    requires |body| == 68
    ensures ParseLine2(body + rest1) == ParseLine2(body + rest2)
  {
    var l, m := body + rest1, body + rest2;
    assert Line2Fields(l) == Line2Fields(m) by {
      assert l[2..7] == m[2..7] && l[8..16] == m[8..16] && l[17..25] == m[17..25] && l[26..33] == m[26..33];
      assert l[34..42] == m[34..42] && l[43..51] == m[43..51] && l[52..63] == m[52..63] && l[63..68] == m[63..68];
    }
  }

  // ---------------------------------------------------------------------------
  // Field widths

  /** f"{v:w.pf}" fills exactly w columns: the sign, the digits and the point fit. */
  predicate FixedFits(v: real, prec: nat, width: nat)
  {
    (if v < 0.0 then 1 else 0) + Max(NumDigits(FixedUnits(v, prec)), prec + 1) + 1 <= width
  }

  /** The values to_lines writes into line 1 without widening a field. */
  predicate Line1Fits(t: Tle)
  {
    0 <= t.catalog < 340000 && Valid(t.epoch) && |t.intlDes| == 8
    && FixedUnits(t.meanMotionDot, 8) < 100000000
    && SciRepresentable(t.meanMotionDdot) && SciRepresentable(t.bstar)
    && 0 <= t.elsetType <= 9 && 0 <= t.number <= 9999
  }

  /** The values to_lines writes into line 2 without widening a field, with an eccentricity below one. */
  predicate Line2Fits(t: Tle)
  {
    0 <= t.catalog < 340000
    && FixedFits(t.inclination, 4, 8) && FixedFits(t.raan, 4, 8)
    && 0.0 <= t.eccentricity < 0.99999995
    && FixedFits(t.perigee, 4, 8) && FixedFits(t.meanAnomaly, 4, 8)
    && FixedFits(t.meanMotion, 6, 11) && 0 <= t.rev <= 99999
  }

  /** Every catalog number below 340000 has a five-character Alpha-5 form. */
  lemma Alpha5Width(n: int)
    requires 0 <= n < 340000
    ensures NumberToAlpha5(n).Ok? && |NumberToAlpha5(n).value| == 5
  {
    if n < 10000 {
      SmallNumberNotReadable(n);
    } else {
      Alpha5RoundTrip(n);
    }
  }

  /** The fixed format of a value that fits its field takes up the whole field. */
  lemma FixedWidth(v: real, prec: nat, width: nat)
    requires FixedFits(v, prec, width)
    ensures |FormatFixed(v, prec, width, false)| == width
  {
    var sign := if v < 0.0 then "-" else "";
    PadLeftShape(sign + PointDigits(FixedUnits(v, prec), prec), width);
  }

  /** A natural number below 10^w takes exactly w columns when right-justified in w. */
  lemma FormatIntWidth(n: int, w: nat)
    requires w >= 1 && 0 <= n < Pow10(w)
    ensures |FormatInt(n, w)| == w
  {
    NumDigitsBelow(n, w);
    PadLeftShape(IntToString(n), w);
  }

  /** float_to_scinot writes eight characters for every value it represents faithfully. */
  lemma ScinotWidth(v: real)
    requires SciRepresentable(v)
    ensures |FloatToScinot(v)| == 8
  {
    if v == 0.0 {
      ZeroScinotField(v);
    } else {
      FloatToScinotNonZero(v, SciMantissa(Abs(Tenfold(v))), SciExponent(Abs(Tenfold(v))));
    }
  }

  /** A single digit is written as one character and read back. */
  lemma DigitText(n: int)
    requires 0 <= n <= 9
    ensures IntToString(n) == [DigitChar(n)] && ParseInt([DigitChar(n)]) == Some(n)
  {
    ParseIntDigits([DigitChar(n)]);
    assert [DigitChar(n)][..0] == [];
  }

  // ---------------------------------------------------------------------------
  // The first derivative of the mean motion

  /**
   * Below one in magnitude, the cut removes the '0' before the point: the text
   * is the sign column, '.', and eight decimals, and float() reads it back as
   * Md rounded to eight decimals.
   */
  lemma MeanMotionDotRoundTrip(md: real)
    requires FixedUnits(md, 8) < 100000000
    ensures |MeanMotionDotText(md)| == 10 && MeanMotionDotText(md)[1] == '.'
    ensures ParseFloat(MeanMotionDotText(md)) == Some(FixedValue(md, 8))
  {
    MeanMotionDotForm(md, FixedUnits(md, 8));
    MeanMotionDotValue(md, FixedUnits(md, 8));
  }

  /** Md's text when its magnitude rounds below one: the sign column, '.', and the eight decimals of u. */
  lemma MeanMotionDotForm(md: real, u: nat)
    requires u == FixedUnits(md, 8) && u < 100000000
    ensures MeanMotionDotText(md) == [if md < 0.0 then '-' else ' '] + ("." + Digits(u, 8))
  {
    PaddedEight(u);
    MeanMotionDotShape(md, u, Digits(u, 8));
  }

  /** float() of Md's text is Md rounded to eight decimals. */
  lemma MeanMotionDotValue(md: real, u: nat)
    requires u == FixedUnits(md, 8) && u < 100000000
    ensures ParseFloat(MeanMotionDotText(md)) == Some(FixedValue(md, 8))
  {
    assert MeanMotionDotText(md) == [if md < 0.0 then '-' else ' '] + ("." + Digits(u, 8)) by {
      MeanMotionDotForm(md, u);
    }
    assert Pow10(8) == 100000000;
    SignedPointValue(md, 8, u, if md < 0.0 then '-' else ' ', Shifted(u, 8));
  }

  /** The sign column c, '.', and the prec decimals of u, for u below 10^prec: float() reads v rounded to prec decimals. */
  lemma SignedPointValue(v: real, prec: nat, u: nat, c: char, a: real)
    requires prec > 0 && u == FixedUnits(v, prec) && u < Pow10(prec)
    requires c == (if v < 0.0 then '-' else ' ') && a == Shifted(u, prec)
    ensures ParseFloat([c] + ("." + Digits(u, prec))) == Some(FixedValue(v, prec))
  {
    assert ParseFloat([c] + ("." + Digits(u, prec))) == Some(if c == '-' then -a else a) by {
      SignedDigits(c, u, prec, a);
    }
    assert FixedValue(v, prec) == (if c == '-' then -a else a) by {
      FixedValueSign(v, prec, u, a);
    }
  }

  /** The sign column c, '.', and the prec decimals of u: float() reads u / 10^prec with the sign. */
  lemma SignedDigits(c: char, u: nat, prec: nat, a: real)
    requires (c == '-' || c == ' ') && prec > 0 && u < Pow10(prec) && a == Shifted(u, prec)
    ensures ParseFloat([c] + ("." + Digits(u, prec))) == Some(if c == '-' then -a else a)
  {
    var ds := Digits(u, prec);
    assert |ds| == prec && AllDigits(ds) && ParseNat(ds) == u by {
      DigitsRoundTrip(u, prec);
    }
    SignedPoint(c, ds, a);
  }

  /** Below 10^8 units the "f" format writes a zero and then the eight decimals. */
  lemma PaddedEight(u: nat)
    requires u < 100000000
    ensures PaddedDigits(u, 8) == "0" + Digits(u, 8)
  {
    assert Pow10(8) == 100000000;
    NumDigitsBelow(u, 8);
    DigitsWiden(u, 8);
  }

  /** Md's text, written out: the sign column, the point, then the eight decimals d8. */
  lemma MeanMotionDotShape(md: real, u: nat, d8: string)
    requires u == FixedUnits(md, 8) && |d8| == 8 && PaddedDigits(u, 8) == "0" + d8
    ensures MeanMotionDotText(md) == [if md < 0.0 then '-' else ' '] + ("." + d8)
  {
    var ds := PaddedDigits(u, 8);
    var sign := if md < 0.0 then "-" else " ";
    var s := FormatFixed(md, 8, 0, true);
    assert ds[..1] == "0" && ds[1..] == d8;
    assert s == sign + ("0" + "." + d8);
    assert Slice(s, 2, |s|) == "." + d8;
  }

  /** A sign column, a point and digits: float() reads the digits' value after the point, with the sign. */
  lemma SignedPoint(c: char, ds: string, a: real)
    requires (c == '-' || c == ' ') && |ds| > 0 && AllDigits(ds) && a == Shifted(ParseNat(ds), |ds|)
    ensures ParseFloat([c] + ("." + ds)) == Some(if c == '-' then -a else a)
  {
    PointField(ds, a);
    PointTrimmed(ds);
    ParseFloatSigned(c, "." + ds, a);
  }

  /** "." followed by digits: no whitespace at the ends, a point first, read as the digits' value after the point. */
  lemma PointField(ds: string, a: real)
    requires |ds| > 0 && AllDigits(ds) && a == Shifted(ParseNat(ds), |ds|)
    ensures ParseUnsignedFloat("." + ds) == Some(a)
  {
    ParseMantissaPoint(ds, a);
    PointAvoidsExponent(ds);
    ParseUnsignedNoExponent("." + ds);
  }
  // ---------------------------------------------------------------------------
  // Columns

  /** Line 1 laid out field by field: each field sits in the columns parse_tle cuts it from. */
  lemma {:induction false} Line1Layout(a5: string, cls: char, intl: string, ep: string, md: string,
                                       mdd: string, bs: string, ty: char, num: string, chk: char)
    requires |a5| == 5 && |intl| == 8 && |ep| == 14 && |md| == 10 && |mdd| == 8 && |bs| == 8 && |num| == 4
    ensures var line := "1 " + a5 + [cls] + " " + intl + " " + ep + " " + md + " " + mdd + " " + bs
                        + " " + [ty] + " " + num + [chk];
      |line| == 69 && At(line, 68) == Some(chk)
      && Line1Fields(line) == Fields1(a5, Some(cls), intl, ep, md, mdd, bs, Some(ty), num)
  {
    var line := "1 " + a5 + [cls] + " " + intl + " " + ep + " " + md + " " + mdd + " " + bs
                + " " + [ty] + " " + num + [chk];
    assert |line| == 69;
    assert line[2..7] == a5 && line[7] == cls && line[9..17] == intl && line[18..32] == ep;
    assert line[33..43] == md && line[44..52] == mdd && line[53..61] == bs;
    assert line[62] == ty && line[64..68] == num && line[68] == chk;
  }

  /** Line 2 laid out field by field: each field sits in the columns parse_tle cuts it from. */
  lemma {:induction false} Line2Layout(a5: string, i: string, r: string, e: string, p: string,
                                       mu: string, m: string, rev: string, chk: char)
    requires |a5| == 5 && |i| == 8 && |r| == 8 && |e| == 7 && |p| == 8 && |mu| == 8 && |m| == 11 && |rev| == 5
    ensures var line := "2 " + a5 + " " + i + " " + r + " " + e + " " + p + " " + mu + " " + m + rev + [chk];
      |line| == 69 && Line2Fields(line) == Fields2(a5, i, r, e, p, mu, m, rev)
  {
  }

  /** With every field at its width, to_lines' f-string for line 1 is the fields joined by single spaces. */
  lemma {:induction false} Line1Text(t: Tle, a5: string, ep: string, md: string, mdd: string, bs: string,
                                     ty: char, num: string)
    requires Valid(t.epoch) && |a5| == 5 && |ep| == 14 && |mdd| == 8 && |bs| == 8
    requires ep == DateTimeToEpoch(t.epoch) && md == MeanMotionDotText(t.meanMotionDot)
    requires mdd == FloatToScinot(t.meanMotionDdot) && bs == FloatToScinot(t.bstar)
    requires [ty] == IntToString(t.elsetType) && num == FormatInt(t.number, 4)
    ensures Line1Body(t, a5, 14) == "1 " + a5 + [t.classification] + " " + t.intlDes + " " + ep + " " + md
                                    + " " + mdd + " " + bs + " " + [ty] + " " + num
  {
    assert PadRight(a5, 5) == a5 && PadRight(ep, 14) == ep && PadRight(mdd, 8) == mdd && PadRight(bs, 8) == bs;
  }

  /** Line 1 with the epoch padded to 15 columns: every later field starts one column late. */
  lemma {:induction false} WideLine1Layout(a5: string, cls: char, intl: string, ep: string, md: string,
                                           mdd: string, bs: string, ty: char, num: string, chk: char)
    requires |a5| == 5 && |intl| == 8 && |ep| == 14 && |md| == 10 && |mdd| == 8 && |bs| == 8 && |num| == 4
    ensures var line := "1 " + a5 + [cls] + " " + intl + " " + (ep + " ") + " " + md + " " + mdd + " " + bs
                        + " " + [ty] + " " + num + [chk];
      |line| == 70 && Line1Fields(line).meanMotionDdot == " " + mdd[..7]
  {
  }

  /** to_lines' f-string for line 1 as written, with its 15-column epoch. */
  lemma {:induction false} WideLine1Text(t: Tle, a5: string, ep: string, md: string, mdd: string, bs: string,
                                         ty: char, num: string)
    requires Valid(t.epoch) && |a5| == 5 && |ep| == 14 && |mdd| == 8 && |bs| == 8
    requires ep == DateTimeToEpoch(t.epoch) && md == MeanMotionDotText(t.meanMotionDot)
    requires mdd == FloatToScinot(t.meanMotionDdot) && bs == FloatToScinot(t.bstar)
    requires [ty] == IntToString(t.elsetType) && num == FormatInt(t.number, 4)
    ensures Line1Body(t, a5, 15) == "1 " + a5 + [t.classification] + " " + t.intlDes + " " + (ep + " ") + " " + md
                                    + " " + mdd + " " + bs + " " + [ty] + " " + num
  {
    assert Spaces(1) == " ";
    assert PadRight(a5, 5) == a5 && PadRight(ep, 15) == ep + " " && PadRight(mdd, 8) == mdd && PadRight(bs, 8) == bs;
  }

  /** With every field at its width, to_lines' f-string for line 2 is the fields joined by single spaces. */
  lemma {:induction false} Line2Text(t: Tle, a5: string, e: string)
    requires |a5| == 5 && |e| == 7 && e == FloatToE(t.eccentricity)
    ensures Line2Body(t, a5) == "2 " + a5 + " " + FormatFixed(t.inclination, 4, 8, false)
      + " " + FormatFixed(t.raan, 4, 8, false) + " " + e
      + " " + FormatFixed(t.perigee, 4, 8, false) + " " + FormatFixed(t.meanAnomaly, 4, 8, false)
      + " " + FormatFixed(t.meanMotion, 6, 11, false) + FormatInt(t.rev, 5)
  {
    assert PadRight(a5, 5) == a5 && PadRight(e, 7) == e;
  }

  // ---------------------------------------------------------------------------
  // Reading the written lines back

  /** Line 1's conversions succeed when each field reads as the given value. */
  lemma {:induction false} ReadLine1Of(f: Fields1, cls: char, ty: char, c: int, e: DateTime, x: real, y: real, z: real,
                                       k: int, n: int)
    requires f.classification == Some(cls) && f.elsetType == Some(ty)
    requires Alpha5ToNumber(f.catalog) == Ok(c) && EpochToDateTime(f.epoch) == Ok(e)
    requires ParseFloat(f.meanMotionDot) == Some(x)
    requires ScinotToFloat(f.meanMotionDdot) == Some(y) && ScinotToFloat(f.bstar) == Some(z)
    requires ParseInt([ty]) == Some(k) && ParseInt(f.number) == Some(n)
    ensures ReadLine1(f) == Ok(Line1(c, cls, f.intlDes, e, x, y, z, k, n))
  {
  }

  /** Line 2's conversions succeed when each field reads as the given value. */
  lemma {:induction false} ReadLine2Of(f: Fields2, c: int, i: real, r: real, e: real, p: real, mu: real, m: real, n: int)
    requires Alpha5ToNumber(f.catalog) == Ok(c)
    requires ParseFloat(f.inclination) == Some(i) && ParseFloat(f.raan) == Some(r)
    requires EToFloat(f.eccentricity) == Some(e)
    requires ParseFloat(f.perigee) == Some(p) && ParseFloat(f.meanAnomaly) == Some(mu)
    requires ParseFloat(f.meanMotion) == Some(m) && ParseInt(f.rev) == Some(n)
    ensures ReadLine2(f) == Ok(Line2(c, i, r, e, p, mu, m, n))
  {
  }

  /** parse_tle reads line 2 of to_lines back: the numbers, each rounded to the decimals its field keeps. */
  lemma {:induction false} Line2ReadBack(t: Tle, a5: string)
    requires Line2Fits(t) && |a5| == 5 && Alpha5ToNumber(a5) == Ok(t.catalog)
    ensures ParseLine2(WithChecksum(Line2Body(t, a5)))
      == Ok(Line2(t.catalog, FixedValue(t.inclination, 4), FixedValue(t.raan, 4), FixedValue(t.eccentricity, 7),
                  FixedValue(t.perigee, 4), FixedValue(t.meanAnomaly, 4), FixedValue(t.meanMotion, 6), t.rev))
  {
    var e := FloatToE(t.eccentricity);
    assert |e| == 7 && EToFloat(e) == Some(FixedValue(t.eccentricity, 7)) by {
      ERoundTrip(t.eccentricity);
    }
    var i, r := FormatFixed(t.inclination, 4, 8, false), FormatFixed(t.raan, 4, 8, false);
    var p, mu := FormatFixed(t.perigee, 4, 8, false), FormatFixed(t.meanAnomaly, 4, 8, false);
    var m, rev := FormatFixed(t.meanMotion, 6, 11, false), FormatInt(t.rev, 5);
    assert |i| == 8 && |r| == 8 && |p| == 8 && |mu| == 8 && |m| == 11 && |rev| == 5 by {
      FixedWidth(t.inclination, 4, 8);
      FixedWidth(t.raan, 4, 8);
      FixedWidth(t.perigee, 4, 8);
      FixedWidth(t.meanAnomaly, 4, 8);
      FixedWidth(t.meanMotion, 6, 11);
      assert Pow10(5) == 100000;
      FormatIntWidth(t.rev, 5);
    }
    var body := Line2Body(t, a5);
    assert body == "2 " + a5 + " " + i + " " + r + " " + e + " " + p + " " + mu + " " + m + rev by {
      Line2Text(t, a5, e);
    }
    var chk := ChecksumChar(body);
    Line2Layout(a5, i, r, e, p, mu, m, rev, chk);
    assert ReadLine2(Fields2(a5, i, r, e, p, mu, m, rev))
      == Ok(Line2(t.catalog, FixedValue(t.inclination, 4), FixedValue(t.raan, 4), FixedValue(t.eccentricity, 7),
                  FixedValue(t.perigee, 4), FixedValue(t.meanAnomaly, 4), FixedValue(t.meanMotion, 6), t.rev)) by {
      FormatFixedRoundTrip(t.inclination, 4, 8, false);
      FormatFixedRoundTrip(t.raan, 4, 8, false);
      FormatFixedRoundTrip(t.perigee, 4, 8, false);
      FormatFixedRoundTrip(t.meanAnomaly, 4, 8, false);
      FormatFixedRoundTrip(t.meanMotion, 6, 11, false);
      ParseFormatInt(t.rev, 5);
      ReadLine2Of(Fields2(a5, i, r, e, p, mu, m, rev), t.catalog, FixedValue(t.inclination, 4), FixedValue(t.raan, 4),
                  FixedValue(t.eccentricity, 7), FixedValue(t.perigee, 4), FixedValue(t.meanAnomaly, 4),
                  FixedValue(t.meanMotion, 6), t.rev);
    }
  }

  /**
   * parse_tle reads line 1 of to_lines back: the text fields unchanged, Md
   * rounded to eight decimals, and the epoch, Mdd and B* as their own
   * encodings decode (e, y and z).
   */
  lemma {:induction false} Line1ReadBack(t: Tle, a5: string, e: DateTime, y: real, z: real)
    requires Line1Fits(t) && |a5| == 5 && Alpha5ToNumber(a5) == Ok(t.catalog)
    requires EpochToDateTime(DateTimeToEpoch(t.epoch)) == Ok(e)
    requires ScinotToFloat(FloatToScinot(t.meanMotionDdot)) == Some(y) && ScinotToFloat(FloatToScinot(t.bstar)) == Some(z)
    ensures ParseLine1(WithChecksum(Line1Body(t, a5, 14)))
      == Ok(Line1(t.catalog, t.classification, t.intlDes, e, FixedValue(t.meanMotionDot, 8), y, z, t.elsetType, t.number))
  {
    var ep, md := DateTimeToEpoch(t.epoch), MeanMotionDotText(t.meanMotionDot);
    var mdd, bs := FloatToScinot(t.meanMotionDdot), FloatToScinot(t.bstar);
    var ty, num := DigitChar(t.elsetType), FormatInt(t.number, 4);
    assert |ep| == 14 && |md| == 10 && |mdd| == 8 && |bs| == 8 && |num| == 4 by {
      EncodeShape(t.epoch);
      MeanMotionDotRoundTrip(t.meanMotionDot);
      ScinotWidth(t.meanMotionDdot);
      ScinotWidth(t.bstar);
      assert Pow10(4) == 10000;
      FormatIntWidth(t.number, 4);
    }
    assert IntToString(t.elsetType) == [ty] && ParseInt([ty]) == Some(t.elsetType) by {
      DigitText(t.elsetType);
    }
    var body := Line1Body(t, a5, 14);
    assert body == "1 " + a5 + [t.classification] + " " + t.intlDes + " " + ep + " " + md
                   + " " + mdd + " " + bs + " " + [ty] + " " + num by {
      Line1Text(t, a5, ep, md, mdd, bs, ty, num);
    }
    var chk := ChecksumChar(body);
    Line1Layout(a5, t.classification, t.intlDes, ep, md, mdd, bs, ty, num, chk);
    assert ReadLine1(Fields1(a5, Some(t.classification), t.intlDes, ep, md, mdd, bs, Some(ty), num))
      == Ok(Line1(t.catalog, t.classification, t.intlDes, e, FixedValue(t.meanMotionDot, 8), y, z, t.elsetType, t.number)) by {
      MeanMotionDotRoundTrip(t.meanMotionDot);
      ParseFormatInt(t.number, 4);
      ReadLine1Of(Fields1(a5, Some(t.classification), t.intlDes, ep, md, mdd, bs, Some(ty), num), t.classification, ty,
                  t.catalog, e, FixedValue(t.meanMotionDot, 8), y, z, t.elsetType, t.number);
    }
    assert ParseInt([chk]).Some? by {
      DigitText(ComputeChecksum(body));
    }
  }

  /** parse_tle of the two lines that to_lines writes, given what each line reads back as. */
  lemma {:induction false} ParseWrittenLines(t: Tle, a5: string, e: DateTime, y: real, z: real)
    requires Line1Fits(t) && Line2Fits(t) && |a5| == 5 && Alpha5ToNumber(a5) == Ok(t.catalog)
    requires EpochToDateTime(DateTimeToEpoch(t.epoch)) == Ok(e)
    requires ScinotToFloat(FloatToScinot(t.meanMotionDdot)) == Some(y) && ScinotToFloat(FloatToScinot(t.bstar)) == Some(z)
    ensures ParseTle(WithChecksum(Line1Body(t, a5, 14)), WithChecksum(Line2Body(t, a5)))
      == Ok(Tle(t.catalog, t.classification, t.intlDes, e, FixedValue(t.meanMotionDot, 8), y, z, t.elsetType, t.number,
                FixedValue(t.inclination, 4), FixedValue(t.raan, 4), FixedValue(t.eccentricity, 7),
                FixedValue(t.perigee, 4), FixedValue(t.meanAnomaly, 4), FixedValue(t.meanMotion, 6), t.rev))
  {
    Line1ReadBack(t, a5, e, y, z);
    Line2ReadBack(t, a5);
  }

  /**
   * What reading a written record back gives: the catalog number, the text
   * fields and the integers unchanged, the epoch to within 432 microseconds,
   * Mdd and B* to five significant digits with their sign, and every other
   * number rounded to the decimals its field keeps.
   */
  predicate ReadsBackAs(t: Tle, r: Tle)
    requires Valid(t.epoch)
  {
    r.catalog == t.catalog && r.classification == t.classification && r.intlDes == t.intlDes
    && Valid(r.epoch) && -432 <= Instant(r.epoch) - Instant(t.epoch) <= 432
    && r.meanMotionDot == FixedValue(t.meanMotionDot, 8)
    && 20000.0 * Abs(r.meanMotionDdot - t.meanMotionDdot) <= Abs(r.meanMotionDdot)
    && (r.meanMotionDdot < 0.0 <==> t.meanMotionDdot < 0.0)
    && 20000.0 * Abs(r.bstar - t.bstar) <= Abs(r.bstar) && (r.bstar < 0.0 <==> t.bstar < 0.0)
    && r.elsetType == t.elsetType && r.number == t.number
    && r.inclination == FixedValue(t.inclination, 4) && r.raan == FixedValue(t.raan, 4)
    && r.eccentricity == FixedValue(t.eccentricity, 7) && r.perigee == FixedValue(t.perigee, 4)
    && r.meanAnomaly == FixedValue(t.meanAnomaly, 4) && r.meanMotion == FixedValue(t.meanMotion, 6)
    && r.rev == t.rev
  }

  /** The round trip, for the lines to_lines writes with the Alpha-5 field a5. */
  lemma {:induction false} WrittenReadsBack(t: Tle, a5: string)
    requires Line1Fits(t) && Line2Fits(t) && 1957 <= t.epoch.year <= 2056
    requires |a5| == 5 && Alpha5ToNumber(a5) == Ok(t.catalog)
    ensures ParseTle(WithChecksum(Line1Body(t, a5, 14)), WithChecksum(Line2Body(t, a5))).Ok?
    ensures ReadsBackAs(t, ParseTle(WithChecksum(Line1Body(t, a5, 14)), WithChecksum(Line2Body(t, a5))).value)
  {
    EpochRoundTrip(t.epoch);
    ScinotRoundTrip(t.meanMotionDdot);
    ScinotRoundTrip(t.bstar);
    var e := EpochToDateTime(DateTimeToEpoch(t.epoch)).value;
    var y, z := ScinotToFloat(FloatToScinot(t.meanMotionDdot)).value, ScinotToFloat(FloatToScinot(t.bstar)).value;
    var r := Tle(t.catalog, t.classification, t.intlDes, e, FixedValue(t.meanMotionDot, 8), y, z, t.elsetType, t.number,
                 FixedValue(t.inclination, 4), FixedValue(t.raan, 4), FixedValue(t.eccentricity, 7),
                 FixedValue(t.perigee, 4), FixedValue(t.meanAnomaly, 4), FixedValue(t.meanMotion, 6), t.rev);
    assert ReadsBackAs(t, r) by {
      RecordReadsBack(t, r, e, y, z);
    }
    assert ParseTle(WithChecksum(Line1Body(t, a5, 14)), WithChecksum(Line2Body(t, a5))) == Ok(r) by {
      ParseWrittenLines(t, a5, e, y, z);
    }
  }

  /** The record parse_tle builds from the written lines reads back as its source. */
  lemma {:induction false} RecordReadsBack(t: Tle, r: Tle, e: DateTime, y: real, z: real)
    requires Valid(t.epoch) && Valid(e) && -432 <= Instant(e) - Instant(t.epoch) <= 432
    requires 20000.0 * Abs(y - t.meanMotionDdot) <= Abs(y) && (y < 0.0 <==> t.meanMotionDdot < 0.0)
    requires 20000.0 * Abs(z - t.bstar) <= Abs(z) && (z < 0.0 <==> t.bstar < 0.0)
    requires r == Tle(t.catalog, t.classification, t.intlDes, e, FixedValue(t.meanMotionDot, 8), y, z, t.elsetType,
                      t.number, FixedValue(t.inclination, 4), FixedValue(t.raan, 4), FixedValue(t.eccentricity, 7),
                      FixedValue(t.perigee, 4), FixedValue(t.meanAnomaly, 4), FixedValue(t.meanMotion, 6), t.rev)
    ensures ReadsBackAs(t, r)
  {
  }

  /** The round trip of TLE.to_lines and parse_tle, for every record whose values fit their columns. */
  lemma {:induction false} ToLinesReadBack(t: Tle)
    requires Line1Fits(t) && Line2Fits(t) && 10000 <= t.catalog && 1957 <= t.epoch.year <= 2056
    ensures ToLines(t).Ok?
    ensures ParseTle(ToLines(t).value.0, ToLines(t).value.1).Ok?
    ensures ReadsBackAs(t, ParseTle(ToLines(t).value.0, ToLines(t).value.1).value)
  {
    Alpha5RoundTrip(t.catalog);
    WrittenReadsBack(t, NumberToAlpha5(t.catalog).value);
  }

  /**
   * to_lines as written pads the 14-character epoch to 15 columns: line 1 is
   * 70 characters long and each field after the epoch sits one column to the
   * right of where parse_tle cuts it. Mdd is then cut as a space and its first
   * seven characters, which scinot_to_float refuses, so parse_tle rejects
   * what to_lines writes for every record whose values fit their columns.
   */
  lemma {:induction false} AsWrittenUnreadable(t: Tle)
    requires Line1Fits(t)
    ensures ToLinesAsWritten(t).Ok? && |ToLinesAsWritten(t).value.0| == 70
    ensures ParseLine1(ToLinesAsWritten(t).value.0).Err?
    ensures ParseTle(ToLinesAsWritten(t).value.0, ToLinesAsWritten(t).value.1).Err?
  {
    Alpha5Width(t.catalog);
    var a5 := NumberToAlpha5(t.catalog).value;
    var ep, md := DateTimeToEpoch(t.epoch), MeanMotionDotText(t.meanMotionDot);
    var mdd, bs := FloatToScinot(t.meanMotionDdot), FloatToScinot(t.bstar);
    var ty, num := DigitChar(t.elsetType), FormatInt(t.number, 4);
    assert |ep| == 14 && |md| == 10 && |mdd| == 8 && |bs| == 8 && |num| == 4 by {
      EncodeShape(t.epoch);
      MeanMotionDotRoundTrip(t.meanMotionDot);
      ScinotWidth(t.meanMotionDdot);
      ScinotWidth(t.bstar);
      assert Pow10(4) == 10000;
      FormatIntWidth(t.number, 4);
    }
    assert IntToString(t.elsetType) == [ty] by {
      DigitText(t.elsetType);
    }
    var body := Line1Body(t, a5, 15);
    assert body == "1 " + a5 + [t.classification] + " " + t.intlDes + " " + (ep + " ") + " " + md
                   + " " + mdd + " " + bs + " " + [ty] + " " + num by {
      WideLine1Text(t, a5, ep, md, mdd, bs, ty, num);
    }
    WideLine1Layout(a5, t.classification, t.intlDes, ep, md, mdd, bs, ty, num, ChecksumChar(body));
    assert ToLinesAsWritten(t).value.0 == WithChecksum(body);
    assert ScinotToFloat(Line1Fields(WithChecksum(body)).meanMotionDdot) == None by {
      ShiftedScinotUnreadable(t.meanMotionDdot);
    }
    Line1Refused(WithChecksum(body), ToLinesAsWritten(t).value.1);
  }

  /** A line 1 whose Mdd field scinot_to_float refuses is refused by parse_tle, whatever line 2 holds. */
  lemma {:induction false} Line1Refused(l1: string, l2: string)
    requires ScinotToFloat(Line1Fields(l1).meanMotionDdot) == None
    ensures ParseLine1(l1).Err? && ParseTle(l1, l2).Err?
  {
  }
}
