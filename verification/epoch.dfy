/**
 * The epoch field of a TLE, "YYDDD.dddddddd": the last two digits of the
 * year, the 1-based day of the year and eight decimals of the fraction of the
 * day. Two-digit years 57..99 are the 1900s and 00..56 the 2000s. One unit of
 * the last decimal is 1e-8 day, 864 microseconds.
 */
module Epoch {
  import opened Wrappers
  import opened Decimal
  import opened Scaling
  import opened PyText
  import opened PyTextFacts
  import opened Calendar

  /** Why epoch_to_datetime raises: int() or float() rejects its slice, or the date leaves years 1..9999. */
  datatype EpochError = BadYear | BadDay | Overflow

  /** The year a two-digit TLE year stands for. */
  function CenturyYear(yy: int): int
  {
    var y := yy + 1900;
    if y < 1957 then y + 100 else y
  }

  /** January 1 of `year`, plus `micros` microseconds. */
  datatype Offset = Offset(year: int, micros: int)

  /**
   * The parsing half of epoch_to_datetime: the year from the first two
   * characters, and (day - 1) days, the day being float() of characters 2..13,
   * rounded to the microsecond half to even as timedelta does.
   */
  function EpochOffset(s: string): Result<Offset, EpochError>
  {
    match ParseInt(Slice(s, 0, 2))
    case None => Err(BadYear)
    case Some(yy) =>
      match ParseFloat(Slice(s, 2, 14))
      case None => Err(BadDay)
      case Some(day) => Ok(Offset(CenturyYear(yy), RoundHalfEven((day - 1.0) * 86400000000.0)))
  }

  /** epoch_to_datetime: January 1 of the year plus the offset, where Python can represent it. */
  function EpochToDateTime(s: string): Result<DateTime, EpochError>
  {
    var o :- EpochOffset(s);
    OrError(AddMicros(DateTime(o.year, 1, 1, 0), o.micros), Overflow)
  }

  /** int(strftime("%y%j")): the year's last two digits, then the day of the year in three. */
  function YearDay(t: DateTime): int
    requires 1 <= t.month <= 12
  {
    (t.year % 100) * 1000 + DayOfYear(t)
  }

  /** The number datetime_to_epoch formats: YYDDD plus the elapsed fraction of the day. */
  function EpochValue(t: DateTime): real
    requires 1 <= t.month <= 12
  {
    YearDay(t) as real + t.micro as real / 86400000000.0
  }

  /** datetime_to_epoch: the epoch number with eight decimals, zero-padded to 14 characters. */
  function DateTimeToEpoch(t: DateTime): string
    requires 1 <= t.month <= 12
  {
    FormatFixedZero(EpochValue(t), 8, 14)
  }

  /** The thirteen digits datetime_to_epoch writes, as one number: YYDDD, then the time of day in ticks rounded half to even. */
  function EpochUnits(t: DateTime): int
    requires 1 <= t.month <= 12
  {
    YearDay(t) * 100000000 + RoundHalfEven(t.micro as real / 864.0)
  }

  // ---------------------------------------------------------------------------
  // The year window

  /** Two-digit years 57..99 are 1957..1999 and 00..56 are 2000..2056; the last two digits are kept. */
  lemma CenturyWindow(yy: int)
    requires 0 <= yy <= 99
    ensures 1957 <= CenturyYear(yy) <= 2056 && CenturyYear(yy) % 100 == yy
    ensures CenturyYear(yy) >= 2000 <==> yy <= 56
  {
  }

  /** Every year of the window is found again from its last two digits. */
  lemma CenturyOfYear(y: int)
    requires 1957 <= y <= 2056
    ensures CenturyYear(y % 100) == y
  {
  }

  // ---------------------------------------------------------------------------
  // Encoding

  /** A value below 10^13 units of 1e-8 takes at most thirteen digits. */
  lemma {:induction false} ThirteenDigits(u: nat)
    requires u < 10000000000000
    ensures NumDigits(u) <= 13
  {
    assert Pow10(13) == 10000000000000;
    if NumDigits(u) > 13 {
      Pow10Monotone(13, NumDigits(u) - 1);
    }
  }

  /** The zero fill of f"{v:014.8f}" goes in front of the w digits printed for u. */
  lemma {:induction false} ZeroFilled(v: real, u: nat, w: nat)
    requires v >= 0.0 && FixedUnits(v, 8) == u && w == Max(NumDigits(u), 9) && w <= 13
    ensures FormatFixedZero(v, 8, 14) == Zeros(13 - w) + Digits(u, w)[..w - 8] + "." + Digits(u, w)[w - 8..]
  {
    assert PaddedDigits(u, 8) == Digits(u, w);
    if w == 13 {
      assert Zeros(0) == "";
    }
  }

  lemma {:induction false} CutThirteen(z: string, ds: string, w: nat)
    requires 9 <= w <= 13 && |z| == 13 - w && |ds| == w
    ensures z + ds[..w - 8] + "." + ds[w - 8..] == (z + ds)[..5] + "." + (z + ds)[5..]
  {
    assert (z + ds)[..5] == z + ds[..w - 8];
    assert (z + ds)[5..] == ds[w - 8..];
  }

  /** f"{v:014.8f}" for 0 <= v < 10^5: the thirteen digits of the rounded value, with a point before the last eight. */
  lemma {:induction false} FixedZeroText(v: real, u: nat)
    requires v >= 0.0 && FixedUnits(v, 8) == u && u < 10000000000000
    ensures FormatFixedZero(v, 8, 14) == Digits(u, 13)[..5] + "." + Digits(u, 13)[5..]
  {
    ThirteenDigits(u);
    var w := Max(NumDigits(u), 9);
    ZeroFilled(v, u, w);
    Pow10Monotone(NumDigits(u), w);
    ZerosWiden(u, w, 13 - w);
    CutThirteen(Zeros(13 - w), Digits(u, w), w);
  }

  /** Adding an even integer commutes with rounding half to even. */
  lemma RoundShift(n: int, x: real)
    requires n % 2 == 0
    ensures RoundHalfEven(n as real + x) == n + RoundHalfEven(x)
  {
    assert (n as real + x).Floor == n + x.Floor;
  }

  lemma EightPlaces(x: real)
    ensures Times10(x, 8) == 100000000.0 * x
  {
    assert Times10(x, 1) == 10.0 * x;
    assert Times10(x, 2) == 100.0 * x;
    assert Times10(x, 3) == 1000.0 * x;
    assert Times10(x, 4) == 10000.0 * x;
    assert Times10(x, 5) == 100000.0 * x;
    assert Times10(x, 6) == 1000000.0 * x;
    assert Times10(x, 7) == 10000000.0 * x;
  }

  /** The rounded epoch, in units of 1e-8 day, is YYDDD followed by the time of day in ticks. */
  lemma {:induction false} EpochUnitsValue(t: DateTime)
    requires Valid(t)
    ensures FixedUnits(EpochValue(t), 8) == EpochUnits(t)
    ensures 0 <= EpochUnits(t) < 10000000000000
  {
    var v := EpochValue(t);
    var n := YearDay(t) * 100000000;
    var x := t.micro as real / 864.0;
    EightPlaces(v);
    assert 100000000.0 * v == n as real + x;
    RoundShift(n, x);
    MonthsWithinYear(t.year, t.month);
    assert 0.0 <= x < 100000000.0;
  }

  /** datetime_to_epoch writes the thirteen digits of EpochUnits with a point before the last eight. */
  lemma {:induction false} EncodeDigits(t: DateTime)
    requires Valid(t)
    ensures DateTimeToEpoch(t) == Digits(EpochUnits(t), 13)[..5] + "." + Digits(EpochUnits(t), 13)[5..]
  {
    EpochUnitsValue(t);
    FixedZeroText(EpochValue(t), EpochUnits(t));
  }

  /** The encoded epoch always fills the fourteen columns of its field, with the point in column 5. */
  lemma {:induction false} EncodeShape(t: DateTime)
    requires Valid(t)
    ensures |DateTimeToEpoch(t)| == 14 && DateTimeToEpoch(t)[5] == '.'
  {
    EncodeDigits(t);
  }

  // ---------------------------------------------------------------------------
  // Decoding

  /** The day number and its eight decimals, times a day in microseconds, are exact. */
  lemma {:induction false} DayMicrosOf(n: nat, x: real)
    requires x == Shifted(n, 8)
    ensures RoundHalfEven((x - 1.0) * 86400000000.0) == 864 * n - 86400000000
  {
    Times10Div10(n as real, 8);
    EightPlaces(x);
    assert (x - 1.0) * 86400000000.0 == (864 * n - 86400000000) as real;
  }

  /** int() of the first two characters. */
  lemma {:induction false} ReadYear(a: string, fs: string)
    requires |a| == 5 && AllDigits(a)
    ensures ParseInt(Slice(a + "." + fs, 0, 2)) == Some(ParseNat(a[..2]))
  {
    var s := a + "." + fs;
    SliceInRange(s, 0, 2);
    assert s[..2] == a[..2];
    SplitDigits(a, 2);
    ParseIntDigits(a[..2]);
  }

  /** float() of characters 2..13: DDD.dddddddd, as an exact decimal. */
  lemma {:induction false} ReadDay(a: string, fs: string, x: real)
    requires |a| == 5 && |fs| == 8 && AllDigits(a) && AllDigits(fs)
    requires x == Shifted(ParseNat(a[2..] + fs), 8)
    ensures ParseFloat(Slice(a + "." + fs, 2, 14)) == Some(x)
  {
    var s := a + "." + fs;
    SliceInRange(s, 2, 14);
    assert s[2..14] == a[2..] + "." + fs;
    SplitDigits(a, 2);
    ParseDecimalLiteral(a[2..], fs);
  }

  /** The two parse steps of epoch_to_datetime, once each has been evaluated. */
  lemma DecodeSteps(s: string, yy: int, x: real)
    requires ParseInt(Slice(s, 0, 2)) == Some(yy) && ParseFloat(Slice(s, 2, 14)) == Some(x)
    ensures EpochOffset(s) == Ok(Offset(CenturyYear(yy), RoundHalfEven((x - 1.0) * 86400000000.0)))
  {
  }

  /** Five digits, '.', eight digits: January 1 of the windowed year plus the last eleven digits in ticks, less a day. */
  lemma {:induction false} DecodePoint(a: string, fs: string, yy: int, n: nat, x: real)
    requires |a| == 5 && |fs| == 8 && AllDigits(a) && AllDigits(fs)
    requires AllDigits(a[..2]) && yy == ParseNat(a[..2])
    requires AllDigits(a[2..] + fs) && n == ParseNat(a[2..] + fs) && x == Shifted(n, 8)
    ensures EpochOffset(a + "." + fs) == Ok(Offset(CenturyYear(yy), 864 * n - 86400000000))
  {
    ReadYear(a, fs);
    ReadDay(a, fs, x);
    DecodeSteps(a + "." + fs, yy, x);
    DayMicrosOf(n, x);
  }

  /** DecodePoint, with the offset given as a value equal to the one it computes. */
  lemma {:induction false} DecodeJoined(a: string, fs: string, yy: int, n: nat, micros: int)
    requires |a| == 5 && |fs| == 8 && AllDigits(a) && AllDigits(fs)
    requires AllDigits(a[..2]) && yy == ParseNat(a[..2])
    requires AllDigits(a[2..] + fs) && n == ParseNat(a[2..] + fs) && micros == 864 * n - 86400000000
    ensures EpochOffset(a + "." + fs) == Ok(Offset(CenturyYear(yy), micros))
  {
    DecodePoint(a, fs, yy, n, Shifted(n, 8));
  }

  lemma {:induction false} DayValue(ds: string, fs: string)
    requires |fs| == 8 && AllDigits(ds) && AllDigits(fs)
    ensures AllDigits(ds + fs)
    ensures 864 * ParseNat(ds + fs) - 86400000000 == (ParseNat(ds) - 1) * 86400000000 + 864 * ParseNat(fs)
  {
    ParseNatAppend(ds, fs);
    assert Pow10(8) == 100000000;
  }

  /**
   * epoch_to_datetime on a well-formed field "YYDDD.dddddddd": January 1 of
   * the windowed year YY, plus DDD - 1 days, plus dddddddd ticks of 864
   * microseconds, with nothing lost to rounding.
   */
  lemma {:induction false} DecodeFields(a: string, fs: string, yy: nat, day: nat, ticks: nat)
    requires |a| == 5 && |fs| == 8 && AllDigits(a) && AllDigits(fs)
    requires AllDigits(a[..2]) && AllDigits(a[2..])
    requires yy == ParseNat(a[..2]) && day == ParseNat(a[2..]) && ticks == ParseNat(fs)
    ensures EpochOffset(a + "." + fs) == Ok(Offset(CenturyYear(yy), (day - 1) * 86400000000 + 864 * ticks))
  {
    assert AllDigits(a[2..] + fs) && 864 * ParseNat(a[2..] + fs) - 86400000000 == (day - 1) * 86400000000 + 864 * ticks by {
      DayValue(a[2..], fs);
    }
    DecodeJoined(a, fs, yy, ParseNat(a[2..] + fs), (day - 1) * 86400000000 + 864 * ticks);
  }

  /**
   * epoch_to_datetime of "YYDDD.dddddddd": January 1 of the windowed year plus
   * (DDD - 1) days and 864 microseconds per unit of the eighth decimal, or
   * Overflow when that leaves years 1..9999.
   */
  lemma {:induction false} DecodeMoment(a: string, fs: string, yy: nat, day: nat, ticks: nat, year: int, micros: int)
    requires |a| == 5 && |fs| == 8 && AllDigits(a) && AllDigits(fs)
    requires AllDigits(a[..2]) && AllDigits(a[2..])
    requires yy == ParseNat(a[..2]) && day == ParseNat(a[2..]) && ticks == ParseNat(fs)
    requires year == CenturyYear(yy) && micros == (day - 1) * 86400000000 + 864 * ticks
    ensures EpochToDateTime(a + "." + fs) == OrError(AddMicros(DateTime(year, 1, 1, 0), micros), Overflow)
  {
    var o := Offset(year, micros);
    assert Offset(CenturyYear(yy), (day - 1) * 86400000000 + 864 * ticks) == o;
    DecodeFields(a, fs, yy, day, ticks);
    DecodeOffset(a + "." + fs, o);
  }

  /** epoch_to_datetime adds the offset it parsed to January 1. */
  lemma {:induction false} DecodeOffset(s: string, o: Offset)
    requires EpochOffset(s) == Ok(o)
    ensures EpochToDateTime(s) == OrError(AddMicros(DateTime(o.year, 1, 1, 0), o.micros), Overflow)
  {
  }

  /** The thirteen digits of u read back as the two-digit year and the remaining eleven digits. */
  lemma {:induction false} ThirteenValue(u: nat)
    requires u < 10000000000000
    ensures AllDigits(Digits(u, 13)[..5][..2]) && AllDigits(Digits(u, 13)[..5][2..] + Digits(u, 13)[5..])
    ensures ParseNat(Digits(u, 13)[..5][..2]) == u / 100000000000
    ensures ParseNat(Digits(u, 13)[..5][2..] + Digits(u, 13)[5..]) == u % 100000000000
  {
    var d := Digits(u, 13);
    assert Pow10(13) == 10000000000000;
    DigitsRoundTrip(u, 13);
    assert d[..5][..2] == d[..2] && d[..5][2..] + d[5..] == d[2..];
    SplitDigits(d, 2);
    ParseNatAppend(d[..2], d[2..]);
    assert Pow10(11) == 100000000000;
  }

  /** Decoding thirteen digits with a point before the last eight. */
  lemma {:induction false} DecodeThirteen(u: nat)
    requires u < 10000000000000
    ensures EpochOffset(Digits(u, 13)[..5] + "." + Digits(u, 13)[5..])
      == Ok(Offset(CenturyYear(u / 100000000000), 864 * (u % 100000000000) - 86400000000))
  {
    SplitDigits(Digits(u, 13), 5);
    ThirteenValue(u);
    DecodePoint(Digits(u, 13)[..5], Digits(u, 13)[5..], u / 100000000000, u % 100000000000, Shifted(u % 100000000000, 8));
  }

  // ---------------------------------------------------------------------------
  // Round trip

  /**
   * Inside 1957..2056, decoding the encoded epoch gives back the same moment to
   * within half a tick: 432 microseconds.
   */
  lemma {:induction false} EpochRoundTrip(t: DateTime)
    requires Valid(t) && 1957 <= t.year <= 2056
    ensures EpochToDateTime(DateTimeToEpoch(t)).Ok? && Valid(EpochToDateTime(DateTimeToEpoch(t)).value)
    ensures -432 <= Instant(EpochToDateTime(DateTimeToEpoch(t)).value) - Instant(t) <= 432
  {
    RoundTripUnits(t, EpochUnits(t));
  }

  /** EpochRoundTrip, with the thirteen encoded digits as the number u. */
  lemma {:induction false} RoundTripUnits(t: DateTime, u: int)
    requires Valid(t) && 1957 <= t.year <= 2056 && u == EpochUnits(t)
    ensures EpochToDateTime(DateTimeToEpoch(t)).Ok? && Valid(EpochToDateTime(DateTimeToEpoch(t)).value)
    ensures -432 <= Instant(EpochToDateTime(DateTimeToEpoch(t)).value) - Instant(t) <= 432
  {
    assert 0 <= u < 10000000000000 by {
      EpochUnitsValue(t);
    }
    EncodedOffset(t, u);
    DecodedNear(t, u);
  }

  /** Reading back the windowed year and the ticks of t lands within half a tick of t. */
  lemma {:induction false} DecodedNear(t: DateTime, u: int)
    requires Valid(t) && 1957 <= t.year <= 2056 && u == EpochUnits(t)
    requires EpochOffset(DateTimeToEpoch(t)) == Ok(Offset(CenturyYear(u / 100000000000), 864 * (u % 100000000000) - 86400000000))
    ensures EpochToDateTime(DateTimeToEpoch(t)).Ok? && Valid(EpochToDateTime(DateTimeToEpoch(t)).value)
    ensures -432 <= Instant(EpochToDateTime(DateTimeToEpoch(t)).value) - Instant(t) <= 432
  {
    RoundTripDelta(t, u);
    CenturyOfYear(t.year);
  }

  /** epoch_to_datetime reads back, from what datetime_to_epoch writes, the windowed year and the eleven digits after it. */
  lemma {:induction false} EncodedOffset(t: DateTime, u: nat)
    requires Valid(t) && u == EpochUnits(t) && u < 10000000000000
    ensures EpochOffset(DateTimeToEpoch(t)) == Ok(Offset(CenturyYear(u / 100000000000), 864 * (u % 100000000000) - 86400000000))
  {
    assert EpochOffset(DateTimeToEpoch(t)) == EpochOffset(Digits(u, 13)[..5] + "." + Digits(u, 13)[5..]) by {
      EncodeDigits(t);
      OffsetOfEqual(DateTimeToEpoch(t), Digits(u, 13)[..5] + "." + Digits(u, 13)[5..]);
    }
    DecodeThirteen(u);
  }

  lemma OffsetOfEqual(s1: string, s2: string)
    requires s1 == s2
    ensures EpochOffset(s1) == EpochOffset(s2)
  {
  }

  lemma {:induction false} RoundTripDelta(t: DateTime, u: int)
    requires Valid(t) && 1957 <= t.year <= 2056 && u == EpochUnits(t)
    ensures u / 100000000000 == t.year % 100
    ensures AddMicros(DateTime(t.year, 1, 1, 0), 864 * (u % 100000000000) - 86400000000).Some?
    ensures Valid(AddMicros(DateTime(t.year, 1, 1, 0), 864 * (u % 100000000000) - 86400000000).value)
    ensures -432 <= Instant(AddMicros(DateTime(t.year, 1, 1, 0), 864 * (u % 100000000000) - 86400000000).value) - Instant(t) <= 432
  {
    var r := RoundHalfEven(t.micro as real / 864.0);
    TickClose(t.micro, r);
    MonthsWithinYear(t.year, t.month);
    UnitsSplit(t.year % 100, DayOfYear(t), r, u);
    InYearRange(t, DateTime(t.year, 1, 1, 0), 864 * (u % 100000000000) - 86400000000);
  }

  /** The time of day, rounded to ticks, is within half a tick of the exact time and at most a day of ticks. */
  lemma TickClose(micro: int, r: int)
    requires 0 <= micro < 86400000000 && r == RoundHalfEven(micro as real / 864.0)
    ensures 0 <= r <= 100000000 && -432 <= 864 * r - micro <= 432
  {
  }

  /** The first two of thirteen digits are the year's; the other eleven the day and the ticks. */
  lemma UnitsSplit(y2: int, day: int, r: int, u: int)
    requires 0 <= y2 < 100 && 1 <= day <= 366 && 0 <= r <= 100000000
    requires u == (y2 * 1000 + day) * 100000000 + r
    ensures u / 100000000000 == y2 && u % 100000000000 == day * 100000000 + r
  {
  }

  lemma {:induction false} InYearRange(t: DateTime, jan1: DateTime, delta: int)
    requires Valid(t) && 1957 <= t.year <= 2056 && jan1 == DateTime(t.year, 1, 1, 0)
    requires -432 <= delta - (DayOfYear(t) - 1) * 86400000000 - t.micro <= 432
    ensures AddMicros(jan1, delta).Some? && Valid(AddMicros(jan1, delta).value)
    ensures -432 <= Instant(AddMicros(jan1, delta).value) - Instant(t) <= 432
  {
    YearsIncrease(2058, MaxYear + 1);
    YearStep(t.year);
    YearStep(t.year + 1);
    YearsIncrease(t.year + 2, 2058);
    LastOrdinal();
    MonthsWithinYear(t.year, t.month);
    assert 0 <= Instant(jan1) + delta < MaxOrdinal * 86400000000;
    FromInstantValid(Instant(jan1) + delta);
  }

  // ---------------------------------------------------------------------------
  // Examples

  /** 2020-09-30T10:07:00 is day 274 of a leap year, and 10:07 is 0.42152777... of a day. */
  lemma EncodeExampleUnits(t: DateTime)
    requires t == DateTime(2020, 9, 30, 36420000000)
    ensures Valid(t) && EpochUnits(t) == 2027442152778
  {
    assert RoundHalfEven(36420000000.0 / 864.0) == 42152778;
  }

  lemma EncodeExampleDigits(u: nat)
    requires u == 2027442152778
    ensures Digits(u, 13) == "2027442152778"
  {
    assert Digits(2, 1) == "2";
    assert Digits(20, 2) == "20";
    assert Digits(202, 3) == "202";
    assert Digits(2027, 4) == "2027";
    assert Digits(20274, 5) == "20274";
    assert Digits(202744, 6) == "202744";
    assert Digits(2027442, 7) == "2027442";
    assert Digits(20274421, 8) == "20274421";
    assert Digits(202744215, 9) == "202744215";
    assert Digits(2027442152, 10) == "2027442152";
    assert Digits(20274421527, 11) == "20274421527";
    assert Digits(202744215277, 12) == "202744215277";
  }

  lemma {:induction false} EncodeText(t: DateTime, u: nat, d: string, s: string)
    requires Valid(t) && EpochUnits(t) == u && Digits(u, 13) == d && s == d[..5] + "." + d[5..]
    ensures DateTimeToEpoch(t) == s
  {
    EncodeDigits(t);
  }

  /** datetime_to_epoch(2020-09-30T10:07:00) == "20274.42152778". */
  lemma EncodeExample(t: DateTime)
    requires t == DateTime(2020, 9, 30, 36420000000)
    ensures DateTimeToEpoch(t) == "20274.42152778"
  {
    EncodeExampleUnits(t);
    EncodeExampleDigits(2027442152778);
    assert "2027442152778"[..5] == "20274" && "2027442152778"[5..] == "42152778";
    EncodeText(t, 2027442152778, "2027442152778", "20274.42152778");
  }

  /** The epoch text of a moment, put together from the five digits of YYDDD and the eight of its ticks. */
  lemma {:induction false} EncodeParts(t: DateTime, yd: nat, ticks: nat, d: string, f: string, s: string)
    requires Valid(t) && YearDay(t) == yd && RoundHalfEven(t.micro as real / 864.0) == ticks
    requires ticks < 100000000 && Digits(yd, 5) == d && Digits(ticks, 8) == f && s == d + "." + f
    ensures DateTimeToEpoch(t) == s
  {
    var u := yd * 100000000 + ticks;
    assert Pow10(8) == 100000000;
    DigitsConcat(yd, ticks, 5, 8);
    assert Digits(u, 13) == d + f;
    assert (d + f)[..5] == d && (d + f)[5..] == f;
    EncodeText(t, u, d + f, s);
  }

  lemma EightZeroDigits()
    ensures Digits(0, 8) == "00000000"
  {
  }

  /** datetime_to_epoch(1957-01-01) == "57001.00000000", the first day of the window. */
  lemma EncodeWindowStart(t: DateTime)
    requires t == DateTime(1957, 1, 1, 0)
    ensures DateTimeToEpoch(t) == "57001.00000000"
  {
    assert YearDay(t) == 57001;
    assert Digits(57001, 5) == "57001" by {
      assert Digits(5700, 4) == "5700";
    }
    EightZeroDigits();
    EncodeParts(t, 57001, 0, "57001", "00000000", "57001.00000000");
  }

  /** datetime_to_epoch(2001-01-01) == "01001.00000000": the year keeps its leading zero. */
  lemma EncodeCenturyStart(t: DateTime)
    requires t == DateTime(2001, 1, 1, 0)
    ensures DateTimeToEpoch(t) == "01001.00000000"
  {
    assert YearDay(t) == 1001;
    assert Digits(1001, 5) == "01001" by {
      assert Digits(100, 3) == "100";
    }
    EightZeroDigits();
    EncodeParts(t, 1001, 0, "01001", "00000000", "01001.00000000");
  }

  /** datetime_to_epoch(2056-12-31) == "56366.00000000", the last day of a leap year. */
  lemma EncodeWindowEnd(t: DateTime)
    requires t == DateTime(2056, 12, 31, 0)
    ensures DateTimeToEpoch(t) == "56366.00000000"
  {
    YearEndOrdinal(2056);
    assert YearDay(t) == 56366;
    assert Digits(56366, 5) == "56366" by {
      assert Digits(5636, 4) == "5636";
    }
    EightZeroDigits();
    EncodeParts(t, 56366, 0, "56366", "00000000", "56366.00000000");
  }

  /** datetime_to_epoch(2020-01-01T12:00) == "20001.50000000". */
  lemma EncodeNoon(t: DateTime)
    requires t == DateTime(2020, 1, 1, 43200000000)
    ensures DateTimeToEpoch(t) == "20001.50000000"
  {
    NoonTicks(t);
    NoonDayDigits();
    NoonTickDigits();
    NoonText();
    EncodeParts(t, 20001, 50000000, "20001", "50000000", "20001.50000000");
  }

  /** Noon is half a day, 5 * 10^7 ticks of 1e-8 day. */
  lemma NoonTicks(t: DateTime)
    requires t == DateTime(2020, 1, 1, 43200000000)
    ensures Valid(t) && YearDay(t) == 20001 && RoundHalfEven(t.micro as real / 864.0) == 50000000
  {
    assert t.micro as real / 864.0 == 50000000.0;
  }

  /** epoch_to_datetime("20274.42152778") is 2020-09-30T10:07:00 to within half a tick (432 microseconds). */
  lemma DecodeExampleClose(t: DateTime, s: string)
    requires t == DateTime(2020, 9, 30, 36420000000) && s == "20274.42152778"
    ensures EpochToDateTime(s).Ok? && -432 <= Instant(EpochToDateTime(s).value) - Instant(t) <= 432
  {
    EncodeExample(t);
    EncodeExampleUnits(t);
    EpochRoundTrip(t);
  }

  lemma NoonTickDigits()
    ensures Digits(50000000, 8) == "50000000"
  {
    assert Digits(5, 1) == "5";
    assert Digits(50, 2) == "50";
    assert Digits(500, 3) == "500";
    assert Digits(5000, 4) == "5000";
    assert Digits(50000, 5) == "50000";
    assert Digits(500000, 6) == "500000";
    assert Digits(5000000, 7) == "5000000";
  }

  lemma NoonDayDigits()
    ensures Digits(20001, 5) == "20001"
  {
    assert Digits(2000, 4) == "2000";
  }

  lemma NoonText()
    ensures "20001" + "." + "50000000" == "20001.50000000"
  {
  }

  lemma EightZeros()
    ensures AllDigits("00000000") && ParseNat("00000000") == 0
  {
    assert Digits(0, 8) == "00000000";
    DigitsRoundTrip(0, 8);
  }

  lemma DecodeExampleOffset(s: string)
    requires s == "56366.00000000"
    ensures EpochOffset(s) == Ok(Offset(2056, 365 * 86400000000))
  {
    EightZeros();
    assert ParseNat("56") == 56 && ParseNat("366") == 366;
    assert s == "56366" + "." + "00000000";
    assert "56366"[..2] == "56" && "56366"[2..] == "366";
    DecodeFields("56366", "00000000", 56, 366, 0);
  }

  /** The last day of a year is its length less one day after January 1. */
  lemma {:induction false} YearEnd(y: int)
    requires 1 <= y <= MaxYear
    ensures AddMicros(DateTime(y, 1, 1, 0), (DaysInYear(y) - 1) * 86400000000) == Some(DateTime(y, 12, 31, 0))
  {
    YearEndOrdinal(y);
    AddMicrosAt(DateTime(y, 1, 1, 0), (DaysInYear(y) - 1) * 86400000000, DateTime(y, 12, 31, 0));
  }

  lemma YearEndOrdinal(y: int)
    ensures Ordinal(y, 12, 31) == Ordinal(y, 1, 1) + DaysInYear(y) - 1
  {
  }

  /** Less than a day after January 1 is still January 1. */
  lemma {:induction false} FirstDay(y: int, micro: int)
    requires 1 <= y <= MaxYear && 0 <= micro < 86400000000
    ensures AddMicros(DateTime(y, 1, 1, 0), micro) == Some(DateTime(y, 1, 1, micro))
  {
    AddMicrosAt(DateTime(y, 1, 1, 0), micro, DateTime(y, 1, 1, micro));
  }

  /** Adding microseconds lands on t exactly when the instants agree. */
  lemma {:induction false} AddMicrosAt(s: DateTime, delta: int, t: DateTime)
    requires 1 <= s.month <= 12 && Valid(t)
    requires Ordinal(s.year, s.month, s.day) * 86400000000 + s.micro + delta == Ordinal(t.year, t.month, t.day) * 86400000000 + t.micro
    ensures AddMicros(s, delta) == Some(t)
  {
    InstantRoundTrip(t);
    assert Instant(s) + delta == Instant(t);
  }

  /** epoch_to_datetime("56366.00000000") is 2056-12-31T00:00, the last day of a leap year. */
  lemma DecodeExample(s: string)
    requires s == "56366.00000000"
    ensures EpochToDateTime(s) == Ok(DateTime(2056, 12, 31, 0))
  {
    DecodeExampleOffset(s);
    YearEnd(2056);
  }

  lemma HalfDayDigits()
    ensures AllDigits("50000000") && ParseNat("50000000") == 50000000
  {
    assert Digits(5, 1) == "5";
    assert Digits(50, 2) == "50";
    assert Digits(500, 3) == "500";
    assert Digits(5000, 4) == "5000";
    assert Digits(50000, 5) == "50000";
    assert Digits(500000, 6) == "500000";
    assert Digits(5000000, 7) == "5000000";
    assert Digits(50000000, 8) == "50000000";
    DigitsRoundTrip(50000000, 8);
  }

  lemma NoonFields()
    ensures ParseNat("20") == 20 && ParseNat("001") == 1
  {
  }

  lemma DecodeNoonOffset(s: string)
    requires s == "20001.50000000"
    ensures EpochOffset(s) == Ok(Offset(2020, 43200000000))
  {
    HalfDayDigits();
    NoonFields();
    assert s == "20001" + "." + "50000000";
    assert "20001"[..2] == "20" && "20001"[2..] == "001";
    DecodeFields("20001", "50000000", 20, 1, 50000000);
  }

  /** epoch_to_datetime("20001.50000000") is noon on 2020-01-01. */
  lemma DecodeExampleNoon(s: string)
    requires s == "20001.50000000"
    ensures EpochToDateTime(s) == Ok(DateTime(2020, 1, 1, 43200000000))
  {
    DecodeNoonOffset(s);
    FirstDay(2020, 43200000000);
  }

  lemma WindowStartFields()
    ensures ParseNat("57") == 57 && ParseNat("001") == 1
    ensures "57001"[..2] == "57" && "57001"[2..] == "001"
  {
  }

  lemma DecodeWindowStartOffset(s: string)
    requires s == "57001.00000000"
    ensures EpochOffset(s) == Ok(Offset(1957, 0))
  {
    EightZeros();
    WindowStartFields();
    assert s == "57001" + "." + "00000000";
    DecodeFields("57001", "00000000", 57, 1, 0);
  }

  /** epoch_to_datetime("57001.00000000") is 1957-01-01, the first day of the window. */
  lemma DecodeWindowStart(s: string)
    requires s == "57001.00000000"
    ensures EpochToDateTime(s) == Ok(DateTime(1957, 1, 1, 0))
  {
    DecodeWindowStartOffset(s);
    FirstDay(1957, 0);
  }

  lemma CenturyStartFields()
    ensures ParseNat("01") == 1 && ParseNat("001") == 1
    ensures "01001"[..2] == "01" && "01001"[2..] == "001"
  {
  }

  lemma DecodeCenturyStartOffset(s: string)
    requires s == "01001.00000000"
    ensures EpochOffset(s) == Ok(Offset(2001, 0))
  {
    EightZeros();
    CenturyStartFields();
    assert s == "01001" + "." + "00000000";
    DecodeFields("01001", "00000000", 1, 1, 0);
  }

  /** epoch_to_datetime("01001.00000000") is 2001-01-01: year 01 falls in the 2000s. */
  lemma DecodeCenturyStart(s: string)
    requires s == "01001.00000000"
    ensures EpochToDateTime(s) == Ok(DateTime(2001, 1, 1, 0))
  {
    DecodeCenturyStartOffset(s);
    FirstDay(2001, 0);
  }

  /** A year that int() cannot read. */
  lemma DecodeBadYear()
    ensures EpochToDateTime("xx001.00000000") == Err(BadYear)
  {
    assert Slice("xx001.00000000", 0, 2) == "xx";
    assert Strip("xx") == "xx";
  }
}
