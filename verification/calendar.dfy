/**
 * The proleptic Gregorian calendar of Python's datetime module, on integers:
 * a moment is a date and a count of microseconds since midnight, and adding a
 * timedelta is adding microseconds to the moment's count since 0001-01-01.
 * Dates outside years 1..9999 do not exist (Python raises OverflowError).
 * A day is 86400000000 microseconds; the number is written out wherever it
 * is used so that the products it takes part in stay linear for the solver.
 */
module Calendar {
  import opened Wrappers

  const MaxYear: int := 9999

  predicate IsLeap(y: int)
  {
    y % 4 == 0 && (y % 100 != 0 || y % 400 == 0)
  }

  function DaysInYear(y: int): (n: nat)
    ensures n == 365 || n == 366
  {
    if IsLeap(y) then 366 else 365
  }

  function DaysInMonth(y: int, m: int): (n: nat)
    requires 1 <= m <= 12
    ensures 28 <= n <= 31
  {
    if m == 2 then (if IsLeap(y) then 29 else 28)
    else if m == 4 || m == 6 || m == 9 || m == 11 then 30
    else 31
  }

  /** Days in the months of a common year before month m (Python's _DAYS_BEFORE_MONTH). */
  const CommonDaysBefore: seq<nat> := [0, 0, 31, 59, 90, 120, 151, 181, 212, 243, 273, 304, 334]

  /** Days of year y before the first of month m; February 29 counts from March on. */
  function DaysBeforeMonth(y: int, m: int): nat
    requires 1 <= m <= 12
  {
    CommonDaysBefore[m] + (if m > 2 && IsLeap(y) then 1 else 0)
  }

  /** Days before January 1 of year y, counted from 0001-01-01 (Python's _days_before_year). */
  function DaysBeforeYear(y: int): int
  {
    var p := y - 1;
    p * 365 + p / 4 - p / 100 + p / 400
  }

  /** A date and a time of day, to the microsecond. */
  datatype DateTime = DateTime(year: int, month: int, day: int, micro: int)

  predicate Valid(t: DateTime)
  {
    1 <= t.year <= MaxYear && 1 <= t.month <= 12 && 1 <= t.day <= DaysInMonth(t.year, t.month)
    && 0 <= t.micro < 86400000000
  }

  /** The day of the year, 1 for January 1 (strftime's %j). */
  function DayOfYear(t: DateTime): int
    requires 1 <= t.month <= 12
  {
    DaysBeforeMonth(t.year, t.month) + t.day
  }

  /** The day number of a date, 1 for 0001-01-01 (Python's date.toordinal). */
  function Ordinal(y: int, m: int, d: int): int
    requires 1 <= m <= 12
  {
    DaysBeforeYear(y) + DaysBeforeMonth(y, m) + d
  }

  /** Microseconds from 0001-01-01T00:00 to t. */
  function Instant(t: DateTime): int
    requires 1 <= t.month <= 12
  {
    (Ordinal(t.year, t.month, t.day) - 1) * 86400000000 + t.micro
  }

  /** The last day number Python can represent: 9999-12-31. */
  const MaxOrdinal: int := 3652059

  // ---------------------------------------------------------------------------
  // From a day number back to a date

  /** The year holding day number n, searched for from year y on. */
  function YearFrom(n: int, y: int): (r: int)
    requires y >= 1 && DaysBeforeYear(y) < n
    ensures r >= y && DaysBeforeYear(r) < n <= DaysBeforeYear(r) + DaysInYear(r)
    decreases n - DaysBeforeYear(y)
  {
    YearStep(y);
    if n <= DaysBeforeYear(y) + DaysInYear(y) then y else YearFrom(n, y + 1)
  }

  /** The month holding day r of year y, searched for from month m down. */
  function MonthFrom(y: int, r: int, m: int): (k: int)
    requires 1 <= m <= 12 && 1 <= r <= DaysBeforeMonth(y, m) + DaysInMonth(y, m)
    ensures 1 <= k <= m && DaysBeforeMonth(y, k) < r <= DaysBeforeMonth(y, k) + DaysInMonth(y, k)
  {
    if DaysBeforeMonth(y, m) < r then m
    else
      MonthStep(y, m - 1);
      MonthFrom(y, r, m - 1)
  }

  /** The date of day number n (Python's date.fromordinal). */
  function FromOrdinal(n: int): (t: DateTime)
    requires n >= 1
    ensures t.year >= 1 && 1 <= t.month <= 12 && 1 <= t.day <= DaysInMonth(t.year, t.month)
    ensures Ordinal(t.year, t.month, t.day) == n
  {
    var y := YearFrom(n, 1);
    var r := n - DaysBeforeYear(y);
    YearLength(y);
    var m := MonthFrom(y, r, 12);
    DateTime(y, m, r - DaysBeforeMonth(y, m), 0)
  }

  /** The moment `us` microseconds after 0001-01-01T00:00, if it lies within years 1..9999. */
  function FromInstant(us: int): Option<DateTime>
  {
    if 0 <= us < MaxOrdinal * 86400000000 then
      var d := FromOrdinal(us / 86400000000 + 1);
      Some(DateTime(d.year, d.month, d.day, us % 86400000000))
    else
      None
  }

  /** datetime + timedelta(microseconds=delta); None where Python raises OverflowError. */
  function AddMicros(t: DateTime, delta: int): Option<DateTime>
    requires 1 <= t.month <= 12
  {
    FromInstant(Instant(t) + delta)
  }

  // ---------------------------------------------------------------------------
  // Facts

  /** Each year adds its own length to the day count. */
  lemma YearStep(y: int)
    requires y >= 1
    ensures DaysBeforeYear(y + 1) == DaysBeforeYear(y) + DaysInYear(y)
  {
    StepFour(y);
    StepHundred(y);
    StepFourHundred(y);
    Divisibility(y);
    assert DaysBeforeYear(y + 1) - DaysBeforeYear(y)
      == 365 + (y / 4 - (y - 1) / 4) - (y / 100 - (y - 1) / 100) + (y / 400 - (y - 1) / 400);
  }

  lemma Divisibility(y: int)
    ensures y % 100 == 0 ==> y % 4 == 0
    ensures y % 400 == 0 ==> y % 100 == 0
  {
  }

  lemma StepFour(y: int)
    ensures y / 4 - (y - 1) / 4 == if y % 4 == 0 then 1 else 0
  {
  }

  lemma StepHundred(y: int)
    ensures y / 100 - (y - 1) / 100 == if y % 100 == 0 then 1 else 0
  {
  }

  lemma StepFourHundred(y: int)
    ensures y / 400 - (y - 1) / 400 == if y % 400 == 0 then 1 else 0
  {
  }

  lemma MonthStep(y: int, m: int)
    requires 1 <= m <= 11
    ensures DaysBeforeMonth(y, m + 1) == DaysBeforeMonth(y, m) + DaysInMonth(y, m)
  {
  }

  /** December ends the year. */
  lemma YearLength(y: int)
    ensures DaysBeforeMonth(y, 12) + DaysInMonth(y, 12) == DaysInYear(y)
  {
  }

  /** Later years start later. */
  lemma {:induction false} YearsIncrease(a: int, b: int)
    requires 1 <= a <= b
    ensures DaysBeforeYear(a) + 365 * (b - a) <= DaysBeforeYear(b)
    decreases b - a
  {
    if a < b {
      YearStep(b - 1);
      YearsIncrease(a, b - 1);
    }
  }

  /** Only one year holds a given day number. */
  lemma {:induction false} YearUnique(n: int, y: int, z: int)
    requires y >= 1 && DaysBeforeYear(y) < n <= DaysBeforeYear(y) + DaysInYear(y)
    requires 1 <= z <= y
    ensures YearFrom(n, z) == y
    decreases y - z
  {
    if z < y {
      YearStep(z);
      YearsIncrease(z + 1, y);
      YearUnique(n, y, z + 1);
    }
  }

  /** Only one month holds a given day of the year. */
  lemma {:induction false} MonthUnique(y: int, r: int, m: int, k: int)
    requires 1 <= m <= k <= 12
    requires DaysBeforeMonth(y, m) < r <= DaysBeforeMonth(y, m) + DaysInMonth(y, m)
    ensures MonthFrom(y, r, k) == m
    decreases k
  {
    if k > m {
      assert DaysBeforeMonth(y, k) >= DaysBeforeMonth(y, m + 1);
      MonthStep(y, m);
      MonthUnique(y, r, m, k - 1);
    }
  }

  /** fromordinal(toordinal(d)) == d. */
  lemma {:induction false} OrdinalRoundTrip(y: int, m: int, d: int)
    requires y >= 1 && 1 <= m <= 12 && 1 <= d <= DaysInMonth(y, m)
    ensures FromOrdinal(Ordinal(y, m, d)) == DateTime(y, m, d, 0)
  {
    var n := Ordinal(y, m, d);
    YearLength(y);
    MonthsWithinYear(y, m);
    YearUnique(n, y, 1);
    MonthUnique(y, n - DaysBeforeYear(y), m, 12);
  }

  lemma MonthsWithinYear(y: int, m: int)
    requires 1 <= m <= 12
    ensures DaysBeforeMonth(y, m) + DaysInMonth(y, m) <= DaysInYear(y)
  {
  }

  /** 9999-12-31 is the last day before year 10000. */
  lemma LastOrdinal()
    ensures DaysBeforeYear(MaxYear + 1) == MaxOrdinal
  {
  }

  /** Valid moments are exactly those FromInstant can return, and it returns each from its Instant. */
  lemma {:induction false} InstantRoundTrip(t: DateTime)
    requires Valid(t)
    ensures FromInstant(Instant(t)) == Some(t)
  {
    var n := Ordinal(t.year, t.month, t.day);
    MonthsWithinYear(t.year, t.month);
    YearsIncrease(t.year + 1, MaxYear + 1);
    YearStep(t.year);
    LastOrdinal();
    assert 1 <= n <= MaxOrdinal;
    var us := Instant(t);
    assert us / 86400000000 == n - 1 && us % 86400000000 == t.micro;
    OrdinalRoundTrip(t.year, t.month, t.day);
  }

  /** What FromInstant returns is a valid moment at exactly the requested instant. */
  lemma {:induction false} FromInstantValid(us: int)
    requires FromInstant(us).Some?
    ensures Valid(FromInstant(us).value) && Instant(FromInstant(us).value) == us
  {
    var n := us / 86400000000 + 1;
    var d := FromOrdinal(n);
    LastOrdinal();
    if d.year > MaxYear {
      YearsIncrease(MaxYear + 1, d.year);
      assert false;
    }
  }
}
