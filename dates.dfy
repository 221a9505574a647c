/**
 * The proleptic Gregorian calendar as Python's `datetime` and `calendar`
 * modules see it: leap years, month lengths (`calendar.monthrange`), the day
 * number (`toordinal`, day 1 is 0001-01-01), the weekday (`weekday()`, Monday
 * is 0), the next day (`+ timedelta(days=1)`) and the order of dates.
 */
module Dates {

  datatype Date = Date(year: int, month: int, day: int)

  /** The years a Python `datetime` can hold. */
  const MinYear := 1
  const MaxYear := 9999

  predicate IsLeapYear(y: int) {
    y % 4 == 0 && (y % 100 != 0 || y % 400 == 0)
  }

  /** The second component of `calendar.monthrange(y, m)`. */
  function DaysInMonth(y: int, m: int): (n: int)
    requires 1 <= m <= 12
    ensures 28 <= n <= 31
    ensures n == 29 <==> m == 2 && IsLeapYear(y)
  {
    if m == 2 then (if IsLeapYear(y) then 29 else 28)
    else if m == 4 || m == 6 || m == 9 || m == 11 then 30
    else 31
  }

  function DaysInYear(y: int): int {
    if IsLeapYear(y) then 366 else 365
  }

  /** A real calendar day: a month 1..12 and a day inside that month. */
  predicate ValidDate(d: Date) {
    1 <= d.month <= 12 && 1 <= d.day <= DaysInMonth(d.year, d.month)
  }

  /** A calendar day that a Python `datetime` can hold. */
  predicate Representable(d: Date) {
    ValidDate(d) && MinYear <= d.year <= MaxYear
  }

  /** Days in all years before year `y` (counted from year 1). */
  function DaysBeforeYear(y: int): int {
    var p := y - 1;
    p * 365 + p / 4 - p / 100 + p / 400
  }

  /** Days in the months of year `y` before month `m`; month 13 stands for the year's end. */
  function DaysBeforeMonth(y: int, m: int): int
    requires 1 <= m <= 13
  {
    var common := [0, 31, 59, 90, 120, 151, 181, 212, 243, 273, 304, 334, 365];
    common[m - 1] + (if m > 2 && IsLeapYear(y) then 1 else 0)
  }

  /** Python's `toordinal()`: 0001-01-01 is day 1. */
  function Ordinal(d: Date): int
    requires ValidDate(d)
  {
    DaysBeforeYear(d.year) + DaysBeforeMonth(d.year, d.month) + d.day
  }

  /** Python's `weekday()`: Monday is 0, Sunday is 6. */
  function Weekday(d: Date): int
    requires ValidDate(d)
  {
    (Ordinal(d) + 6) % 7
  }

  /** The script's hard-wired business day test, `d.weekday() < 5`. */
  predicate IsBusinessDay(d: Date)
    requires ValidDate(d)
  {
    Weekday(d) < 5
  }

  /** Strict order of dates, as Python compares two `datetime`s at midnight. */
  predicate Before(a: Date, b: Date) {
    a.year < b.year
    || (a.year == b.year && a.month < b.month)
    || (a.year == b.year && a.month == b.month && a.day < b.day)
  }

  /** `a <= b` on dates. */
  predicate NotAfter(a: Date, b: Date) {
    a == b || Before(a, b)
  }

  /** `d + timedelta(days=1)`. */
  function Next(d: Date): (r: Date)
    requires ValidDate(d)
    ensures ValidDate(r)
    ensures Before(d, r)
    ensures r.day == 1 || (r.year == d.year && r.month == d.month && r.day == d.day + 1)
  {
    if d.day < DaysInMonth(d.year, d.month) then Date(d.year, d.month, d.day + 1)
    else if d.month < 12 then Date(d.year, d.month + 1, 1)
    else Date(d.year + 1, 1, 1)
  }

  // ---------------------------------------------------------------------
  // The day number

  /** One more day in the count of leading multiples of `k` exactly when `y` is a multiple. */
  lemma QuotientStep(y: int, k: int)
    requires k == 4 || k == 100 || k == 400
    ensures y / k == (y - 1) / k + (if y % k == 0 then 1 else 0)
  {
    var q, r := (y - 1) / k, (y - 1) % k;
    assert y - 1 == k * q + r && 0 <= r < k;
    if r == k - 1 {
      assert y == k * (q + 1);
    } else {
      assert y == k * q + (r + 1);
    }
  }

  lemma YearStep(y: int)
    ensures DaysBeforeYear(y + 1) == DaysBeforeYear(y) + DaysInYear(y)
  {
    QuotientStep(y, 4);
    QuotientStep(y, 100);
    QuotientStep(y, 400);
    MultipleChain(y);
  }

  /** Multiples of 400 are multiples of 100, and those are multiples of 4. */
  lemma MultipleChain(y: int)
    ensures y % 400 == 0 ==> y % 100 == 0
    ensures y % 100 == 0 ==> y % 4 == 0
  {
    if y % 400 == 0 {
      var q := y / 400;
      assert y == 100 * (4 * q);
      MultipleMod(4 * q, 100);
    }
    if y % 100 == 0 {
      var q := y / 100;
      assert y == 4 * (25 * q);
      MultipleMod(25 * q, 4);
    }
  }

  lemma MultipleMod(q: int, k: int)
    requires k == 4 || k == 100
    ensures (k * q) % k == 0
  {
    if k == 4 {
      assert (4 * q) % 4 == 0;
    } else {
      assert (100 * q) % 100 == 0;
    }
  }

  /** A month ends where the next one begins. */
  lemma MonthStep(y: int, m: int)
    requires 1 <= m <= 12
    ensures DaysBeforeMonth(y, m + 1) == DaysBeforeMonth(y, m) + DaysInMonth(y, m)
  {
  }

  /** The twelve months fill the year exactly. */
  lemma MonthsFillYear(y: int)
    ensures DaysBeforeMonth(y, 13) == DaysInYear(y)
  {
  }

  lemma {:induction false} MonthsBeforeMonotone(y: int, m: int, m': int)
    requires 1 <= m <= m' <= 13
    ensures DaysBeforeMonth(y, m) <= DaysBeforeMonth(y, m')
    decreases m' - m
  {
    if m < m' {
      MonthsBeforeMonotone(y, m, m' - 1);
      MonthStep(y, m' - 1);
    }
  }

  lemma {:induction false} YearsBeforeMonotone(y: int, y': int)
    requires y < y'
    ensures DaysBeforeYear(y) + DaysInYear(y) <= DaysBeforeYear(y')
    decreases y' - y
  {
    YearStep(y);
    if y + 1 < y' {
      YearsBeforeMonotone(y + 1, y');
    }
  }

  /** A date's day number lies inside its own year. */
  lemma OrdinalInYear(d: Date)
    requires ValidDate(d)
    ensures DaysBeforeYear(d.year) < Ordinal(d) <= DaysBeforeYear(d.year) + DaysInYear(d.year)
  {
    MonthStep(d.year, d.month);
    MonthsBeforeMonotone(d.year, d.month + 1, 13);
    MonthsFillYear(d.year);
  }

  /** The next day has the next day number. */
  lemma NextOrdinal(d: Date)
    requires ValidDate(d)
    ensures Ordinal(Next(d)) == Ordinal(d) + 1
  {
    if d.day == DaysInMonth(d.year, d.month) {
      if d.month == 12 {
        MonthsFillYear(d.year);
        YearStep(d.year);
      } else {
        MonthStep(d.year, d.month);
      }
    }
  }

  /** The lexicographic order of dates is the order of their day numbers. */
  lemma OrdinalOrder(a: Date, b: Date)
    requires ValidDate(a) && ValidDate(b)
    ensures Before(a, b) <==> Ordinal(a) < Ordinal(b)
  {
    if Before(a, b) {
      BeforeOrdinal(a, b);
    } else if a != b {
      BeforeOrdinal(b, a);
    }
  }

  lemma BeforeOrdinal(a: Date, b: Date)
    requires ValidDate(a) && ValidDate(b) && Before(a, b)
    ensures Ordinal(a) < Ordinal(b)
  {
    if a.year < b.year {
      OrdinalInYear(a);
      OrdinalInYear(b);
      YearsBeforeMonotone(a.year, b.year);
    } else if a.month < b.month {
      MonthStep(a.year, a.month);
      MonthsBeforeMonotone(a.year, a.month + 1, b.month);
    }
  }

  /** Two dates with the same day number are the same date. */
  lemma OrdinalInjective(a: Date, b: Date)
    requires ValidDate(a) && ValidDate(b)
    ensures Ordinal(a) == Ordinal(b) <==> a == b
  {
    OrdinalOrder(a, b);
    OrdinalOrder(b, a);
  }

  /** The weekday advances by one, Sunday wrapping to Monday. */
  lemma NextWeekday(d: Date)
    requires ValidDate(d)
    ensures Weekday(Next(d)) == (Weekday(d) + 1) % 7
  {
    NextOrdinal(d);
    WeekStep(Ordinal(d) + 6);
  }

  lemma WeekStep(k: int)
    ensures (k + 1) % 7 == (k % 7 + 1) % 7
  {
    var q, r := k / 7, k % 7;
    assert k == 7 * q + r && 0 <= r < 7;
    if r == 6 {
      assert k + 1 == 7 * (q + 1);
    } else {
      assert k + 1 == 7 * q + (r + 1);
    }
  }

  // ---------------------------------------------------------------------
  // Runs of consecutive days

  /** `[a + timedelta(days=i) for i in range(n)]`. */
  function DayRange(a: Date, n: nat): seq<Date>
    requires ValidDate(a)
    decreases n
  {
    if n == 0 then [] else [a] + DayRange(Next(a), n - 1)
  }

  /** `(b - a).days`. */
  function DaysBetween(a: Date, b: Date): int
    requires ValidDate(a) && ValidDate(b)
  {
    Ordinal(b) - Ordinal(a)
  }

  /** `[a + timedelta(days=i) for i in range((b - a).days + 1)]`: every day from `a` to `b`. */
  function Span(a: Date, b: Date): seq<Date>
    requires ValidDate(a) && ValidDate(b)
  {
    var n := DaysBetween(a, b) + 1;
    DayRange(a, if n < 0 then 0 else n)
  }

  /** Strictly increasing, hence free of repeats. */
  predicate Increasing(s: seq<Date>) {
    forall i, j :: 0 <= i < j < |s| ==> Before(s[i], s[j])
  }

  /** The i-th day of a run is `a + timedelta(days=i)`. */
  lemma {:induction false} DayRangeAt(a: Date, n: nat)
    requires ValidDate(a)
    ensures |DayRange(a, n)| == n
    ensures forall i :: 0 <= i < n ==>
      ValidDate(DayRange(a, n)[i]) && Ordinal(DayRange(a, n)[i]) == Ordinal(a) + i
    decreases n
  {
    if n > 0 {
      DayRangeAt(Next(a), n - 1);
      NextOrdinal(a);
    }
  }

  /** A run holds exactly the valid days whose numbers fall in its interval, in increasing order. */
  lemma DayRangeMembers(a: Date, n: nat)
    requires ValidDate(a)
    ensures forall x :: x in DayRange(a, n) ==> ValidDate(x)
    ensures forall x :: ValidDate(x) ==>
      (x in DayRange(a, n) <==> Ordinal(a) <= Ordinal(x) < Ordinal(a) + n)
    ensures Increasing(DayRange(a, n))
  {
    var r := DayRange(a, n);
    DayRangeAt(a, n);
    forall x | ValidDate(x) && Ordinal(a) <= Ordinal(x) < Ordinal(a) + n
      ensures x in r
    {
      var k := Ordinal(x) - Ordinal(a);
      OrdinalInjective(r[k], x);
    }
    forall i, j | 0 <= i < j < |r|
      ensures Before(r[i], r[j])
    {
      OrdinalOrder(r[i], r[j]);
    }
  }

  /**
   * `Span(a, b)` is exactly the valid dates from `a` to `b` inclusive, in
   * increasing order, one per day of the interval; it is empty when `b` is
   * before `a`.
   */
  lemma SpanMembers(a: Date, b: Date)
    requires ValidDate(a) && ValidDate(b)
    ensures forall x :: x in Span(a, b) ==> ValidDate(x)
    ensures forall x :: ValidDate(x) ==> (x in Span(a, b) <==> NotAfter(a, x) && NotAfter(x, b))
    ensures Increasing(Span(a, b))
    ensures |Span(a, b)| == if Before(b, a) then 0 else DaysBetween(a, b) + 1
    ensures Span(a, b) == [] <==> Before(b, a)
  {
    var n := DaysBetween(a, b) + 1;
    var m: nat := if n < 0 then 0 else n;
    DayRangeMembers(a, m);
    DayRangeAt(a, m);
    OrdinalOrder(b, a);
    forall x | ValidDate(x)
      ensures x in Span(a, b) <==> NotAfter(a, x) && NotAfter(x, b)
    {
      OrdinalOrder(a, x);
      OrdinalOrder(x, b);
      OrdinalInjective(a, x);
      OrdinalInjective(x, b);
    }
  }
}
