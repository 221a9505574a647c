/**
 * The reporting window: the start date, the last day of the financial
 * year it falls in, the calendar years and months the window touches, and
 * its business days (hours.py, lines 50-70).
 */
module FiscalYear {
  import opened Wrappers
  import opened Dates
  import opened DateText
  import opened Seqs

  /** The first day of the window: `--date`, or else the first of the current month. */
  function StartDate(dateArg: Option<string>, today: Date): (r: Result<Date, Error>)
    requires Representable(today)
    ensures r.Ok? ==> Representable(r.value)
    ensures dateArg.None? ==> r.Ok? && r.value.year == today.year && r.value.month == today.month && r.value.day == 1
    ensures dateArg.Some? ==> (r.Ok? <==> ParseDate(dateArg.value).Some?)
    ensures dateArg.Some? && r.Ok? ==> ParseDate(dateArg.value) == Some(r.value)
    ensures r.Err? ==> r.error == InvalidDate
  {
    match dateArg
    case Some(s) =>
      (match ParseDate(s)
       case Some(d) => Ok(d)
       case None => Err(InvalidDate))
    case None => Ok(Date(today.year, today.month, 1))
  }

  /** The last day of its month. */
  predicate IsMonthEnd(d: Date) {
    1 <= d.month <= 12 && d.day == DaysInMonth(d.year, d.month)
  }

  /** The resolved window: `start`, `eofy` and the list `years` handed to the holiday lookup. */
  datatype Window = Window(start: Date, eofy: Date, years: seq<int>)

  /**
   * Resolves the financial year that `start` falls in, for a year ending
   * with month `eofyMonth`: its last day is the last day of that month, in
   * the start's year unless the start month is later than the final month.
   */
  function Resolve(start: Date, eofyMonth: int): (r: Result<Window, Error>)
    requires Representable(start)
    ensures r.Ok? <==> 1 <= eofyMonth <= 12 && !(start.month > eofyMonth && start.year == MaxYear)
    ensures !(1 <= eofyMonth <= 12) ==> r == Err(InvalidMonth)
    ensures r == Err(YearOutOfRange) <==>
      1 <= eofyMonth <= 12 && start.month > eofyMonth && start.year == MaxYear
    ensures r.Ok? ==>
      && r.value.start == start
      && Representable(r.value.eofy)
      && IsMonthEnd(r.value.eofy) && r.value.eofy.month == eofyMonth
      && NotAfter(start, r.value.eofy)
      && (r.value.eofy.year == start.year <==> start.month <= eofyMonth)
      && (r.value.eofy.year == start.year + 1 <==> start.month > eofyMonth)
      && (r.value.years == [start.year] || r.value.years == [start.year, start.year + 1])
      && (|r.value.years| == 2 <==> r.value.eofy.year > start.year)
  {
    if !(1 <= eofyMonth <= 12) then Err(InvalidMonth)
    else
      var eofyYear := start.year + (if start.month > eofyMonth then 1 else 0);
      if eofyYear > MaxYear then Err(YearOutOfRange)
      else
        var eofy := Date(eofyYear, eofyMonth, DaysInMonth(eofyYear, eofyMonth));
        var years := [start.year] + (if eofyYear > start.year then [eofyYear] else []);
        Ok(Window(start, eofy, years))
  }

  /**
   * The end of the financial year is the first month end of the final
   * month on or after the start: no earlier last day of that month follows
   * the start.
   */
  lemma ResolveIsFirst(start: Date, eofyMonth: int, e: Date)
    requires Representable(start) && Resolve(start, eofyMonth).Ok?
    requires IsMonthEnd(e) && e.month == eofyMonth && NotAfter(start, e)
    ensures NotAfter(Resolve(start, eofyMonth).value.eofy, e)
  {
  }

  /** Every day of the window lies in one of the listed years. */
  lemma YearsCover(start: Date, eofyMonth: int, d: Date)
    requires Representable(start) && Resolve(start, eofyMonth).Ok?
    requires NotAfter(start, d) && NotAfter(d, Resolve(start, eofyMonth).value.eofy)
    ensures d.year in Resolve(start, eofyMonth).value.years
  {
  }

  /**
   * `months_in_fy`: the month numbers from the start month to the final
   * month, one step at a time, December followed by January.
   */
  function MonthsInFy(startMonth: int, eofyMonth: int): (r: seq<int>)
    requires 1 <= startMonth <= 12 && 1 <= eofyMonth <= 12
    ensures |r| == (if startMonth > eofyMonth then eofyMonth + 12 else eofyMonth) - startMonth + 1
    ensures forall i :: 0 <= i < |r| ==> r[i] == MonthAfter(startMonth, i)
  {
    var stop := eofyMonth + 12 * (if startMonth > eofyMonth then 1 else 0);
    seq(stop - (startMonth - 1), k => (startMonth - 1 + k) % 12 + 1)
  }

  /** The month `i` months after month `m`, within one year. */
  function MonthAfter(m: int, i: int): int {
    if m + i <= 12 then m + i else m + i - 12
  }

  /**
   * The months list starts with the start month and ends with the final
   * month, steps one month at a time, names months only and none twice.
   */
  lemma MonthsInFyShape(startMonth: int, eofyMonth: int)
    requires 1 <= startMonth <= 12 && 1 <= eofyMonth <= 12
    ensures var r := MonthsInFy(startMonth, eofyMonth);
      1 <= |r| <= 12
      && r[0] == startMonth && r[|r| - 1] == eofyMonth
      && (forall i :: 0 <= i < |r| - 1 ==> r[i + 1] == r[i] % 12 + 1)
      && (forall i :: 0 <= i < |r| ==> 1 <= r[i] <= 12)
      && NoRepeats(r)
  {
  }

  /** Every month a day of the window falls in is listed in `months_in_fy`. */
  lemma MonthsCover(w: Window, eofyMonth: int, d: Date)
    requires Representable(w.start) && Resolve(w.start, eofyMonth) == Ok(w)
    requires 1 <= d.month <= 12 && NotAfter(w.start, d) && NotAfter(d, w.eofy)
    ensures d.month in MonthsInFy(w.start.month, eofyMonth)
  {
    var ms := MonthsInFy(w.start.month, eofyMonth);
    var sm := w.start.month;
    var k := if d.month >= sm then d.month - sm else d.month + 12 - sm;
    assert 0 <= k < |ms| && ms[k] == d.month;
  }

  /**
   * `busdays_in_fy`: the days from `start` to `eofy` inclusive whose
   * weekday is Monday to Friday.
   */
  function BusinessDays(start: Date, eofy: Date): seq<Date>
    requires ValidDate(start) && ValidDate(eofy)
  {
    Filter(Span(start, eofy), d => ValidDate(d) && IsBusinessDay(d))
  }

  lemma {:induction false} FilterIncreasing(s: seq<Date>, p: Date -> bool)
    requires Increasing(s)
    ensures Increasing(Filter(s, p))
  {
    if s != [] {
      FilterIncreasing(s[1..], p);
      var t := Filter(s[1..], p);
      forall j | 0 <= j < |t|
        ensures Before(s[0], t[j])
      {
        assert t[j] in s[1..];
        var i :| 0 <= i < |s| - 1 && s[1..][i] == t[j];
        assert s[i + 1] == t[j];
      }
    }
  }

  /**
   * The business days are exactly the Monday-to-Friday dates from `start`
   * to `eofy`, each once and in increasing order.
   */
  lemma BusinessDaysMembers(start: Date, eofy: Date)
    requires ValidDate(start) && ValidDate(eofy)
    ensures forall x :: x in BusinessDays(start, eofy) ==> ValidDate(x) && Weekday(x) < 5
    ensures forall x :: ValidDate(x) ==>
      (x in BusinessDays(start, eofy) <==> NotAfter(start, x) && NotAfter(x, eofy) && Weekday(x) < 5)
    ensures Increasing(BusinessDays(start, eofy))
  {
    SpanMembers(start, eofy);
    FilterIncreasing(Span(start, eofy), d => ValidDate(d) && IsBusinessDay(d));
  }
}
