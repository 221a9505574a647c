/**
 * Sorting the business days of the year into leave and working days, and
 * the table printed from them: one row per month of the year and a final
 * row for the whole year.
 */
module Tally {
  import opened Dates
  import opened Seqs

  /** `holiday_days`: the leave entries that fall on a business day, repeats kept. */
  function HeldDays(leave: seq<Date>, bus: seq<Date>): seq<Date> {
    Filter(leave, d => d in bus)
  }

  /** `working_days`: the business days that are not a leave day. */
  function WorkingDays(bus: seq<Date>, held: seq<Date>): seq<Date> {
    Filter(bus, d => d !in held)
  }

  /** `[d for d in ds if d.month == month]`. */
  function InMonth(ds: seq<Date>, month: int): seq<Date> {
    Filter(ds, (d: Date) => d.month == month)
  }

  /** The first column of a row: a month number, or the year as a whole. */
  datatype Label = MonthLabel(month: int) | FyLabel

  /** One printed row: its leave days and its working days. */
  datatype Row = Row(title: Label, held: int, work: int)

  /** The last column of a row: its working days charged at `hours` each. */
  function Charge(row: Row, hours: real): real {
    row.work as real * hours
  }

  /** The row for one month. */
  function MonthRow(month: int, held: seq<Date>, working: seq<Date>): Row {
    Row(MonthLabel(month), |InMonth(held, month)|, |InMonth(working, month)|)
  }

  /** The row for the whole year: `nhols_fy = len(busdays_in_fy) - len(working_days)`. */
  function FyRow(bus: seq<Date>, working: seq<Date>): Row {
    Row(FyLabel, |bus| - |working|, |working|)
  }

  function MonthRows(months: seq<int>, held: seq<Date>, working: seq<Date>): (r: seq<Row>)
    ensures |r| == |months|
  {
    if months == [] then []
    else [MonthRow(months[0], held, working)] + MonthRows(months[1..], held, working)
  }

  /** The whole table: the month rows in the order of `months`, then the year row. */
  function Table(months: seq<int>, bus: seq<Date>, held: seq<Date>, working: seq<Date>): seq<Row> {
    MonthRows(months, held, working) + [FyRow(bus, working)]
  }

  /**
   * The report loop: for each month, count its leave and working days;
   * then the year row.
   */
  method Report(months: seq<int>, bus: seq<Date>, held: seq<Date>, working: seq<Date>)
    returns (rows: seq<Row>)
    ensures rows == Table(months, bus, held, working)
  {
    rows := [];
    var i := 0;
    while i < |months|
      invariant 0 <= i <= |months| && |rows| == i
      invariant forall k :: 0 <= k < i ==> rows[k] == MonthRow(months[k], held, working)
    {
      var month := months[i];
      var nhols := |InMonth(held, month)|;
      var nwork := |InMonth(working, month)|;
      rows := rows + [Row(MonthLabel(month), nhols, nwork)];
      i := i + 1;
    }
    MonthRowsAt(months, held, working);
    assert rows == MonthRows(months, held, working);
    var nwork := |working|;
    rows := rows + [Row(FyLabel, |bus| - nwork, nwork)];
  }

  /** The k-th month row is the row of the k-th month. */
  lemma {:induction false} MonthRowsAt(months: seq<int>, held: seq<Date>, working: seq<Date>)
    ensures forall k :: 0 <= k < |months| ==> MonthRows(months, held, working)[k] == MonthRow(months[k], held, working)
  {
    if months != [] {
      MonthRowsAt(months[1..], held, working);
    }
  }

  // ---------------------------------------------------------------------
  // Which business days are leave

  /** A business day is a working day exactly when no leave entry names it. */
  lemma WorkingMembers(leave: seq<Date>, bus: seq<Date>, x: Date)
    ensures x in WorkingDays(bus, HeldDays(leave, bus)) <==> x in bus && x !in leave
  {
  }

  /** The working days are the business days with the leave taken out, in order. */
  lemma WorkingSkipsLeave(leave: seq<Date>, bus: seq<Date>)
    ensures WorkingDays(bus, HeldDays(leave, bus)) == Filter(bus, d => d !in leave)
  {
    FilterSameTest(bus, d => d !in HeldDays(leave, bus), d => d !in leave);
  }

  /**
   * Leave on a day that is not a business day (a weekend inside a range)
   * changes neither the leave days counted nor the working days.
   */
  lemma NonBusinessLeaveIgnored(leave: seq<Date>, bus: seq<Date>, x: Date)
    requires forall d :: d in bus ==> ValidDate(d) && IsBusinessDay(d)
    requires ValidDate(x) && !IsBusinessDay(x)
    ensures HeldDays(leave + [x], bus) == HeldDays(leave, bus)
    ensures WorkingDays(bus, HeldDays(leave + [x], bus)) == WorkingDays(bus, HeldDays(leave, bus))
  {
    FilterAppend(leave, [x], d => d in bus);
    assert Filter([x], d => d in bus) == [];
  }

  /**
   * The year's leave count is the number of business days some leave entry
   * names, and with the working days it makes up all the business days.
   */
  lemma FyHeldCount(leave: seq<Date>, bus: seq<Date>)
    ensures var working := WorkingDays(bus, HeldDays(leave, bus));
      |bus| - |working| == |Filter(bus, d => d in leave)|
      && 0 <= |bus| - |working| <= |bus|
  {
    WorkingSkipsLeave(leave, bus);
    FilterPartition(bus, d => d in leave, d => d !in leave);
  }

  /** Dropping entries keeps a list free of repeats. */
  lemma {:induction false} FilterNoRepeats<T>(s: seq<T>, p: T -> bool)
    requires NoRepeats(s)
    ensures NoRepeats(Filter(s, p))
  {
    if s != [] {
      assert NoRepeats(s[1..]);
      FilterNoRepeats(s[1..], p);
      var t := Filter(s[1..], p);
      assert s[0] !in s[1..];
      assert s[0] !in t;
      var r := Filter(s, p);
      forall i, j | 0 <= i < j < |r|
        ensures r[i] != r[j]
      {
        if p(s[0]) {
          assert r == [s[0]] + t;
          if i == 0 {
            assert r[j] == t[j - 1];
          } else {
            assert r[i] == t[i - 1] && r[j] == t[j - 1];
          }
        } else {
          assert r == t;
        }
      }
    }
  }

  /** Without repeated business days, the year's leave count counts each leave day once. */
  lemma FyHeldDistinct(leave: seq<Date>, bus: seq<Date>)
    requires NoRepeats(bus)
    ensures var working := WorkingDays(bus, HeldDays(leave, bus));
      |bus| - |working| == |Elems(bus) * Elems(leave)|
  {
    FyHeldCount(leave, bus);
    var f := Filter(bus, d => d in leave);
    FilterNoRepeats(bus, d => d in leave);
    ElemsCard(f);
    assert Elems(f) == Elems(bus) * Elems(leave);
  }

  /** Increasing lists have no repeats. */
  lemma IncreasingNoRepeats(s: seq<Date>)
    requires Increasing(s)
    ensures NoRepeats(s)
  {
    forall i, j | 0 <= i < j < |s|
      ensures s[i] != s[j]
    {
      assert Before(s[i], s[j]);
    }
  }

  // ---------------------------------------------------------------------
  // Month rows against the year row

  /** The month counts of `ds`, added up over `months`. */
  function SumMonthly(ds: seq<Date>, months: seq<int>): nat {
    if months == [] then 0 else |InMonth(ds, months[0])| + SumMonthly(ds, months[1..])
  }

  /** Taking the first entry off the list takes one off the month it falls in, if that month is listed. */
  lemma {:induction false} SumMonthlyStep(ds: seq<Date>, months: seq<int>)
    requires ds != [] && NoRepeats(months)
    ensures SumMonthly(ds, months) == (if ds[0].month in months then 1 else 0) + SumMonthly(ds[1..], months)
  {
    if months != [] {
      assert NoRepeats(months[1..]);
      SumMonthlyStep(ds, months[1..]);
      assert months[0] !in months[1..];
      assert ds[0].month in months <==> ds[0].month == months[0] || ds[0].month in months[1..];
    }
  }

  /** When every entry's month is listed once, the month counts add up to the whole list. */
  lemma {:induction false} MonthlySumsToTotal(ds: seq<Date>, months: seq<int>)
    requires NoRepeats(months)
    requires forall d :: d in ds ==> d.month in months
    ensures SumMonthly(ds, months) == |ds|
  {
    if ds == [] {
      EmptySumMonthly(months);
    } else {
      SumMonthlyStep(ds, months);
      MonthlySumsToTotal(ds[1..], months);
    }
  }

  lemma {:induction false} EmptySumMonthly(months: seq<int>)
    ensures SumMonthly([], months) == 0
  {
    if months != [] {
      EmptySumMonthly(months[1..]);
    }
  }

  function TotalHeld(rows: seq<Row>): int {
    if rows == [] then 0 else rows[0].held + TotalHeld(rows[1..])
  }

  function TotalWork(rows: seq<Row>): int {
    if rows == [] then 0 else rows[0].work + TotalWork(rows[1..])
  }

  function TotalCharge(rows: seq<Row>, hours: real): real {
    if rows == [] then 0.0 else Charge(rows[0], hours) + TotalCharge(rows[1..], hours)
  }

  /** The month rows add up the month counts of leave and of working days. */
  lemma {:induction false} MonthRowsTotals(months: seq<int>, held: seq<Date>, working: seq<Date>)
    ensures TotalHeld(MonthRows(months, held, working)) == SumMonthly(held, months)
    ensures TotalWork(MonthRows(months, held, working)) == SumMonthly(working, months)
  {
    if months != [] {
      MonthRowsTotals(months[1..], held, working);
    }
  }

  /** The rows' charges add up to the charge of all their working days. */
  lemma {:induction false} TotalChargeOf(rows: seq<Row>, hours: real)
    ensures TotalCharge(rows, hours) == TotalWork(rows) as real * hours
  {
    if rows != [] {
      TotalChargeOf(rows[1..], hours);
      ChargeStep(rows[0].work as real, TotalWork(rows[1..]) as real, hours);
    }
  }

  /** Rows with as many working days as another row charge as much as it does. */
  lemma ChargeTotal(rows: seq<Row>, total: Row, hours: real)
    requires TotalWork(rows) == total.work
    ensures TotalCharge(rows, hours) == Charge(total, hours)
  {
    TotalChargeOf(rows, hours);
  }

  lemma ChargeStep(w: real, rest: real, hours: real)
    ensures w * hours + rest * hours == (w + rest) * hours
  {
  }

  /**
   * With the months of the year listed once each and every business day in
   * one of them: the table has a row per month and a year row; the month
   * rows' working days and charges add up to the year row's; the year row's
   * leave and working days make up the business days; and the month rows'
   * leave days add up to every leave entry on a business day, which is at
   * least the year row's count (an entry listed twice is counted twice by
   * its month and once for the year).
   */
  lemma TableTotals(months: seq<int>, bus: seq<Date>, leave: seq<Date>, hours: real)
    requires NoRepeats(months) && NoRepeats(bus)
    requires forall d :: d in bus ==> d.month in months
    ensures var held := HeldDays(leave, bus);
      var t := Table(months, bus, held, WorkingDays(bus, held));
      |t| == |months| + 1 && t[|months|].title == FyLabel
      && TotalWork(t[..|months|]) == t[|months|].work
      && TotalCharge(t[..|months|], hours) == Charge(t[|months|], hours)
      && t[|months|].held + t[|months|].work == |bus|
      && TotalHeld(t[..|months|]) == |held| >= t[|months|].held
  {
    var held := HeldDays(leave, bus);
    var working := WorkingDays(bus, held);
    var rows := MonthRows(months, held, working);
    var t := Table(months, bus, held, working);
    assert t[..|months|] == rows && t[|months|] == FyRow(bus, working);
    MonthTotals(months, bus, leave);
    ChargeTotal(rows, FyRow(bus, working), hours);
    FyHeldCount(leave, bus);
    HeldCoversFy(leave, bus);
  }

  /** The month rows account for every working day and every leave entry on a business day. */
  lemma MonthTotals(months: seq<int>, bus: seq<Date>, leave: seq<Date>)
    requires NoRepeats(months)
    requires forall d :: d in bus ==> d.month in months
    ensures var held := HeldDays(leave, bus);
      var working := WorkingDays(bus, held);
      TotalWork(MonthRows(months, held, working)) == |working|
      && TotalHeld(MonthRows(months, held, working)) == |held|
  {
    var held := HeldDays(leave, bus);
    var working := WorkingDays(bus, held);
    MonthRowsTotals(months, held, working);
    MonthlySumsToTotal(working, months);
    MonthlySumsToTotal(held, months);
  }

  /** Every business day some leave entry names has an entry of its own in `holiday_days`. */
  lemma HeldCoversFy(leave: seq<Date>, bus: seq<Date>)
    requires NoRepeats(bus)
    ensures |Filter(bus, d => d in leave)| <= |HeldDays(leave, bus)|
  {
    var f := Filter(bus, d => d in leave);
    var held := HeldDays(leave, bus);
    FilterNoRepeats(bus, d => d in leave);
    ElemsCard(f);
    ElemsCard(held);
    assert Elems(f) <= Elems(held);
    SubsetCard(Elems(f), Elems(held));
  }

  /** A business day entered twice as leave: its month shows two leave days, the year one. */
  lemma DoubleEntry(d: Date)
    ensures var held := HeldDays([d, d], [d]);
      var t := Table([d.month], [d], held, WorkingDays([d], held));
      t[0].held == 2 && t[1].held == 1
  {
    var held := HeldDays([d, d], [d]);
    assert held == [d, d];
    var working := WorkingDays([d], held);
    assert working == [];
    assert InMonth(held, d.month) == [d, d];
  }
}
