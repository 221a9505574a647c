/**
 * One run of the leave calculator (hours.py, lines 50-123): resolve the
 * window, gather the statutory holidays and the leave file, classify the
 * business days and build the table of leave days, working days and
 * chargeable hours.
 */
module Hours {
  import opened Wrappers
  import opened Dates
  import opened Seqs
  import opened FiscalYear
  import opened LeaveFile
  import opened Tally

  /** What a run works out: the window, the month list, the leave list and the printed rows. */
  datatype Summary = Summary(window: Window, months: seq<int>, leave: seq<Date>, rows: seq<Row>)

  /**
   * The months list names every business day's month once, and the business
   * days are listed once each.
   */
  lemma WindowFacts(w: Window, eofyMonth: int)
    requires Representable(w.start) && Resolve(w.start, eofyMonth) == Ok(w)
    ensures 1 <= eofyMonth <= 12
    ensures NoRepeats(MonthsInFy(w.start.month, eofyMonth))
    ensures NoRepeats(BusinessDays(w.start, w.eofy))
    ensures forall d :: d in BusinessDays(w.start, w.eofy) ==> d.month in MonthsInFy(w.start.month, eofyMonth)
  {
    MonthsInFyShape(w.start.month, eofyMonth);
    BusinessDaysMembers(w.start, w.eofy);
    IncreasingNoRepeats(BusinessDays(w.start, w.eofy));
    forall d | d in BusinessDays(w.start, w.eofy)
      ensures d.month in MonthsInFy(w.start.month, eofyMonth)
    {
      MonthsCover(w, eofyMonth, d);
    }
  }

  /** The window a run reports on: the start date, then the year it falls in. */
  function WindowOf(dateArg: Option<string>, today: Date, eofyMonth: int): (r: Result<Window, Error>)
    requires Representable(today)
    ensures r.Ok? <==> StartDate(dateArg, today).Ok? && Resolve(StartDate(dateArg, today).value, eofyMonth).Ok?
    ensures StartDate(dateArg, today).Err? ==> r == Err(StartDate(dateArg, today).error)
    ensures r.Ok? ==> StartDate(dateArg, today) == Ok(r.value.start)
    ensures r.Ok? ==> Representable(r.value.start) && Resolve(r.value.start, eofyMonth) == r
  {
    match StartDate(dateArg, today)
    case Err(e) => Err(e)
    case Ok(start) => Resolve(start, eofyMonth)
  }

  /**
   * A run. `today` stands for the clock, `holidaysFor` for the holiday
   * library asked for the window's years, and `leaveLines` for the leave
   * file: its lines, or `None` when there is no file or `--noleave` is set.
   */
  method Run(dateArg: Option<string>, today: Date, eofyMonth: int, hours: real,
             holidaysFor: seq<int> -> seq<Date>, leaveLines: Option<seq<string>>)
    returns (r: Result<Summary, Error>)
    requires Representable(today)
    ensures WindowOf(dateArg, today, eofyMonth).Err? ==> r == Err(WindowOf(dateArg, today, eofyMonth).error)
    ensures WindowOf(dateArg, today, eofyMonth).Ok? ==>
      var w := WindowOf(dateArg, today, eofyMonth).value;
      (r.Ok? <==> leaveLines.None? || LeaveFromLines(leaveLines.value, w.start, w.eofy).Ok?)
      && (leaveLines.Some? && LeaveFromLines(leaveLines.value, w.start, w.eofy).Err? ==>
            r == Err(LeaveFromLines(leaveLines.value, w.start, w.eofy).error))
    ensures r.Ok? ==>
      var s := r.value;
      var w := s.window;
      var statutory := InWindow(holidaysFor(w.years), w.start, w.eofy);
      WindowOf(dateArg, today, eofyMonth) == Ok(w)
      && s.months == MonthsInFy(w.start.month, eofyMonth)
      && (leaveLines.None? ==> s.leave == statutory)
      && (leaveLines.Some? ==> s.leave == statutory + LeaveFromLines(leaveLines.value, w.start, w.eofy).value)
    ensures r.Ok? ==>
      var s := r.value;
      var bus := BusinessDays(s.window.start, s.window.eofy);
      var n := |s.months|;
      s.rows == Table(s.months, bus, HeldDays(s.leave, bus), WorkingDays(bus, HeldDays(s.leave, bus)))
      && |s.rows| == n + 1 && s.rows[n].title == FyLabel
      && TotalWork(s.rows[..n]) == s.rows[n].work
      && TotalCharge(s.rows[..n], hours) == Charge(s.rows[n], hours)
      && s.rows[n].held + s.rows[n].work == |bus|
      && s.rows[n].held == |Elems(bus) * Elems(s.leave)|
      && TotalHeld(s.rows[..n]) >= s.rows[n].held
  {
    var st := StartDate(dateArg, today);
    if st.Err? {
      return Err(st.error);
    }
    var start := st.value;
    var wr := Resolve(start, eofyMonth);
    if wr.Err? {
      return Err(wr.error);
    }
    var w := wr.value;
    var bus := BusinessDays(w.start, w.eofy);
    var months := MonthsInFy(start.month, eofyMonth);
    var leave := InWindow(holidaysFor(w.years), w.start, w.eofy);
    if leaveLines.Some? {
      var read := ReadLeave(leaveLines.value, w.start, w.eofy, leave);
      if read.Err? {
        return Err(read.error);
      }
      leave := read.value;
    }
    var held := HeldDays(leave, bus);
    var working := WorkingDays(bus, held);
    var rows := Report(months, bus, held, working);
    WindowFacts(w, eofyMonth);
    TableTotals(months, bus, leave, hours);
    FyHeldDistinct(leave, bus);
    return Ok(Summary(w, months, leave, rows));
  }
}
