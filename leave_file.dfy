/**
 * The leave file (hours.py, lines 83-104): each line that is not a comment
 * or blank names one date, an inclusive range `A to B` (or `A - B`), or a
 * comma list whose later items are day numbers in the first item's month.
 * The dates inside the window are appended to the leave list, which
 * already holds the statutory holidays of the window (lines 74-75).
 */
module LeaveFile {
  import opened Wrappers
  import opened Dates
  import opened DateText
  import opened Text
  import opened Seqs

  /**
   * A later item of a comma list, completed from the first item:
   * `'-'.join(first.split('-')[:2] + [x])`.
   */
  function ListItem(first: string, x: string): string {
    var begin := Split(first, "-");
    Join("-", (if |begin| > 2 then begin[..2] else begin) + [x])
  }

  /** `[datetime.strptime(t, '%Y-%m-%d') for t in texts]`: all dates, or InvalidDate. */
  function ParseAll(texts: seq<string>): (r: Result<seq<Date>, Error>)
    ensures r.Ok? <==> forall i :: 0 <= i < |texts| ==> ParseDate(texts[i]).Some?
    ensures r.Ok? ==> (|r.value| == |texts|
      && forall i :: 0 <= i < |texts| ==> ParseDate(texts[i]) == Some(r.value[i]))
    ensures r.Err? ==> r.error == InvalidDate
  {
    if texts == [] then Ok([])
    else
      match ParseDate(texts[0])
      case None => Err(InvalidDate)
      case Some(d) =>
        match ParseAll(texts[1..])
        case Err(e) => Err(e)
        case Ok(ds) => Ok([d] + ds)
  }

  /** The dates one raw line of the leave file names, before the window is applied. */
  function LineDates(raw: string): Result<seq<Date>, Error>
  {
    if |raw| > 0 && raw[0] == '#' then Ok([])
    else
      var stripped := Strip(raw);
      if stripped == [] then Ok([])
      else EntryDates(Replace(stripped, " - ", " to "))
  }

  /** A stripped, non-blank line, with ` - ` already rewritten to ` to `. */
  function EntryDates(line: string): Result<seq<Date>, Error>
  {
    if Contains(line, " to ") then RangeDates(Split(line, " to "))
    else if Contains(line, ",") then ListDates(Split(line, ","))
    else ParseAll([line])
  }

  /** A range line, split on ` to `: exactly two dates, and every day from the first to the second. */
  function RangeDates(ends: seq<string>): Result<seq<Date>, Error>
  {
    if |ends| != 2 then Err(MalformedRange)
    else
      match ParseAll(ends)
      case Err(e) => Err(e)
      case Ok(ab) => Ok(Span(ab[0], ab[1]))
  }

  /** A comma list, split on `,`: the first item as written, the later ones completed from it. */
  function ListDates(items: seq<string>): (r: Result<seq<Date>, Error>)
    requires |items| >= 1
  {
    ParseAll(ListTexts(items[0], items[1..]))
  }

  /** The texts handed to `strptime` for a comma list: the first item, then the completed later ones. */
  function ListTexts(first: string, later: seq<string>): (r: seq<string>)
    ensures |r| == |later| + 1 && r[0] == first
    ensures forall k :: 0 <= k < |later| ==> r[k + 1] == ListItem(first, later[k])
  {
    [first] + seq(|later|, k requires 0 <= k < |later| => ListItem(first, later[k]))
  }

  /** `[d for d in ds if d >= start and d <= eofy]`. */
  function InWindow(ds: seq<Date>, start: Date, eofy: Date): seq<Date> {
    Filter(ds, d => NotAfter(start, d) && NotAfter(d, eofy))
  }

  /** What each line yields on its own, read with `parse`. */
  function Outcomes(lines: seq<string>, parse: string -> Result<seq<Date>, Error>): (r: seq<Result<seq<Date>, Error>>)
    ensures |r| == |lines|
  {
    if lines == [] then [] else Outcomes(lines[..|lines| - 1], parse) + [parse(lines[|lines| - 1])]
  }

  lemma {:induction false} OutcomesAt(lines: seq<string>, parse: string -> Result<seq<Date>, Error>, k: nat)
    requires k < |lines|
    ensures Outcomes(lines, parse)[k] == parse(lines[k])
    decreases |lines|
  {
    if k < |lines| - 1 {
      var init := lines[..|lines| - 1];
      OutcomesAt(init, parse, k);
      assert init[k] == lines[k];
    }
  }

  /**
   * What the loop over `lines` appends to `leave`, or the error of the first
   * line that raises.
   */
  function LeaveFromLines(lines: seq<string>, start: Date, eofy: Date): Result<seq<Date>, Error>
  {
    Collect(Outcomes(lines, LineDates), start, eofy)
  }

  /** The loop over the lines' outcomes, from the first to the last. */
  function Collect(outcomes: seq<Result<seq<Date>, Error>>, start: Date, eofy: Date): Result<seq<Date>, Error>
  {
    if outcomes == [] then Ok([])
    else ThenLine(Collect(outcomes[..|outcomes| - 1], start, eofy), outcomes[|outcomes| - 1], start, eofy)
  }

  /** One turn of the loop: keep the window's part of the line's dates, or raise. */
  function ThenLine(sofar: Result<seq<Date>, Error>, line: Result<seq<Date>, Error>, start: Date, eofy: Date): Result<seq<Date>, Error>
  {
    match sofar
    case Err(e) => Err(e)
    case Ok(prev) =>
      match line
      case Err(e) => Err(e)
      case Ok(dates) => Ok(prev + InWindow(dates, start, eofy))
  }

  /** The leave file read line by line with `LineDates`, after the statutory holidays. */
  method ReadLeave(lines: seq<string>, start: Date, eofy: Date, statutory: seq<Date>)
    returns (r: Result<seq<Date>, Error>)
    ensures r.Err? <==> LeaveFromLines(lines, start, eofy).Err?
    ensures r.Err? ==> r.error == LeaveFromLines(lines, start, eofy).error
    ensures r.Ok? ==> r.value == statutory + LeaveFromLines(lines, start, eofy).value
  {
    r := ReadLines(lines, LineDates, start, eofy, statutory);
  }

  /**
   * The leave-file loop: `leave += [d for d in dates if start <= d <= eofy]`
   * for every line, stopping at the first line that raises. It does not
   * depend on how a line is parsed, so the parser is a parameter.
   */
  method ReadLines(lines: seq<string>, parse: string -> Result<seq<Date>, Error>, start: Date, eofy: Date, statutory: seq<Date>)
    returns (r: Result<seq<Date>, Error>)
    ensures r.Err? <==> Collect(Outcomes(lines, parse), start, eofy).Err?
    ensures r.Err? ==> r.error == Collect(Outcomes(lines, parse), start, eofy).error
    ensures r.Ok? ==> r.value == statutory + Collect(Outcomes(lines, parse), start, eofy).value
  {
    ghost var outcomes := Outcomes(lines, parse);
    var leave := statutory;
    ghost var read: seq<Date> := [];
    var i := 0;
    while i < |lines|
      invariant 0 <= i <= |lines|
      invariant leave == statutory + read
      invariant Collect(outcomes[..i], start, eofy) == Ok(read)
    {
      var dates := parse(lines[i]);
      OutcomesAt(lines, parse, i);
      CollectStep(outcomes, i, start, eofy);
      if dates.Err? {
        CollectKeepsError(outcomes, i + 1, start, eofy);
        return Err(dates.error);
      }
      var kept := InWindow(dates.value, start, eofy);
      leave := leave + kept;
      read := read + kept;
      i := i + 1;
    }
    assert outcomes[..i] == outcomes;
    return Ok(leave);
  }

  /** Only dates inside the window are kept. */
  lemma LeaveInWindow(lines: seq<string>, start: Date, eofy: Date)
    requires LeaveFromLines(lines, start, eofy).Ok?
    ensures forall x :: x in LeaveFromLines(lines, start, eofy).value ==> NotAfter(start, x) && NotAfter(x, eofy)
  {
    forall x | x in LeaveFromLines(lines, start, eofy).value
      ensures NotAfter(start, x) && NotAfter(x, eofy)
    {
      LeaveFromLinesMembers(lines, start, eofy, x);
    }
  }

  /** Reading one more line appends what it keeps, or raises its error. */
  lemma CollectStep(outcomes: seq<Result<seq<Date>, Error>>, i: nat, start: Date, eofy: Date)
    requires i < |outcomes|
    ensures Collect(outcomes[..i + 1], start, eofy) == ThenLine(Collect(outcomes[..i], start, eofy), outcomes[i], start, eofy)
  {
    assert outcomes[..i + 1][..i] == outcomes[..i] && outcomes[..i + 1][i] == outcomes[i];
  }

  /** Once a line has raised, reading further lines does not change the outcome. */
  lemma {:induction false} CollectKeepsError(outcomes: seq<Result<seq<Date>, Error>>, n: nat, start: Date, eofy: Date)
    requires n <= |outcomes| && Collect(outcomes[..n], start, eofy).Err?
    ensures Collect(outcomes, start, eofy) == Collect(outcomes[..n], start, eofy)
    decreases |outcomes| - n
  {
    if n < |outcomes| {
      assert outcomes[..|outcomes| - 1][..n] == outcomes[..n];
      CollectKeepsError(outcomes[..|outcomes| - 1], n, start, eofy);
    } else {
      assert outcomes[..n] == outcomes;
    }
  }

  /**
   * A successful read keeps exactly the dates the lines name that fall
   * inside the window.
   */
  lemma LeaveFromLinesMembers(lines: seq<string>, start: Date, eofy: Date, x: Date)
    requires LeaveFromLines(lines, start, eofy).Ok?
    ensures forall i :: 0 <= i < |lines| ==> LineDates(lines[i]).Ok?
    ensures x in LeaveFromLines(lines, start, eofy).value <==>
      NotAfter(start, x) && NotAfter(x, eofy)
      && exists i :: 0 <= i < |lines| && x in LineDates(lines[i]).value
  {
    var outcomes := Outcomes(lines, LineDates);
    CollectMembers(outcomes, start, eofy, x);
    forall i | 0 <= i < |lines|
      ensures outcomes[i] == LineDates(lines[i])
    {
      OutcomesAt(lines, LineDates, i);
    }
  }

  /**
   * A read fails exactly when some line fails, and then with the error of
   * the first line that fails.
   */
  lemma LeaveFromLinesErrors(lines: seq<string>, start: Date, eofy: Date)
    ensures LeaveFromLines(lines, start, eofy).Err? <==> exists i :: 0 <= i < |lines| && LineDates(lines[i]).Err?
    ensures LeaveFromLines(lines, start, eofy).Err? ==>
      exists i :: 0 <= i < |lines| && LineDates(lines[i]).Err?
        && (forall j :: 0 <= j < i ==> LineDates(lines[j]).Ok?)
        && LeaveFromLines(lines, start, eofy).error == LineDates(lines[i]).error
  {
    var outcomes := Outcomes(lines, LineDates);
    CollectErrors(outcomes, start, eofy);
    forall i | 0 <= i < |lines|
      ensures outcomes[i] == LineDates(lines[i])
    {
      OutcomesAt(lines, LineDates, i);
    }
  }

  lemma {:induction false} CollectErrors(outcomes: seq<Result<seq<Date>, Error>>, start: Date, eofy: Date)
    ensures Collect(outcomes, start, eofy).Err? <==> exists i :: 0 <= i < |outcomes| && outcomes[i].Err?
    ensures Collect(outcomes, start, eofy).Err? ==>
      exists i :: 0 <= i < |outcomes| && outcomes[i].Err?
        && (forall j :: 0 <= j < i ==> outcomes[j].Ok?)
        && Collect(outcomes, start, eofy).error == outcomes[i].error
  {
    if outcomes != [] {
      var n := |outcomes| - 1;
      var init := outcomes[..n];
      CollectErrors(init, start, eofy);
      if Collect(init, start, eofy).Err? {
        var i :| 0 <= i < |init| && init[i].Err?
          && (forall j :: 0 <= j < i ==> init[j].Ok?)
          && Collect(init, start, eofy).error == init[i].error;
        assert outcomes[i] == init[i];
        assert forall j :: 0 <= j < i ==> outcomes[j] == init[j];
      } else {
        assert forall j :: 0 <= j < n ==> outcomes[j] == init[j];
      }
    }
  }

  lemma {:induction false} CollectMembers(outcomes: seq<Result<seq<Date>, Error>>, start: Date, eofy: Date, x: Date)
    requires Collect(outcomes, start, eofy).Ok?
    ensures forall i :: 0 <= i < |outcomes| ==> outcomes[i].Ok?
    ensures x in Collect(outcomes, start, eofy).value <==>
      NotAfter(start, x) && NotAfter(x, eofy)
      && exists i :: 0 <= i < |outcomes| && x in outcomes[i].value
  {
    if outcomes != [] {
      var init := outcomes[..|outcomes| - 1];
      CollectMembers(init, start, eofy, x);
      forall i | 0 <= i < |outcomes|
        ensures outcomes[i].Ok?
      {
        if i < |outcomes| - 1 {
          assert init[i] == outcomes[i];
        }
      }
      if x in Collect(outcomes, start, eofy).value && x !in outcomes[|outcomes| - 1].value {
        var i :| 0 <= i < |init| && x in init[i].value;
        assert init[i] == outcomes[i];
      }
      if exists i :: 0 <= i < |outcomes| && x in outcomes[i].value {
        var i :| 0 <= i < |outcomes| && x in outcomes[i].value;
        if i < |outcomes| - 1 {
          assert init[i] == outcomes[i];
        }
      }
    }
  }

  // ---------------------------------------------------------------------
  // What single lines yield

  /** A line whose first character is `#` is a comment. */
  lemma CommentLine(raw: string)
    requires |raw| > 0 && raw[0] == '#'
    ensures LineDates(raw) == Ok([])
  {
  }

  /** A line of whitespace only adds nothing. */
  lemma BlankLine(raw: string)
    requires forall k :: 0 <= k < |raw| ==> IsSpace(raw[k])
    ensures LineDates(raw) == Ok([])
  {
    StripEmpty(raw);
  }

  /** A line that starts and ends with neither `#` nor whitespace is read as it is written. */
  lemma PlainLine(raw: string)
    requires |raw| > 0 && raw[0] != '#' && !IsSpace(raw[0]) && !IsSpace(raw[|raw| - 1])
    ensures LineDates(raw) == EntryDates(Replace(raw, " - ", " to "))
  {
    StripUnchanged(raw);
  }

  /** The two ends of a range, written with `sep` between them. */
  function RangeText(a: Date, b: Date, sep: string): string
    requires Representable(a) && Representable(b)
  {
    FormatDate(a) + sep + FormatDate(b)
  }

  /** Written dates joined by ` to ` make a range entry with those dates as its ends. */
  lemma ToEntry(ends: seq<string>)
    requires |ends| >= 2
    requires forall i :: 0 <= i < |ends| ==> Avoids(ends[i], ' ')
    ensures EntryDates(Join(" to ", ends)) == RangeDates(ends)
  {
    JoinContains(" to ", ends);
    SplitJoin(ends, " to ");
  }

  /** A range end as it may be written: no space and nothing that turns the line into a comment or a rewrite. */
  predicate IsEnd(e: string) {
    |e| > 0 && Avoids(e, ' ') && !IsSpace(e[0]) && !IsSpace(e[|e| - 1]) && e[0] != '#' && e[0] != '-'
  }

  lemma FormatEnd(d: Date)
    requires Representable(d)
    ensures IsEnd(FormatDate(d))
  {
    FormatChars(d);
  }

  /** Ends joined by ` to ` are read as a range entry with exactly those ends. */
  lemma ToLine(ends: seq<string>)
    requires |ends| >= 2
    requires forall i :: 0 <= i < |ends| ==> IsEnd(ends[i])
    ensures LineDates(Join(" to ", ends)) == RangeDates(ends)
  {
    JoinEnds(" to ", ends);
    PlainLine(Join(" to ", ends));
    ReplaceJoinTo(ends, " to ");
    ToEntry(ends);
  }

  /** Two ends joined by ` - ` are read as the same range as with ` to `. */
  lemma DashLine(fa: string, fb: string)
    requires IsEnd(fa) && IsEnd(fb)
    ensures LineDates(fa + " - " + fb) == RangeDates([fa, fb])
  {
    var ends := [fa, fb];
    assert fa + " - " + fb == Join(" - ", ends);
    JoinEnds(" - ", ends);
    PlainLine(Join(" - ", ends));
    ReplaceJoin(ends, " - ", " to ");
    ToEntry(ends);
  }

  lemma RangeLineDates(a: Date, b: Date, sep: string)
    requires Representable(a) && Representable(b)
    requires sep == " to " || sep == " - "
    ensures LineDates(RangeText(a, b, sep)) == Ok(Span(a, b))
  {
    var fa, fb := FormatDate(a), FormatDate(b);
    FormatEnd(a);
    FormatEnd(b);
    if sep == " to " {
      assert RangeText(a, b, sep) == Join(" to ", [fa, fb]);
      ToLine([fa, fb]);
    } else {
      DashLine(fa, fb);
    }
    RangeEnds(a, b);
  }

  /** Two written dates are the ends of the range between them. */
  lemma RangeEnds(a: Date, b: Date)
    requires Representable(a) && Representable(b)
    ensures RangeDates([FormatDate(a), FormatDate(b)]) == Ok(Span(a, b))
  {
    var fa, fb := FormatDate(a), FormatDate(b);
    ParseFormat(a);
    ParseFormat(b);
    var r := ParseAll([fa, fb]);
    assert r.Ok? && ParseDate(fa) == Some(r.value[0]) && ParseDate(fb) == Some(r.value[1]);
    assert r.value == [a, b];
  }

  /**
   * `A to B` and `A - B` both name every day from A to B inclusive, in
   * order; nothing when B is before A.
   */
  lemma RangeLine(a: Date, b: Date, sep: string)
    requires Representable(a) && Representable(b)
    requires sep == " to " || sep == " - "
    ensures LineDates(RangeText(a, b, sep)) == Ok(Span(a, b))
    ensures forall x :: ValidDate(x) ==> (x in Span(a, b) <==> NotAfter(a, x) && NotAfter(x, b))
    ensures Increasing(Span(a, b))
    ensures Span(a, b) == [] <==> Before(b, a)
  {
    RangeLineDates(a, b, sep);
    SpanMembers(a, b);
  }

  /** A line with two ` to ` separators is refused. */
  lemma ThreeEndedRange(a: Date, b: Date, c: Date)
    requires Representable(a) && Representable(b) && Representable(c)
    ensures LineDates(Join(" to ", [FormatDate(a), FormatDate(b), FormatDate(c)])) == Err(MalformedRange)
  {
    var ends := [FormatDate(a), FormatDate(b), FormatDate(c)];
    FormatEnd(a);
    FormatEnd(b);
    FormatEnd(c);
    ToLine(ends);
  }

  /** `x` is a zero-padded day number of the month of `d`. */
  predicate IsDayOf(d: Date, x: string)
    requires 1 <= d.month <= 12
  {
    |x| == 2 && AllDigits(x) && 1 <= Value(x) <= DaysInMonth(d.year, d.month)
  }

  /**
   * A later item of a comma list takes the year and month of the first
   * item; it names a date exactly when it is a zero-padded day of that month.
   */
  lemma ListItemDate(d: Date, x: string)
    requires Representable(d)
    ensures ListItem(FormatDate(d), x) == Pad4(d.year) + "-" + Pad2(d.month) + "-" + x
    ensures ParseDate(ListItem(FormatDate(d), x)).Some? <==> IsDayOf(d, x)
    ensures IsDayOf(d, x) ==> ParseDate(ListItem(FormatDate(d), x)) == Some(Date(d.year, d.month, Value(x)))
  {
    var y, m := Pad4(d.year), Pad2(d.month);
    ListItemText(d, x);
    var s := y + "-" + m + "-" + x;
    if IsDayOf(d, x) {
      var e := Date(d.year, d.month, Value(x));
      PadValue2(x);
      assert FormatDate(e) == s;
      ParseFormat(e);
    }
    if ParseDate(s).Some? {
      var e := ParseDate(s).value;
      ParseSound(s);
      assert s[..4] == y == Pad4(e.year);
      assert s[5..7] == m == Pad2(e.month);
      assert x == s[8..] == Pad2(e.day);
      ValuePad4(d.year);
      ValuePad4(e.year);
      ValuePad2(d.month);
      ValuePad2(e.month);
      ValuePad2(e.day);
    }
  }

  lemma ListItemText(d: Date, x: string)
    requires Representable(d)
    ensures ListItem(FormatDate(d), x) == Pad4(d.year) + "-" + Pad2(d.month) + "-" + x
  {
    var y, m, dd := Pad4(d.year), Pad2(d.month), Pad2(d.day);
    FormatFields(d);
    DigitsAvoidDash(y);
    DigitsAvoidDash(m);
    DigitsAvoidDash(dd);
    SplitJoin([y, m, dd], "-");
    assert [y, m, dd][..2] + [x] == [y, m, x];
    assert [y, m, x][1..] == [m, x] && [m, x][1..] == [x];
    assert Join("-", [m, x]) == m + "-" + x;
  }

  /** An item of a comma list: no whitespace and no comma. */
  predicate IsItem(x: string) {
    NoSpaces(x) && Avoids(x, ',')
  }

  lemma NoSpacesAvoid(s: string)
    requires NoSpaces(s)
    ensures Avoids(s, ' ')
  {
    forall k | 0 <= k < |s|
      ensures s[k] != ' '
    {
      assert !IsSpace(s[k]);
    }
  }

  /** A line with no whitespace, no ` to ` and no ` - ` reaches the comma test as written. */
  lemma SpacelessLine(line: string)
    requires |line| > 0 && line[0] != '#' && NoSpaces(line)
    ensures LineDates(line) ==
      if Contains(line, ",") then ListDates(Split(line, ",")) else ParseAll([line])
  {
    NoSpacesAvoid(line);
    PlainLine(line);
    AvoidsNotContains(line, " - ");
    ReplaceAbsent(line, " - ", " to ");
    AvoidsNotContains(line, " to ");
  }

  /** Items joined by commas, with no whitespace anywhere, are read as a comma list of exactly those items. */
  lemma CommaLine(parts: seq<string>)
    requires |parts| >= 2 && |parts[0]| > 0 && parts[0][0] != '#'
    requires forall i :: 0 <= i < |parts| ==> IsItem(parts[i])
    ensures LineDates(Join(",", parts)) == ListDates(parts)
  {
    var line := Join(",", parts);
    JoinNoSpaces(",", parts);
    assert line == parts[0] + ("," + Join(",", parts[1..]));
    assert line[0] == parts[0][0];
    JoinContains(",", parts);
    SplitJoin(parts, ",");
    CommaEntry(line);
  }

  /** A line with a comma and no whitespace is read as a comma list. */
  lemma CommaEntry(line: string)
    requires |line| > 0 && line[0] != '#' && NoSpaces(line) && Contains(line, ",")
    ensures LineDates(line) == ListDates(Split(line, ","))
  {
    SpacelessLine(line);
  }

  /** A comma list written without whitespace reaches `strptime` as the first item and the completed later ones. */
  lemma ListLineTexts(d: Date, xs: seq<string>)
    requires Representable(d) && |xs| >= 1
    requires forall i :: 0 <= i < |xs| ==> IsItem(xs[i])
    ensures LineDates(Join(",", [FormatDate(d)] + xs)) == ParseAll(ListTexts(FormatDate(d), xs))
  {
    FormatChars(d);
    ItemsLine(FormatDate(d), xs);
  }

  /** A first item that cannot start a comment, then later items, read as that comma list. */
  lemma ItemsLine(f: string, xs: seq<string>)
    requires IsItem(f) && |f| > 0 && f[0] != '#' && |xs| >= 1
    requires forall i :: 0 <= i < |xs| ==> IsItem(xs[i])
    ensures LineDates(Join(",", [f] + xs)) == ParseAll(ListTexts(f, xs))
  {
    var parts := [f] + xs;
    forall i | 0 <= i < |parts|
      ensures IsItem(parts[i])
    {
      if i > 0 {
        assert parts[i] == xs[i - 1];
      }
    }
    CommaLine(parts);
    assert parts[0] == f && parts[1..] == xs;
  }

  /**
   * A comma list `D,x1,...,xn` names D and, for each item, the day it
   * pads in D's month; it is refused unless every item is such a day.
   */
  lemma ListLine(d: Date, xs: seq<string>)
    requires Representable(d) && |xs| >= 1
    requires forall i :: 0 <= i < |xs| ==> IsItem(xs[i])
    ensures LineDates(Join(",", [FormatDate(d)] + xs)).Ok? <==> forall i :: 0 <= i < |xs| ==> IsDayOf(d, xs[i])
    ensures LineDates(Join(",", [FormatDate(d)] + xs)).Ok? ==>
      var r := LineDates(Join(",", [FormatDate(d)] + xs)).value;
      |r| == |xs| + 1 && r[0] == d
      && forall i :: 0 <= i < |xs| ==> IsDayOf(d, xs[i]) && r[i + 1] == Date(d.year, d.month, Value(xs[i]))
  {
    ListLineTexts(d, xs);
    ListTextsParse(d, xs);
  }

  lemma ListTextsParse(d: Date, xs: seq<string>)
    requires Representable(d)
    ensures ParseAll(ListTexts(FormatDate(d), xs)).Ok? <==> forall i :: 0 <= i < |xs| ==> IsDayOf(d, xs[i])
    ensures ParseAll(ListTexts(FormatDate(d), xs)).Ok? ==>
      var r := ParseAll(ListTexts(FormatDate(d), xs)).value;
      |r| == |xs| + 1 && r[0] == d
      && forall i :: 0 <= i < |xs| ==> IsDayOf(d, xs[i]) && r[i + 1] == Date(d.year, d.month, Value(xs[i]))
  {
    ParseFormat(d);
    ItemsParse(d, xs);
    ParseList(FormatDate(d), d, xs);
  }

  /** Each later item, completed from the written form of `d`, reads as its day of `d`'s month. */
  lemma ItemsParse(d: Date, xs: seq<string>)
    requires Representable(d)
    ensures forall i :: 0 <= i < |xs| ==>
      (ParseDate(ListItem(FormatDate(d), xs[i])).Some? <==> IsDayOf(d, xs[i]))
      && (IsDayOf(d, xs[i]) ==> ParseDate(ListItem(FormatDate(d), xs[i])) == Some(Date(d.year, d.month, Value(xs[i]))))
  {
    forall i | 0 <= i < |xs|
      ensures ParseDate(ListItem(FormatDate(d), xs[i])).Some? <==> IsDayOf(d, xs[i])
      ensures IsDayOf(d, xs[i]) ==> ParseDate(ListItem(FormatDate(d), xs[i])) == Some(Date(d.year, d.month, Value(xs[i])))
    {
      ListItemDate(d, xs[i]);
    }
  }

  /** A comma list parses when each completed item does, into the first date and then the items' days. */
  lemma ParseList(first: string, d: Date, xs: seq<string>)
    requires Representable(d) && ParseDate(first) == Some(d)
    requires forall i :: 0 <= i < |xs| ==>
      (ParseDate(ListItem(first, xs[i])).Some? <==> IsDayOf(d, xs[i]))
      && (IsDayOf(d, xs[i]) ==> ParseDate(ListItem(first, xs[i])) == Some(Date(d.year, d.month, Value(xs[i]))))
    ensures ParseAll(ListTexts(first, xs)).Ok? <==> forall i :: 0 <= i < |xs| ==> IsDayOf(d, xs[i])
    ensures ParseAll(ListTexts(first, xs)).Ok? ==>
      var r := ParseAll(ListTexts(first, xs)).value;
      |r| == |xs| + 1 && r[0] == d
      && forall i :: 0 <= i < |xs| ==> IsDayOf(d, xs[i]) && r[i + 1] == Date(d.year, d.month, Value(xs[i]))
  {
    var texts := ListTexts(first, xs);
    if !(forall i :: 0 <= i < |xs| ==> IsDayOf(d, xs[i])) {
      var i :| 0 <= i < |xs| && !IsDayOf(d, xs[i]);
      assert texts[i + 1] == ListItem(first, xs[i]);
      assert !ParseDate(texts[i + 1]).Some?;
    } else {
      forall k | 0 <= k < |texts|
        ensures ParseDate(texts[k]).Some?
      {
        if k > 0 {
          assert texts[(k - 1) + 1] == ListItem(first, xs[k - 1]);
        }
      }
      var r := ParseAll(texts).value;
      forall i | 0 <= i < |xs|
        ensures r[i + 1] == Date(d.year, d.month, Value(xs[i]))
      {
        assert texts[i + 1] == ListItem(first, xs[i]);
        assert ParseDate(texts[i + 1]) == Some(r[i + 1]);
      }
    }
  }

  /** A single written date names just that date. */
  lemma SingleLine(d: Date)
    requires Representable(d)
    ensures LineDates(FormatDate(d)) == Ok([d])
  {
    var f := FormatDate(d);
    FormatChars(d);
    SpacelessLine(f);
    AvoidsNotContains(f, ",");
    ParseFormat(d);
    var r := ParseAll([f]);
    assert r.Ok? && ParseDate(f) == Some(r.value[0]);
    assert r.value == [d];
  }

  /**
   * The range test comes first: a line with both ` to ` and a comma is a
   * range, and a comma list cannot stand as its second end.
   */
  lemma RangeBeforeList(a: Date, b: Date, x: string)
    requires Representable(a) && Representable(b) && |x| > 0 && IsItem(x)
    ensures LineDates(Join(" to ", [FormatDate(a), FormatDate(b) + "," + x])) == Err(InvalidDate)
  {
    var fa, fb := FormatDate(a), FormatDate(b);
    var tail := fb + "," + x;
    FormatEnd(a);
    FormatEnd(b);
    NoSpacesAvoid(x);
    AppendEnd(fb, x);
    ToLine([fa, tail]);
    assert |tail| > 10;
    assert ParseDate(tail) == None;
    assert ParseAll([fa, tail]) == Err(InvalidDate);
    assert RangeDates([fa, tail]) == Err(InvalidDate);
  }

  lemma AppendEnd(e: string, x: string)
    requires IsEnd(e) && |x| > 0 && Avoids(x, ' ') && !IsSpace(x[|x| - 1])
    ensures IsEnd(e + "," + x)
  {
    var t := e + "," + x;
    forall k | 0 <= k < |t|
      ensures t[k] != ' '
    {
      if k > |e| {
        assert t[k] == x[k - |e| - 1];
      } else if k < |e| {
        assert t[k] == e[k];
      }
    }
    assert t[|t| - 1] == x[|x| - 1];
  }
}
