# Leave calculator (hours.py) in Dafny

`hours.py` is a command-line leave calculator. Given a start date (or the
first of the current month) and the month a financial year ends in, it
works out the end of that financial year and lists the business days
(Monday to Friday) from the start to that end. It takes out the statutory
holidays of the window and the personal leave listed in a leave file, then
prints a table. The table has one row per month of the window and one row
for the whole year. Each row counts leave days ("H.day"), working days
("W.day") and chargeable hours ("Chg Hrs", working days times the hours in
a workday).

The leave file holds one entry per line:

- a line whose first character is `#` is a comment;
- a blank line is skipped;
- `A to B` (or `A - B`) is every day from A to B inclusive;
- `2018-03-05,07,12` is a comma list, whose later items are day numbers in the first item's year and month;
- anything else is a single date.

Only dates inside the window are kept.

The model has these modules:

- `Dates`: the proleptic Gregorian calendar as Python's `datetime` sees it.
  It covers month lengths, `toordinal`, `weekday`, the next day, date order
  and the inclusive run of days between two dates.
- `DateText`: `strptime(s, '%Y-%m-%d')`, taken strictly, and the written form of a date. The two are proved mutually inverse.
- `Text`: the Python string operations the leave file reader uses: `strip`, `in`, `split`, `join` and `replace`.
- `Seqs`: list comprehensions with a condition (`Filter`), and counting.
- `FiscalYear`: the start date, the end of the financial year, the years
  and months lists, and the business days.
- `LeaveFile`: what one line of the leave file names, and the loop that
  reads the file (an imperative method).
- `Tally`: the split into leave and working days, the rows of the table and
  the report loop (an imperative method).
- `Hours`: one run of the script, from the arguments to the table.

The leave file loop is written once, as `LeaveFile.ReadLines`. It is
parameterised by the function that reads one line. `LeaveFile.ReadLeave`
calls it with the real line reader, `LeaveFile.LineDates`.

## Model

| member | source | states |
|---|---|---|
| Dates.DaysInMonth | hours.py:57-60 | a month has 28 to 31 days, and 29 exactly in February of a leap year (`calendar.monthrange`) |
| Dates.Next | hours.py:67 | the next day is a valid date after the given one: the following day of the same month, or the first of a month |
| Dates.NextOrdinal | hours.py:67 | `d + timedelta(days=1)` has day number `toordinal(d) + 1` |
| Dates.NextWeekday | hours.py:68 | the weekday of the next day is one more, with Sunday followed by Monday |
| Dates.OrdinalOrder | hours.py:75 | comparing two dates field by field agrees with comparing their day numbers |
| Dates.OrdinalInjective | hours.py:67 | two valid dates with the same day number are the same date |
| Dates.SpanMembers | hours.py:95 | the run from A to B holds exactly the valid dates with A ≤ x ≤ B, in increasing order, and (B − A).days + 1 of them; it is empty exactly when B is before A |
| DateText.ParseDateIff | hours.py:51 | the parser returns date d for text s exactly when d is a date a `datetime` can hold and s is d written as YYYY-MM-DD |
| DateText.ParseFormat | hours.py:94 | every representable date reads back from its written form |
| DateText.ParseSound | hours.py:100 | any text the parser accepts is the written form of the date it returns |
| FiscalYear.StartDate | hours.py:50-54 | without `--date`, the start is the first of today's month; with it, the start is the date the argument parses to, and InvalidDate when it does not parse |
| FiscalYear.Resolve | hours.py:56-65 | the window resolves exactly when the end month is in 1..12 and the year would not end after year 9999; an end month outside 1..12 gives InvalidMonth and an end after 9999 gives YearOutOfRange. Otherwise the end of the year is the last day of the end month, in the start's year when the start month is not later than the end month and in the next year when it is. The start is on or before that day, and `years` is the start's year followed by the end's year when the two differ |
| FiscalYear.ResolveIsFirst | hours.py:59-63 | no last day of the end month between the start and the computed end: the end is the first such month end on or after the start |
| FiscalYear.YearsCover | hours.py:65 | every day of the window lies in one of the listed years |
| FiscalYear.MonthsInFy | hours.py:70 | the months list has one entry for each month from the start month to the end month, going past December into January when the start month is later; entry i is the month i months after the start |
| FiscalYear.MonthsInFyShape | hours.py:70 | the months list has 1 to 12 entries, starts with the start month and ends with the end month, and each entry is followed by the next month (December by January). Every entry is a month number and none appears twice |
| FiscalYear.MonthsCover | hours.py:70 | the month of every day in the window is in the months list |
| FiscalYear.BusinessDaysMembers | hours.py:67-68 | the business days are exactly the valid dates from start to end inclusive with weekday below 5, in increasing order |
| LeaveFile.ParseAll | hours.py:94 | a list of texts reads as dates exactly when every text parses, one date per text in order; otherwise InvalidDate |
| LeaveFile.ReadLines | hours.py:83-104 | the loop over the lines stops with the first failing line's error; otherwise it ends with the statutory holidays followed by the in-window dates of each line in file order, as the `Collect` function of the line outcomes states |
| LeaveFile.ReadLeave | hours.py:83-104 | reading the leave file fails exactly when `LeaveFromLines` fails, and with its error (the first failing line's, by `LeaveFromLinesErrors`); otherwise the leave list is the statutory holidays followed by what `LeaveFromLines` keeps |
| LeaveFile.LeaveFromLinesErrors | hours.py:83-104 | reading the leave file fails exactly when some line fails, and then with the error of the first line that fails, every earlier line having read successfully |
| LeaveFile.CollectKeepsError | hours.py:93-94 | once a line has raised, later lines change nothing: the outcome is that line's error |
| LeaveFile.LeaveFromLinesMembers | hours.py:104 | after a successful read every line read successfully, and a date is kept exactly when it lies in the window and some line names it |
| LeaveFile.LeaveInWindow | hours.py:104 | every date kept from the leave file lies between the start and the end of the year |
| LeaveFile.CommentLine | hours.py:84-85 | a line whose first character is `#` adds no dates |
| LeaveFile.BlankLine | hours.py:86-88 | a line of whitespace only adds no dates |
| LeaveFile.PlainLine | hours.py:86-90 | a line with neither `#` nor surrounding whitespace is read with ` - ` rewritten to ` to ` and no other change |
| LeaveFile.DashLine | hours.py:90 | `A - B` is read as the same range as `A to B` |
| LeaveFile.RangeLine | hours.py:91-95 | `A to B` and `A - B` both name every day from A to B inclusive, increasing, and nothing when B is before A |
| LeaveFile.ThreeEndedRange | hours.py:92-93 | a range line with three ends is refused with MalformedRange |
| LeaveFile.RangeBeforeList | hours.py:91-96 | the range test comes before the comma test: `A to B,x` is read as a range whose second end does not parse, so it raises InvalidDate |
| LeaveFile.ListItemDate | hours.py:98-99 | a later comma list item is completed with the first item's year and month; the completed text is a date exactly when the item is a zero-padded day of that month, and then it is that day |
| LeaveFile.ListLine | hours.py:96-100 | `D,x1,...,xn` reads exactly when every item is a day of D's month, and then names D followed by those days in order |
| LeaveFile.SingleLine | hours.py:101-102 | a line holding one written date names just that date |
| Text.StripEmpty | hours.py:86-87 | a stripped line is empty exactly when the line is all whitespace |
| Text.SplitCount | hours.py:91-93 | splitting on a separator gives two or more parts exactly when the separator occurs |
| Text.SplitJoin | hours.py:92 | splitting joined parts gives back the parts when no part holds the separator's first character |
| Text.JoinSplit | hours.py:97 | joining the parts of a split gives back the line |
| Text.ReplaceJoin | hours.py:90 | replacing the separator of joined parts joins them with the replacement instead |
| Tally.WorkingMembers | hours.py:109-110 | a day is a working day exactly when it is a business day and no leave entry names it |
| Tally.WorkingSkipsLeave | hours.py:110 | the working days are the business days without the leave days, in business day order |
| Tally.NonBusinessLeaveIgnored | hours.py:109 | leave on a weekend day changes neither the leave days counted nor the working days |
| Tally.FyHeldCount | hours.py:112-113 | the year's leave count is the number of business days some entry names, and the leave count plus the working count is the business day count |
| Tally.FyHeldDistinct | hours.py:109-112 | with the business days listed once each, the year's leave count is the number of distinct dates that are both business days and leave |
| Tally.HeldCoversFy | hours.py:109-112 | the year's leave count never exceeds the length of `holiday_days` |
| Tally.MonthTotals | hours.py:117-120 | when every business day's month is listed once, the monthly working counts add up to all working days and the monthly leave counts add up to all of `holiday_days` |
| Tally.Report | hours.py:117-123 | the report loop yields the month rows in the order of the months list, then the year row with leave = business days − working days |
| Tally.TableTotals | hours.py:112-123 | the table has a row per month and then the year row; the monthly working days and charges add up to the year row's; the year row's leave and working days make up the business days; the monthly leave days add up to every leave entry on a business day, at least the year's count |
| Tally.DoubleEntry | hours.py:119 | a business day entered twice as leave shows two leave days in its month row and one in the year row |
| Hours.WindowOf | hours.py:50-65 | a run's window exists exactly when the start date is found and resolves; a bad `--date` gives its error; the window starts at the start date (the parsed `--date`, or the first of today's month) and is what `Resolve` gives for it |
| Hours.WindowFacts | hours.py:67-70 | for a resolved window, the months list and the business days hold no repeats, and every business day's month is listed |
| Hours.Run | hours.py:50-123 | a bad `--date` or end month ends the run with that error, and so does a failing leave line. Otherwise the run reports: the window; the months list; the in-window statutory holidays followed by the leave file's dates; and the table. The table's monthly working days and charges add up to the year row, and the year row's leave days are the distinct business days with leave |

## Left out

- Argument parsing, output and the HTML file (lines 10-48, 73, 82, 106-107, 114-116, 125-130) are left out. In particular the `print` and `write` calls, the number formatting of the table, and the `--wait` prompt. A run returns the table as values.
- The clock (`datetime.now()`, line 53) is the `today` parameter of `Hours.Run`.
- The `holidays` library (line 74) is the `holidaysFor` parameter. It maps the years list to the statutory holidays, and the model keeps whatever order it returns them in.
- Whether the leave file exists, the fall-back to `~/holidays.txt` and `--noleave` (lines 77-81) are folded into the `leaveLines` parameter. That parameter holds the file's lines, or `None` when there is no file to read.
- The `--hours` value is the exact `real` number a workday charges. Floating point rounding of `nwork * hours` is not modelled.
- DateText.ParseDate: accepts only the zero-padded `YYYY-MM-DD` form. Python's `strptime` also accepts unpadded fields such as `2018-3-5`, and it raises ValueError in other ways the model does not distinguish. Every failure becomes `InvalidDate`.
- The month names of `calendar.month_name` (line 118) are not modelled. A month row carries its month number (`Tally.Label`).
- Tally.Row: the chargeable hours are not a field of the row. They are computed from it by `Tally.Charge`, working days times hours.
- The Python exceptions the run can raise become `Result` errors:
  - `InvalidDate` for ValueError from `strptime`;
  - `MalformedRange` for the assertion on line 93;
  - `InvalidMonth` when `calendar.monthrange` is handed an end month outside 1..12;
  - `YearOutOfRange` when the end of the year would fall after year 9999.
- Under `python -O` the assertion on line 93 is removed. A range line with three or more ends would then still parse every end on line 94, so a malformed end still raises, but the range built on line 95 would use only the first two ends. That mode is not modelled: the model always refuses such a line with MalformedRange.
- LeaveFile.LineDates: an empty raw line, which iterating over a file never produces, is read as blank. `line[0]` would raise IndexError on it.
- The unused `ed` (line 57) and the commented-out lines 62 and 71 are not modelled.
