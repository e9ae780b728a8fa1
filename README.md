# Machinery & operator productivity metrics, modelled in Dafny

This project models the calculation core of the productivity dashboard in
`app.py`, a page that reads a log of machine and operator work hours. The
core has three stages:

1. **Loading.** The `Hours` column is derived from the `Total Hours` text
   (`time_to_hours`). The text is split on `:`. It must give exactly three
   integer fields, read as `h + m/60 + s/3600`. A text that splits into a
   different number of fields, or has a field `int` rejects, gives `0.0`
   and never raises (module `Duration`). In the dashboard, float overflow
   can also give `0.0` or `inf`; see "## Left out". The column is written
   into the frame in place, row by row (module `WorkLog`, an array method).
2. **Filtering.** The frame is copied and narrowed one selection at a time:
   - by the selected operators, when the list is non-empty;
   - by the selected machines, when the list is non-empty;
   - by an inclusive date range, only when the date widget hands back a
     tuple of exactly two dates.

   Module `Filters` models this staged pipeline. It proves the pipeline
   equal to the conjunctive reference predicate `Accepts`: the result is an
   order-preserving subsequence of the input, and it keeps exactly the rows
   every active filter accepts.
3. **Indicators and grouped sums.** Module `Metrics` gives:
   - total hours;
   - calendar days, the number of distinct dates;
   - standard days, total hours divided by `HOURS_PER_DAY = 8`;
   - intensity, `standard_days / calendar_days * 100`, or 0 when there are
     no calendar days.

   Module `Grouping` gives the hours per operator and the hours per date.
   As with pandas' default `groupby`, there is one group per distinct key,
   in ascending key order. The groups add up to the total. Narrowing the
   grouped rows to that key alone gives the group's hours.

Module `Scenario` proves what the whole pipeline gives for a three-row frame.

Modelling choices:
- Hours are exact `real`s rather than binary floats.
- Dates are integers (day numbers), so their order is calendar order.
- A filter selection is a list. An empty list means "nothing selected".
- The date widget's value is either one date (`SingleDate`) or a tuple of
  any length (`DateTuple`). So the `isinstance(..., tuple) and len(...) == 2`
  guard is explicit.
- `int(token)` accepts an optional `+` or `-` and then one or more ASCII
  digits. So a signed field such as `-1:30:00` gives `-0.5` hours, as the
  code does. The hour field is not bounded to 24.

The file computes only one day count: the number of distinct dates.
Intensity always uses it as its denominator. There is no "total log entries"
count in this file. There is also no machine-by-operator sum table: the
stacked bar chart is built by the charting library straight from the
filtered rows.

## Model

| member | source | states |
|---|---|---|
| `Duration.Split` | app.py:23 | `str.split(':')` always yields at least one piece and no piece contains the separator |
| `Duration.JoinSplit` | app.py:23 | joining the pieces of a split with the separator gives back the original text, so every text is the join of its own fields |
| `Duration.SplitJoin` | app.py:23 | splitting pieces joined by the separator gives the pieces back, when no piece contains it |
| `Duration.ParseInt` | app.py:23 | a token that `int` accepts is non-empty and is digits with an optional leading sign, and a lone `+` or `-` is rejected; its value is non-positive after `-` and non-negative otherwise; the converse is `ParseIntAccepts` |
| `Duration.ParseIntAccepts` | app.py:23 | every token of the grammar is accepted: plain digits (leading zeros allowed, as in `08`) give their value, `+` digits the same value, `-` digits its negation |
| `Duration.ParseFormat` | app.py:23 | `int(str(n)) == n` for every integer `n`, negatives included |
| `Duration.TimeToHours` | app.py:21-26 | a text that does not split into exactly three fields, or whose three fields are not all integers, gives 0.0; the value of three integer fields is `ThreeFields`, and `NonZeroMeansThreeFields` is the converse |
| `Duration.ThreeFields` | app.py:21-24 | three integer fields `h`, `m`, `s` joined by colons give exactly `(3600h + 60m + s) / 3600` hours, with `h` unbounded |
| `Duration.DigitFields` | app.py:21-24 | three digit fields, zero-padded or not (`08:30:00`), give their total seconds over 3600 |
| `Duration.FormattedDuration` | app.py:21-24 | the same for the text of any three integers, such as 25 hours or more |
| `Duration.WrongFieldCount` | app.py:22-26 | a text of one, two, four or more colon-separated fields gives 0.0 |
| `Duration.NonIntegerField` | app.py:22-26 | three fields of which at least one is not an integer (empty, letters, a lone sign) give 0.0 |
| `Duration.NonZeroMeansThreeFields` | app.py:22-26 | a non-zero result only comes from a text that is exactly three colon-joined integer fields |
| `Duration.UnsignedIsNonNegative` | app.py:23-24 | a text with no minus sign never yields negative hours |
| `Duration.WholeHours` | app.py:21-24 | `D:00:00` for a single digit `D` is exactly `D` hours |
| `Duration.ExampleTwoThirty` | app.py:21-24 | `"2:30:00"` is 2.5 hours |
| `Duration.ExampleZero` | app.py:21-24 | `"0:00:00"` is 0.0 hours, a well-formed zero |
| `Duration.ExampleTwentyFive` | app.py:21-24 | `"25:00:00"` is 25.0 hours: hours past a day are kept |
| `Duration.ExampleSignedHour` | app.py:21-24 | `"-1:30:00"` is -0.5 hours, because `int` accepts the sign |
| `Duration.MalformedEmpty` | app.py:22-26 | `""` gives 0.0: it splits into one empty field |
| `Duration.MalformedNoColon` | app.py:22-26 | `"abc"` gives 0.0: one field only |
| `Duration.MalformedTwoFields` | app.py:22-26 | `"1:2"` gives 0.0: too few fields to unpack |
| `Duration.MalformedFourFields` | app.py:22-26 | `"1:2:3:4"` gives 0.0: too many fields to unpack |
| `Duration.MalformedLoneSign` | app.py:22-26 | `"-:30:00"` gives 0.0: `int` rejects a sign with no digits |
| `Duration.MalformedEmptyField` | app.py:22-26 | `"1::3"` gives 0.0: `int` rejects the empty middle field |
| `WorkLog.WithHours` | app.py:28 | one row's update: its `Hours` becomes the parse of its own `Total Hours` text, and operator, machine, date and text are unchanged |
| `WorkLog.AddHoursColumn` | app.py:28 | in place, every row's `Hours` becomes the parse of its own `Total Hours` text; nothing else in any row changes |
| `WorkLog.WithHoursIdempotent` | app.py:28 | deriving the column again changes nothing and leaves the text untouched |
| `Filters.Keep` | app.py:54 | a boolean-mask selection is no longer than its input and everything in it passes the mask |
| `Filters.KeepIsSubsequence` | app.py:54 | a mask selection keeps its rows in their original order |
| `Filters.KeepCount` | app.py:54 | a mask selection keeps every copy of a passing row and no copy of a failing one |
| `Filters.KeepAll` | app.py:54 | a mask that every row passes selects the whole input |
| `Filters.OperatorStage` | app.py:53-54 | no longer than its input, every row kept is an input row with a selected operator, and an empty selection keeps the input; exact multiplicities and order in `StagesSelect`, `StagesKeepOrder` |
| `Filters.MachineStage` | app.py:56-57 | the same for the selected machines |
| `Filters.DateStage` | app.py:59-62 | the same for the inclusive date range, which only a tuple of exactly two dates activates |
| `Filters.ApplyFilters` | app.py:51-62 | no longer than its input, every row kept is an input row that every active filter accepts, and with nothing selected the input comes back unchanged; the full characterisation is `FilterCharacterisation` |
| `Filters.StagesKeepOrder` | app.py:53-62 | each of the three stages returns a subsequence of its input |
| `Filters.StagesSelect` | app.py:53-62 | each stage keeps exactly the rows its own filter accepts; an inactive stage keeps everything |
| `Filters.FilterCharacterisation` | app.py:51-62 | the staged narrowing returns an order-preserving subsequence holding every copy of each row that all active filters accept and nothing else |
| `Filters.KeptIffAccepted` | app.py:53-62 | a row is in the result if and only if it is in the input and passes every active filter |
| `Filters.AllAcceptedUnchanged` | app.py:51-62 | when every row passes every active filter, the result is the input itself |
| `Filters.FilterIdempotent` | app.py:53-62 | filtering an already filtered frame with the same selections returns it unchanged |
| `Filters.RangeEndsInclusive` | app.py:59-62 | rows dated exactly on the start or the end day of the range are kept |
| `Filters.IncompleteRangeIgnored` | app.py:59 | a date selection that is not a 2-tuple restricts nothing, and a row's date then plays no part |
| `Filters.FilterKeepsDerivedHours` | app.py:51-62 | filtering keeps every row's `Hours` consistent with its text |
| `Metrics.TotalHours` | app.py:65 | an empty frame sums to 0; rows with non-negative hours give a non-negative total; sums of concatenations in `TotalHoursAppend` |
| `Metrics.CalendarDays` | app.py:68 | at most the row count, and 0 exactly for an empty frame |
| `Metrics.Intensity` | app.py:74 | with calendar days, intensity times calendar days is 100 times the standard days; without, 0; never negative for non-negative standard days |
| `Metrics.StandardDays` | app.py:71 | standard days times 8 is the total hours |
| `Metrics.ComputeKpis` | app.py:65-74 | calendar days is at most the row count and 0 only for an empty frame; standard days times 8 is total hours; with calendar days, intensity is `standard_days / calendar_days * 100`, so intensity times `8 * calendar_days` is `100 * total`; without calendar days, intensity is 0 |
| `Metrics.IntensityAgainstShiftHours` | app.py:73-74 | intensity compares the hours worked with one full shift on every active day |
| `Metrics.DatesOfBounds` | app.py:68 | between 1 and the row count distinct dates for a non-empty frame, 0 for an empty one |
| `Metrics.TotalHoursAppend` | app.py:65 | the sum of the hours of two frames back to back is the sum of their sums |
| `Metrics.EmptyFrameIndicators` | app.py:65-74 | an empty frame gives total 0, calendar days 0, standard days 0 and intensity 0 |
| `Metrics.NonNegativeIndicators` | app.py:65-74 | non-negative hours on every row give non-negative total, standard days and intensity |
| `Metrics.FilterShrinksCalendarDays` | app.py:51-68 | filtering never adds a calendar day |
| `Grouping.StrLess` | app.py:104 | Python's `<` on strings relates only different strings; with `StrLessIsStrictTotalOrder` it is a strict total order |
| `Grouping.StrLessIsStrictTotalOrder` | app.py:104 | Python's string order, used to order the operator groups, is irreflexive, transitive and total |
| `Grouping.Accumulate` | app.py:104 | adding one row's hours gives a non-empty group list that is as long as before or one longer; totals, keys and order in the `Accumulate` lemmas below |
| `Grouping.AccumulateTotal` | app.py:104 | adding a row's hours to the groups raises their sum by exactly those hours |
| `Grouping.AccumulateSorted` | app.py:104 | adding a row's hours keeps the groups in strictly ascending key order |
| `Grouping.GroupSum` | app.py:104-109 | at most one group per row, and no groups exactly for an empty frame; the full characterisation is `GroupSumCorrect` |
| `Grouping.GroupSumConserves` | app.py:104 | the groups of a grouped sum add up to the frame's total hours |
| `Grouping.GroupSumKeys` | app.py:104 | the group keys are exactly the distinct keys present in the frame |
| `Grouping.GroupSumHoursOf` | app.py:104 | the hours listed under a key equal the hours of the rows having that key |
| `Grouping.GroupSumSorted` | app.py:104 | the groups come out in strictly ascending key order |
| `Grouping.GroupSumCorrect` | app.py:104 | one group per distinct key, in ascending order, each holding the sum over exactly its own rows; the groups add up to the total |
| `Grouping.HoursByOperator` | app.py:104 | hours per operator: operators in name order, one line each, each the sum of that operator's rows, all adding up to total hours |
| `Grouping.HoursByDate` | app.py:109 | hours per date: dates in calendar order, one line per calendar day (as many as the calendar-day count), all adding up to total hours |
| `Grouping.OperatorShareMatchesFilter` | app.py:104 | an operator's share equals the total hours shown when only that operator is selected |
| `Grouping.DateShareMatchesFilter` | app.py:109 | a day's trend value equals the total hours shown for the one-day range of that date |
| `Scenario.ExampleFrameLoaded` | app.py:28 | the example rows' hours (4, 4, 8) are what loading derives from `4:00:00` and `8:00:00` |
| `Scenario.ExampleIndicators` | app.py:65-74 | two 4-hour rows on one day and an 8-hour row on the next, with nothing selected, give 16 hours, 2 calendar days, 2 standard days and 100% intensity |
| `Scenario.ExampleGroups` | app.py:104-109 | the same rows give 8 and 8 hours per operator, in name order, and 8 and 8 hours per day |

## Left out

- Page setup, sidebar widgets, KPI tiles, the divider, the expander and the table view (app.py:6, 12-13, 35-48, 76-84, 113-115): presentation.
- The three Plotly charts and the descending sort of the operator table (app.py:86-111): presentation. The model keeps the sums themselves and pandas' ascending key order.
- The sorted option lists the widgets offer (app.py:38, 42): they only feed the widgets.
- Reading the CSV file and the `@st.cache_data` memoisation (app.py:16-18, 32): file I/O and caching. The model starts from the frame as an array, or a sequence, of rows.
- `pd.to_datetime` (app.py:29): a library call. Dates are modelled as already-parsed calendar days, numbered so that later days are larger.
- Time of day: `nunique` and `groupby` on `Worked Date` compare full timestamps, while the range filter compares `.dt.date`. With day-number dates the two agree. They differ only if the log carried times of day, which the model does not represent.
- Floating point: hours are exact reals. The rounding of `m/60`, `s/3600` and the column sum, and the `.2f`/`.1f` formatting (app.py:79-82), are not modelled.
- Duration.ParseInt: accepts only an optional sign followed by ASCII digits. Python's `int` also trims surrounding whitespace and accepts `_` between digits and non-ASCII decimal digits. Texts using those give 0.0 here but a number in the dashboard. CPython (from 3.11, and the September 2022 security releases of 3.7 to 3.10) also rejects a string of more than 4300 digits, leading zeros included. So a field that long gives 0.0 in the dashboard but its value here.
- Duration.TimeToHours: does not model float overflow. In the dashboard, Python raises `OverflowError` when `h`, `m/60` or `s/3600` is past the float range (about 1.8e308), and the bare `except` then gives 0.0. When each of the three terms fits but their sum does not, the dashboard returns `inf` without raising. The model gives the exact value in every case.
- Missing cells: a `Row` always holds a date and a text. A missing `Worked Date` (NaT after `pd.to_datetime`) is not represented. pandas' `groupby` and `nunique` skip NaT keys, while `total_hrs` still counts such a row's hours; one survives the filter whenever the date range is inactive. With such rows the daily trend would not add up to total hours (`HoursByDate`) and calendar days would not count them. Neither happens in the model.
- Duration.TimeToHours: takes a string. The `str()` coercion of non-string cells, such as a missing value that becomes `"nan"` (and so 0.0), is not modelled.
- `filtered_df.drop(columns=['Hours'])` for the table view (app.py:115): presentation.
