# Overtime engine of the working-time checker

The working-time checker reads a scanned timesheet. It turns each line into
a table row: date, start-end range, declared net time, break. It then
recalculates the table. Each shift is walked minute by minute. The break
comes first in the span, and every later minute gets a multiplier band:

- ×1.0 standard;
- ×1.5 for a working-day minute that is at night or past eight worked hours;
- ×2.0 for a working-day minute that is both, or a non-working-day minute
  that is either;
- ×2.5 for a non-working-day minute that is both.

The period summary adds the bands over all rows. Working days declared
under eight hours add their shortfall to a deficit. The deficit is netted
against the ×1.5 total only, floored at zero (the flexible-work offset).

Modelling choices:

- Everything is kept in integer minutes.
- Multipliers are doubled (2, 3, 4, 5) so that weighted totals stay integral.
- A clock time is minutes since midnight.
- A shift whose end is earlier than its start ends on the next day. Equal
  start and end give an empty span.
- The calendar (weekday of a date, set of public holidays) is a parameter.

Modules:

- `Text`: digit strings, `str(n)`, and the three regular-expression scans of
  the row parser.
- `Clock`: `HH:MM` parsing, span, night window.
- `Bands`: the weight matrix.
- `NetTime`: the `{h}h {m}m` net column and its reader.
- `Shift`: the minute walk of one row.
- `Period`: aggregation and netting.
- `Dates`: dates and the calendar.
- `RowParse`: one line of recognised text to a row.
- `Sheet`: the table as a class `OvertimeSheet`, holding the rows and the
  summary box, with `InsertRow`, `Recalculate` and `ParseRows`.

Behaviour of the code that the model keeps as it is:

- An unflagged minute of a non-working day is ×1.0 (main.py:193-198).
- The break is skipped at the front of the span (main.py:190). A
  14:00-23:30 working-day shift declared at 9h skips 14:00-14:30 and gives
  450 minutes at ×1.0, 30 at ×1.5 (22:00-22:30, night but not yet past
  eight hours) and 60 at ×2.0.
- A row whose net exceeds its span is not rejected. Recalculation infers a
  negative break and counts the whole span (main.py:186, 190).

## Model

| member | source | states |
|---|---|---|
| `Clock.ParseClock` | main.py:160-161 | a clock text is accepted only in the `DD:DD` shape with hour < 24 and minute < 60, and then gives a minute of the day below 1440 |
| `Clock.ClockRoundTrip` | main.py:182 | every minute of the day is read back from its `HH:MM` text |
| `Clock.ClockTextCanonical` | main.py:182 | a text that parses is the canonical text of its time, so two clock texts that parse to the same time are equal |
| `Clock.Span` | main.py:162-163 | the range is below 1440 minutes, start plus range is the end modulo a day, and equal start and end give 0 |
| `Clock.NightWindow` | main.py:191 | the hour test `hour >= 22 or hour < 6` is the minute window from 22:00 to 06:00 of every day, and it wraps across midnight |
| `Bands.Classify` | main.py:193-198 | twice the weight is 2, plus one per flag set, plus one more on a non-working day when any flag is set |
| `Bands.ClassifyMonotone` | main.py:193-198 | setting a flag, or moving to a non-working day, never lowers the weight |
| `Bands.Premium25Exactly` | main.py:193-198 | ×2.5 is given to exactly the night minutes past eight hours on a non-working day; ×1.0 to exactly the minutes with neither flag |
| `Shift.TallyTotal` | main.py:189-202 | every counted minute lands in exactly one band and no skipped minute in any, so the bands sum to the number of counted minutes |
| `Shift.WalkShift` | main.py:189-202 | the minute loop computes the band tally of the specification; with `0 <= brk <= range` the bands hold `range - brk` minutes, with negative `brk` the whole range |
| `Shift.StandardWithinThreshold` | main.py:192-195 | at most 480 counted minutes are ×1.0, and never more than are counted |
| `Shift.PastThresholdIsPremium` | main.py:190-198 | every counted minute after the 480th is in a premium band |
| `Shift.WorkingDayHasNoPremium25` | main.py:193-198 | a working-day shift has no ×2.5 minutes |
| `Shift.NightFreeTally` | main.py:189-202 | closed form of a shift with no night minute: the first 480 counted minutes are ×1.0 and the rest ×1.5 on a working day, ×2.0 on a non-working day; in particular at most 480 counted minutes are all ×1.0 |
| `Shift.Tally.DoubledWeighted` | main.py:205 | a row's weighted total is between one and two and a half times its counted minutes |
| `Period.Deficit` | main.py:204 | a row adds to the deficit exactly when it is a working day with net under 480 minutes, and then it adds what is missing up to 480 |
| `Period.DeficitBound` | main.py:204 | the deficit is at most 480 minutes per row |
| `Period.AggregateConcat` | main.py:203-204 | the sums over two blocks of rows add up to the sums over all rows |
| `Period.AggregatePermutation` | main.py:203-204 | net total, the three band sums and the deficit do not depend on the order of the rows |
| `Period.AdjustedX15` | main.py:207 | the adjusted ×1.5 total is at most the ×1.5 sum; it equals sum minus deficit when the deficit is smaller, and 0 otherwise |
| `Period.DoubledOvertime` | main.py:207 | the payable total keeps the ×2.0 and ×2.5 minutes in full and is reduced only within the ×1.5 part; with no deficit nothing is reduced |
| `Period.NettingMonotone` | main.py:204-207 | a larger deficit never raises the payable total |
| `Period.Summarize` | main.py:203-209 | the summary's net total is the summed net, its ×1.5 figure is the netted `max(0, sum15 - total_minus)`, its ×2.0 and ×2.5 figures are the sums, and its total is weighted from these figures |
| `NetTime.NetRoundTrip` | main.py:184-185 | the net column written as `{h}h {m}m` is read back by the `(\d+)h` and `(\d+)m` searches as the same number of minutes |
| `Text.NatToText` | main.py:173 | `str(n)` is a non-empty digit string of value n; it starts with 0 only for n = 0, and then it is exactly "0" |
| `Text.SearchFromNone` | main.py:143-144 | the number-before-unit search fails exactly when no position matches |
| `Text.SearchFromSome` | main.py:143-144 | a successful search reports the group of the leftmost match |
| `Text.NumberStarts` | main.py:152 | the positions where the `\d+` matches begin are run starts (a digit at the first position or after a non-digit), in increasing order |
| `Text.NumberStartsComplete` | main.py:152 | every run start is a match position, so the matches are exactly the digit runs |
| `Text.NumbersFromRuns` | main.py:152 | `re.findall(r'\d+')` lists, in order, the value of the digit run at each match position |
| `Text.ClockStarts` | main.py:135 | the matches of `\d{2}:\d{2}` are clock-shaped and do not overlap |
| `Text.ClockStartsFirst` | main.py:135 | no clock-shaped position lies before the first match, or anywhere when there is none |
| `Text.ClockStartsGap` | main.py:135 | no clock-shaped position lies between the end of one match and the start of the next |
| `Text.ClockStartsLast` | main.py:135 | no clock-shaped position lies after the end of the last match |
| `Text.ClockTokensAtStarts` | main.py:135 | the tokens found are the five characters at each match position, in order |
| `RowParse.LastPositive` | main.py:140-148 | the reverse scan finds 0 exactly when no token states a positive duration |
| `RowParse.LastPositiveIsLast` | main.py:140-148 | a positive result is the duration of a token after which no token states a positive one |
| `RowParse.LastPositiveNetIsLast` | main.py:140-148 | the same two statements about the tokens of a line |
| `RowParse.ExtractNet` | main.py:139-148 | the reverse scan with an early break yields the last positive token duration |
| `RowParse.FallbackLastTwo` | main.py:150-155 | the fallback is nonzero only on a line with at least eight digit runs, and then it is the second-last run as hours plus the last run as minutes |
| `RowParse.LastRunStart` | main.py:153 | the two runs the fallback uses are the last two runs of the line |
| `RowParse.ParseLine` | main.py:130-166 | a line is accepted exactly when it has a date, at least two clock tokens, a positive net and two clock tokens that parse; its row has that date, the first two clock tokens, the net, and a break that fills the span and is 0 when the net covers it |
| `RowParse.ReadLine` | main.py:130-166 | the loop body of the row parser yields exactly `ParseLine` of the line |
| `RowParse.AcceptedFilter` | main.py:130-166 | the accepted rows are a filter: they split over concatenation, a present row is kept and a skipped line gives none |
| `RowParse.AcceptedComplete` | main.py:157-166 | every present row is kept |
| `RowParse.ParsedRows` | main.py:130-166 | at most one row per line; every row has a positive net and clocks that parse |
| `RowParse.ParsedRowsFilter` | main.py:130-166 | the rows of two blocks of lines are the rows of each block in line order, and one line gives its row exactly when it is accepted |
| `RowParse.ParsedRowsComplete` | main.py:157-166 | the row of every accepted line is among the rows |
| `Sheet.EvaluateSpan` | main.py:180-190 | in recalculation, break plus net is the span; the bands hold the net when the break is not negative, and the whole span otherwise |
| `Sheet.RefreshEvaluation` | main.py:206 | a rewritten row keeps its clocks and net, so it evaluates as before |
| `Sheet.RecalculateIdempotent` | main.py:175-206 | recalculating a recalculated table changes no row |
| `Sheet.RecalculatedSummary` | main.py:175-207 | a recalculated table has the same summary as before |
| `Sheet.RowOrderIrrelevant` | main.py:203-207 | two tables holding the same rows in different orders have the same summary |
| `Sheet.InsertedRowEvaluation` | main.py:164 | a parsed row, once inserted, is read back with the net that was parsed, and its parse-time break is the recalculation break floored at zero |
| `Sheet.ParsedRowsReadable` | main.py:157-167 | every inserted row can be recalculated |
| `Sheet.OvertimeSheet.InsertRow` | main.py:170-173 | `insert_row` appends one row with net column `{h}h {m}m`, empty band columns, and nothing else changed |
| `Sheet.OvertimeSheet.RefreshRow` | main.py:179-206 | one row is evaluated by the minute walk and only that row is rewritten |
| `Sheet.OvertimeSheet.RefreshRows` | main.py:176-206 | the row loop rewrites every row and its running sums are the aggregate of the row evaluations |
| `Sheet.OvertimeSheet.Recalculate` | main.py:175-209 | `recalculate_from_table` rewrites every row and fills the summary box with the netted period summary; the table stays readable |
| `Sheet.OvertimeSheet.FillRows` | main.py:127-166 | the line loop of `parse_rows` leaves the table holding exactly the accepted rows, in line order |
| `Sheet.OvertimeSheet.ParseRows` | main.py:126-168 | `parse_rows` fills the table from the lines, then recalculates it |

## Left out

- OCR is not modelled: engine start-up, image preprocessing, and the grouping of recognised boxes into lines by y-coordinate (main.py:34-38, 73-120). A line is given as its tokens in order, plus the date found in it.
- The date pattern `(\d{1,2}/\d{1,2})` and `strptime` of the date with the selected year are not modelled: each line carries an optional abstract `Date`. Rejection of an impossible date is folded into that option being None.
- The weekday-name column text and the `MM/DD (weekday)` formatting are not modelled, because the recalculation reads the date back and nothing else uses them.
- The range column `start-end` is kept as its two clock texts, not as one string split on `-`.
- The break column is kept as its number, not as the text `{brk}m`; the recalculation never reads it.
- The `holidays` library is replaced by the `Calendar` parameter: a weekday function and a set of holidays. The Windows DPI call is not modelled.
- The user interface is not modelled: window construction, file dialog, clipboard, Treeview widget calls and the summary text layout. The table is the `rows` field, the summary box the `summary` field.
- Floating-point accumulation (`+= 1/60` per minute, `net_min/60`) and the `:.1f` display rounding are not modelled. Every figure is an exact count of minutes. The test `row_net < 8` is the integer test net < 480.
- `Shift.Tally.DoubledWeighted`: the weighted total is twice the source's hours figure, in minutes rather than hours.
- Exceptions that are caught and skipped (`try`/`except: pass` in `parse_rows`, main.py:158-166) are modelled as the line being skipped. Two parses there can fail: a clock token that `strptime` rejects (`ParseClock` gives None), and a date `strptime` rejects, such as 2/30 (main.py:165), which is the None date of the line described above.
- Only ASCII digits are recognised by the number searches; Python's `\d` also accepts other Unicode decimal digits.
- download_models.py is not part of this model: it only downloads OCR model files.
