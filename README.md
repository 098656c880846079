# Polar dawn calendar: gap filling, day collection and calendar arithmetic

The polar dawn-calendar scripts do four things:

1. **Collect the year.** They walk the 365 days of 2025 month by month and ask an ephemeris library for the day's sun events. Each event is an hour plus minutes divided by 60. The civil, nautical and astronomical twilight depressions are 6, 12 and 18 degrees. The scripts also ask for the moon phase on a 0-28 cycle. On a day the library fails, every quantity of that day is the sentinel -1.
2. **Fill the gaps.** Sentinels are replaced by piecewise-linear interpolation over the day index. The outer segments are extended past the first and last valid reading, as scipy's `interp1d(..., fill_value='extrapolate')` does. A series of (dawn, dusk) pairs is filled one component at a time.
3. **Mark full moons.** One marker goes on each run of days whose phase lies in [13.5, 14.5], at the day of the run closest to 14.
4. **Compute calendar positions.** They compute the cumulative month lengths, month tick positions, and (month, day) labels for the 52 Sundays. The batch plotter converts 1-based days with a loop. The single plotter converts 0-based days with `next(...)`.

The model has six modules:

- `Interpolation` (`interpolation.dfy`): the sentinel and the scipy interpolant.
  - The functions `Filled` and `CircularFilled` state what `interpolate_array` and `interpolate_circular` return.
  - The methods `InterpolateArray` and `InterpolateCircular` run in place over an `array<real>`, as the numpy code does. Each is proved equal to its function.
- `InterpolationFacts` (`interpolation_facts.dfy`): what the fill means. It covers values between anchors, the extrapolated ends, non-negativity, idempotence, and how the circular filler relates to the linear one.
- `Series` (`series.dfy`): `interpolate_missing_values` on flat and paired series, and the script's seven fill calls.
- `DayCollection` (`collection.dfy`): the day loop, with the library as an oracle.
- `FullMoon` (`full_moon.dfy`): the full-moon scan.
- `Calendar` (`calendar.dfy`): cumulative days, month ticks and Sunday labels.

Floats are modelled as exact reals. Python's float `%` with a positive divisor is modelled as a floored remainder.

The two data scripts, `generate_data.py` and `generate_plot_batch.py`, hold identical copies of the day loop and of the three fillers. Each member below cites one of the two copies.

## Model

| member | source | states |
|---|---|---|
| Interpolation.IndicesWhere | generate_plot_batch.py:100 | the gap or anchor positions, strictly increasing, each one a position whose missing-flag is as asked, and every such position listed |
| Interpolation.PickAnchorsIsReadings | generate_plot_batch.py:100-101 | `times[valid_indices]` picks exactly the readings of the series that are not the sentinel, in day order (`Readings`, defined by recursion over the series) |
| Interpolation.SearchSorted | generate_plot_batch.py:103 | the segment search returns the first anchor position that is at least x, or the number of anchors when there is none |
| Interpolation.Line | generate_plot_batch.py:103 | the line through two anchors passes through both of them |
| Interpolation.Interp1d | generate_plot_batch.py:103-105 | the extrapolating interpolant takes each anchor's reading at that anchor's day |
| Interpolation.Filled | generate_plot_batch.py:98-107 | `interpolate_array` succeeds exactly when the series has at least two non-sentinel entries, otherwise raises the too-few-anchors error; keeps the length and every non-sentinel entry |
| Interpolation.ScanIndices | generate_plot_batch.py:100-104 | the two `np.where` index lists of the array are the anchor and gap positions of its contents |
| Interpolation.InterpolateArray | generate_data.py:75-84 | the in-place fill over a copy of the input array returns exactly `Filled` of the input |
| Interpolation.WriteInterpolated | generate_data.py:82-83 | the gap entries get the interpolant's values and every other entry is unchanged |
| Interpolation.FloorMod | generate_plot_batch.py:120 | the remainder lies in [0, m), and x minus it is an integer multiple of m |
| Interpolation.Scaled | generate_data.py:88 | sentinels stay as they are; every other entry, multiplied back by m, is the original reading |
| Interpolation.Rescaled | generate_data.py:96-97 | the rescaled gap value lies in [0, m) and differs from v * m by a whole multiple of m |
| Interpolation.WriteRescaled | generate_data.py:95-99 | the gap entries get the rescaled interpolant's values and every other entry is unchanged |
| Interpolation.CircularFilled | generate_plot_batch.py:109-123 | succeeds exactly when the scaled series has two anchors; every gap, and every entry equal to -m, ends in [0, m); every other entry comes back divided by m |
| Interpolation.ScaleInPlace | generate_data.py:88 | the array afterwards is the input with every non-sentinel entry divided by m |
| Interpolation.InterpolateCircular | generate_data.py:86-100 | the in-place circular fill returns exactly `CircularFilled` of the input |
| InterpolationFacts.LineBetween | generate_plot_batch.py:103 | a point strictly between two anchors is interpolated to a value between their two readings |
| InterpolationFacts.FillBetweenAnchors | generate_plot_batch.py:103-106 | a gap between two consecutive anchors is filled on the line through those two anchors |
| InterpolationFacts.LoneGapIsMean | generate_plot_batch.py:103-106 | a single missing day between two readings is filled with their mean |
| InterpolationFacts.FillBeforeFirstAnchor | generate_plot_batch.py:103 | a gap before the first anchor is extrapolated on the line through the first two anchors |
| InterpolationFacts.FillAfterLastAnchor | generate_plot_batch.py:103 | a gap after the last anchor is extrapolated on the line through the last two anchors |
| InterpolationFacts.InteriorFillNonNegative | generate_data.py:80-83 | with non-negative readings, an interior gap is filled with a non-negative value that is not the sentinel |
| InterpolationFacts.NoGapsUnchanged | generate_data.py:75-84 | a series with no sentinel and at least two entries comes back unchanged |
| InterpolationFacts.RefillIsIdentity | generate_data.py:75-84 | filling again a filled series that holds no sentinel changes nothing |
| InterpolationFacts.ExtrapolationCanYieldSentinel | generate_plot_batch.py:103-106 | extrapolation can write -1 back into a gap: readings 0, 1 fill day 0 with -1 |
| InterpolationFacts.CircularIsLinearModulo | generate_data.py:86-100 | when no reading equals -m, a gap of the circular fill is the linear fill of that gap taken modulo m |
| InterpolationFacts.CircularOverwritesMinusMax | generate_plot_batch.py:111-122 | a valid reading equal to -m is treated as missing and overwritten |
| Series.UnzipZip | generate_data.py:66-71 | splitting a pair list into its first and second components and zipping them back gives the pair list itself |
| Series.PairedNoGapsUnchanged | generate_data.py:65-71 | a pair series of two or more days with no sentinel in either component comes back unchanged |
| Series.Zip | generate_plot_batch.py:93 | zipping two equal-length lists gives pairs whose components are the two lists |
| Series.InterpolateMissingValues | generate_plot_batch.py:87-96 | an empty series raises; a success keeps the length and the shape (flat or paired) |
| Series.FlatIsInterpolateArray | generate_data.py:72-73 | a flat series is filled exactly as `interpolate_array` fills it |
| Series.PairedIsComponentwise | generate_data.py:65-71 | a paired series succeeds exactly when both components can be filled, and its components are the filled components |
| Series.PairedKeepsReadings | generate_plot_batch.py:88-94 | each non-sentinel component of a pair survives the paired fill |
| Series.FillYear | generate_data.py:102-108 | on success every one of the seven filled series keeps the length of its raw series |
| Series.FillYearIsSeriesWise | generate_data.py:102-108 | each of the seven filled series is the linear fill of that raw series, the moon phases included |
| Series.FillYearSucceeds | generate_plot_batch.py:125-131 | the seven fills succeed exactly when every series is non-empty and every component has two readings |
| Series.MoonPhaseFillDoesNotWrap | generate_data.py:108 | the moon phases are filled linearly, so a gap after phases 27, 28 becomes 29, outside the cycle |
| Series.CircularFillWouldWrap | generate_data.py:86-100 | the unused circular filler maps that same gap to 1 |
| DayCollection.Hours | generate_data.py:34-44 | `hour + minute/60`: the minutes come back from the fraction past the hour times 60; its range and floor are stated by `HoursRange` |
| DayCollection.HoursRange | generate_data.py:34-38 | `hour + minute/60` of a valid clock time lies in [0, 24), and its floor is the hour |
| DayCollection.Observe | generate_data.py:32-52 | a day's record is the all-sentinel record exactly when one of the library calls failed |
| DayCollection.AllOrNothing | generate_data.py:32-52 | a day on which every library call succeeds records the library's times; a day on which any call fails records -1 for all ten quantities; valid times never look like the sentinel |
| DayCollection.YearDatesInCalendarOrder | generate_data.py:29-31 | day k of the loop is the date whose month holds day k+1 of the year, with the day of month counted from that month's start |
| DayCollection.YearDates | generate_data.py:29-31 | the loop visits as many dates as the month lengths add up to |
| DayCollection.Collected | generate_data.py:54-60 | the seven lists are each as long as the list of dates |
| DayCollection.CollectedSnoc | generate_data.py:54-60 | one more date appends that day's observation to all seven lists |
| DayCollection.CollectYear | generate_plot_batch.py:51-85 | the nested month and day loops build exactly the seven series of the 365 dates of 2025, each 365 long |
| DayCollection.CollectedEntry | generate_data.py:54-60 | entry k of every list is day k's observation, and all of them are the sentinel on a failed day |
| Calendar.YearHas365Days | generate_data.py:17 | the month lengths are twelve and total 365 |
| Calendar.SumPrefix | generate_plot_batch.py:271-275 | `sum` over the first i+1 months is `sum` over the first i plus month i |
| Calendar.MonthEndAfterDaysBefore | generate_plot_batch.py:271 | `sum(days_in_month[:k+1])` is the days before month k plus month k, and the previous month's end plus month k |
| Calendar.CumulativeDays | plot_dawn_calendar.py:76 | entry k of the running total is the total of months 0..k |
| Calendar.CumulativeDaysIncrease | generate_plot_batch.py:220 | with positive month lengths the running total is strictly increasing and ends at the year's length |
| Calendar.CumulativeDaysOfYear | plot_dawn_calendar.py:76 | for the script's months the total is strictly increasing and ends at 365 |
| Calendar.DaysBeforeIsSum | plot_dawn_calendar.py:121-122 | `cumulative_days[m - 1] if m > 0 else 0` is the sum of the first m months, and the running total at m is that sum plus month m |
| Calendar.MonthTicks | plot_dawn_calendar.py:79-80 | twelve ticks; tick i is the number of days in the months before i plus half of month i |
| Calendar.MonthTickIsMidpoint | plot_dawn_calendar.py:79-80 | tick i is the midpoint of month i, strictly inside it |
| Calendar.IsMonthOfUnique | generate_plot_batch.py:269-274 | a day has at most one month in the loop's sense |
| Calendar.MonthOfDay | generate_plot_batch.py:269-275 | the month loop stops at the first month whose cumulative end reaches the day; for a day of the year, that month contains it, at 1-based day `day - days before the month` |
| Calendar.FirstEndingAfter | plot_dawn_calendar.py:119-120 | the result is the first month whose cumulative end exceeds the day; the default 11 comes back only when no month's end exceeds it |
| Calendar.MonthIndex0 | plot_dawn_calendar.py:119-120 | the month of a 0-based day is the first whose cumulative end exceeds it, or 11 when there is none |
| Calendar.MonthDay0 | plot_dawn_calendar.py:121-123 | the 1-based day of month is the 0-based day plus one minus the days of the months before |
| Calendar.MonthIndex0InRange | plot_dawn_calendar.py:118-123 | a 0-based day of the year lies in the found month, and its 1-based day of month is within the month's length |
| Calendar.ZeroBasedIsOneBasedShifted | plot_dawn_calendar.py:118-123 | the 0-based conversion of day d gives the same month and day as the 1-based loop gives for day d+1 |
| Calendar.Sundays | plot_dawn_calendar.py:107 | 52 days, starting at the first Sunday, each one a week after the one before |
| Calendar.SundaysAreWeekly | generate_plot_batch.py:264-265 | the 52 Sundays all fall on the first one's weekday, increase, and end 51 weeks after it |
| Calendar.SundayLabels0 | plot_dawn_calendar.py:112-123 | days past the year's end are skipped; every other Sunday gets its 0-based label |
| Calendar.SundayLabels0Append | plot_dawn_calendar.py:112-114 | whether a day is skipped depends on that day alone: the labels of two lists in a row are the labels of each, in order |
| Calendar.NoSundaySkipped | plot_dawn_calendar.py:106-114 | with the first Sunday at 0-based day 4, none of the 52 Sundays is skipped, and each gets a valid month and day |
| Calendar.SundayLabels | generate_plot_batch.py:267-275 | each Sunday's label is its month and 1-based day of month, by the month loop |
| Calendar.SundayLabelsAgree | plot_dawn_calendar.py:106-123 | on a 12-month 365-day year, the single plotter's 0-based labels equal the batch plotter's 1-based labels |
| FullMoon.InWindow | generate_plot_batch.py:237 | `13.5 <= phase <= 14.5` holds exactly when the phase is within 0.5 of 14 |
| FullMoon.Dist | generate_plot_batch.py:239 | the distance to phase 14 is non-negative and equals the phase minus 14 or 14 minus the phase |
| FullMoon.SameRunIsRun | generate_plot_batch.py:241 | the days in one window run with a day of a maximal run are exactly that run's days |
| FullMoon.ClosestInRun | generate_plot_batch.py:238-246 | the inner loop stops at the end of the maximal run and keeps its earliest day of least distance to 14 |
| FullMoon.OneReportPerRun | generate_plot_batch.py:247 | no two reported days lie in the same run |
| FullMoon.ClosestFullMoonDays | generate_plot_batch.py:234-250 | the reported 1-based days increase; each is the earliest closest-to-14 day of its run; no two share a run; every window day has a reported day in its run |

## Left out

- The ephemeris library (astral) is not modelled. It is a parameter: a sun oracle per date and depression, and a moon oracle per date. Any exception it raises, of any kind, is the oracle's `None` for that call.
- The `datetime` times keep only hour and minute, as the scripts read them. Seconds and time zones stay inside the oracle.
- The city and its coordinates are not modelled. They decide every sun and moon value, and they enter the model only through the oracles.
- The JSON file, and `round_values` before it, are not modelled. The batch plotter runs its full-moon scan on the moon phases it reads back from that file (generate_plot_batch.py:159-177), so it sees phases rounded to three decimals. Rounding can move a phase into the window: 14.5004 lies outside it and its rounded value 14.5 inside. `ClosestFullMoonDays` is stated for whatever phases it is given, so in the batch plotter it describes the rounded ones.
- Every plotting call, every angle, radius and rotation computed for drawing, the meteor and eclipse markers, the hour ticks, and `print` are not modelled. None of them changes the data being filled or the calendar positions being computed.
- Code outside the named functions is not part of this model.
- Floating-point rounding is not modelled: reals are exact. So `hour + minute/60` and the interpolant are exact rationals.
- Interpolation.Filled: fewer than two anchors is modelled as the error scipy's `interp1d` raises for a linear interpolant built from under two points. No scipy version is fixed by the scripts. A version that accepts a single point would instead return NaN for every gap (and a one-entry series unchanged). NaN has no counterpart among the reals, so that behaviour is not modelled. The same holds for `CircularFilled` and `NoGapsUnchanged`.
- Interpolation.CircularFilled: requires `m > 0`. Division by zero or by a negative cycle length is not modelled; the scripts only ever use the default 28.
- Interpolation.InterpolateCircular: requires `m > 0`, for the same reason.
- Calendar.MonthTicks: requires at least twelve month lengths; with fewer, the list comprehension raises an IndexError, which is not modelled.
- Calendar.MonthDay0: requires at least eleven month lengths, so that index `month_index - 1` of the default month 11 exists.
- InterpolationFacts.NoGapsUnchanged: requires at least two entries; with fewer, `Filled` states the error path instead.
- A fill can leave the sentinel in place: `InterpolationFacts.ExtrapolationCanYieldSentinel` shows extrapolation writing -1 into a gap, so no lemma states that a filled series is free of -1. What the model proves instead is `InteriorFillNonNegative`: a gap between two non-negative readings is filled non-negative.
- The two Sunday conversions differ only past the year's end. There the 0-based one defaults to month 11 and the 1-based one counts to month 12. `SundayLabelsAgree` is stated for the days the plots use.
- `interpolate_circular` is defined but never called: moon phases go through the linear filler (`Series.MoonPhaseFillDoesNotWrap`). It also treats a valid reading equal to `-max_value` as missing (`InterpolationFacts.CircularOverwritesMinusMax`).
