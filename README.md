# running_page analytics, modelled in Dafny

This project models the analytics layer of running_page, a personal activity
dashboard, and proves properties of it. The layer works over a list of
recorded activities (runs, walks, rides). It covers five parts:

- **Progress charts** (`ProgressData`, progress_data.dfy):
  - reads "H:MM:SS" and "MM:SS" moving times as seconds, and computes pace in minutes per kilometre;
  - keeps the activities of one type that are not older than a cutoff, sorted by start time;
  - computes the run count, total kilometres, and the mean and best pace over the 0–15 min/km band;
  - builds one chart point per activity, with a 7-entry trailing moving average of pace that ignores non-positive entries, and a running distance total;
  - formats a pace as minutes and seconds.
- **Mini charts** (`MiniChartData`, mini_chart_data.dfy):
  - distance per week for the last N weeks, in contiguous half-open 7-day buckets ending "now", labelled W1..WN;
  - the speed of the last M runs with a speed, oldest first, labelled R1..RM.
- **Run table row** (`RunRow`, run_row.dfy):
  - the heat colour of a pace, a first-match step function over ascending thresholds;
  - pace from speed;
  - the select/deselect rule of a click. The shared row state is a class whose click handler updates it in place.
- **Year card** (`YearStat`, year_stat.dfy): the runs of one year, then a single pass with seven accumulators: distance, climb, metres and seconds at a known speed, heart-rate sum, count of runs without a heart rate, and longest streak.
- **Year list** (`YearsStat`, years_stat.dfy):
  - the year list reordered so that the selected year comes first and "Total" comes at the end;
  - the distance run in the current year;
  - the rule for when the mini dashboard is shown.

`Common` (common.dfy) holds the shared vocabulary:
- the activity record and an `Option` type;
- sums, minimum, maximum and mean;
- filtering;
- a stable insertion sort by an integer key;
- splitting text on a separator, decimal digits, and string prefixes.

Conventions:
- A missing numeric field of an activity is stored as 0.0. This is what the source's fallbacks to zero and its truthiness tests make of a missing value.
- Start dates are given already read as millisecond timestamps.
- "Now", the current year and the time-range cutoff are parameters.
- Numbers are mathematical reals.

## Model

| member | source | states |
|---|---|---|
| ProgressData.ParseMovingTime | src/components/ProgressCharts/useProgressData.ts:37-50 | the seconds read from a moving-time text are never negative |
| ProgressData.ParseHoursMinutesSeconds | src/components/ProgressCharts/useProgressData.ts:38-43 | for digit fields h and m (any zero padding) and a decimal s, "h:m:s" is accepted and reads as h·3600 + m·60 + s seconds, fraction included |
| ProgressData.ParseMinutesSeconds | src/components/ProgressCharts/useProgressData.ts:44-49 | for a digit field m and a decimal s, "m:s" is accepted and reads as m·60 + s seconds |
| ProgressData.ParsePaddedHours | src/components/ProgressCharts/useProgressData.ts:38-43 | "1:02:03" reads as 3723 seconds |
| ProgressData.ParseFractionalSeconds | src/components/ProgressCharts/useProgressData.ts:44-49 | "25:30.5" reads as 1530.5 seconds |
| ProgressData.ParseOtherShapeIsZero | src/components/ProgressCharts/useProgressData.ts:37-50 | a text with neither one nor two colons reads as 0 seconds |
| ProgressData.CalculatePace | src/components/ProgressCharts/useProgressData.ts:52-57 | the pace is 0 when the distance or the time is not positive; otherwise it is positive and pace × km = minutes |
| ProgressData.MovingAverage | src/components/ProgressCharts/useProgressData.ts:59-68 | null exactly when no entry in the window max(0, index−w+1)..index is positive; otherwise the result lies between the smallest and the largest positive entry of the window |
| ProgressData.PositiveWindowEmpty | src/components/ProgressCharts/useProgressData.ts:64-65 | the window has no positive entry exactly when every entry in the index range is ≤ 0 |
| ProgressData.MovingAverageIsLocal | src/components/ProgressCharts/useProgressData.ts:63-64 | the average depends only on the entries inside the window |
| ProgressData.MovingAverageOfSinglePositive | src/components/ProgressCharts/useProgressData.ts:59-68 | a window whose only positive entry is x averages to x |
| ProgressData.MovingAverageSkipsNonPositive | src/components/ProgressCharts/useProgressData.ts:59-68 | for seven zeros then 10, the window-7 average at index 7 is 10 |
| ProgressData.Process | src/components/ProgressCharts/useProgressData.ts:106-121 | the date is the start date up to its first space; the heart rate is null exactly when it is missing; the moving time is the parsed moving-time text, and the pace is the pace of the distance and that time |
| ProgressData.Keep | src/components/ProgressCharts/useProgressData.ts:92-105 | a kept activity has the selected type (unless 'All') and is not dated before the cutoff (when there is one); with 'All' and no cutoff every activity is kept |
| ProgressData.KeptActivities | src/components/ProgressCharts/useProgressData.ts:91-105 | every entry is an input activity the filter keeps, and every input activity it keeps is there |
| ProgressData.FilteredActivities | src/components/ProgressCharts/useProgressData.ts:91-122 | the result is sorted by timestamp; each entry has the selected type unless 'All' was selected; none is dated before the cutoff; every kept activity appears, and there are exactly as many entries as kept activities |
| ProgressData.FilteredActivitiesKeepTies | src/components/ProgressCharts/useProgressData.ts:122 | activities with the same timestamp stay in input order (the sort is stable) |
| ProgressData.ComputeStats | src/components/ProgressCharts/useProgressData.ts:124-142 | totalRuns is the count and totalDistance is the sum of metres / 1000; both paces are 0 when no pace lies in (0, 15); otherwise 0 < bestPace ≤ averagePace < 15, bestPace is attained, and it is no larger than any pace in the band |
| ProgressData.ChartPointAt | src/components/ProgressCharts/useProgressData.ts:147-162 | point i carries activity i's date, timestamp, pace and heart rate, its distance in km, and as running total the sum of the km of activities 0..i |
| ProgressData.ChartPointCallback | src/components/ProgressCharts/useProgressData.ts:146-162 | from the running total before activity i, the callback yields the total after it and the point ChartPointAt describes |
| ProgressData.ChartData | src/components/ProgressCharts/useProgressData.ts:144-163 | one point per activity, in order; point i is the one ChartPointAt describes (activity i's fields, km, moving average at i, running total up to and including i) |
| ProgressData.ChartPointsNeverDecrease | src/components/ProgressCharts/useProgressData.ts:144-149 | with no negative distance, the running total never decreases |
| ProgressData.LastChartPointIsTotal | src/components/ProgressCharts/useProgressData.ts:125-126 | the last point's running total equals the statistics' totalDistance |
| ProgressData.UseProgressData | src/components/ProgressCharts/useProgressData.ts:88-169 | the hook's three results: the filtered list, its statistics, and one chart point per run, point i being ChartPointAt of the filtered list, the last of which carries the total distance; only the kept activities need well-formed moving times |
| ProgressData.FormatPace | src/components/ProgressCharts/useProgressData.ts:179-184 | the placeholder exactly when pace ≤ 0 or pace > 30; otherwise the minutes are ⌊pace⌋ and minutes·60 + seconds is within half a second of the pace, with seconds ≤ 60 |
| ProgressData.FormatPacePrintsSixtySeconds | src/components/ProgressCharts/useProgressData.ts:181-183 | pace 5.995 is printed as 5 minutes and 60 seconds |
| ProgressData.FormatPaceCarried | src/components/ProgressCharts/useProgressData.ts:179-184 | the same placeholder rule; the seconds are below 60 and the printed time is within half a second of the pace |
| ProgressData.FormatPaceCarriedAgrees | src/components/ProgressCharts/useProgressData.ts:181-183 | the corrected split prints the same as the written one whenever the written one prints fewer than 60 seconds |
| ProgressData.RenderPace | src/components/ProgressCharts/useProgressData.ts:179-184 | the label as written: "--" exactly when pace ≤ 0 or pace > 30; otherwise the minutes of FormatPace, an apostrophe, its seconds (at most 60) as two digits, and a double quote |
| ProgressData.RenderPacePrintsSixtySeconds | src/components/ProgressCharts/useProgressData.ts:181-183 | pace 5.995 is labelled 5'60" |
| ProgressData.RenderPaceCarried | src/components/ProgressCharts/useProgressData.ts:179-184 | the label as intended: the same placeholder rule, with the seconds of the carried split, below 60, as two digits |
| ProgressData.RenderPaceCarriedAgrees | src/components/ProgressCharts/useProgressData.ts:181-183 | the two labels agree whenever the as-written split prints fewer than 60 seconds |
| MiniChartData.WeeklyDistanceData | src/hooks/useMiniChartData.ts:17-46 | exactly max(weeks, 0) entries; entry k covers [now − (weeks−k)·week, now − (weeks−k−1)·week), is labelled W(k+1), and holds that bucket's metres / 1000, which is ≥ 0 when distances are ≥ 0 |
| MiniChartData.WindowDistanceSplit | src/hooks/useMiniChartData.ts:31-36 | the distance in [lo, hi) is the distance in [lo, mid) plus the distance in [mid, hi) |
| MiniChartData.AtMostOneBucket | src/hooks/useMiniChartData.ts:28-35 | no timestamp lies in two different buckets |
| MiniChartData.BucketsAreContiguous | src/hooks/useMiniChartData.ts:28-29 | each bucket ends where the next begins, and the last ends at now |
| MiniChartData.WeeklyTotal | src/hooks/useMiniChartData.ts:26-44 | the bucket values add up to the distance of the whole period [now − weeks·week, now), in km |
| MiniChartData.NewestFirst | src/hooks/useMiniChartData.ts:57-63 | the runs with a positive speed, rearranged, newest first |
| MiniChartData.RecentRuns | src/hooks/useMiniChartData.ts:57-65 | as many runs as the slice keeps (min(count, n) for count ≥ 0, counted from the end for a negative count), each with a positive speed, oldest first |
| MiniChartData.RecentRunsAreRunsWithSpeed | src/hooks/useMiniChartData.ts:57-65 | the runs shown are a sub-multiset of the runs with a speed |
| MiniChartData.RecentRunsAreTheNewest | src/hooks/useMiniChartData.ts:59-65 | every run with a speed that is left out is no newer than any run shown |
| MiniChartData.RecentPaceData | src/hooks/useMiniChartData.ts:51-72 | one point per run shown, each with a positive value, labelled R1..Rn in order |
| MiniChartData.RecentPaceDataAtMostCount | src/hooks/useMiniChartData.ts:64 | for count ≥ 0 the series has at most count points, and fewer only when there are fewer runs with a speed |
| RunRow.PaceHeatColor | src/components/RunTable/RunRow.tsx:23-49 | 'inherit' exactly when pace ≤ 0; otherwise one of the seven band colours |
| RunRow.PaceHeatColorIsFirstMatch | src/components/RunTable/RunRow.tsx:23-49 | pace ≤ 0 gives 'inherit'; otherwise the colour is the one of the first band whose strict upper bound exceeds the pace |
| RunRow.Band | src/components/RunTable/RunRow.tsx:27-44 | the band index is the first threshold above the pace: every earlier threshold is ≤ the pace |
| RunRow.BandMonotone | src/components/RunTable/RunRow.tsx:27-48 | over ascending thresholds, a slower pace never gets a faster band |
| RunRow.PaceHeatColorMonotone | src/components/RunTable/RunRow.tsx:27-48 | for 0 < p ≤ q, both colours are the colours of their bands over the row's thresholds, and q's band is never faster than p's |
| RunRow.BoundaryColors | src/components/RunTable/RunRow.tsx:30-44 | pace 5.0 is '#4caf50' and pace 7.0 is '#ff9800' |
| RunRow.SlowestBand | src/components/RunTable/RunRow.tsx:45-47 | any pace ≥ 7.5 is '#ff5722' |
| RunRow.PaceMinPerKm | src/components/RunTable/RunRow.tsx:64-67 | 0 when the speed is missing or ≤ 0; otherwise positive with pace × speed × 60 = 1000 |
| RunRow.NoColorIffNoSpeed | src/components/RunTable/RunRow.tsx:64-69 | the pace cell is 'inherit' exactly when the speed is missing or ≤ 0 |
| RunRow.PaceAgreesWithProgressPace | src/components/RunTable/RunRow.tsx:64-67 | the row's pace equals the progress chart's pace for the same run |
| RunRow.Click | src/components/RunTable/RunRow.tsx:71-79 | after a click, either nothing is selected and nothing located, or the clicked row is selected and its run located; the clicked row is selected exactly when it was not |
| RunRow.ClickTwice | src/components/RunTable/RunRow.tsx:71-79 | two clicks on an unselected row deselect everything; two clicks on the selected row leave it selected |
| RunRow.RowSelection.HandleClick | src/components/RunTable/RunRow.tsx:71-79 | the shared row state becomes the result of Click on its old value |
| YearStat.FilteredRuns | src/components/YearStat/index.tsx:24-29 | for a known year, exactly the runs whose start date begins with it; otherwise every run |
| YearStat.MaxStreakIsLongest | src/components/YearStat/index.tsx:33-54 | the streak is at least every run's streak and, unless 0, equals one of them |
| YearStat.YearStats | src/components/YearStat/index.tsx:31-69 | the single pass yields the card stated run by run: km, climb, average speed (none for zero seconds), whether heart rate is present, average heart rate (none when no run has one), longest streak, and run count |
| YearStat.HeartRateCounts | src/components/YearStat/index.tsx:47-51 | the runs without a heart rate plus the heart rates present make up all runs, and the heart-rate total is their sum |
| YearStat.AverageHeartRateIsMean | src/components/YearStat/index.tsx:61-65 | the average heart rate is missing exactly when no run has one; otherwise it is their mean, between the lowest and the highest |
| YearStat.SumsNonNegative | src/components/YearStat/index.tsx:41-44 | with non-negative inputs, the distance and climb are ≥ 0, and the metres at a known speed lie between 0 and the total distance |
| YearStat.SecondsAtConstantSpeed | src/components/YearStat/index.tsx:43-46 | at one common speed, the seconds times that speed are the metres |
| YearStat.ConstantSpeedAverage | src/components/YearStat/index.tsx:43-60 | at one common speed, the card's average speed is that speed |
| YearStat.RunCountOfYear | src/components/YearStat/index.tsx:24-67 | a year's run count is at most the number of runs, and 0 when no run starts in that year |
| YearsStat.YearsArrayUpdate | src/components/YearsStat/index.tsx:43-50 | the selected year comes first and occurs exactly once; the rest is the year list plus 'Total' without the selected year; the members are the selected year, the years and 'Total' |
| YearsStat.UpdatedYearsOrder | src/components/YearsStat/index.tsx:45-47 | the other years keep their order, and 'Total' comes last unless it was selected |
| YearsStat.CurrentYearActivities | src/components/YearsStat/index.tsx:24-28 | exactly the runs whose start date begins with the current year |
| YearsStat.CurrentYearDistance | src/components/YearsStat/index.tsx:31-36 | the goal distance is the km figure the year card computes for the current year's runs |
| YearsStat.CurrentYearDistanceNonNegative | src/components/YearsStat/index.tsx:31-36 | the current year's distance is ≥ 0 when distances are ≥ 0 |
| YearsStat.ShowDashboard | src/components/YearsStat/index.tsx:57 | shown on the 'Total' card, and on any other card exactly when it is the current year's |
| YearsStat.GoalDistanceMatchesYearCard | src/components/YearsStat/index.tsx:31-57 | when the dashboard shows on a year's own card, the goal distance equals that card's distance |
| Common.SortBy | src/components/ProgressCharts/useProgressData.ts:122 | the sort returns a permutation of its input, ordered by the key |
| Common.SortByIsStable | src/hooks/useMiniChartData.ts:59-63 | the entries with any one key appear in their input order |
| Common.Split | src/components/ProgressCharts/useProgressData.ts:38 | the text splits into one more piece than it has separators, no piece contains the separator, and the first piece is the text up to the first separator |
| Common.SplitJoin | src/components/ProgressCharts/useProgressData.ts:38 | splitting the pieces joined by the separator gives back the pieces, when no piece contains it |
| Common.MeanBetweenMinAndMax | src/components/ProgressCharts/useProgressData.ts:131-135 | the mean of a non-empty list lies between its minimum and maximum |
| Common.LabelInjective | src/hooks/useMiniChartData.ts:40 | different indices give different labels |

## Left out

- NaN is not modelled. The source gets NaN from `parseInt`/`parseFloat` on a field with no leading number, from a missing distance in the progress sums, and from 0/0. Missing numbers count as 0.0, and a division with nothing to divide by gives `None`.
- ProgressData.ParseMovingTime: requires digit fields (seconds: digits with an optional fraction) when the text has two or three colon-separated fields. Other field text is outside the model. The source's `parseInt`/`parseFloat` skip leading blanks, accept a sign and read the leading number of such a field, so "1 day, 2" reads as 1 and "03.5s" as 3.5. They give NaN only when the field does not start with a number.
- Floating-point rounding is not modelled: numbers are reals. `toFixed` on the year card's distance, climb and heart rate is left out, so those are unrounded.
- Dates and the clock are not modelled:
  - the start date is a given timestamp;
  - "now", the current year and `getTimeRangeDate`'s cutoff are parameters (the month and year arithmetic of that function is left out).
- The `formatPace` of the shared utils, used by the year card and the run row, is not part of this model. The year card stops at the average speed it hands over.
- Rendering, React memoisation and state hooks are not modelled. The `setRunIndex`/`locateActivity` callbacks become the fields of `RowSelection`.
- Milestone and personal-record flags are not modelled: no file of the core computes them.
- MiniChartData.RecentRunsAreTheNewest: compares the excluded runs with the shown runs through the newest-first order, not through the input list.
- Not being reordered or mutated (the sorted spread copy in the recent-pace hook, the sliced copy of the year list) holds by construction: Dafny sequences are values.
- `weeks` and `count` are integers. Fractional counts are not modelled.

## Findings

| source | as written | input that shows it | evidently intended | confidence | as-written member | corrected member |
|---|---|---|---|---|---|---|
| src/components/ProgressCharts/useProgressData.ts:181-183 | the seconds are rounded separately from the minutes, so a fraction within half a second of the next minute rounds to 60 | pace 5.995 prints 5'60" | round the whole pace to seconds, then split, giving 6'00" | not executed | ProgressData.RenderPacePrintsSixtySeconds | ProgressData.RenderPaceCarried |
