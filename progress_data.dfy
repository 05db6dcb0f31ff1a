/**
 * The progress pipeline of the Progress page: moving-time parsing, pace,
 * filtering by activity type and date cutoff, the stable chronological sort,
 * the summary statistics, the per-point chart data (trailing moving average
 * of pace and running cumulative distance) and the pace label.
 */
module ProgressData {
  import opened Common

  // ---------------------------------------------------------------------
  // Moving time text ("H:MM:SS" or "MM:SS") to seconds
  // ---------------------------------------------------------------------

  /** Text `parseFloat` reads completely: digits, optionally followed by a
      point and more digits. */
  predicate IsDecimalText(s: string)
  {
    var p := Split(s, '.');
    IsDigits(p[0]) && (|p| == 1 || (|p| == 2 && AllDigits(p[1])))
  }

  function DecimalValue(s: string): (v: real)
    requires IsDecimalText(s)
    ensures 0.0 <= v
  {
    var p := Split(s, '.');
    DigitsValue(p[0]) as real
      + (if |p| == 2 then DigitsValue(p[1]) as real / Pow10(|p[1]|) as real else 0.0)
  }

  /** The fraction digits never carry into the whole part. */
  lemma DecimalValueBounds(s: string)
    requires IsDecimalText(s)
    ensures var whole := DigitsValue(Split(s, '.')[0]) as real;
            whole <= DecimalValue(s) < whole + 1.0
  {
    var p := Split(s, '.');
    if |p| == 2 {
      DigitsValueBelowPow10(p[1]);
      FractionBelowOne(DigitsValue(p[1]), Pow10(|p[1]|));
    }
  }

  lemma FractionBelowOne(f: nat, d: nat)
    requires f < d
    ensures 0.0 <= f as real / d as real < 1.0
  {
    var q := f as real / d as real;
    assert q * d as real == f as real;
  }

  /** The fields `parseMovingTime` reads are numbers: hours and minutes are
      digit runs, seconds may carry a fraction. Text of any other shape is
      never parsed, so it needs no condition. */
  predicate WellFormedMovingTime(text: string)
  {
    var parts := Split(text, ':');
    (|parts| == 3 ==> IsDigits(parts[0]) && IsDigits(parts[1]) && IsDecimalText(parts[2]))
    && (|parts| == 2 ==> IsDigits(parts[0]) && IsDecimalText(parts[1]))
  }

  function ParseMovingTime(text: string): (seconds: real)
    requires WellFormedMovingTime(text)
    ensures 0.0 <= seconds
  {
    var parts := Split(text, ':');
    if |parts| == 3 then
      (DigitsValue(parts[0]) * 3600 + DigitsValue(parts[1]) * 60) as real + DecimalValue(parts[2])
    else if |parts| == 2 then
      (DigitsValue(parts[0]) * 60) as real + DecimalValue(parts[1])
    else
      0.0
  }

  lemma DigitsAreDecimalText(s: string)
    requires IsDigits(s)
    ensures IsDecimalText(s) && DecimalValue(s) == DigitsValue(s) as real
  {
    assert !IsDigit('.');
    SplitWithoutSeparator(s, '.');
  }

  lemma NoColonInDigits(s: string)
    requires IsDigits(s)
    ensures ':' !in s
  {
    assert !IsDigit(':');
  }

  lemma SplitThreeFields(a: string, b: string, c: string)
    requires ':' !in a && ':' !in b && ':' !in c
    ensures Split(a + ":" + b + ":" + c, ':') == [a, b, c]
  {
    assert a + ":" + b + ":" + c == a + [':'] + (b + [':'] + c);
    SplitAtSeparator(a, b + [':'] + c, ':');
    SplitTwoFields(b, c);
  }

  lemma SplitTwoFields(a: string, b: string)
    requires ':' !in a && ':' !in b
    ensures Split(a + ":" + b, ':') == [a, b]
  {
    SplitAtSeparator(a, b, ':');
    SplitWithoutSeparator(b, ':');
  }

  /** The fields of a decimal text contain no colon. */
  lemma NoColonInDecimal(s: string)
    requires IsDecimalText(s)
    ensures ':' !in s
  {
    var p := Split(s, '.');
    JoinSplit(s, '.');
    NoColonInDigits(p[0]);
    if |p| == 2 {
      assert Join(p, '.') == p[0] + ['.'] + p[1];
      assert ':' !in p[1] by {
        assert !IsDigit(':');
      }
    }
  }

  /** "h:mm:ss" reads as h hours, mm minutes and ss seconds, whatever the
      zero padding; the seconds may carry a fraction. */
  lemma ParseHoursMinutesSeconds(h: string, m: string, s: string)
    requires IsDigits(h) && IsDigits(m) && IsDecimalText(s)
    ensures var text := h + ":" + m + ":" + s;
            WellFormedMovingTime(text)
            && ParseMovingTime(text) == (DigitsValue(h) * 3600 + DigitsValue(m) * 60) as real + DecimalValue(s)
  {
    NoColonInDigits(h);
    NoColonInDigits(m);
    NoColonInDecimal(s);
    SplitThreeFields(h, m, s);
  }

  /** "mm:ss" reads as mm minutes and ss seconds. */
  lemma ParseMinutesSeconds(m: string, s: string)
    requires IsDigits(m) && IsDecimalText(s)
    ensures var text := m + ":" + s;
            WellFormedMovingTime(text)
            && ParseMovingTime(text) == (DigitsValue(m) * 60) as real + DecimalValue(s)
  {
    NoColonInDigits(m);
    NoColonInDecimal(s);
    SplitTwoFields(m, s);
  }

  /** One hour, two minutes and three seconds. */
  lemma ParsePaddedHours()
    ensures WellFormedMovingTime("1:02:03") && ParseMovingTime("1:02:03") == 3723.0
  {
    assert "1:02:03" == "1" + ":" + "02" + ":" + "03";
    DigitsAreDecimalText("03");
    ParseHoursMinutesSeconds("1", "02", "03");
  }

  /** Twenty-five minutes and thirty and a half seconds. */
  lemma ParseFractionalSeconds()
    ensures WellFormedMovingTime("25:30.5") && ParseMovingTime("25:30.5") == 1530.5
  {
    assert "25:30.5" == "25" + ":" + "30.5";
    assert "30.5" == "30" + ['.'] + "5";
    SplitAtSeparator("30", "5", '.');
    SplitWithoutSeparator("5", '.');
    var p := Split("30.5", '.');
    assert p == ["30", "5"];
    assert DigitsValue("30") == 30 by {
      assert "30"[..1] == "3";
      assert "3"[..0] == "";
    }
    assert DigitsValue("5") == 5 by {
      assert "5"[..0] == "";
    }
    assert Pow10(1) == 10;
    assert DecimalValue("30.5") == 30.5;
    assert DigitsValue("25") == 25 by {
      assert "25"[..1] == "2";
      assert "2"[..0] == "";
    }
    ParseMinutesSeconds("25", "30.5");
  }

  /** Text with no colon, or with three or more, reads as zero seconds. */
  lemma ParseOtherShapeIsZero(text: string)
    requires Occurrences(text, ':') != 1 && Occurrences(text, ':') != 2
    ensures WellFormedMovingTime(text) && ParseMovingTime(text) == 0.0
  {
  }

  // ---------------------------------------------------------------------
  // Pace
  // ---------------------------------------------------------------------

  /** Minutes per kilometre; 0 stands for "no pace". */
  function CalculatePace(distanceMeters: real, timeSeconds: real): (pace: real)
    ensures distanceMeters <= 0.0 || timeSeconds <= 0.0 ==> pace == 0.0
    ensures 0.0 < distanceMeters && 0.0 < timeSeconds ==>
              0.0 < pace && pace * (distanceMeters / 1000.0) == timeSeconds / 60.0
  {
    if distanceMeters <= 0.0 || timeSeconds <= 0.0 then 0.0
    else
      var distanceKm := distanceMeters / 1000.0;
      var timeMinutes := timeSeconds / 60.0;
      timeMinutes / distanceKm
  }

  // ---------------------------------------------------------------------
  // Trailing moving average
  // ---------------------------------------------------------------------

  /** The entries from `start` up to but excluding `end`, both clamped to the list. */
  function Slice<T>(data: seq<T>, start: nat, end: nat): seq<T>
  {
    var lo := if start < |data| then start else |data|;
    var hi := if end < |data| then end else |data|;
    if lo <= hi then data[lo..hi] else []
  }

  /** First index of the window of `windowSize` entries that ends at `index`, never below 0. */
  function WindowStart(index: nat, windowSize: int): nat
  {
    if index - windowSize + 1 < 0 then 0 else index - windowSize + 1
  }

  predicate IsPositive(v: real)
  {
    v > 0.0
  }

  /** The positive entries of the window that ends at `index`. */
  function PositiveWindow(data: seq<real>, index: nat, windowSize: int): seq<real>
  {
    Filter(Slice(data, WindowStart(index, windowSize), index + 1), IsPositive)
  }

  /** The mean of the positive entries among the last `windowSize` entries up
      to `index`, or None when there is none. */
  function MovingAverage(data: seq<real>, index: nat, windowSize: int): (avg: Option<real>)
    ensures avg.None? <==>
              forall i :: WindowStart(index, windowSize) <= i <= index && i < |data| ==> data[i] <= 0.0
    ensures avg.Some? ==>
              (exists i :: WindowStart(index, windowSize) <= i <= index && i < |data|
                             && 0.0 < data[i] <= avg.value)
              && (exists i :: WindowStart(index, windowSize) <= i <= index && i < |data|
                                && avg.value <= data[i])
  {
    var values := PositiveWindow(data, index, windowSize);
    PositiveWindowEmpty(data, index, windowSize);
    if |values| == 0 then None
    else
      MeanBetweenMinAndMax(values);
      PositiveWindowMembers(data, index, windowSize, Min(values));
      PositiveWindowMembers(data, index, windowSize, Max(values));
      Some(Mean(values))
  }

  lemma PositiveWindowMembers(data: seq<real>, index: nat, windowSize: int, v: real)
    requires v in PositiveWindow(data, index, windowSize)
    ensures exists i :: WindowStart(index, windowSize) <= i <= index && i < |data| && data[i] == v && 0.0 < v
  {
    var start := WindowStart(index, windowSize);
    var window := Slice(data, start, index + 1);
    SliceEntries(data, start, index + 1);
    var values := PositiveWindow(data, index, windowSize);
    var k :| 0 <= k < |values| && values[k] == v;
    assert v in window && IsPositive(v);
    var j :| 0 <= j < |window| && window[j] == v;
    assert data[start + j] == v;
  }

  lemma SliceEntries<T>(data: seq<T>, start: nat, end: nat)
    ensures var w := Slice(data, start, end);
            var hi := if end < |data| then end else |data|;
            |w| == (if start < hi then hi - start else 0)
            && forall j :: 0 <= j < |w| ==> start + j < |data| && w[j] == data[start + j]
  {
  }

  lemma PositiveWindowEmpty(data: seq<real>, index: nat, windowSize: int)
    ensures PositiveWindow(data, index, windowSize) == [] <==>
              forall i :: WindowStart(index, windowSize) <= i <= index && i < |data| ==> data[i] <= 0.0
  {
    var start := WindowStart(index, windowSize);
    var window := Slice(data, start, index + 1);
    SliceEntries(data, start, index + 1);
    FilterEmptyIff(window, IsPositive);
    if forall j :: 0 <= j < |window| ==> !IsPositive(window[j]) {
      NoPositiveInWindow(data, start, index, window);
    } else {
      var j :| 0 <= j < |window| && IsPositive(window[j]);
      assert data[start + j] == window[j];
    }
  }

  lemma NoPositiveInWindow(data: seq<real>, start: nat, index: nat, window: seq<real>)
    requires forall j :: 0 <= j < |window| ==> !IsPositive(window[j])
    requires var hi := if index + 1 < |data| then index + 1 else |data|;
             |window| == (if start < hi then hi - start else 0)
    requires forall j :: 0 <= j < |window| ==> start + j < |data| && window[j] == data[start + j]
    ensures forall i :: start <= i <= index && i < |data| ==> data[i] <= 0.0
  {
    forall i | start <= i <= index && i < |data|
      ensures data[i] <= 0.0
    {
      var j := i - start;
      assert window[j] == data[start + j];
    }
  }

  /** The average at `index` depends on nothing outside its window. */
  lemma MovingAverageIsLocal(data: seq<real>, other: seq<real>, index: nat, windowSize: int)
    requires index < |data| && index < |other|
    requires forall i :: WindowStart(index, windowSize) <= i <= index ==> data[i] == other[i]
    ensures MovingAverage(data, index, windowSize) == MovingAverage(other, index, windowSize)
  {
    var start := WindowStart(index, windowSize);
    assert Slice(data, start, index + 1) == Slice(other, start, index + 1);
  }

  lemma FilterSinglePositive(before: seq<real>, x: real, after: seq<real>)
    requires x > 0.0
    requires forall i :: 0 <= i < |before| ==> before[i] <= 0.0
    requires forall i :: 0 <= i < |after| ==> after[i] <= 0.0
    ensures Filter(before + [x] + after, IsPositive) == [x]
  {
    assert Filter(before, IsPositive) == [] by {
      FilterNone(before, IsPositive);
    }
    assert Filter(after, IsPositive) == [] by {
      FilterNone(after, IsPositive);
    }
    assert Filter(before + [x], IsPositive) == [x] by {
      FilterAppend(before, [x], IsPositive);
      FilterSingleton(x, IsPositive);
    }
    FilterAppend(before + [x], after, IsPositive);
  }

  lemma MovingAverageOfWindow(data: seq<real>, index: nat, windowSize: int, x: real)
    requires PositiveWindow(data, index, windowSize) == [x]
    ensures MovingAverage(data, index, windowSize) == Some(x)
  {
    assert [x][..0] == [];
  }

  /** A window holding a single positive entry averages to that entry:
      the non-positive entries neither count nor weigh. */
  lemma MovingAverageOfSinglePositive(data: seq<real>, index: nat, windowSize: int, k: nat)
    requires WindowStart(index, windowSize) <= k <= index < |data|
    requires data[k] > 0.0
    requires forall i :: WindowStart(index, windowSize) <= i <= index && i != k ==> data[i] <= 0.0
    ensures MovingAverage(data, index, windowSize) == Some(data[k])
  {
    var start := WindowStart(index, windowSize);
    var window := data[start..index + 1];
    assert Slice(data, start, index + 1) == window;
    var j := k - start;
    var before, after := window[..j], window[j + 1..];
    assert window == before + [data[k]] + after;
    assert forall i :: 0 <= i < |before| ==> before[i] <= 0.0;
    assert forall i :: 0 <= i < |after| ==> after[i] <= 0.0;
    FilterSinglePositive(before, data[k], after);
    MovingAverageOfWindow(data, index, windowSize, data[k]);
  }

  /** Seven empty days and then a 10: the window at index 7 is entries 1..7
      and holds the single positive value. */
  lemma MovingAverageSkipsNonPositive()
    ensures MovingAverage([0.0, 0.0, 0.0, 0.0, 0.0, 0.0, 0.0, 10.0], 7, 7) == Some(10.0)
  {
    MovingAverageOfSinglePositive([0.0, 0.0, 0.0, 0.0, 0.0, 0.0, 0.0, 10.0], 7, 7, 7);
  }

  // ---------------------------------------------------------------------
  // Filtering, processing and the chronological sort
  // ---------------------------------------------------------------------

  datatype ActivityType = Run | Walk | Ride | All

  datatype ProcessedActivity = ProcessedActivity(
    date: string,
    dateTimestamp: int,
    distance: real,
    pace: real,
    movingTime: real,
    heartRate: Option<real>,
    elevation: real,
    kind: string,
    name: string)

  function TypeName(t: ActivityType): string
  {
    match t
    case Run => "Run"
    case Walk => "Walk"
    case Ride => "Ride"
    case All => "All"
  }

  /** The filter callback: the selected type (unless 'All'), and not dated
      before the cutoff (when there is one). */
  function Keep(activityType: ActivityType, cutoff: Option<int>, a: Activity): (keep: bool)
    ensures keep ==> activityType == All || a.kind == TypeName(activityType)
    ensures keep ==> cutoff.None? || cutoff.value <= a.timestamp
    ensures activityType == All && cutoff.None? ==> keep
  {
    (activityType == All || a.kind == TypeName(activityType))
    && (cutoff.None? || !(a.timestamp < cutoff.value))
  }

  predicate AllWellFormed(activities: seq<Activity>)
  {
    forall a :: a in activities ==> WellFormedMovingTime(a.movingTime)
  }

  function Process(a: Activity): (p: ProcessedActivity)
    requires WellFormedMovingTime(a.movingTime)
    ensures p.date <= a.startDateLocal && ' ' !in p.date
    ensures p.date == a.startDateLocal || a.startDateLocal[|p.date|] == ' '
    ensures p.heartRate.None? <==> a.averageHeartrate == 0.0
    ensures p.movingTime == ParseMovingTime(a.movingTime)
    ensures p.pace == CalculatePace(a.distance, p.movingTime)
  {
    var movingTimeSeconds := ParseMovingTime(a.movingTime);
    ProcessedActivity(
      Split(a.startDateLocal, ' ')[0],
      a.timestamp,
      a.distance,
      CalculatePace(a.distance, movingTimeSeconds),
      movingTimeSeconds,
      if a.averageHeartrate != 0.0 then Some(a.averageHeartrate) else None,
      a.elevationGain,
      a.kind,
      a.name)
  }

  function ProcessAll(activities: seq<Activity>): (r: seq<ProcessedActivity>)
    requires AllWellFormed(activities)
    ensures |r| == |activities|
    ensures forall i :: 0 <= i < |r| ==> r[i] == Process(activities[i])
  {
    seq(|activities|, i requires 0 <= i < |activities| => Process(activities[i]))
  }

  /** The activities the filter callback keeps, in input order. */
  function KeptActivities(activities: seq<Activity>, activityType: ActivityType, cutoff: Option<int>)
    : (r: seq<Activity>)
    ensures forall i :: 0 <= i < |r| ==> r[i] in activities && Keep(activityType, cutoff, r[i])
    ensures forall i :: 0 <= i < |activities| && Keep(activityType, cutoff, activities[i]) ==>
              activities[i] in r
  {
    Filter(activities, a => Keep(activityType, cutoff, a))
  }

  function Timestamp(p: ProcessedActivity): int
  {
    p.dateTimestamp
  }

  /** The kept activities, processed, in ascending order of start time (a stable sort). */
  function FilteredActivities(activities: seq<Activity>, activityType: ActivityType, cutoff: Option<int>)
    : (r: seq<ProcessedActivity>)
    requires AllWellFormed(KeptActivities(activities, activityType, cutoff))
    ensures |r| == |KeptActivities(activities, activityType, cutoff)|
    ensures SortedBy(r, Timestamp)
    ensures forall i :: 0 <= i < |r| && activityType != All ==> r[i].kind == TypeName(activityType)
    ensures forall i :: 0 <= i < |r| && cutoff.Some? ==> cutoff.value <= r[i].dateTimestamp
    ensures forall i :: 0 <= i < |activities| && Keep(activityType, cutoff, activities[i]) ==>
              Process(activities[i]) in r
  {
    var kept := KeptActivities(activities, activityType, cutoff);
    var processed := ProcessAll(kept);
    var r := SortBy(processed, Timestamp);
    FilteredActivitiesFacts(kept, processed, r, activityType, cutoff);
    r
  }

  lemma FilteredActivitiesFacts(kept: seq<Activity>, processed: seq<ProcessedActivity>,
                                r: seq<ProcessedActivity>, activityType: ActivityType, cutoff: Option<int>)
    requires AllWellFormed(kept) && processed == ProcessAll(kept)
    requires forall i :: 0 <= i < |kept| ==> Keep(activityType, cutoff, kept[i])
    requires multiset(r) == multiset(processed)
    ensures forall i :: 0 <= i < |r| && activityType != All ==> r[i].kind == TypeName(activityType)
    ensures forall i :: 0 <= i < |r| && cutoff.Some? ==> cutoff.value <= r[i].dateTimestamp
    ensures forall i :: 0 <= i < |kept| ==> Process(kept[i]) in r
  {
    forall i | 0 <= i < |r|
      ensures (activityType != All ==> r[i].kind == TypeName(activityType))
           && (cutoff.Some? ==> cutoff.value <= r[i].dateTimestamp)
    {
      assert r[i] in multiset(processed);
      var j :| 0 <= j < |processed| && processed[j] == r[i];
      assert Keep(activityType, cutoff, kept[j]);
    }
    forall i | 0 <= i < |kept|
      ensures Process(kept[i]) in r
    {
      assert processed[i] in multiset(r);
    }
  }

  /** Activities with the same timestamp keep their input order. */
  lemma FilteredActivitiesKeepTies(activities: seq<Activity>, activityType: ActivityType, cutoff: Option<int>, t: int)
    requires AllWellFormed(KeptActivities(activities, activityType, cutoff))
    ensures Filter(FilteredActivities(activities, activityType, cutoff), KeyIs(Timestamp, t))
         == Filter(ProcessAll(KeptActivities(activities, activityType, cutoff)), KeyIs(Timestamp, t))
  {
    SortByIsStable(ProcessAll(KeptActivities(activities, activityType, cutoff)), Timestamp, t);
  }

  // ---------------------------------------------------------------------
  // Summary statistics
  // ---------------------------------------------------------------------

  datatype ProgressStats = ProgressStats(
    totalRuns: nat,
    totalDistance: real,
    averagePace: real,
    bestPace: real)

  function Distances(s: seq<ProcessedActivity>): (r: seq<real>)
    ensures |r| == |s| && forall i :: 0 <= i < |s| ==> r[i] == s[i].distance
  {
    seq(|s|, i requires 0 <= i < |s| => s[i].distance)
  }

  function Paces(s: seq<ProcessedActivity>): (r: seq<real>)
    ensures |r| == |s| && forall i :: 0 <= i < |s| ==> r[i] == s[i].pace
  {
    seq(|s|, i requires 0 <= i < |s| => s[i].pace)
  }

  /** Paces taken as plausible: strictly between 0 and 15 min/km. */
  predicate InPaceBand(p: real)
  {
    0.0 < p < 15.0
  }

  function ValidPaces(s: seq<ProcessedActivity>): seq<real>
  {
    Filter(Paces(s), InPaceBand)
  }

  function ComputeStats(s: seq<ProcessedActivity>): (st: ProgressStats)
    ensures st.totalRuns == |s|
    ensures st.totalDistance * 1000.0 == Sum(Distances(s))
    ensures (forall i :: 0 <= i < |s| ==> !InPaceBand(s[i].pace)) ==>
              st.averagePace == 0.0 && st.bestPace == 0.0
    ensures (exists i :: 0 <= i < |s| && InPaceBand(s[i].pace)) ==>
              0.0 < st.bestPace <= st.averagePace < 15.0
              && (exists i :: 0 <= i < |s| && s[i].pace == st.bestPace)
              && forall i :: 0 <= i < |s| && InPaceBand(s[i].pace) ==> st.bestPace <= s[i].pace
  {
    var totalRuns := |s|;
    var totalDistance := Sum(Distances(s)) / 1000.0;
    var validPaces := ValidPaces(s);
    if |validPaces| > 0 then
      MeanBetweenMinAndMax(validPaces);
      assert Max(validPaces) in validPaces;
      var j :| 0 <= j < |Paces(s)| && Paces(s)[j] == Min(validPaces);
      assert forall i :: 0 <= i < |s| && InPaceBand(s[i].pace) ==> Paces(s)[i] in validPaces;
      ProgressStats(totalRuns, totalDistance, Mean(validPaces), Min(validPaces))
    else
      assert forall i :: 0 <= i < |s| && InPaceBand(s[i].pace) ==> Paces(s)[i] in validPaces;
      ProgressStats(totalRuns, totalDistance, 0.0, 0.0)
  }

  // ---------------------------------------------------------------------
  // Chart data
  // ---------------------------------------------------------------------

  datatype ChartPoint = ChartPoint(
    date: string,
    dateTimestamp: int,
    pace: real,
    movingAvgPace: Option<real>,
    cumulativeDistance: real,
    heartRate: Option<real>,
    elevation: real,
    distance: real)

  /** Distances in kilometres, the amounts `cumulativeDistance` is advanced by. */
  function KmDistances(s: seq<ProcessedActivity>): (r: seq<real>)
    ensures |r| == |s| && forall i :: 0 <= i < |s| ==> r[i] == s[i].distance / 1000.0
  {
    seq(|s|, i requires 0 <= i < |s| => s[i].distance / 1000.0)
  }

  lemma {:induction false} KmSumIsScaledSum(s: seq<ProcessedActivity>)
    ensures Sum(KmDistances(s)) * 1000.0 == Sum(Distances(s))
    decreases |s|
  {
    if s != [] {
      var init := s[..|s| - 1];
      assert KmDistances(s)[..|s| - 1] == KmDistances(init);
      assert Distances(s)[..|s| - 1] == Distances(init);
      KmSumIsScaledSum(init);
    }
  }

  /** The point the `chartData` map produces for the activity at `index`. */
  function ChartPointAt(activities: seq<ProcessedActivity>, index: nat): (p: ChartPoint)
    requires index < |activities|
    ensures p.date == activities[index].date && p.dateTimestamp == activities[index].dateTimestamp
    ensures p.pace == activities[index].pace && p.heartRate == activities[index].heartRate
    ensures p.distance * 1000.0 == activities[index].distance
    ensures p.cumulativeDistance == Sum(KmDistances(activities)[..index + 1])
  {
    var a := activities[index];
    PrefixSumIsSum(KmDistances(activities), index + 1);
    ChartPoint(a.date, a.dateTimestamp, a.pace,
               MovingAverage(Paces(activities), index, 7),
               PrefixSum(KmDistances(activities), index + 1),
               a.heartRate, a.elevation, a.distance / 1000.0)
  }

  /** The points of the first `n` activities. */
  function ChartPoints(activities: seq<ProcessedActivity>, n: nat): (r: seq<ChartPoint>)
    requires n <= |activities|
    ensures |r| == n
  {
    if n == 0 then [] else ChartPoints(activities, n - 1) + [ChartPointAt(activities, n - 1)]
  }

  lemma {:induction false} ChartPointsAt(activities: seq<ProcessedActivity>, n: nat)
    requires n <= |activities|
    ensures forall i :: 0 <= i < n ==> ChartPoints(activities, n)[i] == ChartPointAt(activities, i)
  {
    if n > 0 {
      ChartPointsAt(activities, n - 1);
    }
  }

  /** One point per activity, in order, carrying the moving average of pace
      and the distance covered so far. */
  method ChartData(activities: seq<ProcessedActivity>) returns (points: seq<ChartPoint>)
    ensures |points| == |activities|
    ensures forall i :: 0 <= i < |activities| ==> points[i] == ChartPointAt(activities, i)
  {
    var cumulativeDistance := 0.0;
    var paces := Paces(activities);
    points := [];
    var index := 0;
    while index < |activities|
      invariant 0 <= index <= |activities|
      invariant cumulativeDistance == PrefixSum(KmDistances(activities), index)
      invariant points == ChartPoints(activities, index)
    {
      var point;
      point, cumulativeDistance := ChartPointCallback(activities, paces, index, cumulativeDistance);
      points := points + [point];
      index := index + 1;
    }
    ChartPointsAt(activities, |activities|);
  }

  /** The `map` callback for the activity at `index`: it advances the
      running total by the activity's kilometres and builds its point. */
  method ChartPointCallback(activities: seq<ProcessedActivity>, paces: seq<real>, index: nat,
                            cumulativeDistance: real)
    returns (point: ChartPoint, newCumulativeDistance: real)
    requires index < |activities| && paces == Paces(activities)
    requires cumulativeDistance == PrefixSum(KmDistances(activities), index)
    ensures newCumulativeDistance == PrefixSum(KmDistances(activities), index + 1)
    ensures point == ChartPointAt(activities, index)
  {
    var activity := activities[index];
    newCumulativeDistance := cumulativeDistance + activity.distance / 1000.0;
    var movingAvgPace := MovingAverage(paces, index, 7);
    point := ChartPoint(activity.date, activity.dateTimestamp, activity.pace,
                        movingAvgPace, newCumulativeDistance,
                        activity.heartRate, activity.elevation,
                        activity.distance / 1000.0);
  }

  /** With no negative distance, the running total never decreases. */
  lemma ChartPointsNeverDecrease(activities: seq<ProcessedActivity>, i: nat, j: nat)
    requires forall k :: 0 <= k < |activities| ==> 0.0 <= activities[k].distance
    requires i <= j < |activities|
    ensures ChartPointAt(activities, i).cumulativeDistance <= ChartPointAt(activities, j).cumulativeDistance
  {
    PrefixSumGrows(KmDistances(activities), i + 1, j + 1);
  }

  /** The last point's running total is the total distance of the statistics. */
  lemma LastChartPointIsTotal(activities: seq<ProcessedActivity>)
    requires |activities| > 0
    ensures ChartPointAt(activities, |activities| - 1).cumulativeDistance
            == ComputeStats(activities).totalDistance
  {
    var km := KmDistances(activities);
    PrefixSumIsSum(km, |activities|);
    assert km[..|activities|] == km;
    KmSumIsScaledSum(activities);
  }

  /** The whole hook: filtered and sorted activities, their statistics and
      their chart points. */
  method UseProgressData(activities: seq<Activity>, activityType: ActivityType, cutoff: Option<int>)
    returns (processed: seq<ProcessedActivity>, stats: ProgressStats, chartData: seq<ChartPoint>)
    requires AllWellFormed(KeptActivities(activities, activityType, cutoff))
    ensures processed == FilteredActivities(activities, activityType, cutoff)
    ensures stats == ComputeStats(processed)
    ensures |chartData| == |processed| == stats.totalRuns
    ensures forall i :: 0 <= i < |chartData| ==> chartData[i] == ChartPointAt(processed, i)
    ensures |chartData| > 0 ==> chartData[|chartData| - 1].cumulativeDistance == stats.totalDistance
  {
    processed := FilteredActivities(activities, activityType, cutoff);
    stats := ComputeStats(processed);
    chartData := ChartData(processed);
    if |chartData| > 0 {
      LastChartPointIsTotal(processed);
    }
  }

  // ---------------------------------------------------------------------
  // Pace label
  // ---------------------------------------------------------------------

  /** What `formatPace` prints: the placeholder '--', or minutes and seconds. */
  datatype PaceText = Placeholder | MinutesSeconds(minutes: nat, seconds: nat)

  /** `Math.round`: halves round up. */
  function RoundHalfUp(x: real): (n: int)
    ensures x - 0.5 < n as real <= x + 0.5
  {
    (x + 0.5).Floor
  }

  /** `formatPace` as written: whole minutes, then the rounded remainder in
      seconds. */
  function FormatPace(pace: real): (t: PaceText)
    ensures t.Placeholder? <==> pace <= 0.0 || pace > 30.0
    ensures t.MinutesSeconds? ==>
              t.minutes == pace.Floor && t.minutes <= 30 && t.seconds <= 60
              && pace * 60.0 - 0.5 < (t.minutes * 60 + t.seconds) as real <= pace * 60.0 + 0.5
  {
    if pace <= 0.0 || pace > 30.0 then Placeholder
    else
      var minutes := pace.Floor;
      var seconds := RoundHalfUp((pace - minutes as real) * 60.0);
      MinutesSeconds(minutes, seconds)
  }

  /** The as-written split prints 60 seconds when the fraction is within half
      a second of the next minute. */
  lemma FormatPacePrintsSixtySeconds()
    ensures FormatPace(5.995) == MinutesSeconds(5, 60)
  {
    assert (5.995).Floor == 5;
    assert (5.995 - 5.0) * 60.0 + 0.5 == 60.2;
    assert (60.2).Floor == 60;
  }

  /** The split as intended: the pace rounded to whole seconds, then split
      into minutes and seconds, so the seconds never reach 60. */
  function FormatPaceCarried(pace: real): (t: PaceText)
    ensures t.Placeholder? <==> pace <= 0.0 || pace > 30.0
    ensures t.MinutesSeconds? ==>
              t.seconds < 60 && t.minutes <= 30
              && pace * 60.0 - 0.5 < (t.minutes * 60 + t.seconds) as real <= pace * 60.0 + 0.5
  {
    if pace <= 0.0 || pace > 30.0 then Placeholder
    else
      var total := RoundHalfUp(pace * 60.0);
      MinutesSeconds(total / 60, total % 60)
  }

  /** Agrees with the as-written split whenever that one prints fewer than 60
      seconds. */
  lemma FormatPaceCarriedAgrees(pace: real)
    requires FormatPace(pace).MinutesSeconds? && FormatPace(pace).seconds < 60
    ensures FormatPaceCarried(pace) == FormatPace(pace)
  {
    var t := FormatPace(pace);
    var total := RoundHalfUp(pace * 60.0);
    assert total == t.minutes * 60 + t.seconds by {
      assert pace * 60.0 - 0.5 < total as real <= pace * 60.0 + 0.5;
    }
  }

  /** Left-pads a one-character text with a zero. */
  function PadTwo(s: string): string
  {
    if |s| < 2 then "0" + s else s
  }

  /** The text of a split: '--', or the minutes, an apostrophe, the seconds
      padded to two digits and a double quote. */
  function RenderText(t: PaceText): (text: string)
    requires t.MinutesSeconds? ==> t.seconds < 100
    ensures t.Placeholder? ==> text == "--"
    ensures t.MinutesSeconds? ==>
              exists secs :: |secs| == 2 && AllDigits(secs) && DigitsValue(secs) == t.seconds
                && text == NatToString(t.minutes) + "'" + secs + "\""
  {
    match t
    case Placeholder => "--"
    case MinutesSeconds(minutes, seconds) =>
      var secs := PadTwo(NatToString(seconds));
      NatToStringRoundTrip(seconds);
      LeadingZeroIgnored(NatToString(seconds));
      assert |NatToString(seconds)| <= 2 by {
        if seconds >= 10 { assert NatToString(seconds) == NatToString(seconds / 10) + [DigitChar(seconds % 10)]; }
      }
      NatToString(minutes) + "'" + secs + "\""
  }

  /** The label `formatPace` returns, on the as-written split: the seconds
      are at most 60 and always printed as two digits. */
  function RenderPace(pace: real): (text: string)
    ensures text == "--" <==> pace <= 0.0 || pace > 30.0
    ensures pace > 0.0 && pace <= 30.0 ==>
              var t := FormatPace(pace);
              exists secs :: |secs| == 2 && AllDigits(secs) && DigitsValue(secs) == t.seconds <= 60
                && text == NatToString(t.minutes) + "'" + secs + "\""
  {
    RenderText(FormatPace(pace))
  }

  /** The label the as-written split gives pace 5.995. */
  lemma RenderPacePrintsSixtySeconds()
    ensures RenderPace(5.995) == "5'60\""
  {
    FormatPacePrintsSixtySeconds();
    assert NatToString(60) == "60" by {
      assert NatToString(60) == NatToString(6) + [DigitChar(0)];
    }
    assert NatToString(5) == "5";
  }

  /** The label as intended, on the carried split: the seconds are below 60. */
  function RenderPaceCarried(pace: real): (text: string)
    ensures text == "--" <==> pace <= 0.0 || pace > 30.0
    ensures pace > 0.0 && pace <= 30.0 ==>
              var t := FormatPaceCarried(pace);
              exists secs :: |secs| == 2 && AllDigits(secs) && DigitsValue(secs) == t.seconds < 60
                && text == NatToString(t.minutes) + "'" + secs + "\""
  {
    RenderText(FormatPaceCarried(pace))
  }

  /** The two labels differ only where the as-written one prints 60 seconds. */
  lemma RenderPaceCarriedAgrees(pace: real)
    requires FormatPace(pace).MinutesSeconds? && FormatPace(pace).seconds < 60
    ensures RenderPaceCarried(pace) == RenderPace(pace)
  {
    FormatPaceCarriedAgrees(pace);
  }
}
