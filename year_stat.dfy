/**
 * The summary card of one year (or of every year, under "Total"): the runs
 * of that year, and one pass over them that adds up distance, climb, the
 * time spent at a known speed, heart rate, and the longest streak.
 */
module YearStat {
  import opened Common

  // ---------------------------------------------------------------------
  // The runs of a year
  // ---------------------------------------------------------------------

  /** The first four characters of the start date are the year. */
  function StartsInYear(year: string): Activity -> bool
  {
    (run: Activity) => Prefix(run.startDateLocal, 4) == year
  }

  /** The runs of `year` when it is one of the known `years`; every run
      otherwise (the "Total" card). */
  function FilteredRuns(runs: seq<Activity>, years: seq<string>, year: string): (r: seq<Activity>)
    ensures year !in years ==> r == runs
    ensures year in years ==>
              (forall i :: 0 <= i < |r| ==> r[i] in runs && Prefix(r[i].startDateLocal, 4) == year)
              && (forall i :: 0 <= i < |runs| && Prefix(runs[i].startDateLocal, 4) == year ==> runs[i] in r)
  {
    if year in years then Filter(runs, StartsInYear(year)) else runs
  }

  // ---------------------------------------------------------------------
  // What the single pass accumulates, stated run by run
  // ---------------------------------------------------------------------

  /** Metres run; a missing distance adds nothing. */
  function SumDistance(runs: seq<Activity>): real
  {
    if runs == [] then 0.0 else SumDistance(runs[..|runs| - 1]) + runs[|runs| - 1].distance
  }

  function SumElevation(runs: seq<Activity>): real
  {
    if runs == [] then 0.0 else SumElevation(runs[..|runs| - 1]) + runs[|runs| - 1].elevationGain
  }

  /** A speed takes part only when it is truthy, that is, not zero. */
  predicate HasTruthySpeed(run: Activity)
  {
    run.averageSpeed != 0.0
  }

  /** Metres of the runs that have a speed. */
  function MetersWithSpeed(runs: seq<Activity>): real
  {
    if runs == [] then 0.0
    else
      var run := runs[|runs| - 1];
      MetersWithSpeed(runs[..|runs| - 1]) + (if HasTruthySpeed(run) then run.distance else 0.0)
  }

  /** Seconds of the runs that have a speed, each one's distance over its speed. */
  function SecondsWithSpeed(runs: seq<Activity>): real
  {
    if runs == [] then 0.0
    else
      var run := runs[|runs| - 1];
      SecondsWithSpeed(runs[..|runs| - 1]) + (if HasTruthySpeed(run) then run.distance / run.averageSpeed else 0.0)
  }

  predicate HasHeartRate(run: Activity)
  {
    run.averageHeartrate != 0.0
  }

  /** The heart rates that are present, in run order. */
  function HeartRates(runs: seq<Activity>): (r: seq<real>)
    ensures |r| <= |runs|
  {
    if runs == [] then []
    else
      var run := runs[|runs| - 1];
      HeartRates(runs[..|runs| - 1]) + (if HasHeartRate(run) then [run.averageHeartrate] else [])
  }

  function HeartRateSum(runs: seq<Activity>): real
  {
    if runs == [] then 0.0
    else
      var run := runs[|runs| - 1];
      HeartRateSum(runs[..|runs| - 1]) + (if HasHeartRate(run) then run.averageHeartrate else 0.0)
  }

  /** Runs without a heart rate. */
  function HeartRateNullCount(runs: seq<Activity>): nat
  {
    if runs == [] then 0
    else HeartRateNullCount(runs[..|runs| - 1]) + (if HasHeartRate(runs[|runs| - 1]) then 0 else 1)
  }

  /** The longest streak among the runs, 0 when there is none; a streak of
      0 is falsy and never taken. */
  function MaxStreak(runs: seq<Activity>): nat
  {
    if runs == [] then 0
    else
      var m := MaxStreak(runs[..|runs| - 1]);
      var last := runs[|runs| - 1];
      if last.streak != 0 && m < last.streak then last.streak else m
  }

  /** The longest streak bounds every run's streak and, unless it is 0, is
      one of them. */
  lemma {:induction false} MaxStreakIsLongest(runs: seq<Activity>)
    ensures forall i :: 0 <= i < |runs| ==> runs[i].streak <= MaxStreak(runs)
    ensures MaxStreak(runs) == 0 || exists i :: 0 <= i < |runs| && runs[i].streak == MaxStreak(runs)
  {
    if runs != [] {
      var init := runs[..|runs| - 1];
      MaxStreakIsLongest(init);
      assert forall i :: 0 <= i < |init| ==> runs[i] == init[i];
    }
  }

  // ---------------------------------------------------------------------
  // The card
  // ---------------------------------------------------------------------

  /** The figures of a year card. `sumDistanceKm` and `sumElevationGain` are
      unrounded; `avgSpeed` is metres per second over the runs with a speed
      and is handed to the pace formatter; a mean with nothing to divide by is
      `None`. */
  datatype YearSummary = YearSummary(
    sumDistanceKm: real,
    sumElevationGain: real,
    avgSpeed: Option<real>,
    hasHeartRate: bool,
    avgHeartRate: Option<real>,
    streak: nat,
    runCount: nat)

  /** Quotient, or `None` for a zero divisor. */
  function Divide(numerator: real, denominator: real): (q: Option<real>)
    ensures q.None? <==> denominator == 0.0
    ensures q.Some? ==> q.value * denominator == numerator
  {
    if denominator == 0.0 then None else Some(numerator / denominator)
  }

  /** The card, stated through the run-by-run totals. */
  function Summarize(runs: seq<Activity>): YearSummary
  {
    var heartRate := HeartRateSum(runs);
    YearSummary(
      SumDistance(runs) / 1000.0,
      SumElevation(runs),
      Divide(MetersWithSpeed(runs), SecondsWithSpeed(runs)),
      heartRate != 0.0,
      Divide(heartRate, (|runs| - HeartRateNullCount(runs)) as real),
      MaxStreak(runs),
      |runs|)
  }

  /** The single pass: seven accumulators updated run by run. */
  method YearStats(filteredRuns: seq<Activity>) returns (summary: YearSummary)
    ensures summary == Summarize(filteredRuns)
  {
    var sumDistance := 0.0;
    var streak: nat := 0;
    var sumElevationGain := 0.0;
    var heartRate := 0.0;
    var heartRateNullCount: nat := 0;
    var totalMetersAvail := 0.0;
    var totalSecondsAvail := 0.0;
    var i := 0;
    while i < |filteredRuns|
      invariant 0 <= i <= |filteredRuns|
      invariant sumDistance == SumDistance(filteredRuns[..i])
      invariant sumElevationGain == SumElevation(filteredRuns[..i])
      invariant totalMetersAvail == MetersWithSpeed(filteredRuns[..i])
      invariant totalSecondsAvail == SecondsWithSpeed(filteredRuns[..i])
      invariant heartRate == HeartRateSum(filteredRuns[..i])
      invariant heartRateNullCount == HeartRateNullCount(filteredRuns[..i])
      invariant streak == MaxStreak(filteredRuns[..i])
    {
      var run := filteredRuns[i];
      assert filteredRuns[..i + 1][..i] == filteredRuns[..i];
      sumDistance := sumDistance + run.distance;
      sumElevationGain := sumElevationGain + run.elevationGain;
      if run.averageSpeed != 0.0 {
        totalMetersAvail := totalMetersAvail + run.distance;
        totalSecondsAvail := totalSecondsAvail + run.distance / run.averageSpeed;
      }
      if run.averageHeartrate != 0.0 {
        heartRate := heartRate + run.averageHeartrate;
      } else {
        heartRateNullCount := heartRateNullCount + 1;
      }
      if run.streak != 0 {
        streak := if streak < run.streak then run.streak else streak;
      }
      i := i + 1;
    }
    assert filteredRuns[..i] == filteredRuns;
    summary := YearSummary(
      sumDistance / 1000.0,
      sumElevationGain,
      Divide(totalMetersAvail, totalSecondsAvail),
      heartRate != 0.0,
      Divide(heartRate, (|filteredRuns| - heartRateNullCount) as real),
      streak,
      |filteredRuns|);
  }

  // ---------------------------------------------------------------------
  // What the card means
  // ---------------------------------------------------------------------

  /** Every run either has a heart rate or is counted as missing one. */
  lemma {:induction false} HeartRateCounts(runs: seq<Activity>)
    ensures HeartRateNullCount(runs) + |HeartRates(runs)| == |runs|
    ensures HeartRateSum(runs) == Sum(HeartRates(runs))
  {
    if runs != [] {
      var init := runs[..|runs| - 1];
      var run := runs[|runs| - 1];
      HeartRateCounts(init);
      var tail := if HasHeartRate(run) then [run.averageHeartrate] else [];
      SumAppend(HeartRates(init), tail);
      if HasHeartRate(run) {
        assert Sum(tail) == Sum([]) + run.averageHeartrate by {
          assert tail[..0] == [];
        }
      }
    }
  }

  /** The average heart rate is the mean of the heart rates that are
      present, so it lies between the lowest and the highest of them; it is
      missing exactly when no run has one. */
  lemma AverageHeartRateIsMean(runs: seq<Activity>)
    ensures Summarize(runs).avgHeartRate.None? <==> HeartRates(runs) == []
    ensures HeartRates(runs) != [] ==>
              Summarize(runs).avgHeartRate == Some(Mean(HeartRates(runs)))
              && Min(HeartRates(runs)) <= Mean(HeartRates(runs)) <= Max(HeartRates(runs))
  {
    HeartRateCounts(runs);
    if HeartRates(runs) != [] {
      MeanBetweenMinAndMax(HeartRates(runs));
    }
  }

  /** With no negative distance the distance total is not negative. */
  lemma {:induction false} SumDistanceNonNegative(runs: seq<Activity>)
    requires forall i :: 0 <= i < |runs| ==> 0.0 <= runs[i].distance
    ensures 0.0 <= SumDistance(runs)
  {
    if runs != [] {
      SumDistanceNonNegative(runs[..|runs| - 1]);
    }
  }

  /** With no negative inputs the totals are not negative. */
  lemma {:induction false} SumsNonNegative(runs: seq<Activity>)
    requires forall i :: 0 <= i < |runs| ==> 0.0 <= runs[i].distance && 0.0 <= runs[i].elevationGain
    ensures 0.0 <= Summarize(runs).sumDistanceKm && 0.0 <= Summarize(runs).sumElevationGain
    ensures 0.0 <= MetersWithSpeed(runs) <= SumDistance(runs)
  {
    if runs != [] {
      SumsNonNegative(runs[..|runs| - 1]);
    }
  }

  /** When every run was done at the same speed, the card's average speed is
      that speed: each run contributes its distance over its speed, so the
      totals are in that ratio. */
  lemma {:induction false} SecondsAtConstantSpeed(runs: seq<Activity>, speed: real)
    requires speed != 0.0
    requires forall i :: 0 <= i < |runs| ==> runs[i].averageSpeed == speed
    ensures SecondsWithSpeed(runs) * speed == MetersWithSpeed(runs)
  {
    if runs != [] {
      var run := runs[|runs| - 1];
      SecondsAtConstantSpeed(runs[..|runs| - 1], speed);
      assert (run.distance / speed) * speed == run.distance;
    }
  }

  /** Dividing by a non-zero divisor undoes multiplying by it. */
  lemma DivideUndoesScaling(total: real, divisor: real, x: real)
    requires divisor * x == total
    requires total != 0.0
    ensures Divide(total, divisor) == Some(x)
  {
    assert divisor != 0.0;
    var y := total / divisor;
    assert y * divisor == total;
    assert (x - y) * divisor == 0.0;
  }

  lemma {:induction false} ConstantSpeedAverage(runs: seq<Activity>, speed: real)
    requires speed != 0.0
    requires forall i :: 0 <= i < |runs| ==> runs[i].averageSpeed == speed
    requires MetersWithSpeed(runs) != 0.0
    ensures Summarize(runs).avgSpeed == Some(speed)
  {
    SecondsAtConstantSpeed(runs, speed);
    DivideUndoesScaling(MetersWithSpeed(runs), SecondsWithSpeed(runs), speed);
  }

  /** The year card counts every run of its year and nothing else. */
  lemma RunCountOfYear(runs: seq<Activity>, years: seq<string>, year: string)
    requires year in years
    ensures Summarize(FilteredRuns(runs, years, year)).runCount <= |runs|
    ensures (forall i :: 0 <= i < |runs| ==> Prefix(runs[i].startDateLocal, 4) != year) ==>
              Summarize(FilteredRuns(runs, years, year)).runCount == 0
  {
    if forall i :: 0 <= i < |runs| ==> Prefix(runs[i].startDateLocal, 4) != year {
      FilterNone(runs, StartsInYear(year));
    }
  }
}
