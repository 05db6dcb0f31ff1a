/**
 * The list of year cards and the current-year goal figures: the selected
 * year is moved to the front of the year list (with "Total" added at the
 * end), and the distance run so far this year is added up. The current year
 * is a parameter.
 */
module YearsStat {
  import opened Common
  import YearStat

  const TotalYear: string := "Total"

  /** Keeps every entry other than `year`. */
  function Differs(year: string): string -> bool
  {
    y => y != year
  }

  /** The year list with the selected year first: a copy of `years`, then
      "Total" appended, then every copy of `year` dropped, then `year` put
      in front. */
  method YearsArrayUpdate(years: seq<string>, year: string) returns (updatedYears: seq<string>)
    ensures |updatedYears| > 0 && updatedYears[0] == year
    ensures updatedYears[1..] == Filter(years + [TotalYear], Differs(year))
    ensures multiset(updatedYears)[year] == 1
    ensures forall y :: y in updatedYears <==> y == year || y in years || y == TotalYear
  {
    updatedYears := years;
    updatedYears := updatedYears + [TotalYear];
    updatedYears := Filter(updatedYears, Differs(year));
    ghost var rest := updatedYears;
    updatedYears := [year] + updatedYears;
    assert updatedYears[1..] == rest;
    assert year !in multiset(rest);
    forall y
      ensures y in updatedYears <==> y == year || y in years || y == TotalYear
    {
      if y != year && (y in years || y == TotalYear) {
        var all := years + [TotalYear];
        var i :| 0 <= i < |all| && all[i] == y;
        assert y in rest;
      }
    }
  }

  /** The other years keep their order from `years`, and "Total" comes last
      unless it is the selected one. */
  lemma {:induction false} UpdatedYearsOrder(years: seq<string>, year: string)
    ensures Filter(years + [TotalYear], Differs(year))
            == Filter(years, Differs(year)) + (if year != TotalYear then [TotalYear] else [])
  {
    FilterAppend(years, [TotalYear], Differs(year));
    FilterSingleton(TotalYear, Differs(year));
  }

  /** The runs that started in the current year. */
  function CurrentYearActivities(activities: seq<Activity>, currentYear: string): (r: seq<Activity>)
    ensures forall i :: 0 <= i < |r| ==> r[i] in activities && Prefix(r[i].startDateLocal, 4) == currentYear
    ensures forall i :: 0 <= i < |activities| && Prefix(activities[i].startDateLocal, 4) == currentYear ==>
              activities[i] in r
  {
    Filter(activities, YearStat.StartsInYear(currentYear))
  }

  /** Kilometres run in the current year; a missing distance adds nothing.
      It is the figure the year card computes for the same runs. */
  function CurrentYearDistance(activities: seq<Activity>, currentYear: string): (km: real)
    ensures km == YearStat.Summarize(CurrentYearActivities(activities, currentYear)).sumDistanceKm
  {
    YearStat.SumDistance(CurrentYearActivities(activities, currentYear)) / 1000.0
  }

  lemma CurrentYearDistanceNonNegative(activities: seq<Activity>, currentYear: string)
    requires forall i :: 0 <= i < |activities| ==> 0.0 <= activities[i].distance
    ensures 0.0 <= CurrentYearDistance(activities, currentYear)
  {
    var runs := CurrentYearActivities(activities, currentYear);
    forall i | 0 <= i < |runs|
      ensures 0.0 <= runs[i].distance
    {
      var j :| 0 <= j < |activities| && activities[j] == runs[i];
    }
    YearStat.SumDistanceNonNegative(runs);
  }

  /** The mini dashboard is shown on the "Total" card and on the current
      year's card, and on no other. */
  function ShowDashboard(year: string, currentYear: string): (show: bool)
    ensures year == TotalYear ==> show
    ensures year != TotalYear ==> (show <==> year == currentYear)
  {
    year == TotalYear || year == currentYear
  }

  /** Whenever the dashboard shows on a year's own card, its goal distance
      is that card's distance. */
  lemma {:induction false} GoalDistanceMatchesYearCard(activities: seq<Activity>, years: seq<string>,
                                                       year: string, currentYear: string)
    requires ShowDashboard(year, currentYear) && year != TotalYear && year in years
    ensures CurrentYearDistance(activities, currentYear)
            == YearStat.Summarize(YearStat.FilteredRuns(activities, years, year)).sumDistanceKm
  {
  }
}
