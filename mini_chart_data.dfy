/**
 * The two small series behind the dashboard's mini charts: the distance run
 * in each of the last few weeks, and the speed of the last few runs.
 * "Now" is a parameter; every activity's start date is its `timestamp`.
 */
module MiniChartData {
  import opened Common

  /** One bar or point of a mini chart. */
  datatype BucketPoint = BucketPoint(value: real, caption: string)

  /** Milliseconds in seven days. */
  const MsPerWeek: int := 7 * 24 * 60 * 60 * 1000

  // ---------------------------------------------------------------------
  // Weekly distance buckets
  // ---------------------------------------------------------------------

  /** Total distance, in metres, of the activities that start in the
      half-open interval [lo, hi): the filter and the sum of one week. */
  function WindowDistance(acts: seq<Activity>, lo: int, hi: int): real
  {
    if acts == [] then 0.0
    else
      var last := acts[|acts| - 1];
      WindowDistance(acts[..|acts| - 1], lo, hi)
        + (if lo <= last.timestamp < hi then last.distance else 0.0)
  }

  /** Adjacent intervals add up: an activity falls into exactly one of
      [lo, mid) and [mid, hi). */
  lemma {:induction false} WindowDistanceSplit(acts: seq<Activity>, lo: int, mid: int, hi: int)
    requires lo <= mid <= hi
    ensures WindowDistance(acts, lo, hi) == WindowDistance(acts, lo, mid) + WindowDistance(acts, mid, hi)
  {
    if acts != [] {
      WindowDistanceSplit(acts[..|acts| - 1], lo, mid, hi);
    }
  }

  lemma {:induction false} WindowDistanceNonNegative(acts: seq<Activity>, lo: int, hi: int)
    requires forall i :: 0 <= i < |acts| ==> 0.0 <= acts[i].distance
    ensures 0.0 <= WindowDistance(acts, lo, hi)
  {
    if acts != [] {
      WindowDistanceNonNegative(acts[..|acts| - 1], lo, hi);
    }
  }

  /** An empty interval holds no distance. */
  lemma {:induction false} WindowDistanceEmpty(acts: seq<Activity>, lo: int, hi: int)
    requires hi <= lo
    ensures WindowDistance(acts, lo, hi) == 0.0
  {
    if acts != [] {
      WindowDistanceEmpty(acts[..|acts| - 1], lo, hi);
    }
  }

  /** First millisecond of the `k`-th bucket (0-based, oldest first). */
  function WeekStart(weeks: int, now: int, k: int): int
  {
    now - (weeks - k) * MsPerWeek
  }

  /** The `k`-th entry of the weekly series: the week [start, start + 7 days),
      in kilometres, labelled `W(k+1)`. */
  function WeekBucket(acts: seq<Activity>, weeks: int, now: int, k: nat): BucketPoint
  {
    BucketPoint(WindowDistance(acts, WeekStart(weeks, now, k), WeekStart(weeks, now, k + 1)) / 1000.0,
                Label("W", k + 1))
  }

  /** The weekly series, oldest week first. */
  method WeeklyDistanceData(acts: seq<Activity>, weeks: int, now: int) returns (data: seq<BucketPoint>)
    ensures |data| == if weeks > 0 then weeks else 0
    ensures forall k :: 0 <= k < |data| ==> data[k] == WeekBucket(acts, weeks, now, k)
    ensures forall k :: 0 <= k < |data| ==> data[k].caption == Label("W", k + 1)
    ensures (forall i :: 0 <= i < |acts| ==> 0.0 <= acts[i].distance) ==>
              forall k :: 0 <= k < |data| ==> 0.0 <= data[k].value
  {
    data := [];
    var i := weeks - 1;
    while i >= 0
      invariant i < weeks
      invariant weeks > 0 ==> -1 <= i && |data| == weeks - 1 - i
      invariant weeks <= 0 ==> data == []
      invariant forall k :: 0 <= k < |data| ==> data[k] == WeekBucket(acts, weeks, now, k)
      decreases i + 1
    {
      var weekStart := now - (i + 1) * MsPerWeek;
      var weekEnd := now - i * MsPerWeek;
      var weekDistance := WindowDistance(acts, weekStart, weekEnd);
      data := data + [BucketPoint(weekDistance / 1000.0, Label("W", weeks - i))];
      i := i - 1;
    }
    if forall j :: 0 <= j < |acts| ==> 0.0 <= acts[j].distance {
      forall k | 0 <= k < |data|
        ensures 0.0 <= data[k].value
      {
        WindowDistanceNonNegative(acts, WeekStart(weeks, now, k), WeekStart(weeks, now, k + 1));
      }
    }
  }

  /** Consecutive buckets meet: each one ends where the next begins, and the
      last ends at `now`. */
  lemma BucketsAreContiguous(weeks: int, now: int, k: nat)
    ensures WeekStart(weeks, now, k + 1) == WeekStart(weeks, now, k) + MsPerWeek
    ensures WeekStart(weeks, now, weeks) == now
  {
  }

  /** An activity lies in at most one bucket. */
  lemma AtMostOneBucket(t: int, weeks: int, now: int, k: nat, k': nat)
    requires WeekStart(weeks, now, k) <= t < WeekStart(weeks, now, k + 1)
    requires WeekStart(weeks, now, k') <= t < WeekStart(weeks, now, k' + 1)
    ensures k == k'
  {
  }

  function Values(data: seq<BucketPoint>): (r: seq<real>)
    ensures |r| == |data| && forall i :: 0 <= i < |data| ==> r[i] == data[i].value
  {
    seq(|data|, i requires 0 <= i < |data| => data[i].value)
  }

  /** The first `n` buckets together hold exactly the distance run from the
      start of the oldest bucket to the end of the `n`-th. */
  lemma {:induction false} BucketPrefixTotal(acts: seq<Activity>, weeks: int, now: int,
                                             data: seq<BucketPoint>, n: nat)
    requires n <= |data|
    requires forall k :: 0 <= k < |data| ==> data[k] == WeekBucket(acts, weeks, now, k)
    ensures Sum(Values(data[..n])) * 1000.0
            == WindowDistance(acts, WeekStart(weeks, now, 0), WeekStart(weeks, now, n))
  {
    var lo := WeekStart(weeks, now, 0);
    if n == 0 {
      assert Values(data[..0]) == [];
      WindowDistanceEmpty(acts, lo, lo);
    } else {
      BucketPrefixTotal(acts, weeks, now, data, n - 1);
      var vs := Values(data[..n]);
      assert vs[..|vs| - 1] == Values(data[..n - 1]);
      assert vs[|vs| - 1] * 1000.0
             == WindowDistance(acts, WeekStart(weeks, now, n - 1), WeekStart(weeks, now, n));
      WindowDistanceSplit(acts, lo, WeekStart(weeks, now, n - 1), WeekStart(weeks, now, n));
    }
  }

  /** Summing the whole series gives the distance of the last `weeks` weeks:
      no activity of that period is counted twice or missed. */
  lemma WeeklyTotal(acts: seq<Activity>, weeks: int, now: int, data: seq<BucketPoint>)
    requires |data| == weeks
    requires forall k :: 0 <= k < |data| ==> data[k] == WeekBucket(acts, weeks, now, k)
    ensures Sum(Values(data)) * 1000.0 == WindowDistance(acts, now - weeks * MsPerWeek, now)
  {
    BucketPrefixTotal(acts, weeks, now, data, |data|);
    assert data[..|data|] == data;
  }

  // ---------------------------------------------------------------------
  // Recent runs
  // ---------------------------------------------------------------------

  /** A run counts for the pace chart when its speed is present and positive. */
  predicate HasSpeed(a: Activity)
  {
    a.averageSpeed > 0.0
  }

  function PositiveSpeedRuns(acts: seq<Activity>): (r: seq<Activity>)
    ensures |r| <= |acts| && forall i :: 0 <= i < |r| ==> HasSpeed(r[i])
  {
    Filter(acts, HasSpeed)
  }

  /** The comparator `b - a` on start dates, read as an ascending key. */
  function Newness(a: Activity): int
  {
    -a.timestamp
  }

  /** The runs with a speed, newest first; ties keep their input order. */
  function NewestFirst(acts: seq<Activity>): (r: seq<Activity>)
    ensures |r| == |PositiveSpeedRuns(acts)|
    ensures multiset(r) == multiset(PositiveSpeedRuns(acts))
    ensures forall i, j :: 0 <= i < j < |r| ==> r[j].timestamp <= r[i].timestamp
    ensures forall i :: 0 <= i < |r| ==> HasSpeed(r[i])
  {
    var r := SortBy(PositiveSpeedRuns(acts), Newness);
    assert forall i, j :: 0 <= i < j < |r| ==> Newness(r[i]) <= Newness(r[j]);
    SameRunsHaveSpeed(r, PositiveSpeedRuns(acts));
    r
  }

  /** A rearrangement of runs that all have a speed has only runs with a speed. */
  lemma SameRunsHaveSpeed(a: seq<Activity>, b: seq<Activity>)
    requires multiset(a) == multiset(b)
    requires forall i :: 0 <= i < |b| ==> HasSpeed(b[i])
    ensures forall i :: 0 <= i < |a| ==> HasSpeed(a[i])
  {
    forall i | 0 <= i < |a|
      ensures HasSpeed(a[i])
    {
      assert a[i] in multiset(b) by {
        assert a[i] in multiset(a);
      }
      var j :| 0 <= j < |b| && b[j] == a[i];
    }
  }

  /** Length of the first-`count` slice of a list of length `len`: a negative
      `count` counts from the end. */
  function SliceEnd(len: nat, count: int): (n: nat)
    ensures n <= len
  {
    if count < 0 then (if len + count < 0 then 0 else len + count)
    else if count > len then len
    else count
  }

  function Reverse<T>(s: seq<T>): (r: seq<T>)
    ensures |r| == |s| && forall i :: 0 <= i < |s| ==> r[i] == s[|s| - 1 - i]
  {
    seq(|s|, i requires 0 <= i < |s| => s[|s| - 1 - i])
  }

  lemma {:induction false} ReverseKeepsMultiset<T>(s: seq<T>)
    ensures multiset(Reverse(s)) == multiset(s)
  {
    if s != [] {
      var r := Reverse(s);
      ReverseKeepsMultiset(s[1..]);
      assert r == Reverse(s[1..]) + [s[0]];
      assert s == [s[0]] + s[1..];
    }
  }

  /** The runs the recent-pace chart shows, oldest first. */
  function RecentRuns(acts: seq<Activity>, count: int): (r: seq<Activity>)
    ensures |r| == SliceEnd(|PositiveSpeedRuns(acts)|, count)
    ensures forall i :: 0 <= i < |r| ==> HasSpeed(r[i])
    ensures forall i, j :: 0 <= i < j < |r| ==> r[i].timestamp <= r[j].timestamp
  {
    var newest := NewestFirst(acts);
    Reverse(newest[..SliceEnd(|newest|, count)])
  }

  /** The runs shown are taken from the runs with a speed, none more often
      than it occurs there. */
  lemma {:induction false} RecentRunsAreRunsWithSpeed(acts: seq<Activity>, count: int)
    ensures multiset(RecentRuns(acts, count)) <= multiset(PositiveSpeedRuns(acts))
  {
    var newest := NewestFirst(acts);
    ReversedPrefixWithin(newest, SliceEnd(|newest|, count));
  }

  lemma ReversedPrefixWithin<T>(s: seq<T>, n: nat)
    requires n <= |s|
    ensures multiset(Reverse(s[..n])) <= multiset(s)
  {
    ReverseKeepsMultiset(s[..n]);
    assert s == s[..n] + s[n..];
    assert multiset(s) == multiset(s[..n]) + multiset(s[n..]);
  }

  /** Every run with a speed that is left out is no newer than any run shown. */
  lemma {:induction false} RecentRunsAreTheNewest(acts: seq<Activity>, count: int)
    ensures forall i, j :: SliceEnd(|NewestFirst(acts)|, count) <= i < |NewestFirst(acts)|
                           && 0 <= j < |RecentRuns(acts, count)| ==>
              NewestFirst(acts)[i].timestamp <= RecentRuns(acts, count)[j].timestamp
  {
    var newest := NewestFirst(acts);
    var n := SliceEnd(|newest|, count);
    var r := RecentRuns(acts, count);
    forall i, j | n <= i < |newest| && 0 <= j < |r|
      ensures newest[i].timestamp <= r[j].timestamp
    {
      assert r[j] == newest[n - 1 - j];
    }
  }

  /** The recent-pace series: the speeds of the recent runs, labelled
      `R1`..`Rn` from oldest to newest. */
  function RecentPaceData(acts: seq<Activity>, count: int): (points: seq<BucketPoint>)
    ensures |points| == SliceEnd(|PositiveSpeedRuns(acts)|, count)
    ensures forall i :: 0 <= i < |points| ==>
              points[i].value > 0.0 && points[i].caption == Label("R", i + 1)
  {
    var runs := RecentRuns(acts, count);
    seq(|runs|, i requires 0 <= i < |runs| => BucketPoint(runs[i].averageSpeed, Label("R", i + 1)))
  }

  /** The series is never longer than `count` when `count` is not negative. */
  lemma RecentPaceDataAtMostCount(acts: seq<Activity>, count: nat)
    ensures |RecentPaceData(acts, count)| <= count
    ensures |RecentPaceData(acts, count)| == count || |RecentPaceData(acts, count)| == |PositiveSpeedRuns(acts)|
  {
  }
}
