/**
 * One row of the run table: the colour of the pace cell, the pace it is
 * computed from, and the select/deselect rule of a click on the row.
 */
module RunRow {
  import opened Common
  import ProgressData

  // ---------------------------------------------------------------------
  // Pace heat colour
  // ---------------------------------------------------------------------

  /** Upper bounds (exclusive, min/km) of the coloured pace bands, fastest first. */
  const Thresholds: seq<real> := [5.0, 5.5, 6.0, 6.5, 7.0, 7.5]

  /** The colour of each band; the last one is for every pace at or above 7.5. */
  const Colors: seq<string> :=
    ["var(--trend-positive)", "#4caf50", "#8bc34a", "#cddc39", "#ffeb3b", "#ff9800", "#ff5722"]

  /** Colour for no pace at all. */
  const NoColor: string := "inherit"

  /** The heat colour of a pace in min/km, as the row's if-chain picks it. */
  function PaceHeatColor(pace: real): (color: string)
    ensures color == NoColor <==> pace <= 0.0
    ensures 0.0 < pace ==> color in Colors
  {
    if pace <= 0.0 then NoColor
    else if pace < 5.0 then "var(--trend-positive)"
    else if pace < 5.5 then "#4caf50"
    else if pace < 6.0 then "#8bc34a"
    else if pace < 6.5 then "#cddc39"
    else if pace < 7.0 then "#ffeb3b"
    else if pace < 7.5 then "#ff9800"
    else "#ff5722"
  }

  predicate Ascending(ts: seq<real>)
  {
    forall i, j :: 0 <= i < j < |ts| ==> ts[i] <= ts[j]
  }

  /** The first band whose strict upper bound exceeds `pace`, or `|ts|` when
      none does: a first-match search over ascending thresholds. */
  function Band(pace: real, ts: seq<real>): (b: nat)
    ensures b <= |ts|
    ensures forall i :: 0 <= i < b ==> ts[i] <= pace
    ensures b < |ts| ==> pace < ts[b]
  {
    if ts == [] then 0
    else if pace < ts[0] then 0
    else 1 + Band(pace, ts[1..])
  }

  /** The if-chain is the first-match step function over `Thresholds`. */
  lemma PaceHeatColorIsFirstMatch(pace: real)
    ensures pace <= 0.0 ==> PaceHeatColor(pace) == NoColor
    ensures 0.0 < pace ==> PaceHeatColor(pace) == Colors[Band(pace, Thresholds)]
  {
    if 0.0 < pace {
      var b := Band(pace, Thresholds);
      assert Thresholds[0] == 5.0 && Thresholds[1] == 5.5 && Thresholds[2] == 6.0;
      assert Thresholds[3] == 6.5 && Thresholds[4] == 7.0 && Thresholds[5] == 7.5;
      if b == 0 {
      } else if b == 1 {
      } else if b == 2 {
      } else if b == 3 {
      } else if b == 4 {
      } else if b == 5 {
      } else {
        assert b == 6;
      }
    }
  }

  /** A slower pace never lands in a faster band. */
  lemma {:induction false} BandMonotone(p: real, q: real, ts: seq<real>)
    requires Ascending(ts)
    requires p <= q
    ensures Band(p, ts) <= Band(q, ts)
  {
    if ts != [] && ts[0] <= p {
      assert Ascending(ts[1..]);
      BandMonotone(p, q, ts[1..]);
    }
  }

  lemma ThresholdsAscending()
    ensures Ascending(Thresholds)
  {
  }

  /** Over the row's own thresholds, a slower pace never gets the colour of
      a faster band. */
  lemma PaceHeatColorMonotone(p: real, q: real)
    requires 0.0 < p <= q
    ensures PaceHeatColor(p) == Colors[Band(p, Thresholds)]
    ensures PaceHeatColor(q) == Colors[Band(q, Thresholds)]
    ensures Band(p, Thresholds) <= Band(q, Thresholds)
  {
    PaceHeatColorIsFirstMatch(p);
    PaceHeatColorIsFirstMatch(q);
    ThresholdsAscending();
    BandMonotone(p, q, Thresholds);
  }

  /** Boundaries belong to the slower band: 5.0 is not "very fast" and 7.0
      is "slow". */
  lemma BoundaryColors()
    ensures PaceHeatColor(5.0) == "#4caf50"
    ensures PaceHeatColor(7.0) == "#ff9800"
  {
  }

  lemma SlowestBand(pace: real)
    requires pace >= 7.5
    ensures PaceHeatColor(pace) == "#ff5722"
  {
  }

  // ---------------------------------------------------------------------
  // Pace from speed
  // ---------------------------------------------------------------------

  /** Minutes per kilometre at `speed` metres per second; 0 when the speed is
      missing or not positive. */
  function PaceMinPerKm(speed: real): (pace: real)
    ensures speed <= 0.0 ==> pace == 0.0
    ensures speed > 0.0 ==> pace > 0.0 && pace * speed * 60.0 == 1000.0
  {
    if speed <= 0.0 then 0.0 else 1000.0 / 60.0 / speed
  }

  /** The pace cell has no colour exactly when the run has no speed. */
  lemma NoColorIffNoSpeed(speed: real)
    ensures PaceHeatColor(PaceMinPerKm(speed)) == NoColor <==> speed <= 0.0
  {
  }

  /** The row's pace agrees with the progress chart's pace of a run that
      covers `speed * time` metres in `time` seconds. */
  lemma PaceAgreesWithProgressPace(speed: real, time: real)
    requires speed > 0.0 && time > 0.0
    ensures PaceMinPerKm(speed) == ProgressData.CalculatePace(speed * time, time)
  {
    var distance := speed * time;
    assert 0.0 < distance;
    var pace := ProgressData.CalculatePace(distance, time);
    assert pace * (distance / 1000.0) == time / 60.0;
    assert pace * distance * 60.0 == 1000.0 * time;
    assert pace * distance * 60.0 == (pace * speed * 60.0) * time by {
      assert pace * distance * 60.0 == pace * (speed * time) * 60.0;
      assert pace * (speed * time) * 60.0 == (pace * speed * 60.0) * time;
    }
    assert pace * speed * 60.0 == 1000.0;
  }

  // ---------------------------------------------------------------------
  // Row selection
  // ---------------------------------------------------------------------

  /** The selected row (-1 for none) and the run ids the map is asked to
      locate. */
  datatype Selection = Selection(runIndex: int, located: seq<int>)

  /** A click on row `elementIndex`, showing run `runId`: clicking the
      selected row deselects it, clicking any other row selects it. */
  function Click(s: Selection, elementIndex: int, runId: int): (r: Selection)
    ensures r == Selection(-1, []) || r == Selection(elementIndex, [runId])
    ensures elementIndex >= 0 ==> (r.runIndex == elementIndex <==> s.runIndex != elementIndex)
  {
    if s.runIndex == elementIndex then Selection(-1, [])
    else Selection(elementIndex, [runId])
  }

  /** Two clicks on the same unselected row leave nothing selected; two
      clicks on the selected row leave it selected. */
  lemma ClickTwice(s: Selection, elementIndex: nat, runId: int)
    ensures s.runIndex != elementIndex ==>
              Click(Click(s, elementIndex, runId), elementIndex, runId) == Selection(-1, [])
    ensures s.runIndex == elementIndex ==>
              Click(Click(s, elementIndex, runId), elementIndex, runId) == Selection(elementIndex, [runId])
  {
  }

  /** The row state the table shares with its rows. */
  class RowSelection {
    var runIndex: int
    var located: seq<int>

    constructor(runIndex: int, located: seq<int>)
      ensures this.runIndex == runIndex && this.located == located
    {
      this.runIndex := runIndex;
      this.located := located;
    }

    function State(): Selection
      reads this
    {
      Selection(runIndex, located)
    }

    /** The click handler: updates the selected index, then the located runs. */
    method HandleClick(elementIndex: int, runId: int)
      modifies this
      ensures State() == Click(old(State()), elementIndex, runId)
    {
      if runIndex == elementIndex {
        runIndex := -1;
        located := [];
        return;
      }
      runIndex := elementIndex;
      located := [runId];
    }
  }
}
