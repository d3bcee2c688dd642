/** The season driver: phase 1 computes the season bounds once over every
    match date, phase 2 rates each match date against those fixed bounds and
    emits one record per match that has a data directory. */
module EffortSeason {
  import opened Wrappers
  import opened Floats
  import opened Rounding
  import opened Reductions
  import opened Metrics
  import opened Bounds
  import opened Scoring

  /** The single row written for a match: the six raw components (for
      traceability) and the rounded effort rating. */
  datatype EffortRecord = EffortRecord(components: Components, effortRating: Scalar)

  /** One written output file, keyed by its match date. */
  datatype Output = Output(date: string, record: EffortRecord)

  /** `calculate_effort_rating` for one date: no directory means no record. */
  function RateMatch(folder: Folder, date: string, bounds: SeasonBounds): (r: Option<EffortRecord>)
    ensures r.None? <==> date !in folder
    ensures r.Some? ==> r.value.components == Extract(folder[date])
    ensures r.Some? ==> r.value.effortRating == EffortRating(r.value.components, bounds)
  {
    if date !in folder then None
    else
      var c := Extract(folder[date]);
      Some(EffortRecord(c, EffortRating(c, bounds)))
  }

  /** The listed dates that have a data directory, in list order. */
  function Present(folder: Folder, dates: seq<string>): (r: seq<string>)
    ensures |r| <= |dates|
    ensures forall i :: 0 <= i < |r| ==> r[i] in dates && r[i] in folder
    ensures forall d :: d in dates && d in folder ==> d in r
  {
    if |dates| == 0 then []
    else
      var p := dates[..|dates| - 1];
      var d := dates[|dates| - 1];
      assert dates == p + [d];
      if d in folder then Present(folder, p) + [d] else Present(folder, p)
  }

  /** Phase 2 over the whole date list, in order: one output per listed date
      that has a data directory, and none for the others. */
  function RateAll(folder: Folder, dates: seq<string>, bounds: SeasonBounds): (out: seq<Output>)
    ensures |out| == |Present(folder, dates)|
    ensures forall i :: 0 <= i < |out| ==> out[i].date == Present(folder, dates)[i]
    ensures forall i :: 0 <= i < |out| ==> RateMatch(folder, out[i].date, bounds) == Some(out[i].record)
  {
    if |dates| == 0 then []
    else
      var p := dates[..|dates| - 1];
      var d := dates[|dates| - 1];
      var prev := RateAll(folder, p, bounds);
      assert dates == p + [d];
      if d !in folder then prev
      else
        var out := prev + [Output(d, RateMatch(folder, d, bounds).value)];
        assert out[|prev|].date == d;
        out
  }

  /** The two-phase season run: bounds first, then every match rated against
      them. Each listed date with a directory gets one output, in list order,
      holding that match's raw components and their rating against the
      bounds of the whole season. */
  function RunSeason(folder: Folder, dates: seq<string>): (out: seq<Output>)
    ensures |out| == |Present(folder, dates)|
    ensures forall i :: 0 <= i < |out| ==> out[i].date == Present(folder, dates)[i] && out[i].date in folder
    ensures forall i :: 0 <= i < |out| ==>
      out[i].record.components == Extract(folder[out[i].date]) &&
      out[i].record.effortRating == EffortRating(out[i].record.components, FoldBounds(folder, dates))
  {
    RateAll(folder, dates, FoldBounds(folder, dates))
  }

  /** The `__main__` driver: the bounds loop, then the rating loop. */
  method EffortPipeline(dates: seq<string>, folder: Folder) returns (out: seq<Output>)
    ensures out == RunSeason(folder, dates)
    ensures forall i :: 0 <= i < |out| ==> out[i].date in folder
  {
    var bounds := GlobalMaxMin(dates, folder);
    out := [];
    var i := 0;
    while i < |dates|
      invariant 0 <= i <= |dates|
      invariant out == RateAll(folder, dates[..i], bounds)
    {
      assert dates[..i + 1][..i] == dates[..i];
      var r := RateMatch(folder, dates[i], bounds);
      if r.Some? {
        out := out + [Output(dates[i], r.value)];
      }
      i := i + 1;
    }
    assert dates[..i] == dates;
  }

  /** Every match of a season is within the season's own bounds, so every
      finite rating of a season run lies in [0.3, 10.3]. */
  lemma SeasonRatingsInRange(folder: Folder, dates: seq<string>)
    ensures forall o :: o in RunSeason(folder, dates) && o.record.effortRating.Fin? ==>
      0.3 <= o.record.effortRating.r <= 10.3
  {
    var bounds := FoldBounds(folder, dates);
    var out := RunSeason(folder, dates);
    forall i | 0 <= i < |out|
      ensures out[i].record.effortRating.Fin? ==> 0.3 <= out[i].record.effortRating.r <= 10.3
    {
      var d := out[i].date;
      var c := Extract(folder[d]);
      forall m | c.Get(m).Fin? ensures bounds.Get(m).Some? && bounds.Get(m).value.lo <= c.Get(m).r <= bounds.Get(m).value.hi {
        FoldBoundsCover(folder, dates, d, m);
      }
      RatingRange(c, bounds);
    }
  }

  /** A match's record does not depend on the order in which the season's
      dates are listed. */
  lemma RecordIndependentOfOrder(folder: Folder, xs: seq<string>, ys: seq<string>, d: string)
    requires forall e :: e in xs <==> e in ys
    ensures RateMatch(folder, d, FoldBounds(folder, xs)) == RateMatch(folder, d, FoldBounds(folder, ys))
  {
    FoldBoundsDependsOnlyOnPresentMatches(folder, xs, ys);
  }

  /** A match directory holding only an active-zone-minutes file of one row. */
  function AzmOnly(x: real): MatchFiles {
    PerMetric(Some([x]), None, None, None, None, None)
  }

  const ExampleFolder: Folder := map["2024-10-09" := AzmOnly(30.0), "2024-10-16" := AzmOnly(90.0)]
  const ExampleDates: seq<string> := ["2024-10-09", "2024-10-16"]

  /** The season bounds of the example: active-zone minutes span [30, 90];
      every other metric is 0 in both matches and has no spread. */
  lemma ExampleBounds()
    ensures FoldBounds(ExampleFolder, ExampleDates)
      == PerMetric(Some(Span(30.0, 90.0)), Some(Span(0.0, 0.0)), Some(Span(0.0, 0.0)),
                   Some(Span(0.0, 0.0)), Some(Span(0.0, 0.0)), Some(Span(0.0, 0.0)))
  {
    var ca := Extract(AzmOnly(30.0));
    var cb := Extract(AzmOnly(90.0));
    assert Sum([30.0]) == 30.0 && Sum([90.0]) == 90.0;
    assert ExampleDates[..1] == ["2024-10-09"];
    assert ["2024-10-09"][..0] == [];
    assert FoldBounds(ExampleFolder, ["2024-10-09"]) == Absorb(Unbounded, ca);
    assert FoldBounds(ExampleFolder, ExampleDates) == Absorb(Absorb(Unbounded, ca), cb);
  }

  /** The first example match is at the minimum of every metric: 0.30. */
  lemma ExampleFloorRating(bounds: SeasonBounds)
    requires bounds == FoldBounds(ExampleFolder, ExampleDates)
    ensures EffortRating(Extract(AzmOnly(30.0)), bounds) == Fin(0.3)
  {
    ExampleBounds();
    var ca := Extract(AzmOnly(30.0));
    assert Sum([30.0]) == 30.0;
    RatingAtFloor(ca, bounds);
  }

  /** The second example match is at the top of active-zone minutes and at
      the (spreadless) bounds of the rest: 0.35 * 10 + 0.3 = 3.80. */
  lemma ExampleTopRating(bounds: SeasonBounds)
    requires bounds == FoldBounds(ExampleFolder, ExampleDates)
    ensures EffortRating(Extract(AzmOnly(90.0)), bounds) == Fin(3.8)
  {
    ExampleBounds();
    var cb := Extract(AzmOnly(90.0));
    assert Sum([90.0]) == 90.0;
    var n := Normalized(cb, bounds);
    assert n.activeZoneMinutes == Fin(1.0);
    assert AllFinite(n);
    var x := Reals(n);
    assert x == PerMetric(1.0, 0.0, 0.0, 0.0, 0.0, 0.0);
    assert WeightedSum(x) == 0.35;
    assert RawRating(cb, bounds) == Fin(3.8);
    assert IsCents(3.8);
    Round2Fixes(3.8);
  }

  /** The example season writes one output per match, in date order. */
  lemma ExampleOutputs(bounds: SeasonBounds)
    requires bounds == FoldBounds(ExampleFolder, ExampleDates)
    ensures RunSeason(ExampleFolder, ExampleDates)
      == [Output("2024-10-09", RateMatch(ExampleFolder, "2024-10-09", bounds).value),
          Output("2024-10-16", RateMatch(ExampleFolder, "2024-10-16", bounds).value)]
  {
    assert ExampleDates[..1] == ["2024-10-09"];
    assert ["2024-10-09"][..0] == [];
    assert RateAll(ExampleFolder, ["2024-10-09"], bounds)
      == [Output("2024-10-09", RateMatch(ExampleFolder, "2024-10-09", bounds).value)];
  }

  /** Two matches whose only data is active-zone minutes 30 and 90: the first
      is rated 0.30 and the second 3.80. */
  lemma WorkedExample()
    ensures var out := RunSeason(ExampleFolder, ExampleDates);
      |out| == 2 && out[0].record.effortRating == Fin(0.3) && out[1].record.effortRating == Fin(3.8)
  {
    var bounds := FoldBounds(ExampleFolder, ExampleDates);
    ExampleOutputs(bounds);
    ExampleFloorRating(bounds);
    ExampleTopRating(bounds);
    assert ExampleFolder["2024-10-09"] == AzmOnly(30.0);
    assert ExampleFolder["2024-10-16"] == AzmOnly(90.0);
  }
}
