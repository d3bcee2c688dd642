/** Phase 1 of the season pipeline: the fold over the season's match dates
    that builds the global {min, max} of every metric. A metric's bounds start
    at the sentinel (max = -inf, min = +inf), represented here by None. */
module Bounds {
  import opened Wrappers
  import opened Floats
  import opened Metrics

  datatype Span = Span(lo: real, hi: real)

  /** The global bounds of every metric; None is the untouched sentinel. */
  type SeasonBounds = PerMetric<Option<Span>>

  const Unbounded: SeasonBounds := PerMetric(None, None, None, None, None, None)

  /** The data folder: the directory of a match date, when one exists. */
  type Folder = map<string, MatchFiles>

  /** Takes one value into a metric's bounds, as `max(cur_max, v)` and
      `min(cur_min, v)` do from the sentinel: a NaN value never wins either
      comparison and leaves the bounds as they were. */
  function Widen(b: Option<Span>, v: Scalar): (w: Option<Span>)
    ensures v.NaN? ==> w == b
    ensures v.Fin? ==> w.Some? && w.value.lo <= v.r <= w.value.hi
    ensures v.Fin? ==> w.value.lo == v.r || (b.Some? && w.value.lo == b.value.lo)
    ensures v.Fin? ==> w.value.hi == v.r || (b.Some? && w.value.hi == b.value.hi)
    ensures b.Some? ==> w.Some? && w.value.lo <= b.value.lo && b.value.hi <= w.value.hi
  {
    if v.NaN? then b
    else
      match b
      case None => Some(Span(v.r, v.r))
      case Some(s) =>
        Some(Span(if v.r < s.lo then v.r else s.lo, if v.r > s.hi then v.r else s.hi))
  }

  /** Takes one match's components into the bounds of all six metrics. */
  function Absorb(b: SeasonBounds, c: Components): (r: SeasonBounds)
    ensures forall m :: r.Get(m) == Widen(b.Get(m), c.Get(m))
  {
    PerMetric(
      Widen(b.activeZoneMinutes, c.activeZoneMinutes),
      Widen(b.calories, c.calories),
      Widen(b.distance, c.distance),
      Widen(b.steps, c.steps),
      Widen(b.avgHeartRate, c.avgHeartRate),
      Widen(b.peakExerciseHeartRate, c.peakExerciseHeartRate))
  }

  /** Every non-NaN value of metric `m` over the listed matches that have a
      data directory. */
  ghost function Observed(folder: Folder, dates: seq<string>, m: Metric): set<real> {
    set d | d in dates && d in folder && Extract(folder[d]).Get(m).Fin? :: Extract(folder[d]).Get(m).r
  }

  /** `b` is exactly the [min, max] of `obs`: None when nothing was observed,
      otherwise both ends are observed values and every observed value lies
      between them. */
  ghost predicate Tight(b: Option<Span>, obs: set<real>) {
    && (b.None? <==> obs == {})
    && (b.Some? ==> b.value.lo in obs && b.value.hi in obs)
    && (b.Some? ==> forall v :: v in obs ==> b.value.lo <= v <= b.value.hi)
  }

  /** The loop of `calculate_global_max_min`, one match date at a time in list
      order; a date without a data directory is skipped. */
  function FoldBounds(folder: Folder, dates: seq<string>): (b: SeasonBounds)
    ensures forall m :: Tight(b.Get(m), Observed(folder, dates, m))
  {
    if |dates| == 0 then Unbounded
    else
      var prev := FoldBounds(folder, dates[..|dates| - 1]);
      var d := dates[|dates| - 1];
      var b := if d in folder then Absorb(prev, Extract(folder[d])) else prev;
      forall m ensures Tight(b.Get(m), Observed(folder, dates, m)) {
        ObservedSnoc(folder, dates, m);
      }
      b
  }

  /** Observed values of a list are those of its prefix plus the last date's. */
  lemma ObservedSnoc(folder: Folder, dates: seq<string>, m: Metric)
    requires |dates| > 0
    ensures var d := dates[|dates| - 1];
      Observed(folder, dates, m) ==
        Observed(folder, dates[..|dates| - 1], m) +
        (if d in folder && Extract(folder[d]).Get(m).Fin? then {Extract(folder[d]).Get(m).r} else {})
  {
    var d := dates[|dates| - 1];
    var p := dates[..|dates| - 1];
    assert dates == p + [d];
    assert forall e :: e in dates <==> e in p || e == d;
  }

  /** Only one value satisfies Tight for a given set of observations. */
  lemma TightUnique(a: Option<Span>, b: Option<Span>, obs: set<real>)
    requires Tight(a, obs) && Tight(b, obs)
    ensures a == b
  {
    if a.Some? {
      assert a.value.lo <= b.value.lo && b.value.lo <= a.value.lo;
      assert a.value.hi <= b.value.hi && b.value.hi <= a.value.hi;
    }
  }

  /** The season bounds depend only on WHICH matches have a data directory:
      not on the order of the dates, not on repeated dates, and not on dates
      without a directory. */
  lemma FoldBoundsDependsOnlyOnPresentMatches(folder: Folder, xs: seq<string>, ys: seq<string>)
    requires forall d :: d in folder ==> (d in xs <==> d in ys)
    ensures FoldBounds(folder, xs) == FoldBounds(folder, ys)
  {
    var a := FoldBounds(folder, xs);
    var b := FoldBounds(folder, ys);
    forall m ensures a.Get(m) == b.Get(m) {
      assert Observed(folder, xs, m) == Observed(folder, ys, m);
      TightUnique(a.Get(m), b.Get(m), Observed(folder, xs, m));
    }
    PerMetricExt(a, b);
  }

  /** With no match that has a data directory, every bound keeps its sentinel. */
  lemma NoMatchesKeepSentinel(folder: Folder, dates: seq<string>)
    requires forall d :: d in dates ==> d !in folder
    ensures FoldBounds(folder, dates) == Unbounded
  {
    FoldBoundsDependsOnlyOnPresentMatches(folder, dates, []);
  }

  /** Every processed match's value lies within its metric's season bounds. */
  lemma FoldBoundsCover(folder: Folder, dates: seq<string>, d: string, m: Metric)
    requires d in dates && d in folder
    requires Extract(folder[d]).Get(m).Fin?
    ensures var b := FoldBounds(folder, dates).Get(m);
      b.Some? && b.value.lo <= Extract(folder[d]).Get(m).r <= b.value.hi
  {
    assert Extract(folder[d]).Get(m).r in Observed(folder, dates, m);
  }

  /** Adding more matches to a season can only widen each metric's bounds. */
  lemma FoldBoundsWiden(folder: Folder, xs: seq<string>, ys: seq<string>, m: Metric)
    requires FoldBounds(folder, xs).Get(m).Some?
    ensures var a := FoldBounds(folder, xs).Get(m);
      var b := FoldBounds(folder, xs + ys).Get(m);
      b.Some? && b.value.lo <= a.value.lo && a.value.hi <= b.value.hi
  {
    var a := FoldBounds(folder, xs).Get(m);
    assert forall d :: d in xs ==> d in xs + ys;
    assert Observed(folder, xs, m) <= Observed(folder, xs + ys, m);
    assert a.value.lo in Observed(folder, xs + ys, m);
  }

  /** `calculate_global_max_min`: the imperative loop, with the running
      bounds as its accumulator. */
  method GlobalMaxMin(dates: seq<string>, folder: Folder) returns (bounds: SeasonBounds)
    ensures bounds == FoldBounds(folder, dates)
    ensures forall m :: Tight(bounds.Get(m), Observed(folder, dates, m))
  {
    bounds := Unbounded;
    var i := 0;
    while i < |dates|
      invariant 0 <= i <= |dates|
      invariant bounds == FoldBounds(folder, dates[..i])
    {
      var d := dates[i];
      assert dates[..i + 1][..i] == dates[..i];
      if d in folder {
        bounds := Absorb(bounds, Extract(folder[d]));
      }
      i := i + 1;
    }
    assert dates[..i] == dates;
  }
}
