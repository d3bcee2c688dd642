/** Phase 2 of the season pipeline for one match: min-max normalisation of
    each component against the season bounds, the fixed weighted combination,
    the x10 scale, the unclamped +0.3 boost and rounding to two places. */
module Scoring {
  import opened Wrappers
  import opened Floats
  import opened Rounding
  import opened Metrics
  import opened Bounds

  const Boost: real := 0.3

  /** The fixed weight of each metric in the combined score. */
  function Weight(m: Metric): real {
    match m
    case ActiveZoneMinutes => 0.35
    case Calories => 0.3
    case Distance => 0.25
    case Steps => 0.05
    case AvgHeartRate => 0.025
    case PeakExerciseHeartRate => 0.025
  }

  /** The weighted combination of six normalised values: each metric's value
      times that metric's own weight. The weights are non-negative and sum to
      one, so the result is a weighted average. */
  function WeightedSum(x: PerMetric<real>): (s: real)
    ensures s == Weight(ActiveZoneMinutes) * x.Get(ActiveZoneMinutes) + Weight(Calories) * x.Get(Calories)
               + Weight(Distance) * x.Get(Distance) + Weight(Steps) * x.Get(Steps)
               + Weight(AvgHeartRate) * x.Get(AvgHeartRate)
               + Weight(PeakExerciseHeartRate) * x.Get(PeakExerciseHeartRate)
    ensures forall m :: 0.0 <= Weight(m)
    ensures Weight(ActiveZoneMinutes) + Weight(Calories) + Weight(Distance) + Weight(Steps)
            + Weight(AvgHeartRate) + Weight(PeakExerciseHeartRate) == 1.0
    ensures (forall m :: 0.0 <= x.Get(m) <= 1.0) ==> 0.0 <= s <= 1.0
    ensures (forall m :: x.Get(m) == x.activeZoneMinutes) ==> s == x.activeZoneMinutes
  {
    assert x.Get(ActiveZoneMinutes) == x.activeZoneMinutes && x.Get(Calories) == x.calories;
    assert x.Get(Distance) == x.distance && x.Get(Steps) == x.steps;
    assert x.Get(AvgHeartRate) == x.avgHeartRate && x.Get(PeakExerciseHeartRate) == x.peakExerciseHeartRate;
    x.activeZoneMinutes * Weight(ActiveZoneMinutes)
    + x.calories * Weight(Calories)
    + x.distance * Weight(Distance)
    + x.steps * Weight(Steps)
    + x.avgHeartRate * Weight(AvgHeartRate)
    + x.peakExerciseHeartRate * Weight(PeakExerciseHeartRate)
  }

  /** The weighted sum is non-decreasing in every argument. */
  lemma WeightedSumMonotone(x: PerMetric<real>, y: PerMetric<real>)
    requires forall m :: x.Get(m) <= y.Get(m)
    ensures WeightedSum(x) <= WeightedSum(y)
  {
    assert x.Get(ActiveZoneMinutes) <= y.Get(ActiveZoneMinutes);
    assert x.Get(Calories) <= y.Get(Calories);
    assert x.Get(Distance) <= y.Get(Distance);
    assert x.Get(Steps) <= y.Get(Steps);
    assert x.Get(AvgHeartRate) <= y.Get(AvgHeartRate);
    assert x.Get(PeakExerciseHeartRate) <= y.Get(PeakExerciseHeartRate);
    assert x.activeZoneMinutes * 0.35 <= y.activeZoneMinutes * 0.35;
    assert x.calories * 0.3 <= y.calories * 0.3;
    assert x.distance * 0.25 <= y.distance * 0.25;
    assert x.steps * 0.05 <= y.steps * 0.05;
    assert x.avgHeartRate * 0.025 <= y.avgHeartRate * 0.025;
    assert x.peakExerciseHeartRate * 0.025 <= y.peakExerciseHeartRate * 0.025;
  }

  /** The bounds of a metric have room to normalise in: `max > min`. The
      sentinel never does, because `-inf > +inf` is false. */
  predicate Spread(b: Option<Span>) {
    b.Some? && b.value.hi > b.value.lo
  }

  /** What dividing by a positive width preserves: the zero, the width
      itself and the unit interval. */
  lemma DivideByWidth(a: real, d: real)
    requires d > 0.0
    ensures a / d == 0.0 <==> a == 0.0
    ensures a / d == 1.0 <==> a == d
    ensures 0.0 <= a <= d ==> 0.0 <= a / d <= 1.0
  {
    var q := a / d;
    assert q * d == a;
    if 0.0 <= a <= d {
      assert q * d <= 1.0 * d;
    }
  }

  /** `(v - min) / (max - min)` when `max > min`, and 0 otherwise. NaN stays
      NaN in the first case and is discarded in the second. */
  function Normalize(v: Scalar, b: Option<Span>): (n: Scalar)
    ensures n.NaN? <==> v.NaN? && Spread(b)
    ensures !Spread(b) ==> n == Fin(0.0)
    ensures Spread(b) && v.Fin? && b.value.lo <= v.r <= b.value.hi ==> 0.0 <= n.r <= 1.0
    ensures Spread(b) && v.Fin? ==> (n.r == 0.0 <==> v.r == b.value.lo)
    ensures Spread(b) && v.Fin? ==> (n.r == 1.0 <==> v.r == b.value.hi)
  {
    if Spread(b) then
      if v.NaN? then NaN
      else
        var s := b.value;
        var n := (v.r - s.lo) / (s.hi - s.lo);
        DivideByWidth(v.r - s.lo, s.hi - s.lo);
        Fin(n)
    else Fin(0.0)
  }

  /** Maps a normalised value back onto the span. */
  function Denormalize(n: real, s: Span): real {
    s.lo + n * (s.hi - s.lo)
  }

  /** Normalisation against a span with room is undone by Denormalize. */
  lemma NormalizeRoundTrip(v: real, s: Span)
    requires s.hi > s.lo
    ensures Normalize(Fin(v), Some(s)).Fin?
    ensures Denormalize(Normalize(Fin(v), Some(s)).r, s) == v
  {
    var n := Normalize(Fin(v), Some(s)).r;
    assert n * (s.hi - s.lo) == v - s.lo;
  }

  /** With the bounds fixed, normalisation is non-decreasing in the value. */
  lemma NormalizeMonotone(v: real, w: real, b: Option<Span>)
    requires v <= w
    ensures Normalize(Fin(v), b).r <= Normalize(Fin(w), b).r
  {
    if Spread(b) {
      var s := b.value;
      var d := s.hi - s.lo;
      var nv := (v - s.lo) / d;
      var nw := (w - s.lo) / d;
      assert nv * d == v - s.lo;
      assert nw * d == w - s.lo;
      assert nw - nv == (w - v) / d;
    }
  }

  /** The six normalised components of one match. */
  function Normalized(c: Components, b: SeasonBounds): (n: PerMetric<Scalar>)
    ensures forall m :: n.Get(m) == Normalize(c.Get(m), b.Get(m))
  {
    PerMetric(
      Normalize(c.activeZoneMinutes, b.activeZoneMinutes),
      Normalize(c.calories, b.calories),
      Normalize(c.distance, b.distance),
      Normalize(c.steps, b.steps),
      Normalize(c.avgHeartRate, b.avgHeartRate),
      Normalize(c.peakExerciseHeartRate, b.peakExerciseHeartRate))
  }

  predicate AllFinite(n: PerMetric<Scalar>) {
    forall m :: n.Get(m).Fin?
  }

  function Reals(n: PerMetric<Scalar>): (x: PerMetric<real>)
    requires AllFinite(n)
    ensures forall m :: x.Get(m) == n.Get(m).r
  {
    assert n.Get(ActiveZoneMinutes).Fin? && n.Get(Calories).Fin? && n.Get(Distance).Fin?;
    assert n.Get(Steps).Fin? && n.Get(AvgHeartRate).Fin? && n.Get(PeakExerciseHeartRate).Fin?;
    PerMetric(n.activeZoneMinutes.r, n.calories.r, n.distance.r, n.steps.r,
              n.avgHeartRate.r, n.peakExerciseHeartRate.r)
  }

  /** The rating before rounding: weighted sum x10 plus the boost. Any NaN
      component makes the whole rating NaN. */
  function RawRating(c: Components, b: SeasonBounds): (r: Scalar)
    ensures r.NaN? <==> exists m :: c.Get(m).NaN? && Spread(b.Get(m))
  {
    var n := Normalized(c, b);
    if AllFinite(n) then Fin(WeightedSum(Reals(n)) * 10.0 + Boost)
    else NaN
  }

  /** The effort rating written to the output record: the raw rating rounded
      to two decimal places. */
  function EffortRating(c: Components, b: SeasonBounds): (r: Scalar)
    ensures r.NaN? <==> RawRating(c, b).NaN?
    ensures r.Fin? ==> IsCents(r.r) && -0.005 <= r.r - RawRating(c, b).r <= 0.005
  {
    var raw := RawRating(c, b);
    if raw.NaN? then NaN else Fin(Round2(raw.r))
  }

  /** Each finite component lies within its metric's bounds (vacuous for a
      metric whose bounds are still the sentinel). */
  predicate WithinBounds(c: Components, b: SeasonBounds) {
    forall m :: c.Get(m).Fin? && b.Get(m).Some? ==> b.Get(m).value.lo <= c.Get(m).r <= b.Get(m).value.hi
  }

  /** A rating of components within the bounds lies in [0.3, 10.3], before
      and after rounding; it is not clamped to [0, 10]. */
  lemma RatingRange(c: Components, b: SeasonBounds)
    requires WithinBounds(c, b)
    ensures RawRating(c, b).Fin? ==> 0.3 <= RawRating(c, b).r <= 10.3
    ensures EffortRating(c, b).Fin? ==> 0.3 <= EffortRating(c, b).r <= 10.3
  {
    var raw := RawRating(c, b);
    if raw.Fin? {
      var n := Normalized(c, b);
      var x := Reals(n);
      assert forall m :: 0.0 <= x.Get(m) <= 1.0;
      assert IsCents(0.3) && IsCents(10.3);
      Round2StaysBetween(0.3, raw.r, 10.3);
    }
  }

  /** Components at their metric's minimum, or over a metric without spread,
      give exactly the boost. */
  lemma RatingAtFloor(c: Components, b: SeasonBounds)
    requires forall m :: c.Get(m).Fin? && (Spread(b.Get(m)) ==> c.Get(m).r == b.Get(m).value.lo)
    ensures RawRating(c, b) == Fin(Boost)
    ensures EffortRating(c, b) == Fin(0.3)
  {
    var n := Normalized(c, b);
    assert AllFinite(n);
    var x := Reals(n);
    assert forall m :: x.Get(m) == 0.0;
    assert x.Get(ActiveZoneMinutes) == 0.0;
    assert forall m :: x.Get(m) == x.activeZoneMinutes;
    assert IsCents(0.3);
    Round2Fixes(0.3);
  }

  /** Components at their metric's maximum, on bounds that all have spread,
      give 10.3: the boost pushes the rating above 10 and nothing clamps it. */
  lemma RatingAtCeiling(c: Components, b: SeasonBounds)
    requires forall m :: Spread(b.Get(m)) && c.Get(m) == Fin(b.Get(m).value.hi)
    ensures EffortRating(c, b) == Fin(10.3)
  {
    var n := Normalized(c, b);
    assert AllFinite(n);
    var x := Reals(n);
    assert forall m :: x.Get(m) == 1.0;
    assert x.Get(ActiveZoneMinutes) == 1.0;
    assert forall m :: x.Get(m) == x.activeZoneMinutes;
    assert IsCents(10.3);
    Round2Fixes(10.3);
  }

  /** With the bounds fixed, raising any components never lowers the rating. */
  lemma RatingMonotone(c: Components, d: Components, b: SeasonBounds)
    requires forall m :: c.Get(m).Fin? && d.Get(m).Fin? && c.Get(m).r <= d.Get(m).r
    ensures RawRating(c, b).Fin? && RawRating(d, b).Fin?
    ensures RawRating(c, b).r <= RawRating(d, b).r
    ensures EffortRating(c, b).r <= EffortRating(d, b).r
  {
    var x := Reals(Normalized(c, b));
    var y := Reals(Normalized(d, b));
    forall m ensures x.Get(m) <= y.Get(m) {
      NormalizeMonotone(c.Get(m).r, d.Get(m).r, b.Get(m));
    }
    WeightedSumMonotone(x, y);
    Round2Monotone(RawRating(c, b).r, RawRating(d, b).r);
  }
}
