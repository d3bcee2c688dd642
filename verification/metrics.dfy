/** The six effort metrics of one match, and the per-match reduction of
    `calculate_effort_rating` (the `load_and_sum` calls and the heart-rate
    mean and exercise-peak max) that turns each metric file of a match
    directory into one number. */
module Metrics {
  import opened Wrappers
  import opened Floats
  import opened Reductions

  datatype Metric =
    | ActiveZoneMinutes      // active_zone_minutes_day.csv, column `total minutes`
    | Calories               // calories.csv, column `calories`
    | Distance               // distance.csv, column `distance`
    | Steps                  // steps.csv, column `steps`
    | AvgHeartRate           // heart_rate.csv, column `beats per minute`
    | PeakExerciseHeartRate  // UserExercises.csv, column `tracker_peak_heart_rate`

  /** One value per metric: the six keys of the source's dictionaries. */
  datatype PerMetric<T> = PerMetric(
    activeZoneMinutes: T,
    calories: T,
    distance: T,
    steps: T,
    avgHeartRate: T,
    peakExerciseHeartRate: T)
  {
    function Get(m: Metric): T {
      match m
      case ActiveZoneMinutes => activeZoneMinutes
      case Calories => calories
      case Distance => distance
      case Steps => steps
      case AvgHeartRate => avgHeartRate
      case PeakExerciseHeartRate => peakExerciseHeartRate
    }
  }

  /** Two per-metric records that agree on every metric are the same record. */
  lemma PerMetricExt<T>(a: PerMetric<T>, b: PerMetric<T>)
    requires forall m :: a.Get(m) == b.Get(m)
    ensures a == b
  {
    assert a.Get(ActiveZoneMinutes) == b.Get(ActiveZoneMinutes);
    assert a.Get(Calories) == b.Get(Calories);
    assert a.Get(Distance) == b.Get(Distance);
    assert a.Get(Steps) == b.Get(Steps);
    assert a.Get(AvgHeartRate) == b.Get(AvgHeartRate);
    assert a.Get(PeakExerciseHeartRate) == b.Get(PeakExerciseHeartRate);
  }

  /** The column of one metric file; None when the file does not exist. */
  type Column = Option<seq<real>>

  /** A match data directory: one optional column per metric. */
  type MatchFiles = PerMetric<Column>

  /** The reduced value of every metric of one match. */
  type Components = PerMetric<Scalar>

  datatype Reduction = SumAll | MeanAll | MaxAll

  /** Activity totals are summed, heart rate is averaged, and the exercise
      peak heart rate takes the largest session peak. */
  function ReductionOf(m: Metric): Reduction {
    match m
    case AvgHeartRate => MeanAll
    case PeakExerciseHeartRate => MaxAll
    case _ => SumAll
  }

  /** Reduces one metric file. An absent file yields 0, never an error; an
      existing file with no rows yields 0 for a sum and NaN for a mean or max. */
  function Reduce(m: Metric, col: Column): (v: Scalar)
    ensures col.None? ==> v == Fin(0.0)
    ensures v.NaN? <==> col == Some([]) && ReductionOf(m) != SumAll
    ensures col.Some? && ReductionOf(m) == SumAll ==> v == Fin(Sum(col.value))
    ensures col.Some? && ReductionOf(m) == MeanAll ==> v == Mean(col.value)
    ensures col.Some? && ReductionOf(m) == MaxAll ==> v == Max(col.value)
  {
    match col
    case None => Fin(0.0)
    case Some(xs) =>
      match ReductionOf(m)
      case SumAll => Fin(Sum(xs))
      case MeanAll => Mean(xs)
      case MaxAll => Max(xs)
  }

  /** The component block of `calculate_effort_rating`: every component is
      its own metric's reduction of its own metric's file; no time-window
      filtering is applied. */
  function Extract(files: MatchFiles): (c: Components)
    ensures forall m :: c.Get(m) == Reduce(m, files.Get(m))
  {
    PerMetric(
      Reduce(ActiveZoneMinutes, files.activeZoneMinutes),
      Reduce(Calories, files.calories),
      Reduce(Distance, files.distance),
      Reduce(Steps, files.steps),
      Reduce(AvgHeartRate, files.avgHeartRate),
      Reduce(PeakExerciseHeartRate, files.peakExerciseHeartRate))
  }

  /** A missing metric file contributes the value 0 to its component. */
  lemma MissingFileIsZero(files: MatchFiles, m: Metric)
    requires files.Get(m).None?
    ensures Extract(files).Get(m) == Fin(0.0)
  {
  }

  /** The activity components are never NaN; the heart-rate components are
      NaN exactly when their file exists but holds no rows. */
  lemma ComponentNaN(files: MatchFiles, m: Metric)
    ensures Extract(files).Get(m).NaN? <==> m in {AvgHeartRate, PeakExerciseHeartRate} && files.Get(m) == Some([])
  {
  }
}
