# Hockey effort rating and substitution insight, in Dafny

This project models two computations from a hockey player's wearable-data
analysis scripts and proves properties about them.

**Season effort rating** (`scripts/directory/effort_rating.py`). Each match
date has a data directory with up to six metric files. Each metric file is
reduced to one number:
- active-zone minutes, calories, distance and steps are summed;
- heart rate is averaged;
- the exercise peak heart rate takes the maximum;
- an absent file gives 0.

A first pass over the season's dates folds these numbers into a global
`{min, max}` per metric. The fold starts from the `-inf`/`+inf` sentinel and
skips dates that have no directory. A second pass rates each match:
1. Every component is min-max normalised against those bounds. The result is 0 when `max <= min`.
2. The normalised components are combined with the fixed weights 0.35, 0.30, 0.25, 0.05, 0.025 and 0.025.
3. The result is scaled by 10 and shifted by an unclamped +0.3.
4. It is rounded to two places.

**Substitution recommendations** (`generate_substitution_recommendations` in
`scripts/directory/substitution_insight.py`). Both detectors look only at
samples inside the match window.
- A heart-rate sample is high-effort when its bpm is above `0.8 * (220 - age)`.
  A row is a fatigue point when the 240-row rolling count of high-effort rows reaches 240.
- A distance row's rate of change is compared with `min(-0.3, dynamic)`.
  A row is a sustained drop when at least 2 of the trailing 5 rows are below that threshold.
- One shared `last_substitution_time` debounces both detectors. It starts at the
  window start, and a candidate is recommended only if it is at least five minutes later.

## Layout

| file | module | contents |
|---|---|---|
| wrappers.dfy | Wrappers | `Option` |
| floats.dfy | Floats | the IEEE facts both scripts rely on: `Float` (finite, ±inf, NaN), NaN-aware `<`, Python's `min`, division by a zero time step; `Scalar` = finite or NaN |
| rounding.dfy | Rounding | `round(x, 2)` as numpy does it: scale, round half to even, scale back |
| reductions.dfy | Reductions | pandas `sum`, `mean`, `max` over a column |
| metrics.dfy | Metrics | the six metrics, per-metric records, the per-match reduction |
| bounds.dfy | Bounds | the season bounds fold (`calculate_global_max_min`) |
| scoring.dfy | Scoring | normalisation, weights, rating |
| effort_season.dfy | EffortSeason | the two-phase season driver and the worked example |
| windows.dfy | Windows | order-preserving filters, row-count rolling sums |
| substitution.dfy | Substitution | detectors, debounce, the per-match and per-season loops |

## Modelling decisions

- Values are exact reals. NaN is modelled where pandas produces it:
  - the mean or max of an existing file with no rows;
  - the 0/0 rate of the first distance row.
- A Python `max(cur, NaN)` or `min(cur, NaN)` keeps `cur`, because `NaN > cur` is false.
  So the bounds fold skips NaN components.
- A metric whose bounds are still at the sentinel is `None`. Normalising against it gives 0, because `-inf > +inf` is false.
- The data folder is a map from match date to directory, so a missing directory is a missing key. A missing metric file is `None`.
- Timestamps are whole seconds. The analysis window (`start`, `end`) is an input.
- The 0.4-quantile of the rate column is an abstract function parameter `quantile`. Every property about drops holds for every quantile function.
- Output files become returned values: one `Output` per effort record, and one `MatchReport` per match with its recommendation list.

Three behaviours of the code are easy to miss, and the model follows the code:
- A malformed metric file does not abort only its own match. The scripts have no exception handler, so the exception ends the whole run.
- An absent file gives 0, but an existing file with no rows gives NaN for the mean or the max. A NaN heart-rate component then makes that match's rating NaN whenever its metric's bounds have spread.
- The bounds stay at `±inf` not only when no match is loaded. They also stay there for any metric whose every value was NaN.

## Model

| member | source | states |
|---|---|---|
| Reductions.Mean | scripts/directory/effort_rating.py:42-48 | the average heart rate is NaN exactly when the file has no rows, and otherwise is the value that times the row count gives the column sum, so it lies between the smallest and the largest sample |
| Reductions.MeanOfConstant | scripts/directory/effort_rating.py:46 | a heart-rate column whose samples all agree averages to that value |
| Reductions.Sum | scripts/directory/effort_rating.py:33 | a column with no rows sums to 0 and a column of one row sums to that row |
| Reductions.Max | scripts/directory/effort_rating.py:50-56 | the exercise peak is NaN exactly when the file has no rows, and otherwise is one of the recorded peaks and at least as large as every recorded peak |
| Reductions.SumAppend | scripts/directory/effort_rating.py:30-33 | a file's sum splits over any division of its rows, so every row counts once and no time window is applied |
| Metrics.Reduce | scripts/directory/effort_rating.py:30-56 | each metric is reduced by its own rule: sum for the four activity metrics, mean for heart rate, max for exercise peak. An absent file gives 0, and only a mean or max over an empty file gives NaN |
| Metrics.Extract | scripts/directory/effort_rating.py:26-56 | every component of a match is its own metric's reduction of its own metric's file |
| Metrics.MissingFileIsZero | scripts/directory/effort_rating.py:30-35 | an absent metric file contributes the value 0, not an error or an absent key |
| Metrics.ComponentNaN | scripts/directory/effort_rating.py:37-56 | activity components are never NaN. Heart-rate components are NaN exactly when their file exists with no rows |
| Bounds.Widen | scripts/directory/effort_rating.py:134-138 | taking a value in widens a metric's bounds to contain it, each end is the old end or the new value, a NaN leaves the bounds unchanged, and existing bounds only grow |
| Bounds.Absorb | scripts/directory/effort_rating.py:134-138 | one match updates each of the six metrics' bounds with that metric's own value |
| Bounds.FoldBounds | scripts/directory/effort_rating.py:95-101 | after the fold, each metric's bounds are None exactly when no processed match gave a number; otherwise both ends are observed values and every observed value lies between them |
| Bounds.FoldBoundsDependsOnlyOnPresentMatches | scripts/directory/effort_rating.py:98-101 | the season bounds depend only on which dates with a data directory are listed: order, repeats and dates without a directory change nothing |
| Bounds.NoMatchesKeepSentinel | scripts/directory/effort_rating.py:96 | with no match directory present every metric keeps the initial -inf/+inf sentinel |
| Bounds.FoldBoundsCover | scripts/directory/effort_rating.py:134-138 | every processed match's finite value lies within its metric's season bounds |
| Bounds.FoldBoundsWiden | scripts/directory/effort_rating.py:98-138 | listing more match dates can only widen every metric's bounds |
| Bounds.GlobalMaxMin | scripts/directory/effort_rating.py:84-140 | the imperative loop computes the fold's bounds, with the same tightness |
| Scoring.WeightedSum | scripts/directory/effort_rating.py:66-73 | the combination is each metric's normalised value times that metric's own weight, summed; the weights are non-negative and sum to 1, so values in [0,1] combine into [0,1] and equal values combine to themselves |
| Scoring.WeightedSumMonotone | scripts/directory/effort_rating.py:66-73 | raising any normalised component never lowers the combination |
| Scoring.Normalize | scripts/directory/effort_rating.py:59-63 | normalisation is 0 when max <= min or the bounds are the sentinel. Otherwise a value within the bounds lands in [0,1], with 0 exactly at the minimum and 1 exactly at the maximum. NaN stays NaN only when there is spread |
| Scoring.NormalizeRoundTrip | scripts/directory/effort_rating.py:59-63 | with max > min, normalisation is inverted by lo + n*(hi-lo) |
| Scoring.NormalizeMonotone | scripts/directory/effort_rating.py:59-63 | with bounds fixed, normalisation is non-decreasing in the value |
| Scoring.Normalized | scripts/directory/effort_rating.py:59-63 | each component is normalised against its own metric's bounds |
| Scoring.RawRating | scripts/directory/effort_rating.py:65-76 | the unrounded rating is NaN exactly when some NaN component meets bounds with spread |
| Scoring.EffortRating | scripts/directory/effort_rating.py:75-77 | the stored rating is a whole number of hundredths within 0.005 of the unrounded rating, and is NaN exactly when that is |
| Scoring.RatingRange | scripts/directory/effort_rating.py:66-77 | components within the bounds give a rating in [0.3, 10.3] before and after rounding, so there is no clamping to [0, 10] |
| Scoring.RatingAtFloor | scripts/directory/effort_rating.py:59-77 | components at their minimum (or over metrics without spread) rate exactly 0.3 |
| Scoring.RatingAtCeiling | scripts/directory/effort_rating.py:75-77 | components at their maximum on bounds that all have spread rate 10.3, above 10 |
| Scoring.RatingMonotone | scripts/directory/effort_rating.py:59-77 | with bounds fixed, raising any component never lowers the rating, before or after rounding |
| Rounding.RoundHalfEven | scripts/directory/effort_rating.py:77 | the result is an integer within one half of the input, and the even one on a tie |
| Rounding.RoundHalfEvenUnique | scripts/directory/effort_rating.py:77 | those two properties determine the rounded integer |
| Rounding.RoundHalfEvenMonotone | scripts/directory/effort_rating.py:77 | integer rounding is monotone |
| Rounding.Round2 | scripts/directory/effort_rating.py:77 | round(x, 2) is a whole number of hundredths within 0.005 of x |
| Rounding.Round2Monotone | scripts/directory/effort_rating.py:77 | rounding to two places is monotone |
| Rounding.Round2Fixes | scripts/directory/effort_rating.py:77 | rounding leaves a value already in hundredths unchanged |
| Rounding.Round2StaysBetween | scripts/directory/effort_rating.py:77 | rounding keeps a value inside an interval whose ends are in hundredths |
| EffortSeason.Present | scripts/directory/effort_rating.py:17-20 | the dates that get a record are exactly the listed dates with a data directory |
| EffortSeason.RateMatch | scripts/directory/effort_rating.py:17-20 | a date without a data directory gets no record, and a record carries that match's raw components and their rating against the given bounds |
| EffortSeason.RateAll | scripts/directory/effort_rating.py:151-152 | the outputs are one record per listed date with a directory, in list order, each rated against the same bounds |
| EffortSeason.RunSeason | scripts/directory/effort_rating.py:149-152 | one output per listed date with a directory, in list order, each holding that match's components and their rating against the bounds of the whole season |
| EffortSeason.EffortPipeline | scripts/directory/effort_rating.py:143-152 | the driver computes the bounds once, then rates every date against them. Its result is the two-phase season run, and every output date has a directory |
| EffortSeason.SeasonRatingsInRange | scripts/directory/effort_rating.py:149-152 | every finite rating of a season run lies in [0.3, 10.3] |
| EffortSeason.RecordIndependentOfOrder | scripts/directory/effort_rating.py:98-101 | a match's record does not depend on the order of the season's dates |
| EffortSeason.ExampleBounds | scripts/directory/effort_rating.py:95-138 | with active-zone minutes 30 and 90 and no other files, the bounds are [30, 90] for that metric and [0, 0] for the rest |
| EffortSeason.ExampleFloorRating | scripts/directory/effort_rating.py:59-77 | against the example bounds the first match, at the minimum of every metric, rates 0.30 |
| EffortSeason.ExampleTopRating | scripts/directory/effort_rating.py:59-77 | against the example bounds the second match, at the top of active-zone minutes, rates 0.35 * 10 + 0.3 = 3.80 |
| EffortSeason.ExampleOutputs | scripts/directory/effort_rating.py:151-152 | the example season writes one output per match, in date order |
| EffortSeason.WorkedExample | scripts/directory/effort_rating.py:143-152 | the season run of that example emits two records rated 0.30 and 3.80 |
| Floats.PyMin | scripts/directory/substitution_insight.py:96 | Python's min keeps its first argument unless the second is strictly smaller |
| Floats.Quotient | scripts/directory/substitution_insight.py:91 | dividing by a non-zero step is exact. Dividing by a zero step gives NaN for 0/0 and an infinity of the numerator's sign otherwise |
| Windows.Filter | scripts/directory/substitution_insight.py:67-68 | the window filter keeps exactly the samples that pass the mask |
| Windows.FilterAppend | scripts/directory/substitution_insight.py:85-86 | filtering distributes over concatenation, so kept rows keep their order |
| Windows.PickFrom | scripts/directory/substitution_insight.py:73 | the candidate rows are rows of the filtered data |
| Windows.Count | scripts/directory/substitution_insight.py:72 | a flag count is at most the number of rows, and equals it exactly when every flag is set |
| Windows.TrailingCountFull | scripts/directory/substitution_insight.py:72-73 | a rolling sum over up to w rows reaches w exactly when a full window of w rows is all set |
| Windows.TrailingCountTwo | scripts/directory/substitution_insight.py:100 | a rolling sum reaches 2 exactly when two distinct rows of the window are set |
| Windows.Rolling | scripts/directory/substitution_insight.py:72 | row i's rolling sum counts the set flags among the up to w rows ending at i |
| Windows.RollingStep | scripts/directory/substitution_insight.py:72 | adding the entering row gives that row's rolling sum, and subtracting the leaving row gives the count the next row starts from |
| Windows.RollingCounts | scripts/directory/substitution_insight.py:72 | adding the entering row and subtracting the leaving row yields every row's rolling sum |
| Substitution.InWindow | scripts/directory/substitution_insight.py:67-68 | a detector sees exactly the rows whose timestamp t has start <= t <= end, and only rows of its table (the same filter serves heart rate and distance, lines 85-86) |
| Substitution.EffortFlags | scripts/directory/substitution_insight.py:59-71 | a sample is high-effort iff its bpm is strictly above 0.8 * (220 - age) |
| Substitution.FatigueMarks | scripts/directory/substitution_insight.py:72-73 | a row is a fatigue point iff it ends a run of 240 in-window rows that are all high-effort |
| Substitution.RateAt | scripts/directory/substitution_insight.py:89-91 | the first row's rate is NaN, and a later row's rate over a non-zero step is distance change over time change |
| Substitution.Rates | scripts/directory/substitution_insight.py:89-91 | the rate column has one rate per row |
| Substitution.DropThreshold | scripts/directory/substitution_insight.py:94-96 | the drop threshold is never NaN and never above -0.3. A NaN quantile leaves -0.3 |
| Substitution.DropFlags | scripts/directory/substitution_insight.py:99 | a row is a drop iff its rate is strictly below the threshold under IEEE comparison |
| Substitution.Drops | scripts/directory/substitution_insight.py:94-99 | a row is a drop iff its rate is below that match's threshold |
| Substitution.DropMarks | scripts/directory/substitution_insight.py:99-100 | a row is a sustained drop iff two distinct rows among it and the four before it have a rate below the threshold |
| Substitution.FirstRowNeverDrops | scripts/directory/substitution_insight.py:89-99 | the first in-window distance row is never a drop, because its rate is NaN |
| Substitution.Debounce | scripts/directory/substitution_insight.py:75-79 | emitted times are each at least five minutes after the previous emission (or the start), and the state ends at the last emission |
| Substitution.DebounceExtend | scripts/directory/substitution_insight.py:77-79 | a new candidate is emitted iff it is at least five minutes after the last emission |
| Substitution.DebounceEmitsCandidates | scripts/directory/substitution_insight.py:75-79 | the debounce only emits candidate times |
| Substitution.DebounceConcat | scripts/directory/substitution_insight.py:104-108 | the fatigue loop followed by the drop loop, sharing their state, equals one debounce over both candidate lists joined |
| Substitution.DebounceKeepsSpaced | scripts/directory/substitution_insight.py:77 | candidates already five minutes apart are all emitted |
| Substitution.DebounceSuppressesEarly | scripts/directory/substitution_insight.py:106 | candidates less than five minutes after the last emission are all suppressed |
| Substitution.DebounceWithin | scripts/directory/substitution_insight.py:57-79 | emissions lie between five minutes after the starting time and the latest candidate, and the state never moves back |
| Substitution.SpacedIncreasing | scripts/directory/substitution_insight.py:56-57 | spaced times strictly increase, by at least five minutes per step, from the window start |
| Substitution.CandidatesInMatch | scripts/directory/substitution_insight.py:67-86 | every candidate of either detector lies inside the match window |
| Substitution.Recommend | scripts/directory/substitution_insight.py:54-110 | the recommended times are one shared debounce over the fatigue candidates followed by the drop candidates, and fatigue recommendations precede drop recommendations |
| Substitution.RecommendSpaced | scripts/directory/substitution_insight.py:54-110 | recommended times are strictly increasing, at least five minutes apart, the first at least five minutes after the window start |
| Substitution.RecommendInWindow | scripts/directory/substitution_insight.py:54-110 | every recommendation is at least five minutes after the window start and no later than the window end |
| Substitution.NoDataNoRecommendation | scripts/directory/substitution_insight.py:64-65 | absent or empty heart-rate data yields only drop recommendations, and absent or empty distance data yields only fatigue recommendations |
| Substitution.ShortWindowNoRecommendation | scripts/directory/substitution_insight.py:56-57 | a window shorter than five minutes yields no recommendation |
| Substitution.DebounceRowStep | scripts/directory/substitution_insight.py:75-79 | one row of a detector loop moves the debounce state only for a marked row five minutes after the last emission |
| Substitution.DebounceLoop | scripts/directory/substitution_insight.py:104-108 | a detector's loop emits the debounce of its marked rows' times and leaves the state at the debounce's last emission |
| Substitution.GenerateRecommendations | scripts/directory/substitution_insight.py:54-110 | the two loops sharing `last_substitution_time` produce the modelled recommendations |
| Substitution.WithData | scripts/directory/substitution_insight.py:119-121 | the matches that get a report are exactly the scheduled matches with a data directory |
| Substitution.RecommendSeason | scripts/directory/substitution_insight.py:113-135 | one report per scheduled match with a data directory, in schedule order, each analysed over its own window with age 22 |

## Left out

- CSV reading and writing, path joining, `os.makedirs` and printing are I/O. Inputs are already-parsed columns, and outputs are returned values.
- A malformed CSV or a missing column raises an exception that ends the whole run. This is parse-level I/O and is not modelled.
- Empty cells in a column are not modelled. pandas skips NaN cells in `sum`, `mean` and `max`.
- Double-precision representation error is not modelled. Arithmetic is exact, and rounding is applied to the exact value.
- The 0.4-quantile of the rate column is an abstract parameter, not computed.
- Timestamp parsing and time-zone stripping are left out. Timestamps are integer seconds, so sub-second differences are lost.
- Schedule parsing with its tolerance and half-time offsets is left out. Each match's analysis window is an input.
- `load_match_data` is modelled only as a map from date to heart-rate and distance data. The other files it loads are not read by the detectors.
- The text of each recommendation message is left out. A recommendation is its time and its reason.
- The heatmap scripts, the Streamlit dashboard, the preprocessing copy/rename script and the directory lister are not part of this model: they are plotting, UI and file-system glue.
- Windows.Pick: its own contract only bounds the length; that picked rows come from the input is stated separately by Windows.PickFrom.
