/** `generate_substitution_recommendations`: two detectors over one match's
    samples inside the match window (sustained high heart rate, sustained drop
    in movement rate) feeding one debounce that keeps recommendations at least
    five minutes apart. Timestamps are whole seconds. */
module Substitution {
  import opened Wrappers
  import opened Floats
  import opened Windows

  datatype HrSample = HrSample(t: int, bpm: real)
  datatype DistSample = DistSample(t: int, distance: real)

  /** The two inputs the detectors read; None when the file does not exist. */
  datatype MatchData = MatchData(heartRate: Option<seq<HrSample>>, distance: Option<seq<DistSample>>)

  datatype Reason = SustainedHighHeartRate | MovementRateDrop
  datatype Recommendation = Recommendation(time: int, reason: Reason)

  const MinTimeOnPitch: int := 300   // five minutes
  const FatigueWindow: nat := 240    // rows
  const DropWindow: nat := 5         // rows
  const DropsForSustained: nat := 2
  const StaticDropThreshold: real := -0.3

  /** 80% of the age-predicted maximum heart rate `220 - age`. */
  function HighEffortThreshold(age: int): real {
    0.8 * (220 - age) as real
  }

  predicate InMatch(t: int, start: int, end: int) {
    start <= t <= end
  }

  /** The rows of a column whose timestamp lies in the match window, in row
      order; `time` reads a row's timestamp. */
  function InWindow<T(==)>(xs: seq<T>, time: T -> int, start: int, end: int): (r: seq<T>)
    ensures forall k :: 0 <= k < |r| ==> r[k] in xs && InMatch(time(r[k]), start, end)
    ensures forall k :: 0 <= k < |xs| && InMatch(time(xs[k]), start, end) ==> xs[k] in r
  {
    Filter(xs, (s: T) => InMatch(time(s), start, end))
  }

  /** The `timestamp` column of a table. */
  function Times<T>(xs: seq<T>, time: T -> int): (ts: seq<int>)
    ensures |ts| == |xs| && forall k :: 0 <= k < |xs| ==> ts[k] == time(xs[k])
  {
    seq(|xs|, k requires 0 <= k < |xs| => time(xs[k]))
  }

  function HrTime(s: HrSample): int { s.t }
  function DistTime(s: DistSample): int { s.t }

  // ---------------------------------------------------------------------
  // Fatigue detector

  /** The `effort` column: a sample is high-effort when its bpm is strictly
      above the threshold. */
  function EffortFlags(hr: seq<HrSample>, age: int): (f: seq<bool>)
    ensures |f| == |hr|
    ensures forall k :: 0 <= k < |hr| ==> f[k] == (hr[k].bpm > HighEffortThreshold(age))
  {
    seq(|hr|, k requires 0 <= k < |hr| => hr[k].bpm > HighEffortThreshold(age))
  }

  /** The rows whose 240-row rolling effort count reaches 240: exactly the
      rows that close a run of 240 rows all above the high-effort threshold. */
  function FatigueMarks(hr: seq<HrSample>, age: int): (marks: seq<bool>)
    ensures |marks| == |hr|
    ensures forall i :: 0 <= i < |hr| ==> (marks[i] <==>
      i + 1 >= FatigueWindow &&
      forall k :: i + 1 - FatigueWindow <= k <= i ==> hr[k].bpm > HighEffortThreshold(age))
  {
    var flags := EffortFlags(hr, age);
    var counts := Rolling(flags, FatigueWindow);
    var marks := seq(|hr|, k requires 0 <= k < |hr| => counts[k] >= FatigueWindow);
    assert forall i :: 0 <= i < |hr| ==> (marks[i] <==>
      i + 1 >= FatigueWindow &&
      forall k :: i + 1 - FatigueWindow <= k <= i ==> hr[k].bpm > HighEffortThreshold(age)) by {
      forall i | 0 <= i < |hr|
        ensures marks[i] <==> (i + 1 >= FatigueWindow &&
          forall k :: i + 1 - FatigueWindow <= k <= i ==> hr[k].bpm > HighEffortThreshold(age))
      {
        TrailingCountFull(flags, i, FatigueWindow);
      }
    }
    marks
  }

  /** Timestamps of the fatigue points of the in-window samples, in row order. */
  function FatigueTimes(hr: seq<HrSample>, age: int): seq<int> {
    Pick(Times(hr, HrTime), FatigueMarks(hr, age))
  }

  // ---------------------------------------------------------------------
  // Movement-drop detector

  /** `distance_diff / time_diff` at row `k`. Both differences of the first
      row are filled with 0, so its rate is 0/0, NaN. */
  function RateAt(ds: seq<DistSample>, k: nat): (r: Float)
    requires k < |ds|
    ensures k == 0 ==> r == NaN
    ensures k > 0 && ds[k].t != ds[k - 1].t ==>
      r == Fin((ds[k].distance - ds[k - 1].distance) / (ds[k].t - ds[k - 1].t) as real)
  {
    if k == 0 then Quotient(0.0, 0.0)
    else Quotient(ds[k].distance - ds[k - 1].distance, (ds[k].t - ds[k - 1].t) as real)
  }

  /** The `rate_of_change` column. */
  function Rates(ds: seq<DistSample>): (r: seq<Float>)
    ensures |r| == |ds|
    ensures forall k :: 0 <= k < |ds| ==> r[k] == RateAt(ds, k)
  {
    seq(|ds|, k requires 0 <= k < |ds| => RateAt(ds, k))
  }

  /** `min(-0.3, dynamic)`: never NaN and never above -0.3. A NaN dynamic
      threshold loses the comparison and leaves -0.3. */
  function DropThreshold(dynamic: Float): (th: Float)
    ensures th == Fin(StaticDropThreshold) || th.NegInf? || (th.Fin? && th.r < StaticDropThreshold)
    ensures dynamic.NaN? ==> th == Fin(StaticDropThreshold)
    ensures th != Fin(StaticDropThreshold) ==> th == dynamic
  {
    PyMin(Fin(StaticDropThreshold), dynamic)
  }

  /** The `drop_detected` column: rate strictly below the threshold. */
  function DropFlags(rates: seq<Float>, th: Float): (f: seq<bool>)
    ensures |f| == |rates|
    ensures forall k :: 0 <= k < |rates| ==> f[k] == Lt(rates[k], th)
  {
    seq(|rates|, k requires 0 <= k < |rates| => Lt(rates[k], th))
  }

  /** The drop threshold of a match; `quantile` is the 0.4-quantile of the
      rate column, taken as given. */
  function MatchDropThreshold(ds: seq<DistSample>, quantile: seq<Float> -> Float): Float {
    DropThreshold(quantile(Rates(ds)))
  }

  function Drops(ds: seq<DistSample>, quantile: seq<Float> -> Float): (f: seq<bool>)
    ensures |f| == |ds|
    ensures forall k :: 0 <= k < |ds| ==> f[k] == Lt(RateAt(ds, k), MatchDropThreshold(ds, quantile))
  {
    DropFlags(Rates(ds), MatchDropThreshold(ds, quantile))
  }

  /** The rows whose 5-row rolling drop count reaches 2: exactly the rows
      where two distinct rows among it and the four before it have a rate
      below the threshold. */
  function DropMarks(ds: seq<DistSample>, quantile: seq<Float> -> Float): (marks: seq<bool>)
    ensures |marks| == |ds|
    ensures forall i :: 0 <= i < |ds| ==> (marks[i] <==>
      exists j, k :: WindowStart(i, DropWindow) <= j < k <= i &&
        Lt(RateAt(ds, j), MatchDropThreshold(ds, quantile)) && Lt(RateAt(ds, k), MatchDropThreshold(ds, quantile)))
  {
    var flags := Drops(ds, quantile);
    var counts := Rolling(flags, DropWindow);
    var marks := seq(|ds|, k requires 0 <= k < |ds| => counts[k] >= DropsForSustained);
    assert forall i :: 0 <= i < |ds| ==> (marks[i] <==>
      exists j, k :: WindowStart(i, DropWindow) <= j < k <= i &&
        Lt(RateAt(ds, j), MatchDropThreshold(ds, quantile)) && Lt(RateAt(ds, k), MatchDropThreshold(ds, quantile))) by {
      forall i | 0 <= i < |ds|
        ensures marks[i] <==>
          exists j, k :: WindowStart(i, DropWindow) <= j < k <= i &&
            Lt(RateAt(ds, j), MatchDropThreshold(ds, quantile)) && Lt(RateAt(ds, k), MatchDropThreshold(ds, quantile))
      {
        TrailingCountTwo(flags, i, DropWindow);
      }
    }
    marks
  }

  /** The first row is never a drop: its rate is NaN. */
  lemma FirstRowNeverDrops(ds: seq<DistSample>, quantile: seq<Float> -> Float)
    requires |ds| > 0
    ensures !Drops(ds, quantile)[0]
  {
  }

  /** Timestamps of the sustained-drop rows of the in-window samples. */
  function DropTimes(ds: seq<DistSample>, quantile: seq<Float> -> Float): seq<int> {
    Pick(Times(ds, DistTime), DropMarks(ds, quantile))
  }

  // ---------------------------------------------------------------------
  // Debounce

  /** Each time is at least five minutes after the one before it, the first
      at least five minutes after `from`. */
  predicate Spaced(from: int, ts: seq<int>) {
    && (|ts| > 0 ==> ts[0] - from >= MinTimeOnPitch)
    && (forall k :: 0 < k < |ts| ==> ts[k] - ts[k - 1] >= MinTimeOnPitch)
  }

  datatype Debounced = Debounced(emitted: seq<int>, last: int)

  /** One detector's loop: a candidate is emitted when it is at least five
      minutes after the last emitted time (initially `last`), which then
      moves to it. */
  function Debounce(last: int, cs: seq<int>): (d: Debounced)
    ensures Spaced(last, d.emitted)
    ensures d.last == if |d.emitted| == 0 then last else d.emitted[|d.emitted| - 1]
    ensures |d.emitted| <= |cs|
  {
    if |cs| == 0 then Debounced([], last)
    else
      var n := |cs| - 1;
      var prev := Debounce(last, cs[..n]);
      var c := cs[n];
      if c - prev.last >= MinTimeOnPitch then Debounced(prev.emitted + [c], c) else prev
  }

  /** One more candidate: emitted iff five minutes after the last emission. */
  lemma DebounceExtend(last: int, cs: seq<int>, c: int)
    ensures var d := Debounce(last, cs);
      Debounce(last, cs + [c]) ==
        if c - d.last >= MinTimeOnPitch then Debounced(d.emitted + [c], c) else d
  {
    assert (cs + [c])[..|cs|] == cs;
  }

  /** Everything the debounce emits is one of its candidates. */
  lemma {:induction false} DebounceEmitsCandidates(last: int, cs: seq<int>)
    ensures forall k :: 0 <= k < |Debounce(last, cs).emitted| ==> Debounce(last, cs).emitted[k] in cs
  {
    if |cs| > 0 {
      var n := |cs| - 1;
      DebounceEmitsCandidates(last, cs[..n]);
      assert forall x :: x in cs[..n] ==> x in cs;
    }
  }

  /** Running the debounce over one candidate list and then, from where it
      stopped, over a second is the debounce of the two lists joined: this is
      what sharing `last_substitution_time` between the two loops means. */
  lemma {:induction false} DebounceConcat(last: int, xs: seq<int>, ys: seq<int>)
    ensures var d1 := Debounce(last, xs);
      var d2 := Debounce(d1.last, ys);
      Debounce(last, xs + ys) == Debounced(d1.emitted + d2.emitted, d2.last)
    decreases |ys|
  {
    if |ys| == 0 {
      assert xs + ys == xs;
    } else {
      var n := |ys| - 1;
      assert (xs + ys)[..|xs + ys| - 1] == xs + ys[..n];
      DebounceConcat(last, xs, ys[..n]);
    }
  }

  /** Candidates that are already five minutes apart are all emitted. */
  lemma {:induction false} DebounceKeepsSpaced(last: int, cs: seq<int>)
    requires Spaced(last, cs)
    ensures Debounce(last, cs) == Debounced(cs, if |cs| == 0 then last else cs[|cs| - 1])
  {
    if |cs| > 0 {
      var n := |cs| - 1;
      assert forall k :: 0 <= k < n ==> cs[..n][k] == cs[k];
      assert Spaced(last, cs[..n]);
      DebounceKeepsSpaced(last, cs[..n]);
      assert cs[..n] + [cs[n]] == cs;
    }
  }

  /** Candidates all within five minutes after `last` are all suppressed. */
  lemma {:induction false} DebounceSuppressesEarly(last: int, cs: seq<int>)
    requires forall k :: 0 <= k < |cs| ==> cs[k] - last < MinTimeOnPitch
    ensures Debounce(last, cs) == Debounced([], last)
  {
    if |cs| > 0 {
      DebounceSuppressesEarly(last, cs[..|cs| - 1]);
    }
  }

  /** Emissions lie between five minutes after the starting `last` and the
      latest candidate, and the state never moves back. */
  lemma {:induction false} DebounceWithin(last: int, cs: seq<int>, hi: int)
    requires forall k :: 0 <= k < |cs| ==> cs[k] <= hi
    ensures Debounce(last, cs).last >= last
    ensures forall k :: 0 <= k < |Debounce(last, cs).emitted| ==>
      last + MinTimeOnPitch <= Debounce(last, cs).emitted[k] <= hi
  {
    if |cs| > 0 {
      var n := |cs| - 1;
      assert forall k :: 0 <= k < n ==> cs[..n][k] == cs[k];
      DebounceWithin(last, cs[..n], hi);
    }
  }

  /** Spaced times are strictly increasing, each at least five minutes per
      step after the ones before it. */
  lemma {:induction false} SpacedIncreasing(from: int, ts: seq<int>)
    requires Spaced(from, ts)
    ensures forall j, k :: 0 <= j < k < |ts| ==> ts[k] - ts[j] >= MinTimeOnPitch * (k - j)
    ensures forall k :: 0 <= k < |ts| ==> ts[k] - from >= MinTimeOnPitch * (k + 1)
  {
    if |ts| > 0 {
      var n := |ts| - 1;
      var p := ts[..n];
      assert forall k :: 0 <= k < n ==> p[k] == ts[k];
      assert Spaced(from, p);
      SpacedIncreasing(from, p);
      forall j | 0 <= j < n ensures ts[n] - ts[j] >= MinTimeOnPitch * (n - j) {
        if n > 0 {
          assert ts[n] - ts[n - 1] >= MinTimeOnPitch;
          if j < n - 1 {
            assert ts[n - 1] - ts[j] >= MinTimeOnPitch * (n - 1 - j);
          }
        }
      }
      if n > 0 {
        assert ts[n] - ts[n - 1] >= MinTimeOnPitch;
        assert ts[n - 1] - from >= MinTimeOnPitch * n;
        assert ts[n] - from >= MinTimeOnPitch * (n + 1);
      }
    }
  }

  // ---------------------------------------------------------------------
  // The recommendations of one match

  function Tag(ts: seq<int>, reason: Reason): (r: seq<Recommendation>)
    ensures |r| == |ts|
    ensures forall k :: 0 <= k < |ts| ==> r[k] == Recommendation(ts[k], reason)
  {
    seq(|ts|, k requires 0 <= k < |ts| => Recommendation(ts[k], reason))
  }

  function TimesOf(recs: seq<Recommendation>): (ts: seq<int>)
    ensures |ts| == |recs| && forall k :: 0 <= k < |recs| ==> ts[k] == recs[k].time
  {
    seq(|recs|, k requires 0 <= k < |recs| => recs[k].time)
  }

  /** Tagging then reading the times back gives the times. */
  lemma TimesOfTags(a: seq<int>, ra: Reason, b: seq<int>, rb: Reason)
    ensures TimesOf(Tag(a, ra) + Tag(b, rb)) == a + b
  {
    var ts := TimesOf(Tag(a, ra) + Tag(b, rb));
    assert forall k :: 0 <= k < |a| ==> ts[k] == a[k];
    assert forall k :: |a| <= k < |a| + |b| ==> ts[k] == b[k - |a|];
  }

  /** Tagging one more time appends one recommendation. */
  lemma TagSnoc(a: seq<int>, c: int, reason: Reason)
    ensures Tag(a + [c], reason) == Tag(a, reason) + [Recommendation(c, reason)]
  {
  }

  /** Fatigue candidate times; absent or empty heart-rate data gives none. */
  function HrCandidates(start: int, end: int, data: MatchData, age: int): seq<int> {
    if data.heartRate.Some? && |data.heartRate.value| > 0
    then FatigueTimes(InWindow(data.heartRate.value, HrTime, start, end), age)
    else []
  }

  /** Drop candidate times; absent or empty distance data gives none. */
  function DropCandidates(start: int, end: int, data: MatchData, quantile: seq<Float> -> Float): seq<int> {
    if data.distance.Some? && |data.distance.value| > 0
    then DropTimes(InWindow(data.distance.value, DistTime, start, end), quantile)
    else []
  }

  /** Every candidate time of either detector lies in the match window. */
  lemma CandidatesInMatch(start: int, end: int, data: MatchData, age: int, quantile: seq<Float> -> Float)
    ensures forall k :: 0 <= k < |HrCandidates(start, end, data, age)| ==>
      InMatch(HrCandidates(start, end, data, age)[k], start, end)
    ensures forall k :: 0 <= k < |DropCandidates(start, end, data, quantile)| ==>
      InMatch(DropCandidates(start, end, data, quantile)[k], start, end)
  {
    if data.heartRate.Some? && |data.heartRate.value| > 0 {
      var hr := InWindow(data.heartRate.value, HrTime, start, end);
      var ts := Times(hr, HrTime);
      PickFrom(ts, FatigueMarks(hr, age));
      assert forall x :: x in ts ==> InMatch(x, start, end);
    }
    if data.distance.Some? && |data.distance.value| > 0 {
      var ds := InWindow(data.distance.value, DistTime, start, end);
      var ts := Times(ds, DistTime);
      PickFrom(ts, DropMarks(ds, quantile));
      assert forall x :: x in ts ==> InMatch(x, start, end);
    }
  }

  /** The recommendations of one match: the fatigue detector's emissions,
      then the drop detector's, through one shared debounce that starts at
      the window's start. Their times are one debounce over the fatigue
      candidates followed by the drop candidates, and every fatigue
      recommendation comes before every drop recommendation. */
  function Recommend(start: int, end: int, data: MatchData, age: int, quantile: seq<Float> -> Float): (recs: seq<Recommendation>)
    ensures TimesOf(recs)
      == Debounce(start, HrCandidates(start, end, data, age) + DropCandidates(start, end, data, quantile)).emitted
    ensures forall j, k :: 0 <= j < k < |recs| && recs[j].reason == MovementRateDrop ==> recs[k].reason == MovementRateDrop
  {
    var hrTimes := HrCandidates(start, end, data, age);
    var dropTimes := DropCandidates(start, end, data, quantile);
    var d1 := Debounce(start, hrTimes);
    var d2 := Debounce(d1.last, dropTimes);
    DebounceConcat(start, hrTimes, dropTimes);
    TimesOfTags(d1.emitted, SustainedHighHeartRate, d2.emitted, MovementRateDrop);
    Tag(d1.emitted, SustainedHighHeartRate) + Tag(d2.emitted, MovementRateDrop)
  }

  /** Recommended times are strictly increasing and five minutes apart,
      the first at least five minutes after the window's start. */
  lemma RecommendSpaced(start: int, end: int, data: MatchData, age: int, quantile: seq<Float> -> Float)
    ensures Spaced(start, TimesOf(Recommend(start, end, data, age, quantile)))
  {
  }

  /** Every recommendation lies at least five minutes after the window's
      start and no later than its end. */
  lemma RecommendInWindow(start: int, end: int, data: MatchData, age: int, quantile: seq<Float> -> Float)
    ensures var recs := Recommend(start, end, data, age, quantile);
      forall k :: 0 <= k < |recs| ==> start + MinTimeOnPitch <= recs[k].time <= end
  {
    var recs := Recommend(start, end, data, age, quantile);
    var all := HrCandidates(start, end, data, age) + DropCandidates(start, end, data, quantile);
    CandidatesInMatch(start, end, data, age, quantile);
    assert forall k :: 0 <= k < |all| ==> all[k] <= end;
    DebounceWithin(start, all, end);
    assert forall k :: 0 <= k < |recs| ==> recs[k].time == Debounce(start, all).emitted[k];
  }

  /** A detector whose data is absent or empty contributes no recommendation. */
  lemma NoDataNoRecommendation(start: int, end: int, data: MatchData, age: int, quantile: seq<Float> -> Float)
    ensures (data.heartRate.None? || data.heartRate == Some([])) ==>
      forall k :: 0 <= k < |Recommend(start, end, data, age, quantile)| ==>
        Recommend(start, end, data, age, quantile)[k].reason == MovementRateDrop
    ensures (data.distance.None? || data.distance == Some([])) ==>
      forall k :: 0 <= k < |Recommend(start, end, data, age, quantile)| ==>
        Recommend(start, end, data, age, quantile)[k].reason == SustainedHighHeartRate
  {
  }

  /** A window shorter than five minutes never yields a recommendation. */
  lemma ShortWindowNoRecommendation(start: int, end: int, data: MatchData, age: int, quantile: seq<Float> -> Float)
    ensures |Recommend(start, end, data, age, quantile)| > 0 ==> end >= start + MinTimeOnPitch
  {
    var recs := Recommend(start, end, data, age, quantile);
    RecommendInWindow(start, end, data, age, quantile);
    if |recs| > 0 {
      assert start + MinTimeOnPitch <= recs[0].time <= end;
    }
  }

  /** One more row of a detector's loop: the debounce state moves on only
      when the row is marked and five minutes after the last emission. */
  lemma DebounceRowStep(last0: int, ts: seq<int>, marks: seq<bool>, i: nat)
    requires |ts| == |marks| && i < |ts|
    ensures var d := Debounce(last0, Pick(ts[..i], marks[..i]));
      Debounce(last0, Pick(ts[..i + 1], marks[..i + 1])) ==
        if marks[i] && ts[i] - d.last >= MinTimeOnPitch then Debounced(d.emitted + [ts[i]], ts[i]) else d
  {
    var prev := Pick(ts[..i], marks[..i]);
    PickExtend(ts, marks, i);
    if marks[i] {
      DebounceExtend(last0, prev, ts[i]);
    } else {
      assert prev + [] == prev;
    }
  }

  /** One detector's loop over its rows: rows with a set mark are candidates,
      and a candidate at least five minutes after `last` is recommended. */
  method DebounceLoop(last0: int, ts: seq<int>, marks: seq<bool>, reason: Reason)
    returns (recs: seq<Recommendation>, last: int)
    requires |ts| == |marks|
    ensures recs == Tag(Debounce(last0, Pick(ts, marks)).emitted, reason)
    ensures last == Debounce(last0, Pick(ts, marks)).last
  {
    recs := [];
    last := last0;
    var i := 0;
    assert ts[..0] == [] && marks[..0] == [];
    assert Tag([], reason) == [];
    while i < |ts|
      invariant 0 <= i <= |ts|
      invariant recs == Tag(Debounce(last0, Pick(ts[..i], marks[..i])).emitted, reason)
      invariant last == Debounce(last0, Pick(ts[..i], marks[..i])).last
    {
      ghost var d := Debounce(last0, Pick(ts[..i], marks[..i]));
      DebounceRowStep(last0, ts, marks, i);
      if marks[i] && ts[i] - last >= MinTimeOnPitch {
        TagSnoc(d.emitted, ts[i], reason);
        recs := recs + [Recommendation(ts[i], reason)];
        last := ts[i];
      }
      i := i + 1;
    }
    assert ts[..i] == ts && marks[..i] == marks;
  }

  /** `generate_substitution_recommendations`: the fatigue loop, then the
      drop loop, sharing `last_substitution_time`. */
  method GenerateRecommendations(start: int, end: int, data: MatchData, age: int, quantile: seq<Float> -> Float)
    returns (recs: seq<Recommendation>)
    ensures recs == Recommend(start, end, data, age, quantile)
  {
    var last := start;
    var hrRecs: seq<Recommendation> := [];
    if data.heartRate.Some? && |data.heartRate.value| > 0 {
      var hr := InWindow(data.heartRate.value, HrTime, start, end);
      var counts := RollingCounts(EffortFlags(hr, age), FatigueWindow);
      var marks := seq(|hr|, k requires 0 <= k < |hr| => counts[k] >= FatigueWindow);
      assert marks == FatigueMarks(hr, age);
      hrRecs, last := DebounceLoop(start, Times(hr, HrTime), marks, SustainedHighHeartRate);
    }
    var dropRecs: seq<Recommendation> := [];
    if data.distance.Some? && |data.distance.value| > 0 {
      var ds := InWindow(data.distance.value, DistTime, start, end);
      var counts := RollingCounts(Drops(ds, quantile), DropWindow);
      var marks := seq(|ds|, k requires 0 <= k < |ds| => counts[k] >= DropsForSustained);
      assert marks == DropMarks(ds, quantile);
      dropRecs, last := DebounceLoop(last, Times(ds, DistTime), marks, MovementRateDrop);
    }
    recs := hrRecs + dropRecs;
  }

  // ---------------------------------------------------------------------
  // The season loop

  /** A scheduled match with its analysis window (the match times widened by
      the schedule's tolerances, taken as given). */
  datatype ScheduledMatch = ScheduledMatch(date: string, start: int, end: int)

  datatype MatchReport = MatchReport(date: string, recommendations: seq<Recommendation>)

  const PlayerAge: int := 22

  /** The scheduled matches that have a data directory, in schedule order. */
  function WithData(schedule: seq<ScheduledMatch>, folder: map<string, MatchData>): (r: seq<ScheduledMatch>)
    ensures |r| <= |schedule|
    ensures forall k :: 0 <= k < |r| ==> r[k] in schedule && r[k].date in folder
    ensures forall m :: m in schedule && m.date in folder ==> m in r
  {
    if |schedule| == 0 then []
    else
      var n := |schedule| - 1;
      var m := schedule[n];
      assert schedule == schedule[..n] + [m];
      if m.date in folder then WithData(schedule[..n], folder) + [m] else WithData(schedule[..n], folder)
  }

  /** The script's loop over the schedule: one report per scheduled match
      that has a data directory, analysed over its own window with age 22;
      a match without a directory is skipped and writes no report. */
  function RecommendSeason(schedule: seq<ScheduledMatch>, folder: map<string, MatchData>,
                           quantile: seq<Float> -> Float): (out: seq<MatchReport>)
    ensures |out| == |WithData(schedule, folder)|
    ensures forall k :: 0 <= k < |out| ==>
      var m := WithData(schedule, folder)[k];
      out[k] == MatchReport(m.date, Recommend(m.start, m.end, folder[m.date], PlayerAge, quantile))
  {
    if |schedule| == 0 then []
    else
      var n := |schedule| - 1;
      var prev := RecommendSeason(schedule[..n], folder, quantile);
      var m := schedule[n];
      var w := WithData(schedule[..n], folder);
      assert WithData(schedule, folder) == if m.date in folder then w + [m] else w;
      if m.date in folder
      then prev + [MatchReport(m.date, Recommend(m.start, m.end, folder[m.date], PlayerAge, quantile))]
      else prev
  }
}
