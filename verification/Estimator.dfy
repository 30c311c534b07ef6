/** The burn-rate estimator: the newest unbroken stretch of a series, widened
    backwards until the interval round its rate is readable. */
module Estimator {
  import opened Time
  import opened Collections
  import opened Domain
  import opened Rollover
  import opened Metrics

  const MIN_SAMPLE_SECS: int := 300
  const FALL_EPSILON: real := 0.005
  const PRECISION_ABS: real := 0.25
  const PRECISION_REL: real := 0.25

  /** What `sqrt` computes: no claim below needs to know. */
  type Root = real -> real

  /** The half-width a run's step scatter alone would give its rate. */
  type Spread = (seq<Reading>, real, real) -> real

  const T_QUANTILE: seq<real> := [
    3.078, 1.886, 1.638, 1.533, 1.476, 1.440, 1.415, 1.397, 1.383, 1.372, 1.363, 1.356, 1.350,
    1.345, 1.341, 1.337, 1.333, 1.330, 1.328, 1.325, 1.323, 1.321, 1.319, 1.318, 1.316, 1.315,
    1.314, 1.313, 1.311, 1.310]

  const Z_QUANTILE: real := 1.2816

  function TQuantile(dof: nat): real {
    if 1 <= dof <= |T_QUANTILE| then T_QUANTILE[dof - 1] else Z_QUANTILE
  }

  /** What the estimator reads of one snapshot it selected. */
  datatype Reading = Reading(ts: Instant, ratio: real, used: real, unit: QuotaUnit, limit: Option<real>)

  datatype RateEstimate = RateEstimate(
    pace: real, low: real, high: real, from: Instant, to: Instant, readings: nat, quantum: real)
  {
    function Width(): real {
      high - low
    }

    predicate IsPrecise() {
      readings > 2 && Width() <= MaxReal(PRECISION_ABS, PRECISION_REL * pace)
    }
  }

  // ----- from snapshots to the newest stretch

  predicate InSameWindow(p: QuotaSnapshot, w: EffectiveWindow) {
    p.resetAt.Some? && Abs(p.resetAt.value - w.resetAt) <= RESET_TOLERANCE
  }

  function Selects(w: EffectiveWindow, now: Instant): QuotaSnapshot -> bool {
    (p: QuotaSnapshot) =>
      p.window == w.window && w.start <= p.ts <= now && InSameWindow(p, w) && p.Utilization().Some?
  }

  function ToReading(p: QuotaSnapshot): Reading {
    Reading(p.ts, if p.Utilization().Some? then p.Utilization().value else 0.0, p.used, p.unit, p.limit)
  }

  function ReadingsOf(points: seq<QuotaSnapshot>): seq<Reading> {
    seq(|points|, i requires 0 <= i < |points| => ToReading(points[i]))
  }

  function Ts(r: Reading): Instant {
    r.ts
  }

  /** The readings of one window instance up to `now`, sorted, one an instant. */
  function Series(w: EffectiveWindow, points: seq<QuotaSnapshot>, now: Instant): seq<Reading> {
    Dedup(Sort(ReadingsOf(Filter(points, Selects(w, now))), Ts), Ts)
  }

  /** A step the series cannot be read across: a hole, or a fall in usage. */
  predicate Breaks(prev: Reading, next: Reading, maxGap: Duration) {
    next.ts - prev.ts > maxGap || next.ratio < prev.ratio - FALL_EPSILON
  }

  /** Where the unbroken stretch that ends at `i` begins. */
  function StretchFrom(run: seq<Reading>, i: nat, maxGap: Duration): (first: nat)
    requires i < |run|
    ensures first <= i
  {
    if i == 0 || Breaks(run[i - 1], run[i], maxGap) then i else StretchFrom(run, i - 1, maxGap)
  }

  function Stretch(run: seq<Reading>, maxGap: Duration): (r: seq<Reading>)
    requires run != []
    ensures r != []
  {
    run[StretchFrom(run, |run| - 1, maxGap)..]
  }

  // ----- fitting

  predicate FitsStep(readings: seq<Reading>, step: real)
    requires step > 0.0
  {
    forall r <- readings :: -0.000001 < Round(r.used / step) as real * step - r.used < 0.000001
  }

  function ReadingQuantum(readings: seq<Reading>): real {
    var raw := if FitsStep(readings, 1.0) then 1.0 else if FitsStep(readings, 0.5) then 0.5 else 0.1;
    var scale :=
      if readings == [] then 100.0
      else
        var last := readings[|readings| - 1];
        if last.unit == Percent then 100.0
        else if last.limit.Some? && last.limit.value > 0.0 then last.limit.value
        else 100.0;
    raw / scale
  }

  function Square(x: real): real {
    x * x
  }

  /** Squared distance of each step from the rate, summed. */
  function Scatter(run: seq<Reading>, rate: real): real {
    if |run| < 2 then 0.0
    else
      var (prev, next) := (run[|run| - 2], run[|run| - 1]);
      Scatter(run[..|run| - 1], rate)
      + Square(next.ratio - prev.ratio - rate * NumSeconds(next.ts - prev.ts) as real)
  }

  /** What so much scatter over so many steps leaves undecided about their rate. */
  function Undecided(scatter: real, steps: nat, elapsed: real, root: Root): real {
    if steps > 1 && elapsed > 0.0 then
      var dof := steps - 1;
      TQuantile(dof) * root(scatter * steps as real / dof as real / (elapsed * elapsed))
    else 0.0
  }

  function Statistical(run: seq<Reading>, rate: real, elapsed: real, root: Root): real {
    if |run| < 2 then 0.0 else Undecided(Scatter(run, rate), |run| - 1, elapsed, root)
  }

  function SpreadOf(root: Root): Spread {
    (run: seq<Reading>, rate: real, elapsed: real) => Statistical(run, rate, elapsed, root)
  }

  function Fit(run: seq<Reading>, quantum: real, spanSecs: real, spread: Spread): (r: Option<RateEstimate>)
    ensures r.Some? ==> run != [] && r.value.from == run[0].ts && r.value.to == run[|run| - 1].ts
  {
    if |run| < 2 || NumSeconds(run[|run| - 1].ts - run[0].ts) < MIN_SAMPLE_SECS then None
    else
      var (first, last) := (run[0], run[|run| - 1]);
      var elapsed := NumSeconds(last.ts - first.ts) as real;
      var rate := (last.ratio - first.ratio) / elapsed;
      var half := MaxReal(spread(run, rate, elapsed), quantum / elapsed);
      Some(RateEstimate(
        MaxReal(rate, 0.0) * spanSecs,
        MaxReal(rate - half, 0.0) * spanSecs,
        MaxReal(rate + half, 0.0) * spanSecs,
        first.ts, last.ts, |run|, quantum))
  }

  // ----- widening

  /** `fit` at one series' resolution and one window's scale. */
  type Fitter = seq<Reading> -> Option<RateEstimate>

  function FitterOf(quantum: real, spanSecs: int, root: Root): Fitter {
    (run: seq<Reading>) => Fit(run, quantum, spanSecs as real, SpreadOf(root))
  }

  function RecentLookback(span: Duration): (r: Duration)
    ensures 900 * SECOND <= r <= 43200 * SECOND
  {
    Min(Max(TruncDiv(NumSeconds(span), 10), 15 * 60), 12 * 3600) * SECOND
  }

  /** What one pass of the loop decides. */
  datatype Pass = Done(result: Option<RateEstimate>) | Again(narrower: Option<RateEstimate>)

  predicate Disjoint(a: RateEstimate, b: RateEstimate) {
    a.high < b.low || a.low > b.high
  }

  /** The readings a widening to `start` adds, up to the newer fit's first. */
  function Added(stretch: seq<Reading>, start: nat, newer: RateEstimate): seq<Reading>
    requires start <= |stretch|
  {
    var tail := stretch[start..];
    tail[..CountBelow(tail, Ts, newer.from + 1)]
  }

  predicate RegimeStop(
      stretch: seq<Reading>, start: nat, narrower: Option<RateEstimate>, fit: Fitter)
    requires start <= |stretch|
  {
    narrower.Some? &&
    var older := fit(Added(stretch, start, narrower.value));
    older.Some? && Disjoint(older.value, narrower.value)
  }

  /** Nothing is left to widen into, or the estimate is precise. */
  predicate IsEnough(start: nat, estimate: Option<RateEstimate>) {
    start == 0 || (estimate.Some? && estimate.value.IsPrecise())
  }

  function OnePass(
      stretch: seq<Reading>, fit: Fitter, lookback: Duration, narrower: Option<RateEstimate>): Pass
    requires stretch != []
  {
    var start := CountBelow(stretch, Ts, stretch[|stretch| - 1].ts - lookback);
    if RegimeStop(stretch, start, narrower, fit) then Done(narrower)
    else
      var estimate := fit(stretch[start..]);
      if IsEnough(start, estimate) then Done(estimate) else Again(estimate)
  }

  lemma PassOver(
      stretch: seq<Reading>, fit: Fitter, lookback: Duration, narrower: Option<RateEstimate>, start: nat)
    requires stretch != [] && start == CountBelow(stretch, Ts, stretch[|stretch| - 1].ts - lookback)
    ensures OnePass(stretch, fit, lookback, narrower)
         == if RegimeStop(stretch, start, narrower, fit) then Done(narrower)
            else if IsEnough(start, fit(stretch[start..])) then Done(fit(stretch[start..]))
            else Again(fit(stretch[start..]))
  {
  }

  /** How much of the stretch a lookback leaves out. */
  function Beyond(stretch: seq<Reading>, lookback: Duration): nat
    requires stretch != []
  {
    Max(0, stretch[|stretch| - 1].ts - stretch[0].ts - lookback)
  }

  lemma AgainMeansBeyond(
      stretch: seq<Reading>, fit: Fitter, lookback: Duration, narrower: Option<RateEstimate>)
    requires stretch != [] && lookback > 0
    requires OnePass(stretch, fit, lookback, narrower).Again?
    ensures stretch[|stretch| - 1].ts - stretch[0].ts > lookback
    ensures Beyond(stretch, lookback * 2) < Beyond(stretch, lookback)
  {
  }

  function Widen(
      stretch: seq<Reading>, fit: Fitter, lookback: Duration, narrower: Option<RateEstimate>): Option<RateEstimate>
    requires stretch != [] && lookback > 0
    decreases Beyond(stretch, lookback)
  {
    match OnePass(stretch, fit, lookback, narrower)
    case Done(result) => result
    case Again(estimate) =>
      AgainMeansBeyond(stretch, fit, lookback, narrower);
      Widen(stretch, fit, lookback * 2, estimate)
  }

  lemma WidenUnfolds(
      stretch: seq<Reading>, fit: Fitter, lookback: Duration, narrower: Option<RateEstimate>)
    requires stretch != [] && lookback > 0
    ensures Widen(stretch, fit, lookback, narrower)
         == match OnePass(stretch, fit, lookback, narrower)
            case Done(result) => result
            case Again(estimate) => Widen(stretch, fit, lookback * 2, estimate)
    ensures OnePass(stretch, fit, lookback, narrower).Again? ==>
      Beyond(stretch, lookback * 2) < Beyond(stretch, lookback)
  {
    if OnePass(stretch, fit, lookback, narrower).Again? {
      AgainMeansBeyond(stretch, fit, lookback, narrower);
    }
  }

  /** The estimate a series supports. */
  function EstimateOf(
      run: seq<Reading>, span: Duration, maxGap: Duration, now: Instant, root: Root): Option<RateEstimate>
  {
    if NumSeconds(span) <= 0 || run == [] || now - run[|run| - 1].ts > maxGap then None
    else
      var stretch := Stretch(run, maxGap);
      Widen(stretch, FitterOf(ReadingQuantum(stretch), NumSeconds(span), root), RecentLookback(span), None)
  }

  function Estimate(
      w: EffectiveWindow, points: seq<QuotaSnapshot>, maxGap: Duration, now: Instant, root: Root): Option<RateEstimate>
  {
    EstimateOf(Series(w, points, now), w.Span(), maxGap, now, root)
  }

  method Select(w: EffectiveWindow, points: seq<QuotaSnapshot>, now: Instant) returns (run: seq<Reading>)
    ensures run == Series(w, points, now)
  {
    var matching: seq<Reading> := [];
    for i := 0 to |points|
      invariant matching == ReadingsOf(Filter(points[..i], Selects(w, now)))
    {
      assert points[..i + 1][..i] == points[..i];
      if Selects(w, now)(points[i]) {
        matching := matching + [ToReading(points[i])];
      }
    }
    assert points[..|points|] == points;
    run := Dedup(Sort(matching, Ts), Ts);
  }

  /** Walk back from the newest while each step can be read across. */
  method WalkBack(run: seq<Reading>, maxGap: Duration) returns (stretch: seq<Reading>)
    requires run != []
    ensures stretch == Stretch(run, maxGap)
  {
    var first := |run| - 1;
    while first > 0
      invariant 0 <= first < |run|
      invariant StretchFrom(run, first, maxGap) == StretchFrom(run, |run| - 1, maxGap)
    {
      if Breaks(run[first - 1], run[first], maxGap) {
        break;
      }
      first := first - 1;
    }
    stretch := run[first..];
  }

  /** Widen until the interval is readable, the stretch is exhausted, or the
      readings a widening would add rule the newer rate out. */
  method WidenLookback(stretch: seq<Reading>, fit: Fitter, lookback0: Duration)
    returns (r: Option<RateEstimate>)
    requires stretch != [] && lookback0 > 0
    ensures r == Widen(stretch, fit, lookback0, None)
  {
    var newest := stretch[|stretch| - 1].ts;
    var lookback := lookback0;
    var narrower: Option<RateEstimate> := None;
    while true
      invariant lookback > 0
      invariant Widen(stretch, fit, lookback, narrower)
             == Widen(stretch, fit, lookback0, None)
      decreases Beyond(stretch, lookback)
    {
      WidenUnfolds(stretch, fit, lookback, narrower);
      ghost var pass := OnePass(stretch, fit, lookback, narrower);
      var start := CountBelow(stretch, Ts, newest - lookback);
      PassOver(stretch, fit, lookback, narrower, start);
      var exhausted := start == 0;
      if narrower.Some? {
        var newer := narrower.value;
        var older := fit(Added(stretch, start, newer));
        if older.Some? && (older.value.high < newer.low || older.value.low > newer.high) {
          assert pass == Done(narrower);
          return Some(newer);
        }
      }
      var estimate := fit(stretch[start..]);
      if exhausted || (estimate.Some? && estimate.value.IsPrecise()) {
        assert pass == Done(estimate);
        return estimate;
      }
      assert pass == Again(estimate);
      narrower := estimate;
      lookback := lookback * 2;
    }
  }

  method EstimateRate(
      w: EffectiveWindow, points: seq<QuotaSnapshot>, maxGap: Duration, now: Instant, root: Root)
    returns (r: Option<RateEstimate>)
    ensures r == Estimate(w, points, maxGap, now, root)
  {
    var span := w.Span();
    if NumSeconds(span) <= 0 {
      return None;
    }
    var run := Select(w, points, now);
    if run == [] || now - run[|run| - 1].ts > maxGap {
      return None;
    }
    var stretch := WalkBack(run, maxGap);
    r := WidenLookback(stretch, FitterOf(ReadingQuantum(stretch), NumSeconds(span), root), RecentLookback(span));
  }
}
