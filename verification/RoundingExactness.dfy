/** A steady burn reported in rounded percent is inside the interval, but for
    what whole seconds round off. */
module RoundingExactness {
  import opened Time
  import opened Collections
  import opened Domain
  import opened Metrics
  import opened Estimator
  import opened EstimatorLaws

  datatype Rounding = Down | Nearest

  /** The steps providers report percent in. */
  type PercentStep = x: real | x == 1.0 || x == 0.5 || x == 0.1 witness 1.0

  function Published(x: real, step: PercentStep, rounding: Rounding): real {
    (if rounding == Down then (x / step).Floor else Round(x / step)) as real * step
  }

  function Secs(d: Duration): real {
    d as real / 1_000_000_000.0
  }

  /** What a slope a second adds up to. */
  function Burnt(slope: real, d: Duration): real {
    slope * Secs(d)
  }

  lemma BurntSplit(slope: real, m: Duration, n: Duration)
    ensures Burnt(slope, n) - Burnt(slope, m) == Burnt(slope, n - m)
  {
    var x, y, z := Secs(n), Secs(m), Secs(n - m);
    assert z == x - y;
    assert slope * z == slope * (x - y);
  }

  /** Truncating to seconds drops less than one, and nothing from whole seconds. */
  lemma Truncating(d: Duration)
    requires d >= 0
    ensures NumSeconds(d) as real <= Secs(d) < NumSeconds(d) as real + 1.0
    ensures WholeSeconds(d) <==> NumSeconds(d) as real == Secs(d)
  {
    var n := NumSeconds(d);
    assert n * SECOND <= d < n * SECOND + SECOND;
  }

  /** A constant burn: `base` percent at `origin` and `slope` percent a second,
      published in multiples of `step` percent. */
  datatype Burn = Burn(base: real, slope: real, origin: Instant, step: PercentStep, rounding: Rounding) {

    function At(ts: Instant): real {
      base + Burnt(slope, ts - origin)
    }
  }

  ghost predicate ValidBurn(b: Burn) {
    b.slope >= 0.0
  }

  /** A percent reading of a true figure no larger than the cap. */
  ghost predicate Shows(r: Reading, x: real, step: PercentStep, rounding: Rounding) {
    && 0.0 <= x <= 100.0
    && r.unit == Percent && r.used == Published(x, step, rounding)
    && UtilizationOf(r.unit, r.used, r.limit) == Some(r.ratio)
  }

  /** One reading of the burn, taken below the cap. */
  ghost predicate Reports(r: Reading, b: Burn) {
    Shows(r, b.At(r.ts), b.step, b.rounding)
  }

  /** Rounding moves a figure by less than a step down, or half a step either
      way, and never past the cap. */
  lemma PublishedError(x: real, step: PercentStep, rounding: Rounding)
    requires 0.0 <= x <= 100.0
    ensures rounding == Down ==> x - step < Published(x, step, rounding) <= x
    ensures rounding == Nearest ==> x - step / 2.0 <= Published(x, step, rounding) <= x + step / 2.0
    ensures 0.0 <= Published(x, step, rounding) <= 100.0
  {
    if step == 1.0 {
      WithinCap(x, 100);
      assert x / step == x;
    } else if step == 0.5 {
      WithinCap(2.0 * x, 200);
      assert x / step == 2.0 * x;
    } else {
      WithinCap(10.0 * x, 1000);
      assert x / step == 10.0 * x;
    }
  }

  lemma WithinCap(q: real, cap: int)
    requires 0.0 <= q <= cap as real
    ensures 0 <= q.Floor <= cap && 0 <= Round(q) <= cap
  {
    FloorAtMost(q, cap);
    FloorAtMost(q + 0.5, cap);
  }

  lemma FloorAtMost(q: real, cap: int)
    requires 0.0 <= q < cap as real + 1.0
    ensures 0 <= q.Floor <= cap
  {
    var f := q.Floor;
    assert f as real <= q < f as real + 1.0;
    assert f < cap + 1 && -1 < f;
  }

  lemma ClampInside(used: real)
    requires 0.0 <= used <= 100.0
    ensures Clamp01(used / 100.0) == used / 100.0
  {
    assert 0.0 <= used / 100.0;
    assert used / 100.0 <= 1.0;
  }

  lemma ShownDifference(first: Reading, last: Reading, x: real, y: real, step: PercentStep, rounding: Rounding)
    requires Shows(first, x, step, rounding) && Shows(last, y, step, rounding)
    ensures y - x - step <= 100.0 * (last.ratio - first.ratio) <= y - x + step
  {
    PublishedError(x, step, rounding);
    PublishedError(y, step, rounding);
    ClampInside(first.used);
    ClampInside(last.used);
  }

  /** The burn between two readings is within one step of the reported one. */
  lemma BurnWithinAStep(b: Burn, first: Reading, last: Reading)
    requires Reports(first, b) && Reports(last, b)
    ensures var burnt := Burnt(b.slope, last.ts - first.ts);
      burnt - b.step <= 100.0 * (last.ratio - first.ratio) <= burnt + b.step
  {
    ShownDifference(first, last, b.At(first.ts), b.At(last.ts), b.step, b.rounding);
    BurntSplit(b.slope, first.ts - b.origin, last.ts - b.origin);
  }

  /** The true rate on the scale estimates use. */
  function TruePace(b: Burn, spanSecs: int): real {
    MaxReal(b.slope / 100.0, 0.0) * spanSecs as real
  }

  ghost predicate Holds(e: RateEstimate, pace: real) {
    e.low <= pace <= e.high
  }

  /** The interval holds a pace but for the part of a second truncated from the
      time it was made over: its low end, over the whole seconds, burns no more
      than the pace does over all the time. */
  ghost predicate NearlyHolds(e: RateEstimate, pace: real) {
    pace <= e.high && e.low * NumSeconds(e.to - e.from) as real <= pace * Secs(e.to - e.from)
  }

  /** So it holds the pace over whole seconds, and misses it by less than one
      second's share of it over any others. */
  lemma NearlyIsNear(e: RateEstimate, pace: real)
    requires NearlyHolds(e, pace) && pace >= 0.0
    requires e.from <= e.to && NumSeconds(e.to - e.from) > 0
    ensures WholeSeconds(e.to - e.from) ==> Holds(e, pace)
    ensures e.low <= pace + pace / NumSeconds(e.to - e.from) as real
  {
    var (secs, elapsed) := (NumSeconds(e.to - e.from) as real, Secs(e.to - e.from));
    Truncating(e.to - e.from);
    ShortByUnderOne(e.low, pace, secs, elapsed);
    if WholeSeconds(e.to - e.from) {
      CancelFactor(e.low, pace, secs);
    }
  }

  lemma ShortByUnderOne(low: real, pace: real, secs: real, elapsed: real)
    requires 0.0 < secs <= elapsed < secs + 1.0 && pace >= 0.0 && low * secs <= pace * elapsed
    ensures low <= pace + pace / secs
  {
    calc {
      (low - pace) * secs;
      low * secs - pace * secs;
      <=
      pace * elapsed - pace * secs;
      (elapsed - secs) * pace;
      <= { Scaled(elapsed - secs, 1.0, pace); }
      pace;
    }
    AtMostShare(low - pace, pace, secs);
  }

  lemma AtMostShare(x: real, pace: real, secs: real)
    requires secs > 0.0 && x * secs <= pace
    ensures x <= pace / secs
  {
    var share := pace / secs;
    assert share * secs == pace;
    CancelFactor(x, share, secs);
  }

  /** The rates behind a fit made over `elapsed` seconds and divided by `secs`,
      with `half` no smaller than one step over `secs`. */
  lemma RatesNear(d: real, secs: real, elapsed: real, half: real, quantum: real, slope: real, step: real)
    requires 0.0 < secs <= elapsed && slope >= 0.0
    requires slope * elapsed - step <= 100.0 * d <= slope * elapsed + step
    requires half >= quantum / secs && 100.0 * quantum >= step
    ensures slope / 100.0 <= d / secs + half
    ensures (d / secs - half) * secs <= slope / 100.0 * elapsed
  {
    var rate, r, q := d / secs, slope / 100.0, quantum / secs;
    assert rate * secs == d && q * secs == quantum && 100.0 * r == slope;
    assert slope * elapsed == 100.0 * (r * elapsed);
    Scaled(secs, elapsed, r);
    CancelFactor(r, rate + q, secs);
    Scaled(rate - half, rate - q, secs);
  }

  /** On the scale of a window. */
  lemma IntervalNear(
      low: real, high: real, d: real, secs: real, elapsed: real, half: real, quantum: real, slope: real, step: real,
      span: real)
    requires 0.0 < secs <= elapsed && slope >= 0.0 && span >= 0.0
    requires slope * elapsed - step <= 100.0 * d <= slope * elapsed + step
    requires half >= quantum / secs && 100.0 * quantum >= step
    requires low == MaxReal(d / secs - half, 0.0) * span && high == MaxReal(d / secs + half, 0.0) * span
    ensures var pace := MaxReal(slope / 100.0, 0.0) * span; pace <= high && low * secs <= pace * elapsed
  {
    var r, rate := slope / 100.0, MaxReal(d / secs - half, 0.0);
    RatesNear(d, secs, elapsed, half, quantum, slope, step);
    Scaled(MaxReal(r, 0.0), MaxReal(d / secs + half, 0.0), span);
    Scaled(0.0, elapsed, r);
    assert rate * secs <= r * elapsed;
    Scaled(rate * secs, r * elapsed, span);
    Swapped(rate, span, secs);
    Swapped(r, span, elapsed);
  }

  lemma Swapped(a: real, b: real, c: real)
    ensures a * b * c == a * c * b
  {
  }

  lemma CancelFactor(a: real, b: real, k: real)
    requires k > 0.0 && a * k <= b * k
    ensures a <= b
  {
  }

  ghost predicate Steady(run: seq<Reading>, b: Burn) {
    ValidBurn(b) && StrictlySortedBy(run, Ts) && forall r <- run :: Reports(r, b)
  }

  /** Every two readings are whole seconds apart. */
  ghost predicate OnePhase(run: seq<Reading>) {
    forall r <- run, x <- run :: WholeSeconds(r.ts - x.ts)
  }

  /** A fit's ends, named by its half-width. */
  lemma FitEndsAt(run: seq<Reading>, quantum: real, spanSecs: int, spread: Spread, e: RateEstimate) returns (half: real)
    requires Fit(run, quantum, spanSecs as real, spread) == Some(e)
    ensures |run| >= 2
    ensures var secs := NumSeconds(run[|run| - 1].ts - run[0].ts);
      && secs > 0 && half >= quantum / secs as real
      && e.low == MaxReal((run[|run| - 1].ratio - run[0].ratio) / secs as real - half, 0.0) * spanSecs as real
      && e.high == MaxReal((run[|run| - 1].ratio - run[0].ratio) / secs as real + half, 0.0) * spanSecs as real
  {
    var elapsed := NumSeconds(run[|run| - 1].ts - run[0].ts) as real;
    var rate := (run[|run| - 1].ratio - run[0].ratio) / elapsed;
    half := MaxReal(spread(run, rate, elapsed), quantum / elapsed);
  }

  lemma EndsReport(run: seq<Reading>, b: Burn)
    requires Steady(run, b) && run != []
    ensures Reports(run[0], b) && Reports(run[|run| - 1], b) && run[0].ts <= run[|run| - 1].ts
  {
    assert |run| > 1 ==> Ts(run[0]) < Ts(run[|run| - 1]);
  }

  /** The run's reported rise is within a step of what was burnt over it. */
  ghost predicate RisesWithin(run: seq<Reading>, slope: real, step: real)
    requires run != []
  {
    var burnt := Burnt(slope, run[|run| - 1].ts - run[0].ts);
    burnt - step <= 100.0 * (run[|run| - 1].ratio - run[0].ratio) <= burnt + step
  }

  lemma SteadyRises(run: seq<Reading>, b: Burn)
    requires Steady(run, b) && run != []
    ensures RisesWithin(run, b.slope, b.step) && run[0].ts <= run[|run| - 1].ts
  {
    EndsReport(run, b);
    BurnWithinAStep(b, run[0], run[|run| - 1]);
  }

  lemma RisingFitHolds(run: seq<Reading>, b: Burn, quantum: real, spanSecs: int, spread: Spread, e: RateEstimate)
    requires run != [] && RisesWithin(run, b.slope, b.step) && b.slope >= 0.0
    requires 100.0 * quantum >= b.step && spanSecs >= 0
    requires run[0].ts <= run[|run| - 1].ts && Fit(run, quantum, spanSecs as real, spread) == Some(e)
    ensures NearlyHolds(e, TruePace(b, spanSecs)) && NumSeconds(e.to - e.from) > 0
  {
    var half := FitEndsAt(run, quantum, spanSecs, spread, e);
    IntervalOf(e, run[|run| - 1].ratio - run[0].ratio, half, quantum, b, spanSecs);
  }

  lemma IntervalOf(e: RateEstimate, d: real, half: real, quantum: real, b: Burn, spanSecs: int)
    requires e.from <= e.to && NumSeconds(e.to - e.from) > 0 && spanSecs >= 0 && b.slope >= 0.0
    requires var secs := NumSeconds(e.to - e.from) as real;
      && half >= quantum / secs && 100.0 * quantum >= b.step
      && e.low == MaxReal(d / secs - half, 0.0) * spanSecs as real
      && e.high == MaxReal(d / secs + half, 0.0) * spanSecs as real
    requires var burnt := Burnt(b.slope, e.to - e.from); burnt - b.step <= 100.0 * d <= burnt + b.step
    ensures NearlyHolds(e, TruePace(b, spanSecs))
  {
    Truncating(e.to - e.from);
    IntervalNear(e.low, e.high, d, NumSeconds(e.to - e.from) as real, Secs(e.to - e.from), half, quantum,
                 b.slope, b.step, spanSecs as real);
  }

  lemma PaceIsPositive(b: Burn, spanSecs: int)
    requires spanSecs >= 0
    ensures TruePace(b, spanSecs) >= 0.0
  {
  }

  /** Every fit of a steady burn contains its rate but for the truncated part of
      a second, whatever the scatter, and over whole seconds contains it. */
  lemma FitHolds(run: seq<Reading>, b: Burn, quantum: real, spanSecs: int, spread: Spread, e: RateEstimate)
    requires Steady(run, b) && 100.0 * quantum >= b.step && spanSecs >= 0
    requires Fit(run, quantum, spanSecs as real, spread) == Some(e)
    ensures NearlyHolds(e, TruePace(b, spanSecs)) && NumSeconds(e.to - e.from) > 0
    ensures WholeSeconds(e.to - e.from) ==> Holds(e, TruePace(b, spanSecs))
    ensures var pace := TruePace(b, spanSecs); e.low <= pace + pace / NumSeconds(e.to - e.from) as real
  {
    SteadyRises(run, b);
    RisingFitHolds(run, b, quantum, spanSecs, spread, e);
    PaceIsPositive(b, spanSecs);
    NearlyIsNear(e, TruePace(b, spanSecs));
  }

  /** The inferred resolution is never finer than the real one. */
  lemma QuantumCovers(run: seq<Reading>, b: Burn)
    requires run != [] && ValidBurn(b) && forall r <- run :: Reports(r, b)
    ensures 100.0 * ReadingQuantum(run) >= b.step
  {
    assert run[|run| - 1] in run;
    if b.step == 1.0 {
      forall r <- run ensures Round(r.used / 1.0) as real * 1.0 == r.used {
        WholeMultiple(b.At(r.ts), b.step, b.rounding);
      }
      assert FitsStep(run, 1.0);
    } else if b.step == 0.5 {
      forall r <- run ensures Round(r.used / 0.5) as real * 0.5 == r.used {
        WholeMultiple(b.At(r.ts), b.step, b.rounding);
      }
      assert FitsStep(run, 0.5);
    }
  }

  lemma WholeMultiple(x: real, step: PercentStep, rounding: Rounding)
    ensures var p := Published(x, step, rounding); Round(p / step) as real * step == p
  {
    var n := if rounding == Down then (x / step).Floor else Round(x / step);
    assert n as real * step / step == n as real;
    assert Round(n as real) == n;
  }

  /** An interval made off whole seconds, above the pace. */
  ghost predicate Misses(e: RateEstimate, pace: real) {
    e.low > pace && !WholeSeconds(e.to - e.from)
  }

  lemma SliceFitHolds(
      stretch: seq<Reading>, i: nat, j: nat, b: Burn, quantum: real, spanSecs: int, root: Root, e: RateEstimate)
    requires Steady(stretch, b) && i <= j <= |stretch| && 100.0 * quantum >= b.step && spanSecs >= 0
    requires FitterOf(quantum, spanSecs, root)(stretch[i..j]) == Some(e)
    ensures NearlyHolds(e, TruePace(b, spanSecs))
    ensures Holds(e, TruePace(b, spanSecs)) || Misses(e, TruePace(b, spanSecs))
  {
    FitHolds(stretch[i..j], b, quantum, spanSecs, SpreadOf(root), e);
  }

  ghost predicate SlicesHold(stretch: seq<Reading>, fit: Fitter, pace: real) {
    forall i, j :: 0 <= i <= j <= |stretch| && fit(stretch[i..j]).Some? ==> Holds(fit(stretch[i..j]).value, pace)
  }

  /** A tail of the stretch, and a start of that tail, are slices of it. */
  lemma TailsHold(stretch: seq<Reading>, fit: Fitter, pace: real, start: nat, n: nat)
    requires SlicesHold(stretch, fit, pace) && start + n <= |stretch|
    ensures var older := fit(stretch[start..][..n]); older.Some? ==> Holds(older.value, pace)
    ensures var tail := fit(stretch[start..]); tail.Some? ==> Holds(tail.value, pace)
  {
    assert stretch[start..][..n] == stretch[start..start + n];
    assert stretch[start..] == stretch[start..|stretch|];
  }

  ghost predicate MayHold(r: Option<RateEstimate>, pace: real) {
    r.Some? ==> Holds(r.value, pace)
  }

  /** The interval contains the true rate, and is precise or made over `whole`. */
  ghost predicate IsInside(r: Option<RateEstimate>, whole: Option<RateEstimate>, pace: real) {
    match r
    case Some(e) => Holds(e, pace) && (e.IsPrecise() || r == whole)
    case None => whole.None?
  }

  ghost predicate PassIsInside(pass: Pass, whole: Option<RateEstimate>, pace: real) {
    match pass
    case Done(r) => IsInside(r, whole, pace)
    case Again(estimate) => MayHold(estimate, pace)
  }

  /** Two intervals that both hold one rate are never disjoint, so no widening
      is stopped by what it would add. */
  lemma NoRegimeStop(
      stretch: seq<Reading>, fit: Fitter, narrower: Option<RateEstimate>, pace: real, start: nat)
    requires SlicesHold(stretch, fit, pace) && MayHold(narrower, pace) && start <= |stretch|
    ensures !RegimeStop(stretch, start, narrower, fit)
  {
    var n := if narrower.Some? then CountBelow(stretch[start..], Ts, narrower.value.from + 1) else 0;
    TailsHold(stretch, fit, pace, start, n);
  }

  /** So a pass stops only where it is precise or has nothing left to add. */
  lemma HoldingPass(
      stretch: seq<Reading>, fit: Fitter, lookback: Duration, narrower: Option<RateEstimate>, pace: real, start: nat)
    requires stretch != [] && start == CountBelow(stretch, Ts, stretch[|stretch| - 1].ts - lookback)
    requires MayHold(fit(stretch[start..]), pace) && !RegimeStop(stretch, start, narrower, fit)
    ensures PassIsInside(OnePass(stretch, fit, lookback, narrower), fit(stretch), pace)
  {
    PassOver(stretch, fit, lookback, narrower, start);
    assert start == 0 ==> stretch[start..] == stretch;
  }

  lemma PassHolds(
      stretch: seq<Reading>, fit: Fitter, lookback: Duration, narrower: Option<RateEstimate>, pace: real)
    requires stretch != [] && SlicesHold(stretch, fit, pace) && MayHold(narrower, pace)
    ensures PassIsInside(OnePass(stretch, fit, lookback, narrower), fit(stretch), pace)
  {
    var start := CountBelow(stretch, Ts, stretch[|stretch| - 1].ts - lookback);
    NoRegimeStop(stretch, fit, narrower, pace, start);
    TailsHold(stretch, fit, pace, start, 0);
    HoldingPass(stretch, fit, lookback, narrower, pace, start);
  }

  lemma {:induction false} WidenHolds(
      stretch: seq<Reading>, fit: Fitter, lookback: Duration, narrower: Option<RateEstimate>, pace: real)
    requires stretch != [] && lookback > 0
    requires SlicesHold(stretch, fit, pace) && MayHold(narrower, pace)
    ensures IsInside(Widen(stretch, fit, lookback, narrower), fit(stretch), pace)
    decreases Beyond(stretch, lookback)
  {
    WidenUnfolds(stretch, fit, lookback, narrower);
    PassHolds(stretch, fit, lookback, narrower, pace);
    var pass := OnePass(stretch, fit, lookback, narrower);
    if pass.Again? {
      WidenHolds(stretch, fit, lookback * 2, pass.narrower, pace);
    }
  }

  lemma SteadySlices(run: seq<Reading>, b: Burn, quantum: real, spanSecs: int, root: Root)
    requires Steady(run, b) && OnePhase(run) && 100.0 * quantum >= b.step && spanSecs >= 0
    ensures SlicesHold(run, FitterOf(quantum, spanSecs, root), TruePace(b, spanSecs))
  {
    var fit, pace := FitterOf(quantum, spanSecs, root), TruePace(b, spanSecs);
    forall i, j | 0 <= i <= j <= |run| && fit(run[i..j]).Some? ensures Holds(fit(run[i..j]).value, pace) {
      SliceInPhase(run, i, j, b, quantum, spanSecs, root);
    }
  }

  lemma SliceInPhase(run: seq<Reading>, i: nat, j: nat, b: Burn, quantum: real, spanSecs: int, root: Root)
    requires Steady(run, b) && OnePhase(run) && 100.0 * quantum >= b.step && spanSecs >= 0
    requires i <= j <= |run| && FitterOf(quantum, spanSecs, root)(run[i..j]).Some?
    ensures Holds(FitterOf(quantum, spanSecs, root)(run[i..j]).value, TruePace(b, spanSecs))
  {
    var e := FitterOf(quantum, spanSecs, root)(run[i..j]).value;
    SliceFitHolds(run, i, j, b, quantum, spanSecs, root, e);
    FitEndsOn(run[i..j], quantum, spanSecs, root, e);
    EndsInPhase(run, i, j);
  }

  lemma FitEndsOn(run: seq<Reading>, quantum: real, spanSecs: int, root: Root, e: RateEstimate)
    requires FitterOf(quantum, spanSecs, root)(run) == Some(e)
    ensures run != [] && e.from == run[0].ts && e.to == run[|run| - 1].ts
  {
  }

  lemma EndsInPhase(run: seq<Reading>, i: nat, j: nat)
    requires OnePhase(run) && i < j <= |run|
    ensures var slice := run[i..j]; WholeSeconds(slice[|slice| - 1].ts - slice[0].ts)
  {
    assert run[i] in run && run[j - 1] in run;
  }

  lemma SteadyStretchIsInside(stretch: seq<Reading>, span: Duration, root: Root, b: Burn)
    requires stretch != [] && Steady(stretch, b) && OnePhase(stretch) && NumSeconds(span) > 0
    ensures var fit := FitterOf(ReadingQuantum(stretch), NumSeconds(span), root);
      IsInside(Widen(stretch, fit, RecentLookback(span), None), fit(stretch), TruePace(b, NumSeconds(span)))
  {
    QuantumCovers(stretch, b);
    SteadySlices(stretch, b, ReadingQuantum(stretch), NumSeconds(span), root);
    WidenHolds(stretch, FitterOf(ReadingQuantum(stretch), NumSeconds(span), root), RecentLookback(span), None,
               TruePace(b, NumSeconds(span)));
  }

  /** Over a steady stretch read at whole seconds apart the regime stop never
      fires, at any doubling. */
  lemma SteadyIsNeverContradicted(run: seq<Reading>, span: Duration, maxGap: Duration, root: Root, b: Burn, j: nat)
    requires run != [] && NumSeconds(span) > 0
    requires Steady(Stretch(run, maxGap), b) && OnePhase(Stretch(run, maxGap))
    ensures !Contradicted(Stretch(run, maxGap), FitterFor(run, span, maxGap, root), RecentLookback(span), j)
  {
    var stretch, pace := Stretch(run, maxGap), TruePace(b, NumSeconds(span));
    QuantumCovers(stretch, b);
    SteadySlices(stretch, b, ReadingQuantum(stretch), NumSeconds(span), root);
    HoldingIsNeverContradicted(stretch, FitterFor(run, span, maxGap, root), RecentLookback(span), pace, j);
  }

  lemma HoldingIsNeverContradicted(stretch: seq<Reading>, fit: Fitter, first: Duration, pace: real, j: nat)
    requires stretch != [] && SlicesHold(stretch, fit, pace)
    ensures !Contradicted(stretch, fit, first, j)
  {
    if j > 0 {
      TailsHold(stretch, fit, pace, StartAt(stretch, first, j - 1), 0);
    }
    NoRegimeStop(stretch, fit, FitBefore(stretch, fit, first, j), pace, StartAt(stretch, first, j));
  }

  lemma SteadySeries(w: EffectiveWindow, points: seq<QuotaSnapshot>, maxGap: Duration, now: Instant, b: Burn)
    requires ValidBurn(b)
    requires forall p <- points :: Selects(w, now)(p) ==> Reports(ToReading(p), b)
    requires Series(w, points, now) != []
    ensures Steady(Stretch(Series(w, points, now), maxGap), b)
  {
    SeriesShape(w, points, now);
    var run := Series(w, points, now);
    forall r <- run ensures Reports(r, b) {
      assert Offers(w, points, now, r);
    }
    SteadyTail(run, StretchFrom(run, |run| - 1, maxGap), b);
  }

  lemma SteadyTail(run: seq<Reading>, first: nat, b: Burn)
    requires first <= |run| && Steady(run, b)
    ensures Steady(run[first..], b)
  {
  }

  /** No estimate was to be had: the window has no span, or the newest reading
      is too old. */
  predicate NothingToGoOn(run: seq<Reading>, span: Duration, maxGap: Duration, now: Instant)
    requires run != []
  {
    NumSeconds(span) <= 0 || now - run[|run| - 1].ts > maxGap
  }

  /** The fit of the whole unbroken stretch. */
  function WholeFit(run: seq<Reading>, span: Duration, maxGap: Duration, root: Root): Option<RateEstimate>
    requires run != []
  {
    FitterFor(run, span, maxGap, root)(Stretch(run, maxGap))
  }

  lemma SteadyRunIsInside(run: seq<Reading>, span: Duration, maxGap: Duration, now: Instant, root: Root, b: Burn)
    requires run != [] && Steady(Stretch(run, maxGap), b) && OnePhase(Stretch(run, maxGap))
    ensures var r := EstimateOf(run, span, maxGap, now, root);
      if NothingToGoOn(run, span, maxGap, now) then r.None?
      else IsInside(r, WholeFit(run, span, maxGap, root), TruePace(b, NumSeconds(span)))
  {
    if !NothingToGoOn(run, span, maxGap, now) {
      SteadyStretchIsInside(Stretch(run, maxGap), span, root, b);
    }
  }

  /** Rounding exactness: for any steady burn below the cap, however it is
      rounded, read at whole seconds apart, the interval contains the true rate;
      and the estimate is either precise or made over the whole unbroken stretch. */
  lemma SteadyBurnIsInside(
      w: EffectiveWindow, points: seq<QuotaSnapshot>, maxGap: Duration, now: Instant, root: Root, b: Burn)
    requires ValidBurn(b)
    requires forall p <- points :: Selects(w, now)(p) ==> Reports(ToReading(p), b)
    requires Series(w, points, now) != [] && OnePhase(Stretch(Series(w, points, now), maxGap))
    ensures var r := Estimate(w, points, maxGap, now, root);
      if NothingToGoOn(Series(w, points, now), w.Span(), maxGap, now) then r.None?
      else IsInside(r, WholeFit(Series(w, points, now), w.Span(), maxGap, root), TruePace(b, NumSeconds(w.Span())))
  {
    SteadySeries(w, points, maxGap, now, b);
    SteadyRunIsInside(Series(w, points, now), w.Span(), maxGap, now, root, b);
  }

  // ----- at any instants

  /** The readings a widening adds are a slice of the stretch. */
  lemma AddedIsASlice(stretch: seq<Reading>, start: nat, newer: RateEstimate) returns (j: nat)
    requires start <= |stretch|
    ensures start <= j <= |stretch| && Added(stretch, start, newer) == stretch[start..j]
  {
    var n := CountBelow(stretch[start..], Ts, newer.from + 1);
    assert stretch[start..][..n] == stretch[start..start + n];
    j := start + n;
  }

  /** Two disjoint intervals of one steady burn: one of them misses it. */
  ghost predicate OneMisses(newer: RateEstimate, older: RateEstimate, pace: real) {
    || (older.high < newer.low && Misses(newer, pace))
    || (older.low > newer.high && Misses(older, pace))
  }

  /** At any instants, the regime stop fires on a steady stretch only where the
      truncated part of a second makes an interval miss the rate. */
  lemma ContradictionIsTruncation(
      stretch: seq<Reading>, first: Duration, j: nat, b: Burn, spanSecs: int, root: Root)
    requires stretch != [] && Steady(stretch, b) && spanSecs > 0
    requires Contradicted(stretch, FitterOf(ReadingQuantum(stretch), spanSecs, root), first, j)
    ensures var fit := FitterOf(ReadingQuantum(stretch), spanSecs, root);
      var newer := FitBefore(stretch, fit, first, j);
      newer.Some? &&
      var older := fit(Added(stretch, StartAt(stretch, first, j), newer.value));
      older.Some? && OneMisses(newer.value, older.value, TruePace(b, spanSecs))
  {
    var quantum := ReadingQuantum(stretch);
    var fit := FitterOf(quantum, spanSecs, root);
    QuantumCovers(stretch, b);
    var newer, start := FitBefore(stretch, fit, first, j).value, StartAt(stretch, first, j);
    var before := StartAt(stretch, first, j - 1);
    TailIsASlice(stretch, before);
    SliceFitHolds(stretch, before, |stretch|, b, quantum, spanSecs, root, newer);
    var k := AddedIsASlice(stretch, start, newer);
    var older := fit(stretch[start..k]).value;
    SliceFitHolds(stretch, start, k, b, quantum, spanSecs, root, older);
    DisjointMisses(newer, older, TruePace(b, spanSecs));
  }

  lemma TailIsASlice(stretch: seq<Reading>, start: nat)
    requires start <= |stretch|
    ensures stretch[start..] == stretch[start..|stretch|]
  {
  }

  lemma DisjointMisses(newer: RateEstimate, older: RateEstimate, pace: real)
    requires Disjoint(older, newer)
    requires NearlyHolds(newer, pace) && (Holds(newer, pace) || Misses(newer, pace))
    requires NearlyHolds(older, pace) && (Holds(older, pace) || Misses(older, pace))
    ensures OneMisses(newer, older, pace)
  {
  }

  /** What an estimate says of a steady burn read at any instants. */
  ghost predicate IsNear(e: RateEstimate, pace: real) {
    NearlyHolds(e, pace) && (WholeSeconds(e.to - e.from) ==> Holds(e, pace))
  }

  lemma FitOfASlice(stretch: seq<Reading>, fit: Fitter, lookback: Duration, e: RateEstimate) returns (s: nat)
    requires stretch != [] && lookback > 0 && Widen(stretch, fit, lookback, None) == Some(e) && fit([]).None?
    ensures s <= |stretch| && fit(stretch[s..|stretch|]) == Some(e)
  {
    WidenFitsASuffix(stretch, fit, lookback, None);
    s :| FitsSuffix(stretch, s, fit, e);
    assert stretch[s..] == stretch[s..|stretch|];
  }

  lemma SteadyWidening(stretch: seq<Reading>, span: Duration, root: Root, b: Burn, e: RateEstimate)
    requires stretch != [] && Steady(stretch, b) && NumSeconds(span) > 0
    requires var fit := FitterOf(ReadingQuantum(stretch), NumSeconds(span), root);
      Widen(stretch, fit, RecentLookback(span), None) == Some(e)
    ensures IsNear(e, TruePace(b, NumSeconds(span)))
  {
    var fit := FitterOf(ReadingQuantum(stretch), NumSeconds(span), root);
    QuantumCovers(stretch, b);
    var s := FitOfASlice(stretch, fit, RecentLookback(span), e);
    SliceFitHolds(stretch, s, |stretch|, b, ReadingQuantum(stretch), NumSeconds(span), root, e);
  }

  /** For any steady burn below the cap, however it is rounded and whenever it is
      read, every interval returned holds the true rate but for the truncated
      part of a second, and holds it if its two ends are whole seconds apart. */
  lemma SteadyBurnIsNearlyInside(
      w: EffectiveWindow, points: seq<QuotaSnapshot>, maxGap: Duration, now: Instant, root: Root, b: Burn,
      e: RateEstimate)
    requires ValidBurn(b)
    requires forall p <- points :: Selects(w, now)(p) ==> Reports(ToReading(p), b)
    requires Estimate(w, points, maxGap, now, root) == Some(e)
    ensures IsNear(e, TruePace(b, NumSeconds(w.Span())))
  {
    SteadySeries(w, points, maxGap, now, b);
    SteadyWidening(Stretch(Series(w, points, now), maxGap), w.Span(), root, b, e);
  }

  /** And it is precise, or made over the whole unbroken stretch, or was stopped
      by an interval that misses the rate. */
  lemma SteadyBurnStops(
      run: seq<Reading>, span: Duration, maxGap: Duration, now: Instant, root: Root, b: Burn) returns (m: nat)
    requires run != [] && NumSeconds(span) > 0 && now - run[|run| - 1].ts <= maxGap
    requires Steady(Stretch(run, maxGap), b)
    ensures var stretch, fit := Stretch(run, maxGap), FitterFor(run, span, maxGap, root);
      var r, pace := EstimateOf(run, span, maxGap, now, root), TruePace(b, NumSeconds(span));
      || r == WholeFit(run, span, maxGap, root)
      || (r.Some? && r.value.IsPrecise())
      || (r.Some? && r == FitBefore(stretch, fit, RecentLookback(span), m)
          && var older := fit(Added(stretch, StartAt(stretch, RecentLookback(span), m), r.value));
             older.Some? && OneMisses(r.value, older.value, pace))
  {
    m := StopsAtTheFirstReason(run, span, maxGap, now, root);
    var stretch, fit := Stretch(run, maxGap), FitterFor(run, span, maxGap, root);
    if Contradicted(stretch, fit, RecentLookback(span), m) {
      ContradictionIsTruncation(stretch, RecentLookback(span), m, b, NumSeconds(span), root);
    } else if StartAt(stretch, RecentLookback(span), m) == 0 {
      assert stretch[0..] == stretch;
    }
  }
}
