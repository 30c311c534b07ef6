/** What an estimate's numbers are, in the readings' own terms. */
module EstimateMeaning {
  import opened Time
  import opened Collections
  import opened Domain
  import opened Metrics
  import opened Estimator
  import opened EstimatorLaws

  // ----- the three rates

  /** Over the whole seconds from its first reading to its last, the pace burns
      what usage rose by, or nothing if it fell; and the ends of the interval burn
      `half` less and `half` more, or nothing. */
  ghost predicate Burns(e: RateEstimate, rise: real, half: real, spanSecs: int) {
    BurnsOver(e, rise, half, NumSeconds(e.to - e.from) as real, spanSecs as real)
  }

  ghost predicate BurnsOver(e: RateEstimate, rise: real, half: real, secs: real, span: real) {
    && e.pace * secs == MaxReal(rise, 0.0) * span
    && e.low * secs == MaxReal(rise - half, 0.0) * span
    && e.high * secs == MaxReal(rise + half, 0.0) * span
  }

  /** What an estimate over these readings says of them, give or take `half`. */
  ghost predicate ReadsWithin(e: RateEstimate, run: seq<Reading>, spanSecs: int, half: real) {
    && |run| >= 2 && e.readings == |run|
    && e.from == run[0].ts && e.to == run[|run| - 1].ts && NumSeconds(e.to - e.from) >= 300
    && 0.0 <= e.low <= e.pace <= e.high
    && half >= e.quantum && Burns(e, run[|run| - 1].ratio - run[0].ratio, half, spanSecs)
  }

  ghost predicate Reads(e: RateEstimate, run: seq<Reading>, spanSecs: int) {
    exists half: real :: ReadsWithin(e, run, spanSecs, half)
  }

  /** The three rates before they are stated over the readings. */
  ghost predicate EndsAt(e: RateEstimate, rate: real, half: real, span: real) {
    && e.pace == MaxReal(rate, 0.0) * span
    && e.low == MaxReal(rate - half, 0.0) * span
    && e.high == MaxReal(rate + half, 0.0) * span
  }

  ghost predicate IsFitted(run: seq<Reading>, e: RateEstimate, quantum: real) {
    && |run| >= 2 && e.readings == |run| && e.quantum == quantum
    && e.from == run[0].ts && e.to == run[|run| - 1].ts && NumSeconds(e.to - e.from) >= 300
  }

  /** A fit's numbers: the half-width is the larger of one reporting step and what
      the scatter leaves undecided. */
  lemma FitIs(run: seq<Reading>, quantum: real, span: real, spread: Spread, e: RateEstimate)
    returns (secs: real, rise: real, rate: real, step: real)
    requires Fit(run, quantum, span, spread) == Some(e)
    ensures IsFitted(run, e, quantum) && rise == run[|run| - 1].ratio - run[0].ratio
    ensures secs == NumSeconds(e.to - e.from) as real && secs > 0.0
    ensures rate == rise / secs && step == quantum / secs
    ensures EndsAt(e, rate, MaxReal(spread(run, rate, secs), step), span)
  {
    secs := NumSeconds(e.to - e.from) as real;
    rise := run[|run| - 1].ratio - run[0].ratio;
    rate := rise / secs;
    step := quantum / secs;
  }

  lemma DivTimes(a: real, b: real)
    requires b > 0.0
    ensures a / b * b == a
  {
  }

  lemma TimesOver(x: real, secs: real, span: real, total: real)
    requires secs > 0.0 && x * secs == total
    ensures MaxReal(x, 0.0) * span * secs == MaxReal(total, 0.0) * span
  {
    if x < 0.0 {
      assert total < 0.0;
    } else {
      assert total >= 0.0;
      assert x * span * secs == x * secs * span;
    }
  }

  lemma OverItsSeconds(e: RateEstimate, rise: real, secs: real, rate: real, half: real, total: real, span: real)
    requires EndsAt(e, rate, half, span) && secs > 0.0 && rate * secs == rise && half * secs == total
    ensures BurnsOver(e, rise, total, secs, span)
  {
    Distribute(rate, half, secs, rise, total);
    TimesOver(rate, secs, span, rise);
    TimesOver(rate - half, secs, span, rise - total);
    TimesOver(rate + half, secs, span, rise + total);
  }

  lemma Distribute(a: real, b: real, k: real, x: real, y: real)
    requires a * k == x && b * k == y
    ensures (a - b) * k == x - y && (a + b) * k == x + y
  {
  }

  lemma RatesInOrder(e: RateEstimate, rate: real, half: real, span: real)
    requires EndsAt(e, rate, half, span) && half >= 0.0 && span >= 0.0
    ensures 0.0 <= e.low <= e.pace <= e.high
  {
    Scaled(0.0, MaxReal(rate - half, 0.0), span);
    Scaled(MaxReal(rate - half, 0.0), MaxReal(rate, 0.0), span);
    Scaled(MaxReal(rate, 0.0), MaxReal(rate + half, 0.0), span);
  }

  /** Only the half-width is the scatter's: what the rates are over the seconds. */
  lemma OverTheRun(run: seq<Reading>, e: RateEstimate, secs: real, rise: real, rate: real, half: real, span: real)
    requires IsFitted(run, e, e.quantum) && secs > 0.0 && rise == run[|run| - 1].ratio - run[0].ratio
    requires rate == rise / secs && EndsAt(e, rate, half, span)
    ensures BurnsOver(e, rise, half * secs, secs, span)
  {
    DivTimes(rise, secs);
    OverItsSeconds(e, rise, secs, rate, half, half * secs, span);
  }

  lemma HalfAStep(half: real, step: real, secs: real, quantum: real)
    requires secs > 0.0 && step == quantum / secs && half >= step && quantum >= 0.0
    ensures half >= 0.0 && half * secs >= quantum && (half == step ==> half * secs == quantum)
  {
    DivTimes(quantum, secs);
    StepIsShort(step, secs);
    Scaled(step, half, secs);
  }

  lemma StepIsShort(step: real, secs: real)
    requires secs > 0.0 && step * secs >= 0.0
    ensures step >= 0.0
  {
  }

  lemma FitReads(run: seq<Reading>, quantum: real, spanSecs: nat, spread: Spread, e: RateEstimate)
    requires Fit(run, quantum, spanSecs as real, spread) == Some(e) && quantum >= 0.0
    ensures Reads(e, run, spanSecs) && e.quantum == quantum
  {
    var secs, rise, rate, step := FitIs(run, quantum, spanSecs as real, spread, e);
    var half := MaxReal(spread(run, rate, secs), step);
    HalfAStep(half, step, secs, quantum);
    RatesInOrder(e, rate, half, spanSecs as real);
    OverTheRun(run, e, secs, rise, rate, half, spanSecs as real);
    assert ReadsWithin(e, run, spanSecs, half * secs);
  }

  lemma QuantumIsPositive(run: seq<Reading>)
    requires run != []
    ensures ReadingQuantum(run) > 0.0
  {
  }

  /** No step between these readings is longer than the gap tolerance or falls by
      more than half a percent. */
  ghost predicate IsUnbroken(run: seq<Reading>, maxGap: Duration) {
    forall k :: 0 < k < |run| ==> run[k].ts - run[k - 1].ts <= maxGap && run[k - 1].ratio - run[k].ratio <= 0.005
  }

  lemma UnbrokenTail(run: seq<Reading>, s: nat, fit: Fitter, e: RateEstimate, maxGap: Duration)
    requires UnbrokenFit(run, s, fit, e, maxGap)
    ensures IsUnbroken(run[s..], maxGap)
  {
    forall k | 0 < k < |run[s..]|
      ensures run[s..][k].ts - run[s..][k - 1].ts <= maxGap && run[s..][k - 1].ratio - run[s..][k].ratio <= 0.005
    {
      assert !Breaks(run[s + k - 1], run[s + k], maxGap);
    }
  }

  /** Any estimate reads the newest part of its window's series: the readings from
      `from` on, at least two over at least 300 seconds, the newest no older than
      the gap tolerance, no step of them a hole or a fall; and its rates are what
      they rose by. */
  lemma EstimateReadsTheSeries(
      w: EffectiveWindow, points: seq<QuotaSnapshot>, maxGap: Duration, now: Instant, root: Root, e: RateEstimate)
    returns (s: nat)
    requires Estimate(w, points, maxGap, now, root) == Some(e)
    ensures var run := Series(w, points, now);
      && s < |run| && Reads(e, run[s..], NumSeconds(w.Span())) && IsUnbroken(run[s..], maxGap)
      && now - e.to <= maxGap && NumSeconds(w.Span()) > 0
  {
    EstimateFitsTheRecentEnd(w, points, maxGap, now, root, e);
    var run := Series(w, points, now);
    var fit := FitterFor(run, w.Span(), maxGap, root);
    s :| UnbrokenFit(run, s, fit, e, maxGap);
    UnbrokenTail(run, s, fit, e, maxGap);
    QuantumIsPositive(Stretch(run, maxGap));
    FitReads(run[s..], ReadingQuantum(Stretch(run, maxGap)), NumSeconds(w.Span()), SpreadOf(root), e);
  }

  // ----- which readings

  /** A snapshot is read if it is of the window, was taken since it began and not
      after now, carries its reset to within two minutes, and can be scaled. */
  lemma SelectedExactly(w: EffectiveWindow, now: Instant, p: QuotaSnapshot)
    ensures Selects(w, now)(p) <==>
      && p.window == w.window && w.start <= p.ts && p.ts <= now
      && p.resetAt.Some? && -120 * 1_000_000_000 <= p.resetAt.value - w.resetAt <= 120 * 1_000_000_000
      && (p.unit == Percent || (p.limit.Some? && p.limit.value > 0.0))
  {
  }

  /** And read as its share of the quota, no more than all of it. */
  lemma ReadAsAShare(p: QuotaSnapshot)
    requires p.used >= 0.0
    ensures p.unit == Percent ==> ToReading(p).ratio * 100.0 == (if p.used <= 100.0 then p.used else 100.0)
    ensures p.unit != Percent && p.limit.Some? && p.limit.value > 0.0 ==>
      ToReading(p).ratio * p.limit.value == (if p.used <= p.limit.value then p.used else p.limit.value)
    ensures ToReading(p).ts == p.ts && ToReading(p).used == p.used
  {
    if p.unit != Percent && p.limit.Some? && p.limit.value > 0.0 {
      ShareOf(p.used, p.limit.value);
    }
  }

  lemma ShareOf(used: real, limit: real)
    requires used >= 0.0 && limit > 0.0
    ensures Clamp01(used / limit) * limit == if used <= limit then used else limit
  {
    var x := used / limit;
    DivTimes(used, limit);
    assert x >= 0.0;
    if x > 1.0 {
      assert (x - 1.0) * limit > 0.0;
    } else {
      Scaled(x, 1.0, limit);
    }
  }

  /** The stretch ends where a step is too long or falls by more than half a
      percent, and nowhere else. */
  lemma BreaksExactly(prev: Reading, next: Reading, maxGap: Duration)
    ensures Breaks(prev, next, maxGap) <==> next.ts - prev.ts > maxGap || prev.ratio - next.ratio > 0.005
  {
  }

  // ----- how far back

  /** The first look is a tenth of the window in whole seconds, but never under 15
      minutes nor over 12 hours: 30 minutes of a 5-hour window, 12 hours of a week. */
  lemma FirstLook(span: Duration)
    requires span >= 0
    ensures var secs := RecentLookback(span) / 1_000_000_000;
      && RecentLookback(span) == secs * 1_000_000_000 && 15 * 60 <= secs <= 12 * 3600
      && (15 * 60 < secs < 12 * 3600 ==> 10 * secs <= NumSeconds(span) < 10 * (secs + 1))
      && (secs == 15 * 60 ==> NumSeconds(span) < 10 * (secs + 1))
      && (secs == 12 * 3600 ==> 10 * secs <= NumSeconds(span))
    ensures RecentLookback(5 * 3600 * 1_000_000_000) == 30 * 60 * 1_000_000_000
    ensures RecentLookback(7 * 86_400 * 1_000_000_000) == 12 * 3600 * 1_000_000_000
  {
  }

  /** Precise is three readings or more and an interval no wider than a quarter of
      the affordable rate, or of its own. */
  lemma PreciseExactly(e: RateEstimate)
    ensures e.IsPrecise() <==> e.readings >= 3 && (e.high - e.low <= 0.25 || 4.0 * (e.high - e.low) <= e.pace)
  {
  }

  /** What a wider look adds are its readings up to the newer fit's first, that one
      included. */
  lemma AddedExactly(stretch: seq<Reading>, start: nat, newer: RateEstimate, k: nat)
    requires start <= |stretch| && StrictlySortedBy(stretch, Ts) && start + k < |stretch|
    ensures k < |Added(stretch, start, newer)| <==> stretch[start + k].ts <= newer.from
    ensures k < |Added(stretch, start, newer)| ==> Added(stretch, start, newer)[k] == stretch[start + k]
  {
    var n := CountBelow(stretch[start..], Ts, newer.from + 1);
    if k >= n {
      assert Ts(stretch[start + n]) <= Ts(stretch[start + k]);
    } else {
      assert Ts(stretch[start..][k]) < newer.from + 1;
    }
  }

  /** A look takes in the readings no older than it, counted from the newest. */
  lemma LookExactly(stretch: seq<Reading>, first: Duration, j: nat, k: nat)
    requires StrictlySortedBy(stretch, Ts) && k < |stretch|
    ensures StartAt(stretch, first, j) <= k <==> stretch[|stretch| - 1].ts - stretch[k].ts <= Lookback(first, j)
  {
    var floor := stretch[|stretch| - 1].ts - Lookback(first, j);
    var start := StartAt(stretch, first, j);
    if start <= k {
      assert Ts(stretch[start]) <= Ts(stretch[k]);
    } else {
      assert Ts(stretch[k]) < floor;
    }
  }

  /** Two fits contradict each other exactly if no rate is in both. */
  lemma DisjointExactly(a: RateEstimate, b: RateEstimate)
    requires a.low <= a.high && b.low <= b.high
    ensures Disjoint(a, b) <==> !exists x: real :: InBoth(a, b, x)
  {
    assert InBoth(a, b, MaxReal(a.low, b.low)) || Disjoint(a, b);
  }

  predicate InBoth(a: RateEstimate, b: RateEstimate, x: real) {
    a.low <= x <= a.high && b.low <= x <= b.high
  }

  // ----- the reporting step

  /** Each reading is within a millionth of a multiple of the step. */
  ghost predicate OnGrid(run: seq<Reading>, step: real) {
    forall r <- run :: exists n: int :: NearMultiple(r.used, n, step)
  }

  predicate NearMultiple(used: real, n: int, step: real) {
    -0.000001 < n as real * step - used < 0.000001
  }

  lemma {:induction false} GridIsFit(run: seq<Reading>, step: real)
    requires step == 1.0 || step == 0.5
    ensures FitsStep(run, step) <==> OnGrid(run, step)
  {
    forall r <- run {
      NearestIsRound(r.used, step);
    }
    if FitsStep(run, step) {
      forall r <- run ensures exists n: int :: NearMultiple(r.used, n, step) {
        assert NearMultiple(r.used, Round(r.used / step), step);
      }
    }
  }

  lemma NearestIsRound(used: real, step: real)
    requires step == 1.0 || step == 0.5
    ensures forall n: int :: NearMultiple(used, n, step) ==> n == Round(used / step)
  {
    forall n: int | NearMultiple(used, n, step) ensures n == Round(used / step) {
      var x := used / step;
      assert step == 1.0 ==> x == used;
      assert step == 0.5 ==> x == 2.0 * used;
      assert n as real - 0.5 < x < n as real + 0.5;
      RoundNear(x, n);
    }
  }

  lemma RoundNear(x: real, n: int)
    requires n as real - 0.5 < x < n as real + 0.5
    ensures Round(x) == n
  {
    var (up, down) := ((x + 0.5).Floor, (-x + 0.5).Floor);
    assert up as real <= x + 0.5 < up as real + 1.0;
    assert down as real <= -x + 0.5 < down as real + 1.0;
    assert up < n + 1 && n < up + 1;
    assert down < -n + 1 && -n < down + 1;
  }

  /** What a reading's shares are of: a hundred, or its counted limit. */
  function FullScale(r: Reading): (scale: real)
    ensures scale > 0.0
  {
    if r.unit != Percent && r.limit.Some? && r.limit.value > 0.0 then r.limit.value else 100.0
  }

  /** The step is the coarsest of one, a half and a tenth that all readings are
      on, a tenth if none is, over the newest reading's scale. */
  lemma StepExactly(run: seq<Reading>)
    requires run != []
    ensures ReadingQuantum(run) * FullScale(run[|run| - 1])
         == if OnGrid(run, 1.0) then 1.0 else if OnGrid(run, 0.5) then 0.5 else 0.1
  {
    GridIsFit(run, 1.0);
    GridIsFit(run, 0.5);
    StepOver(run);
  }

  lemma StepOver(run: seq<Reading>)
    requires run != []
    ensures ReadingQuantum(run) * FullScale(run[|run| - 1])
         == if FitsStep(run, 1.0) then 1.0 else if FitsStep(run, 0.5) then 0.5 else 0.1
  {
    DivTimes(if FitsStep(run, 1.0) then 1.0 else if FitsStep(run, 0.5) then 0.5 else 0.1, FullScale(run[|run| - 1]));
  }

  // ----- the spread

  /** Usage that rises evenly leaves no scatter, and only that. */
  lemma {:induction false} EvenIsNoScatter(run: seq<Reading>, rate: real)
    ensures Scatter(run, rate) >= 0.0
    ensures Scatter(run, rate) == 0.0 <==> RisesEvenly(run, rate)
  {
    if |run| >= 2 {
      var front := run[..|run| - 1];
      EvenIsNoScatter(front, rate);
      LastStep(run, rate);
      RisesByOne(run, rate);
    }
  }

  /** How far one step lies from the rate. */
  function Off(prev: Reading, next: Reading, rate: real): real {
    next.ratio - prev.ratio - rate * NumSeconds(next.ts - prev.ts) as real
  }

  lemma LastStep(run: seq<Reading>, rate: real)
    requires |run| >= 2
    ensures var off := Off(run[|run| - 2], run[|run| - 1], rate);
      && Scatter(run, rate) == Scatter(run[..|run| - 1], rate) + Square(off)
      && Square(off) >= 0.0 && (Square(off) == 0.0 <==> off == 0.0)
  {
    SquareIsZero(Off(run[|run| - 2], run[|run| - 1], rate));
  }

  lemma RisesByOne(run: seq<Reading>, rate: real)
    requires |run| >= 2
    ensures RisesEvenly(run, rate) <==>
      RisesEvenly(run[..|run| - 1], rate) && Off(run[|run| - 2], run[|run| - 1], rate) == 0.0
  {
    var front := run[..|run| - 1];
    assert forall k :: 0 <= k < |front| ==> front[k] == run[k];
    if RisesEvenly(run, rate) {
      assert StepIsEven(run, |run| - 1, rate);
      forall k | 0 < k < |front| ensures StepIsEven(front, k, rate) {
        assert StepIsEven(run, k, rate);
      }
    }
    if RisesEvenly(front, rate) && Off(run[|run| - 2], run[|run| - 1], rate) == 0.0 {
      forall k | 0 < k < |run| ensures StepIsEven(run, k, rate) {
        assert k < |front| ==> StepIsEven(front, k, rate);
      }
    }
  }

  predicate StepIsEven(run: seq<Reading>, k: int, rate: real)
    requires 0 < k < |run|
  {
    Off(run[k - 1], run[k], rate) == 0.0
  }

  ghost predicate RisesEvenly(run: seq<Reading>, rate: real) {
    forall k :: 0 < k < |run| ==> StepIsEven(run, k, rate)
  }

  lemma SquareIsZero(x: real)
    ensures Square(x) >= 0.0 && (Square(x) == 0.0 <==> x == 0.0)
  {
    if x < 0.0 {
      SquareIsPositive(-x, Square(x));
    } else if x > 0.0 {
      SquareIsPositive(x, Square(x));
    }
  }

  lemma SquareIsPositive(x: real, squared: real)
    requires x > 0.0 && squared == x * x
    ensures squared > 0.0
  {
    ProductIsPositive(x, x, squared);
  }

  lemma ProductIsPositive(x: real, y: real, product: real)
    requires x > 0.0 && y > 0.0 && product == x * y
    ensures product > 0.0
  {
  }

  /** Over two readings, and over any that rise evenly, the interval is one
      reporting step either way, `root` being zero at zero. */
  lemma EvenReadingsAreRounded(
      run: seq<Reading>, quantum: real, spanSecs: int, root: Root, e: RateEstimate, even: real)
    requires Fit(run, quantum, spanSecs as real, SpreadOf(root)) == Some(e) && quantum >= 0.0
    requires |run| == 2 || (RisesThroughout(run, even) && root(0.0) == 0.0)
    ensures Burns(e, run[|run| - 1].ratio - run[0].ratio, quantum, spanSecs)
  {
    EvenIsUndisputed(run, even, root);
    UndisputedFit(run, quantum, spanSecs, SpreadOf(root), e);
  }

  ghost predicate IsUndisputed(run: seq<Reading>, spread: Spread)
    requires |run| >= 2 && NumSeconds(run[|run| - 1].ts - run[0].ts) > 0
  {
    var secs := NumSeconds(run[|run| - 1].ts - run[0].ts) as real;
    spread(run, (run[|run| - 1].ratio - run[0].ratio) / secs, secs) == 0.0
  }

  lemma UndisputedFit(run: seq<Reading>, quantum: real, spanSecs: int, spread: Spread, e: RateEstimate)
    requires Fit(run, quantum, spanSecs as real, spread) == Some(e) && quantum >= 0.0
    requires IsUndisputed(run, spread)
    ensures Burns(e, run[|run| - 1].ratio - run[0].ratio, quantum, spanSecs)
  {
    var secs, rise, rate, step := FitIs(run, quantum, spanSecs as real, spread, e);
    HalfAStep(step, step, secs, quantum);
    OverTheRun(run, e, secs, rise, rate, step, spanSecs as real);
  }

  lemma EvenIsUndisputed(run: seq<Reading>, even: real, root: Root)
    requires |run| >= 2 && NumSeconds(run[|run| - 1].ts - run[0].ts) > 0
    requires |run| == 2 || (RisesThroughout(run, even) && root(0.0) == 0.0)
    ensures IsUndisputed(run, SpreadOf(root))
  {
    var secs := NumSeconds(run[|run| - 1].ts - run[0].ts) as real;
    var rise := run[|run| - 1].ratio - run[0].ratio;
    if |run| > 2 {
      RateOver(even, rise, secs);
    }
    NothingUndecided(run, rise / secs, secs, root);
  }

  /** Each step, and the whole, rises at one rate over its seconds. */
  ghost predicate RisesThroughout(run: seq<Reading>, rate: real) {
    && |run| >= 2 && RisesEvenly(run, rate)
    && run[|run| - 1].ratio - run[0].ratio == rate * NumSeconds(run[|run| - 1].ts - run[0].ts) as real
  }

  lemma RateOver(rate: real, rise: real, secs: real)
    requires secs > 0.0 && rise == rate * secs
    ensures rise / secs == rate
  {
  }

  lemma NothingUndecided(run: seq<Reading>, rate: real, elapsed: real, root: Root)
    requires |run| <= 2 || (RisesEvenly(run, rate) && root(0.0) == 0.0)
    ensures SpreadOf(root)(run, rate, elapsed) == 0.0
  {
    if |run| > 2 {
      EvenIsNoScatter(run, rate);
      NoScatter(|run| - 1, elapsed, root);
    }
  }

  lemma NoScatter(steps: nat, elapsed: real, root: Root)
    requires root(0.0) == 0.0
    ensures Undecided(0.0, steps, elapsed, root) == 0.0
  {
    if steps > 1 && elapsed > 0.0 {
      UndecidedOf(0.0, steps as real, (steps - 1) as real, elapsed, elapsed * elapsed);
    }
  }

  lemma UndecidedOf(scatter: real, steps: real, dof: real, elapsed: real, squared: real)
    requires scatter == 0.0 && dof > 0.0 && elapsed > 0.0 && squared == elapsed * elapsed
    ensures squared > 0.0 && scatter * steps / dof / squared == 0.0
  {
    SquareIsPositive(elapsed, squared);
    var product := scatter * steps;
    ZeroOver(product, dof);
    ZeroOver(product / dof, squared);
  }

  lemma ZeroOver(a: real, b: real)
    requires a == 0.0 && b > 0.0
    ensures a / b == 0.0
  {
  }

  // ----- what scatter leaves undecided

  ghost predicate IsSquareRoot(root: Root) {
    forall x: real :: x >= 0.0 ==> root(Square(x)) == x
  }

  /** The interval is what scatter leaves undecided over the fit's seconds, or one
      reporting step if that is more. */
  lemma SpreadIsHalf(
      run: seq<Reading>, quantum: real, spanSecs: int, spread: Spread, e: RateEstimate, rate: real, total: real)
    requires Fit(run, quantum, spanSecs as real, spread) == Some(e) && IsSpread(run, spread, rate, total)
    ensures Burns(e, run[|run| - 1].ratio - run[0].ratio, MaxReal(total, quantum), spanSecs)
  {
    var secs, rise, r, step := FitIs(run, quantum, spanSecs as real, spread, e);
    RateOver(rate, rise, secs);
    OverTheRunBy(run, e, secs, rise, rate, spread(run, rate, secs), step, total, spanSecs as real);
  }

  /** What a run's scatter round its mean rate leaves undecided, over its seconds. */
  ghost predicate IsSpread(run: seq<Reading>, spread: Spread, rate: real, total: real)
    requires |run| >= 2
  {
    var secs := NumSeconds(run[|run| - 1].ts - run[0].ts) as real;
    run[|run| - 1].ratio - run[0].ratio == rate * secs && spread(run, rate, secs) * secs == total
  }

  lemma OverTheRunBy(
      run: seq<Reading>, e: RateEstimate, secs: real, rise: real, rate: real, scattered: real, step: real, total: real,
      span: real)
    requires IsFitted(run, e, e.quantum) && secs > 0.0 && rise == run[|run| - 1].ratio - run[0].ratio
    requires rate == rise / secs && step == e.quantum / secs && scattered * secs == total
    requires EndsAt(e, rate, MaxReal(scattered, step), span)
    ensures BurnsOver(e, rise, MaxReal(total, e.quantum), secs, span)
  {
    DivTimes(e.quantum, secs);
    DivTimes(rise, secs);
    LargerOver(scattered, step, secs, total, e.quantum);
    OverItsSeconds(e, rise, secs, rate, MaxReal(scattered, step), MaxReal(total, e.quantum), span);
  }

  lemma LargerOver(a: real, b: real, k: real, x: real, y: real)
    requires k > 0.0 && a * k == x && b * k == y
    ensures MaxReal(a, b) * k == MaxReal(x, y)
  {
    if a >= b {
      Scaled(b, a, k);
    } else {
      Scaled(a, b, k);
    }
  }

  /** Over more steps than one, `y` squared being the scatter per free step times the
      steps, what is undecided is so many times `y`. */
  lemma ScatterIsUndecided(scatter: real, steps: nat, secs: real, root: Root, y: real)
    requires IsSquareRoot(root) && steps > 1 && secs > 0.0 && y >= 0.0
    requires Square(y) * (steps - 1) as real == scatter * steps as real
    ensures Undecided(scatter, steps, secs, root) * secs == TQuantile(steps - 1) * y
  {
    VarianceIs(scatter, steps as real, (steps - 1) as real, secs, secs * secs, y, Square(y));
    RootOver(secs, root, y, TQuantile(steps - 1), root(Square(y / secs)));
  }

  lemma RootOver(secs: real, root: Root, y: real, t: real, r: real)
    requires IsSquareRoot(root) && y >= 0.0 && secs > 0.0 && r == root(Square(y / secs))
    ensures t * r * secs == t * y
  {
    var x := y / secs;
    ShareIsNonNegative(y, secs);
    assert root(Square(x)) == x;
    DivTimes(y, secs);
    Regroup(t, x, secs, y);
  }

  lemma Regroup(t: real, x: real, k: real, y: real)
    requires x * k == y
    ensures t * x * k == t * y
  {
  }

  lemma VarianceIs(scatter: real, steps: real, dof: real, secs: real, squared: real, y: real, ySquared: real)
    requires dof > 0.0 && secs > 0.0 && squared == secs * secs && ySquared == y * y
    requires ySquared * dof == scatter * steps
    ensures squared > 0.0 && scatter * steps / dof / squared == Square(y / secs)
  {
    SquareIsPositive(secs, squared);
    var total := scatter * steps;
    RateOver(ySquared, total, dof);
    QuotientSquared(y, secs, y / secs, squared, ySquared);
    RateOver(Square(y / secs), ySquared, squared);
  }

  lemma ShareIsNonNegative(a: real, b: real)
    requires a >= 0.0 && b > 0.0
    ensures a / b >= 0.0
  {
  }

  lemma QuotientSquared(y: real, k: real, x: real, kSquared: real, ySquared: real)
    requires k > 0.0 && x == y / k && kSquared == k * k && ySquared == y * y
    ensures ySquared == Square(x) * kSquared
  {
    DivTimes(y, k);
    calc {
      y * y;
      (x * k) * (x * k);
      x * x * (k * k);
    }
  }

  /** So of three readings evenly spaced in time, one step of which rises by `d`
      more than the other: 3.078 times `d`, the quantile for one free step. */
  lemma ThreeReadings(run: seq<Reading>, quantum: real, spanSecs: int, root: Root, e: RateEstimate, d: real)
    requires Fit(run, quantum, spanSecs as real, SpreadOf(root)) == Some(e)
    requires IsSquareRoot(root) && |run| == 3 && d >= 0.0 && IsBent(run, d)
    ensures Burns(e, run[2].ratio - run[0].ratio, MaxReal(3.078 * d, quantum), spanSecs)
  {
    var rate := BentSpread(run, root, d);
    SpreadIsHalf(run, quantum, spanSecs, SpreadOf(root), e, rate, 3.078 * d);
  }

  ghost predicate IsBent(run: seq<Reading>, d: real)
    requires |run| == 3
  {
    var secs := NumSeconds(run[2].ts - run[0].ts);
    var bend := (run[2].ratio - run[1].ratio) - (run[1].ratio - run[0].ratio);
    && 2 * NumSeconds(run[1].ts - run[0].ts) == secs && 2 * NumSeconds(run[2].ts - run[1].ts) == secs
    && (bend == d || bend == -d)
  }

  lemma BentSpread(run: seq<Reading>, root: Root, d: real) returns (rate: real)
    requires IsSquareRoot(root) && |run| == 3 && d >= 0.0 && IsBent(run, d)
    requires NumSeconds(run[2].ts - run[0].ts) > 0
    ensures IsSpread(run, SpreadOf(root), rate, 3.078 * d)
  {
    var secs := NumSeconds(run[2].ts - run[0].ts) as real;
    rate := (run[2].ratio - run[0].ratio) / secs;
    DivTimes(run[2].ratio - run[0].ratio, secs);
    BendIsScatter(run, rate, d);
    ScatterIsUndecided(Scatter(run, rate), 2, secs, root, d);
  }

  lemma BendIsScatter(run: seq<Reading>, rate: real, d: real)
    requires |run| == 3 && IsBent(run, d)
    requires run[2].ratio - run[0].ratio == rate * NumSeconds(run[2].ts - run[0].ts) as real
    ensures Square(d) * 1.0 == Scatter(run, rate) * 2.0
  {
    ScatterOfThree(run, rate);
    HalfOfBoth(rate, NumSeconds(run[2].ts - run[0].ts) as real, NumSeconds(run[1].ts - run[0].ts) as real);
    SquaresOf(Off(run[0], run[1], rate), Off(run[1], run[2], rate), d);
  }

  lemma ScatterOfThree(run: seq<Reading>, rate: real)
    requires |run| == 3
    ensures Scatter(run, rate) == 0.0 + Square(Off(run[0], run[1], rate)) + Square(Off(run[1], run[2], rate))
  {
    LastStep(run, rate);
    LastStep(run[..2], rate);
  }

  lemma HalfOfBoth(rate: real, secs: real, half: real)
    requires 2.0 * half == secs
    ensures 2.0 * (rate * half) == rate * secs
  {
  }

  lemma SquaresOf(a: real, b: real, d: real)
    requires a + b == 0.0 && (b - a == d || b - a == -d)
    ensures Square(d) == (0.0 + Square(a) + Square(b)) * 2.0
  {
    var h := d / 2.0;
    assert (a == h && b == -h) || (a == -h && b == h);
    assert Square(a) == Square(h) && Square(b) == Square(h);
    assert Square(d) == 4.0 * Square(h);
  }

  /** The quantile only falls as steps are added, from 3.078 for one free step to
      1.310 for thirty; beyond, it is the normal one, 1.2816. */
  lemma QuantilesFall(dof: nat)
    requires dof >= 1
    ensures 3.078 >= TQuantile(dof) >= TQuantile(dof + 1) >= 1.2816
    ensures TQuantile(1) == 3.078 && TQuantile(30) == 1.310 && (dof > 30 ==> TQuantile(dof) == 1.2816)
  {
  }
}
