/** What a fitted rate implies for the rest of the window. */
module Projection {
  import opened Time
  import opened Collections
  import opened Domain
  import opened Metrics
  import opened Estimator

  datatype Band<T> = Band(low: T, mid: T, high: T)

  datatype Projected = Projected(atReset: Band<real>, runway: Band<Option<Duration>>) {

    /** Whether the cap may arrive before the reset, at the fast end. */
    predicate Binding(w: EffectiveWindow, now: Instant) {
      runway.low.Some? && now + runway.low.value < w.resetAt
    }
  }

  /** Whole seconds left to the reset, none once it has passed. */
  function SecsLeft(w: EffectiveWindow, now: Instant): int {
    Max(NumSeconds(w.resetAt - now), 0)
  }

  function AtReset(w: EffectiveWindow, pace: real, now: Instant): real
    requires w.used.Some? && w.SpanSecs() > 0
  {
    w.used.value + pace * (SecsLeft(w, now) as real / w.SpanSecs() as real)
  }

  function Project(w: EffectiveWindow, rate: RateEstimate, now: Instant): Option<Projected> {
    if w.used.None? || w.SpanSecs() <= 0 then None
    else Some(Projected(
      Band(AtReset(w, rate.low, now), AtReset(w, rate.pace, now), AtReset(w, rate.high, now)),
      Band(RunwayAt(w, rate.high), RunwayAt(w, rate.pace), RunwayAt(w, rate.low))))
  }

  // ----- on the scale of utilization per second the span is gone

  /** A pace on a window's scale, from a rate per second. */
  function PaceFrom(perSecond: real, spanSecs: int): real {
    perSecond * spanSecs as real
  }

  /** The runway a rate per second gives. */
  function RunwayFrom(used: real, perSecond: real): Option<Duration> {
    if used >= 1.0 then Some(0)
    else if perSecond <= 0.0 then None
    else
      var secs := Round((1.0 - used) / perSecond);
      if secs > MAX_SECS then None else Some(secs * SECOND)
  }

  /** The utilization at the reset that a rate per second gives. */
  function AtResetFrom(used: real, perSecond: real, secsLeft: nat): real {
    used + perSecond * secsLeft as real
  }

  lemma SpanCancels(perSecond: real, span: int)
    requires span > 0
    ensures PaceFrom(perSecond, span) / span as real == perSecond
    ensures PaceFrom(perSecond, span) <= 0.0 <==> perSecond <= 0.0
  {
    Cancel(perSecond, span as real);
  }

  lemma Cancel(r: real, s: real)
    requires s > 0.0
    ensures r * s / s == r
    ensures r * s <= 0.0 <==> r <= 0.0
  {
  }

  /** `RunwayAt`, given what its division comes to. */
  lemma RunwayAtRate(w: EffectiveWindow, pace: real, perSecond: real)
    requires w.used.Some? && w.SpanSecs() > 0
    requires pace / w.SpanSecs() as real == perSecond && (pace <= 0.0 <==> perSecond <= 0.0)
    ensures RunwayAt(w, pace) == RunwayFrom(w.used.value, perSecond)
  {
  }

  lemma RunwayIgnoresSpan(w: EffectiveWindow, perSecond: real)
    requires w.used.Some? && w.SpanSecs() > 0
    ensures RunwayAt(w, PaceFrom(perSecond, w.SpanSecs())) == RunwayFrom(w.used.value, perSecond)
  {
    SpanCancels(perSecond, w.SpanSecs());
    RunwayAtRate(w, PaceFrom(perSecond, w.SpanSecs()), perSecond);
  }

  lemma AtResetIgnoresSpan(w: EffectiveWindow, perSecond: real, now: Instant)
    requires w.used.Some? && w.SpanSecs() > 0
    ensures AtReset(w, PaceFrom(perSecond, w.SpanSecs()), now)
         == AtResetFrom(w.used.value, perSecond, SecsLeft(w, now))
  {
    var (r, s, left) := (perSecond, w.SpanSecs() as real, SecsLeft(w, now) as real);
    Regroup(r, s, left);
  }

  lemma Regroup(r: real, s: real, left: real)
    requires s > 0.0
    ensures r * s * (left / s) == r * left
  {
    var q := left / s;
    assert q * s == left;
    assert r * s * q == r * (s * q);
  }

  /** The rates per second behind a fit, which no span enters. */
  ghost predicate IsFitPerSecond(run: seq<Reading>, quantum: real, spread: Spread, rate: Band<real>) {
    forall span: int :: FitsAtSpan(run, quantum, spread, rate, span)
  }

  ghost predicate FitsAtSpan(run: seq<Reading>, quantum: real, spread: Spread, rate: Band<real>, span: int) {
    var e := Fit(run, quantum, span as real, spread);
    && e.Some? && e.value.low == PaceFrom(rate.low, span)
    && e.value.pace == PaceFrom(rate.mid, span) && e.value.high == PaceFrom(rate.high, span)
  }

  lemma FitPerSecond(run: seq<Reading>, quantum: real, spread: Spread) returns (rate: Band<real>)
    requires |run| >= 2 && NumSeconds(run[|run| - 1].ts - run[0].ts) >= MIN_SAMPLE_SECS
    requires quantum >= 0.0
    ensures 0.0 <= rate.low <= rate.mid <= rate.high
    ensures IsFitPerSecond(run, quantum, spread, rate)
  {
    var elapsed := NumSeconds(run[|run| - 1].ts - run[0].ts) as real;
    var r := (run[|run| - 1].ratio - run[0].ratio) / elapsed;
    var half := MaxReal(spread(run, r, elapsed), quantum / elapsed);
    assert quantum / elapsed >= 0.0;
    rate := Band(MaxReal(r - half, 0.0), MaxReal(r, 0.0), MaxReal(r + half, 0.0));
    forall span: int ensures FitsAtSpan(run, quantum, spread, rate, span) {
    }
  }

  lemma ProjectsAs(w: EffectiveWindow, e: RateEstimate, rate: Band<real>, now: Instant)
    requires w.used.Some? && w.SpanSecs() > 0
    requires e.low == PaceFrom(rate.low, w.SpanSecs()) && e.pace == PaceFrom(rate.mid, w.SpanSecs())
    requires e.high == PaceFrom(rate.high, w.SpanSecs())
    ensures Project(w, e, now) == Some(ProjectedFrom(w.used.value, rate, SecsLeft(w, now)))
  {
    AtResetIgnoresSpan(w, rate.low, now);
    AtResetIgnoresSpan(w, rate.mid, now);
    AtResetIgnoresSpan(w, rate.high, now);
    RunwayIgnoresSpan(w, rate.low);
    RunwayIgnoresSpan(w, rate.mid);
    RunwayIgnoresSpan(w, rate.high);
  }

  /** For one fitted run the projection is that of its rates per second: the
      window's start enters through the pace scale and cancels. */
  lemma ProjectionIgnoresTheSpan(
      w: EffectiveWindow, run: seq<Reading>, quantum: real, spread: Spread, rate: Band<real>, now: Instant)
    requires w.used.Some? && w.SpanSecs() > 0
    requires IsFitPerSecond(run, quantum, spread, rate)
    ensures var e := Fit(run, quantum, w.SpanSecs() as real, spread);
      && e.Some?
      && Project(w, e.value, now) == Some(ProjectedFrom(w.used.value, rate, SecsLeft(w, now)))
  {
    assert FitsAtSpan(run, quantum, spread, rate, w.SpanSecs());
    ProjectsAs(w, Fit(run, quantum, w.SpanSecs() as real, spread).value, rate, now);
  }

  /** A projection straight from rates per second. */
  function ProjectedFrom(used: real, rate: Band<real>, secsLeft: nat): Projected {
    Projected(
      Band(AtResetFrom(used, rate.low, secsLeft), AtResetFrom(used, rate.mid, secsLeft),
           AtResetFrom(used, rate.high, secsLeft)),
      Band(RunwayFrom(used, rate.high), RunwayFrom(used, rate.mid), RunwayFrom(used, rate.low)))
  }

  /** Two windows with one reset and one reading project alike, wherever each
      is taken to have begun. */
  lemma StartDoesNotMatter(
      w: EffectiveWindow, w': EffectiveWindow, run: seq<Reading>, quantum: real, spread: Spread, now: Instant)
    requires w.used.Some? && w'.used == w.used && w'.resetAt == w.resetAt
    requires w.SpanSecs() > 0 && w'.SpanSecs() > 0 && quantum >= 0.0
    requires |run| >= 2 && NumSeconds(run[|run| - 1].ts - run[0].ts) >= MIN_SAMPLE_SECS
    ensures var e := Fit(run, quantum, w.SpanSecs() as real, spread);
      var e' := Fit(run, quantum, w'.SpanSecs() as real, spread);
      e.Some? && e'.Some? && Project(w, e.value, now) == Project(w', e'.value, now)
  {
    var rate := FitPerSecond(run, quantum, spread);
    ProjectionIgnoresTheSpan(w, run, quantum, spread, rate, now);
    ProjectionIgnoresTheSpan(w', run, quantum, spread, rate, now);
  }

  // ----- the bands

  /** In order of time, with `None` as never. */
  predicate NoLater(a: Option<Duration>, b: Option<Duration>) {
    b.None? || (a.Some? && a.value <= b.value)
  }

  lemma RoundMonotone(x: real, y: real)
    requires x <= y
    ensures Round(x) <= Round(y)
  {
  }

  lemma FasterEndsNoLater(used: real, slow: real, fast: real)
    requires slow <= fast
    ensures NoLater(RunwayFrom(used, fast), RunwayFrom(used, slow))
  {
    if used < 1.0 && slow > 0.0 {
      SmallerDivisor(1.0 - used, slow, fast);
      RoundMonotone((1.0 - used) / fast, (1.0 - used) / slow);
    }
  }

  /** Both bands read in order. */
  lemma BandsAreOrdered(used: real, rate: Band<real>, secsLeft: nat)
    requires rate.low <= rate.mid <= rate.high
    ensures var p := ProjectedFrom(used, rate, secsLeft);
      && p.atReset.low <= p.atReset.mid <= p.atReset.high
      && NoLater(p.runway.low, p.runway.mid) && NoLater(p.runway.mid, p.runway.high)
  {
    var left := secsLeft as real;
    Scaled(rate.low, rate.mid, left);
    Scaled(rate.mid, rate.high, left);
    FasterEndsNoLater(used, rate.mid, rate.high);
    FasterEndsNoLater(used, rate.low, rate.mid);
  }

  /** So does the projection of any fit. */
  lemma ProjectionIsOrdered(w: EffectiveWindow, run: seq<Reading>, quantum: real, spread: Spread, now: Instant)
    requires w.used.Some? && w.SpanSecs() > 0 && quantum >= 0.0
    requires Fit(run, quantum, w.SpanSecs() as real, spread).Some?
    ensures var p := Project(w, Fit(run, quantum, w.SpanSecs() as real, spread).value, now);
      && p.Some?
      && p.value.atReset.low <= p.value.atReset.mid <= p.value.atReset.high
      && NoLater(p.value.runway.low, p.value.runway.mid) && NoLater(p.value.runway.mid, p.value.runway.high)
  {
    var rate := FitPerSecond(run, quantum, spread);
    ProjectionIgnoresTheSpan(w, run, quantum, spread, rate, now);
    BandsAreOrdered(w.used.value, rate, SecsLeft(w, now));
  }

  // ----- when the cap binds

  /** Seconds to the reset, rounded up. */
  function CeilSecs(d: Duration): int {
    -((-d) / SECOND)
  }

  lemma RoundsTo(x: real, n: int)
    requires x >= 0.0
    ensures Round(x) < n <==> x < n as real - 0.5
  {
    var f := (x + 0.5).Floor;
    assert f as real <= x + 0.5 < f as real + 1.0;
    if f < n {
      assert f as real + 1.0 <= n as real;
    } else {
      assert f as real >= n as real;
    }
  }

  lemma BeforeReset(secs: int, d: Duration)
    ensures secs * SECOND < d <==> secs < CeilSecs(d)
  {
  }

  lemma DivideOut(a: real, r: real, k: real)
    requires r > 0.0
    ensures a / r < k <==> a < r * k
  {
    var x := a / r;
    assert x * r == a;
    if x < k {
      assert x * r < k * r;
    } else {
      assert x * r >= k * r;
    }
  }

  /** The warning, decided exactly: at the cap it shows until the reset passes;
      below it, whenever the fast end would pass 100% half a second before the
      reset, the seconds left being rounded up. */
  lemma BindingExactly(w: EffectiveWindow, rate: Band<real>, now: Instant)
    requires w.used.Some? && w.resetAt - now <= MAX_DURATION
    ensures var p := ProjectedFrom(w.used.value, rate, SecsLeft(w, now));
      p.Binding(w, now) <==>
        if w.used.value >= 1.0 then now < w.resetAt
        else rate.high > 0.0 && w.used.value + rate.high * (CeilSecs(w.resetAt - now) as real - 0.5) > 1.0
  {
    var (used, r, n) := (w.used.value, rate.high, CeilSecs(w.resetAt - now));
    if used < 1.0 && r > 0.0 {
      var x := (1.0 - used) / r;
      DivideOut(1.0 - used, r, 0.0);
      RoundsTo(x, n);
      DivideOut(1.0 - used, r, n as real - 0.5);
      BeforeReset(Round(x), w.resetAt - now);
      assert n <= MAX_SECS;
    }
  }

  /** Where the time left is whole seconds, the warning and the high at-reset
      figure agree to half a second of burn: it shows exactly when the figure
      exceeds 100% by more than that. */
  lemma BindingOnWholeSeconds(w: EffectiveWindow, rate: Band<real>, now: Instant)
    requires w.used.Some? && w.used.value < 1.0 && rate.high > 0.0
    requires now < w.resetAt && w.resetAt - now <= MAX_DURATION && WholeSeconds(w.resetAt - now)
    ensures var p := ProjectedFrom(w.used.value, rate, SecsLeft(w, now));
      p.Binding(w, now) <==> p.atReset.high > 1.0 + rate.high * 0.5
  {
    BindingExactly(w, rate, now);
    assert CeilSecs(w.resetAt - now) == SecsLeft(w, now);
    Less(rate.high, SecsLeft(w, now) as real, 0.5);
  }

  lemma Less(a: real, x: real, y: real)
    ensures a * (x - y) == a * x - a * y
  {
  }

  /** At any instant: more than half a second of burn past 100% always warns,
      and a warning below the cap means the figure is above 100% or short of it
      by less than half a second of burn. */
  lemma BindingWithinHalfASecond(w: EffectiveWindow, rate: Band<real>, now: Instant)
    requires w.used.Some? && rate.high >= 0.0
    requires now < w.resetAt && w.resetAt - now <= MAX_DURATION
    ensures var p := ProjectedFrom(w.used.value, rate, SecsLeft(w, now));
      && (p.Binding(w, now) && w.used.value < 1.0 ==> p.atReset.high > 1.0 - rate.high * 0.5)
      && (p.Binding(w, now) && w.used.value >= 1.0 ==> p.atReset.high >= 1.0)
      && (p.atReset.high > 1.0 + rate.high * 0.5 ==> p.Binding(w, now))
  {
    BindingExactly(w, rate, now);
    var (r, left, n) := (rate.high, SecsLeft(w, now), CeilSecs(w.resetAt - now));
    assert left <= n <= left + 1;
    Less(r, n as real, 0.5);
    Scaled(left as real, n as real, r);
    Scaled(n as real, left as real + 1.0, r);
    Scaled(0.0, left as real, r);
  }

  // ----- exactly when the warning means past the cap

  /** At these instants, whatever was used and however fast it burns, a warning
      means a high at-reset figure of 100% or more. */
  ghost predicate WarningMeansTheCap(resetAt: Instant, now: Instant) {
    forall used: real, rate: Band<real> | 0.0 <= used <= 1.0 && 0.0 <= rate.low <= rate.mid <= rate.high ::
      WarnsRightly(used, rate, resetAt, now)
  }

  function WindowAt(used: real, resetAt: Instant): EffectiveWindow {
    EffectiveWindow("w", 0, resetAt, 0, Some(used))
  }

  ghost predicate WarnsRightly(used: real, rate: Band<real>, resetAt: Instant, now: Instant) {
    var w := WindowAt(used, resetAt);
    var p := ProjectedFrom(used, rate, SecsLeft(w, now));
    p.Binding(w, now) ==> p.atReset.high >= 1.0
  }

  /** It does so exactly once the reset has passed, or when the time left to it
      is whole seconds: the runway is rounded against the reset itself, and the
      figure counts the seconds left rounded down. */
  lemma WarningMeansTheCapExactly(resetAt: Instant, now: Instant)
    requires resetAt - now <= MAX_DURATION
    ensures WarningMeansTheCap(resetAt, now) <==> WholeSeconds(resetAt - now) || now >= resetAt
  {
    if WholeSeconds(resetAt - now) || now >= resetAt {
      forall used: real, rate: Band<real> | 0.0 <= used <= 1.0 && 0.0 <= rate.low <= rate.mid <= rate.high
        ensures WarnsRightly(used, rate, resetAt, now)
      {
        WarnsOnWholeSeconds(used, rate, resetAt, now);
      }
    } else {
      WarnsShort(resetAt, now);
    }
  }

  lemma WarnsOnWholeSeconds(used: real, rate: Band<real>, resetAt: Instant, now: Instant)
    requires resetAt - now <= MAX_DURATION && (WholeSeconds(resetAt - now) || now >= resetAt)
    requires 0.0 <= used <= 1.0 && 0.0 <= rate.high
    ensures WarnsRightly(used, rate, resetAt, now)
  {
    var w := WindowAt(used, resetAt);
    BindingExactly(w, rate, now);
    if now < resetAt && used < 1.0 && rate.high > 0.0 {
      BindingOnWholeSeconds(w, rate, now);
    } else if now < resetAt {
      Scaled(0.0, SecsLeft(w, now) as real, rate.high);
    } else {
      PastTheReset(used, rate, resetAt, now);
    }
  }

  lemma PastTheReset(used: real, rate: Band<real>, resetAt: Instant, now: Instant)
    requires now >= resetAt
    ensures var w := WindowAt(used, resetAt); !ProjectedFrom(used, rate, SecsLeft(w, now)).Binding(w, now)
  {
    if used < 1.0 && rate.high > 0.0 {
      DivideOut(1.0 - used, rate.high, 0.0);
      RoundMonotone(0.0, (1.0 - used) / rate.high);
    }
  }

  /** Between whole seconds, from nothing used, the rate that fills the quota a
      quarter of a second past the seconds counted. */
  lemma WarnsShort(resetAt: Instant, now: Instant)
    requires resetAt - now <= MAX_DURATION && !WholeSeconds(resetAt - now) && now < resetAt
    ensures !WarningMeansTheCap(resetAt, now)
  {
    var w := WindowAt(0.0, resetAt);
    var left := SecsLeft(w, now) as real;
    var r := 1.0 / (left + 0.25);
    assert r * (left + 0.25) == 1.0;
    var rate := Band(r, r, r);
    BindingExactly(w, rate, now);
    assert CeilSecs(resetAt - now) == SecsLeft(w, now) + 1;
    Distribute(r, left, 0.5);
    Distribute(r, left, 0.25);
    assert !WarnsRightly(0.0, rate, resetAt, now);
  }

  lemma Distribute(r: real, x: real, y: real)
    ensures r * (x + y) == r * x + r * y
  {
  }

  /** An input the client can have: 6.0% and, 300 seconds later, 97.2% of a 5-hour
      window, 9.9 seconds before its reset. The estimate's fast end fills it in 9.2
      seconds, but over the 9 it counts reaches 99.94%. */
  lemma BindingBelowTheCap(root: Root)
    ensures exists w: EffectiveWindow, points: seq<QuotaSnapshot>, now: Instant ::
      WarnsShortOfTheCap(w, points, now, root)
  {
    var now := 5 * HOUR - (9 * SECOND + 900 * MILLI);
    var w := EffectiveWindow("w", 0, 5 * HOUR, 0, Some(0.972));
    var points := [SnapshotOf(now - 300 * SECOND, 6.0, 5 * HOUR), SnapshotOf(now, 97.2, 5 * HOUR)];
    SteepSeries(w, points, now);
    SteepEstimate(now, w.Span(), 10 * MINUTE, root);
    SteepProjection(w, EstimateOf(SteepRun(now), w.Span(), 10 * MINUTE, now, root).value, now);
    assert WarnsShortOfTheCap(w, points, now, root);
  }

  lemma SteepProjection(w: EffectiveWindow, e: RateEstimate, now: Instant)
    requires w == EffectiveWindow("w", 0, 5 * HOUR, 0, Some(0.972)) && now == 5 * HOUR - (9 * SECOND + 900 * MILLI)
    requires e.low == PaceFrom(911.0 / 300000.0, 18000) && e.pace == PaceFrom(912.0 / 300000.0, 18000)
    requires e.high == PaceFrom(913.0 / 300000.0, 18000)
    ensures var p := Project(w, e, now); p.Some? && p.value.Binding(w, now) && p.value.atReset.high < 1.0
  {
    var rate := Band(911.0 / 300000.0, 912.0 / 300000.0, 913.0 / 300000.0);
    ProjectsAs(w, e, rate, now);
    BindingExactly(w, rate, now);
    assert SecsLeft(w, now) == 9 && CeilSecs(w.resetAt - now) == 10;
  }

  function SnapshotOf(ts: Instant, used: real, resetAt: Instant): QuotaSnapshot {
    QuotaSnapshot(0, ts, "w", "w", Percent, used, None, Some(resetAt))
  }

  /** Estimated at ten minutes' gap tolerance and projected, it warns with the
      high at-reset figure short of 100%. */
  ghost predicate WarnsShortOfTheCap(w: EffectiveWindow, points: seq<QuotaSnapshot>, now: Instant, root: Root) {
    var e := Estimate(w, points, 10 * MINUTE, now, root);
    e.Some? &&
    var p := Project(w, e.value, now);
    p.Some? && p.value.Binding(w, now) && p.value.atReset.high < 1.0
  }

  function SteepRun(now: Instant): seq<Reading> {
    [ToReading(SnapshotOf(now - 300 * SECOND, 6.0, 5 * HOUR)), ToReading(SnapshotOf(now, 97.2, 5 * HOUR))]
  }

  lemma SteepSelected(w: EffectiveWindow, p: QuotaSnapshot, now: Instant)
    requires w == EffectiveWindow("w", 0, 5 * HOUR, 0, Some(0.972)) && now <= 5 * HOUR
    requires p == SnapshotOf(p.ts, p.used, 5 * HOUR) && 0 <= p.ts <= now
    ensures Selects(w, now)(p)
  {
  }

  lemma SteepSeries(w: EffectiveWindow, points: seq<QuotaSnapshot>, now: Instant)
    requires w == EffectiveWindow("w", 0, 5 * HOUR, 0, Some(0.972)) && 300 * SECOND <= now <= 5 * HOUR
    requires points == [SnapshotOf(now - 300 * SECOND, 6.0, 5 * HOUR), SnapshotOf(now, 97.2, 5 * HOUR)]
    ensures Series(w, points, now) == SteepRun(now)
  {
    SteepSelected(w, points[0], now);
    SteepSelected(w, points[1], now);
    FilterAll(points, Selects(w, now));
    assert ReadingsOf(points) == SteepRun(now);
    StrictlyInOrder(SteepRun(now), Ts);
  }

  /** One stretch, reported in tenths of a percent. */
  lemma SteepStretch(now: Instant)
    ensures Stretch(SteepRun(now), 10 * MINUTE) == SteepRun(now)
    ensures ReadingQuantum(SteepRun(now)) == 0.001
  {
    var run := SteepRun(now);
    assert run[0].ratio == 0.06 && run[1].ratio == 0.972;
    assert run[0..] == run;
    assert !FitsStep(run, 1.0) && !FitsStep(run, 0.5) by {
      assert run[1] in run && run[1].used == 97.2;
    }
  }

  lemma SteepFit(now: Instant, root: Root)
    ensures var e := Fit(SteepRun(now), 0.001, 18000.0, SpreadOf(root));
      && e.Some? && e.value.low == PaceFrom(911.0 / 300000.0, 18000)
      && e.value.pace == PaceFrom(912.0 / 300000.0, 18000) && e.value.high == PaceFrom(913.0 / 300000.0, 18000)
  {
    var run := SteepRun(now);
    assert run[0].ratio == 0.06 && run[1].ratio == 0.972;
  }

  lemma SteepEstimate(now: Instant, span: Duration, maxGap: Duration, root: Root)
    requires span == 5 * HOUR && maxGap == 10 * MINUTE
    ensures var e := EstimateOf(SteepRun(now), span, maxGap, now, root);
      && e.Some? && e.value.low == PaceFrom(911.0 / 300000.0, 18000)
      && e.value.pace == PaceFrom(912.0 / 300000.0, 18000) && e.value.high == PaceFrom(913.0 / 300000.0, 18000)
  {
    SteepStretch(now);
    SteepFit(now, root);
    OnlyFit(SteepRun(now), span, maxGap, now, root, 0.001, 18000);
  }

  /** One stretch within the first lookback is estimated by its one fit. */
  lemma OnlyFit(
      run: seq<Reading>, span: Duration, maxGap: Duration, now: Instant, root: Root, quantum: real, spanSecs: int)
    requires NumSeconds(span) == spanSecs > 0 && run != [] && now - run[|run| - 1].ts <= maxGap
    requires Stretch(run, maxGap) == run && ReadingQuantum(run) == quantum
    requires run[0].ts >= run[|run| - 1].ts - RecentLookback(span)
    ensures EstimateOf(run, span, maxGap, now, root) == Fit(run, quantum, spanSecs as real, SpreadOf(root))
  {
    OnlyPass(run, FitterOf(quantum, spanSecs, root), RecentLookback(span));
  }

  /** Within the first lookback the whole run is fitted once. */
  lemma OnlyPass(run: seq<Reading>, fit: Fitter, lookback: Duration)
    requires run != [] && lookback > 0 && run[0].ts >= run[|run| - 1].ts - lookback
    ensures Widen(run, fit, lookback, None) == fit(run)
  {
    assert run[0..] == run;
    WidenUnfolds(run, fit, lookback, None);
    PassOver(run, fit, lookback, None, 0);
  }
}
