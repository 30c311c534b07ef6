/** The window that actually ran, and the rates measured against it. */
module Metrics {
  import opened Time
  import opened Collections
  import opened Domain
  import opened Rollover

  /** `f64::round`: to the nearest integer, halves away from zero. */
  function Round(x: real): int {
    if x >= 0.0 then (x + 0.5).Floor else -((-x + 0.5).Floor)
  }

  function MaxReal(a: real, b: real): real {
    if a < b then b else a
  }

  datatype WindowView = WindowView(window: QuotaWindow, observedStart: Option<ObservedStart>)

  datatype EffectiveWindow = EffectiveWindow(
    window: WindowId,
    start: Instant,
    resetAt: Instant,
    startUncertainty: Duration,
    used: Option<real>)
  {
    function Span(): Duration {
      resetAt - start
    }

    function SpanSecs(): int {
      NumSeconds(Span())
    }
  }

  function EffectiveWindowOf(view: WindowView, now: Instant): Option<EffectiveWindow> {
    var w := view.window;
    if w.resetAt.None? || w.Span().None? then None
    else
      var resetAt := w.resetAt.value;
      var nominal := resetAt - w.Span().value;
      var o := view.observedStart;
      if o.Some? && nominal < o.value.Estimate() < resetAt && o.value.notAfter <= now then
        Some(EffectiveWindow(w.id, o.value.Estimate(), resetAt, o.value.Uncertainty(), w.Utilization()))
      else
        Some(EffectiveWindow(w.id, nominal, resetAt, 0, w.Utilization()))
  }

  function ElapsedFraction(w: EffectiveWindow, now: Instant): Option<real> {
    if w.SpanSecs() <= 0 then None
    else Some(Clamp01(NumSeconds(now - w.start) as real / w.SpanSecs() as real))
  }

  const MIN_ELAPSED_FRACTION: real := 0.05

  function Pace(w: EffectiveWindow, now: Instant): Option<real> {
    var elapsed := ElapsedFraction(w, now);
    if elapsed.None? || elapsed.value < MIN_ELAPSED_FRACTION || w.used.None? then None
    else Some(w.used.value / elapsed.value)
  }

  /** The floor on the elapsed fraction is what bounds a pace, at twenty times
      the affordable one; and from the reset on a pace is just what was used. */
  lemma PaceIsBounded(w: EffectiveWindow, now: Instant)
    requires Pace(w, now).Some? && 0.0 <= w.used.value <= 1.0
    ensures w.used.value <= Pace(w, now).value <= 20.0
    ensures now >= w.resetAt ==> Pace(w, now) == w.used
  {
    var (used, elapsed) := (w.used.value, ElapsedFraction(w, now).value);
    CrossMultiply(used, elapsed, 20.0, 1.0);
    CrossMultiply(used, 1.0, used, elapsed);
    if now >= w.resetAt {
      AtLeastOne(NumSeconds(now - w.start) as real, w.SpanSecs() as real);
    }
  }

  const MAX_SECS: int := 9_223_372_036_854_775_807

  /** How much longer the headroom lasts at `pace`; `None` is never. */
  function RunwayAt(w: EffectiveWindow, pace: real): Option<Duration> {
    if w.used.None? then None
    else if w.used.value >= 1.0 then Some(0)
    else if pace <= 0.0 || w.SpanSecs() <= 0 then None
    else
      var perSecond := pace / w.SpanSecs() as real;
      var secs := Round((1.0 - w.used.value) / perSecond);
      if secs > MAX_SECS then None else Some(secs * SECOND)
  }

  // ----- a pace measured from an observed bracket

  function Elapsed(now: Instant, start: Instant): int {
    NumSeconds(now - start)
  }

  /** Moving the start from `s` to `t` takes no fewer whole seconds off the
      elapsed time than off the span. */
  predicate KeepsUp(now: Instant, resetAt: Instant, s: Instant, t: Instant) {
    Elapsed(now, s) - Elapsed(now, t) >= Elapsed(resetAt, s) - Elapsed(resetAt, t)
  }

  /** When it takes fewer off, one fewer, how much of the window must still have
      been ahead for the rounding not to show. */
  predicate RoundsInOrder(now: Instant, resetAt: Instant, s: Instant, t: Instant) {
    var (elapsed, span) := (Elapsed(now, s), Elapsed(resetAt, s));
    var moved := elapsed - Elapsed(now, t);
    KeepsUp(now, resetAt, s, t) || elapsed >= span || elapsed * (moved + 1) <= moved * span
  }

  /** Whole seconds taken off two differences are the same or off by one. */
  lemma MovedSeconds(now: Instant, resetAt: Instant, s: Instant, t: Instant)
    requires s <= t <= now && t <= resetAt
    ensures Elapsed(now, s) >= Elapsed(now, t) >= 0 && Elapsed(resetAt, s) >= Elapsed(resetAt, t) >= 0
    ensures Elapsed(resetAt, s) - Elapsed(resetAt, t) <= Elapsed(now, s) - Elapsed(now, t) + 1
    ensures WholeSeconds(resetAt - now) ==> KeepsUp(now, resetAt, s, t)
  {
  }

  lemma SmallerFraction(e: int, span: int, d: int, c: int)
    requires 0 <= d <= e && 0 <= c < span
    requires c <= d
    ensures Clamp01((e - d) as real / (span - c) as real) <= Clamp01(e as real / span as real)
  {
    if e >= span {
      AtLeastOne(e as real, span as real);
    } else {
      var (rest, left, x, y) := ((e - d) as real, (span - c) as real, d as real, c as real);
      Cross(rest, left, x, y);
      CrossMultiply(rest, left, rest + x, left + y);
    }
  }

  lemma Cross(rest: real, left: real, x: real, y: real)
    requires 0.0 <= rest <= left && 0.0 <= y <= x
    ensures rest * (left + y) <= (rest + x) * left
  {
    assert rest * y <= left * y && left * y <= left * x;
  }

  lemma CastProduct(a: int, b: int)
    ensures (a * b) as real == a as real * b as real
  {
  }

  lemma Expand(e: int, span: int, d: int)
    ensures (e - d) * span - e * (span - d - 1) == e * (d + 1) - d * span
  {
  }

  /** Losing one second more of the span than of the elapsed time. */
  lemma LargerFraction(e: int, span: int, d: int)
    requires 0 <= d <= e < span && d + 1 < span
    ensures e * (d + 1) <= d * span ==>
      Clamp01((e - d) as real / (span - d - 1) as real) <= Clamp01(e as real / span as real)
    ensures e * (d + 1) > d * span ==>
      Clamp01((e - d) as real / (span - d - 1) as real) > Clamp01(e as real / span as real)
  {
    Expand(e, span, d);
    FractionOrder(e - d, span - d - 1, e, span);
    FractionOrder(e, span, 1, 1);
  }

  lemma FractionOrder(a: int, b: int, c: int, d: int)
    requires b > 0 && d > 0
    ensures a * d <= c * b <==> a as real / b as real <= c as real / d as real
  {
    CastProduct(a, d);
    CastProduct(c, b);
    if a * d <= c * b {
      CrossMultiply(a as real, b as real, c as real, d as real);
    } else {
      CrossStrictly(c as real, d as real, a as real, b as real);
    }
  }

  lemma CrossStrictly(a: real, b: real, c: real, d: real)
    requires b > 0.0 && d > 0.0 && a * d < c * b
    ensures a / b < c / d
  {
    var x, y := a / b, c / d;
    assert x * b == a && y * d == c;
    var bd := b * d;
    assert a * d == x * bd && c * b == y * bd;
    assert (x - y) * bd < 0.0;
  }

  lemma CrossMultiply(a: real, b: real, c: real, d: real)
    requires b > 0.0 && d > 0.0 && a * d <= c * b
    ensures a / b <= c / d
  {
    var x, y := a / b, c / d;
    assert x * b == a && y * d == c;
    var bd := b * d;
    assert a * d == x * bd && c * b == y * bd;
    assert (x - y) * bd <= 0.0;
  }

  lemma Scaled(a: real, b: real, k: real)
    requires k >= 0.0 && a <= b
    ensures a * k <= b * k
  {
  }

  lemma AtLeastOne(a: real, b: real)
    requires b > 0.0 && a >= b
    ensures a / b >= 1.0
  {
    CrossMultiply(b, b, a, b);
  }

  lemma SmallerDivisor(u: real, a: real, b: real)
    requires u >= 0.0 && 0.0 < a <= b
    ensures u / b <= u / a
  {
    assert u * a <= u * b;
    CrossMultiply(u, b, u, a);
  }

  lemma SmallerDivisorStrictly(u: real, a: real, b: real)
    requires u > 0.0 && 0.0 < a < b
    ensures u / b < u / a
  {
    assert u * a < u * b;
    CrossStrictly(u, b, u, a);
  }

  /** What a later start does to the elapsed fraction. */
  lemma LaterStartFraction(w: EffectiveWindow, now: Instant, s: Instant, t: Instant)
    requires s <= t <= now && Elapsed(w.resetAt, t) > 0
    ensures var (early, late) := (ElapsedFraction(w.(start := s), now), ElapsedFraction(w.(start := t), now));
      early.Some? && late.Some? && (late.value <= early.value <==> RoundsInOrder(now, w.resetAt, s, t))
  {
    MovedSeconds(now, w.resetAt, s, t);
    var (e, span) := (Elapsed(now, s), Elapsed(w.resetAt, s));
    var (d, c) := (e - Elapsed(now, t), span - Elapsed(w.resetAt, t));
    assert w.(start := s).SpanSecs() == span && w.(start := t).SpanSecs() == span - c;
    if c <= d {
      SmallerFraction(e, span, d, c);
    } else if e >= span {
      AtLeastOne(e as real, span as real);
    } else {
      LargerFraction(e, span, d);
    }
  }

  /** A later start gives no slower a pace exactly when the whole seconds it
      takes off round in order; always, when the time to the reset is whole. */
  lemma LaterStartFasterPace(w: EffectiveWindow, now: Instant, s: Instant, t: Instant)
    requires s <= t <= now && (w.used.Some? ==> w.used.value >= 0.0)
    ensures var (early, late) := (Pace(w.(start := s), now), Pace(w.(start := t), now));
      && (RoundsInOrder(now, w.resetAt, s, t) && late.Some? ==> early.Some? && early.value <= late.value)
      && (early.Some? && late.Some? && w.used.value > 0.0 && early.value <= late.value ==>
            RoundsInOrder(now, w.resetAt, s, t))
      && (WholeSeconds(w.resetAt - now) && late.Some? ==> RoundsInOrder(now, w.resetAt, s, t))
  {
    var (early, late) := (Pace(w.(start := s), now), Pace(w.(start := t), now));
    if late.Some? {
      assert w.(start := t).SpanSecs() == Elapsed(w.resetAt, t);
      LaterStartFraction(w, now, s, t);
      MovedSeconds(now, w.resetAt, s, t);
      var (a, b) := (ElapsedFraction(w.(start := t), now).value, ElapsedFraction(w.(start := s), now).value);
      if a <= b {
        SmallerDivisor(w.used.value, a, b);
      } else if early.Some? && w.used.value > 0.0 {
        SmallerDivisorStrictly(w.used.value, b, a);
      }
    }
  }

  /** One end of a bracket against the other: no slower a pace from the later
      one, where that one is old enough to print. */
  predicate PacesInOrder(w: EffectiveWindow, now: Instant, s: Instant, t: Instant) {
    var (early, late) := (Pace(w.(start := s), now), Pace(w.(start := t), now));
    late.Some? ==> early.Some? && early.value <= late.value
  }

  predicate AllPrinted(w: EffectiveWindow, now: Instant, o: ObservedStart) {
    Pace(w.(start := o.notBefore), now).Some? && Pace(w, now).Some? && Pace(w.(start := o.notAfter), now).Some?
  }

  /** Measured from the midpoint of an observed bracket, a pace lies between the
      paces its two ends imply, if the whole seconds round in order; which they
      do whenever the time left to the reset is whole seconds, and, where all
      three can be printed and something was used, must. */
  lemma MidpointPaceIsBracketed(view: WindowView, now: Instant, w: EffectiveWindow)
    requires view.observedStart.Some? && EffectiveWindowOf(view, now) == Some(w)
    requires var o := view.observedStart.value;
      o.notBefore <= o.notAfter <= now && w.start == o.Estimate()
    ensures var o := view.observedStart.value;
      var inOrder := RoundsInOrder(now, w.resetAt, o.notBefore, w.start)
                     && RoundsInOrder(now, w.resetAt, w.start, o.notAfter);
      var bracketed := PacesInOrder(w, now, o.notBefore, w.start) && PacesInOrder(w, now, w.start, o.notAfter);
      && (inOrder ==> bracketed)
      && (WholeSeconds(w.resetAt - now) ==> bracketed)
      && (AllPrinted(w, now, o) && w.used.value > 0.0 && bracketed ==> inOrder)
  {
    var o := view.observedStart.value;
    assert w.(start := w.start) == w;
    LaterStartFasterPace(w, now, o.notBefore, w.start);
    LaterStartFasterPace(w, now, w.start, o.notAfter);
  }

  /** The window as the client sees it at `now` starts at the midpoint of an
      observed bracket, and gives a slower pace than the bracket's earlier end. */
  predicate RoundsOut(view: WindowView, now: Instant, w: EffectiveWindow) {
    && EffectiveWindowOf(view, now) == Some(w)
    && view.observedStart.Some? && w.start == view.observedStart.value.Estimate()
    && !PacesInOrder(w, now, view.observedStart.value.notBefore, w.start)
  }

  /** Off whole seconds the two truncations can part: 100.9 seconds after the
      earlier end of a one-second bracket and 99.3 before the reset of a 5-hour
      window, half a second later takes a second off the span and none off the
      elapsed time. */
  lemma MidpointCanRoundOut()
    ensures exists view: WindowView, now: Instant, w: EffectiveWindow :: RoundsOut(view, now, w)
  {
    var (now, resetAt) := (1009 * SECOND / 10, 2002 * SECOND / 10);
    var view := WindowView(QuotaWindow("w", "w", AccountWide, Rolling(5 * HOUR), Percent, 50.0, None, Some(resetAt)),
                           Some(ObservedStart(0, SECOND)));
    var w := EffectiveWindow("w", SECOND / 2, resetAt, SECOND, Some(0.5));
    assert EffectiveWindowOf(view, now) == Some(w);
    EarlierIsFaster(w.(start := 0), w, now);
    assert RoundsOut(view, now, w);
  }

  lemma EarlierIsFaster(early: EffectiveWindow, late: EffectiveWindow, now: Instant)
    requires early.SpanSecs() == 200 && late.SpanSecs() == 199
    requires NumSeconds(now - early.start) == 100 && NumSeconds(now - late.start) == 100
    requires early.used == Some(0.5) && late.used == Some(0.5)
    ensures Pace(early, now).Some? && Pace(late, now).Some? && Pace(early, now).value > Pace(late, now).value
  {
    assert ElapsedFraction(early, now) == Some(0.5);
    CrossStrictly(100.0, 200.0, 100.0, 199.0);
    assert ElapsedFraction(late, now) == Some(100.0 / 199.0);
    SmallerDivisorStrictly(0.5, 0.5, 100.0 / 199.0);
  }

  // ----- the window and the rates, without the fractions

  /** A bracket wholly past whose middle lies inside the nominal window. */
  predicate IsUsable(o: ObservedStart, nominal: Instant, resetAt: Instant, now: Instant) {
    nominal < o.Estimate() < resetAt && o.notAfter <= now
  }

  /** Where the window is taken to have begun: at the provider's reckoning, or
      at the middle of a bracket wholly past that lies inside it. */
  lemma EffectiveStart(view: WindowView, now: Instant)
    ensures EffectiveWindowOf(view, now).Some? <==>
      view.window.resetAt.Some? && view.window.resetKind.length <= 9_223_372_036_854_775_807 * 1_000_000
    ensures EffectiveWindowOf(view, now).Some? ==>
      var w := EffectiveWindowOf(view, now).value;
      var nominal := view.window.resetAt.value - view.window.resetKind.length;
      && w.window == view.window.id && Some(w.resetAt) == view.window.resetAt && w.used == view.window.Utilization()
      && w.start >= nominal
      && (w.start != nominal ==> view.observedStart.Some? && w.start == view.observedStart.value.Estimate())
      && (w.start != nominal ==>
            w.start < w.resetAt && view.observedStart.value.notAfter <= now
            && w.startUncertainty == view.observedStart.value.notAfter - view.observedStart.value.notBefore)
      && (w.start == nominal ==> w.startUncertainty == 0)
      && (view.observedStart.Some? && IsUsable(view.observedStart.value, nominal, w.resetAt, now) ==>
            w.start == view.observedStart.value.Estimate())
  {
  }

  /** A pace is printed once a twentieth of the window has run, and over the time
      run comes to what was used. */
  lemma PaceTimesElapsed(w: EffectiveWindow, now: Instant)
    requires w.start <= now <= w.resetAt
    ensures var (elapsed, span) := (NumSeconds(now - w.start), NumSeconds(w.resetAt - w.start));
      && (Pace(w, now).Some? <==> span > 0 && w.used.Some? && 20 * elapsed >= span)
      && (Pace(w, now).Some? ==> Pace(w, now).value * elapsed as real == w.used.value * span as real)
  {
    var (elapsed, span) := (NumSeconds(now - w.start), NumSeconds(w.resetAt - w.start));
    if span > 0 {
      var fraction := elapsed as real / span as real;
      assert fraction * span as real == elapsed as real;
      CrossMultiply(elapsed as real, span as real, 1.0, 1.0);
      FractionOrder(1, 20, elapsed, span);
      if Pace(w, now).Some? {
        PaceIsUsed(w.used.value, fraction, elapsed as real, span as real);
      }
    }
  }

  lemma PaceIsUsed(used: real, fraction: real, elapsed: real, span: real)
    requires fraction > 0.0 && fraction * span == elapsed
    ensures used / fraction * elapsed == used * span
  {
    var pace := used / fraction;
    assert pace * fraction == used;
    assert pace * (fraction * span) == pace * fraction * span;
  }

  /** The runway lasts, to half a second of burn, until the headroom is spent;
      none is left at the cap, and without a pace it is never. */
  lemma RunwayTimesPace(w: EffectiveWindow, pace: real)
    requires w.used.Some? && w.SpanSecs() > 0
    ensures w.used.value >= 1.0 ==> RunwayAt(w, pace) == Some(0)
    ensures w.used.value < 1.0 && pace <= 0.0 ==> RunwayAt(w, pace).None?
    ensures w.used.value < 1.0 && pace > 0.0 && RunwayAt(w, pace).Some? ==>
      exists secs: nat :: LastsFor(w, pace, secs) && RunwayAt(w, pace) == Some(secs * 1_000_000_000)
    ensures w.used.value < 1.0 && pace > 0.0 && (1.0 - w.used.value) * w.SpanSecs() as real <= pace * 1000000000.0 ==>
      RunwayAt(w, pace).Some?
  {
    if w.used.value < 1.0 && pace > 0.0 {
      var (room, span) := (1.0 - w.used.value, w.SpanSecs() as real);
      var perSecond := pace / span;
      assert perSecond * span == pace;
      assert perSecond > 0.0;
      var x := room / perSecond;
      assert x * perSecond == room;
      SpentOver(x, perSecond, pace, room, span);
      assert x > 0.0;
      var secs := RoundedTo(x);
      Between(secs as real - 0.5, x, secs as real + 0.5, pace, room * span);
      assert LastsFor(w, pace, secs);
      if room * span <= pace * 1000000000.0 {
        CancelPace(x, 1000000000.0, pace, room * span);
      }
    }
  }

  /** So many seconds spend the headroom, to half a second of burn. */
  predicate LastsFor(w: EffectiveWindow, pace: real, secs: nat)
    requires w.used.Some?
  {
    Spends(secs as real - 0.5, secs as real + 0.5, pace, (1.0 - w.used.value) * w.SpanSecs() as real)
  }

  predicate Spends(atLeast: real, atMost: real, pace: real, total: real) {
    atLeast * pace <= total <= atMost * pace
  }

  lemma RoundedTo(x: real) returns (secs: nat)
    requires x >= 0.0
    ensures secs == Round(x) && secs as real - 0.5 <= x < secs as real + 0.5
  {
    secs := Round(x);
  }

  lemma Between(low: real, x: real, high: real, pace: real, total: real)
    requires low <= x <= high && pace > 0.0 && x * pace == total
    ensures Spends(low, high, pace, total)
  {
    Scaled(low, x, pace);
    Scaled(x, high, pace);
  }

  lemma SpentOver(x: real, perSecond: real, pace: real, room: real, span: real)
    requires x * perSecond == room && perSecond * span == pace
    ensures x * pace == room * span
  {
    assert x * (perSecond * span) == x * perSecond * span;
  }

  lemma CancelPace(x: real, y: real, pace: real, total: real)
    requires pace > 0.0 && x * pace == total && total <= y * pace
    ensures x <= y
  {
  }
}
