/** The estimator slid along a series, against the estimator run afresh. */
module RateSeries {
  import opened Time
  import opened Collections
  import opened Domain
  import opened Rollover
  import opened Metrics
  import opened Estimator
  import opened EstimatorLaws

  datatype RatePoint = RatePoint(ts: Instant, window: EffectiveWindow, rate: Option<RateEstimate>)

  /** The window instance a reading belonged to: the live one if it carries its
      reset and was taken since it began, otherwise the provider's arithmetic. */
  function InstanceOf(
      p: QuotaSnapshot, window: WindowId, span: Duration, current: Option<EffectiveWindow>): EffectiveWindow
    requires p.resetAt.Some?
  {
    var resetAt := p.resetAt.value;
    if current.Some? && Abs(current.value.resetAt - resetAt) <= RESET_TOLERANCE && p.ts >= current.value.start then
      current.value.(used := p.Utilization())
    else
      EffectiveWindow(window, resetAt - span, resetAt, 0, p.Utilization())
  }

  function SortedReadingsOf(points: seq<QuotaSnapshot>, window: WindowId): seq<QuotaSnapshot> {
    Dedup(Sort(Filter(points, OfWindow(window)), SnapshotTs), SnapshotTs)
  }

  /** The readings up to the `i`-th that fall in an instance starting at `start`. */
  function SliceFor(readings: seq<QuotaSnapshot>, i: nat, start: Instant): seq<QuotaSnapshot>
    requires i < |readings|
  {
    var upTo := readings[..i + 1];
    upTo[CountBelow(upTo, SnapshotTs, start)..]
  }

  /** A way to rate the `i`-th reading within its instance. */
  type Rater = (nat, EffectiveWindow) -> Option<RateEstimate>

  /** Handed only the slice of the reading's own instance. */
  function SlicedRater(readings: seq<QuotaSnapshot>, maxGap: Duration, root: Root): Rater {
    (i: nat, w: EffectiveWindow) =>
      if i < |readings| then Estimate(w, SliceFor(readings, i, w.start), maxGap, readings[i].ts, root) else None
  }

  /** Handed everything. */
  function FreshRater(
      readings: seq<QuotaSnapshot>, points: seq<QuotaSnapshot>, maxGap: Duration, root: Root): Rater
  {
    (i: nat, w: EffectiveWindow) =>
      if i < |readings| then Estimate(w, points, maxGap, readings[i].ts, root) else None
  }

  /** One point for each reading that carries a reset, in order of time. */
  function PointsUpTo(
      readings: seq<QuotaSnapshot>, n: nat, window: WindowId, span: Duration,
      current: Option<EffectiveWindow>, rate: Rater): seq<RatePoint>
    requires n <= |readings|
  {
    if n == 0 then []
    else
      var p := readings[n - 1];
      PointsUpTo(readings, n - 1, window, span, current, rate)
      + if p.resetAt.None? then []
        else
          var instance := InstanceOf(p, window, span, current);
          [RatePoint(p.ts, instance, rate(n - 1, instance))]
  }

  function RateSeriesOf(
      window: WindowId, span: Duration, current: Option<EffectiveWindow>,
      points: seq<QuotaSnapshot>, maxGap: Duration, root: Root): seq<RatePoint>
  {
    var readings := SortedReadingsOf(points, window);
    PointsUpTo(readings, |readings|, window, span, current, SlicedRater(readings, maxGap, root))
  }

  /** Two snapshots that say the same, whichever poll took them. */
  predicate SameReading(p: QuotaSnapshot, q: QuotaSnapshot) {
    ToReading(p) == ToReading(q) && p.resetAt == q.resetAt
  }

  ghost predicate OneReadingAWindow(points: seq<QuotaSnapshot>, window: WindowId) {
    forall p <- points, q <- points :: p.window == window == q.window && p.ts == q.ts ==> SameReading(p, q)
  }

  lemma SortedReadingsShape(points: seq<QuotaSnapshot>, window: WindowId)
    ensures var readings := SortedReadingsOf(points, window);
      StrictlySortedBy(readings, SnapshotTs) && forall r <- readings :: r in points && r.window == window
  {
    var chosen := Filter(points, OfWindow(window));
    FilterMembers(points, OfWindow(window));
    SortSorted(chosen, SnapshotTs);
    SortMembers(chosen, SnapshotTs);
    DedupSorted(Sort(chosen, SnapshotTs), SnapshotTs);
  }

  /** Every snapshot of the window is represented by one that says the same. */
  lemma Represented(points: seq<QuotaSnapshot>, window: WindowId, q: QuotaSnapshot) returns (d: QuotaSnapshot)
    requires OneReadingAWindow(points, window)
    requires q in points && q.window == window
    ensures d in SortedReadingsOf(points, window) && d.ts == q.ts && SameReading(d, q)
  {
    var chosen := Filter(points, OfWindow(window));
    FilterMembers(points, OfWindow(window));
    SortMembers(chosen, SnapshotTs);
    d := DedupCovers(Sort(chosen, SnapshotTs), SnapshotTs, q);
    SortedReadingsShape(points, window);
  }

  lemma SelectsAlike(w: EffectiveWindow, now: Instant, p: QuotaSnapshot, q: QuotaSnapshot)
    requires p.window == q.window && SameReading(p, q)
    ensures Selects(w, now)(p) == Selects(w, now)(q)
  {
  }

  lemma SliceOffersNoMore(
      points: seq<QuotaSnapshot>, window: WindowId, i: nat, w: EffectiveWindow, now: Instant, r: Reading)
    requires i < |SortedReadingsOf(points, window)|
    requires Offers(w, SliceFor(SortedReadingsOf(points, window), i, w.start), now, r)
    ensures Offers(w, points, now, r)
  {
    var readings := SortedReadingsOf(points, window);
    var slice := SliceFor(readings, i, w.start);
    SortedReadingsShape(points, window);
    var q :| q in slice && Selects(w, now)(q) && ToReading(q) == r;
    assert q in readings;
  }

  lemma InSlice(readings: seq<QuotaSnapshot>, i: nat, start: Instant, d: QuotaSnapshot)
    requires StrictlySortedBy(readings, SnapshotTs) && i < |readings|
    requires d in readings && start <= d.ts <= readings[i].ts
    ensures d in SliceFor(readings, i, start)
  {
    var k :| 0 <= k < |readings| && readings[k] == d;
    assert k > i ==> SnapshotTs(readings[i]) < SnapshotTs(readings[k]);
    var upTo := readings[..i + 1];
    var from := CountBelow(upTo, SnapshotTs, start);
    assert upTo[k] == d;
    assert upTo[from..][k - from] == d;
  }

  lemma SliceOffersNoLess(points: seq<QuotaSnapshot>, window: WindowId, i: nat, w: EffectiveWindow, r: Reading)
    requires OneReadingAWindow(points, window) && w.window == window
    requires i < |SortedReadingsOf(points, window)|
    requires Offers(w, points, SortedReadingsOf(points, window)[i].ts, r)
    ensures Offers(w, SliceFor(SortedReadingsOf(points, window), i, w.start), SortedReadingsOf(points, window)[i].ts, r)
  {
    var readings := SortedReadingsOf(points, window);
    var now := readings[i].ts;
    var q :| q in points && Selects(w, now)(q) && ToReading(q) == r;
    var d := Represented(points, window, q);
    SortedReadingsShape(points, window);
    SelectsAlike(w, now, d, q);
    InSlice(readings, i, w.start, d);
  }

  lemma SliceIsConsistent(points: seq<QuotaSnapshot>, window: WindowId, i: nat, w: EffectiveWindow)
    requires OneReadingAWindow(points, window) && w.window == window
    requires i < |SortedReadingsOf(points, window)|
    ensures var readings := SortedReadingsOf(points, window);
      OneReadingAnInstant(w, SliceFor(readings, i, w.start), readings[i].ts)
  {
    var readings := SortedReadingsOf(points, window);
    var slice := SliceFor(readings, i, w.start);
    SortedReadingsShape(points, window);
    forall q <- slice ensures q in points {
      assert q in readings;
    }
    PartIsConsistent(points, slice, window, w, readings[i].ts);
  }

  lemma PartIsConsistent(
      points: seq<QuotaSnapshot>, part: seq<QuotaSnapshot>, window: WindowId, w: EffectiveWindow, now: Instant)
    requires OneReadingAWindow(points, window) && w.window == window
    requires forall q <- part :: q in points
    ensures OneReadingAnInstant(w, part, now)
  {
  }

  /** A slice and the whole series give one instance the same readings. */
  lemma SliceSeries(points: seq<QuotaSnapshot>, window: WindowId, i: nat, w: EffectiveWindow)
    requires OneReadingAWindow(points, window) && w.window == window
    requires i < |SortedReadingsOf(points, window)|
    ensures var readings := SortedReadingsOf(points, window);
      Series(w, SliceFor(readings, i, w.start), readings[i].ts) == Series(w, points, readings[i].ts)
  {
    var readings := SortedReadingsOf(points, window);
    var slice, now := SliceFor(readings, i, w.start), readings[i].ts;
    SliceIsConsistent(points, window, i, w);
    forall r ensures Offers(w, slice, now, r) <==> Offers(w, points, now, r) {
      if Offers(w, slice, now, r) {
        SliceOffersNoMore(points, window, i, w, now, r);
      }
      if Offers(w, points, now, r) {
        SliceOffersNoLess(points, window, i, w, r);
      }
    }
    SeriesFromSet(w, slice, points, now);
  }

  lemma {:induction false} RatersAgree(
      readings: seq<QuotaSnapshot>, n: nat, window: WindowId, span: Duration,
      current: Option<EffectiveWindow>, a: Rater, b: Rater)
    requires n <= |readings|
    requires forall i: nat, w: EffectiveWindow :: i < |readings| && w.window == window ==> a(i, w) == b(i, w)
    requires current.Some? ==> current.value.window == window
    ensures PointsUpTo(readings, n, window, span, current, a) == PointsUpTo(readings, n, window, span, current, b)
  {
    if n > 0 {
      RatersAgree(readings, n - 1, window, span, current, a, b);
    }
  }

  /** The fast form refines the simple one: sliding the estimator along slices
      gives the series got by estimating afresh, over all the points, at every
      reading's own instant and window instance. */
  lemma SlidingIsEstimatingAfresh(
      window: WindowId, span: Duration, current: Option<EffectiveWindow>,
      points: seq<QuotaSnapshot>, maxGap: Duration, root: Root)
    requires OneReadingAWindow(points, window)
    requires current.Some? ==> current.value.window == window
    ensures var readings := SortedReadingsOf(points, window);
      RateSeriesOf(window, span, current, points, maxGap, root)
      == PointsUpTo(readings, |readings|, window, span, current, FreshRater(readings, points, maxGap, root))
  {
    var readings := SortedReadingsOf(points, window);
    var a, b := SlicedRater(readings, maxGap, root), FreshRater(readings, points, maxGap, root);
    forall i: nat, w: EffectiveWindow | i < |readings| && w.window == window ensures a(i, w) == b(i, w) {
      SliceSeries(points, window, i, w);
    }
    RatersAgree(readings, |readings|, window, span, current, a, b);
  }

  /** The point of the `i`-th reading. */
  ghost predicate IsPointOf(
      x: RatePoint, readings: seq<QuotaSnapshot>, i: nat, window: WindowId, span: Duration,
      current: Option<EffectiveWindow>, rate: Rater)
  {
    && i < |readings| && readings[i].resetAt.Some? && x.ts == readings[i].ts
    && x.window == InstanceOf(readings[i], window, span, current) && x.rate == rate(i, x.window)
  }

  /** Every point is some reading's. */
  lemma {:induction false} PointComesFrom(
      readings: seq<QuotaSnapshot>, n: nat, window: WindowId, span: Duration,
      current: Option<EffectiveWindow>, rate: Rater, x: RatePoint) returns (i: nat)
    requires n <= |readings| && x in PointsUpTo(readings, n, window, span, current, rate)
    ensures IsPointOf(x, readings, i, window, span, current, rate)
  {
    if x in PointsUpTo(readings, n - 1, window, span, current, rate) {
      i := PointComesFrom(readings, n - 1, window, span, current, rate, x);
    } else {
      i := n - 1;
    }
  }

  /** And every reading that carries a reset has one. */
  lemma {:induction false} PointOf(
      readings: seq<QuotaSnapshot>, n: nat, window: WindowId, span: Duration,
      current: Option<EffectiveWindow>, rate: Rater, i: nat) returns (x: RatePoint)
    requires i < n <= |readings| && readings[i].resetAt.Some?
    ensures x in PointsUpTo(readings, n, window, span, current, rate)
    ensures IsPointOf(x, readings, i, window, span, current, rate)
  {
    if i < n - 1 {
      x := PointOf(readings, n - 1, window, span, current, rate, i);
    } else {
      var instance := InstanceOf(readings[i], window, span, current);
      x := RatePoint(readings[i].ts, instance, rate(i, instance));
    }
  }

  ghost predicate HasPoint(series: seq<RatePoint>, ts: Instant, instance: EffectiveWindow) {
    exists x :: x in series && x.ts == ts && x.window == instance
  }

  lemma ReadingHasItsPoint(
      readings: seq<QuotaSnapshot>, i: nat, window: WindowId, span: Duration,
      current: Option<EffectiveWindow>, rate: Rater)
    requires i < |readings| && readings[i].resetAt.Some?
    ensures HasPoint(PointsUpTo(readings, |readings|, window, span, current, rate),
                     readings[i].ts, InstanceOf(readings[i], window, span, current))
  {
    var x := PointOf(readings, |readings|, window, span, current, rate, i);
  }

  lemma SameInstance(
      p: QuotaSnapshot, q: QuotaSnapshot, window: WindowId, span: Duration, current: Option<EffectiveWindow>)
    requires SameReading(p, q) && p.resetAt.Some?
    ensures InstanceOf(p, window, span, current) == InstanceOf(q, window, span, current)
  {
  }

  /** Every reading of the window that carries a reset has its point. */
  lemma EveryReadingHasItsPoint(
      window: WindowId, span: Duration, current: Option<EffectiveWindow>,
      points: seq<QuotaSnapshot>, maxGap: Duration, root: Root, p: QuotaSnapshot)
    requires OneReadingAWindow(points, window)
    requires p in points && p.window == window && p.resetAt.Some?
    ensures HasPoint(RateSeriesOf(window, span, current, points, maxGap, root),
                     p.ts, InstanceOf(p, window, span, current))
  {
    var readings := SortedReadingsOf(points, window);
    var d := Represented(points, window, p);
    var i: nat :| i < |readings| && readings[i] == d;
    ReadingHasItsPoint(readings, i, window, span, current, SlicedRater(readings, maxGap, root));
    SameInstance(d, p, window, span, current);
  }

  /** Each point is rated as its own instance would be, at its own instant,
      over all the points there are. */
  lemma EveryPointIsFresh(
      window: WindowId, span: Duration, current: Option<EffectiveWindow>,
      points: seq<QuotaSnapshot>, maxGap: Duration, root: Root, x: RatePoint)
    requires OneReadingAWindow(points, window)
    requires current.Some? ==> current.value.window == window
    requires x in RateSeriesOf(window, span, current, points, maxGap, root)
    ensures x.rate == Estimate(x.window, points, maxGap, x.ts, root)
  {
    var readings := SortedReadingsOf(points, window);
    var afresh := FreshRater(readings, points, maxGap, root);
    SlidingIsEstimatingAfresh(window, span, current, points, maxGap, root);
    var i := PointComesFrom(readings, |readings|, window, span, current, afresh, x);
  }

  /** A reading within two minutes of the live window's reset and taken since that
      window began. */
  predicate IsLive(p: QuotaSnapshot, current: Option<EffectiveWindow>)
    requires p.resetAt.Some?
  {
    && current.Some? && p.ts >= current.value.start
    && -120 * 1_000_000_000 <= current.value.resetAt - p.resetAt.value <= 120 * 1_000_000_000
  }

  /** `w` is the live window if `p` belongs to it, and otherwise begins one `span`
      before the reset `p` carries; its usage is `p`'s share of the quota. */
  ghost predicate IsMeasuredOn(
      w: EffectiveWindow, p: QuotaSnapshot, window: WindowId, span: Duration, current: Option<EffectiveWindow>)
    requires p.resetAt.Some?
  {
    && (if IsLive(p, current) then
          w.window == current.value.window && w.start == current.value.start && w.resetAt == current.value.resetAt
          && w.startUncertainty == current.value.startUncertainty
        else
          w.window == window && w.start == p.resetAt.value - span && w.resetAt == p.resetAt.value
          && w.startUncertainty == 0)
    && (w.used.Some? <==> p.unit == Percent || (p.limit.Some? && p.limit.value > 0.0))
    && (w.used.Some? ==> w.used.value == ToReading(p).ratio)
  }

  lemma InstanceIsMeasured(p: QuotaSnapshot, window: WindowId, span: Duration, current: Option<EffectiveWindow>)
    requires p.resetAt.Some?
    ensures IsMeasuredOn(InstanceOf(p, window, span, current), p, window, span, current)
  {
  }

  /** A point is the reading's: at its instant, measured on the window it belonged
      to. */
  ghost predicate Shows(
      x: RatePoint, p: QuotaSnapshot, window: WindowId, span: Duration, current: Option<EffectiveWindow>)
  {
    p.window == window && p.ts == x.ts && p.resetAt.Some? && IsMeasuredOn(x.window, p, window, span, current)
  }

  /** Every point is that of a reading of the window. */
  lemma PointShowsItsReading(
      window: WindowId, span: Duration, current: Option<EffectiveWindow>,
      points: seq<QuotaSnapshot>, maxGap: Duration, root: Root, x: RatePoint) returns (p: QuotaSnapshot)
    requires x in RateSeriesOf(window, span, current, points, maxGap, root)
    ensures p in points && Shows(x, p, window, span, current)
  {
    var readings := SortedReadingsOf(points, window);
    SortedReadingsShape(points, window);
    var i := PointComesFrom(readings, |readings|, window, span, current, SlicedRater(readings, maxGap, root), x);
    p := readings[i];
    assert p in readings;
    InstanceIsMeasured(p, window, span, current);
  }

  /** And no two points are at one instant: the series runs forward in time. */
  lemma {:induction false} PointsClimb(
      readings: seq<QuotaSnapshot>, n: nat, window: WindowId, span: Duration,
      current: Option<EffectiveWindow>, rate: Rater)
    requires n <= |readings| && StrictlySortedBy(readings, SnapshotTs)
    ensures var series := PointsUpTo(readings, n, window, span, current, rate);
      && (forall j, k :: 0 <= j < k < |series| ==> series[j].ts < series[k].ts)
      && forall x <- series :: n > 0 && x.ts <= readings[n - 1].ts
  {
    if n > 0 {
      PointsClimb(readings, n - 1, window, span, current, rate);
      var before := PointsUpTo(readings, n - 1, window, span, current, rate);
      forall x <- before ensures x.ts < readings[n - 1].ts {
        assert SnapshotTs(readings[n - 2]) < SnapshotTs(readings[n - 1]);
      }
    }
  }

  lemma SeriesRunsForward(
      window: WindowId, span: Duration, current: Option<EffectiveWindow>,
      points: seq<QuotaSnapshot>, maxGap: Duration, root: Root)
    ensures var series := RateSeriesOf(window, span, current, points, maxGap, root);
      forall j, k :: 0 <= j < k < |series| ==> series[j].ts < series[k].ts
  {
    var readings := SortedReadingsOf(points, window);
    SortedReadingsShape(points, window);
    PointsClimb(readings, |readings|, window, span, current, SlicedRater(readings, maxGap, root));
  }
}
