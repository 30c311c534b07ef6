/** Steady burns that an interval misses, for the part of a second truncated. */
module TruncationMisses {
  import opened Time
  import opened Collections
  import opened Domain
  import opened Metrics
  import opened Estimator
  import opened EstimatorLaws
  import opened RoundingExactness

  // ----- two readings

  /** Two readings of one steady burn, and what their fit says of it. */
  ghost predicate PairHolds(first: Reading, last: Reading, b: Burn, spanSecs: int, root: Root) {
    ValidBurn(b) && Reports(first, b) && Reports(last, b) ==>
      MayHold(FitterOf(ReadingQuantum([first, last]), spanSecs, root)([first, last]), TruePace(b, spanSecs))
  }

  /** Whatever the burn, two readings at these instants give an interval that
      holds its rate. */
  ghost predicate PairsHold(s: Instant, t: Instant, spanSecs: int, root: Root) {
    forall first: Reading, last: Reading, b: Burn | first.ts == s && last.ts == t ::
      PairHolds(first, last, b, spanSecs, root)
  }

  /** That is so exactly if they are whole seconds apart. */
  lemma TwoReadingsHoldExactly(s: Instant, t: Instant, spanSecs: int, root: Root)
    requires NumSeconds(t - s) >= MIN_SAMPLE_SECS && spanSecs > 0
    ensures PairsHold(s, t, spanSecs, root) <==> WholeSeconds(t - s)
  {
    if WholeSeconds(t - s) {
      forall first: Reading, last: Reading, b: Burn | first.ts == s && last.ts == t
        ensures PairHolds(first, last, b, spanSecs, root)
      {
        if ValidBurn(b) && Reports(first, b) && Reports(last, b) {
          WholeSecondsHold(first, last, b, spanSecs, root);
        }
      }
    } else {
      PartSecondsMiss(s, t, spanSecs, root);
    }
  }

  lemma WholeSecondsHold(first: Reading, last: Reading, b: Burn, spanSecs: int, root: Root)
    requires first.ts < last.ts && WholeSeconds(last.ts - first.ts) && spanSecs > 0
    requires ValidBurn(b) && Reports(first, b) && Reports(last, b)
    ensures MayHold(FitterOf(ReadingQuantum([first, last]), spanSecs, root)([first, last]), TruePace(b, spanSecs))
  {
    var run := [first, last];
    var r := FitterOf(ReadingQuantum(run), spanSecs, root)(run);
    QuantumCovers(run, b);
    if r.Some? {
      FitHolds(run, b, ReadingQuantum(run), spanSecs, SpreadOf(root), r.value);
    }
  }

  function PercentReading(ts: Instant, used: real): Reading {
    Reading(ts, used / 100.0, used, Percent, None)
  }

  /** From just under one percent to just two, floored to whole percent. */
  function JustTwo(s: Instant, t: Instant): Burn
    requires t > s
  {
    var short := (Secs(t - s) - NumSeconds(t - s) as real) / (2.0 * Secs(t - s));
    Burn(1.0 - short, (1.0 + short) / Secs(t - s), s, 1.0, Down)
  }

  lemma JustTwoReads(s: Instant, t: Instant)
    requires t > s && !WholeSeconds(t - s) && NumSeconds(t - s) >= MIN_SAMPLE_SECS
    ensures var b := JustTwo(s, t);
      ValidBurn(b) && Reports(PercentReading(s, 0.0), b) && Reports(PercentReading(t, 2.0), b)
  {
    var b, elapsed := JustTwo(s, t), Secs(t - s);
    Truncating(t - s);
    var short := (elapsed - NumSeconds(t - s) as real) / (2.0 * elapsed);
    assert short * (2.0 * elapsed) == elapsed - NumSeconds(t - s) as real;
    assert 0.0 < short < 1.0;
    assert b.slope * elapsed == 1.0 + short;
    assert b.At(s) == 1.0 - short && b.At(t) == 2.0;
  }

  /** The pair's fit: one percent over the whole seconds at the least. */
  lemma PairFit(s: Instant, t: Instant, spanSecs: int, root: Root)
    requires NumSeconds(t - s) >= MIN_SAMPLE_SECS && spanSecs > 0
    ensures var run := [PercentReading(s, 0.0), PercentReading(t, 2.0)];
      var r := FitterOf(ReadingQuantum(run), spanSecs, root)(run);
      r.Some? && r.value.low == 0.01 / NumSeconds(t - s) as real * spanSecs as real
  {
    var run := [PercentReading(s, 0.0), PercentReading(t, 2.0)];
    assert FitsStep(run, 1.0);
    var elapsed := NumSeconds(t - s) as real;
    assert 0.02 / elapsed - 0.01 / elapsed == 0.01 / elapsed;
  }

  lemma PaceOf(b: Burn, spanSecs: int)
    requires b.slope >= 0.0
    ensures TruePace(b, spanSecs) == b.slope / 100.0 * spanSecs as real
  {
  }

  /** The pair's interval begins above the burn's pace. */
  lemma PairMisses(s: Instant, t: Instant, spanSecs: int, root: Root)
    requires NumSeconds(t - s) >= MIN_SAMPLE_SECS && spanSecs > 0 && !WholeSeconds(t - s)
    ensures !PairHolds(PercentReading(s, 0.0), PercentReading(t, 2.0), JustTwo(s, t), spanSecs, root)
  {
    JustTwoReads(s, t);
    PairFit(s, t, spanSecs, root);
    BurnsSlower(s, t, spanSecs);
  }

  lemma BurnsSlower(s: Instant, t: Instant, spanSecs: int)
    requires NumSeconds(t - s) >= MIN_SAMPLE_SECS && spanSecs > 0 && !WholeSeconds(t - s)
    ensures TruePace(JustTwo(s, t), spanSecs) < 0.01 / NumSeconds(t - s) as real * spanSecs as real
  {
    var (secs, slope) := (NumSeconds(t - s) as real, JustTwo(s, t).slope);
    Truncating(t - s);
    SlowerThanRead(secs, Secs(t - s), slope);
    PaceOf(JustTwo(s, t), spanSecs);
    SpanApart(slope / 100.0, 0.01 / secs, spanSecs as real);
  }

  lemma PartSecondsMiss(s: Instant, t: Instant, spanSecs: int, root: Root)
    requires NumSeconds(t - s) >= MIN_SAMPLE_SECS && spanSecs > 0 && !WholeSeconds(t - s)
    ensures !PairsHold(s, t, spanSecs, root)
  {
    PairMisses(s, t, spanSecs, root);
    assert PercentReading(s, 0.0).ts == s && PercentReading(t, 2.0).ts == t;
  }

  lemma SpanApart(a: real, b: real, span: real)
    requires a < b && span > 0.0
    ensures a * span < b * span
  {
  }

  lemma SlowerThanRead(secs: real, elapsed: real, slope: real)
    requires 0.0 < secs < elapsed
    requires slope == (1.0 + (elapsed - secs) / (2.0 * elapsed)) / elapsed
    ensures 0.0 < slope / 100.0 < 0.01 / secs
  {
    var short := (elapsed - secs) / (2.0 * elapsed);
    assert short * (2.0 * elapsed) == elapsed - secs;
    assert slope * elapsed == 1.0 + short;
    assert (1.0 + short) * secs < elapsed;
    CrossStrictly(1.0 + short, elapsed, 1.0, secs);
  }

  // ----- through the whole estimator

  /** A burn from nothing at 0.039958% a second, floored to whole percent. */
  function TheBurn(): Burn {
    Burn(0.0, 0.039958, 0, 1.0, Down)
  }

  const FIRST: Instant := 0
  const SECOND_READING: Instant := 1001 * SECOND
  const LAST: Instant := 1901 * SECOND + 999 * MILLI

  function TheStretch(): seq<Reading> {
    [PercentReading(FIRST, 0.0), PercentReading(SECOND_READING, 39.0), PercentReading(LAST, 76.0)]
  }

  function SnapshotAt(ts: Instant, used: real): QuotaSnapshot {
    QuotaSnapshot(0, ts, "w", "w", Percent, used, None, Some(5 * HOUR))
  }

  function TheSnapshots(): seq<QuotaSnapshot> {
    [SnapshotAt(FIRST, 0.0), SnapshotAt(SECOND_READING, 39.0), SnapshotAt(LAST, 76.0)]
  }

  function TheWindow(): EffectiveWindow {
    EffectiveWindow("w", 0, 5 * HOUR, 0, Some(0.76))
  }

  lemma Floored(x: real, n: int)
    requires n as real <= x < n as real + 1.0
    ensures Published(x, 1.0, Down) == n as real
  {
    var f := (x / 1.0).Floor;
    assert f as real <= x < f as real + 1.0;
    assert f < n + 1 && n < f + 1;
  }

  lemma ReportedAt(ts: Instant, n: int)
    requires 0 <= n < 100 && n as real <= TheBurn().At(ts) < n as real + 1.0
    ensures Reports(PercentReading(ts, n as real), TheBurn())
  {
    Floored(TheBurn().At(ts), n);
  }

  lemma AllReported()
    ensures forall r <- TheStretch() :: Reports(r, TheBurn())
  {
    ReportedAt(FIRST, 0);
    ReportedAt(SECOND_READING, 39);
    ReportedAt(LAST, 76);
  }

  /** Snapshots in order, all of the instance, are its series. */
  lemma SeriesOfSelected(w: EffectiveWindow, points: seq<QuotaSnapshot>, now: Instant)
    requires (forall p <- points :: Selects(w, now)(p)) && StrictlySortedBy(ReadingsOf(points), Ts)
    ensures Series(w, points, now) == ReadingsOf(points)
  {
    FilterAll(points, Selects(w, now));
    StrictlyInOrder(ReadingsOf(points), Ts);
  }

  /** An unbroken run at one resolution. */
  predicate IsOneStretch(run: seq<Reading>, maxGap: Duration, quantum: real) {
    run != [] && Stretch(run, maxGap) == run && ReadingQuantum(run) == quantum
  }

  lemma OneStretch()
    ensures IsOneStretch(TheStretch(), 20 * MINUTE, 0.01)
  {
    var run := TheStretch();
    assert StretchFrom(run, 2, 20 * MINUTE) == 0 && run[0..] == run;
    assert FitsStep(run, 1.0);
  }

  /** A wider look whose added readings contradict the first fit. */
  lemma StoppedByTheSecond(
      stretch: seq<Reading>, fit: Fitter, lookback: Duration, newer: RateEstimate, older: RateEstimate)
    requires LooksTwice(stretch, lookback) && Contradict(stretch, fit, newer, older)
    ensures Widen(stretch, fit, lookback, None) == Some(newer)
  {
    assert CountBelow(stretch, Ts, stretch[2].ts - lookback) == 1;
    PassOver(stretch, fit, lookback, None, 1);
    WidenUnfolds(stretch, fit, lookback, None);
    assert stretch[0..] == stretch && CountBelow(stretch, Ts, newer.from + 1) == 2;
    assert CountBelow(stretch, Ts, stretch[2].ts - lookback * 2) == 0;
    PassOver(stretch, fit, lookback * 2, Some(newer), 0);
    WidenUnfolds(stretch, fit, lookback * 2, Some(newer));
  }

  lemma FitOfTwo(
      s: Instant, t: Instant, secs: int, x: real, y: real, spanSecs: int, root: Root) returns (e: RateEstimate)
    requires NumSeconds(t - s) == secs >= MIN_SAMPLE_SECS && spanSecs > 0 && 0.0 <= x && x + 1.0 <= y <= 100.0
    ensures Fit([PercentReading(s, x), PercentReading(t, y)], 0.01, spanSecs as real, SpreadOf(root)) == Some(e)
    ensures e.low == (y - x - 1.0) / 100.0 / secs as real * spanSecs as real
    ensures e.high == (y - x + 1.0) / 100.0 / secs as real * spanSecs as real
    ensures e.from == s && e.to == t && !e.IsPrecise()
  {
    var run := [PercentReading(s, x), PercentReading(t, y)];
    e := Fit(run, 0.01, spanSecs as real, SpreadOf(root)).value;
    var elapsed := secs as real;
    assert (y - x) / 100.0 / elapsed - 0.01 / elapsed == (y - x - 1.0) / 100.0 / elapsed;
    assert (y - x) / 100.0 / elapsed + 0.01 / elapsed == (y - x + 1.0) / 100.0 / elapsed;
    assert (y - x - 1.0) / 100.0 / elapsed >= 0.0;
  }

  /** Every snapshot is the instance's and reports the burn. */
  ghost predicate AllReport(w: EffectiveWindow, points: seq<QuotaSnapshot>, now: Instant, b: Burn) {
    ValidBurn(b) && forall p <- points :: Selects(w, now)(p) && Reports(ToReading(p), b)
  }

  /** An interval above the pace, not precise and made over less than the run. */
  ghost predicate MissedAs(e: RateEstimate, run: seq<Reading>, pace: real) {
    run != [] && e.low > pace && !e.IsPrecise() && e.from > run[0].ts
  }

  /** Every snapshot reports the burn, they make one unbroken stretch, and the
      estimate misses it. */
  ghost predicate IsMissed(
      w: EffectiveWindow, points: seq<QuotaSnapshot>, maxGap: Duration, now: Instant, root: Root, b: Burn,
      e: RateEstimate)
  {
    && AllReport(w, points, now, b) && Estimate(w, points, maxGap, now, root) == Some(e)
    && Series(w, points, now) != [] && Stretch(Series(w, points, now), maxGap) == Series(w, points, now)
    && MissedAs(e, Series(w, points, now), TruePace(b, NumSeconds(w.Span())))
  }

  /** The last two readings' fit and the first two's, which are disjoint. */
  lemma TheFits(root: Root) returns (newer: RateEstimate, older: RateEstimate)
    ensures Contradict(TheStretch(), FitterOf(0.01, 18000, root), newer, older)
    ensures newer.low == 7.2 && newer.from == SECOND_READING && !newer.IsPrecise()
  {
    newer := FitOfTwo(SECOND_READING, LAST, 900, 39.0, 76.0, 18000, root);
    older := FitOfTwo(FIRST, SECOND_READING, 1001, 0.0, 39.0, 18000, root);
    var run := TheStretch();
    assert run[1..] == [run[1], run[2]] && run[..2] == [run[0], run[1]];
  }

  /** The first look takes in all but the first reading, and the second all. */
  predicate LooksTwice(run: seq<Reading>, lookback: Duration) {
    && |run| == 3 && lookback > 0 && run[0].ts < run[2].ts - lookback <= run[1].ts < run[2].ts
    && run[2].ts - 2 * lookback <= run[0].ts
  }

  /** The fits of the last two readings and of the first two. */
  predicate Contradict(run: seq<Reading>, fit: Fitter, newer: RateEstimate, older: RateEstimate) {
    && |run| == 3 && fit(run[1..]) == Some(newer) && fit(run[..2]) == Some(older)
    && !newer.IsPrecise() && newer.from == run[1].ts && Disjoint(older, newer)
  }

  /** An estimate of one stretch of three readings, stopped at the second look. */
  lemma StoppedEstimate(
      run: seq<Reading>, span: Duration, maxGap: Duration, now: Instant, root: Root, quantum: real,
      newer: RateEstimate, older: RateEstimate)
    requires NumSeconds(span) > 0 && |run| == 3 && now - run[2].ts <= maxGap
    requires IsOneStretch(run, maxGap, quantum)
    requires LooksTwice(run, RecentLookback(span))
    requires Contradict(run, FitterOf(quantum, NumSeconds(span), root), newer, older)
    ensures EstimateOf(run, span, maxGap, now, root) == Some(newer)
  {
    StoppedByTheSecond(run, FitterOf(quantum, NumSeconds(span), root), RecentLookback(span), newer, older);
  }

  /** The first lookback fits the last two readings, and what the next one adds
      contradicts them. */
  lemma TheEstimate(root: Root) returns (e: RateEstimate)
    ensures EstimateOf(TheStretch(), 5 * HOUR, 20 * MINUTE, LAST, root) == Some(e)
    ensures e.low == 7.2 && e.from == SECOND_READING && !e.IsPrecise()
  {
    var older;
    e, older := TheFits(root);
    OneStretch();
    TheLooks();
    StoppedEstimate(TheStretch(), 5 * HOUR, 20 * MINUTE, LAST, root, 0.01, e, older);
  }

  lemma TheLooks()
    ensures NumSeconds(5 * HOUR) == 18000 && LooksTwice(TheStretch(), RecentLookback(5 * HOUR))
  {
  }

  lemma TheReadings()
    ensures ReadingsOf(TheSnapshots()) == TheStretch() && StrictlySortedBy(TheStretch(), Ts)
  {
    var (run, points) := (ReadingsOf(TheSnapshots()), TheSnapshots());
    assert run[0] == ToReading(points[0]) && run[1] == ToReading(points[1]) && run[2] == ToReading(points[2]);
  }

  lemma TheReports()
    ensures AllReport(TheWindow(), TheSnapshots(), LAST, TheBurn())
  {
    AllReported();
    TheReadings();
    forall p <- TheSnapshots() ensures Reports(ToReading(p), TheBurn()) {
      assert ToReading(p) in TheStretch();
    }
  }

  /** Snapshots that report a burn, as an ordered run of readings. */
  ghost predicate MakesRun(w: EffectiveWindow, points: seq<QuotaSnapshot>, now: Instant, b: Burn, run: seq<Reading>) {
    AllReport(w, points, now, b) && ReadingsOf(points) == run != [] && StrictlySortedBy(run, Ts)
  }

  /** One unbroken run, whose estimate misses the pace. */
  ghost predicate RunIsMissed(
      run: seq<Reading>, span: Duration, maxGap: Duration, now: Instant, root: Root, pace: real, e: RateEstimate)
  {
    && run != [] && Stretch(run, maxGap) == run
    && EstimateOf(run, span, maxGap, now, root) == Some(e) && MissedAs(e, run, pace)
  }

  lemma MissedOn(
      w: EffectiveWindow, points: seq<QuotaSnapshot>, maxGap: Duration, now: Instant, root: Root, b: Burn,
      run: seq<Reading>, e: RateEstimate)
    requires MakesRun(w, points, now, b, run)
    requires RunIsMissed(run, w.Span(), maxGap, now, root, TruePace(b, NumSeconds(w.Span())), e)
    ensures IsMissed(w, points, maxGap, now, root, b, e)
  {
    SeriesOfSelected(w, points, now);
  }

  lemma TheRun()
    ensures MakesRun(TheWindow(), TheSnapshots(), LAST, TheBurn(), TheStretch())
  {
    TheReports();
    TheReadings();
  }

  lemma TheMiss(root: Root) returns (e: RateEstimate)
    ensures RunIsMissed(TheStretch(), 5 * HOUR, 20 * MINUTE, LAST, root, TruePace(TheBurn(), 18000), e)
  {
    e := TheEstimate(root);
    OneStretch();
    PaceOf(TheBurn(), 18000);
  }

  lemma TheParts(root: Root)
    returns (w: EffectiveWindow, points: seq<QuotaSnapshot>, b: Burn, run: seq<Reading>, e: RateEstimate)
    ensures MakesRun(w, points, LAST, b, run)
    ensures RunIsMissed(run, w.Span(), 20 * MINUTE, LAST, root, TruePace(b, NumSeconds(w.Span())), e)
  {
    w, points, b, run := TheWindow(), TheSnapshots(), TheBurn(), TheStretch();
    TheRun();
    e := TheMiss(root);
    assert w.Span() == 5 * HOUR && NumSeconds(w.Span()) == 18000;
  }

  /** Three readings of a 5-hour window: 0%, 39% after 1001 seconds, 76% another
      900.999 seconds on. The last two read at least 7.2 times the affordable rate,
      the first two less, and the truth is 7.19: the widening is stopped and the
      rate missed. */
  lemma ASteadyBurnIsMissed(root: Root)
    returns (w: EffectiveWindow, points: seq<QuotaSnapshot>, b: Burn, e: RateEstimate)
    ensures IsMissed(w, points, 20 * MINUTE, LAST, root, b, e)
  {
    var run;
    w, points, b, run, e := TheParts(root);
    MissedOn(w, points, 20 * MINUTE, LAST, root, b, run, e);
  }
}
