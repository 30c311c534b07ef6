/** What the estimator's answer is, and what it does not depend on. */
module EstimatorLaws {
  import opened Time
  import opened Collections
  import opened Domain
  import opened Rollover
  import opened Metrics
  import opened Estimator

  // ----- the series

  lemma {:induction false} DedupKeeps(s: seq<Reading>)
    requires forall a <- s, b <- s :: a.ts == b.ts ==> a == b
    ensures forall r <- s :: r in Dedup(s, Ts)
  {
    if |s| > 1 {
      var front, last := s[..|s| - 1], s[|s| - 1];
      assert s == front + [last];
      DedupKeeps(front);
      assert front[|front| - 1] in s;
    }
  }

  /** A reading some selected snapshot carries. */
  ghost predicate Offers(w: EffectiveWindow, points: seq<QuotaSnapshot>, now: Instant, r: Reading) {
    exists p <- points :: Selects(w, now)(p) && ToReading(p) == r
  }

  /** Equal instants carry equal readings. */
  ghost predicate OneReadingAnInstant(w: EffectiveWindow, points: seq<QuotaSnapshot>, now: Instant) {
    forall p <- points, q <- points ::
      Selects(w, now)(p) && Selects(w, now)(q) && p.ts == q.ts ==> ToReading(p) == ToReading(q)
  }

  lemma SortedReadings(w: EffectiveWindow, points: seq<QuotaSnapshot>, now: Instant)
    ensures var sorted := Sort(ReadingsOf(Filter(points, Selects(w, now))), Ts);
      SortedBy(sorted, Ts) && forall r :: r in sorted <==> Offers(w, points, now, r)
  {
    var chosen := Filter(points, Selects(w, now));
    FilterMembers(points, Selects(w, now));
    SortSorted(ReadingsOf(chosen), Ts);
    SortMembers(ReadingsOf(chosen), Ts);
    forall r ensures r in ReadingsOf(chosen) <==> Offers(w, points, now, r) {
      ReadingsMembers(chosen, r);
      if Offers(w, points, now, r) {
        var p :| p in points && Selects(w, now)(p) && ToReading(p) == r;
        assert p in chosen;
      }
    }
  }

  lemma ReadingsMembers(points: seq<QuotaSnapshot>, r: Reading)
    ensures r in ReadingsOf(points) <==> exists p <- points :: ToReading(p) == r
  {
    if p :| p in points && ToReading(p) == r {
      var i :| 0 <= i < |points| && points[i] == p;
      assert ReadingsOf(points)[i] == r;
    }
  }

  /** The series is strictly increasing in time and offers one selected reading
      for every instant that has any. */
  lemma SeriesShape(w: EffectiveWindow, points: seq<QuotaSnapshot>, now: Instant)
    ensures var run := Series(w, points, now);
      && StrictlySortedBy(run, Ts)
      && (forall r <- run :: Offers(w, points, now, r) && w.start <= r.ts <= now)
      && (OneReadingAnInstant(w, points, now) ==> forall r :: r in run <==> Offers(w, points, now, r))
  {
    SortedReadings(w, points, now);
    var sorted := Sort(ReadingsOf(Filter(points, Selects(w, now))), Ts);
    DedupSorted(sorted, Ts);
    if OneReadingAnInstant(w, points, now) {
      DedupKeeps(sorted);
    }
  }

  /** Only the set of readings matters: reordering or repeating snapshots
      changes nothing, as long as equal instants carry equal readings. */
  lemma SeriesFromSet(w: EffectiveWindow, points: seq<QuotaSnapshot>, points': seq<QuotaSnapshot>, now: Instant)
    requires OneReadingAnInstant(w, points, now)
    requires forall r :: Offers(w, points, now, r) <==> Offers(w, points', now, r)
    ensures Series(w, points, now) == Series(w, points', now)
  {
    forall p <- points', q <- points' | Selects(w, now)(p) && Selects(w, now)(q) && p.ts == q.ts
      ensures ToReading(p) == ToReading(q)
    {
      assert Offers(w, points', now, ToReading(p)) && Offers(w, points', now, ToReading(q));
      assert Offers(w, points, now, ToReading(p)) && Offers(w, points, now, ToReading(q));
    }
    SeriesShape(w, points, now);
    SeriesShape(w, points', now);
    StrictlySortedUnique(Series(w, points, now), Series(w, points', now), Ts);
  }

  lemma OrderAndRepeatsDoNotMatter(
      w: EffectiveWindow, points: seq<QuotaSnapshot>, points': seq<QuotaSnapshot>,
      maxGap: Duration, now: Instant, root: Root)
    requires OneReadingAnInstant(w, points, now)
    requires forall p :: p in points <==> p in points'
    ensures Estimate(w, points, maxGap, now, root) == Estimate(w, points', maxGap, now, root)
  {
    SeriesFromSet(w, points, points', now);
  }

  // ----- nothing before a break matters

  function SnapshotFrom(cut: Instant): QuotaSnapshot -> bool {
    (p: QuotaSnapshot) => p.ts >= cut
  }

  function ReadingFrom(cut: Instant): Reading -> bool {
    (r: Reading) => r.ts >= cut
  }

  lemma {:induction false} ReadingsFrom(w: EffectiveWindow, points: seq<QuotaSnapshot>, now: Instant, cut: Instant)
    ensures ReadingsOf(Filter(Filter(points, SnapshotFrom(cut)), Selects(w, now)))
         == Filter(ReadingsOf(Filter(points, Selects(w, now))), ReadingFrom(cut))
  {
    if points != [] {
      ReadingsFrom(w, points[..|points| - 1], now, cut);
      var p := points[|points| - 1];
      var chosen := Filter(points[..|points| - 1], Selects(w, now));
      var kept := Filter(Filter(points[..|points| - 1], SnapshotFrom(cut)), Selects(w, now));
      assert ReadingsOf(chosen + [p]) == ReadingsOf(chosen) + [ToReading(p)];
      assert ReadingsOf(kept + [p]) == ReadingsOf(kept) + [ToReading(p)];
      assert (ReadingsOf(chosen) + [ToReading(p)])[..|chosen|] == ReadingsOf(chosen);
    }
  }

  lemma DedupStep(front: seq<Reading>, last: Reading)
    requires front != []
    ensures Dedup(front + [last], Ts)
         == if last.ts == front[|front| - 1].ts then Dedup(front, Ts) else Dedup(front, Ts) + [last]
  {
    assert (front + [last])[..|front|] == front;
  }

  lemma FilterStep(front: seq<Reading>, last: Reading, cut: Instant)
    ensures Filter(front + [last], ReadingFrom(cut))
         == Filter(front, ReadingFrom(cut)) + if last.ts >= cut then [last] else []
  {
    assert (front + [last])[..|front|] == front;
  }

  /** From a cut no later than the last reading but one. */
  lemma DedupFromInside(front: seq<Reading>, last: Reading, cut: Instant)
    requires front != [] && cut <= front[|front| - 1].ts <= last.ts
    requires Dedup(Filter(front, ReadingFrom(cut)), Ts) == Filter(Dedup(front, Ts), ReadingFrom(cut))
    ensures Dedup(Filter(front + [last], ReadingFrom(cut)), Ts) == Filter(Dedup(front + [last], Ts), ReadingFrom(cut))
  {
    var kept := Filter(front, ReadingFrom(cut));
    FilterStep(front, last, cut);
    KeepsLast(front, cut);
    DedupStep(kept, last);
    DedupStep(front, last);
    FilterStep(Dedup(front, Ts), last, cut);
  }

  /** From a cut past it. */
  lemma DedupFromOutside(front: seq<Reading>, last: Reading, cut: Instant)
    requires front != [] && front[|front| - 1].ts < cut && front[|front| - 1].ts <= last.ts
    requires Filter(front, ReadingFrom(cut)) == [] && Filter(Dedup(front, Ts), ReadingFrom(cut)) == []
    ensures Dedup(Filter(front + [last], ReadingFrom(cut)), Ts) == Filter(Dedup(front + [last], Ts), ReadingFrom(cut))
  {
    FilterStep(front, last, cut);
    DedupStep(front, last);
    FilterStep(Dedup(front, Ts), last, cut);
  }

  lemma DedupFromStep(front: seq<Reading>, last: Reading, cut: Instant)
    requires front != [] && front[|front| - 1].ts <= last.ts
    requires Dedup(Filter(front, ReadingFrom(cut)), Ts) == Filter(Dedup(front, Ts), ReadingFrom(cut))
    requires front[|front| - 1].ts < cut ==> Filter(front, ReadingFrom(cut)) == []
    ensures Dedup(Filter(front + [last], ReadingFrom(cut)), Ts) == Filter(Dedup(front + [last], Ts), ReadingFrom(cut))
  {
    if front[|front| - 1].ts >= cut {
      DedupFromInside(front, last, cut);
    } else {
      DedupFromOutside(front, last, cut);
    }
  }

  lemma DedupFromLast(s: seq<Reading>, front: seq<Reading>, last: Reading, cut: Instant)
    requires s == front + [last] && front != [] && SortedBy(s, Ts)
    requires Dedup(Filter(front, ReadingFrom(cut)), Ts) == Filter(Dedup(front, Ts), ReadingFrom(cut))
    requires front[|front| - 1].ts < cut ==> Filter(front, ReadingFrom(cut)) == []
    ensures Dedup(Filter(s, ReadingFrom(cut)), Ts) == Filter(Dedup(s, Ts), ReadingFrom(cut))
  {
    assert Ts(s[|front| - 1]) <= Ts(s[|front|]);
    DedupFromStep(front, last, cut);
  }

  lemma {:induction false} DedupFrom(s: seq<Reading>, cut: Instant)
    requires SortedBy(s, Ts)
    ensures Dedup(Filter(s, ReadingFrom(cut)), Ts) == Filter(Dedup(s, Ts), ReadingFrom(cut))
  {
    if |s| > 1 {
      var front, last := s[..|s| - 1], s[|s| - 1];
      DedupFrom(front, cut);
      if front[|front| - 1].ts < cut {
        AllBefore(front, cut);
      }
      DedupFromLast(s, front, last, cut);
    }
  }

  lemma AllBefore(s: seq<Reading>, cut: Instant)
    requires SortedBy(s, Ts) && s != [] && s[|s| - 1].ts < cut
    ensures Filter(s, ReadingFrom(cut)) == []
  {
    forall i | 0 <= i < |s| ensures s[i].ts < cut {
      assert Ts(s[i]) <= Ts(s[|s| - 1]);
    }
    FilterNone(s, ReadingFrom(cut));
  }

  lemma KeepsLast(s: seq<Reading>, cut: Instant)
    requires s != [] && s[|s| - 1].ts >= cut
    ensures var kept := Filter(s, ReadingFrom(cut)); kept != [] && kept[|kept| - 1] == s[|s| - 1]
  {
  }

  lemma {:induction false} SuffixFrom(run: seq<Reading>, k: nat)
    requires StrictlySortedBy(run, Ts) && k < |run|
    ensures Filter(run, ReadingFrom(run[k].ts)) == run[k..]
  {
    var cut := run[k].ts;
    FilterNone(run[..k], ReadingFrom(cut));
    FilterAll(run[k..], ReadingFrom(cut));
    FilterAppend(run[..k], run[k..], ReadingFrom(cut));
    assert run == run[..k] + run[k..];
  }

  lemma {:induction false} StretchOfSuffix(run: seq<Reading>, k: nat, i: nat, maxGap: Duration)
    requires 0 < k <= i < |run| && Breaks(run[k - 1], run[k], maxGap)
    ensures StretchFrom(run, i, maxGap) == k + StretchFrom(run[k..], i - k, maxGap)
  {
    if i > k {
      StretchOfSuffix(run, k, i - 1, maxGap);
    }
  }

  /** Dropping snapshots before an instant drops exactly that part of the series. */
  lemma SeriesFrom(w: EffectiveWindow, points: seq<QuotaSnapshot>, now: Instant, cut: Instant)
    ensures Series(w, Filter(points, SnapshotFrom(cut)), now) == Filter(Series(w, points, now), ReadingFrom(cut))
  {
    var readings := ReadingsOf(Filter(points, Selects(w, now)));
    ReadingsFrom(w, points, now, cut);
    FilterSort(readings, Ts, ReadingFrom(cut));
    SortSorted(readings, Ts);
    DedupFrom(Sort(readings, Ts), cut);
  }

  lemma SameStretch(run: seq<Reading>, k: nat, maxGap: Duration)
    requires 0 < k < |run| && Breaks(run[k - 1], run[k], maxGap)
    ensures Stretch(run[k..], maxGap) == Stretch(run, maxGap)
  {
    var tail := run[k..];
    StretchOfSuffix(run, k, |run| - 1, maxGap);
    var first := StretchFrom(tail, |tail| - 1, maxGap);
    assert run[k..][first..] == run[k + first..];
  }

  lemma EstimateOfSuffix(run: seq<Reading>, k: nat, span: Duration, maxGap: Duration, now: Instant, root: Root)
    requires 0 < k < |run| && Breaks(run[k - 1], run[k], maxGap)
    ensures EstimateOf(run[k..], span, maxGap, now, root) == EstimateOf(run, span, maxGap, now, root)
  {
    SameStretch(run, k, maxGap);
  }

  /** Deleting every reading before a break leaves the estimate as it was. */
  lemma NothingBeforeABreakMatters(
      w: EffectiveWindow, points: seq<QuotaSnapshot>, maxGap: Duration, now: Instant, root: Root, k: nat)
    requires var run := Series(w, points, now);
      0 < k < |run| && Breaks(run[k - 1], run[k], maxGap)
    ensures var cut := Series(w, points, now)[k].ts;
      Estimate(w, Filter(points, SnapshotFrom(cut)), maxGap, now, root) == Estimate(w, points, maxGap, now, root)
  {
    var run := Series(w, points, now);
    SeriesFrom(w, points, now, run[k].ts);
    SeriesShape(w, points, now);
    SuffixFrom(run, k);
    EstimateOfSuffix(run, k, w.Span(), maxGap, now, root);
  }

  // ----- what widening returns, and when it stops

  lemma {:induction false} StretchShape(run: seq<Reading>, i: nat, maxGap: Duration)
    requires i < |run|
    ensures var first := StretchFrom(run, i, maxGap);
      && (forall k :: first < k <= i ==> !Breaks(run[k - 1], run[k], maxGap))
      && (first > 0 ==> Breaks(run[first - 1], run[first], maxGap))
  {
    if i > 0 && !Breaks(run[i - 1], run[i], maxGap) {
      StretchShape(run, i - 1, maxGap);
    }
  }

  ghost predicate FitsSuffix(run: seq<Reading>, s: nat, fit: Fitter, e: RateEstimate) {
    s < |run| && fit(run[s..]) == Some(e)
  }

  lemma {:induction false} WidenFitsASuffix(
      stretch: seq<Reading>, fit: Fitter, lookback: Duration, narrower: Option<RateEstimate>)
    requires stretch != [] && lookback > 0
    requires fit([]).None?
    requires narrower.Some? ==> exists s: nat :: FitsSuffix(stretch, s, fit, narrower.value)
    ensures var r := Widen(stretch, fit, lookback, narrower);
      r.Some? ==> exists s: nat :: FitsSuffix(stretch, s, fit, r.value)
    decreases Beyond(stretch, lookback)
  {
    var start := CountBelow(stretch, Ts, stretch[|stretch| - 1].ts - lookback);
    var estimate := fit(stretch[start..]);
    if estimate.Some? {
      assert stretch[|stretch|..] == [];
      assert FitsSuffix(stretch, start, fit, estimate.value);
    }
    var pass := OnePass(stretch, fit, lookback, narrower);
    if pass.Again? {
      AgainMeansBeyond(stretch, fit, lookback, narrower);
      WidenFitsASuffix(stretch, fit, lookback * 2, pass.narrower);
    }
  }

  /** `e` is the fit of the readings from `s` on, none of whose steps breaks. */
  ghost predicate UnbrokenFit(run: seq<Reading>, s: nat, fit: Fitter, e: RateEstimate, maxGap: Duration) {
    && FitsSuffix(run, s, fit, e)
    && forall k :: s < k < |run| ==> !Breaks(run[k - 1], run[k], maxGap)
  }

  lemma SuffixOfStretch(run: seq<Reading>, maxGap: Duration, s: nat, fit: Fitter, e: RateEstimate) returns (s': nat)
    requires run != [] && FitsSuffix(Stretch(run, maxGap), s, fit, e)
    ensures UnbrokenFit(run, s', fit, e, maxGap)
  {
    var first := StretchFrom(run, |run| - 1, maxGap);
    SliceOfSlice(run, first, s);
    StretchShape(run, |run| - 1, maxGap);
    s' := first + s;
  }

  lemma SliceOfSlice(run: seq<Reading>, first: nat, s: nat)
    requires first + s <= |run|
    ensures run[first..][s..] == run[first + s..]
  {
  }

  function FitterFor(run: seq<Reading>, span: Duration, maxGap: Duration, root: Root): Fitter
    requires run != []
  {
    FitterOf(ReadingQuantum(Stretch(run, maxGap)), NumSeconds(span), root)
  }

  /** Any estimate is the fit of an unbroken suffix of the series: it ends at
      the newest reading, which is no older than `maxGap`, starts no earlier
      than the window, and crosses no hole and no fall. */
  lemma EstimateFitsTheRecentEnd(
      w: EffectiveWindow, points: seq<QuotaSnapshot>, maxGap: Duration, now: Instant, root: Root, e: RateEstimate)
    requires Estimate(w, points, maxGap, now, root) == Some(e)
    ensures Series(w, points, now) != []
    ensures var run := Series(w, points, now);
      && e.to == run[|run| - 1].ts && now - maxGap <= e.to <= now
      && w.start <= e.from
      && exists s: nat :: UnbrokenFit(run, s, FitterFor(run, w.Span(), maxGap, root), e, maxGap)
  {
    var run := Series(w, points, now);
    var stretch := Stretch(run, maxGap);
    var fit := FitterFor(run, w.Span(), maxGap, root);
    WidenFitsASuffix(stretch, fit, RecentLookback(w.Span()), None);
    var s: nat :| FitsSuffix(stretch, s, fit, e);
    var s' := SuffixOfStretch(run, maxGap, s, fit, e);
    FitEnds(run, s', fit, e, ReadingQuantum(stretch), NumSeconds(w.Span()), root);
    SeriesShape(w, points, now);
    assert run[s'] in run && run[|run| - 1] in run;
  }

  lemma FitEnds(run: seq<Reading>, s: nat, fit: Fitter, e: RateEstimate, quantum: real, spanSecs: int, root: Root)
    requires fit == FitterOf(quantum, spanSecs, root)
    requires FitsSuffix(run, s, fit, e)
    ensures e.from == run[s].ts && e.to == run[|run| - 1].ts
  {
    assert run[s..][0] == run[s] && run[s..][|run[s..]| - 1] == run[|run| - 1];
  }

  /** How many passes the loop makes. */
  ghost function Passes(stretch: seq<Reading>, fit: Fitter, lookback: Duration, narrower: Option<RateEstimate>): nat
    requires stretch != [] && lookback > 0
    decreases Beyond(stretch, lookback)
  {
    match OnePass(stretch, fit, lookback, narrower)
    case Done(_) => 1
    case Again(estimate) =>
      AgainMeansBeyond(stretch, fit, lookback, narrower);
      1 + Passes(stretch, fit, lookback * 2, estimate)
  }

  /** `ceil(log2(d / l))`, zero when `d` is no longer than `l`. */
  ghost predicate IsCeilLog2(d: Duration, l: Duration, k: nat) {
    d <= l * Pow2(k) && (k > 0 ==> l * Pow2(k - 1) < d)
  }

  lemma {:induction false} PassesAreLogarithmic(
      stretch: seq<Reading>, fit: Fitter, lookback: Duration, narrower: Option<RateEstimate>, k: nat)
    requires stretch != [] && lookback > 0
    requires stretch[|stretch| - 1].ts - stretch[0].ts <= lookback * Pow2(k)
    ensures 1 <= Passes(stretch, fit, lookback, narrower) <= 1 + k
    decreases Beyond(stretch, lookback)
  {
    var pass := OnePass(stretch, fit, lookback, narrower);
    if pass.Again? {
      AgainMeansBeyond(stretch, fit, lookback, narrower);
      assert k > 0;
      assert lookback * Pow2(k) == lookback * 2 * Pow2(k - 1);
      PassesAreLogarithmic(stretch, fit, lookback * 2, pass.narrower, k - 1);
    }
  }

  /** The loop stops within 1 + ceil(log2(D / L0)) passes, D being the length of
      the stretch and L0 the first lookback, which is never under 15 minutes. */
  lemma WideningStops(
      run: seq<Reading>, span: Duration, maxGap: Duration, root: Root, k: nat)
    requires run != []
    requires var stretch := Stretch(run, maxGap);
      IsCeilLog2(stretch[|stretch| - 1].ts - stretch[0].ts, RecentLookback(span), k)
    ensures RecentLookback(span) >= 15 * MINUTE
    ensures 1 <= Passes(Stretch(run, maxGap), FitterFor(run, span, maxGap, root), RecentLookback(span), None) <= 1 + k
  {
    PassesAreLogarithmic(
      Stretch(run, maxGap), FitterFor(run, span, maxGap, root), RecentLookback(span), None, k);
  }

  // ----- where the widening stops

  /** The `j`-th lookback: the first one, doubled `j` times. */
  function Lookback(first: Duration, j: nat): Duration {
    if j == 0 then first else Lookback(first, j - 1) * 2
  }

  /** Where the `j`-th lookback begins in the stretch. */
  function StartAt(stretch: seq<Reading>, first: Duration, j: nat): (start: nat)
    requires stretch != []
    ensures start <= |stretch|
  {
    CountBelow(stretch, Ts, stretch[|stretch| - 1].ts - Lookback(first, j))
  }

  function FitAt(stretch: seq<Reading>, fit: Fitter, first: Duration, j: nat): Option<RateEstimate>
    requires stretch != []
  {
    fit(stretch[StartAt(stretch, first, j)..])
  }

  /** The fit before the `j`-th, if there is one. */
  function FitBefore(stretch: seq<Reading>, fit: Fitter, first: Duration, j: nat): Option<RateEstimate>
    requires stretch != []
  {
    if j == 0 then None else FitAt(stretch, fit, first, j - 1)
  }

  /** The readings the `j`-th lookback adds were burnt at another rate. */
  predicate Contradicted(stretch: seq<Reading>, fit: Fitter, first: Duration, j: nat)
    requires stretch != []
  {
    RegimeStop(stretch, StartAt(stretch, first, j), FitBefore(stretch, fit, first, j), fit)
  }

  /** The `j`-th lookback takes in the whole stretch, or its fit is precise. */
  predicate Suffices(stretch: seq<Reading>, fit: Fitter, first: Duration, j: nat)
    requires stretch != []
  {
    IsEnough(StartAt(stretch, first, j), FitAt(stretch, fit, first, j))
  }

  /** No reason to stop at the `j`-th lookback. */
  predicate GoesOn(stretch: seq<Reading>, fit: Fitter, first: Duration, j: nat)
    requires stretch != []
  {
    !Contradicted(stretch, fit, first, j) && !Suffices(stretch, fit, first, j)
  }

  /** Where a pass stops, and with what. */
  predicate StopsWith(stretch: seq<Reading>, fit: Fitter, first: Duration, m: nat, r: Option<RateEstimate>)
    requires stretch != []
  {
    !GoesOn(stretch, fit, first, m)
    && r == if Contradicted(stretch, fit, first, m) then FitBefore(stretch, fit, first, m)
            else FitAt(stretch, fit, first, m)
  }

  /** `m` is the first doubling at which there is a reason to stop, and the
      result is the fit of it, or of the one before if it is contradicted. */
  ghost predicate FirstStop(stretch: seq<Reading>, fit: Fitter, first: Duration, m: nat, r: Option<RateEstimate>)
    requires stretch != []
  {
    && (forall j: nat | j < m :: GoesOn(stretch, fit, first, j))
    && StopsWith(stretch, fit, first, m, r)
  }

  lemma PassAt(stretch: seq<Reading>, fit: Fitter, first: Duration, j: nat)
    requires stretch != []
    ensures OnePass(stretch, fit, Lookback(first, j), FitBefore(stretch, fit, first, j))
         == if Contradicted(stretch, fit, first, j) then Done(FitBefore(stretch, fit, first, j))
            else if Suffices(stretch, fit, first, j) then Done(FitAt(stretch, fit, first, j))
            else Again(FitAt(stretch, fit, first, j))
  {
    PassOver(stretch, fit, Lookback(first, j), FitBefore(stretch, fit, first, j), StartAt(stretch, first, j));
  }

  /** The loop from its `j`-th pass on. */
  function WidenFrom(stretch: seq<Reading>, fit: Fitter, first: Duration, j: nat): Option<RateEstimate>
    requires stretch != [] && Lookback(first, j) > 0
  {
    Widen(stretch, fit, Lookback(first, j), FitBefore(stretch, fit, first, j))
  }

  lemma WidenAt(stretch: seq<Reading>, fit: Fitter, first: Duration, j: nat)
    requires stretch != [] && Lookback(first, j) > 0
    ensures WidenFrom(stretch, fit, first, j)
         == if GoesOn(stretch, fit, first, j) then WidenFrom(stretch, fit, first, j + 1)
            else if Contradicted(stretch, fit, first, j) then FitBefore(stretch, fit, first, j)
            else FitAt(stretch, fit, first, j)
  {
    WidenUnfolds(stretch, fit, Lookback(first, j), FitBefore(stretch, fit, first, j));
    PassAt(stretch, fit, first, j);
  }

  /** Whether each pass has no reason to stop. */
  function GoingOn(stretch: seq<Reading>, fit: Fitter, first: Duration): nat -> bool
    requires stretch != []
  {
    (j: nat) => GoesOn(stretch, fit, first, j)
  }

  ghost predicate AllFrom(p: nat -> bool, k: nat, m: nat)
    requires k <= m
    decreases m - k
  {
    k < m ==> p(k) && AllFrom(p, k + 1, m)
  }

  lemma {:induction false} OneOfAll(p: nat -> bool, k: nat, m: nat, j: nat)
    requires k <= j < m && AllFrom(p, k, m)
    ensures p(j)
    decreases m - k
  {
    if k < j {
      OneOfAll(p, k + 1, m, j);
    }
  }

  /** From the `k`-th pass on some pass is the first to stop, with the result of
      the loop. */
  lemma {:induction false} WidenStopsAfter(stretch: seq<Reading>, fit: Fitter, first: Duration, k: nat) returns (m: nat)
    requires stretch != [] && Lookback(first, k) > 0
    ensures k <= m && AllFrom(GoingOn(stretch, fit, first), k, m)
    ensures StopsWith(stretch, fit, first, m, WidenFrom(stretch, fit, first, k))
    decreases Beyond(stretch, Lookback(first, k))
  {
    WidenAt(stretch, fit, first, k);
    if GoesOn(stretch, fit, first, k) {
      WidenUnfolds(stretch, fit, Lookback(first, k), FitBefore(stretch, fit, first, k));
      PassAt(stretch, fit, first, k);
      m := WidenStopsAfter(stretch, fit, first, k + 1);
    } else {
      m := k;
    }
  }

  lemma FirstOfAll(stretch: seq<Reading>, fit: Fitter, first: Duration, m: nat, r: Option<RateEstimate>)
    requires stretch != [] && AllFrom(GoingOn(stretch, fit, first), 0, m)
    requires StopsWith(stretch, fit, first, m, r)
    ensures FirstStop(stretch, fit, first, m, r)
  {
    forall j: nat | j < m ensures GoesOn(stretch, fit, first, j) {
      OneOfAll(GoingOn(stretch, fit, first), 0, m, j);
    }
  }

  /** The estimate is the fit of the first doubled lookback that gives a reason
      to stop: no further back than precision, the stretch or a change of rate
      asks for, and no less far. */
  lemma StopsAtTheFirstReason(
      run: seq<Reading>, span: Duration, maxGap: Duration, now: Instant, root: Root) returns (m: nat)
    requires run != [] && NumSeconds(span) > 0 && now - run[|run| - 1].ts <= maxGap
    ensures FirstStop(Stretch(run, maxGap), FitterFor(run, span, maxGap, root), RecentLookback(span), m,
                      EstimateOf(run, span, maxGap, now, root))
  {
    var (stretch, fit, first) := (Stretch(run, maxGap), FitterFor(run, span, maxGap, root), RecentLookback(span));
    m := WidenStopsAfter(stretch, fit, first, 0);
    FirstOfAll(stretch, fit, first, m, WidenFrom(stretch, fit, first, 0));
  }
}
