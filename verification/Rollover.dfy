/** Detecting when a quota window restarted, and whether that was announced. */
module Rollover {
  import opened Time
  import opened Collections
  import opened Domain

  const RESET_TOLERANCE: Duration := 120 * SECOND
  const RESET_COLLAPSE_RATIO: real := 0.5
  const MIN_RESET_DROP: real := 0.05

  datatype RolloverKind = Scheduled | Early | Retracted | Unannounced

  datatype WindowRollover = WindowRollover(
    account: AccountId,
    window: WindowId,
    poll: PollId,
    observedAt: Instant,
    kind: RolloverKind,
    prevResetAt: Option<Instant>,
    newResetAt: Option<Instant>,
    prevUsed: real,
    newUsed: real,
    prevObservedAt: Option<Instant>)

  /** The bracket a restart is known to lie in. */
  datatype ObservedStart = ObservedStart(notBefore: Instant, notAfter: Instant) {

    function Estimate(): Instant {
      notBefore + TruncDiv(notAfter - notBefore, 2)
    }

    function Uncertainty(): Duration {
      notAfter - notBefore
    }
  }

  function FromRollover(r: WindowRollover): ObservedStart {
    ObservedStart(if r.prevObservedAt.Some? then r.prevObservedAt.value else r.observedAt, r.observedAt)
  }

  predicate IsCollapse(prev: real, new_: real) {
    prev - new_ >= MIN_RESET_DROP && new_ <= prev * RESET_COLLAPSE_RATIO
  }

  predicate Collapsed(before: QuotaWindow, after: QuotaWindow) {
    var (prev, new_) := (before.Utilization(), after.Utilization());
    prev.Some? && new_.Some? && IsCollapse(prev.value, new_.value)
  }

  function Classify(before: QuotaWindow, after: QuotaWindow, observedAt: Instant): Option<RolloverKind> {
    match (before.resetAt, after.resetAt) {
      case (Some(prev), Some(new_)) =>
        if new_ > prev + RESET_TOLERANCE then
          Some(if prev > observedAt + RESET_TOLERANCE then Early else RolloverKind.Scheduled)
        else if new_ < prev - RESET_TOLERANCE then Some(Retracted)
        else if Collapsed(before, after) then Some(Unannounced)
        else None
      case _ =>
        if Collapsed(before, after) then Some(Unannounced) else None
    }
  }

  /** What one window of the newer payload contributes to `Detect`. */
  function DetectOne(
      account: AccountId, prev: seq<QuotaWindow>, after: QuotaWindow,
      poll: PollId, prevObservedAt: Option<Instant>, observedAt: Instant): (r: seq<WindowRollover>)
    ensures |r| <= 1
  {
    var before := Lookup(prev, after.id);
    if before.None? then []
    else
      var kind := Classify(before.value, after, observedAt);
      if kind.None? then []
      else [WindowRollover(account, after.id, poll, observedAt, kind.value,
                           before.value.resetAt, after.resetAt,
                           before.value.used, after.used, prevObservedAt)]
  }

  /** Every window that rolled over between two consecutive successful polls. */
  function Detect(
      account: AccountId, prev: seq<QuotaWindow>, next: seq<QuotaWindow>,
      poll: PollId, prevObservedAt: Option<Instant>, observedAt: Instant): seq<WindowRollover>
  {
    if next == [] then []
    else
      Detect(account, prev, next[..|next| - 1], poll, prevObservedAt, observedAt)
      + DetectOne(account, prev, next[|next| - 1], poll, prevObservedAt, observedAt)
  }

  /** Comparing the same two payloads in the other order turns an advance of
      `reset_at` into a retraction and back; only a collapse has no opposite. */
  lemma ClassifyReversed(before: QuotaWindow, after: QuotaWindow, at: Instant, at': Instant)
    ensures (Classify(before, after, at) == Some(Early) || Classify(before, after, at) == Some(RolloverKind.Scheduled))
       <==> Classify(after, before, at') == Some(Retracted)
    ensures Classify(before, after, at) == Some(Unannounced)
        ==> Classify(after, before, at').None?
    ensures Classify(before, before, at).None?
  {
    if Classify(before, after, at) == Some(Unannounced) {
      assert !Collapsed(after, before);
    }
  }

  /** The same advance is early exactly until two minutes before the old reset
      was due, and scheduled from then on. */
  lemma EarlyUntilDue(before: QuotaWindow, after: QuotaWindow, at: Instant, later: Instant)
    requires at <= later
    requires Classify(before, after, later) == Some(Early)
    ensures Classify(before, after, at) == Some(Early)
    ensures before.resetAt.Some? && later + RESET_TOLERANCE < before.resetAt.value < after.resetAt.value
    ensures Classify(before, after, before.resetAt.value - RESET_TOLERANCE) == Some(RolloverKind.Scheduled)
  {
  }

  /** A collapse leaves at most half, and never happens from below a twentieth
      of the quota; so climbing usage is never one, and two collapses in a row
      leave at most a quarter. */
  lemma CollapseLaws(a: real, b: real, c: real)
    requires 0.0 <= c && 0.0 <= b && IsCollapse(a, b)
    ensures !IsCollapse(b, a)
    ensures a >= MIN_RESET_DROP
    ensures IsCollapse(b, c) ==> IsCollapse(a, c) && c <= a / 4.0
    ensures c <= b ==> IsCollapse(a, c)
  {
  }

  // ----- the rules in the provider's own figures

  /** The published reset is where it was to within two minutes, or was not
      published both times. */
  predicate ResetHeld(before: QuotaWindow, after: QuotaWindow) {
    before.resetAt.Some? && after.resetAt.Some? ==>
      -120 * 1_000_000_000 <= after.resetAt.value - before.resetAt.value <= 120 * 1_000_000_000
  }

  /** A percent window was reset unannounced exactly if its reset held and usage
      fell by five points or more, to half or less. */
  lemma UnannouncedInPercent(before: QuotaWindow, after: QuotaWindow, at: Instant)
    requires before.unit == Percent && after.unit == Percent
    requires 0.0 <= before.used <= 100.0 && 0.0 <= after.used <= 100.0
    ensures Classify(before, after, at) == Some(Unannounced) <==>
      ResetHeld(before, after) && before.used - after.used >= 5.0 && 2.0 * after.used <= before.used
  {
  }

  /** Of a counted window, a twentieth of its limit or more, to half or less. */
  lemma UnannouncedInUnits(before: QuotaWindow, after: QuotaWindow, limit: real, at: Instant)
    requires before.unit != Percent && after.unit != Percent && limit > 0.0
    requires before.limit == Some(limit) && after.limit == Some(limit)
    requires 0.0 <= before.used <= limit && 0.0 <= after.used <= limit
    ensures Classify(before, after, at) == Some(Unannounced) <==>
      ResetHeld(before, after) && 20.0 * (before.used - after.used) >= limit && 2.0 * after.used <= before.used
  {
    Share(before.used, limit);
    Share(after.used, limit);
    CollapseOfShares(before.used, after.used, limit);
  }

  lemma Share(used: real, limit: real)
    requires limit > 0.0 && 0.0 <= used <= limit
    ensures Clamp01(used / limit) == used / limit
  {
    var x := used / limit;
    assert x * limit == used;
    Scale(0.0, x, limit);
    Scale(x, 1.0, limit);
  }

  lemma CollapseOfShares(before: real, after: real, limit: real)
    requires limit > 0.0
    ensures IsCollapse(before / limit, after / limit) <==> 20.0 * (before - after) >= limit && 2.0 * after <= before
  {
    var (x, y) := (before / limit, after / limit);
    assert x * limit == before && y * limit == after;
    var (drop, twice) := (x - y, 2.0 * y);
    assert drop * limit == before - after && twice * limit == 2.0 * after;
    Scale(0.05, drop, limit);
    Scale(twice, x, limit);
  }

  lemma Scale(a: real, b: real, k: real)
    requires k > 0.0
    ensures a <= b <==> a * k <= b * k
  {
    if a > b {
      assert (a - b) * k > 0.0;
    }
  }

  /** A window with no scale to judge by is never taken to have been reset. */
  lemma NoScaleNoReset(before: QuotaWindow, after: QuotaWindow, at: Instant)
    requires after.unit != Percent && (after.limit.Some? ==> after.limit.value <= 0.0)
    ensures Classify(before, after, at) != Some(Unannounced)
    ensures Classify(after, before, at) != Some(Unannounced)
  {
  }

  /** A reset moved by more than two minutes says which kind it was: later, early
      if the old one was still more than two minutes out; earlier, retracted. */
  lemma MovedResets(before: QuotaWindow, after: QuotaWindow, at: Instant)
    requires before.resetAt.Some? && after.resetAt.Some?
    ensures var (was, is_, minutes) := (before.resetAt.value, after.resetAt.value, 60 * 1_000_000_000);
      && (Classify(before, after, at) == Some(Early) <==> is_ - was > 2 * minutes && was - at > 2 * minutes)
      && (Classify(before, after, at) == Some(RolloverKind.Scheduled) <==>
            is_ - was > 2 * minutes && was - at <= 2 * minutes)
      && (Classify(before, after, at) == Some(Retracted) <==> was - is_ > 2 * minutes)
  {
  }

  /** A bracket is computed against at its middle. */
  lemma EstimateIsTheMiddle(o: ObservedStart)
    requires o.notBefore <= o.notAfter
    ensures o.notBefore <= o.Estimate() <= o.notAfter
    ensures 0 <= (o.notAfter - o.Estimate()) - (o.Estimate() - o.notBefore) <= 1
  {
  }

  /** One window's row, if its two readings make one, says what both were. */
  lemma RowSaysBoth(
      a: AccountId, prev: seq<QuotaWindow>, after: QuotaWindow, poll: PollId, prevTs: Option<Instant>, ts: Instant)
    ensures var rows := DetectOne(a, prev, after, poll, prevTs, ts);
      && (rows != [] <==> Lookup(prev, after.id).Some? && Classify(Lookup(prev, after.id).value, after, ts).Some?)
      && forall r <- rows ::
           var before := Lookup(prev, after.id).value;
           && r.account == a && r.window == after.id && r.poll == poll
           && r.observedAt == ts && r.prevObservedAt == prevTs
           && Some(r.kind) == Classify(before, after, ts)
           && r.prevUsed == before.used && r.newUsed == after.used
           && r.prevResetAt == before.resetAt && r.newResetAt == after.resetAt
  {
  }
}
