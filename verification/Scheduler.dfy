/** One account's poll task: how long it waits, and why it is or is not polling. */
module Scheduler {
  import opened Time
  import opened Collections
  import opened Domain

  /** What the config says about one account's polling; `interval` is a
      `std::time::Duration`, in nanoseconds. */
  datatype Schedule = Schedule(enabled: bool, interval: nat)

  datatype Stage = Credential | Provider

  datatype Polled = Polled(outcome: PollOutcome, stage: Stage)

  const MAX_BACKOFF: nat := 3600 * SECOND
  const CREDENTIAL_RECHECK_MAX: nat := 30 * SECOND
  /** What no `std::time::Duration` reaches: `u64` seconds overflow. */
  const DURATION_LIMIT: nat := 0x1_0000_0000_0000_0000 * SECOND

  /** `checked_mul` on a duration. */
  function CheckedMul(base: nat, factor: nat): Option<nat> {
    if base * factor < DURATION_LIMIT then Some(base * factor) else None
  }

  datatype Throttle = Throttle(strikes: nat, retryAfter: Option<nat>) {

    predicate IsThrottled() {
      strikes > 0
    }

    /** The wait before the next scheduled poll, given the configured cadence,
        which each rate limit in a row doubles. */
    function Delay(base: nat): nat {
      if strikes == 0 then base
      else
        var doublings := Min(strikes - 1, 31);
        var factor := Min(Pow2(doublings), U32_MAX);
        var product := CheckedMul(base, factor);
        var scaled := Max(Min(if product.Some? then product.value else MAX_BACKOFF, MAX_BACKOFF), base);
        Max(scaled, if retryAfter.Some? then retryAfter.value else 0)
    }
  }

  const UNTHROTTLED := Throttle(0, None)

  function ThrottleAfter(t: Throttle, polled: Polled): Throttle {
    if polled.stage == Credential then t
    else if polled.outcome.RateLimited? then Throttle(Min(t.strikes + 1, U32_MAX), polled.outcome.retryAfter)
    else UNTHROTTLED
  }

  datatype Transition = Paused | Resumed | Throttled

  datatype GateState = GateState(throttle: Throttle, credentialStale: bool)

  const OPEN := GateState(UNTHROTTLED, false)

  function GateAfter(g: GateState, polled: Polled): GateState {
    GateState(ThrottleAfter(g.throttle, polled), polled.stage == Credential)
  }

  /** The edges one poll crosses: of the credential, then of the throttle. */
  function Edges(g: GateState, polled: Polled): seq<Transition> {
    var after := GateAfter(g, polled);
    (if !g.credentialStale && after.credentialStale then [Paused]
     else if g.credentialStale && !after.credentialStale then [Resumed]
     else [])
    + if after.throttle.IsThrottled() && !g.throttle.IsThrottled() then [Throttled] else []
  }

  datatype Step = Park | PollNow | Recheck(after: nat) | Wait(after: nat)

  function NextStep(g: GateState, schedule: Schedule, pollImmediately: bool): Step {
    if !schedule.enabled then Park
    else if pollImmediately then PollNow
    else if g.credentialStale then Recheck(Min(schedule.interval, CREDENTIAL_RECHECK_MAX))
    else Wait(g.throttle.Delay(schedule.interval))
  }

  /** The cadence published for a step; `None` leaves it to the config. */
  function ReportedInterval(step: Step, resting: nat): Option<nat> {
    match step
    case Recheck(_) => Some(0)
    case Wait(after) => Some(after)
    case PollNow => Some(resting)
    case Park => None
  }

  /** The two facts that decide whether a poller polls. */
  class Gate {
    var throttle: Throttle
    var credentialStale: bool

    ghost function View(): GateState
      reads this
    {
      GateState(throttle, credentialStale)
    }

    constructor ()
      ensures View() == OPEN
    {
      throttle, credentialStale := UNTHROTTLED, false;
    }

    method RecordThrottle(polled: Polled)
      modifies this`throttle
      ensures throttle == ThrottleAfter(old(throttle), polled)
    {
      if polled.stage == Credential {
        return;
      }
      match polled.outcome {
        case RateLimited(retryAfter) =>
          throttle := Throttle(Min(throttle.strikes + 1, U32_MAX), retryAfter);
        case _ =>
          throttle := UNTHROTTLED;
      }
    }

    method Record(polled: Polled) returns (credential: Option<Transition>, throttled: Option<Transition>)
      modifies this
      ensures View() == GateAfter(old(View()), polled)
      ensures Edges(old(View()), polled)
           == (if credential.Some? then [credential.value] else [])
              + (if throttled.Some? then [throttled.value] else [])
    {
      var wasStale, wasThrottled := credentialStale, throttle.IsThrottled();
      RecordThrottle(polled);
      credentialStale := polled.stage == Credential;
      credential :=
        if !wasStale && credentialStale then Some(Paused)
        else if wasStale && !credentialStale then Some(Resumed)
        else None;
      throttled := if throttle.IsThrottled() && !wasThrottled then Some(Throttled) else None;
    }

    method CredentialOk() returns (edge: Option<Transition>)
      modifies this`credentialStale
      ensures View() == old(View()).(credentialStale := false)
      ensures edge == if old(credentialStale) then Some(Resumed) else None
    {
      edge := if credentialStale then Some(Resumed) else None;
      credentialStale := false;
    }

    method Park()
      modifies this
      ensures View() == OPEN
    {
      throttle, credentialStale := UNTHROTTLED, false;
    }
  }

  // ----- the throttle, over any history

  datatype GateEvent = Poll(polled: Polled) | Recovered | Parked

  function GateOver(events: seq<GateEvent>): GateState {
    if events == [] then OPEN
    else
      var before := GateOver(events[..|events| - 1]);
      match events[|events| - 1]
      case Poll(polled) => GateAfter(before, polled)
      case Recovered => before.(credentialStale := false)
      case Parked => OPEN
  }

  /** The outcomes of the polls that reached the provider since the last park. */
  function ReachedSincePark(events: seq<GateEvent>): seq<PollOutcome> {
    if events == [] then []
    else
      var before := ReachedSincePark(events[..|events| - 1]);
      match events[|events| - 1]
      case Poll(polled) => if polled.stage == Provider then before + [polled.outcome] else before
      case Recovered => before
      case Parked => []
  }

  /** How many rate limits the outcomes end in. */
  function TrailingLimits(outcomes: seq<PollOutcome>): nat {
    if outcomes == [] || !outcomes[|outcomes| - 1].RateLimited? then 0
    else 1 + TrailingLimits(outcomes[..|outcomes| - 1])
  }

  function ThrottleOf(outcomes: seq<PollOutcome>): Throttle {
    var n := TrailingLimits(outcomes);
    Throttle(Min(n, U32_MAX), if n > 0 then outcomes[|outcomes| - 1].retryAfter else None)
  }

  lemma ThrottleOfMore(outcomes: seq<PollOutcome>, o: PollOutcome)
    ensures ThrottleOf(outcomes + [o]) == ThrottleAfter(ThrottleOf(outcomes), Polled(o, Provider))
  {
    assert (outcomes + [o])[..|outcomes|] == outcomes;
  }

  /** The throttle depends only on the polls that reached the provider since the
      last park: strikes are the length of the rate-limited run they end in,
      saturated, and the retry hint is that run's last. */
  lemma {:induction false} ThrottleForgets(events: seq<GateEvent>)
    ensures GateOver(events).throttle == ThrottleOf(ReachedSincePark(events))
  {
    if events != [] {
      var front := events[..|events| - 1];
      ThrottleForgets(front);
      var last := events[|events| - 1];
      if last.Poll? && last.polled.stage == Provider {
        ThrottleOfMore(ReachedSincePark(front), last.polled.outcome);
        assert last.polled == Polled(last.polled.outcome, Provider);
      }
    }
  }

  lemma {:induction false} Pow2Grows(a: nat, b: nat)
    requires a <= b
    ensures 1 <= Pow2(a) <= Pow2(b)
    decreases b
  {
    if a < b {
      Pow2Grows(a, b - 1);
    } else if a > 0 {
      Pow2Grows(a - 1, a - 1);
    }
  }

  lemma Pow2Of31()
    ensures Pow2(31) == 0x8000_0000
  {
    assert Pow2(8) == 0x100;
    assert Pow2(16) == 0x1_0000;
    assert Pow2(24) == 0x100_0000;
  }

  lemma AtLeastTimes(base: nat, least: nat, factor: nat)
    requires base >= least
    ensures base * factor >= least * factor
  {
  }

  /** For every cadence of ten seconds or more, the guards against overflow
      change nothing: the wait is the doubled cadence, at most an hour unless
      the cadence itself is longer, and never under what the provider asked. */
  lemma DelayIsUnbounded(t: Throttle, base: nat)
    requires t.strikes > 0 && base >= 10 * SECOND
    ensures t.Delay(base)
         == Max(Max(base, Min(base * Pow2(t.strikes - 1), 3600 * 1_000_000_000)),
                if t.retryAfter.Some? then t.retryAfter.value else 0)
  {
    Pow2Of31();
    var doublings := Min(t.strikes - 1, 31);
    Pow2Grows(doublings, 31);
    if t.strikes - 1 > 31 {
      Pow2Grows(31, t.strikes - 1);
      AtLeastTimes(base, 10 * SECOND, Pow2(31));
      AtLeastTimes(base, 10 * SECOND, Pow2(t.strikes - 1));
      AtLeastTimes(Pow2(t.strikes - 1), Pow2(31), 10 * SECOND);
    }
  }

  /** The wait a run of outcomes calls for at a cadence: after `n` rate limits the
      cadence doubled `n - 1` times, at most an hour unless the cadence is longer,
      and never under what the last of them asked. */
  function BackedOff(reached: seq<PollOutcome>, base: nat): nat {
    var n := TrailingLimits(reached);
    if n == 0 then base
    else
      var hint := reached[|reached| - 1].retryAfter;
      Max(Max(base, Min(base * Pow2(n - 1), 3600 * 1_000_000_000)), if hint.Some? then hint.value else 0)
  }

  lemma PastTheHour(base: nat, n: nat)
    requires base >= 10 * SECOND && n >= U32_MAX
    ensures base * Pow2(n - 1) >= 3600 * SECOND && base * Pow2(U32_MAX - 1) >= 3600 * SECOND
  {
    Pow2Of31();
    Pow2Grows(31, U32_MAX - 1);
    Pow2Grows(U32_MAX - 1, n - 1);
    AtLeastTimes(base, 10 * SECOND, Pow2(U32_MAX - 1));
    AtLeastTimes(base, 10 * SECOND, Pow2(n - 1));
    AtLeastTimes(Pow2(n - 1), 0x8000_0000, 10 * SECOND);
    AtLeastTimes(Pow2(U32_MAX - 1), 0x8000_0000, 10 * SECOND);
  }

  /** Neither the saturated count of strikes nor the guards against overflow show. */
  lemma DelayIsBackedOff(reached: seq<PollOutcome>, base: nat)
    requires base >= 10 * SECOND
    ensures ThrottleOf(reached).Delay(base) == BackedOff(reached, base)
  {
    var n := TrailingLimits(reached);
    if n > 0 {
      DelayIsUnbounded(ThrottleOf(reached), base);
      if n >= U32_MAX {
        PastTheHour(base, n);
      }
    }
  }
}
