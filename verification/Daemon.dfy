/** The daemon's caches: updated in place as polls complete, and rebuilt from
    the database after a restart. */
module Daemon {
  import opened Time
  import opened Collections
  import opened Domain
  import opened Rollover
  import opened Storage

  datatype Health = Health(failures: nat, lastError: Option<string>)

  const HEALTHY := Health(0, None)

  type Anchors = map<(AccountId, WindowId), ObservedStart>

  const ANCHOR_LOOKBACK: Duration := 21 * DAY

  /** Everything a client can be told, plus the database behind it. */
  datatype Caches = Caches(
    db: Db,
    latestPoll: map<AccountId, PollEvent>,
    latestSuccess: map<AccountId, PollEvent>,
    health: map<(ProviderId, AccountId), Health>,
    anchors: Anchors)

  function Fresh(db: Db): Caches {
    Caches(db, map[], map[], map[], map[])
  }

  function WindowsOf(outcome: PollOutcome): seq<QuotaWindow> {
    if outcome.Success? then outcome.windows else []
  }

  function PreviousWindows(event: Option<PollEvent>): seq<QuotaWindow> {
    if event.Some? then WindowsOf(event.value.outcome) else []
  }

  function PreviousTs(event: Option<PollEvent>): Option<Instant> {
    if event.Some? then Some(event.value.ts) else None
  }

  /** The span each id was given last, among the windows that have one. */
  function SpansOf(windows: seq<QuotaWindow>): (r: map<WindowId, Duration>)
    ensures forall id <- r :: exists w <- windows :: w.id == id && w.Span() == Some(r[id])
    ensures forall w <- windows :: w.Span().Some? ==> w.id in r
  {
    if windows == [] then map[]
    else
      var w := windows[|windows| - 1];
      var rest := SpansOf(windows[..|windows| - 1]);
      if w.Span().Some? then rest[w.id := w.Span().value] else rest
  }

  /** Whether an anchor survives: another account's, a window this payload does
      not carry, or one no older than its window is long. */
  predicate Survives(
      key: (AccountId, WindowId), start: ObservedStart,
      account: AccountId, spans: map<WindowId, Duration>, now: Instant)
  {
    key.0 == account && key.1 in spans ==> now - start.Estimate() <= spans[key.1]
  }

  predicate HasLength(windows: seq<QuotaWindow>) {
    exists w <- windows :: w.Span().Some? && w.Span().value > 0
  }

  lemma SpansPush(windows: seq<QuotaWindow>, w: QuotaWindow)
    ensures SpansOf(windows + [w])
         == if w.Span().Some? then SpansOf(windows)[w.id := w.Span().value] else SpansOf(windows)
    ensures HasLength(windows + [w]) <==> HasLength(windows) || (w.Span().Some? && w.Span().value > 0)
  {
    assert (windows + [w])[..|windows|] == windows;
    assert forall x :: x in windows + [w] <==> x in windows || x == w;
    if HasLength(windows) {
      var x :| x in windows && x.Span().Some? && x.Span().value > 0;
      assert x in windows + [w];
    }
    assert w in windows + [w];
  }

  lemma SpansUpTo(windows: seq<QuotaWindow>, i: nat)
    requires i < |windows|
    ensures var w := windows[i];
      && SpansOf(windows[..i + 1])
         == (if w.Span().Some? then SpansOf(windows[..i])[w.id := w.Span().value] else SpansOf(windows[..i]))
      && (HasLength(windows[..i + 1]) <==> HasLength(windows[..i]) || (w.Span().Some? && w.Span().value > 0))
  {
    SpansPush(windows[..i], windows[i]);
    assert windows[..i + 1] == windows[..i] + [windows[i]];
  }

  /** `prune_anchors`, which does nothing when no window has a positive span. */
  function Pruned(anchors: Anchors, account: AccountId, windows: seq<QuotaWindow>, now: Instant): Anchors {
    var spans := SpansOf(windows);
    if HasLength(windows) then
      map key | key in anchors && Survives(key, anchors[key], account, spans, now) :: anchors[key]
    else anchors
  }

  /** An unannounced restart installs its bracket, an announced one retires it. */
  function Applied(anchors: Anchors, r: WindowRollover): Anchors {
    if r.kind == Unannounced then anchors[(r.account, r.window) := FromRollover(r)]
    else anchors - {(r.account, r.window)}
  }

  function AppliedAll(anchors: Anchors, rs: seq<WindowRollover>): Anchors {
    if rs == [] then anchors else Applied(AppliedAll(anchors, rs[..|rs| - 1]), rs[|rs| - 1])
  }

  lemma AppliedOneMore(anchors: Anchors, rs: seq<WindowRollover>, i: nat)
    requires i < |rs|
    ensures AppliedAll(anchors, rs[..i + 1]) == Applied(AppliedAll(anchors, rs[..i]), rs[i])
  {
    assert rs[..i + 1][..i] == rs[..i];
  }

  function RolloversOf(caches: Caches, event: PollEvent): seq<WindowRollover> {
    var prev := Get(caches.latestSuccess, event.account);
    Detect(event.account, PreviousWindows(prev), WindowsOf(event.outcome),
           event.id, PreviousTs(prev), event.ts)
  }

  /** The caches after one completed poll; `committed` says whether the write
      to the database went through. */
  function Recorded(caches: Caches, event: PollEvent, committed: bool): Caches {
    var windows := WindowsOf(event.outcome);
    var rollovers := RolloversOf(caches, event);
    var key := (event.provider, event.account);
    var health := if key in caches.health then caches.health[key] else HEALTHY;
    Caches(
      if committed then RecordPoll(caches.db, event, rollovers) else caches.db,
      caches.latestPoll[event.account := event],
      if event.outcome.Success? then caches.latestSuccess[event.account := event] else caches.latestSuccess,
      caches.health[key :=
        if event.outcome.Success? then HEALTHY
        else Health(health.failures + 1, event.outcome.ErrorMessage())],
      Pruned(AppliedAll(caches.anchors, rollovers), event.account, windows, event.ts))
  }

  /** Whether a stored row still reads as an unannounced reset, scaled by the
      window it is about. */
  predicate ReplaysAsAReset(r: WindowRollover, scale: QuotaWindow) {
    r.kind == Unannounced && Collapsed(scale.(used := r.prevUsed), scale.(used := r.newUsed))
  }

  function Replayed(anchors: Anchors, r: WindowRollover, scale: Option<QuotaWindow>): Anchors {
    if scale.Some? && ReplaysAsAReset(r, scale.value) then
      anchors[(r.account, r.window) := FromRollover(r)]
    else if r.kind == Unannounced then anchors
    else anchors - {(r.account, r.window)}
  }

  function ReplayedAll(anchors: Anchors, rs: seq<WindowRollover>, payload: seq<QuotaWindow>): Anchors {
    if rs == [] then anchors
    else
      var r := rs[|rs| - 1];
      Replayed(ReplayedAll(anchors, rs[..|rs| - 1], payload), r, Lookup(payload, r.window))
  }

  /** The values of the map `hydrate_account` collects: the last window under
      each id. */
  function Scales(payload: seq<QuotaWindow>): (r: seq<QuotaWindow>)
    ensures DistinctIds(payload) ==> r == payload
  {
    if payload == [] then []
    else if forall w <- payload[1..] :: w.id != payload[0].id then [payload[0]] + Scales(payload[1..])
    else Scales(payload[1..])
  }

  function Restore(
      m: map<AccountId, PollEvent>, account: AccountId, event: Option<PollEvent>): map<AccountId, PollEvent>
  {
    if event.Some? then m[account := event.value] else m
  }

  /** The caches after one account was reloaded from the database at `now`. */
  function Hydrated(caches: Caches, account: Account, now: Instant): Caches {
    var latestPoll := Restore(caches.latestPoll, account.id, LatestPollFor(caches.db, account.id));
    var latestSuccess := Restore(caches.latestSuccess, account.id, LatestSuccessFor(caches.db, account.id));
    var payload := PreviousWindows(Get(latestSuccess, account.id));
    var rows := Rollovers(caches.db, account.id, now - ANCHOR_LOOKBACK, now);
    Caches(
      caches.db,
      latestPoll,
      latestSuccess,
      caches.health[(account.provider, account.id) :=
        Health(ConsecutiveFailuresFor(caches.db, account.id),
               if account.id in latestPoll then latestPoll[account.id].outcome.ErrorMessage() else None)],
      Pruned(ReplayedAll(caches.anchors, rows, payload), account.id, Scales(payload), now))
  }

  /** The mutable state the daemon keeps behind its handle. */
  class SharedState {
    var db: Db
    var latestPoll: map<AccountId, PollEvent>
    var latestSuccess: map<AccountId, PollEvent>
    var health: map<(ProviderId, AccountId), Health>
    var observedStarts: Anchors

    ghost function View(): Caches
      reads this
    {
      Caches(db, latestPoll, latestSuccess, health, observedStarts)
    }

    constructor (storage: Db)
      ensures View() == Fresh(storage)
    {
      db, latestPoll, latestSuccess := storage, map[], map[];
      health, observedStarts := map[], map[];
    }

    method PruneAnchors(account: AccountId, windows: seq<QuotaWindow>, now: Instant)
      modifies this`observedStarts
      ensures observedStarts == Pruned(old(observedStarts), account, windows, now)
    {
      var spans: map<WindowId, Duration> := map[];
      var longest := 0;
      for i := 0 to |windows|
        invariant observedStarts == old(observedStarts)
        invariant spans == SpansOf(windows[..i])
        invariant longest >= 0
        invariant longest > 0 <==> HasLength(windows[..i])
      {
        var w := windows[i];
        SpansUpTo(windows, i);
        if w.Span().Some? {
          spans := spans[w.id := w.Span().value];
          longest := Max(longest, w.Span().value);
        }
      }
      assert windows[..|windows|] == windows;
      if longest <= 0 {
        return;
      }
      observedStarts := map key | key in observedStarts
        && Survives(key, observedStarts[key], account, spans, now) :: observedStarts[key];
    }

    method RecordEvent(event: PollEvent, committed: bool)
      modifies this
      ensures View() == Recorded(old(View()), event, committed)
    {
      var windows := WindowsOf(event.outcome);
      var prev := Get(latestSuccess, event.account);
      var rollovers := Detect(event.account, PreviousWindows(prev), windows,
                              event.id, PreviousTs(prev), event.ts);
      for i := 0 to |rollovers|
        invariant unchanged(`db) && unchanged(`latestPoll) && unchanged(`latestSuccess) && unchanged(`health)
        invariant observedStarts == AppliedAll(old(observedStarts), rollovers[..i])
      {
        var r := rollovers[i];
        AppliedOneMore(old(observedStarts), rollovers, i);
        if r.kind == Unannounced {
          observedStarts := observedStarts[(r.account, r.window) := FromRollover(r)];
        } else {
          observedStarts := observedStarts - {(r.account, r.window)};
        }
      }
      assert rollovers[..|rollovers|] == rollovers;
      PruneAnchors(event.account, windows, event.ts);
      if committed {
        db := RecordPoll(db, event, rollovers);
      }
      var key := (event.provider, event.account);
      var counters := if key in health then health[key] else HEALTHY;
      match event.outcome.ErrorMessage() {
        case None =>
          health := health[key := HEALTHY];
          latestSuccess := latestSuccess[event.account := event];
        case Some(message) =>
          health := health[key := Health(counters.failures + 1, Some(message))];
      }
      latestPoll := latestPoll[event.account := event];
    }

    /** Oldest first, so an announced rollover retires an earlier anchor as it
        did when live; a row that is no longer a reset is skipped. */
    method Replay(found: seq<WindowRollover>, payload: seq<QuotaWindow>)
      modifies this`observedStarts
      ensures observedStarts == ReplayedAll(old(observedStarts), found, payload)
    {
      for i := 0 to |found|
        invariant observedStarts == ReplayedAll(old(observedStarts), found[..i], payload)
      {
        var r := found[i];
        assert found[..i + 1][..i] == found[..i];
        var scale := Lookup(payload, r.window);
        if scale.Some? && ReplaysAsAReset(r, scale.value) {
          observedStarts := observedStarts[(r.account, r.window) := FromRollover(r)];
        } else if r.kind != Unannounced {
          observedStarts := observedStarts - {(r.account, r.window)};
        }
      }
      assert found[..|found|] == found;
    }

    method HydrateAccount(account: Account, now: Instant)
      modifies this
      ensures View() == Hydrated(old(View()), account, now)
    {
      latestPoll := Restore(latestPoll, account.id, LatestPollFor(db, account.id));
      latestSuccess := Restore(latestSuccess, account.id, LatestSuccessFor(db, account.id));
      var payload := PreviousWindows(Get(latestSuccess, account.id));
      var found := Rollovers(db, account.id, now - ANCHOR_LOOKBACK, now);
      Replay(found, payload);
      PruneAnchors(account.id, Scales(payload), now);
      var failures := ConsecutiveFailuresFor(db, account.id);
      var lastError :=
        if account.id in latestPoll then latestPoll[account.id].outcome.ErrorMessage() else None;
      health := health[(account.provider, account.id) := Health(failures, lastError)];
    }
  }
}
