/** What a published bracket says about the restarts that really happened. */
module AnchorSoundness {
  import opened Time
  import opened Collections
  import opened Domain
  import opened Rollover
  import opened Storage
  import opened Daemon
  import opened Restart

  function SuccessesOf(steps: seq<Step>, a: AccountId): seq<PollEvent> {
    Filter(PollsOf(steps), SuccessOf(a))
  }

  function Reading(e: PollEvent, w: WindowId): Option<QuotaWindow> {
    Lookup(WindowsOf(e.outcome), w)
  }

  ghost predicate RestartIn(restarts: iset<Instant>, after: Instant, until: Instant) {
    exists r <- restarts :: after < r <= until
  }

  /** Between two consecutive successes the window really did what its readings
      say: both carry it, its published reset stays within tolerance, a restart
      shows as a collapse, and without one usage does not fall. */
  ghost predicate Honest(prev: PollEvent, next: PollEvent, w: WindowId, restarts: iset<Instant>) {
    && Reading(prev, w).Some? && Reading(next, w).Some?
    && var (before, after) := (Reading(prev, w).value, Reading(next, w).value);
       && (before.resetAt.Some? && after.resetAt.Some? ==>
             Abs(after.resetAt.value - before.resetAt.value) <= RESET_TOLERANCE)
       && (if RestartIn(restarts, prev.ts, next.ts) then Collapsed(before, after)
           else before.Utilization().Some? && after.Utilization().Some? ==>
                  after.Utilization().value >= before.Utilization().value)
  }

  ghost predicate HonestRun(successes: seq<PollEvent>, w: WindowId, restarts: iset<Instant>) {
    forall i :: 0 < i < |successes| ==> Honest(successes[i - 1], successes[i], w, restarts)
  }

  /** What a verdict says after these successes: none means no restart was
      straddled, a bracket means it holds the newest one that was. */
  ghost predicate Truthful(v: Option<ObservedStart>, successes: seq<PollEvent>, restarts: iset<Instant>) {
    if successes == [] then v.None?
    else
      var (first, last) := (successes[0].ts, successes[|successes| - 1].ts);
      first <= last &&
      match v
      case None => !RestartIn(restarts, first, last)
      case Some(b) =>
        && first <= b.notBefore < b.notAfter <= last
        && RestartIn(restarts, b.notBefore, b.notAfter)
        && !RestartIn(restarts, b.notAfter, last)
  }

  /** One more success moves the verdict exactly as the truth moved. */
  lemma TruthfulStep(
      v: Option<ObservedStart>, successes: seq<PollEvent>, e: PollEvent, a: AccountId, w: WindowId,
      restarts: iset<Instant>)
    requires successes != [] && Truthful(v, successes, restarts)
    requires var prev := successes[|successes| - 1];
      prev.ts < e.ts && Honest(prev, e, w, restarts) && prev.outcome.Success?
    ensures var prev := successes[|successes| - 1];
      var found := DetectOne(a, WindowsOf(prev.outcome), Reading(e, w).value, e.id, Some(prev.ts), e.ts);
      Truthful(if found == [] then v else Verdict(found), successes + [e], restarts)
  {
    var prev := successes[|successes| - 1];
    var (before, after) := (Reading(prev, w).value, Reading(e, w).value);
    var found := DetectOne(a, WindowsOf(prev.outcome), after, e.id, Some(prev.ts), e.ts);
    var straddled := RestartIn(restarts, prev.ts, e.ts);
    assert Classify(before, after, e.ts) == if straddled then Some(Unannounced) else None;
    var all := successes + [e];
    assert all[0] == successes[0] && all[|all| - 1] == e;
    if straddled {
      assert Verdict(found) == Some(ObservedStart(prev.ts, e.ts));
    }
  }

  // ----- the bracket the polls themselves imply

  /** What one success told of the window, against the one before it. */
  function ToldBy(prev: PollEvent, e: PollEvent, a: AccountId, w: WindowId): seq<WindowRollover> {
    if Reading(e, w).None? then []
    else DetectOne(a, WindowsOf(prev.outcome), Reading(e, w).value, e.id, Some(prev.ts), e.ts)
  }

  /** The verdict of an account's successes, at their own instants. */
  function ExactVerdict(successes: seq<PollEvent>, a: AccountId, w: WindowId): Option<ObservedStart> {
    if |successes| < 2 then None
    else
      var told := ToldBy(successes[|successes| - 2], successes[|successes| - 1], a, w);
      if told == [] then ExactVerdict(successes[..|successes| - 1], a, w) else Verdict(told)
  }

  ghost predicate Ascending(successes: seq<PollEvent>) {
    && (forall i, j :: 0 <= i < j < |successes| ==> successes[i].ts < successes[j].ts)
    && forall s <- successes :: s.outcome.Success?
  }

  /** It is the bracket of two consecutive successes. */
  lemma {:induction false} ExactIsAPair(successes: seq<PollEvent>, a: AccountId, w: WindowId) returns (i: nat)
    requires ExactVerdict(successes, a, w).Some?
    ensures 0 < i < |successes|
    ensures ExactVerdict(successes, a, w) == Some(ObservedStart(successes[i - 1].ts, successes[i].ts))
  {
    var n := |successes|;
    if ToldBy(successes[n - 2], successes[n - 1], a, w) == [] {
      i := ExactIsAPair(successes[..n - 1], a, w);
    } else {
      i := n - 1;
    }
  }

  lemma ExactAfter(before: seq<PollEvent>, e: PollEvent, a: AccountId, w: WindowId)
    ensures ExactVerdict(before + [e], a, w)
         == if before == [] then None
            else
              var told := ToldBy(before[|before| - 1], e, a, w);
              if told == [] then ExactVerdict(before, a, w) else Verdict(told)
  {
    assert (before + [e])[..|before|] == before;
  }

  lemma TruthfulAfter(before: seq<PollEvent>, e: PollEvent, a: AccountId, w: WindowId, restarts: iset<Instant>)
    requires before != [] && Truthful(ExactVerdict(before, a, w), before, restarts)
    requires var prev := before[|before| - 1];
      prev.ts < e.ts && Honest(prev, e, w, restarts) && prev.outcome.Success?
    ensures Truthful(ExactVerdict(before + [e], a, w), before + [e], restarts)
  {
    ExactAfter(before, e, a, w);
    TruthfulStep(ExactVerdict(before, a, w), before, e, a, w, restarts);
  }

  lemma LastPair(before: seq<PollEvent>, e: PollEvent, w: WindowId, restarts: iset<Instant>)
    requires before != [] && Ascending(before + [e]) && HonestRun(before + [e], w, restarts)
    ensures Ascending(before)
    ensures var prev := before[|before| - 1];
      prev.ts < e.ts && Honest(prev, e, w, restarts) && prev.outcome.Success?
  {
    var all, n := before + [e], |before|;
    assert all[n] == e && all[n - 1] == before[n - 1];
    assert Honest(all[n - 1], all[n], w, restarts);
    forall s <- before ensures s.outcome.Success? {
      assert s in all;
    }
    forall i, j | 0 <= i < j < n ensures before[i].ts < before[j].ts {
      assert all[i].ts < all[j].ts;
    }
  }

  /** And says what really happened. */
  lemma {:induction false} ExactIsTruthful(
      successes: seq<PollEvent>, a: AccountId, w: WindowId, restarts: iset<Instant>)
    requires Ascending(successes) && HonestRun(successes, w, restarts)
    ensures Truthful(ExactVerdict(successes, a, w), successes, restarts)
  {
    var n := |successes|;
    if n > 1 {
      var front, e := successes[..n - 1], successes[n - 1];
      assert successes == front + [e];
      HonestPrefix(front, [e], w, restarts);
      LastPair(front, e, w, restarts);
      ExactIsTruthful(front, a, w, restarts);
      TruthfulAfter(front, e, a, w, restarts);
    }
  }

  lemma SuccessesGrow(front: seq<Step>, last: Step, a: AccountId)
    ensures SuccessesOf(front + [last], a)
         == SuccessesOf(front, a) + if last.Poll? && SuccessOf(a)(last.event) then [last.event] else []
  {
    var steps := front + [last];
    assert steps[..|steps| - 1] == front;
    if last.Poll? {
      var polls := PollsOf(front);
      assert (polls + [last.event])[..|polls|] == polls;
    }
  }

  lemma HonestPrefix(before: seq<PollEvent>, more: seq<PollEvent>, w: WindowId, restarts: iset<Instant>)
    requires HonestRun(before + more, w, restarts)
    ensures HonestRun(before, w, restarts)
  {
    forall i | 0 < i < |before| ensures Honest(before[i - 1], before[i], w, restarts) {
      assert Honest((before + more)[i - 1], (before + more)[i], w, restarts);
    }
  }

  lemma SuccessesAscend(steps: seq<Step>, accounts: seq<Account>, schemas: Schemas, a: AccountId)
    requires Valid(steps, accounts, schemas)
    ensures Ascending(SuccessesOf(steps, a))
    ensures forall s <- SuccessesOf(steps, a) :: Poll(s) in steps
  {
    PollsAscend(steps, accounts, schemas);
    PollsOfMembers(steps);
    FilterMembers(PollsOf(steps), SuccessOf(a));
    FilterAscends(PollsOf(steps), SuccessOf(a));
  }

  ghost predicate InOrder(polls: seq<PollEvent>) {
    forall i, j :: 0 <= i < j < |polls| ==> polls[i].ts < polls[j].ts
  }

  lemma {:induction false} PollsAscend(steps: seq<Step>, accounts: seq<Account>, schemas: Schemas)
    requires Valid(steps, accounts, schemas)
    ensures InOrder(PollsOf(steps))
  {
    if steps != [] {
      var front, last := steps[..|steps| - 1], steps[|steps| - 1];
      assert Follows(last, front);
      ValidPrefix(steps, accounts, schemas);
      PollsAscend(front, accounts, schemas);
      PollsOfMembers(front);
      var polls := PollsOf(front);
      forall i | 0 <= i < |polls| && last.Poll? ensures polls[i].ts < last.event.ts {
        assert polls[i] in polls;
      }
    }
  }

  lemma {:induction false} FilterAscends(polls: seq<PollEvent>, p: PollEvent -> bool)
    requires InOrder(polls)
    ensures InOrder(Filter(polls, p))
  {
    if polls != [] {
      var front, last := polls[..|polls| - 1], polls[|polls| - 1];
      FilterAscends(front, p);
      FilterMembers(front, p);
      assert forall x <- front :: x.ts < last.ts;
    }
  }

  // ----- what is published, against it

  function WindowVerdict(c: Caches, a: AccountId, w: WindowId): Option<ObservedStart> {
    Verdict(Filter(c.db.rollovers, RowOf(a, w)))
  }

  /** The window's newest row was added since the daemon last started. */
  ghost predicate ToldSinceStart(steps: seq<Step>, accounts: seq<Account>, a: AccountId, w: WindowId) {
    steps != [] &&
      var (front, last) := (steps[..|steps| - 1], steps[|steps| - 1]);
      last.Poll? && (Tells(Reached(front, accounts), last.event, a, w) || ToldSinceStart(front, accounts, a, w))
  }

  /** A bracket's later end is exact if its row was added since the daemon last
      started and rounded down otherwise; its earlier end may be either. */
  predicate Ends(b: ObservedStart, exact: ObservedStart, told: bool, neverReadBack: bool) {
    && b.notAfter == (if told then exact.notAfter else Truncated(exact.notAfter))
    && (b.notBefore == exact.notBefore || (!neverReadBack && b.notBefore == Truncated(exact.notBefore)))
  }

  /** Table and anchor follow the exact bracket. */
  ghost predicate Tracks(
      c: Caches, exact: Option<ObservedStart>, a: AccountId, w: WindowId, told: bool, neverReadBack: bool)
  {
    && WindowVerdict(c, a, w) == Floored(exact)
    && (neverReadBack && exact.Some? ==> told)
    && ((a, w) in c.anchors ==> exact.Some? && Ends(c.anchors[(a, w)], exact.value, told, neverReadBack))
  }

  /** The rows a poll adds for the window. */
  lemma FoundAgainst(c: Caches, e: PollEvent, a: AccountId, w: WindowId)
    requires DistinctIds(WindowsOf(e.outcome))
    ensures Filter(RolloversOf(c, e), RowOf(a, w))
         == if e.account == a && e.outcome.Success? && a in c.latestSuccess then ToldBy(c.latestSuccess[a], e, a, w)
            else []
  {
    var prev := Get(c.latestSuccess, e.account);
    DetectOneWindow(e.account, PreviousWindows(prev), WindowsOf(e.outcome), e.id, PreviousTs(prev), e.ts, w);
    if e.account != a {
      FilterNone(RolloversOf(c, e), RowOf(a, w));
    }
  }

  /** A baseline read back tells the same, but for the earlier end. */
  lemma ToldAlike(held: PollEvent, made: PollEvent, e: PollEvent, a: AccountId, w: WindowId)
    requires held == made || held == StoredEvent(made)
    ensures ToldBy(held, e, a, w) == [] <==> ToldBy(made, e, a, w) == []
    ensures ToldBy(made, e, a, w) != [] ==>
      var (found, exact) := (Verdict(ToldBy(held, e, a, w)), Verdict(ToldBy(made, e, a, w)));
      && (found.Some? <==> exact.Some?)
      && (exact.Some? ==> found == Some(ObservedStart(held.ts, e.ts)) && exact == Some(ObservedStart(made.ts, e.ts)))
  {
  }

  /** Where one poll takes the window's anchor and verdict. */
  lemma WindowAfterPoll(c: Caches, e: PollEvent, schemas: Schemas, a: AccountId, w: WindowId)
    requires Conforms(e, schemas)
    ensures var (c', found) := (Recorded(c, e, true), Filter(RolloversOf(c, e), RowOf(a, w)));
      && WindowVerdict(c', a, w) == (if found == [] then WindowVerdict(c, a, w) else Floored(Verdict(found)))
      && ((a, w) in c'.anchors ==>
            Some(c'.anchors[(a, w)]) == if found == [] then Get(c.anchors, (a, w)) else Verdict(found))
  {
    VerdictAfterRows(c.db.rollovers, RolloversOf(c, e), a, w);
    AppliedAllOne(c.anchors, RolloversOf(c, e), a, w);
    PrunedOne(AppliedAll(c.anchors, RolloversOf(c, e)), e.account, WindowsOf(e.outcome), e.ts, a, w);
  }

  lemma FlooredEnds(held: Instant, made: Instant, at: Instant)
    requires held == made || held == Truncated(made)
    ensures Floored(Some(ObservedStart(held, at))) == Floored(Some(ObservedStart(made, at)))
  {
    TruncatedLaws(made, made);
    TruncatedLaws(Truncated(made), made);
  }

  /** A rollover found against a baseline that is held, exact or read back. */
  lemma TracksFound(
      c': Caches, found: Option<ObservedStart>, exact: Option<ObservedStart>, held: PollEvent, made: PollEvent,
      at: Instant,
      a: AccountId, w: WindowId, neverReadBack: bool)
    requires held == made || (!neverReadBack && held == StoredEvent(made))
    requires found.Some? <==> exact.Some?
    requires exact.Some? ==> found == Some(ObservedStart(held.ts, at)) && exact == Some(ObservedStart(made.ts, at))
    requires WindowVerdict(c', a, w) == Floored(found)
    requires (a, w) in c'.anchors ==> Some(c'.anchors[(a, w)]) == found
    ensures Tracks(c', exact, a, w, true, neverReadBack)
  {
    FlooredEnds(held.ts, made.ts, at);
  }

  lemma TracksAfterPoll(
      c: Caches, before: seq<PollEvent>, e: PollEvent, schemas: Schemas, a: AccountId, w: WindowId, told: bool,
      neverReadBack: bool)
    requires Conforms(e, schemas)
    requires Tracks(c, ExactVerdict(before, a, w), a, w, told, neverReadBack)
    requires Held(Get(c.latestSuccess, a), Last(before), neverReadBack)
    ensures Tracks(Recorded(c, e, true), ExactVerdict(before + (if SuccessOf(a)(e) then [e] else []), a, w),
                   a, w, Tells(c, e, a, w) || told, neverReadBack)
  {
    WindowAfterPoll(c, e, schemas, a, w);
    FoundAgainst(c, e, a, w);
    assert before + [] == before;
    if SuccessOf(a)(e) {
      ExactAfter(before, e, a, w);
      if before != [] {
        var (held, made) := (c.latestSuccess[a], before[|before| - 1]);
        ToldAlike(held, made, e, a, w);
        if ToldBy(made, e, a, w) != [] {
          TracksFound(Recorded(c, e, true), Verdict(ToldBy(held, e, a, w)), Verdict(ToldBy(made, e, a, w)),
                      held, made, e.ts, a, w, neverReadBack);
        }
      }
    }
  }

  lemma TracksAfterRestart(
      c: Caches, exact: Option<ObservedStart>, accounts: seq<Account>, schemas: Schemas, now: Instant, acc: Account,
      w: WindowId,
      told: bool, neverReadBack: bool)
    requires Sound(c, acc, schemas, now) && DistinctAccounts(accounts) && acc in accounts
    requires Tracks(c, exact, acc.id, w, told, neverReadBack)
    ensures Tracks(HydratedAll(Fresh(c.db), accounts, now), exact, acc.id, w, false, false)
  {
    AnchorAfterRestart(c, accounts, schemas, now, acc, w);
  }

  /** How table and anchor stand after a run. */
  ghost predicate Tracked(steps: seq<Step>, accounts: seq<Account>, a: AccountId, w: WindowId) {
    Tracks(Reached(steps, accounts), ExactVerdict(SuccessesOf(steps, a), a, w), a, w,
           ToldSinceStart(steps, accounts, a, w), NoRestarts(steps))
  }

  lemma OneMoreStep(front: seq<Step>, last: Step, accounts: seq<Account>, a: AccountId, w: WindowId)
    ensures var (c, steps) := (Reached(front, accounts), front + [last]);
      && Reached(steps, accounts)
         == (match last
             case Poll(e) => Recorded(c, e, true)
             case Restart(now) => HydratedAll(Fresh(c.db), accounts, now))
      && (ToldSinceStart(steps, accounts, a, w) <==>
            last.Poll? && (Tells(c, last.event, a, w) || ToldSinceStart(front, accounts, a, w)))
      && (NoRestarts(steps) <==> NoRestarts(front) && last.Poll?)
  {
    assert (front + [last])[..|front|] == front;
    RestartsSoFar(front + [last]);
  }

  lemma TracksPollStep(
      front: seq<Step>, e: PollEvent, accounts: seq<Account>, schemas: Schemas, acc: Account, w: WindowId)
    requires Valid(front, accounts, schemas) && acc in accounts && Conforms(e, schemas)
    requires Tracked(front, accounts, acc.id, w)
    ensures Tracked(front + [Poll(e)], accounts, acc.id, w)
  {
    OneMoreStep(front, Poll(e), accounts, acc.id, w);
    SuccessesGrow(front, Poll(e), acc.id);
    ReachedHolds(front, accounts, schemas, acc);
    TracksAfterPoll(Reached(front, accounts), SuccessesOf(front, acc.id), e, schemas, acc.id, w,
                    ToldSinceStart(front, accounts, acc.id, w), NoRestarts(front));
  }

  lemma TracksRestartStep(
      front: seq<Step>, now: Instant, accounts: seq<Account>, schemas: Schemas, acc: Account, w: WindowId)
    requires Valid(front, accounts, schemas) && acc in accounts && Follows(Restart(now), front)
    requires Tracked(front, accounts, acc.id, w)
    ensures Tracked(front + [Restart(now)], accounts, acc.id, w)
  {
    OneMoreStep(front, Restart(now), accounts, acc.id, w);
    SuccessesGrow(front, Restart(now), acc.id);
    ReachedAgrees(front, accounts, schemas, now, acc);
    TracksAfterRestart(Reached(front, accounts), ExactVerdict(SuccessesOf(front, acc.id), acc.id, w),
                       accounts, schemas, now, acc, w,
                       ToldSinceStart(front, accounts, acc.id, w), NoRestarts(front));
  }

  lemma {:induction false} StaysTracked(
      steps: seq<Step>, accounts: seq<Account>, schemas: Schemas, acc: Account, w: WindowId)
    requires Valid(steps, accounts, schemas) && acc in accounts
    ensures Tracked(steps, accounts, acc.id, w)
  {
    if steps != [] {
      var front, last := steps[..|steps| - 1], steps[|steps| - 1];
      assert front + [last] == steps;
      ValidPrefix(steps, accounts, schemas);
      StaysTracked(front, accounts, schemas, acc, w);
      match last
      case Poll(e) =>
        assert Poll(e) in steps;
        TracksPollStep(front, e, accounts, schemas, acc, w);
      case Restart(now) =>
        assert Follows(last, front);
        TracksRestartStep(front, now, accounts, schemas, acc, w);
    }
  }

  /** After any run the table reads as the exact bracket rounded down, and a
      published bracket is it but for the ends that were read back. */
  lemma ReachedTracks(
      steps: seq<Step>, accounts: seq<Account>, schemas: Schemas, acc: Account, w: WindowId)
    requires Valid(steps, accounts, schemas) && acc in accounts
    ensures Tracks(Reached(steps, accounts), ExactVerdict(SuccessesOf(steps, acc.id), acc.id, w), acc.id, w,
                   ToldSinceStart(steps, accounts, acc.id, w), NoRestarts(steps))
  {
    StaysTracked(steps, accounts, schemas, acc, w);
  }

  /** A window that is in every successful payload is never forgotten. */
  lemma {:induction false} HonestIsRemembered(
      steps: seq<Step>, accounts: seq<Account>, schemas: Schemas, acc: Account, w: WindowId, restarts: iset<Instant>)
    requires Valid(steps, accounts, schemas) && acc in accounts
    requires HonestRun(SuccessesOf(steps, acc.id), w, restarts)
    ensures Remembered(steps, accounts, acc.id, w)
  {
    if steps != [] {
      var front, last := steps[..|steps| - 1], steps[|steps| - 1];
      assert front + [last] == steps;
      ValidPrefix(steps, accounts, schemas);
      SuccessesGrow(front, last, acc.id);
      HonestPrefix(SuccessesOf(front, acc.id),
                   if last.Poll? && SuccessOf(acc.id)(last.event) then [last.event] else [], w, restarts);
      HonestIsRemembered(front, accounts, schemas, acc, w, restarts);
      if last.Restart? {
        KnownAtRestart(front, accounts, schemas, acc, w, restarts);
      }
    }
  }

  lemma KnownAtRestart(
      steps: seq<Step>, accounts: seq<Account>, schemas: Schemas, acc: Account, w: WindowId, restarts: iset<Instant>)
    requires Valid(steps, accounts, schemas) && acc in accounts
    requires HonestRun(SuccessesOf(steps, acc.id), w, restarts)
    ensures var c := Reached(steps, accounts); InLatest(c, acc.id, w) || NothingToLose(c.db, acc.id, w)
  {
    var successes := SuccessesOf(steps, acc.id);
    ReachedHolds(steps, accounts, schemas, acc);
    ReachedTracks(steps, accounts, schemas, acc, w);
    if |successes| > 1 {
      assert Honest(successes[|successes| - 2], successes[|successes| - 1], w, restarts);
    }
  }

  ghost predicate MostRecent(restarts: iset<Instant>, r: Instant, until: Instant) {
    r in restarts && r <= until && forall x <- restarts :: x <= until ==> x <= r
  }

  /** Anchor soundness: over any run, with failures and daemon restarts in it,
      the successes imply one bracket, which holds the window's most recent
      restart as of the newest success. What is published is that bracket, but
      that ends read back from the table are rounded down: so the restart is
      later than its earlier end and less than a millisecond past its later end,
      and no later than that end if it is exact. And the converse: a restart
      straddled by two successes is published until the window's own length has
      passed. */
  lemma PublishedBracketHoldsTheRestart(
      steps: seq<Step>, accounts: seq<Account>, schemas: Schemas, t: Instant, acc: Account, w: WindowId,
      restarts: iset<Instant>)
    requires Valid(steps, accounts, schemas) && acc in accounts
    requires forall s <- steps :: s.At() <= t
    requires HonestRun(SuccessesOf(steps, acc.id), w, restarts)
    ensures var published := Get(Reached(steps, accounts).anchors, (acc.id, w));
      var successes := SuccessesOf(steps, acc.id);
      var exact := ExactVerdict(successes, acc.id, w);
      && Truthful(exact, successes, restarts)
      && (published.Some? ==>
            && exact.Some? && successes != []
            && Ends(published.value, exact.value, ToldSinceStart(steps, accounts, acc.id, w), NoRestarts(steps))
            && (NoRestarts(steps) ==> published == exact)
            && HoldsToTheMillisecond(published.value, exact.value, restarts, successes[|successes| - 1].ts))
      && (successes != [] && RestartIn(restarts, successes[0].ts, successes[|successes| - 1].ts) ==>
            exact.Some? && (published.Some? || Young(Floored(exact), schemas(acc.id, w).span, t).None?))
  {
    SuccessesAscend(steps, accounts, schemas, acc.id);
    ExactIsTruthful(SuccessesOf(steps, acc.id), acc.id, w, restarts);
    ReachedTracks(steps, accounts, schemas, acc, w);
    if (acc.id, w) in Reached(steps, accounts).anchors {
      EndsHold(Reached(steps, accounts).anchors[(acc.id, w)], ExactVerdict(SuccessesOf(steps, acc.id), acc.id, w).value,
               ToldSinceStart(steps, accounts, acc.id, w), NoRestarts(steps), SuccessesOf(steps, acc.id), restarts);
    }
    ReachedAnchor(steps, accounts, schemas, t, acc, w);
    HonestIsRemembered(steps, accounts, schemas, acc, w, restarts);
  }

  /** The most recent restart is past the earlier end, less than a millisecond
      past the later, and not past that if it is exact. */
  ghost predicate HoldsToTheMillisecond(
      b: ObservedStart, exact: ObservedStart, restarts: iset<Instant>, until: Instant)
  {
    forall r :: MostRecent(restarts, r, until) ==>
      && b.notBefore < r < b.notAfter + MILLI
      && (b.notAfter == exact.notAfter ==> r <= b.notAfter)
  }

  lemma EndsHold(
      b: ObservedStart, exact: ObservedStart, told: bool, neverReadBack: bool, successes: seq<PollEvent>,
      restarts: iset<Instant>)
    requires successes != [] && Truthful(Some(exact), successes, restarts) && Ends(b, exact, told, neverReadBack)
    ensures HoldsToTheMillisecond(b, exact, restarts, successes[|successes| - 1].ts)
  {
    TruncatedLaws(exact.notBefore, exact.notBefore);
    TruncatedLaws(exact.notAfter, exact.notAfter);
  }

  /** Whichever writes fail, within one lifetime a published bracket is the one
      the successes imply, and one they imply is published until it is pruned. */
  lemma PublishedDespiteFailedWrites(
      steps: seq<Step>, accounts: seq<Account>, schemas: Schemas, t: Instant, acc: Account, w: WindowId,
      commits: seq<bool>)
    requires Valid(steps, accounts, schemas) && acc in accounts && NoRestarts(steps)
    requires (forall s <- steps :: s.At() <= t) && |commits| == |PollsOf(steps)|
    ensures var published := Get(Lived(Fresh(EMPTY_DB), PollsOf(steps), commits).anchors, (acc.id, w));
      var exact := ExactVerdict(SuccessesOf(steps, acc.id), acc.id, w);
      published == exact || (published.None? && Young(Floored(exact), schemas(acc.id, w).span, t).None?)
  {
    LivedAsReached(steps, accounts, commits);
    ReachedTracks(steps, accounts, schemas, acc, w);
    ReachedAnchor(steps, accounts, schemas, t, acc, w);
    OneLifetimeRemembers(steps, accounts, acc.id, w);
  }

  // ----- exactly when the rounding can lose the restart

  /** The restarts as they were, but that the newest bracketed one came right at
      the success that showed it. */
  ghost function AtTheLatest(restarts: iset<Instant>, v: ObservedStart): iset<Instant> {
    iset r: Instant | r == v.notAfter || (r in restarts && !(v.notBefore < r <= v.notAfter))
  }

  lemma SameElsewhere(restarts: iset<Instant>, v: ObservedStart, after: Instant, until: Instant)
    requires v.notBefore < v.notAfter && (until <= v.notBefore || v.notAfter <= after)
    ensures RestartIn(AtTheLatest(restarts, v), after, until) <==> RestartIn(restarts, after, until)
  {
    if RestartIn(restarts, after, until) {
      var r :| r in restarts && after < r <= until;
      assert r in AtTheLatest(restarts, v);
    }
  }

  lemma StillHonest(successes: seq<PollEvent>, w: WindowId, restarts: iset<Instant>, v: ObservedStart, i: nat)
    requires Ascending(successes) && HonestRun(successes, w, restarts)
    requires 0 < i < |successes| && v == ObservedStart(successes[i - 1].ts, successes[i].ts)
    requires RestartIn(restarts, v.notBefore, v.notAfter)
    ensures HonestRun(successes, w, AtTheLatest(restarts, v))
  {
    var moved := AtTheLatest(restarts, v);
    forall j | 0 < j < |successes| ensures Honest(successes[j - 1], successes[j], w, moved) {
      assert Honest(successes[j - 1], successes[j], w, restarts);
      if j == i {
        assert v.notAfter in moved;
      } else {
        SameElsewhere(restarts, v, successes[j - 1].ts, successes[j].ts);
      }
    }
  }

  /** A published bracket holds the most recent restart, wherever in its bracket
      that really came. */
  ghost predicate AlwaysHolds(b: ObservedStart, successes: seq<PollEvent>, w: WindowId)
    requires successes != []
  {
    forall restarts: iset<Instant> :: HonestRun(successes, w, restarts) ==>
      HoldsNewestOf(b, restarts, successes[|successes| - 1].ts)
  }

  ghost predicate HoldsNewestOf(b: ObservedStart, restarts: iset<Instant>, until: Instant) {
    forall r :: MostRecent(restarts, r, until) ==> b.notBefore < r <= b.notAfter
  }

  /** That is so exactly if the daemon itself added the bracket's row since it
      last started, or its later end was whole milliseconds all along. */
  lemma HoldsExactlyWhen(
      steps: seq<Step>, accounts: seq<Account>, schemas: Schemas, acc: Account, w: WindowId, restarts: iset<Instant>)
    requires Valid(steps, accounts, schemas) && acc in accounts
    requires HonestRun(SuccessesOf(steps, acc.id), w, restarts)
    requires (acc.id, w) in Reached(steps, accounts).anchors
    ensures var (b, successes) := (Reached(steps, accounts).anchors[(acc.id, w)], SuccessesOf(steps, acc.id));
      var exact := ExactVerdict(successes, acc.id, w);
      && exact.Some? && successes != []
      && (AlwaysHolds(b, successes, w)
          <==> ToldSinceStart(steps, accounts, acc.id, w) || WholeMillis(exact.value.notAfter))
  {
    var (b, successes) := (Reached(steps, accounts).anchors[(acc.id, w)], SuccessesOf(steps, acc.id));
    ReachedTracks(steps, accounts, schemas, acc, w);
    SuccessesAscend(steps, accounts, schemas, acc.id);
    var exact := ExactVerdict(successes, acc.id, w).value;
    TruncatedLaws(exact.notBefore, exact.notBefore);
    TruncatedLaws(exact.notAfter, exact.notAfter);
    if b.notAfter == exact.notAfter {
      HoldsWhenExact(successes, acc.id, w, b, exact);
    } else {
      MissedWhenRounded(successes, acc.id, w, restarts, b, exact);
    }
  }

  lemma HoldsWhenExact(successes: seq<PollEvent>, a: AccountId, w: WindowId, b: ObservedStart, exact: ObservedStart)
    requires Ascending(successes) && successes != [] && ExactVerdict(successes, a, w) == Some(exact)
    requires b.notBefore <= exact.notBefore && b.notAfter == exact.notAfter
    ensures AlwaysHolds(b, successes, w)
  {
    forall restarts: iset<Instant> | HonestRun(successes, w, restarts)
      ensures HoldsNewestOf(b, restarts, successes[|successes| - 1].ts)
    {
      ExactIsTruthful(successes, a, w, restarts);
    }
  }

  lemma MissedWhenRounded(
      successes: seq<PollEvent>, a: AccountId, w: WindowId, restarts: iset<Instant>, b: ObservedStart,
      exact: ObservedStart)
    requires Ascending(successes) && successes != [] && ExactVerdict(successes, a, w) == Some(exact)
    requires HonestRun(successes, w, restarts) && b.notAfter < exact.notAfter
    ensures !AlwaysHolds(b, successes, w)
  {
    ExactIsTruthful(successes, a, w, restarts);
    var i := ExactIsAPair(successes, a, w);
    StillHonest(successes, w, restarts, exact, i);
    var moved, newest := AtTheLatest(restarts, exact), successes[|successes| - 1].ts;
    forall x <- moved | x <= newest ensures x <= exact.notAfter {
      if x > exact.notAfter {
        assert x in restarts && RestartIn(restarts, exact.notAfter, newest);
      }
    }
    assert MostRecent(moved, exact.notAfter, newest);
  }

  // ----- what one success does to what is served

  /** What the newest success and the one before it say of a window decides its
      anchor: an unannounced reset puts the bracket of the two polls there while
      that is young, an announced one takes it away, and otherwise it stays while
      it is young. */
  lemma ServedAfter(
      c: Caches, e: PollEvent, committed: bool, schemas: Schemas, w: WindowId, before: QuotaWindow, after: QuotaWindow)
    requires Conforms(e, schemas) && e.account in c.latestSuccess
    requires Lookup(WindowsOf(c.latestSuccess[e.account].outcome), w) == Some(before) && Reading(e, w) == Some(after)
    ensures var (kind, span) := (Classify(before, after, e.ts), schemas(e.account, w).span);
      Get(Recorded(c, e, committed).anchors, (e.account, w))
      == if kind == Some(Unannounced) then Young(Some(ObservedStart(c.latestSuccess[e.account].ts, e.ts)), span, e.ts)
         else if kind.Some? then None
         else Young(Get(c.anchors, (e.account, w)), span, e.ts)
  {
    FoundAgainst(c, e, e.account, w);
    ServedFrom(c, e, committed, schemas, w, after);
    ToldAs(c.latestSuccess[e.account], e, w, before, after);
  }

  lemma ServedFrom(c: Caches, e: PollEvent, committed: bool, schemas: Schemas, w: WindowId, after: QuotaWindow)
    requires Conforms(e, schemas) && Reading(e, w) == Some(after)
    ensures var found := Filter(RolloversOf(c, e), RowOf(e.account, w));
      Get(Recorded(c, e, committed).anchors, (e.account, w))
      == Young(if found == [] then Get(c.anchors, (e.account, w)) else Verdict(found), schemas(e.account, w).span, e.ts)
  {
    AppliedAllOne(c.anchors, RolloversOf(c, e), e.account, w);
    PrunedOne(AppliedAll(c.anchors, RolloversOf(c, e)), e.account, WindowsOf(e.outcome), e.ts, e.account, w);
  }

  lemma ToldAs(prev: PollEvent, e: PollEvent, w: WindowId, before: QuotaWindow, after: QuotaWindow)
    requires Lookup(WindowsOf(prev.outcome), w) == Some(before) && Reading(e, w) == Some(after)
    ensures var (told, kind) := (ToldBy(prev, e, e.account, w), Classify(before, after, e.ts));
      && (told == [] <==> kind.None?)
      && (kind == Some(Unannounced) ==> Verdict(told) == Some(ObservedStart(prev.ts, e.ts)))
      && (kind.Some? && kind != Some(Unannounced) ==> Verdict(told).None?)
  {
  }

  /** So a percent window seen to fall by five points or more, to half or less,
      with its published reset held, is published with the bracket of the two
      polls, unless that middle is already further back than the window is long. */
  lemma AFallIsPublished(
      c: Caches, e: PollEvent, committed: bool, schemas: Schemas, w: WindowId, before: QuotaWindow, after: QuotaWindow)
    requires Conforms(e, schemas) && e.account in c.latestSuccess
    requires Lookup(WindowsOf(c.latestSuccess[e.account].outcome), w) == Some(before) && Reading(e, w) == Some(after)
    requires before.unit == Percent && after.unit == Percent && ResetHeld(before, after)
    requires 0.0 <= before.used <= 100.0 && 0.0 <= after.used <= 100.0
    requires before.used - after.used >= 5.0 && 2.0 * after.used <= before.used
    ensures var (from, to, span) := (c.latestSuccess[e.account].ts, e.ts, schemas(e.account, w).span);
      var served := Get(Recorded(c, e, committed).anchors, (e.account, w));
      && (served.Some? ==> served == Some(ObservedStart(from, to)))
      && (from <= to && to - from <= 2 * span ==> served.Some?)
      && (from <= to && to - from > 2 * span + 1 ==> served.None?)
  {
    UnannouncedInPercent(before, after, e.ts);
    ServedAfter(c, e, committed, schemas, w, before, after);
    var o := ObservedStart(c.latestSuccess[e.account].ts, e.ts);
    if o.notBefore <= o.notAfter {
      EstimateIsTheMiddle(o);
    }
  }
}
