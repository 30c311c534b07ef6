/** Runs in which a restart changes what is published of a window. */
module RestartWitnesses {
  import opened Time
  import opened Collections
  import opened Domain
  import opened Rollover
  import opened Storage
  import opened Daemon
  import opened Restart
  import opened AnchorSoundness

  const THE_ACCOUNT := Account("a", "p", "one")
  const ACCOUNTS := [THE_ACCOUNT]
  const FIVE_HOURS: Duration := 5 * HOUR

  function OneSchema(): Schemas {
    (a: AccountId, w: WindowId) => Schema(Percent, None, FIVE_HOURS)
  }

  /** A window without a published reset, so that only a collapse tells. */
  function AtPercent(used: real): QuotaWindow {
    QuotaWindow("w", "w", AccountWide, Rolling(FIVE_HOURS), Percent, used, None, None)
  }

  function PollOf(id: PollId, ts: Instant, windows: seq<QuotaWindow>): PollEvent {
    PollEvent(id, ts, "p", "a", Startup, Success(windows), 0)
  }

  /** Eighty percent, then none: a restart in between. The second poll lands half
      a millisecond past two seconds. */
  function Full(): PollEvent {
    PollOf(1, SECOND, [AtPercent(80.0)])
  }

  function Emptied(): PollEvent {
    PollOf(2, 2 * SECOND + MILLI / 2, [AtPercent(0.0)])
  }

  /** A success that leaves the window out, and one that has it again. */
  function Without(): PollEvent {
    PollOf(3, 3 * SECOND, [])
  }

  function Again(): PollEvent {
    PollOf(4, 5 * SECOND, [AtPercent(1.0)])
  }

  /** The bracket the first two polls imply. */
  function TheBracket(): ObservedStart {
    ObservedStart(Full().ts, Emptied().ts)
  }

  lemma ValidPush(steps: seq<Step>, s: Step)
    requires Valid(steps, ACCOUNTS, OneSchema()) && Follows(s, steps)
    requires s.Poll? ==> Conforms(s.event, OneSchema()) && s.event.account == "a" && s.event.provider == "p"
    ensures Valid(steps + [s], ACCOUNTS, OneSchema())
  {
    var all := steps + [s];
    forall i | 0 <= i < |all| ensures Follows(all[i], all[..i]) {
      assert all[..i] == if i < |steps| then steps[..i] else steps;
    }
    forall x <- all | x.Poll?
      ensures exists a <- ACCOUNTS :: a.id == x.event.account && a.provider == x.event.provider
    {
      assert x in steps || x == s;
      assert THE_ACCOUNT in ACCOUNTS;
    }
  }

  lemma AllConform()
    ensures Conforms(Full(), OneSchema()) && Conforms(Emptied(), OneSchema())
    ensures Conforms(Without(), OneSchema()) && Conforms(Again(), OneSchema())
  {
  }

  /** The first two polls tell a restart, and the other two nothing. */
  lemma WhatIsTold()
    ensures Verdict(ToldBy(Full(), Emptied(), "a", "w")) == Some(TheBracket())
    ensures ToldBy(Emptied(), Without(), "a", "w") == [] && ToldBy(Without(), Again(), "a", "w") == []
  {
    var (before, after) := (AtPercent(80.0), AtPercent(0.0));
    assert before.Utilization() == Some(0.8) && after.Utilization() == Some(0.0);
    assert Reading(Emptied(), "w") == Some(after) && Lookup(WindowsOf(Full().outcome), "w") == Some(before);
  }

  /** A run, its successes, the bracket they imply and a bound on its instants. */
  ghost predicate Runs(steps: seq<Step>, successes: seq<PollEvent>, exact: Option<ObservedStart>, t: Instant) {
    && Valid(steps, ACCOUNTS, OneSchema()) && (forall s <- steps :: s.At() <= t)
    && SuccessesOf(steps, "a") == successes && ExactVerdict(successes, "a", "w") == exact
  }

  /** A later success that tells nothing. */
  lemma PollOn(steps: seq<Step>, successes: seq<PollEvent>, exact: Option<ObservedStart>, t: Instant, e: PollEvent)
    requires Runs(steps, successes, exact, t) && Follows(Poll(e), steps) && Conforms(e, OneSchema())
    requires e.account == "a" && e.provider == "p" && e.outcome.Success? && t <= e.ts
    requires successes != [] ==> ToldBy(successes[|successes| - 1], e, "a", "w") == []
    requires successes == [] ==> exact.None?
    ensures Runs(steps + [Poll(e)], successes + [e], exact, e.ts)
  {
    ValidPush(steps, Poll(e));
    SuccessesGrow(steps, Poll(e), "a");
    ExactAfter(successes, e, "a", "w");
  }

  lemma RestartOn(steps: seq<Step>, successes: seq<PollEvent>, exact: Option<ObservedStart>, t: Instant, now: Instant)
    requires Runs(steps, successes, exact, t) && t <= now
    ensures Runs(steps + [Restart(now)], successes, exact, now)
  {
    ValidPush(steps, Restart(now));
    SuccessesGrow(steps, Restart(now), "a");
  }

  /** The ids so far, for the polls still to come. */
  ghost predicate IdsBelow(steps: seq<Step>, id: PollId) {
    forall s <- steps :: s.Poll? ==> s.event.id < id
  }

  /** A later success that tells a bracket. */
  lemma BracketOn(steps: seq<Step>, successes: seq<PollEvent>, exact: Option<ObservedStart>, t: Instant, e: PollEvent)
    requires Runs(steps, successes, exact, t) && Follows(Poll(e), steps) && Conforms(e, OneSchema())
    requires e.account == "a" && e.provider == "p" && e.outcome.Success? && t <= e.ts
    requires successes != [] && ToldBy(successes[|successes| - 1], e, "a", "w") != []
    ensures Runs(steps + [Poll(e)], successes + [e], Verdict(ToldBy(successes[|successes| - 1], e, "a", "w")), e.ts)
  {
    ValidPush(steps, Poll(e));
    SuccessesGrow(steps, Poll(e), "a");
    ExactAfter(successes, e, "a", "w");
  }

  /** A poll later in id and in time follows. */
  lemma Later(steps: seq<Step>, successes: seq<PollEvent>, exact: Option<ObservedStart>, t: Instant, e: PollEvent)
    requires Runs(steps, successes, exact, t) && IdsBelow(steps, e.id) && t < e.ts
    ensures Follows(Poll(e), steps) && IdsBelow(steps + [Poll(e)], e.id + 1)
  {
  }

  lemma Start()
    ensures Runs([], [], None, 0) && IdsBelow([], 1)
  {
  }

  lemma TwoPolls() returns (steps: seq<Step>)
    ensures Runs(steps, [Full(), Emptied()], Some(TheBracket()), Emptied().ts) && IdsBelow(steps, 3)
  {
    AllConform();
    WhatIsTold();
    Start();
    Later([], [], None, 0, Full());
    PollOn([], [], None, 0, Full());
    var one := [] + [Poll(Full())];
    Later(one, [] + [Full()], None, Full().ts, Emptied());
    BracketOn(one, [] + [Full()], None, Full().ts, Emptied());
    assert [] + [Full()] + [Emptied()] == [Full(), Emptied()];
    steps := one + [Poll(Emptied())];
  }

  /** At a restart that finds the window missing a bracket is forgotten. */
  lemma ForgottenAtRestart(steps: seq<Step>, successes: seq<PollEvent>, exact: ObservedStart, t: Instant, now: Instant)
    requires Runs(steps, successes, Some(exact), t) && successes != []
    requires Reading(successes[|successes| - 1], "w").None?
    ensures !Remembered(steps + [Restart(now)], ACCOUNTS, "a", "w")
  {
    assert (steps + [Restart(now)])[..|steps|] == steps;
    assert THE_ACCOUNT in ACCOUNTS;
    HeldWindows(steps, successes);
    ReachedTracks(steps, ACCOUNTS, OneSchema(), THE_ACCOUNT, "w");
  }

  /** And a poll that tells nothing leaves it forgotten. */
  lemma StillForgotten(
      steps: seq<Step>, successes: seq<PollEvent>, exact: Option<ObservedStart>, t: Instant, e: PollEvent)
    requires Runs(steps, successes, exact, t) && successes != [] && Conforms(e, OneSchema())
    requires Reading(successes[|successes| - 1], "w").None?
    requires !Remembered(steps, ACCOUNTS, "a", "w")
    ensures !Remembered(steps + [Poll(e)], ACCOUNTS, "a", "w")
  {
    assert (steps + [Poll(e)])[..|steps|] == steps;
    HeldWindows(steps, successes);
    FoundAgainst(Reached(steps, ACCOUNTS), e, "a", "w");
  }

  /** The newest success held, exact or read back, has the same windows. */
  lemma HeldWindows(steps: seq<Step>, successes: seq<PollEvent>)
    requires Valid(steps, ACCOUNTS, OneSchema()) && SuccessesOf(steps, "a") == successes && successes != []
    ensures var c := Reached(steps, ACCOUNTS);
      && "a" in c.latestSuccess
      && WindowsOf(c.latestSuccess["a"].outcome) == WindowsOf(successes[|successes| - 1].outcome)
      && (InLatest(c, "a", "w") <==> Reading(successes[|successes| - 1], "w").Some?)
  {
    assert THE_ACCOUNT in ACCOUNTS;
    ReachedHolds(steps, ACCOUNTS, OneSchema(), THE_ACCOUNT);
  }

  /** A restart that finds the window missing, then a poll that tells nothing. */
  lemma MissedThenPolled(
      front: seq<Step>, successes: seq<PollEvent>, exact: ObservedStart, t: Instant, now: Instant, e: PollEvent)
    returns (steps: seq<Step>)
    requires Runs(front, successes, Some(exact), t) && IdsBelow(front, e.id) && t <= now < e.ts
    requires successes != [] && Reading(successes[|successes| - 1], "w").None?
    requires Conforms(e, OneSchema()) && e.account == "a" && e.provider == "p" && e.outcome.Success?
    requires ToldBy(successes[|successes| - 1], e, "a", "w") == []
    ensures Runs(steps, successes + [e], Some(exact), e.ts) && !Remembered(steps, ACCOUNTS, "a", "w")
  {
    RestartOn(front, successes, Some(exact), t, now);
    ForgottenAtRestart(front, successes, exact, t, now);
    var restarted := front + [Restart(now)];
    Later(restarted, successes, Some(exact), now, e);
    PollOn(restarted, successes, Some(exact), now, e);
    StillForgotten(restarted, successes, Some(exact), now, e);
    steps := restarted + [Poll(e)];
  }

  lemma ThreePolls() returns (steps: seq<Step>)
    ensures Runs(steps, [Full(), Emptied(), Without()], Some(TheBracket()), Without().ts) && IdsBelow(steps, 4)
  {
    AllConform();
    WhatIsTold();
    var two := TwoPolls();
    Later(two, [Full(), Emptied()], Some(TheBracket()), Emptied().ts, Without());
    PollOn(two, [Full(), Emptied()], Some(TheBracket()), Emptied().ts, Without());
    assert [Full(), Emptied()] + [Without()] == [Full(), Emptied(), Without()];
    steps := two + [Poll(Without())];
  }

  /** Two polls, one without the window, a restart that finds it missing, and a
      poll that has it again: forgotten. */
  lemma AForgottenRun() returns (steps: seq<Step>)
    ensures Runs(steps, [Full(), Emptied(), Without(), Again()], Some(TheBracket()), Again().ts)
    ensures !Remembered(steps, ACCOUNTS, "a", "w")
  {
    AllConform();
    WhatIsTold();
    var front := ThreePolls();
    steps := MissedThenPolled(front, [Full(), Emptied(), Without()], TheBracket(), Without().ts, 4 * SECOND, Again());
    assert [Full(), Emptied(), Without()] + [Again()] == [Full(), Emptied(), Without(), Again()];
  }

  /** Whenever a window with a young bracket was forgotten and its payload has it
      again, no anchor is served and the next restart brings it back. */
  lemma ComesBack(steps: seq<Step>, successes: seq<PollEvent>, exact: ObservedStart, now: Instant)
    requires Valid(steps, ACCOUNTS, OneSchema()) && forall s <- steps :: s.At() <= now
    requires SuccessesOf(steps, "a") == successes && ExactVerdict(successes, "a", "w") == Some(exact)
    requires successes != [] && Reading(successes[|successes| - 1], "w").Some?
    requires Young(Floored(Some(exact)), FIVE_HOURS, now).Some?
    ensures InLatest(Reached(steps, ACCOUNTS), "a", "w")
    ensures Get(Reached(steps + [Restart(now)], ACCOUNTS).anchors, ("a", "w")) == Floored(Some(exact))
    ensures !Remembered(steps, ACCOUNTS, "a", "w") ==> ("a", "w") !in Reached(steps, ACCOUNTS).anchors
  {
    assert THE_ACCOUNT in ACCOUNTS;
    HeldWindows(steps, successes);
    ReachedAnchor(steps, ACCOUNTS, OneSchema(), now, THE_ACCOUNT, "w");
    ReachedTracks(steps, ACCOUNTS, OneSchema(), THE_ACCOUNT, "w");
    RestartRefinement(steps, ACCOUNTS, OneSchema(), now, THE_ACCOUNT, "w");
  }

  lemma YoungBracket(now: Instant)
    requires now <= HOUR
    ensures Young(Floored(Some(TheBracket())), FIVE_HOURS, now) == Some(ObservedStart(SECOND, 2 * SECOND))
  {
  }

  /** A window missing from the newest payload at a restart: the daemon then
      serves no anchor for it though its payload has it again, and the next
      restart brings a young one back. */
  lemma AForgottenAnchorComesBack() returns (steps: seq<Step>)
    ensures SuccessesOf(steps, "a") == [Full(), Emptied(), Without(), Again()]
    ensures !Remembered(steps, ACCOUNTS, "a", "w")
    ensures Valid(steps, ACCOUNTS, OneSchema()) && InLatest(Reached(steps, ACCOUNTS), "a", "w")
    ensures ("a", "w") !in Reached(steps, ACCOUNTS).anchors
    ensures Get(Reached(steps + [Restart(6 * SECOND)], ACCOUNTS).anchors, ("a", "w"))
         == Some(ObservedStart(SECOND, 2 * SECOND))
  {
    steps := AForgottenRun();
    YoungBracket(6 * SECOND);
    ComesBack(steps, [Full(), Emptied(), Without(), Again()], TheBracket(), 6 * SECOND);
  }

  /** A restart in the last half millisecond of a bracket that was read back is
      outside it. */
  lemma ARoundedBracketCanMiss() returns (steps: seq<Step>, restarts: iset<Instant>)
    ensures Valid(steps, ACCOUNTS, OneSchema()) && SuccessesOf(steps, "a") == [Full(), Emptied()]
    ensures HonestRun([Full(), Emptied()], "w", restarts)
    ensures Get(Reached(steps, ACCOUNTS).anchors, ("a", "w")) == Some(ObservedStart(SECOND, 2 * SECOND))
    ensures MostRecent(restarts, 2 * SECOND + MILLI / 2, Emptied().ts)
  {
    restarts := iset{Emptied().ts};
    var front := TwoPolls();
    RestartOn(front, [Full(), Emptied()], Some(TheBracket()), Emptied().ts, 3 * SECOND);
    HonestPair(restarts);
    YoungBracket(3 * SECOND);
    ComesBack(front, [Full(), Emptied()], TheBracket(), 3 * SECOND);
    steps := front + [Restart(3 * SECOND)];
  }

  lemma HonestPair(restarts: iset<Instant>)
    requires restarts == iset{Emptied().ts}
    ensures HonestRun([Full(), Emptied()], "w", restarts)
  {
    var (before, after) := (AtPercent(80.0), AtPercent(0.0));
    assert before.Utilization() == Some(0.8) && after.Utilization() == Some(0.0);
    assert Emptied().ts in restarts && RestartIn(restarts, Full().ts, Emptied().ts);
    assert Reading(Full(), "w") == Some(before) && Reading(Emptied(), "w") == Some(after);
  }
}
