/** The long-poll that carries both of the daemon's clocks to one client: the
    newest poll and the newest config load. */
module LongPoll {
  import opened Collections
  import opened Domain

  /** What the daemon's two watch channels hold. */
  datatype Published = Published(poll: Option<PollId>, generation: nat)

  /** What the client has, and sends with each request. */
  datatype Clocks = Clocks(since: PollId, configGen: nat)

  datatype Reply = Update(id: PollId) | Config(generation: nat) | NoUpdate

  predicate PollIsNewer(now: Published, clocks: Clocks) {
    now.poll.Some? && now.poll.value > clocks.since
  }

  predicate ConfigIsNewer(now: Published, clocks: Clocks) {
    now.generation > clocks.configGen
  }

  /** One look at both channels, the poll first. */
  function Look(now: Published, clocks: Clocks): Option<Reply> {
    if PollIsNewer(now, clocks) then Some(Update(now.poll.value))
    else if ConfigIsNewer(now, clocks) then Some(Config(now.generation))
    else None
  }

  function Advanced(clocks: Clocks, reply: Reply): Clocks {
    match reply
    case Update(id) => clocks.(since := Max(clocks.since, id))
    case Config(generation) => clocks.(configGen := Max(clocks.configGen, generation))
    case NoUpdate => clocks
  }

  /** Nothing published is newer than what the client has. */
  predicate Level(now: Published, clocks: Clocks) {
    !PollIsNewer(now, clocks) && !ConfigIsNewer(now, clocks)
  }

  // ----- the two loops

  /** The reply is the news in view `k`, and no view before it had any. */
  ghost predicate IsFirstNews(views: seq<Published>, k: nat, clocks: Clocks, reply: Reply) {
    && k < |views|
    && (forall j: nat | j < k :: Level(views[j], clocks))
    && (if PollIsNewer(views[k], clocks) then reply == Update(views[k].poll.value)
        else ConfigIsNewer(views[k], clocks) && reply == Config(views[k].generation))
  }

  /** The daemon's half: `views` is what the channels held when the request
      came and at each waking after it, until the deadline. */
  method AwaitUpdate(clocks: Clocks, views: seq<Published>) returns (reply: Reply)
    ensures reply.NoUpdate? <==> forall view <- views :: Level(view, clocks)
    ensures !reply.NoUpdate? ==> exists k: nat :: IsFirstNews(views, k, clocks, reply)
  {
    var n := 0;
    while n < |views|
      invariant n <= |views|
      invariant forall j: nat | j < n :: Level(views[j], clocks)
    {
      var newer := Look(views[n], clocks);
      if newer.Some? {
        reply := newer.value;
        assert views[n] in views && IsFirstNews(views, n, clocks, reply);
        return;
      }
      n := n + 1;
    }
    reply := NoUpdate;
  }

  /** The clocks after taking these replies in turn. */
  function AdvancedBy(clocks: Clocks, replies: seq<Reply>): Clocks {
    if replies == [] then clocks
    else Advanced(AdvancedBy(clocks, replies[..|replies| - 1]), replies[|replies| - 1])
  }

  function News(replies: seq<Reply>): seq<Reply> {
    Filter(replies, (reply: Reply) => !reply.NoUpdate?)
  }

  /** The client's half: its clocks, and what it passed on. */
  class Subscriber {
    var clocks: Clocks
    var forwarded: seq<Reply>

    constructor (clocks: Clocks)
      ensures this.clocks == clocks && forwarded == []
    {
      this.clocks := clocks;
      forwarded := [];
    }

    /** One reply: a clock never runs back, and news is passed on. */
    method Take(reply: Reply)
      modifies this
      ensures clocks == Advanced(old(clocks), reply)
      ensures forwarded == old(forwarded) + (if reply.NoUpdate? then [] else [reply])
      ensures clocks.since >= old(clocks.since) && clocks.configGen >= old(clocks.configGen)
    {
      match reply {
        case Update(id) =>
          clocks := clocks.(since := Max(clocks.since, id));
          forwarded := forwarded + [reply];
        case Config(generation) =>
          clocks := clocks.(configGen := Max(clocks.configGen, generation));
          forwarded := forwarded + [reply];
        case NoUpdate =>
      }
    }

    method UpdateLoop(replies: seq<Reply>)
      modifies this
      ensures clocks == AdvancedBy(old(clocks), replies)
      ensures forwarded == old(forwarded) + News(replies)
    {
      var n := 0;
      while n < |replies|
        invariant n <= |replies|
        invariant clocks == AdvancedBy(old(clocks), replies[..n])
        invariant forwarded == old(forwarded) + News(replies[..n])
      {
        assert replies[..n + 1][..n] == replies[..n];
        assert replies[..n + 1] == replies[..n] + [replies[n]];
        FilterAppend(replies[..n], [replies[n]], (reply: Reply) => !reply.NoUpdate?);
        Take(replies[n]);
        n := n + 1;
      }
      assert replies[..n] == replies;
    }
  }

  // ----- both halves with the wire between them

  datatype Line =
    | Idle                       // the client is about to ask
    | Asked(clocks: Clocks)      // a request on its way
    | Waiting(clocks: Clocks, seen: Published) // looked, found nothing newer
    | Answered(reply: Reply)     // a reply on its way

  datatype World = World(now: Published, clocks: Clocks, line: Line)

  datatype Step =
    | PublishPoll(id: PollId)
    | PublishConfig
    | Ask
    | Arrive  // the request is served up to its first wait
    | Wake    // a channel changed since the handler's last look
    | Expire  // the deadline, or the daemon going away
    | Receive

  predicate IsPublication(step: Step) {
    step.PublishPoll? || step.PublishConfig?
  }

  predicate CanStep(w: World, step: Step) {
    match step
    case PublishPoll(id) => w.now.poll.Some? ==> id > w.now.poll.value
    case PublishConfig => true
    case Ask => w.line.Idle?
    case Arrive => w.line.Asked?
    case Wake => w.line.Waiting? && w.line.seen != w.now
    case Expire => w.line.Waiting?
    case Receive => w.line.Answered?
  }

  function Served(now: Published, clocks: Clocks): Line {
    match Look(now, clocks)
    case Some(reply) => Answered(reply)
    case None => Waiting(clocks, now)
  }

  function After(w: World, step: Step): World
    requires CanStep(w, step)
  {
    match step
    case PublishPoll(id) => w.(now := w.now.(poll := Some(id)))
    case PublishConfig => w.(now := w.now.(generation := w.now.generation + 1))
    case Ask => w.(line := Asked(w.clocks))
    case Arrive => w.(line := Served(w.now, w.line.clocks))
    case Wake => w.(line := Served(w.now, w.line.clocks))
    case Expire => w.(line := Answered(NoUpdate))
    case Receive => w.(clocks := Advanced(w.clocks, w.line.reply), line := Idle)
  }

  /** A reply to somebody with these clocks carries something newer for them
      that was published. */
  predicate IsNews(reply: Reply, now: Published, clocks: Clocks) {
    match reply
    case Update(id) => id > clocks.since && now.poll.Some? && id <= now.poll.value
    case Config(generation) => clocks.configGen < generation <= now.generation
    case NoUpdate => true
  }

  /** The request carries the client's own clocks, a waiting handler's last look
      found nothing newer, and a reply under way is still news. */
  predicate Good(w: World) {
    match w.line
    case Idle => true
    case Asked(clocks) => clocks == w.clocks
    case Waiting(clocks, seen) => clocks == w.clocks && Level(seen, clocks)
    case Answered(reply) => IsNews(reply, w.now, w.clocks)
  }

  datatype Run = Run(worlds: seq<World>, steps: seq<Step>)

  predicate Steps(w: World, step: Step, w': World) {
    CanStep(w, step) && w' == After(w, step)
  }

  /** Any run from a client about to ask, with whatever clocks it was given and
      whatever the daemon had published by then. */
  ghost predicate IsRun(run: Run) {
    && |run.worlds| == |run.steps| + 1
    && run.worlds[0].line.Idle?
    && forall i :: 0 <= i < |run.steps| ==> Steps(run.worlds[i], run.steps[i], run.worlds[i + 1])
  }

  lemma {:induction false} RunsAreGood(run: Run, i: nat)
    requires IsRun(run) && i < |run.worlds|
    ensures Good(run.worlds[i])
  {
    if i > 0 {
      RunsAreGood(run, i - 1);
      assert Steps(run.worlds[i - 1], run.steps[i - 1], run.worlds[i]);
    }
  }

  /** The reply the client takes at move `i`, if it takes one. */
  function Taken(run: Run, i: nat): Option<Reply>
    requires i < |run.steps| && i < |run.worlds|
  {
    if run.steps[i].Receive? && run.worlds[i].line.Answered? then Some(run.worlds[i].line.reply) else None
  }

  lemma {:induction false} ClocksClimb(run: Run, i: nat, j: nat)
    requires IsRun(run) && i <= j < |run.worlds|
    ensures run.worlds[i].clocks.since <= run.worlds[j].clocks.since
    ensures run.worlds[i].clocks.configGen <= run.worlds[j].clocks.configGen
    ensures run.worlds[i].now.poll.Some? ==>
      run.worlds[j].now.poll.Some? && run.worlds[i].now.poll.value <= run.worlds[j].now.poll.value
    ensures run.worlds[i].now.generation <= run.worlds[j].now.generation
  {
    if i < j {
      ClocksClimb(run, i, j - 1);
      assert Steps(run.worlds[j - 1], run.steps[j - 1], run.worlds[j]);
    }
  }

  /** Delivered poll ids strictly increase, delivered generations strictly
      increase, both from above where the client began, and each had been
      published. */
  lemma DeliveriesClimb(run: Run, i: nat, j: nat)
    requires IsRun(run) && i < j < |run.steps|
    ensures var (first, second) := (Taken(run, i), Taken(run, j));
      first.Some? && second.Some? ==>
        && (first.value.Update? && second.value.Update? ==>
              run.worlds[0].clocks.since < first.value.id < second.value.id)
        && (first.value.Config? && second.value.Config? ==>
              run.worlds[0].clocks.configGen < first.value.generation < second.value.generation)
        && IsNews(second.value, run.worlds[j].now, run.worlds[j].clocks)
  {
    RunsAreGood(run, i);
    RunsAreGood(run, j);
    ClocksClimb(run, 0, i);
    ClocksClimb(run, i + 1, j);
    assert Steps(run.worlds[i], run.steps[i], run.worlds[i + 1]);
  }

  /** What is newer than the client's clocks stays on offer, itself or a later
      one, until the client has it or a later one. */
  lemma NewsIsNotLost(run: Run, i: nat, j: nat)
    requires IsRun(run) && i <= j < |run.worlds|
    requires PollIsNewer(run.worlds[i].now, run.worlds[i].clocks)
    ensures var (item, w) := (run.worlds[i].now.poll.value, run.worlds[j]);
      w.clocks.since >= item || (PollIsNewer(w.now, w.clocks) && w.now.poll.value >= item)
  {
    ClocksClimb(run, i, j);
  }

  lemma ConfigIsNotLost(run: Run, i: nat, j: nat)
    requires IsRun(run) && i <= j < |run.worlds|
    requires ConfigIsNewer(run.worlds[i].now, run.worlds[i].clocks)
    ensures var (item, w) := (run.worlds[i].now.generation, run.worlds[j]);
      w.clocks.configGen >= item || (ConfigIsNewer(w.now, w.clocks) && w.now.generation >= item)
  {
    ClocksClimb(run, i, j);
  }

  /** While anything is newer than the client's clocks no handler sleeps on it:
      the one waiting can wake at once. */
  lemma NoWakingIsMissed(run: Run, i: nat)
    requires IsRun(run) && i < |run.worlds|
    requires !Level(run.worlds[i].now, run.worlds[i].clocks)
    ensures run.worlds[i].line.Waiting? ==> CanStep(run.worlds[i], Wake)
  {
    RunsAreGood(run, i);
  }

  predicate IsLook(step: Step) {
    step.Arrive? || step.Wake?
  }

  /** Every look at the channels, the first or a later one, answers exactly when
      the client is behind, with the newest poll if it is behind on polls and
      with the newest generation if only on config. */
  lemma LooksAnswerWithTheNewest(run: Run, i: nat)
    requires IsRun(run) && i < |run.steps| && IsLook(run.steps[i])
    ensures var (w, line) := (run.worlds[i], run.worlds[i + 1].line);
      && (line.Answered? <==> !Level(w.now, w.clocks))
      && (PollIsNewer(w.now, w.clocks) ==> line == Answered(Update(w.now.poll.value)))
      && (!PollIsNewer(w.now, w.clocks) && ConfigIsNewer(w.now, w.clocks) ==>
            line == Answered(Config(w.now.generation)))
  {
    RunsAreGood(run, i);
    assert Steps(run.worlds[i], run.steps[i], run.worlds[i + 1]);
  }

  // ----- once publishing stops

  /** From `i` to `j` nothing is published. */
  ghost predicate Quiet(run: Run, i: nat, j: nat)
    requires i <= j <= |run.steps|
  {
    forall k :: i <= k < j ==> !IsPublication(run.steps[k])
  }

  /** The clocks the client will have once a reply under way has arrived. */
  function Due(w: World): Clocks {
    if w.line.Answered? then Advanced(w.clocks, w.line.reply) else w.clocks
  }

  /** On how many clocks the client will then still be behind. */
  function Behind(w: World): (n: nat)
    ensures n <= 2
    ensures n == 0 <==> Level(w.now, Due(w))
  {
    (if PollIsNewer(w.now, Due(w)) then 1 else 0) + (if ConfigIsNewer(w.now, Due(w)) then 1 else 0)
  }

  /** The line carries a reply with news in it. */
  predicate Carries(w: World) {
    w.line.Answered? && !w.line.reply.NoUpdate?
  }

  /** How many non-empty replies the daemon sends from `i` to `j`. */
  function Sent(run: Run, i: nat, j: nat): nat
    requires i <= j <= |run.steps| && |run.worlds| == |run.steps| + 1
    decreases j
  {
    if i == j then 0
    else Sent(run, i, j - 1) + (if IsLook(run.steps[j - 1]) && Carries(run.worlds[j]) then 1 else 0)
  }

  /** How many the client takes. */
  function Received(run: Run, i: nat, j: nat): nat
    requires i <= j <= |run.steps| && |run.worlds| == |run.steps| + 1
    decreases j
  {
    if i == j then 0
    else Received(run, i, j - 1) + (if run.steps[j - 1].Receive? && Carries(run.worlds[j - 1]) then 1 else 0)
  }

  /** How many requests reach the daemon. */
  function Requests(run: Run, i: nat, j: nat): nat
    requires i <= j <= |run.steps|
    decreases j
  {
    if i == j then 0 else Requests(run, i, j - 1) + (if run.steps[j - 1].Arrive? then 1 else 0)
  }

  lemma QuietStep(w: World, step: Step, w': World)
    requires Good(w) && Steps(w, step, w') && !IsPublication(step)
    ensures Behind(w) == Behind(w') + (if IsLook(step) && Carries(w') then 1 else 0)
    ensures (if Carries(w) then 1 else 0) + (if IsLook(step) && Carries(w') then 1 else 0)
         == (if Carries(w') then 1 else 0) + (if step.Receive? && Carries(w) then 1 else 0)
    ensures IsLook(step) && Behind(w) > 0 ==> Carries(w')
  {
  }

  /** With nothing published, every non-empty reply sent is one clock fewer to
      catch up on, and what is sent is what arrives, but for replies under way
      at either end. */
  lemma {:induction false} RepliesCloseTheGap(run: Run, i: nat, j: nat)
    requires IsRun(run) && i <= j <= |run.steps| && Quiet(run, i, j)
    ensures Behind(run.worlds[i]) == Behind(run.worlds[j]) + Sent(run, i, j)
    ensures (if Carries(run.worlds[i]) then 1 else 0) + Sent(run, i, j)
         == (if Carries(run.worlds[j]) then 1 else 0) + Received(run, i, j)
    ensures Requests(run, i, j) <= Sent(run, i, j) || Behind(run.worlds[j]) == 0
    decreases j
  {
    if i < j {
      RepliesCloseTheGap(run, i, j - 1);
      RunsAreGood(run, j - 1);
      assert Steps(run.worlds[j - 1], run.steps[j - 1], run.worlds[j]);
      QuietStep(run.worlds[j - 1], run.steps[j - 1], run.worlds[j]);
    }
  }

  /** Once publishing stops the daemon sends at most two more non-empty replies,
      the client takes at most those and one that was already under way, and
      after two requests have been served it has, or is being sent, everything. */
  lemma TwoRepliesBringItLevel(run: Run, i: nat, j: nat)
    requires IsRun(run) && i <= j <= |run.steps| && Quiet(run, i, j)
    ensures Sent(run, i, j) <= 2
    ensures Received(run, i, j) <= (if Carries(run.worlds[i]) then 3 else 2)
    ensures Requests(run, i, j) >= 2 ==> Level(run.worlds[j].now, Due(run.worlds[j]))
    ensures Requests(run, i, j) >= 2 && (run.worlds[j].line.Idle? || run.worlds[j].line.Asked?) ==>
      Level(run.worlds[j].now, run.worlds[j].clocks)
    ensures Requests(run, i, j) >= 3 ==> Level(run.worlds[j].now, run.worlds[j].clocks)
  {
    RepliesCloseTheGap(run, i, j);
    if Requests(run, i, j) == 2 && Sent(run, i, j) == 2 {
      assert Behind(run.worlds[j]) == 0;
    }
    if Requests(run, i, j) >= 3 {
      ThirdRequestFindsItLevel(run, i, j);
    }
  }

  lemma {:induction false} ThirdRequestFindsItLevel(run: Run, i: nat, j: nat)
    requires IsRun(run) && i <= j <= |run.steps| && Quiet(run, i, j) && Requests(run, i, j) >= 3
    ensures Level(run.worlds[j].now, run.worlds[j].clocks)
    decreases j
  {
    assert Steps(run.worlds[j - 1], run.steps[j - 1], run.worlds[j]);
    if Requests(run, i, j - 1) >= 3 {
      ThirdRequestFindsItLevel(run, i, j - 1);
      RepliesCloseTheGap(run, i, j - 1);
    } else {
      RepliesCloseTheGap(run, i, j - 1);
      RunsAreGood(run, j - 1);
    }
  }

  /** A reply under way, overtaken, when publishing stops. */
  function Overtaken(): Run {
    var first := World(Published(Some(1), 0), Clocks(0, 0), Idle);
    var stopped := World(Published(Some(2), 1), Clocks(0, 0), Answered(Update(1)));
    var stale := stopped.(clocks := Clocks(1, 0));
    var half := stopped.(clocks := Clocks(2, 0));
    Run([first, first.(line := Asked(first.clocks)), first.(line := Answered(Update(1))),
         stopped.(now := Published(Some(2), 0)), stopped,
         stale.(line := Idle), stale.(line := Asked(stale.clocks)), stale.(line := Answered(Update(2))),
         half.(line := Idle), half.(line := Asked(half.clocks)), half.(line := Answered(Config(1))),
         half.(clocks := Clocks(2, 1), line := Idle)],
        [Ask, Arrive, PublishPoll(2), PublishConfig, Receive, Ask, Arrive, Receive, Ask, Arrive, Receive])
  }

  lemma OvertakenIsRun()
    ensures IsRun(Overtaken()) && Quiet(Overtaken(), 4, 11)
  {
    var run := Overtaken();
    forall k | 0 <= k < 11 ensures Steps(run.worlds[k], run.steps[k], run.worlds[k + 1]) {}
  }

  lemma OvertakenCounts()
    ensures var run := Overtaken(); Received(run, 4, 11) == 3 && Sent(run, 4, 11) == 2
  {
    var run := Overtaken();
    assert Received(run, 4, 6) == 1 && Sent(run, 4, 6) == 0;
    assert Received(run, 4, 8) == 2 && Sent(run, 4, 8) == 1;
    assert Received(run, 4, 10) == 2 && Sent(run, 4, 10) == 2;
  }

  /** Three can arrive: one under way when publishing stops, already overtaken,
      then the newer poll and the newer config. */
  lemma ThreeCanArrive()
    ensures exists run: Run, i: nat, j: nat :: TakesThree(run, i, j)
  {
    OvertakenIsRun();
    OvertakenCounts();
    assert TakesThree(Overtaken(), 4, 11);
  }

  ghost predicate TakesThree(run: Run, i: nat, j: nat) {
    && IsRun(run) && i <= j <= |run.steps|
    && Quiet(run, i, j) && Received(run, i, j) == 3 && Sent(run, i, j) == 2
  }
}
