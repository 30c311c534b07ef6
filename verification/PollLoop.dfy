/** The poll task's loop, one iteration at a time, against any schedule and any
    outcome of what it awaits. */
module PollLoop {
  import opened Time
  import opened Collections
  import opened Domain
  import opened Scheduler

  /** What the poller carries from one iteration to the next. */
  datatype Task = Task(pollImmediately: bool, gate: GateState)

  const STARTED := Task(true, OPEN)

  /** How an iteration's await ended. */
  datatype Wake =
    | Changed
    | Ran(polled: Polled)
    | RecheckFailed
    | RecheckOk
    | Asked(client: ClientKind, byHand: Polled)

  /** The branches a step's `select` has. */
  predicate Offers(step: Step, wake: Wake) {
    match step
    case Park => wake.Changed?
    case PollNow => wake.Ran?
    case Recheck(_) => !wake.Ran?
    case Wait(_) => wake.Ran? || wake.Asked? || wake.Changed?
  }

  /** What an iteration does that can be seen. */
  datatype Event = PollRan(trigger: PollTrigger) | Edge(transition: Transition) | ParkEntered

  function EdgeEvents(edges: seq<Transition>): seq<Event> {
    seq(|edges|, i requires 0 <= i < |edges| => Edge(edges[i]))
  }

  function PollEvents(task: Task, trigger: PollTrigger, polled: Polled): seq<Event> {
    [PollRan(trigger)] + EdgeEvents(Edges(task.gate, polled))
  }

  /** One iteration that read `schedule` and was woken by `wake`. */
  function Iterate(task: Task, schedule: Schedule, wake: Wake): (Task, seq<Event>) {
    match NextStep(task.gate, schedule, task.pollImmediately)
    case Park => (Task(true, OPEN), [ParkEntered])
    case PollNow =>
      if wake.Ran? then (Task(false, GateAfter(task.gate, wake.polled)), PollEvents(task, Startup, wake.polled))
      else (task.(pollImmediately := false), [])
    case Recheck(_) =>
      (match wake
       case RecheckOk =>
         (Task(true, task.gate.(credentialStale := false)), if task.gate.credentialStale then [Edge(Resumed)] else [])
       case Asked(client, polled) =>
         (task.(gate := GateAfter(task.gate, polled)), PollEvents(task, Manual(client), polled))
       case _ => (task, []))
    case Wait(_) =>
      match wake
      case Ran(polled) =>
        (task.(gate := GateAfter(task.gate, polled)), PollEvents(task, PollTrigger.Scheduled, polled))
      case Asked(client, polled) =>
        (task.(gate := GateAfter(task.gate, polled)), PollEvents(task, Manual(client), polled))
      case _ => (task, [])
  }

  /** The poller as it mutates. */
  class Poller {
    var pollImmediately: bool
    const gate: Gate

    ghost function View(): Task
      reads this, gate
    {
      Task(pollImmediately, gate.View())
    }

    constructor ()
      ensures View() == STARTED && fresh(gate)
    {
      pollImmediately := true;
      gate := new Gate();
    }

    method RecordPoll(trigger: PollTrigger, polled: Polled) returns (events: seq<Event>)
      modifies gate
      ensures gate.View() == GateAfter(old(gate.View()), polled)
      ensures events == PollEvents(old(View()), trigger, polled)
    {
      var credential, throttled := gate.Record(polled);
      events := [PollRan(trigger)];
      if credential.Some? {
        events := events + [Edge(credential.value)];
      }
      if throttled.Some? {
        events := events + [Edge(throttled.value)];
      }
    }

    method RunIteration(schedule: Schedule, wake: Wake) returns (step: Step, events: seq<Event>)
      requires Offers(NextStep(gate.View(), schedule, pollImmediately), wake)
      modifies this, gate
      ensures step == NextStep(old(gate.View()), schedule, old(pollImmediately))
      ensures (View(), events) == Iterate(old(View()), schedule, wake)
    {
      step := NextStep(GateState(gate.throttle, gate.credentialStale), schedule, pollImmediately);
      events := [];
      match step {
        case Park =>
          pollImmediately := true;
          gate.Park();
          events := [ParkEntered];
        case PollNow =>
          pollImmediately := false;
          events := RecordPoll(Startup, wake.polled);
        case Recheck(_) =>
          match wake {
            case RecheckOk =>
              var edge := gate.CredentialOk();
              if edge.Some? {
                events := [Edge(edge.value)];
              }
              pollImmediately := true;
            case Asked(client, polled) =>
              events := RecordPoll(Manual(client), polled);
            case _ =>
          }
        case Wait(_) =>
          match wake {
            case Ran(polled) =>
              events := RecordPoll(PollTrigger.Scheduled, polled);
            case Asked(client, polled) =>
              events := RecordPoll(Manual(client), polled);
            case _ =>
          }
      }
    }
  }

  // ----- whole runs

  datatype Iteration = Iteration(schedule: Schedule, wake: Wake)

  function TaskAfter(run: seq<Iteration>): Task {
    if run == [] then STARTED
    else
      var last := run[|run| - 1];
      Iterate(TaskAfter(run[..|run| - 1]), last.schedule, last.wake).0
  }

  function TraceOf(run: seq<Iteration>): seq<Event> {
    if run == [] then []
    else
      var last := run[|run| - 1];
      TraceOf(run[..|run| - 1]) + Iterate(TaskAfter(run[..|run| - 1]), last.schedule, last.wake).1
  }

  ghost predicate ValidRun(run: seq<Iteration>) {
    run != [] ==>
      var (front, last) := (run[..|run| - 1], run[|run| - 1]);
      var task := TaskAfter(front);
      ValidRun(front) && Offers(NextStep(task.gate, last.schedule, task.pollImmediately), last.wake)
  }

  /** Whether a trace ends inside a pause: one began and neither a resumption
      nor a park has ended it. */
  predicate InPause(trace: seq<Event>) {
    if trace == [] then false
    else
      match trace[|trace| - 1]
      case Edge(Paused) => true
      case Edge(Resumed) => false
      case ParkEntered => false
      case _ => InPause(trace[..|trace| - 1])
  }

  /** Pauses begin only outside one and resume only inside one, and between the
      two every poll is one the user asked for. */
  ghost predicate Disciplined(trace: seq<Event>) {
    trace != [] ==>
      var (before, last) := (trace[..|trace| - 1], trace[|trace| - 1]);
      Disciplined(before) &&
      match last
      case Edge(Paused) => !InPause(before)
      case Edge(Resumed) => InPause(before)
      case PollRan(trigger) => trigger.Manual? || !InPause(before)
      case _ => true
  }

  lemma OneMore(trace: seq<Event>, e: Event)
    ensures InPause(trace + [e]) ==
      match e
      case Edge(Paused) => true
      case Edge(Resumed) => false
      case ParkEntered => false
      case _ => InPause(trace)
    ensures Disciplined(trace + [e]) <==> (Disciplined(trace) &&
      match e
      case Edge(Paused) => !InPause(trace)
      case Edge(Resumed) => InPause(trace)
      case PollRan(trigger) => trigger.Manual? || !InPause(trace)
      case _ => true)
  {
    assert (trace + [e])[..|trace|] == trace;
  }

  /** What one poll adds to a trace. */
  lemma PollKeepsDiscipline(trace: seq<Event>, task: Task, trigger: PollTrigger, polled: Polled)
    requires Disciplined(trace) && InPause(trace) == task.gate.credentialStale
    requires trigger.Manual? || !task.gate.credentialStale
    ensures var after := trace + PollEvents(task, trigger, polled);
      Disciplined(after) && InPause(after) == GateAfter(task.gate, polled).credentialStale
  {
    var edges := Edges(task.gate, polled);
    var polledTrace := trace + [PollRan(trigger)];
    EventsInTurn(trace, trigger, edges);
    OneMore(trace, PollRan(trigger));
    if |edges| > 0 {
      OneMore(polledTrace, Edge(edges[0]));
      if |edges| > 1 {
        OneMore(polledTrace + [Edge(edges[0])], Edge(edges[1]));
      }
    }
  }

  lemma EventsInTurn(trace: seq<Event>, trigger: PollTrigger, edges: seq<Transition>)
    requires |edges| <= 2
    ensures trace + ([PollRan(trigger)] + EdgeEvents(edges))
         == if |edges| == 0 then trace + [PollRan(trigger)]
            else if |edges| == 1 then trace + [PollRan(trigger)] + [Edge(edges[0])]
            else trace + [PollRan(trigger)] + [Edge(edges[0])] + [Edge(edges[1])]
  {
  }

  /** The trace an iteration leaves is disciplined, in a pause exactly while the
      credential is stale, and no immediate poll is due in one. */
  ghost predicate Kept(trace: seq<Event>, after: Task, events: seq<Event>) {
    && Disciplined(trace + events) && InPause(trace + events) == after.gate.credentialStale
    && (after.pollImmediately ==> !after.gate.credentialStale)
  }

  lemma KeptByNothing(trace: seq<Event>, task: Task)
    requires Kept(trace, task, [])
    ensures Disciplined(trace) && InPause(trace) == task.gate.credentialStale
  {
    assert trace + [] == trace;
  }

  lemma KeptByParking(trace: seq<Event>)
    requires Disciplined(trace)
    ensures Kept(trace, Task(true, OPEN), [ParkEntered])
  {
    OneMore(trace, ParkEntered);
  }

  lemma KeptByRecheck(trace: seq<Event>, task: Task)
    requires Kept(trace, task, [])
    ensures Kept(trace, Task(true, task.gate.(credentialStale := false)),
                 if task.gate.credentialStale then [Edge(Resumed)] else [])
  {
    KeptByNothing(trace, task);
    OneMore(trace, Edge(Resumed));
  }

  lemma KeptByPoll(trace: seq<Event>, task: Task, trigger: PollTrigger, polled: Polled)
    requires Kept(trace, task, []) && (trigger.Manual? || !task.gate.credentialStale)
    ensures Kept(trace, Task(false, GateAfter(task.gate, polled)), PollEvents(task, trigger, polled))
  {
    KeptByNothing(trace, task);
    PollKeepsDiscipline(trace, task, trigger, polled);
  }

  /** What one iteration keeps. */
  lemma IterationKeepsDiscipline(trace: seq<Event>, task: Task, schedule: Schedule, wake: Wake)
    requires Offers(NextStep(task.gate, schedule, task.pollImmediately), wake)
    requires Kept(trace, task, [])
    ensures var (after, events) := Iterate(task, schedule, wake);
      Kept(trace, after, events) && (!schedule.enabled ==> forall e <- events :: !e.PollRan?)
  {
    KeptByNothing(trace, task);
    match NextStep(task.gate, schedule, task.pollImmediately)
    case Park => KeptByParking(trace);
    case PollNow => KeptByPoll(trace, task, Startup, wake.polled);
    case Recheck(_) =>
      if wake.RecheckOk? {
        KeptByRecheck(trace, task);
      } else if wake.Asked? {
        KeptByPoll(trace, task, Manual(wake.client), wake.byHand);
      }
    case Wait(_) =>
      if wake.Ran? {
        KeptByPoll(trace, task, PollTrigger.Scheduled, wake.polled);
      } else if wake.Asked? {
        KeptByPoll(trace, task, Manual(wake.client), wake.byHand);
      }
  }

  /** Pause discipline: over every run of the loop, an immediate poll is never
      due while the credential is stale, the trace is disciplined, and it is
      inside a pause exactly while the credential is stale. */
  lemma {:induction false} PauseDiscipline(run: seq<Iteration>)
    requires ValidRun(run)
    ensures var task := TaskAfter(run);
      && (task.pollImmediately ==> !task.gate.credentialStale)
      && Disciplined(TraceOf(run)) && InPause(TraceOf(run)) == task.gate.credentialStale
  {
    assert TraceOf(run) + [] == TraceOf(run);
    if run != [] {
      var front, last := run[..|run| - 1], run[|run| - 1];
      PauseDiscipline(front);
      assert TraceOf(front) + [] == TraceOf(front);
      IterationKeepsDiscipline(TraceOf(front), TaskAfter(front), last.schedule, last.wake);
    }
  }

  /** An iteration that read a disabled schedule starts no poll, and leaves the
      poller due to poll the moment it is enabled again, owing nobody a wait. */
  lemma DisabledStartsNothing(task: Task, schedule: Schedule, wake: Wake)
    requires !schedule.enabled && Offers(NextStep(task.gate, schedule, task.pollImmediately), wake)
    ensures var (after, events) := Iterate(task, schedule, wake);
      && (forall e <- events :: !e.PollRan?)
      && forall next: Schedule :: next.enabled ==> NextStep(after.gate, next, after.pollImmediately) == PollNow
  {
  }

  /** What one iteration does to the gate. */
  function GateEventsOf(task: Task, schedule: Schedule, wake: Wake): seq<GateEvent> {
    match NextStep(task.gate, schedule, task.pollImmediately)
    case Park => [Parked]
    case _ =>
      match wake
      case Ran(polled) => [Poll(polled)]
      case Asked(_, polled) => [Poll(polled)]
      case RecheckOk => [Recovered]
      case _ => []
  }

  function GateHistory(run: seq<Iteration>): seq<GateEvent> {
    if run == [] then []
    else
      var (front, last) := (run[..|run| - 1], run[|run| - 1]);
      GateHistory(front) + GateEventsOf(TaskAfter(front), last.schedule, last.wake)
  }

  lemma IterationOnGate(history: seq<GateEvent>, task: Task, schedule: Schedule, wake: Wake)
    requires task.gate == GateOver(history)
    requires Offers(NextStep(task.gate, schedule, task.pollImmediately), wake)
    ensures Iterate(task, schedule, wake).0.gate == GateOver(history + GateEventsOf(task, schedule, wake))
  {
    var more := GateEventsOf(task, schedule, wake);
    if more == [] {
      assert history + more == history;
    } else {
      assert (history + more)[..|history|] == history;
    }
  }

  lemma {:induction false} GateIsItsHistory(run: seq<Iteration>)
    requires ValidRun(run)
    ensures TaskAfter(run).gate == GateOver(GateHistory(run))
  {
    if run != [] {
      var front, last := run[..|run| - 1], run[|run| - 1];
      GateIsItsHistory(front);
      IterationOnGate(GateHistory(front), TaskAfter(front), last.schedule, last.wake);
    }
  }

  /** So over every run of the loop the throttle is what the polls that reached
      the provider since the last park make it, however they were started. */
  lemma LoopThrottle(run: seq<Iteration>)
    requires ValidRun(run)
    ensures TaskAfter(run).gate.throttle == ThrottleOf(ReachedSincePark(GateHistory(run)))
  {
    GateIsItsHistory(run);
    ThrottleForgets(GateHistory(run));
  }

  // ----- what the loop does next

  /** What the gate last saw decides the step: nothing yet, a park or a recovery
      calls for a poll, a credential that failed for another look at it, and a poll
      that reached the provider for a wait. */
  function StepAfter(history: seq<GateEvent>, schedule: Schedule): Step {
    if !schedule.enabled then Park
    else if history == [] then PollNow
    else
      match history[|history| - 1]
      case Parked => PollNow
      case Recovered => PollNow
      case Poll(polled) =>
        if polled.stage == Credential then Recheck(Min(schedule.interval, 30 * 1_000_000_000))
        else Wait(BackedOff(ReachedSincePark(history), schedule.interval))
  }

  /** A poll is due at once if the gate has seen nothing since the start, or a park
      or a recovery last; the credential is stale if a poll last failed on it. */
  ghost predicate DecidedBy(task: Task, history: seq<GateEvent>) {
    && (task.pollImmediately <==> history == [] || !history[|history| - 1].Poll?)
    && (task.gate.credentialStale <==>
          history != [] && history[|history| - 1].Poll? && history[|history| - 1].polled.stage == Credential)
  }

  lemma IterationDecides(history: seq<GateEvent>, task: Task, schedule: Schedule, wake: Wake)
    requires DecidedBy(task, history)
    requires Offers(NextStep(task.gate, schedule, task.pollImmediately), wake)
    ensures DecidedBy(Iterate(task, schedule, wake).0, history + GateEventsOf(task, schedule, wake))
  {
    var more := GateEventsOf(task, schedule, wake);
    if more == [] {
      assert history + more == history;
    } else {
      assert (history + more)[|history + more| - 1] == more[0];
    }
  }

  lemma {:induction false} HistoryDecides(run: seq<Iteration>)
    requires ValidRun(run)
    ensures DecidedBy(TaskAfter(run), GateHistory(run))
  {
    if run != [] {
      var front, last := run[..|run| - 1], run[|run| - 1];
      HistoryDecides(front);
      IterationDecides(GateHistory(front), TaskAfter(front), last.schedule, last.wake);
    }
  }

  /** After every run, whatever schedule the next iteration reads, the step it takes
      is the one its polls so far call for: after `n` rate limits in a row the
      cadence doubled `n - 1` times, at most an hour unless the cadence is longer,
      and never under the last hint. */
  lemma StepIsDecided(run: seq<Iteration>, schedule: Schedule)
    requires ValidRun(run) && (schedule.enabled ==> schedule.interval >= 10 * 1_000_000_000)
    ensures var task := TaskAfter(run);
      NextStep(task.gate, schedule, task.pollImmediately) == StepAfter(GateHistory(run), schedule)
  {
    HistoryDecides(run);
    LoopThrottle(run);
    if schedule.enabled {
      DelayIsBackedOff(ReachedSincePark(GateHistory(run)), schedule.interval);
    }
  }

  /** And clients are told that wait; zero while the credential is looked at again,
      the wait to come while a poll runs, and nothing new by a parked poller. */
  lemma CadenceIsTheWait(run: seq<Iteration>, schedule: Schedule)
    requires ValidRun(run) && (schedule.enabled ==> schedule.interval >= 10 * 1_000_000_000)
    ensures var task := TaskAfter(run);
      ReportedInterval(NextStep(task.gate, schedule, task.pollImmediately), task.gate.throttle.Delay(schedule.interval))
      == match StepAfter(GateHistory(run), schedule)
         case Wait(after) => Some(after)
         case Recheck(_) => Some(0)
         case PollNow => Some(BackedOff(ReachedSincePark(GateHistory(run)), schedule.interval))
         case Park => None
  {
    StepIsDecided(run, schedule);
    LoopThrottle(run);
    if schedule.enabled {
      DelayIsBackedOff(ReachedSincePark(GateHistory(run)), schedule.interval);
    }
  }

  /** What polling sends: a scheduled wait that runs out polls as scheduled, a poll
      due at once as at startup, one asked for as its client asked it. */
  lemma TriggersExactly(run: seq<Iteration>, schedule: Schedule, wake: Wake)
    requires ValidRun(run + [Iteration(schedule, wake)])
    requires schedule.enabled && schedule.interval >= 10 * 1_000_000_000
    ensures var (step, (after, events)) :=
        (StepAfter(GateHistory(run), schedule), Iterate(TaskAfter(run), schedule, wake));
      && (wake.Ran? ==> events != [] && events[0] == PollRan(if step.PollNow? then Startup else PollTrigger.Scheduled))
      && (wake.Asked? ==> events != [] && events[0] == PollRan(Manual(wake.client)))
      && (wake.Changed? || wake.RecheckFailed? ==> events == [] && after == TaskAfter(run))
      && (step.Recheck? && wake.RecheckOk? ==> events == [Edge(Resumed)] && after.pollImmediately)
  {
    assert (run + [Iteration(schedule, wake)])[..|run|] == run;
    StepIsDecided(run, schedule);
    HistoryDecides(run);
  }

  /** A throttle begins with the first rate limit in a row, and is reported then. */
  lemma ThrottledExactly(run: seq<Iteration>, schedule: Schedule, wake: Wake)
    requires ValidRun(run + [Iteration(schedule, wake)])
    ensures Edge(Throttled) in Iterate(TaskAfter(run), schedule, wake).1 <==>
      && (wake.Ran? || wake.Asked?)
      && (var polled := if wake.Ran? then wake.polled else wake.byHand;
          polled.stage == Provider && polled.outcome.RateLimited?)
      && TrailingLimits(ReachedSincePark(GateHistory(run))) == 0
  {
    assert (run + [Iteration(schedule, wake)])[..|run|] == run;
    LoopThrottle(run);
    if wake.Ran? {
      EdgesSeen(TaskAfter(run), PollTrigger.Scheduled, wake.polled);
      EdgesSeen(TaskAfter(run), Startup, wake.polled);
    } else if wake.Asked? {
      EdgesSeen(TaskAfter(run), Manual(wake.client), wake.byHand);
    }
  }

  lemma EdgesSeen(task: Task, trigger: PollTrigger, polled: Polled)
    ensures Edge(Throttled) in PollEvents(task, trigger, polled) <==>
      GateAfter(task.gate, polled).throttle.strikes > 0 && task.gate.throttle.strikes == 0
  {
    var edges := Edges(task.gate, polled);
    if Throttled in edges {
      var i :| 0 <= i < |edges| && edges[i] == Throttled;
      assert PollEvents(task, trigger, polled)[i + 1] == Edge(Throttled);
    }
    if GateAfter(task.gate, polled).throttle.strikes > 0 && task.gate.throttle.strikes == 0 {
      assert edges[|edges| - 1] == Throttled;
    }
  }
}
