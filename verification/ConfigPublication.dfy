/** Where a setting becomes real: the schedules poll tasks run on and the
    cadences clients are told, as loads, tasks and accounts come and go. */
module ConfigPublication {
  import opened Time
  import opened Collections
  import opened Domain
  import opened Config
  import Scheduler
  import Edits = ConfigEdits
  import PL = PollLoop

  datatype ProviderSettings = ProviderSettings(enabled: bool, pollIntervalSecs: Option<nat>, effectiveSecs: nat)

  /** What clients see of the settings; rows keyed by provider. */
  datatype ConfigView = ConfigView(
    pollIntervalSecs: Option<nat>, defaultSecs: nat, minSecs: nat, rows: map<ProviderId, ProviderSettings>)

  function SecsToU32(secs: nat): nat {
    Min(secs, MAX_POLL_INTERVAL_SECS)
  }

  function SecsToU32Option(secs: Option<nat>): Option<nat> {
    if secs.Some? then Some(SecsToU32(secs.value)) else None
  }

  /** A row for every provider compiled in and every one the file names. */
  function ViewOf(config: Config, known: seq<ProviderId>): ConfigView {
    ConfigView(
      SecsToU32Option(config.pollIntervalSecs),
      SecsToU32(DEFAULT_POLL_INTERVAL_SECS), SecsToU32(MIN_POLL_INTERVAL_SECS),
      map id | id in (set k <- known) + config.providers.Keys ::
        ProviderSettings(config.ProviderEnabled(id), SecsToU32Option(config.Provider(id).pollIntervalSecs),
                         SecsToU32(config.PollIntervalSecs(id))))
  }

  datatype ConfigState = ConfigState(
    generation: nat, effective: ConfigView, warnings: seq<string>, error: Option<string>)

  function ScheduleOf(config: Config, provider: ProviderId): Scheduler.Schedule {
    Scheduler.Schedule(config.ProviderEnabled(provider), config.PollIntervalSecs(provider) * SECOND)
  }

  /** The cadence told to clients: zero while disabled. */
  function Reported(schedule: Scheduler.Schedule): nat {
    if schedule.enabled then schedule.interval else 0
  }

  /** As clients receive it, in whole seconds. */
  function IntervalSecs(interval: nat): nat {
    Min(interval / SECOND, MAX_POLL_INTERVAL_SECS)
  }

  type Key = (ProviderId, AccountId)

  function KeyOf(a: Account): Key {
    (a.provider, a.id)
  }

  /** The published half of the daemon's state; `announced` is the generation
      the long-polls watch. */
  datatype Published = Published(
    config: Config,
    configState: ConfigState,
    accounts: seq<Account>,
    schedules: map<Key, Scheduler.Schedule>,
    intervals: map<AccountId, nat>,
    announced: nat)

  function IntervalsSet(intervals: map<AccountId, nat>, accounts: seq<Account>, config: Config): map<AccountId, nat> {
    if accounts == [] then intervals
    else
      var a := accounts[|accounts| - 1];
      IntervalsSet(intervals, accounts[..|accounts| - 1], config)[a.id := Reported(ScheduleOf(config, a.provider))]
  }

  function SchedulesSent(
      schedules: map<Key, Scheduler.Schedule>, accounts: seq<Account>, config: Config): map<Key, Scheduler.Schedule>
  {
    if accounts == [] then schedules
    else
      var a := accounts[|accounts| - 1];
      var sent := SchedulesSent(schedules, accounts[..|accounts| - 1], config);
      if KeyOf(a) in sent then sent[KeyOf(a) := ScheduleOf(config, a.provider)] else sent
  }

  /** `install_config`: the one path by which settings are applied or refused. */
  function Installed(p: Published, loaded: Option<Loaded>, error: Option<string>, known: seq<ProviderId>): Published {
    var config := if loaded.Some? then loaded.value.config else p.config;
    var warnings := if loaded.Some? then loaded.value.warnings else p.configState.warnings;
    Published(
      config,
      ConfigState(p.configState.generation + 1, ViewOf(config, known), warnings, error),
      p.accounts,
      SchedulesSent(p.schedules, p.accounts, config),
      IntervalsSet(p.intervals, p.accounts, config),
      p.configState.generation + 1)
  }

  /** `start_account`, then `register_poller`. */
  function Started(p: Published, a: Account): Published {
    var initial := ScheduleOf(p.config, a.provider);
    p.(accounts := p.accounts + [a],
       schedules := p.schedules[KeyOf(a) := initial],
       intervals := p.intervals[a.id := Reported(initial)])
  }

  class SharedConfig {
    var config: Config
    var configState: ConfigState
    var accounts: seq<Account>
    var schedules: map<Key, Scheduler.Schedule>
    var pollIntervals: map<AccountId, nat>
    var announced: nat
    const known: seq<ProviderId>

    ghost function View(): Published
      reads this
    {
      Published(config, configState, accounts, schedules, pollIntervals, announced)
    }

    constructor (known: seq<ProviderId>)
      ensures View() == Initial(known) && this.known == known
    {
      this.known := known;
      config := EMPTY.config;
      configState := ConfigState(0, ViewOf(EMPTY.config, known), [], None);
      accounts, schedules, pollIntervals, announced := [], map[], map[], 0;
    }

    method InstallConfig(loaded: Option<Loaded>, error: Option<string>)
      modifies this
      ensures View() == Installed(old(View()), loaded, error, known)
    {
      var warnings := configState.warnings;
      if loaded.Some? {
        config := loaded.value.config;
        warnings := loaded.value.warnings;
      }
      for i := 0 to |accounts|
        invariant unchanged(`accounts) && unchanged(`configState) && unchanged(`announced)
        invariant config == if loaded.Some? then loaded.value.config else old(config)
        invariant pollIntervals == IntervalsSet(old(pollIntervals), accounts[..i], config)
        invariant schedules == SchedulesSent(old(schedules), accounts[..i], config)
      {
        assert accounts[..i + 1][..i] == accounts[..i];
        var a := accounts[i];
        var next := ScheduleOf(config, a.provider);
        pollIntervals := pollIntervals[a.id := Reported(next)];
        if KeyOf(a) in schedules {
          schedules := schedules[KeyOf(a) := next];
        }
      }
      assert accounts[..|accounts|] == accounts;
      var generation := configState.generation + 1;
      configState := ConfigState(generation, ViewOf(config, known), warnings, error);
      announced := generation;
    }

    method ApplyConfig(loaded: Loaded)
      modifies this
      ensures View() == Installed(old(View()), Some(loaded), None, known)
    {
      InstallConfig(Some(loaded), None);
    }

    method RejectConfig(error: string)
      modifies this
      ensures View() == Installed(old(View()), None, Some(error), known)
    {
      InstallConfig(None, Some(error));
    }

    method StartAccount(a: Account)
      modifies this
      ensures View() == Started(old(View()), a)
    {
      accounts := accounts + [a];
      var initial := ScheduleOf(config, a.provider);
      schedules := schedules[KeyOf(a) := initial];
      pollIntervals := pollIntervals[a.id := Reported(initial)];
    }

    method SetReportedInterval(account: AccountId, interval: nat)
      modifies this`pollIntervals
      ensures View() == old(View()).(intervals := old(pollIntervals)[account := interval])
    {
      pollIntervals := pollIntervals[account := interval];
    }
  }

  function Initial(known: seq<ProviderId>): Published {
    Published(EMPTY.config, ConfigState(0, ViewOf(EMPTY.config, known), [], None), [], map[], map[], 0)
  }

  // ----- the daemon between two awaits

  /** A poll task at an await point: what it carried into this iteration, and
      the schedule the iteration read; `None` until it first runs. */
  datatype Waiting = Waiting(task: PL.Task, read: Option<Scheduler.Schedule>) {

    function Step(): Option<Scheduler.Step> {
      if read.None? then None else Some(Scheduler.NextStep(task.gate, read.value, task.pollImmediately))
    }

    /** Whether the poller is paused: waiting to look at the credential again. */
    predicate Paused() {
      Step().Some? && Step().value.Recheck?
    }
  }

  datatype System = System(published: Published, tasks: map<AccountId, Waiting>)

  datatype Action =
    | Apply(loaded: Loaded)
    | Reject(error: string)
    | Start(account: Account)
    | Run(account: Account, wake: PL.Wake)

  /** Settings a loader can hand over: every interval it names is in range. */
  ghost predicate InRange(config: Config) {
    && (config.pollIntervalSecs.Some? ==>
          MIN_POLL_INTERVAL_SECS <= config.pollIntervalSecs.value <= MAX_POLL_INTERVAL_SECS)
    && forall id <- config.providers :: config.providers[id].pollIntervalSecs.Some? ==>
         MIN_POLL_INTERVAL_SECS <= config.providers[id].pollIntervalSecs.value <= MAX_POLL_INTERVAL_SECS
  }

  ghost predicate CanDo(s: System, action: Action) {
    match action
    case Apply(loaded) => InRange(loaded.config)
    case Reject(_) => true
    case Start(a) => forall b <- s.published.accounts :: b.id != a.id
    case Run(a, wake) =>
      && a in s.published.accounts && a.id in s.tasks && KeyOf(a) in s.published.schedules
      && (s.tasks[a.id].Step().Some? ==> PL.Offers(s.tasks[a.id].Step().value, wake))
  }

  /** The poller once its await has ended. */
  function Woken(t: Waiting, wake: PL.Wake): PL.Task {
    if t.read.None? then t.task else PL.Iterate(t.task, t.read.value, wake).0
  }

  /** From the end of a task's await to its next: read the schedule, publish the
      cadence of the step chosen, and wait again. */
  function TaskRuns(p: Published, a: Account, task: PL.Task): (Published, Waiting)
    requires KeyOf(a) in p.schedules
  {
    var read := p.schedules[KeyOf(a)];
    var step := Scheduler.NextStep(task.gate, read, task.pollImmediately);
    var interval := Scheduler.ReportedInterval(step, task.gate.throttle.Delay(read.interval));
    (if interval.Some? then p.(intervals := p.intervals[a.id := interval.value]) else p, Waiting(task, Some(read)))
  }

  function Act(s: System, action: Action, known: seq<ProviderId>): System
    requires action.Run? ==> action.account.id in s.tasks && KeyOf(action.account) in s.published.schedules
  {
    match action
    case Apply(loaded) => s.(published := Installed(s.published, Some(loaded), None, known))
    case Reject(error) => s.(published := Installed(s.published, None, Some(error), known))
    case Start(a) => System(Started(s.published, a), s.tasks[a.id := Waiting(PL.STARTED, None)])
    case Run(a, wake) =>
      var (p, t) := TaskRuns(s.published, a, Woken(s.tasks[a.id], wake));
      System(p, s.tasks[a.id := t])
  }

  /** What holds at every await point of the daemon. */
  ghost predicate Consistent(s: System, known: seq<ProviderId>) {
    var p := s.published;
    && InRange(p.config)
    && (forall i, j :: 0 <= i < j < |p.accounts| ==> p.accounts[i].id != p.accounts[j].id)
    && p.configState.effective == ViewOf(p.config, known)
    && p.announced == p.configState.generation
    && forall a <- p.accounts :: AccountConsistent(s, a)
  }

  /** One account: it runs on what the running config says; it tells clients
      zero while disabled, and while enabled only as long as it is paused. */
  ghost predicate AccountConsistent(s: System, a: Account) {
    var p := s.published;
    && KeyOf(a) in p.schedules && p.schedules[KeyOf(a)] == ScheduleOf(p.config, a.provider)
    && a.id in p.intervals && a.id in s.tasks
    && (!p.config.ProviderEnabled(a.provider) ==> p.intervals[a.id] == 0)
    && (p.config.ProviderEnabled(a.provider) && IntervalSecs(p.intervals[a.id]) == 0 ==> s.tasks[a.id].Paused())
  }

  lemma IntervalInRange(config: Config, provider: ProviderId)
    requires InRange(config)
    ensures MIN_POLL_INTERVAL_SECS * SECOND <= ScheduleOf(config, provider).interval
    ensures IntervalSecs(ScheduleOf(config, provider).interval) >= MIN_POLL_INTERVAL_SECS
  {
  }

  lemma DelayAtLeastBase(t: Scheduler.Throttle, base: nat)
    ensures t.Delay(base) >= base
  {
  }

  lemma {:induction false} InstalledFor(p: Published, accounts: seq<Account>, config: Config, a: Account)
    requires a in accounts && KeyOf(a) in p.schedules
    requires forall i, j :: 0 <= i < j < |accounts| ==> accounts[i].id != accounts[j].id
    ensures a.id in IntervalsSet(p.intervals, accounts, config)
    ensures IntervalsSet(p.intervals, accounts, config)[a.id] == Reported(ScheduleOf(config, a.provider))
  {
    var last := accounts[|accounts| - 1];
    if a != last {
      InstalledFor(p, accounts[..|accounts| - 1], config, a);
    }
  }

  lemma {:induction false} SentTo(
      schedules: map<Key, Scheduler.Schedule>, accounts: seq<Account>, config: Config, a: Account)
    requires a in accounts && KeyOf(a) in schedules
    ensures KeyOf(a) in SchedulesSent(schedules, accounts, config)
    ensures SchedulesSent(schedules, accounts, config)[KeyOf(a)] == ScheduleOf(config, a.provider)
  {
    var last := accounts[|accounts| - 1];
    StaysOpen(schedules, accounts[..|accounts| - 1], config, KeyOf(a));
    if KeyOf(last) != KeyOf(a) {
      SentTo(schedules, accounts[..|accounts| - 1], config, a);
    }
  }

  lemma {:induction false} StaysOpen(
      schedules: map<Key, Scheduler.Schedule>, accounts: seq<Account>, config: Config, key: Key)
    requires key in schedules
    ensures key in SchedulesSent(schedules, accounts, config)
  {
    if accounts != [] {
      StaysOpen(schedules, accounts[..|accounts| - 1], config, key);
    }
  }

  lemma InstallKeepsConsistent(s: System, loaded: Option<Loaded>, error: Option<string>, known: seq<ProviderId>)
    requires Consistent(s, known) && (loaded.Some? ==> InRange(loaded.value.config))
    ensures Consistent(s.(published := Installed(s.published, loaded, error, known)), known)
  {
    var after := s.(published := Installed(s.published, loaded, error, known));
    forall a <- s.published.accounts ensures AccountConsistent(after, a) {
      assert AccountConsistent(s, a);
      InstalledFor(s.published, s.published.accounts, after.published.config, a);
      SentTo(s.published.schedules, s.published.accounts, after.published.config, a);
      IntervalInRange(after.published.config, a.provider);
    }
  }

  lemma StartKeepsConsistent(s: System, a: Account, known: seq<ProviderId>)
    requires Consistent(s, known) && CanDo(s, Start(a))
    ensures Consistent(Act(s, Start(a), known), known)
  {
    var after := Act(s, Start(a), known);
    IntervalInRange(s.published.config, a.provider);
    forall b <- after.published.accounts ensures AccountConsistent(after, b) {
      assert b != a ==> AccountConsistent(s, b);
    }
  }

  lemma RunKeepsAccount(s: System, a: Account, wake: PL.Wake, known: seq<ProviderId>)
    requires Consistent(s, known) && CanDo(s, Run(a, wake))
    ensures AccountConsistent(Act(s, Run(a, wake), known), a)
  {
    assert AccountConsistent(s, a);
    var task := Woken(s.tasks[a.id], wake);
    var read := s.published.schedules[KeyOf(a)];
    IntervalInRange(s.published.config, a.provider);
    DelayAtLeastBase(task.gate.throttle, read.interval);
  }

  lemma RunKeepsConsistent(s: System, a: Account, wake: PL.Wake, known: seq<ProviderId>)
    requires Consistent(s, known) && CanDo(s, Run(a, wake))
    ensures Consistent(Act(s, Run(a, wake), known), known)
  {
    var after := Act(s, Run(a, wake), known);
    RunKeepsAccount(s, a, wake, known);
    forall b <- after.published.accounts ensures AccountConsistent(after, b) {
      if b != a {
        assert AccountConsistent(s, b);
      }
    }
  }

  /** The publication invariant: it holds when the daemon starts and at every
      await point after, whatever loads, refusals, discoveries and polls come. */
  lemma EveryActionKeepsConsistent(s: System, action: Action, known: seq<ProviderId>)
    requires Consistent(s, known) && CanDo(s, action)
    ensures Consistent(Act(s, action, known), known)
  {
    match action
    case Apply(loaded) => InstallKeepsConsistent(s, Some(loaded), None, known);
    case Reject(error) => InstallKeepsConsistent(s, None, Some(error), known);
    case Start(a) => StartKeepsConsistent(s, a, known);
    case Run(a, wake) => RunKeepsConsistent(s, a, wake, known);
  }

  lemma StartsConsistent(known: seq<ProviderId>)
    ensures Consistent(System(Initial(known), map[]), known)
  {
  }

  /** Every load attempt, and nothing else, moves the generation, by one; a
      refused one changes no setting, no schedule and no warning, and its error is
      shown until a load succeeds. */
  lemma GenerationsCountLoads(s: System, action: Action, known: seq<ProviderId>)
    requires Consistent(s, known) && CanDo(s, action)
    ensures var (p, q) := (s.published, Act(s, action, known).published);
      && q.announced == p.announced + (if action.Apply? || action.Reject? then 1 else 0)
      && (action.Apply? ==>
            q.config == action.loaded.config && q.configState.warnings == action.loaded.warnings
            && q.configState.error.None?)
      && (!action.Apply? ==>
            q.config == p.config && q.configState.effective == p.configState.effective
            && q.configState.warnings == p.configState.warnings)
      && (action.Reject? ==>
            q.configState.error == Some(action.error)
            && forall a <- p.accounts :: KeyOf(a) in q.schedules && q.schedules[KeyOf(a)] == p.schedules[KeyOf(a)])
  {
    if action.Reject? {
      forall a <- s.published.accounts
        ensures var q := Act(s, action, known).published;
          KeyOf(a) in q.schedules && q.schedules[KeyOf(a)] == s.published.schedules[KeyOf(a)]
      {
        assert AccountConsistent(s, a);
        SentTo(s.published.schedules, s.published.accounts, s.published.config, a);
      }
    }
  }

  /** `s` is where some run of these actions leads. */
  ghost predicate Reaches(actions: seq<Action>, s: System, known: seq<ProviderId>)
    decreases |actions|, 0
  {
    if actions == [] then s == System(Initial(known), map[])
    else LeadsOn(actions[..|actions| - 1], actions[|actions| - 1], s, known)
  }

  ghost predicate LeadsOn(front: seq<Action>, last: Action, s: System, known: seq<ProviderId>)
    decreases |front|, 2
  {
    exists before :: Leads(front, before, last, s, known)
  }

  ghost predicate Leads(front: seq<Action>, before: System, last: Action, s: System, known: seq<ProviderId>)
    decreases |front|, 1
  {
    Reaches(front, before, known) && CanDo(before, last) && s == Act(before, last, known)
  }

  function Loads(actions: seq<Action>): nat {
    if actions == [] then 0
    else
      var last := actions[|actions| - 1];
      Loads(actions[..|actions| - 1]) + if last.Apply? || last.Reject? then 1 else 0
  }

  /** So over every run; and the generation announced is the number of load
      attempts so far. */
  lemma {:induction false} AlwaysConsistent(actions: seq<Action>, s: System, known: seq<ProviderId>)
    requires Reaches(actions, s, known)
    ensures Consistent(s, known) && s.published.announced == Loads(actions)
  {
    if actions == [] {
      StartsConsistent(known);
    } else {
      var front, last := actions[..|actions| - 1], actions[|actions| - 1];
      assert LeadsOn(front, last, s, known);
      var before :| Leads(front, before, last, s, known);
      AlwaysConsistent(front, before, known);
      EveryActionKeepsConsistent(before, last, known);
      GenerationsCountLoads(before, last, known);
    }
  }

  // ----- what loaders hand over

  lemma {:induction false} ReadProviderInRange(entries: seq<Entry>, id: ProviderId, warnings: seq<string>)
    requires ReadProviderKeys(entries, id, warnings).Ok?
    ensures var secs := ReadProviderKeys(entries, id, warnings).value.config.pollIntervalSecs;
      secs.Some? ==> MIN_POLL_INTERVAL_SECS <= secs.value <= MAX_POLL_INTERVAL_SECS
  {
    if entries != [] {
      ReadProviderInRange(entries[..|entries| - 1], id, warnings);
    }
  }

  lemma {:induction false} ReadProvidersInRange(so: Loaded, entries: seq<Entry>)
    requires InRange(so.config) && ReadProviders(so, entries).Ok?
    ensures InRange(ReadProviders(so, entries).value.config)
  {
    if entries != [] {
      var front, last := entries[..|entries| - 1], entries[|entries| - 1];
      ReadProvidersInRange(so, front);
      ReadProviderInRange(last.value.entries, last.key, ReadProviders(so, front).value.warnings);
    }
  }

  /** Whatever parses names only intervals in range. */
  lemma {:induction false} ParsedIsInRange(doc: seq<Entry>)
    requires Parse(doc).Ok?
    ensures InRange(Parse(doc).value.config)
  {
    if doc != [] {
      var front, last := doc[..|doc| - 1], doc[|doc| - 1];
      ParsedIsInRange(front);
      if last.key == PROVIDERS && last.key != POLL_INTERVAL {
        ReadProvidersInRange(Parse(front).value, last.value.entries);
      }
    }
  }

  // ----- what a document's settings come to

  /** What a document's table for a provider gives under a key. */
  function Given(doc: seq<Entry>, id: ProviderId, key: string): Option<Value> {
    var table := TableOf(doc, id);
    if table.Some? && table.value.Table? then Find(table.value.entries, key) else None
  }

  function TableOf(doc: seq<Entry>, id: ProviderId): Option<Value> {
    var providers := Find(doc, "providers");
    if providers.Some? && providers.value.Table? then Find(providers.value.entries, id) else None
  }

  /** The seconds a setting names; none if it is not given. */
  ghost predicate Names(v: Option<Value>, secs: Option<nat>) {
    match v
    case None => secs == None
    case Some(value) => value.Integer? && 10 <= value.i <= 4294967295 && secs == Some(value.i)
  }

  /** That many seconds, as an interval. */
  ghost predicate Lasts(value: Value, interval: nat) {
    value.Integer? && 10 <= value.i <= 4294967295 && interval == value.i * 1_000_000_000
  }

  /** A document that parses disables a provider exactly where its table says
      `enabled = false`; and the provider polls at its own interval if that is
      given, else at the file's, else every three minutes. */
  lemma SettingsRead(doc: seq<Entry>, id: ProviderId)
    requires WellFormed(doc) && Parse(doc).Ok?
    ensures var schedule := ScheduleOf(Parse(doc).value.config, id);
      && (!schedule.enabled <==> Given(doc, id, "enabled") == Some(Boolean(false)))
      && var (own, common) := (Given(doc, id, "poll_interval_secs"), Find(doc, "poll_interval_secs"));
         if own.Some? then Lasts(own.value, schedule.interval)
         else if common.Some? then Lasts(common.value, schedule.interval)
         else schedule.interval == 180 * 1_000_000_000
  {
    RowRead(doc, id);
  }

  lemma RowRead(doc: seq<Entry>, id: ProviderId)
    requires WellFormed(doc) && Parse(doc).Ok?
    ensures var config := Parse(doc).value.config;
      && Names(Find(doc, "poll_interval_secs"), config.pollIntervalSecs)
      && Names(Given(doc, id, "poll_interval_secs"), config.Provider(id).pollIntervalSecs)
      && (id in config.providers <==> TableOf(doc, id).Some?)
      && (!config.Provider(id).enabled <==> Given(doc, id, "enabled") == Some(Boolean(false)))
  {
    Edits.ParseMeaning(doc);
    Edits.ParsedRow(doc, id);
    if TableOf(doc, id).Some? {
      assert Entry(id, TableOf(doc, id).value) in Edits.ProvidersIn(doc);
    }
  }

  /** The view has a row for each provider compiled in or named by the document,
      and each row shows what the document gives and what it comes to. */
  lemma ViewShows(doc: seq<Entry>, known: seq<ProviderId>, id: ProviderId)
    requires WellFormed(doc) && Parse(doc).Ok?
    ensures var (config, view) := (Parse(doc).value.config, ViewOf(Parse(doc).value.config, known));
      && view.defaultSecs == 180 && view.minSecs == 10 && Names(Find(doc, "poll_interval_secs"), view.pollIntervalSecs)
      && (id in view.rows <==> id in known || TableOf(doc, id).Some?)
      && (id in view.rows ==>
            var row := view.rows[id];
            && (!row.enabled <==> Given(doc, id, "enabled") == Some(Boolean(false)))
            && Names(Given(doc, id, "poll_interval_secs"), row.pollIntervalSecs)
            && row.effectiveSecs * 1_000_000_000 == ScheduleOf(config, id).interval)
  {
    RowRead(doc, id);
  }

  /** An account started before any file was loaded is polled at once, every three
      minutes, and says so. */
  lemma FreshStart(a: Account, wake: PL.Wake, known: seq<ProviderId>)
    ensures var (s, minutes) := (Act(System(Initial(known), map[]), Start(a), known), 3 * 60 * 1_000_000_000);
      && KeyOf(a) in s.published.schedules && CanDo(s, Run(a, wake))
      && s.published.schedules[KeyOf(a)] == Scheduler.Schedule(true, minutes)
      && s.published.intervals == map[a.id := minutes]
      && var after := Act(s, Run(a, wake), known);
         after.tasks[a.id].Step() == Some(Scheduler.PollNow) && after.published.intervals == map[a.id := minutes]
  {
  }

  /** Clients count down whole seconds, parts of one dropped, as far as 32 bits go. */
  lemma ToldInSeconds(interval: nat)
    ensures var (told, second) := (IntervalSecs(interval), 1_000_000_000);
      && told * second <= interval && told <= 4294967295
      && (told < 4294967295 ==> interval < (told + 1) * second)
  {
  }

  /** What a poller ran, its task woken once more. */
  function RanBy(t: Waiting, run: seq<PL.Iteration>, wake: PL.Wake): seq<PL.Iteration> {
    if t.read.None? then run else run + [PL.Iteration(t.read.value, wake)]
  }

  /** A task that has been through `run` takes, on the settings now in force, the
      step its polls call for, and tells clients the wait: zero while parked or
      looking at the credential again, the wait to come while it polls. */
  lemma ClientsAreToldTheWait(s: System, a: Account, wake: PL.Wake, known: seq<ProviderId>, run: seq<PL.Iteration>)
    requires Consistent(s, known) && CanDo(s, Run(a, wake))
    requires PL.ValidRun(run) && s.tasks[a.id].task == PL.TaskAfter(run)
    ensures var ran := RanBy(s.tasks[a.id], run, wake);
      var (after, schedule) := (Act(s, Run(a, wake), known), ScheduleOf(s.published.config, a.provider));
      var step := PL.StepAfter(PL.GateHistory(ran), schedule);
      && PL.ValidRun(ran) && after.tasks[a.id].task == PL.TaskAfter(ran) && after.tasks[a.id].Step() == Some(step)
      && after.published.intervals[a.id] ==
         match step
         case Wait(after) => after
         case PollNow => Scheduler.BackedOff(Scheduler.ReachedSincePark(PL.GateHistory(ran)), schedule.interval)
         case _ => 0
  {
    assert AccountConsistent(s, a);
    var t := s.tasks[a.id];
    var ran := RanBy(t, run, wake);
    if t.read.Some? {
      assert ran[..|ran| - 1] == run;
    }
    IntervalInRange(s.published.config, a.provider);
    PL.StepIsDecided(ran, ScheduleOf(s.published.config, a.provider));
    PL.CadenceIsTheWait(ran, ScheduleOf(s.published.config, a.provider));
  }
}
