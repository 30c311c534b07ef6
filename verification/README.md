# Teiryo: a verified model

Teiryo is a daemon (`teiryod`) that polls AI providers for how much of each
quota window an account has used, and a terminal client that charts it and
extrapolates it. This project models the parts of it that decide something, in
Dafny, and proves what they promise.

**Resets nobody announced.** Providers roll quota windows over, sometimes
without moving the published reset instant. `Rollover` classifies a change
between two successful polls; `Daemon` keeps the caches and the map of observed
restarts, and rebuilds them from the database of `Storage` when the daemon
starts. `Restart` follows whole runs of polls and restarts and compares the
rebuilt state with the live one. `AnchorSoundness` connects the published
brackets with the restarts that really happened, and `RestartWitnesses` has runs
in which a restart changes what is published.

**The burn rate.** `Estimator` is the client's estimator: select, sort,
deduplicate, walk back to the first gap or fall, then widen the lookback under
three stopping rules. `EstimatorLaws` says what it depends on and where it stops,
`EstimateMeaning` what its numbers are in terms of the readings,
`RoundingExactness` how its interval holds the true rate of a steady burn, and
`TruncationMisses` when it does not; `RateSeries` that the sliding form gives what
estimating afresh gives; `Projection` what is extrapolated from it. `Metrics` has
the window the numbers are measured against.

**The rest of the daemon.** `Downsample` reduces a stored history to a budget of
points. `Scheduler` and `PollLoop` are the poll task's throttle, gate and loop;
`ConfigPublication` is how settings reach tasks and clients; `Config` and
`ConfigEdits` are the configuration file, read and edited. `Instance` is the
lock and socket that keep one daemon running, `LongPoll` the request that carries
two clocks to the client, `Handshake` (over `Utf8`) the first bytes of every
connection.

Code that changes state is a class or a method with loops (`SharedState`,
`Gate`, `Poller`, `SharedConfig`, `Document`, `Host`, `Subscriber`, `Stream`,
and the methods of `Estimator`, `Downsample`, `Config`, `LongPoll` and
`Handshake`), each proved to do what a function on values says; the theorems are
about those functions and about runs of steps made of them. A stretch of daemon
code between two awaits is one step, since the runtime is single-threaded.

Run `dafny verify dfyconfig.toml` in this directory.

## What came out

- The comment on `Projection::binding` says it warns of a cap that may arrive
  before the reset. The warning implies a high at-reset figure of at least 100%,
  over all readings and rates, exactly when the time left to the reset is whole
  seconds or the reset has passed (`Projection.WarningMeansTheCapExactly`);
  `Projection.BindingBelowTheCap` has two readings for which it does not.
  `Projection.BindingExactly` says exactly when the warning shows, and
  `Projection.BindingOnWholeSeconds` and `Projection.BindingWithinHalfASecond` how
  far warning and figure can differ.
- A pace measured from the midpoint of an observed bracket lies between the paces
  of its two ends except where the two truncations to whole seconds part:
  `Metrics.MidpointCanRoundOut` gives the view, `Metrics.MidpointPaceIsBracketed`
  the exact condition, which always holds when the time left to the reset is
  whole seconds.
- The database keeps milliseconds and the live daemon nanoseconds. What is
  restored, poll or bracket, is what was served with its instants rounded down,
  so equal exactly when they were whole (`Restart.RestoredToTheMillisecond`). A
  restored bracket can therefore miss a restart in its last fraction of a
  millisecond (`RestartWitnesses.ARoundedBracketCanMiss`); a published bracket is
  sure to hold the most recent restart exactly if the daemon added its row since it
  last started or its later end was whole (`AnchorSoundness.HoldsExactlyWhen`).
- A window that is missing from the newest payload when the daemon restarts loses
  its anchor, and a later restart finds it again in the database
  (`RestartWitnesses.AForgottenAnchorComesBack`). So a hydrated daemon serves the
  live anchor, to the millisecond, if and only if the window is remembered (no
  restart has come since its newest rollover row, or the last one found it in the
  payload) or its bracket is no longer young: `Restart.RestartRefinement`. A bracket that is served and reads back young
  is never lost either way (`Restart.RestartLosesNothing`).
- The comment on `fit` says a steady rate is always inside the interval, and the one
  on `estimate_rate` that it never trips the regime stop. Both hold for readings
  whole seconds apart (`RoundingExactness.SteadyBurnIsInside`,
  `RoundingExactness.SteadyIsNeverContradicted`). At other instants `fit` divides by
  the whole seconds only, and the low end can exceed the rate by less than one
  second's share of it (`RoundingExactness.FitHolds`,
  `RoundingExactness.SteadyBurnIsNearlyInside`); two readings are sure to hold
  every burn exactly if they are whole seconds apart
  (`TruncationMisses.TwoReadingsHoldExactly`). The regime stop then fires only where
  one of the two intervals misses the rate
  (`RoundingExactness.ContradictionIsTruncation`), and it can:
  `TruncationMisses.ASteadyBurnIsMissed` has three readings for which the estimate is
  stopped short by it and misses.
- A write to the database that fails costs durability and not truth: within one
  lifetime what is served does not depend on which writes went through
  (`Restart.FailedWritesCostNoTruth`).
- After the last publication the daemon sends at most two more non-empty replies,
  but the client can receive three: one may have been under way
  (`LongPoll.ThreeCanArrive`).
- A comment calls the order of configuration warnings "file order"; `toml::Table`
  iterates by key. The model keeps document order and relies on no other.

## Model

| member | source | states |
|---|---|---|
| Rollover.ClassifyReversed | crates/teiryo-core/src/rollover.rs:239-262 | two payloads compared in the other order turn an advance of the reset into a retraction and back; a collapse has no opposite, and a payload never rolled over from itself |
| Rollover.EarlyUntilDue | crates/teiryo-core/src/rollover.rs:244-253 | one advance is early exactly until the tolerance before the old reset, then scheduled |
| Rollover.CollapseLaws | crates/teiryo-core/src/rollover.rs:264-293 | a collapse starts from at least the minimum drop, is never reversed by another, composes with a further one down to a quarter, and survives lower readings |
| Rollover.UnannouncedInPercent | crates/teiryo-core/src/rollover.rs:239-293 | for readings of 0 to 100 percent a change is an unannounced reset if and only if the published reset moved by two minutes at most, or was not published both times, and usage fell by five points or more, to half or less |
| Rollover.UnannouncedInUnits | crates/teiryo-core/src/rollover.rs:264-293 | of a counted quota likewise, by a twentieth of its positive limit or more, to half or less |
| Rollover.NoScaleNoReset | crates/teiryo-core/src/rollover.rs:288-293 | a window with no scale is never taken to have been reset, in either direction |
| Rollover.MovedResets | crates/teiryo-core/src/rollover.rs:239-262 | a reset moved by more than two minutes is early, scheduled or retracted, each exactly when, in minutes |
| Rollover.EstimateIsTheMiddle | crates/teiryo-core/src/rollover.rs:186-198 | a bracket is computed against at its middle, to the nanosecond |
| Rollover.RowSaysBoth | crates/teiryo-core/src/rollover.rs:209-236 | a window gets a row exactly if its two readings differ in a kind, and the row says what both readings were and when |
| Storage.RolloversInRange | crates/teiryo-core/src/storage.rs:258-328 | the range query gives exactly the account's rows observed within those milliseconds, oldest first |
| Storage.StoredRowIsRounded | crates/teiryo-core/src/storage.rs:111-117 | a rollover comes back from the table with each of its four instants rounded down to the millisecond, and otherwise as it was |
| Daemon.SharedState.RecordEvent | crates/teiryod/src/state.rs:372-460 | recording a poll leaves caches, anchors and table in exactly the state `Recorded` gives, whether or not the write went through |
| Daemon.SharedState.PruneAnchors | crates/teiryod/src/state.rs:129-183 | an anchor stays unless its window is in the payload and the anchor is older than the window is long; nothing happens without a positive span |
| Daemon.SharedState.Replay | crates/teiryod/src/state.rs:510-563 | replaying stored rows in order installs what still reads as a collapse on the current scale and retires what was announced |
| Daemon.SharedState.HydrateAccount | crates/teiryod/src/state.rs:470-563 | reloading one account gives exactly the state `Hydrated` gives from the table |
| Restart.QueryMeaning | crates/teiryo-core/src/storage.rs:450-507 | the three queries answer the newest poll, the newest success and the length of the trailing failing run, on any table whose ids increase |
| Restart.LookbackSuffices | crates/teiryod/src/state.rs:497-563 | replaying only the last 21 days yields the same young anchor as replaying everything |
| Restart.PrunedOne | crates/teiryod/src/state.rs:129-183 | what pruning does to one window: judged by its own length if the payload carries it, left alone otherwise |
| Restart.PrunedExactly | crates/teiryod/src/state.rs:129-183 | whatever the payload, an anchor goes exactly if it is older than its window is long, the payload carries that window and some window has a length `chrono` can hold and more than zero |
| Restart.ReplayedAllOne | crates/teiryod/src/state.rs:185-200 | what replay does to one window: the verdict of its newest row, if the payload carries it |
| Restart.ReplayedExactly | crates/teiryod/src/state.rs:160-200 | whatever rows are stored, replay gives a window the verdict of the newest one that is announced, or whose two readings on the live window's scale would be an unannounced reset again; without one it leaves the anchor alone |
| Restart.DetectOneWindow | crates/teiryo-core/src/rollover.rs:209-236 | the rows one comparison finds for a window depend on that window alone |
| Restart.ReachedAgrees | crates/teiryod/src/state.rs:372-563 | after any run of polls, each written, and restarts, at whatever instants, every cache agrees to the millisecond with its own database, whose rows all conform |
| Restart.TableHoldsThePolls | crates/teiryo-core/src/storage.rs:188-251 | after any run whose writes went through the table holds every poll of it, with its instant rounded down to the millisecond |
| Restart.ServedMeaning | crates/teiryod/src/state.rs:440-459 | after any run whose writes went through the caches hold each account's newest poll and newest success, exact within one lifetime and to the millisecond once read back, its trailing failure count, and the message of its newest poll if that failed |
| Restart.ReachedAnchor | crates/teiryod/src/state.rs:394-439 | after any run whose writes went through a served anchor reads back as the verdict of its window's newest row; a remembered window's is served while young, a forgotten one's is not |
| Restart.RestartRefinement | crates/teiryod/src/state.rs:470-563 | after any run whose writes went through, a daemon hydrated at any later instant serves the live latest poll and latest success to the millisecond and the same failure count and error; and for each window of the newest payload the live anchor to the millisecond if that is still young, else none, if and only if the window was remembered or has no young bracket; no anchor for any other window |
| Restart.RestartLosesNothing | crates/teiryod/src/state.rs:470-563 | whatever happened before, as long as it was written, a restart neither drops nor moves, beyond the millisecond, a bracket served for a window of the newest payload that reads back young |
| Restart.OneLifetimeRemembers | crates/teiryod/src/state.rs:394-439 | within one daemon's lifetime every window is remembered, so the refinement is unconditional |
| Restart.RestoredToTheMillisecond | crates/teiryo-core/src/storage.rs:111-117 | for any run whose writes went through and anything served: a poll comes back less than a millisecond early, and unchanged exactly when its instant is whole; a bracket comes back with both ends rounded down, unchanged exactly when both are whole, and is dropped only within a millisecond of the age at which the live one would be |
| Restart.FailedWritesCostNoTruth | crates/teiryod/src/state.rs:434-460 | whichever writes of a lifetime go through, from whatever state it started, the daemon serves the same polls, successes, health and anchors |
| RestartWitnesses.AForgottenAnchorComesBack | crates/teiryod/src/state.rs:497-563 | a run of four successes, the third without the window, that is not remembered: it has no anchor though the newest payload carries the window, and the next restart publishes its bracket |
| AnchorSoundness.TruthfulStep | crates/teiryo-core/src/rollover.rs:239-293 | one more success moves a window's verdict exactly as the restarts straddled by it require |
| AnchorSoundness.ExactIsTruthful | crates/teiryod/src/state.rs:394-439 | the bracket the successes themselves imply is none exactly if no restart was straddled, and otherwise holds the newest one |
| AnchorSoundness.ReachedTracks | crates/teiryod/src/state.rs:394-563 | after any run whose writes went through, at whatever instants, the table reads as that bracket rounded down, and a published bracket is it but for ends that were read back: its later end is exact if its row was added since the daemon started, rounded down otherwise |
| AnchorSoundness.PublishedBracketHoldsTheRestart | crates/teiryod/src/state.rs:394-563 | over any run with failed polls and restarts, its writes gone through, the window's most recent restart lies past a published bracket's earlier end, less than a millisecond past its later end, and not past that if it is exact; within one lifetime the bracket is exact; and a straddled restart is published until the window's length has passed |
| AnchorSoundness.PublishedDespiteFailedWrites | crates/teiryod/src/state.rs:394-460 | within one lifetime, whichever writes fail, what is published is the bracket the successes imply, or none once that is no longer young |
| AnchorSoundness.HoldsExactlyWhen | crates/teiryod/src/state.rs:497-563 | after any run whose writes went through, a published bracket holds the most recent restart wherever that came, if and only if its row was added since the daemon last started or its later end was whole milliseconds |
| RestartWitnesses.ARoundedBracketCanMiss | crates/teiryod/src/state.rs:497-563 | a run whose restored bracket misses a restart in its last half millisecond |
| AnchorSoundness.HonestIsRemembered | crates/teiryod/src/state.rs:470-563 | a window in every successful payload is never forgotten by a restart |
| AnchorSoundness.ServedAfter | crates/teiryod/src/state.rs:394-439 | whatever was served, one more success that carries the window installs the bracket of the two polls on an unannounced reset while that is young, retires the anchor on an announced one, and otherwise keeps it while it is young |
| AnchorSoundness.AFallIsPublished | crates/teiryod/src/state.rs:394-439 | a percent window that falls by five points or more, to half or less, its reset held, is published with the bracket of the two polls, unless the middle of that is further back than the window is long |
| Metrics.PaceIsBounded | crates/teiryo/src/metrics.rs:136-172 | a pace is never under what was used nor above 20, and from the reset on is what was used |
| Metrics.EffectiveStart | crates/teiryo/src/metrics.rs:73-88 | the window starts at the provider's reckoning, or at the middle of an observed bracket exactly if that lies inside the nominal window and the bracket is wholly past; with the bracket's width as its uncertainty, else none |
| Metrics.PaceTimesElapsed | crates/teiryo/src/metrics.rs:147-172 | a pace is given exactly from a twentieth of the window on, and times the time elapsed is what was used times the span |
| Metrics.RunwayTimesPace | crates/teiryo/src/metrics.rs:185-205 | a runway spends the headroom left at that pace to within half a second of burn, is none at the cap, and never without a pace |
| Metrics.MovedSeconds | crates/teiryo/src/metrics.rs:90-97 | moving a window's start takes at most one whole second more off the span than off the elapsed time, and no more if the time to the reset is whole seconds |
| Metrics.LaterStartFasterPace | crates/teiryo/src/metrics.rs:147-153 | a later start gives no slower a pace if and only if the truncated seconds round in order |
| Metrics.MidpointPaceIsBracketed | crates/teiryo/src/metrics.rs:73-153 | a pace from an observed bracket's midpoint lies between the paces of its ends, under exactly that condition |
| Metrics.MidpointCanRoundOut | crates/teiryo/src/metrics.rs:90-97 | a 5-hour window and an observed one-second bracket, off whole seconds, for which the midpoint's pace is below the earlier end's |
| Estimator.Select | crates/teiryo/src/metrics.rs:496-510 | the loop's sorted, deduplicated readings are the series of the window instance |
| Estimator.WalkBack | crates/teiryo/src/metrics.rs:516-530 | the walk back ends at the newest stretch without a gap or a fall |
| Estimator.WidenLookback | crates/teiryo/src/metrics.rs:537-556 | the loop returns what the recursive widening does, under its three stops |
| Estimator.EstimateRate | crates/teiryo/src/metrics.rs:485-557 | the estimator as a whole returns the estimate of the specification for every input |
| EstimateMeaning.EstimateReadsTheSeries | crates/teiryo/src/metrics.rs:391-557 | every estimate reads a suffix of its series: two readings or more over 300 seconds or more, none of its steps over the tolerance or down by more than half a percent, the newest recent; its pace times those seconds is the rise over them, or nothing if that is negative, times the span, its ends the same for one half-width less and more, of at least one reporting step; and low, pace and high are in order |
| EstimateMeaning.EvenReadingsAreRounded | crates/teiryo/src/metrics.rs:391-421 | over two readings, and over any that rise evenly, that half-width is exactly one reporting step |
| EstimateMeaning.EvenIsNoScatter | crates/teiryo/src/metrics.rs:400-411 | scatter is never negative, and nothing exactly if each step rises at the rate |
| EstimateMeaning.SpreadIsHalf | crates/teiryo/src/metrics.rs:399-427 | in general it is what scatter leaves undecided over the seconds, or one reporting step if that is more |
| EstimateMeaning.ScatterIsUndecided | crates/teiryo/src/metrics.rs:399-416 | given a square root, what is undecided is the quantile for the free steps times the root of the scatter per free step times the steps |
| EstimateMeaning.ThreeReadings | crates/teiryo/src/metrics.rs:391-429 | of three evenly spaced readings one of whose steps is `d` higher, the half-width is 3.078 `d` or one reporting step |
| EstimateMeaning.QuantilesFall | crates/teiryo/src/metrics.rs:265-278 | the quantile never rises with the steps, from 3.078 for one to 1.310 for thirty, and is 1.2816 beyond |
| EstimateMeaning.SelectedExactly | crates/teiryo/src/metrics.rs:499-502 | which snapshots are read: of the window, since its start, not after now, with a reset within 120 seconds of its own, and a scale |
| EstimateMeaning.ReadAsAShare | crates/teiryo-core/src/domain.rs:139-145 | and as what: the share of a hundred, or of the limit, and never more than all of it |
| EstimateMeaning.BreaksExactly | crates/teiryo/src/metrics.rs:521-530 | where the walk back stops: a step over the tolerance, or a fall of more than half a percent |
| EstimateMeaning.FirstLook | crates/teiryo/src/metrics.rs:257-259 | the first look is a tenth of the window within 15 minutes and 12 hours: 30 minutes of five hours, 12 hours of a week |
| EstimateMeaning.LookExactly | crates/teiryo/src/metrics.rs:537-541 | a look takes in the readings no older than it, counted from the newest |
| EstimateMeaning.AddedExactly | crates/teiryo/src/metrics.rs:542-545 | a doubling adds the readings up to the narrower fit's first, that one included |
| EstimateMeaning.DisjointExactly | crates/teiryo/src/metrics.rs:545-547 | two fits rule each other out exactly if no rate lies in both |
| EstimateMeaning.PreciseExactly | crates/teiryo/src/metrics.rs:283-336 | precise is three readings or more and a width of at most 0.25, or a quarter of the pace |
| EstimateMeaning.StepExactly | crates/teiryo/src/metrics.rs:344-369 | the reporting step is the coarsest of 1, 0.5 and 0.1 of which every reading is a multiple to a millionth, 0.1 if none is, as a share of the newest reading's scale |
| EstimatorLaws.SeriesShape | crates/teiryo/src/metrics.rs:496-510 | the series is strictly increasing in time, inside the window and up to now, made of offered readings, and of all of them when equal instants carry equal readings |
| EstimatorLaws.OrderAndRepeatsDoNotMatter | crates/teiryo/src/metrics.rs:496-510 | permuting or repeating readings changes no estimate, equal instants carrying equal readings |
| EstimatorLaws.NothingBeforeABreakMatters | crates/teiryo/src/metrics.rs:516-530 | deleting every reading before any break of the series changes no estimate |
| EstimatorLaws.StretchShape | crates/teiryo/src/metrics.rs:516-530 | the stretch crosses no gap and no fall and begins at a break or at the first reading |
| EstimatorLaws.EstimateFitsTheRecentEnd | crates/teiryo/src/metrics.rs:485-557 | any estimate is the fit of an unbroken suffix that ends at the newest reading, no older than the tolerance, and starts no earlier than the window |
| EstimatorLaws.PassesAreLogarithmic | crates/teiryo/src/metrics.rs:537-556 | doubling passes over a stretch number at most one more than the doublings that cover it, from any state of the loop |
| EstimatorLaws.WideningStops | crates/teiryo/src/metrics.rs:257-259 | from the first lookback, of at least 15 minutes, at most 1 + ceil(log2(D / L0)) passes run |
| EstimatorLaws.StopsAtTheFirstReason | crates/teiryo/src/metrics.rs:532-556 | the estimate is the fit at the first doubled lookback that is precise, takes in the whole stretch, or adds readings whose own fit is disjoint from the one before, and in that last case it is the one before |
| RoundingExactness.PublishedError | crates/teiryo/src/metrics.rs:385-390 | floor and nearest rounding each stay within one step, on a fixed side or both |
| RoundingExactness.BurnWithinAStep | crates/teiryo/src/metrics.rs:385-390 | between two reported readings, at any instants, the true burn is within one step of the reported one |
| RoundingExactness.QuantumCovers | crates/teiryo/src/metrics.rs:344-369 | the inferred resolution is never finer than the real one |
| RoundingExactness.FitHolds | crates/teiryo/src/metrics.rs:391-429 | every fit of a steady burn, at any instants and whatever the scatter term, has the true rate no higher than its high end and at most one second's share of the rate below its low end, and contains it if its ends are whole seconds apart |
| RoundingExactness.WidenHolds | crates/teiryo/src/metrics.rs:537-556 | over a stretch whose every slice holds a rate, the result holds it and is precise or spans the whole stretch |
| RoundingExactness.SteadyIsNeverContradicted | crates/teiryo/src/metrics.rs:541-547 | over a steady stretch of readings whole seconds apart the regime stop never fires, at any doubling |
| RoundingExactness.SteadyBurnIsInside | crates/teiryo/src/metrics.rs:485-557 | for any steady burn below the cap, floored or rounded to steps of 1, 0.5 or 0.1 percent and read whole seconds apart, every interval returned contains the true rate, and is precise or made over the whole unbroken stretch; none is returned only if that stretch fits none |
| RoundingExactness.SteadyBurnIsNearlyInside | crates/teiryo/src/metrics.rs:485-557 | the same burn read at any instants: every interval returned holds the rate but for the truncated part of a second, and holds it if its ends are whole seconds apart |
| RoundingExactness.ContradictionIsTruncation | crates/teiryo/src/metrics.rs:541-547 | at any instants, the regime stop fires on a steady stretch only where one of the two intervals, made off whole seconds, begins above the rate |
| RoundingExactness.SteadyBurnStops | crates/teiryo/src/metrics.rs:537-556 | so the estimate is that of the whole stretch, or precise, or was stopped by such an interval |
| TruncationMisses.TwoReadingsHoldExactly | crates/teiryo/src/metrics.rs:391-429 | two readings at given instants hold the rate of every burn they can report if and only if they are whole seconds apart |
| TruncationMisses.ASteadyBurnIsMissed | crates/teiryo/src/metrics.rs:485-557 | three readings of a steady burn whose estimate begins above the rate and is neither precise nor made over the whole stretch |
| RateSeries.SlidingIsEstimatingAfresh | crates/teiryo/src/metrics.rs:661-702 | the sliding form over slices equals estimating afresh over all points at each reading's instant and instance |
| RateSeries.EveryPointIsFresh | crates/teiryo/src/metrics.rs:661-702 | each point's rate is the estimate of its own window instance at its own instant |
| RateSeries.EveryReadingHasItsPoint | crates/teiryo/src/metrics.rs:673-701 | every reading that carries a reset has its point, measured against the live window or its own |
| RateSeries.PointShowsItsReading | crates/teiryo/src/metrics.rs:677-701 | each point is a reading's, at its instant: measured on the live window, start and all, if it was taken since that began and carries its reset within 120 seconds, and else on one span before the reset it carries; with that reading's own share as its usage |
| RateSeries.SeriesRunsForward | crates/teiryo/src/metrics.rs:668-701 | points are strictly later than the ones before them |
| Projection.ProjectionIgnoresTheSpan | crates/teiryo/src/metrics.rs:605-629 | the bands projected from a fit depend on its rates per second and not on the span |
| Projection.StartDoesNotMatter | crates/teiryo/src/metrics.rs:605-629 | two windows of one reset and one reading project alike wherever each began |
| Projection.ProjectionIsOrdered | crates/teiryo/src/metrics.rs:605-629 | low, middle and high are in order in both bands, never being infinity |
| Projection.BindingExactly | crates/teiryo/src/metrics.rs:591-595 | exactly when the warning shows, at and below the cap |
| Projection.BindingOnWholeSeconds | crates/teiryo/src/metrics.rs:591-595 | on whole seconds it shows exactly when the high figure exceeds 100% by more than half a second of burn |
| Projection.BindingWithinHalfASecond | crates/teiryo/src/metrics.rs:591-595 | at any instant the warning and the high figure differ by less than half a second of burn |
| Projection.WarningMeansTheCapExactly | crates/teiryo/src/metrics.rs:585-629 | a warning means a high figure of at least 100%, whatever was used and however fast, if and only if the time left to the reset is whole seconds or the reset has passed |
| Projection.BindingBelowTheCap | crates/teiryo/src/metrics.rs:485-629 | two readings of a 5-hour window that the estimator turns into a rate whose projection warns with the high figure below 100% |
| Downsample.PickPeaks | crates/teiryo-core/src/storage.rs:570-587 | the loop picks each earlier group's peak and the last group's newest row |
| Downsample.ReduceSeries | crates/teiryo-core/src/storage.rs:556-588 | a series within budget is untouched; otherwise it is cut into buckets and picked |
| Downsample.PeakIsFirstHighest | crates/teiryo-core/src/storage.rs:580-582 | the peak kept is the earliest of the highest |
| Downsample.BucketsClimb | crates/teiryo-core/src/storage.rs:565-568 | the integer bucket is monotone in time and below the budget |
| Downsample.BucketExactly | crates/teiryo-core/src/storage.rs:565-568 | a row `o` milliseconds into the span is in bucket `b` exactly if `b * span <= o * budget < (b + 1) * span`, one at its end in the last |
| Downsample.PickedKeepsPeaks | crates/teiryo-core/src/storage.rs:556-588 | the picks are a subsequence, one a bucket, ending on the newest row, with a row at least as high for every row outside the last occupied bucket |
| Downsample.ReducedFitsBudget | crates/teiryo-core/src/storage.rs:556-588 | a time-sorted series reduces to a subsequence of at most `budget` rows |
| Downsample.DownsampleHistory | crates/teiryo-core/src/storage.rs:521-546 | grouping by first sight, reducing and sorting gives the specified history |
| Downsample.WindowOfDownsampled | crates/teiryo-core/src/storage.rs:521-546 | one window's part of a downsampled history is that window's rows reduced |
| Downsample.DownsamplingCommutesWithSelecting | crates/teiryo-core/src/storage.rs:521-546 | selecting a window before or after downsampling is the same, and fits the budget |
| Downsample.PeakNearby | crates/teiryo-core/src/storage.rs:548-588 | of one window, every row more than one budget-th of the span before the newest has a kept row less than that from it, used at least as much |
| Downsample.HistoryKeepsPeaks | crates/teiryo-core/src/storage.rs:521-588 | of a history of many windows, each window keeps its newest row, and for every row more than one budget-th of the span before it a row of the same window near it, used at least as much |
| Downsample.HistoryStaysInOrder | crates/teiryo-core/src/storage.rs:540-546 | a downsampled history is in order of time and made of rows of the history |
| Downsample.ShortSeriesAreWhole | crates/teiryo-core/src/storage.rs:527-564 | a window with no more rows than the budget is kept whole, and so is a history over less than a millisecond |
| Scheduler.Gate.RecordThrottle | crates/teiryod/src/scheduler.rs:77-97 | the throttle after one poll, which a poll stopped at the credential does not touch |
| Scheduler.Gate.Record | crates/teiryod/src/scheduler.rs:195-212 | the gate after one poll and the two edges it reports |
| Scheduler.ThrottleForgets | crates/teiryod/src/scheduler.rs:75-97 | over any sequence of polls, re-checks and parks the throttle is the trailing rate-limited run of the polls that reached the provider since the last park |
| Scheduler.DelayIsUnbounded | crates/teiryod/src/scheduler.rs:108-126 | for every base of at least 10 s the guarded delay is max(base, min(base * 2^(strikes - 1), 1 h), retry_after) |
| Scheduler.DelayIsBackedOff | crates/teiryod/src/scheduler.rs:75-126 | for any outcomes of polls the throttle's delay is that of the `n` rate limits they end in: none, the cadence; else the cadence doubled `n - 1` times, at most an hour unless the cadence is longer, never under the last hint; neither saturation nor overflow shows |
| PollLoop.Poller.RunIteration | crates/teiryod/src/scheduler.rs:340-447 | one iteration of the loop, from reading the schedule to the end of its await, and the events in it |
| PollLoop.IterationKeepsDiscipline | crates/teiryod/src/scheduler.rs:340-447 | one iteration keeps the discipline of pauses |
| PollLoop.PauseDiscipline | crates/teiryod/src/scheduler.rs:340-447 | over every run an immediate poll is due only with a usable credential, pauses and their ends alternate, a park ends one too, and inside one every poll is manual |
| PollLoop.DisabledStartsNothing | crates/teiryod/src/scheduler.rs:352-372 | an iteration that read a disabled schedule starts no poll, and polls at once when enabled again |
| PollLoop.LoopThrottle | crates/teiryod/src/scheduler.rs:340-447 | over every run of the loop the throttle is that of the polls that reached the provider since the last park |
| PollLoop.StepIsDecided | crates/teiryod/src/scheduler.rs:226-248 | after every run and on whatever schedule comes next, the loop parks if disabled, polls at once if nothing was polled yet or a park or a recovery came last, looks at the credential again after 30 seconds or the cadence if a poll last failed on it, and else waits that backed-off delay |
| PollLoop.CadenceIsTheWait | crates/teiryod/src/scheduler.rs:266-275 | and what is published is that wait: 0 while the credential is looked at again, the wait to come while polling, nothing while parked |
| PollLoop.TriggersExactly | crates/teiryod/src/scheduler.rs:352-447 | each poll carries its trigger: startup at once, scheduled after a wait, manual with its client; a changed schedule and a failed look change nothing; a recovered credential is said once and polled |
| PollLoop.ThrottledExactly | crates/teiryod/src/scheduler.rs:195-212 | throttling is reported by exactly the first rate limit in a row |
| ConfigPublication.SharedConfig.InstallConfig | crates/teiryod/src/state.rs:325-369 | one load attempt's whole effect on settings, schedules, cadences and the announced generation |
| ConfigPublication.InstalledFor | crates/teiryod/src/state.rs:336-356 | right after a load every account is told its own schedule's cadence, or 0 while disabled |
| ConfigPublication.EveryActionKeepsConsistent | crates/teiryod/src/state.rs:325-369 | at every await point each account runs on what the running settings say, the published view is theirs, a disabled account publishes 0, and an enabled one only while paused |
| ConfigPublication.GenerationsCountLoads | crates/teiryod/src/state.rs:315-369 | each load attempt moves the generation by one and nothing else does; a rejected one changes no setting, schedule or warning and shows its error, an applied one shows its own warnings and no error |
| ConfigPublication.AlwaysConsistent | crates/teiryod/src/state.rs:325-369 | over every interleaving of loads, rejections, discoveries and poll iterations the invariant holds and the generation counts the loads |
| ConfigPublication.ParsedIsInRange | crates/teiryod/src/config.rs:226-246 | whatever parses names only intervals in range, so loads meet what the invariant assumes of them |
| ConfigPublication.SettingsRead | crates/teiryod/src/config.rs:102-116 | a document that parses disables a provider exactly if its table has `enabled = false`, and the provider polls at its own interval if given, else the file's, else every 180 seconds |
| ConfigPublication.ViewShows | crates/teiryod/src/config.rs:118-152 | the view has a row for each provider compiled in or named in the file, and the row shows what the document gives and what it comes to; the default is 180 seconds and the least 10 |
| ConfigPublication.FreshStart | crates/teiryod/src/state.rs:661-676 | before any file is loaded an account is enabled at three minutes, says so, and polls at once |
| ConfigPublication.ToldInSeconds | crates/teiryod/src/state.rs:202-208 | cadences reach clients in whole seconds, rounded down, at most 4294967295 |
| ConfigPublication.ClientsAreToldTheWait | crates/teiryod/src/scheduler.rs:340-352 | each time a poll task runs, the step it takes is the one its own polls call for on the settings in force, and the published cadence is that step's wait, or 0 while parked or paused |
| Config.ParseProvider | crates/teiryod/src/config.rs:193-224 | the loop over a provider's table reads what the specification reads, with the first failure as its error |
| Config.ParseDocument | crates/teiryod/src/config.rs:156-182 | the loop over the document reads what the specification reads, with the first failure as its error |
| ConfigEdits.ParseMeaning | crates/teiryod/src/config.rs:156-246 | a document parses if and only if each setting it gives has the right shape and range, and then the global interval and the warnings are what lookups find |
| ConfigEdits.ParsedRow | crates/teiryod/src/config.rs:193-224 | and each provider's row is what lookups find in its table |
| ConfigEdits.Document.Apply | crates/teiryod/src/config.rs:287-352 | an edit changes the document as specified, or leaves it untouched with an error |
| ConfigEdits.EditsCommuteWithParsing | crates/teiryod/src/config.rs:266-352 | every edit of a parsing document that succeeds leaves one that parses, with the setting as asked and the global interval, every other setting and the unknown-key warnings unchanged |
| ConfigEdits.RefusedGlobalEditWouldNotParse | crates/teiryod/src/config.rs:266-283 | a refused global interval would have left a file that does not parse |
| Instance.StepKeepsSafe | crates/teiryod/src/paths.rs:83-157 | every step of every process keeps the protocol's invariant |
| Instance.AtMostOneBound | crates/teiryod/src/paths.rs:96-157 | over every interleaving, with kills anywhere, at most one process is bound, and it holds the lock |
| Instance.PathKeepsNamingTheBound | crates/teiryod/src/paths.rs:83-157 | from its bind until its own guard drops, a daemon's path names its own inode |
| Instance.RemovalsAreSafe | crates/teiryod/src/paths.rs:83-146 | a stale unlink removes only a socket nobody has open, a guard only its own, and who leaves for want of the lock leaves a holder behind |
| Instance.DefensiveBranchesAreIdle | crates/teiryod/src/paths.rs:86-91 | no process following the protocol finds the path gone under it, or another's at its drop |
| Instance.StaleSocketIsReplaced | crates/teiryod/src/paths.rs:127-146 | with the lock and a dead socket at the path, a process can always go on to listen |
| Instance.CleanExitLeavesNothing | crates/teiryod/src/paths.rs:83-91 | a daemon dropping its guard undisturbed leaves neither socket nor lock behind, with the listener closed before or after |
| Instance.AnswersExactly | crates/teiryod/src/paths.rs:127-146 | a socket answers exactly while a listener is open on it, from its listen on and whatever became of its guard |
| Instance.Host.BindSocket | crates/teiryod/src/paths.rs:127-157 | run undisturbed, it binds exactly when the lock is free and nothing answers, replacing any stale socket, and otherwise changes nothing |
| LongPoll.AwaitUpdate | crates/teiryod/src/server.rs:253-287 | the wait answers with the first view that is newer than the client's clocks, its poll before its config, and with no update exactly when no view is |
| LongPoll.Subscriber.UpdateLoop | crates/teiryo/src/client.rs:413-453 | the client's loop forwards every non-empty reply in order and advances each clock to the furthest |
| LongPoll.RunsAreGood | crates/teiryod/src/server.rs:262-286 | over every run a waiting handler's last look found nothing newer, and a reply under way is newer than the client's clocks |
| LongPoll.DeliveriesClimb | crates/teiryo/src/client.rs:426-441 | delivered poll ids and delivered generations each strictly increase, from above where the client began, and each was published |
| LongPoll.NewsIsNotLost | crates/teiryod/src/server.rs:264-274 | a poll newer than the client's stays on offer, itself or a later one, until the client has it or a later one |
| LongPoll.ConfigIsNotLost | crates/teiryod/src/server.rs:272-274 | the same for config generations |
| LongPoll.NoWakingIsMissed | crates/teiryod/src/server.rs:275-285 | while anything is newer no handler sleeps on it |
| LongPoll.LooksAnswerWithTheNewest | crates/teiryod/src/server.rs:263-274 | every look answers exactly when the client is behind, with the newest poll first, then the newest generation |
| LongPoll.RepliesCloseTheGap | crates/teiryod/src/server.rs:253-287 | with nothing published, each non-empty reply sent is one clock fewer behind, and what is sent arrives, but for replies under way at either end |
| LongPoll.TwoRepliesBringItLevel | crates/teiryo/src/client.rs:413-453 | once publishing stops at most two non-empty replies are sent, and after two requests have been answered the client is level with both clocks |
| LongPoll.ThreeCanArrive | crates/teiryo/src/client.rs:413-453 | a run in which the client receives three |
| Utf8.TextSurvives | crates/teiryo-core/src/protocol/handshake.rs:57-61 | lossy decoding of encoded text gives the text back |
| Utf8.OnlyTextIsRead | crates/teiryo-core/src/protocol/handshake.rs:57-61 | and a scalar is decoded only from its own encoding |
| Utf8.ReplacedIsLongest | crates/teiryo-core/src/protocol/handshake.rs:57-61 | what is no encoding is replaced by U+FFFD, the longest start of one at a time, or one byte that starts none |
| Utf8.PrefixEndsOnABoundary | crates/teiryo-core/src/protocol/handshake.rs:35-37 | every prefix of the text ends on a character boundary of its bytes |
| Utf8.BoundaryEndsAPrefix | crates/teiryo-core/src/protocol/handshake.rs:35-37 | and every boundary ends a prefix |
| Utf8.CutIsLongest | crates/teiryo-core/src/protocol/handshake.rs:30-41 | the cut is the longest prefix whose bytes fit |
| Handshake.EncodeCommit | crates/teiryo-core/src/protocol/handshake.rs:34-44 | stepping back to a boundary and copying gives the length and bytes of the longest prefix within 256 bytes |
| Handshake.HelloRoundTrip | crates/teiryo-core/src/protocol/handshake.rs:83-99 | a hello is read back from its six bytes |
| Handshake.CurrentBytes | crates/teiryo-core/src/protocol/handshake.rs:17-25 | this build opens with `TEIR` and version 9, and all it writes to another version is the reject byte and 9 |
| Handshake.Stream.ReadCommit | crates/teiryo-core/src/protocol/handshake.rs:48-61 | reading a commit consumes the length and that many bytes, or fails as specified |
| Handshake.Stream.ClientHandshake | crates/teiryo-core/src/protocol/handshake.rs:110-128 | the client's side, step by step: what it returns, leaves unread and writes |
| Handshake.Stream.ServerHandshake | crates/teiryo-core/src/protocol/handshake.rs:145-173 | the daemon's side likewise |
| Handshake.CommitRoundTrip | crates/teiryo-core/src/protocol/handshake.rs:32-61 | a commit read back is the one sent, cut, and what follows is untouched |
| Handshake.MatchingVersionsMeet | crates/teiryo-core/src/protocol/handshake.rs:83-173 | with matching versions, for all commits and trailing bytes, each side returns the other's commit cut and consumes exactly what the other wrote |
| Handshake.OtherVersionsPart | crates/teiryo-core/src/protocol/handshake.rs:130-173 | any other version is rejected on the first six bytes alone, the rest left unread, and the client recovers the daemon's version |
| Handshake.BareRejectIsUnderstood | crates/teiryo-core/src/protocol/handshake.rs:120-143 | the client reports a rejection exactly on the reject byte, with an unknown version exactly when fewer than two bytes follow |
| Handshake.AcceptsExactly | crates/teiryo-core/src/protocol/handshake.rs:145-173 | the daemon accepts exactly its own version's hello with a whole commit within the limit, and answers nothing but an acceptance or its version |
| Handshake.RefusesExactly | crates/teiryo-core/src/protocol/handshake.rs:145-173 | which error the daemon ends with and what it leaves unread, from the bytes sent |
| Handshake.FailsExactly | crates/teiryo-core/src/protocol/handshake.rs:109-143 | and which the client does |

## Left out

- RoundingExactness.SteadyBurnIsInside: percent readings, which are what the three steps are steps of.
- Restart.Reached: every write goes through. A failed one leaves the table behind the caches, and what a restart then reads back is not stated; within a lifetime Restart.FailedWritesCostNoTruth covers it.
- Metrics.RunwayAt: `Duration::seconds` panics from `i64::MAX / 1000` seconds on; the model gives such a runway as a duration up to `i64::MAX` seconds, as the guard before the call does, and never beyond.
- AnchorSoundness.PublishedBracketHoldsTheRestart: a run in which a window skips a successful payload, or its published reset moves while it restarts, is outside the claim.
- Handshake.Stream.WriteAll: writes and flushes always succeed; a read fails only at the end of the stream.
- Instance.CanStep: failures other than the lock being held, the path being taken, refused, gone or not removable, and errors between bind and guard, are kills.
- LongPoll.CanStep: one connection; a lost connection ends the run and the next begins with its own clocks. A deadline may fire at any point of a wait. Poll ids increase with each publication, as the source documents for ULIDs of distinct milliseconds; ids made in one millisecond may not.
- f64 is modelled by exact reals, so NaN, infinities and rounding in the last place are not; `sqrt` is any function except where a claim says it is a square root.
- Counters of failures, chrono's limits and `i64` times are unbounded integers; strikes saturate as in the source.
- SQLite, TOML, JSON and bincode are lossless: tables are sequences, a document is its entries, ties in `ORDER BY` keep insertion order. Snapshots are modelled where they are read, not where `record_poll` writes them.
- Rows of `Config::view` are a map by provider; their alphabetical order is not stated. Comments and layout kept by `toml_edit` are not modelled.
- `Config::load`, `write_edit`'s reading and atomic replacement of the file, and file watching.
- `prune_anchors` logs nothing here, and no other logging or error wording is modelled; presenters, render hints, discovery errors and orphaned-history warnings are not either.
- `start_is_uncertain`, `affordable_pace`, `gap_tolerance` and the cap countdown: one-line arithmetic on what is modelled.
- The t table is its source's values; that the interval covers 80% of bursty use is statistics, not proved.
- Terminal rendering, key handling, providers' HTTP and credential code, SSH and pipe transports, spawning, and the reconnect loop.
