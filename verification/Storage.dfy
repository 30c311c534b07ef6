/** The two tables a restart reads back, as sequences of rows in insertion
    order, with the millisecond columns the schema gives them. */
module Storage {
  import opened Time
  import opened Collections
  import opened Domain
  import opened Rollover

  datatype Db = Db(events: seq<PollEvent>, rollovers: seq<WindowRollover>)

  const EMPTY_DB := Db([], [])

  function Truncated(ts: Instant): Instant {
    FromMillis(ToMillis(ts))
  }

  /** What a millisecond column does to an instant. */
  lemma TruncatedLaws(ts: Instant, later: Instant)
    ensures ts - MILLI < Truncated(ts) <= ts && WholeMillis(Truncated(ts))
    ensures Truncated(ts) == ts <==> WholeMillis(ts)
    ensures ts <= later ==> Truncated(ts) <= Truncated(later)
  {
  }

  function TruncatedOption(ts: Option<Instant>): Option<Instant> {
    if ts.Some? then Some(Truncated(ts.value)) else None
  }

  /** A poll as its row reads back: `ts` is a millisecond column, the outcome
      is stored losslessly. */
  function StoredEvent(e: PollEvent): PollEvent {
    e.(ts := Truncated(e.ts))
  }

  function StoredPoll(e: Option<PollEvent>): Option<PollEvent> {
    if e.Some? then Some(StoredEvent(e.value)) else None
  }

  function StoredEvents(es: seq<PollEvent>): seq<PollEvent> {
    seq(|es|, i requires 0 <= i < |es| => StoredEvent(es[i]))
  }

  function StoredRollover(r: WindowRollover): WindowRollover {
    r.(observedAt := Truncated(r.observedAt),
       prevResetAt := TruncatedOption(r.prevResetAt),
       newResetAt := TruncatedOption(r.newResetAt),
       prevObservedAt := TruncatedOption(r.prevObservedAt))
  }

  predicate IsRounded(was: Option<Instant>, stored: Option<Instant>) {
    (was.Some? <==> stored.Some?)
    && (was.Some? ==> stored.value % 1_000_000 == 0 && stored.value <= was.value < stored.value + 1_000_000)
  }

  /** A rollover comes back with each of its instants rounded down to the
      millisecond, and otherwise as it was. */
  lemma StoredRowIsRounded(r: WindowRollover)
    ensures var s := StoredRollover(r);
      && IsRounded(Some(r.observedAt), Some(s.observedAt)) && IsRounded(r.prevResetAt, s.prevResetAt)
      && IsRounded(r.newResetAt, s.newResetAt) && IsRounded(r.prevObservedAt, s.prevObservedAt)
      && s.account == r.account && s.window == r.window && s.poll == r.poll && s.kind == r.kind
      && s.prevUsed == r.prevUsed && s.newUsed == r.newUsed
  {
  }

  function StoredRollovers(rs: seq<WindowRollover>): seq<WindowRollover> {
    seq(|rs|, i requires 0 <= i < |rs| => StoredRollover(rs[i]))
  }

  /** `record_poll`, when its transaction commits. */
  function RecordPoll(db: Db, event: PollEvent, rollovers: seq<WindowRollover>): Db {
    Db(db.events + [StoredEvent(event)], db.rollovers + StoredRollovers(rollovers))
  }

  function ObservedMillis(r: WindowRollover): int {
    ToMillis(r.observedAt)
  }

  function InRange(account: AccountId, since: Instant, until: Instant): WindowRollover -> bool {
    (r: WindowRollover) =>
      r.account == account && ToMillis(since) <= ToMillis(r.observedAt) <= ToMillis(until)
  }

  /** One account's rollovers within `since..=until`, oldest first. */
  function Rollovers(db: Db, account: AccountId, since: Instant, until: Instant): seq<WindowRollover> {
    Sort(Filter(db.rollovers, InRange(account, since, until)), ObservedMillis)
  }

  function OfAccount(account: AccountId): PollEvent -> bool {
    (e: PollEvent) => e.account == account
  }

  function SuccessOf(account: AccountId): PollEvent -> bool {
    (e: PollEvent) => e.account == account && e.outcome.Success?
  }

  /** `ORDER BY id DESC LIMIT 1`. */
  function Newest(events: seq<PollEvent>): (r: Option<PollEvent>)
    ensures r.None? <==> events == []
    ensures r.Some? ==> r.value in events && forall e <- events :: e.id <= r.value.id
  {
    if events == [] then None
    else
      var rest := Newest(events[..|events| - 1]);
      var e := events[|events| - 1];
      if rest.Some? && rest.value.id > e.id then rest else Some(e)
  }

  function LatestPollFor(db: Db, account: AccountId): Option<PollEvent> {
    Newest(Filter(db.events, OfAccount(account)))
  }

  /** The `error` column is null exactly for a success. */
  function LatestSuccessFor(db: Db, account: AccountId): Option<PollEvent> {
    Newest(Filter(db.events, SuccessOf(account)))
  }

  function FailureAfter(account: AccountId, floor: Option<PollEvent>): PollEvent -> bool {
    (e: PollEvent) =>
      e.account == account && e.outcome.ErrorMessage().Some? && (floor.Some? ==> e.id > floor.value.id)
  }

  /** Failed polls whose id is past the newest success. */
  function ConsecutiveFailuresFor(db: Db, account: AccountId): nat {
    |Filter(db.events, FailureAfter(account, LatestSuccessFor(db, account)))|
  }

  /** What a range query gives: the account's rows observed in those
      milliseconds, oldest first. */
  lemma RolloversInRange(db: Db, account: AccountId, since: Instant, until: Instant)
    ensures var found := Rollovers(db, account, since, until);
      && SortedBy(found, ObservedMillis)
      && forall r :: r in found <==>
           r in db.rollovers && r.account == account
           && since / 1_000_000 <= r.observedAt / 1_000_000 <= until / 1_000_000
  {
    var chosen := Filter(db.rollovers, InRange(account, since, until));
    FilterMembers(db.rollovers, InRange(account, since, until));
    SortSorted(chosen, ObservedMillis);
    SortMembers(chosen, ObservedMillis);
  }
}
