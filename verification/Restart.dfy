/** What a restarted daemon rebuilds from its database, against what the daemon
    before it was serving. */
module Restart {
  import opened Time
  import opened Collections
  import opened Domain
  import opened Rollover
  import opened Storage
  import opened Daemon

  /** A window's provider schema: what does not move between polls. */
  datatype Schema = Schema(unit: QuotaUnit, limit: Option<real>, span: Duration)

  type Schemas = (AccountId, WindowId) -> Schema

  datatype Step = Poll(event: PollEvent) | Restart(now: Instant) {
    function At(): Instant {
      match this case Poll(e) => e.ts case Restart(now) => now
    }
  }

  /** Start-up reloads every account in turn. */
  function HydratedAll(caches: Caches, accounts: seq<Account>, now: Instant): Caches {
    if accounts == [] then caches
    else Hydrated(HydratedAll(caches, accounts[..|accounts| - 1], now), accounts[|accounts| - 1], now)
  }

  /** The caches after a run of completed polls and restarts, every write
      having gone through. */
  function Reached(steps: seq<Step>, accounts: seq<Account>): Caches {
    if steps == [] then Fresh(EMPTY_DB)
    else
      var before := Reached(steps[..|steps| - 1], accounts);
      match steps[|steps| - 1]
      case Poll(e) => Recorded(before, e, true)
      case Restart(now) => HydratedAll(Fresh(before.db), accounts, now)
  }

  ghost predicate Conforms(e: PollEvent, schemas: Schemas) {
    DistinctIds(WindowsOf(e.outcome))
    && forall w <- WindowsOf(e.outcome) ::
         var s := schemas(e.account, w.id);
         w.unit == s.unit && w.limit == s.limit && w.Span() == Some(s.span) && 0 < s.span <= 21 * 86_400 * SECOND
  }

  ghost predicate Follows(s: Step, before: seq<Step>) {
    match s
    case Poll(e) =>
      forall b <- before :: b.At() <= e.ts && (b.Poll? ==> b.event.id < e.id && b.event.ts < e.ts)
    case Restart(now) => forall b <- before :: b.At() <= now
  }

  ghost predicate DistinctAccounts(accounts: seq<Account>) {
    forall i, j :: 0 <= i < j < |accounts| ==> accounts[i].id != accounts[j].id
  }

  /** Ids and instants increase, every poll belongs to a known account, and
      payloads keep to their schemas. */
  ghost predicate Valid(steps: seq<Step>, accounts: seq<Account>, schemas: Schemas) {
    DistinctAccounts(accounts)
    && (forall i :: 0 <= i < |steps| ==> Follows(steps[i], steps[..i]))
    && forall s <- steps :: s.Poll? ==>
         && Conforms(s.event, schemas)
         && exists a <- accounts :: a.id == s.event.account && a.provider == s.event.provider
  }

  // ----- one window's rows and anchor

  function RowOf(account: AccountId, window: WindowId): WindowRollover -> bool {
    (r: WindowRollover) => r.account == account && r.window == window
  }

  /** What the newest of a window's rows says about its anchor. */
  function Verdict(rows: seq<WindowRollover>): Option<ObservedStart> {
    if rows != [] && rows[|rows| - 1].kind == Unannounced then Some(FromRollover(rows[|rows| - 1])) else None
  }

  function Young(anchor: Option<ObservedStart>, span: Duration, now: Instant): Option<ObservedStart> {
    if anchor.Some? && now - anchor.value.Estimate() <= span then anchor else None
  }

  /** A bracket as its row reads back. */
  function Floored(b: Option<ObservedStart>): Option<ObservedStart> {
    if b.Some? then Some(ObservedStart(Truncated(b.value.notBefore), Truncated(b.value.notAfter))) else None
  }

  /** Reading back moves an estimate to an earlier instant, by less than a
      millisecond. */
  lemma FlooredEstimate(b: ObservedStart)
    ensures b.Estimate() - MILLI < Floored(Some(b)).value.Estimate() <= b.Estimate()
    ensures Floored(Some(b)) == Some(b) <==> WholeMillis(b.notBefore) && WholeMillis(b.notAfter)
    ensures Floored(Floored(Some(b))) == Floored(Some(b))
  {
    TruncatedLaws(b.notBefore, b.notAfter);
    TruncatedLaws(b.notAfter, b.notBefore);
    TruncatedLaws(Truncated(b.notBefore), 0);
    TruncatedLaws(Truncated(b.notAfter), 0);
  }

  /** So what is young as it reads back is young, and what is not misses by less
      than a millisecond. */
  lemma FlooredYouth(b: ObservedStart, span: Duration, now: Instant)
    ensures Young(Floored(Some(b)), span, now).Some? ==> Young(Some(b), span, now).Some?
    ensures Young(Floored(Some(b)), span, now).None? ==> now - b.Estimate() > span - MILLI
  {
    FlooredEstimate(b);
  }

  lemma {:induction false} AppliedAllOne(anchors: Anchors, rs: seq<WindowRollover>, a: AccountId, w: WindowId)
    ensures var mine := Filter(rs, RowOf(a, w));
      Get(AppliedAll(anchors, rs), (a, w)) == if mine == [] then Get(anchors, (a, w)) else Verdict(mine)
  {
    if rs != [] {
      AppliedAllOne(anchors, rs[..|rs| - 1], a, w);
    }
  }

  lemma {:induction false} ReplayedAllOne(
      anchors: Anchors, rs: seq<WindowRollover>, payload: seq<QuotaWindow>, account: AccountId, a: AccountId,
      w: WindowId)
    requires forall r <- rs :: r.account == account
    requires forall r <- rs :: r.window == w && r.kind == Unannounced && Lookup(payload, w).Some?
                          ==> ReplaysAsAReset(r, Lookup(payload, w).value)
    requires a == account ==> (a, w) !in anchors
    ensures Get(ReplayedAll(anchors, rs, payload), (a, w))
         == if a != account then Get(anchors, (a, w))
            else if Lookup(payload, w).Some? then Verdict(Filter(rs, RowOf(a, w)))
            else None
  {
    if rs != [] {
      ReplayedAllOne(anchors, rs[..|rs| - 1], payload, account, a, w);
    }
  }

  /** Rows about a window that count now: announced, or else two readings that on the
      live window's scale, its reset unmoved, would again be an unannounced reset. */
  function CountsNow(a: AccountId, w: WindowId, payload: seq<QuotaWindow>): WindowRollover -> bool {
    (r: WindowRollover) =>
      && r.account == a && r.window == w
      && (r.kind == Unannounced ==>
            var scale := Lookup(payload, w);
            && scale.Some?
            && Classify(scale.value.(used := r.prevUsed), scale.value.(used := r.newUsed), r.observedAt)
               == Some(Unannounced))
  }

  /** Whatever rows are stored, by this rule or an earlier one, replay gives a window
      the verdict of the newest that counts now, if any does. */
  lemma {:induction false} ReplayedExactly(
      anchors: Anchors, rs: seq<WindowRollover>, payload: seq<QuotaWindow>, a: AccountId, w: WindowId)
    ensures var mine := Filter(rs, CountsNow(a, w, payload));
      Get(ReplayedAll(anchors, rs, payload), (a, w)) == if mine == [] then Get(anchors, (a, w)) else Verdict(mine)
  {
    if rs != [] {
      ReplayedExactly(anchors, rs[..|rs| - 1], payload, a, w);
    }
  }

  lemma {:induction false} SpanOf(windows: seq<QuotaWindow>, w: QuotaWindow)
    requires DistinctIds(windows) && w in windows && w.Span().Some?
    ensures w.id in SpansOf(windows) && SpansOf(windows)[w.id] == w.Span().value
  {
    var last := windows[|windows| - 1];
    if last != w {
      SpanOf(windows[..|windows| - 1], w);
    }
  }

  /** Pruning judges a window its payload carries, and no other. */
  lemma PrunedOne(
      anchors: Anchors, account: AccountId, windows: seq<QuotaWindow>, now: Instant, a: AccountId, w: WindowId)
    requires DistinctIds(windows)
    requires forall x <- windows :: x.Span().Some? && x.Span().value > 0
    ensures Get(Pruned(anchors, account, windows, now), (a, w))
         == if a == account && Lookup(windows, w).Some?
            then Young(Get(anchors, (a, w)), Lookup(windows, w).value.Span().value, now)
            else Get(anchors, (a, w))
  {
    var mine := Lookup(windows, w);
    if mine.Some? {
      SpanOf(windows, mine.value);
      assert HasLength(windows);
    }
  }

  /** A length `chrono` can hold. */
  predicate Fits(w: QuotaWindow) {
    w.resetKind.length <= 9_223_372_036_854_775_807 * 1_000_000
  }

  ghost predicate SomeLength(windows: seq<QuotaWindow>) {
    exists w <- windows :: Fits(w) && w.resetKind.length > 0
  }

  /** Whatever the payload, an anchor goes exactly if it is older than its window is
      long, the payload carrying that window and some window with a length; one
      longer than `chrono` can hold has none. */
  lemma PrunedExactly(
      anchors: Anchors, account: AccountId, windows: seq<QuotaWindow>, now: Instant, a: AccountId, id: WindowId)
    requires DistinctIds(windows)
    ensures var w := Lookup(windows, id);
      Get(Pruned(anchors, account, windows, now), (a, id))
      == if a == account && w.Some? && Fits(w.value) && SomeLength(windows)
         then Young(Get(anchors, (a, id)), w.value.resetKind.length, now)
         else Get(anchors, (a, id))
  {
    var w := Lookup(windows, id);
    LengthIsSome(windows);
    if w.Some? && w.value.Span().Some? {
      SpanOf(windows, w.value);
    }
    if id in SpansOf(windows) {
      var x :| x in windows && x.id == id && x.Span() == Some(SpansOf(windows)[id]);
      OnlyOne(windows, x, id);
    }
  }

  lemma LengthIsSome(windows: seq<QuotaWindow>)
    ensures HasLength(windows) <==> SomeLength(windows)
  {
  }

  lemma {:induction false} OnlyOne(windows: seq<QuotaWindow>, x: QuotaWindow, id: WindowId)
    requires DistinctIds(windows) && x in windows && x.id == id
    ensures Lookup(windows, id) == Some(x)
  {
    var last := windows[|windows| - 1];
    if last != x {
      OnlyOne(windows[..|windows| - 1], x, id);
    }
  }

  lemma FoundRows(a: AccountId, prev: seq<QuotaWindow>, last: QuotaWindow,
                  poll: PollId, prevTs: Option<Instant>, ts: Instant, w: WindowId)
    ensures var found := DetectOne(a, prev, last, poll, prevTs, ts);
      && Filter(found, RowOf(a, w)) == (if last.id == w then found else [])
      && forall r <- found :: r.account == a
  {
    var found := DetectOne(a, prev, last, poll, prevTs, ts);
    if last.id == w {
      FilterAll(found, RowOf(a, w));
    } else {
      FilterNone(found, RowOf(a, w));
    }
  }

  lemma LookupLast(next: seq<QuotaWindow>, w: WindowId)
    requires DistinctIds(next) && next != []
    ensures var last := next[|next| - 1];
      DistinctIds(next[..|next| - 1]) &&
      if last.id == w then Lookup(next, w) == Some(last) && Lookup(next[..|next| - 1], w).None?
      else Lookup(next, w) == Lookup(next[..|next| - 1], w)
  {
    assert next[|next| - 1].id == w ==> forall x <- next[..|next| - 1] :: x.id != w;
  }

  lemma {:induction false} DetectOneWindow(
      a: AccountId, prev: seq<QuotaWindow>, next: seq<QuotaWindow>,
      poll: PollId, prevTs: Option<Instant>, ts: Instant, w: WindowId)
    requires DistinctIds(next)
    ensures Filter(Detect(a, prev, next, poll, prevTs, ts), RowOf(a, w))
         == if Lookup(next, w).Some? then DetectOne(a, prev, Lookup(next, w).value, poll, prevTs, ts) else []
    ensures forall r <- Detect(a, prev, next, poll, prevTs, ts) :: r.account == a
  {
    if next != [] {
      var front, last := next[..|next| - 1], next[|next| - 1];
      DetectOneWindow(a, prev, front, poll, prevTs, ts, w);
      var found := DetectOne(a, prev, last, poll, prevTs, ts);
      FilterAppend(Detect(a, prev, front, poll, prevTs, ts), found, RowOf(a, w));
      FoundRows(a, prev, last, poll, prevTs, ts, w);
      LookupLast(next, w);
    }
  }

  lemma {:induction false} FilterStored(rs: seq<WindowRollover>, a: AccountId, w: WindowId)
    ensures Filter(StoredRollovers(rs), RowOf(a, w)) == StoredRollovers(Filter(rs, RowOf(a, w)))
  {
    if rs != [] {
      assert StoredRollovers(rs)[..|rs| - 1] == StoredRollovers(rs[..|rs| - 1]);
      FilterStored(rs[..|rs| - 1], a, w);
    }
  }

  // ----- what every reachable state keeps

  /** Whether a row reads as a collapse on its window's scale. */
  predicate CollapsesUnder(r: WindowRollover, s: Schema) {
    var (prev, new_) := (UtilizationOf(s.unit, r.prevUsed, s.limit), UtilizationOf(s.unit, r.newUsed, s.limit));
    prev.Some? && new_.Some? && IsCollapse(prev.value, new_.value)
  }

  ghost predicate RowOk(r: WindowRollover, schemas: Schemas, t: Instant) {
    && r.prevObservedAt.Some? && r.prevObservedAt.value <= r.observedAt <= t
    && (r.kind == Unannounced ==> CollapsesUnder(r, schemas(r.account, r.window)))
  }

  predicate RowIsStored(r: WindowRollover) {
    WholeMillis(r.observedAt) && (r.prevObservedAt.Some? ==> WholeMillis(r.prevObservedAt.value))
  }

  ghost predicate DbOk(db: Db, schemas: Schemas, t: Instant) {
    && (forall r <- db.rollovers :: RowOk(r, schemas, t) && RowIsStored(r))
    && SortedBy(db.rollovers, ObservedMillis)
    && (forall e <- db.events :: Conforms(e, schemas) && WholeMillis(e.ts) && e.ts <= t)
  }

  function HealthOf(c: Caches, a: Account): Health {
    if (a.provider, a.id) in c.health then c.health[(a.provider, a.id)] else HEALTHY
  }

  function LastError(e: Option<PollEvent>): Option<string> {
    if e.Some? then e.value.outcome.ErrorMessage() else None
  }

  /** The database would give back what the caches hold, to the millisecond. */
  ghost predicate Agrees(c: Caches, a: Account) {
    && StoredPoll(Get(c.latestPoll, a.id)) == LatestPollFor(c.db, a.id)
    && StoredPoll(Get(c.latestSuccess, a.id)) == LatestSuccessFor(c.db, a.id)
    && HealthOf(c, a) == Health(ConsecutiveFailuresFor(c.db, a.id), LastError(LatestPollFor(c.db, a.id)))
  }

  /** The caches hold just what the database gave back. */
  ghost predicate ReadBack(c: Caches, a: Account) {
    && Get(c.latestPoll, a.id) == LatestPollFor(c.db, a.id)
    && Get(c.latestSuccess, a.id) == LatestSuccessFor(c.db, a.id)
    && HealthOf(c, a) == Health(ConsecutiveFailuresFor(c.db, a.id), LastError(LatestPollFor(c.db, a.id)))
  }

  lemma WholeIsStored(e: Option<PollEvent>)
    requires e.Some? ==> WholeMillis(e.value.ts)
    ensures StoredPoll(e) == e
  {
  }

  lemma LatestAreRows(db: Db, a: AccountId, schemas: Schemas, t: Instant)
    requires DbOk(db, schemas, t)
    ensures var poll := LatestPollFor(db, a); poll.Some? ==> WholeMillis(poll.value.ts)
    ensures var success := LatestSuccessFor(db, a);
      success.Some? ==>
        var p := success.value;
        WholeMillis(p.ts) && Conforms(p, schemas) && p.account == a && p.ts <= t
  {
    FilterMembers(db.events, OfAccount(a));
    FilterMembers(db.events, SuccessOf(a));
  }

  lemma ReadBackAgrees(c: Caches, a: Account, schemas: Schemas, t: Instant)
    requires ReadBack(c, a) && DbOk(c.db, schemas, t)
    ensures Agrees(c, a) && BaselineOk(c, a.id, schemas, t)
  {
    LatestAreRows(c.db, a.id, schemas, t);
    WholeIsStored(Get(c.latestPoll, a.id));
    WholeIsStored(Get(c.latestSuccess, a.id));
  }

  lemma StoredRowOk(r: WindowRollover, schemas: Schemas, t: Instant)
    requires RowOk(r, schemas, t)
    ensures RowOk(StoredRollover(r), schemas, t) && RowIsStored(StoredRollover(r))
    ensures ObservedMillis(StoredRollover(r)) == ObservedMillis(r)
  {
    TruncatedLaws(r.observedAt, r.observedAt);
    TruncatedLaws(r.prevObservedAt.value, r.observedAt);
  }

  lemma NewestOfAppend(events: seq<PollEvent>, e: PollEvent)
    requires forall x <- events :: x.id < e.id
    ensures Newest(events + [e]) == Some(e)
  {
    assert (events + [e])[..|events|] == events;
  }

  /** How the three queries answer once one more poll is in the table. */
  lemma QueriesAfterPoll(db: Db, db': Db, e: PollEvent, a: AccountId)
    requires db'.events == db.events + [e]
    requires forall x <- db.events :: x.id < e.id
    ensures LatestPollFor(db', a) == if e.account == a then Some(e) else LatestPollFor(db, a)
    ensures LatestSuccessFor(db', a)
         == if e.account == a && e.outcome.Success? then Some(e) else LatestSuccessFor(db, a)
  {
    FilterAppend(db.events, [e], OfAccount(a));
    FilterAppend(db.events, [e], SuccessOf(a));
    FilterMembers(db.events, OfAccount(a));
    FilterMembers(db.events, SuccessOf(a));
    NewestOfAppend(Filter(db.events, OfAccount(a)), e);
    NewestOfAppend(Filter(db.events, SuccessOf(a)), e);
    assert Filter([e], OfAccount(a)) == if e.account == a then [e] else [];
    assert Filter([e], SuccessOf(a)) == if e.account == a && e.outcome.Success? then [e] else [];
  }

  lemma FailuresAfterPoll(db: Db, db': Db, e: PollEvent, a: AccountId)
    requires db'.events == db.events + [e]
    requires forall x <- db.events :: x.id < e.id
    ensures ConsecutiveFailuresFor(db', a)
         == if e.account != a then ConsecutiveFailuresFor(db, a)
            else if e.outcome.Success? then 0
            else ConsecutiveFailuresFor(db, a) + 1
  {
    QueriesAfterPoll(db, db', e, a);
    FilterMembers(db.events, SuccessOf(a));
    var late := FailureAfter(a, LatestSuccessFor(db', a));
    FilterAppend(db.events, [e], late);
    assert Filter([e], late) == if late(e) then [e] else [];
    if e.account == a && e.outcome.Success? {
      FilterNone(db.events, late);
    }
  }

  /** One poll's part in what the caches and the table share. */
  ghost predicate Moved(c: Caches, c': Caches, e: PollEvent) {
    && c'.db.events == c.db.events + [StoredEvent(e)]
    && c'.latestPoll == c.latestPoll[e.account := e]
    && c'.latestSuccess == (if e.outcome.Success? then c.latestSuccess[e.account := e] else c.latestSuccess)
    && (forall a: Account :: HealthOf(c', a) ==
          if (a.provider, a.id) != (e.provider, e.account) then HealthOf(c, a)
          else if e.outcome.Success? then HEALTHY
          else Health(HealthOf(c, a).failures + 1, e.outcome.ErrorMessage()))
  }

  lemma AgreesAfterMove(c: Caches, c': Caches, e: PollEvent, a: Account)
    requires Agrees(c, a) && Moved(c, c', e)
    requires forall x <- c.db.events :: x.id < e.id
    requires e.account == a.id ==> e.provider == a.provider
    ensures Agrees(c', a)
  {
    QueriesAfterPoll(c.db, c'.db, StoredEvent(e), a.id);
    FailuresAfterPoll(c.db, c'.db, StoredEvent(e), a.id);
  }

  lemma AgreesAfterPoll(c: Caches, e: PollEvent, a: Account)
    requires Agrees(c, a)
    requires forall x <- c.db.events :: x.id < e.id
    requires e.account == a.id ==> e.provider == a.provider
    ensures Agrees(Recorded(c, e, true), a)
  {
    var c' := Recorded(c, e, true);
    assert Moved(c, c', e);
    AgreesAfterMove(c, c', e, a);
  }

  /** The poll the next one is compared with is a conforming one of its account. */
  ghost predicate BaselineOk(c: Caches, a: AccountId, schemas: Schemas, t: Instant) {
    a in c.latestSuccess ==>
      var p := c.latestSuccess[a];
      Conforms(p, schemas) && p.account == a && p.ts <= t
  }

  lemma DetectedOk(c: Caches, e: PollEvent, schemas: Schemas)
    requires Conforms(e, schemas)
    requires BaselineOk(c, e.account, schemas, e.ts)
    ensures forall r <- RolloversOf(c, e) ::
      r.account == e.account && r.observedAt == e.ts && RowOk(r, schemas, e.ts)
  {
    var prev := Get(c.latestSuccess, e.account);
    DetectedOkUpTo(e, prev, WindowsOf(e.outcome), schemas);
  }

  lemma {:induction false} DetectedOkUpTo(
      e: PollEvent, prev: Option<PollEvent>, next: seq<QuotaWindow>, schemas: Schemas)
    requires forall w <- next :: w.unit == schemas(e.account, w.id).unit && w.limit == schemas(e.account, w.id).limit
    requires prev.Some? ==>
      Conforms(prev.value, schemas) && prev.value.account == e.account && prev.value.ts <= e.ts
    ensures forall r <- Detect(e.account, PreviousWindows(prev), next, e.id, PreviousTs(prev), e.ts) ::
      r.account == e.account && r.observedAt == e.ts && RowOk(r, schemas, e.ts)
  {
    if next != [] {
      DetectedOkUpTo(e, prev, next[..|next| - 1], schemas);
    }
  }

  lemma RowsOkAfterPoll(db: Db, rows: seq<WindowRollover>, e: PollEvent, schemas: Schemas, t: Instant)
    requires DbOk(db, schemas, t) && t <= e.ts
    requires forall r <- rows :: RowOk(r, schemas, e.ts) && r.observedAt == e.ts
    ensures var all := db.rollovers + StoredRollovers(rows);
      (forall r <- all :: RowOk(r, schemas, e.ts) && RowIsStored(r)) && SortedBy(all, ObservedMillis)
  {
    forall r <- StoredRollovers(rows)
      ensures RowOk(r, schemas, e.ts) && RowIsStored(r) && ObservedMillis(r) == ToMillis(e.ts)
    {
      var i :| 0 <= i < |rows| && r == StoredRollover(rows[i]);
      assert rows[i] in rows;
      StoredRowOk(rows[i], schemas, e.ts);
    }
    forall r <- db.rollovers ensures ObservedMillis(r) <= ToMillis(e.ts) {
      assert RowOk(r, schemas, t);
    }
  }

  lemma DbOkAfterPoll(c: Caches, e: PollEvent, schemas: Schemas, t: Instant)
    requires DbOk(c.db, schemas, t) && t <= e.ts
    requires Conforms(e, schemas) && BaselineOk(c, e.account, schemas, t)
    ensures DbOk(Recorded(c, e, true).db, schemas, e.ts)
  {
    DetectedOk(c, e, schemas);
    RowsOkAfterPoll(c.db, RolloversOf(c, e), e, schemas, t);
    TruncatedLaws(e.ts, e.ts);
  }

  /** Live, a window's anchor reads back as its newest row's verdict, unless that
      bracket outlived the window and was pruned. */
  ghost predicate AnchorOk(c: Caches, a: AccountId, w: WindowId, schemas: Schemas, t: Instant) {
    var verdict := Verdict(Filter(c.db.rollovers, RowOf(a, w)));
    var live := Get(c.anchors, (a, w));
    Floored(live) == verdict || (live.None? && Young(verdict, schemas(a, w).span, t).None?)
  }

  /** Without looking at restarts: an anchor that is served at all reads back as
      the newest row's verdict. */
  ghost predicate AnchorSound(c: Caches, a: AccountId, w: WindowId) {
    var live := Get(c.anchors, (a, w));
    live.None? || Floored(live) == Verdict(Filter(c.db.rollovers, RowOf(a, w)))
  }

  lemma VerdictAfterRows(old_: seq<WindowRollover>, rows: seq<WindowRollover>, a: AccountId, w: WindowId)
    ensures var found := Filter(rows, RowOf(a, w));
      Verdict(Filter(old_ + StoredRollovers(rows), RowOf(a, w)))
      == if found == [] then Verdict(Filter(old_, RowOf(a, w))) else Floored(Verdict(found))
  {
    FilterAppend(old_, StoredRollovers(rows), RowOf(a, w));
    FilterStored(rows, a, w);
  }

  /** The rows one poll adds for a window: at most one, and only if the poll is
      of that account and its payload carries the window. */
  lemma FoundByPoll(c: Caches, e: PollEvent, a: AccountId, w: WindowId)
    requires DistinctIds(WindowsOf(e.outcome))
    ensures Filter(RolloversOf(c, e), RowOf(a, w)) != [] ==> a == e.account && Lookup(WindowsOf(e.outcome), w).Some?
  {
    var prev := Get(c.latestSuccess, e.account);
    DetectOneWindow(e.account, PreviousWindows(prev), WindowsOf(e.outcome), e.id, PreviousTs(prev), e.ts, w);
    if a != e.account {
      FilterNone(RolloversOf(c, e), RowOf(a, w));
    }
  }

  /** What the table says reads back as itself. */
  lemma VerdictReadsBack(rows: seq<WindowRollover>, schemas: Schemas, t: Instant, a: AccountId, w: WindowId)
    requires forall r <- rows :: RowOk(r, schemas, t) && RowIsStored(r)
    ensures Floored(Verdict(Filter(rows, RowOf(a, w)))) == Verdict(Filter(rows, RowOf(a, w)))
  {
    FilterMembers(rows, RowOf(a, w));
  }

  /** The poll adds a row about the window. */
  predicate Tells(c: Caches, e: PollEvent, a: AccountId, w: WindowId) {
    Filter(RolloversOf(c, e), RowOf(a, w)) != []
  }

  lemma AnchorAfterPoll(c: Caches, e: PollEvent, schemas: Schemas, t: Instant, a: AccountId, w: WindowId)
    requires t <= e.ts
    requires Conforms(e, schemas)
    requires BaselineOk(c, e.account, schemas, e.ts)
    ensures AnchorOk(c, a, w, schemas, t) || Tells(c, e, a, w) ==> AnchorOk(Recorded(c, e, true), a, w, schemas, e.ts)
    ensures (a, w) !in c.anchors && !Tells(c, e, a, w) ==> (a, w) !in Recorded(c, e, true).anchors
    ensures AnchorSound(c, a, w) ==> AnchorSound(Recorded(c, e, true), a, w)
  {
    DetectedOk(c, e, schemas);
    VerdictAfterRows(c.db.rollovers, RolloversOf(c, e), a, w);
    FoundByPoll(c, e, a, w);
    AppliedAllOne(c.anchors, RolloversOf(c, e), a, w);
    var applied := AppliedAll(c.anchors, RolloversOf(c, e));
    PrunedOne(applied, e.account, WindowsOf(e.outcome), e.ts, a, w);
    if (a, w) in applied {
      FlooredYouth(applied[(a, w)], schemas(a, w).span, e.ts);
    }
  }

  // ----- replay

  /** What hydration serves for one window. */
  ghost function ColdAnchor(db: Db, a: AccountId, w: WindowId, schemas: Schemas, now: Instant): Option<ObservedStart> {
    if Lookup(PreviousWindows(LatestSuccessFor(db, a)), w).Some?
    then Young(Verdict(Filter(db.rollovers, RowOf(a, w))), schemas(a, w).span, now)
    else None
  }

  /** Replaying only the last 21 days loses no anchor a window could still
      have, since no window is longer than that. */
  lemma LookbackSuffices(db: Db, schemas: Schemas, t: Instant, now: Instant, a: AccountId, w: WindowId)
    requires DbOk(db, schemas, t) && t <= now
    requires schemas(a, w).span <= 21 * 86_400 * SECOND
    ensures Young(Verdict(Filter(Rollovers(db, a, now - ANCHOR_LOOKBACK, now), RowOf(a, w))), schemas(a, w).span, now)
         == Young(Verdict(Filter(db.rollovers, RowOf(a, w))), schemas(a, w).span, now)
  {
    var since := now - ANCHOR_LOOKBACK;
    FilterSorted(db.rollovers, InRange(a, since, now), ObservedMillis);
    SortOfSorted(Filter(db.rollovers, InRange(a, since, now)), ObservedMillis);
    FilterNewest(db.rollovers, RowOf(a, w), InRange(a, since, now), ObservedMillis, ToMillis(since));
    var all := Filter(db.rollovers, RowOf(a, w));
    if all != [] {
      FilterMembers(db.rollovers, RowOf(a, w));
      var r := all[|all| - 1];
      assert RowOk(r, schemas, t);
      assert FromRollover(r).Estimate() <= r.observedAt;
    }
  }

  lemma StoredRowsReplay(db: Db, schemas: Schemas, t: Instant, a: AccountId, since: Instant, until: Instant)
    requires DbOk(db, schemas, t)
    ensures forall r <- Rollovers(db, a, since, until) :: r.account == a && RowOk(r, schemas, t)
  {
    FilterMembers(db.rollovers, InRange(a, since, until));
    SortMembers(Filter(db.rollovers, InRange(a, since, until)), ObservedMillis);
  }

  lemma HydratedAnchor(c: Caches, acc: Account, now: Instant, schemas: Schemas, t: Instant, a: AccountId, w: WindowId)
    requires DbOk(c.db, schemas, t) && t <= now
    requires acc.id !in c.latestSuccess
    requires a == acc.id ==> (a, w) !in c.anchors
    ensures Get(Hydrated(c, acc, now).anchors, (a, w))
         == if a == acc.id then ColdAnchor(c.db, a, w, schemas, now) else Get(c.anchors, (a, w))
  {
    var latest := LatestSuccessFor(c.db, acc.id);
    var payload := PreviousWindows(latest);
    var rows := Rollovers(c.db, acc.id, now - ANCHOR_LOOKBACK, now);
    assert Get(Restore(c.latestSuccess, acc.id, latest), acc.id) == latest;
    FilterMembers(c.db.events, SuccessOf(acc.id));
    StoredRowsReplay(c.db, schemas, t, acc.id, now - ANCHOR_LOOKBACK, now);
    ReplayedAllOne(c.anchors, rows, payload, acc.id, a, w);
    PrunedOne(ReplayedAll(c.anchors, rows, payload), acc.id, payload, now, a, w);
    if a == acc.id && Lookup(payload, w).Some? {
      LookbackSuffices(c.db, schemas, t, now, a, w);
    }
  }

  lemma HydratedAgrees(c: Caches, acc: Account, now: Instant)
    requires acc.id !in c.latestPoll && acc.id !in c.latestSuccess
    ensures ReadBack(Hydrated(c, acc, now), acc)
  {
  }

  /** Reloading one account touches nothing another account is served from. */
  lemma HydratedFrame(c: Caches, b: Account, now: Instant, acc: Account)
    requires b.id != acc.id
    ensures var c' := Hydrated(c, b, now);
      && c'.db == c.db
      && Get(c'.latestPoll, acc.id) == Get(c.latestPoll, acc.id)
      && Get(c'.latestSuccess, acc.id) == Get(c.latestSuccess, acc.id)
      && HealthOf(c', acc) == HealthOf(c, acc)
  {
  }

  /** Reloading some accounts leaves every other one untouched. */
  lemma {:induction false} HydratedAllFrame(db: Db, accounts: seq<Account>, now: Instant, acc: Account)
    requires forall x <- accounts :: x.id != acc.id
    ensures HydratedAll(Fresh(db), accounts, now).db == db
    ensures acc.id !in HydratedAll(Fresh(db), accounts, now).latestPoll
    ensures acc.id !in HydratedAll(Fresh(db), accounts, now).latestSuccess
  {
    if accounts != [] {
      var front, b := accounts[..|accounts| - 1], accounts[|accounts| - 1];
      HydratedAllFrame(db, front, now, acc);
      assert b in accounts;
      HydratedFrame(HydratedAll(Fresh(db), front, now), b, now, acc);
    }
  }

  lemma {:induction false} HydratedAllAgrees(db: Db, accounts: seq<Account>, now: Instant, acc: Account)
    requires DistinctAccounts(accounts)
    ensures HydratedAll(Fresh(db), accounts, now).db == db
    ensures acc in accounts ==> ReadBack(HydratedAll(Fresh(db), accounts, now), acc)
  {
    if accounts != [] {
      var front, b := accounts[..|accounts| - 1], accounts[|accounts| - 1];
      var c := HydratedAll(Fresh(db), front, now);
      HydratedAllAgrees(db, front, now, acc);
      if b == acc {
        HydratedAllFrame(db, front, now, b);
        HydratedAgrees(c, b, now);
      } else if acc in accounts {
        HydratedFrame(c, b, now, acc);
      }
    }
  }

  type Hydrator = (Caches, Account) -> Caches

  function HydratorAt(now: Instant): Hydrator {
    (c: Caches, b: Account) => Hydrated(c, b, now)
  }

  function Folded(caches: Caches, accounts: seq<Account>, hydrate: Hydrator): Caches {
    if accounts == [] then caches
    else hydrate(Folded(caches, accounts[..|accounts| - 1], hydrate), accounts[|accounts| - 1])
  }

  lemma {:induction false} HydratedAllFolds(caches: Caches, accounts: seq<Account>, now: Instant)
    ensures HydratedAll(caches, accounts, now) == Folded(caches, accounts, HydratorAt(now))
  {
    if accounts != [] {
      HydratedAllFolds(caches, accounts[..|accounts| - 1], now);
    }
  }

  /** Each account's reload gives the window its `cold` anchor, if the account
      is its own, and otherwise leaves the anchor and the baseline alone. */
  ghost predicate Rebuilds(hydrate: Hydrator, db: Db, a: AccountId, w: WindowId, cold: Option<ObservedStart>) {
    forall c: Caches, b: Account :: Rebuilt(c, b, hydrate(c, b), db, a, w, cold)
  }

  ghost predicate Rebuilt(
      c: Caches, b: Account, c': Caches, db: Db, a: AccountId, w: WindowId, cold: Option<ObservedStart>)
  {
    c.db == db ==>
      && c'.db == db
      && (forall x: AccountId :: x in c'.latestSuccess ==> x in c.latestSuccess || x == b.id)
      && (b.id !in c.latestSuccess && (a == b.id ==> (a, w) !in c.anchors) ==>
            Get(c'.anchors, (a, w)) == if a == b.id then cold else Get(c.anchors, (a, w)))
  }

  lemma HydratorRebuilds(db: Db, now: Instant, schemas: Schemas, t: Instant, a: AccountId, w: WindowId)
    requires DbOk(db, schemas, t) && t <= now
    ensures Rebuilds(HydratorAt(now), db, a, w, ColdAnchor(db, a, w, schemas, now))
  {
    forall c: Caches, b: Account
      ensures Rebuilt(c, b, HydratorAt(now)(c, b), db, a, w, ColdAnchor(db, a, w, schemas, now))
    {
      if c.db == db && b.id !in c.latestSuccess && (a == b.id ==> (a, w) !in c.anchors) {
        HydratedAnchor(c, b, now, schemas, t, a, w);
      }
    }
  }

  lemma {:induction false} FoldedAnchor(
      db: Db, accounts: seq<Account>, hydrate: Hydrator, a: AccountId, w: WindowId, cold: Option<ObservedStart>)
    requires Rebuilds(hydrate, db, a, w, cold) && DistinctAccounts(accounts)
    ensures var c := Folded(Fresh(db), accounts, hydrate);
      && c.db == db
      && (forall x: AccountId :: x in c.latestSuccess ==> exists b <- accounts :: b.id == x)
      && (Get(c.anchors, (a, w)) == if exists b <- accounts :: b.id == a then cold else None)
  {
    if accounts != [] {
      var front, b := accounts[..|accounts| - 1], accounts[|accounts| - 1];
      FoldedAnchor(db, front, hydrate, a, w, cold);
      var c := Folded(Fresh(db), front, hydrate);
      assert Rebuilt(c, b, hydrate(c, b), db, a, w, cold);
      assert forall x <- front :: x.id != b.id;
      assert b in accounts && forall x <- accounts :: x in front || x == b;
    }
  }

  lemma HydratedAllAnchor(
      db: Db, accounts: seq<Account>, now: Instant, schemas: Schemas, t: Instant, acc: Account, w: WindowId)
    requires DbOk(db, schemas, t) && t <= now && DistinctAccounts(accounts) && acc in accounts
    ensures Get(HydratedAll(Fresh(db), accounts, now).anchors, (acc.id, w)) == ColdAnchor(db, acc.id, w, schemas, now)
  {
    HydratedAllFolds(Fresh(db), accounts, now);
    HydratorRebuilds(db, now, schemas, t, acc.id, w);
    FoldedAnchor(db, accounts, HydratorAt(now), acc.id, w, ColdAnchor(db, acc.id, w, schemas, now));
  }

  lemma HydratedAllOne(
      db: Db, accounts: seq<Account>, now: Instant, schemas: Schemas, t: Instant, acc: Account, w: WindowId)
    requires DbOk(db, schemas, t) && t <= now && DistinctAccounts(accounts) && acc in accounts
    ensures HydratedAll(Fresh(db), accounts, now).db == db
    ensures ReadBack(HydratedAll(Fresh(db), accounts, now), acc)
    ensures Get(HydratedAll(Fresh(db), accounts, now).anchors, (acc.id, w)) == ColdAnchor(db, acc.id, w, schemas, now)
  {
    HydratedAllAgrees(db, accounts, now, acc);
    HydratedAllAnchor(db, accounts, now, schemas, t, acc, w);
  }

  function PollsOf(steps: seq<Step>): seq<PollEvent> {
    if steps == [] then []
    else
      var front := PollsOf(steps[..|steps| - 1]);
      if steps[|steps| - 1].Poll? then front + [steps[|steps| - 1].event] else front
  }

  lemma {:induction false} PollsOfMembers(steps: seq<Step>)
    ensures forall e <- PollsOf(steps) :: Poll(e) in steps
  {
    if steps != [] {
      PollsOfMembers(steps[..|steps| - 1]);
    }
  }

  lemma StoreOneMore(es: seq<PollEvent>, e: PollEvent)
    ensures StoredEvents(es + [e]) == StoredEvents(es) + [StoredEvent(e)]
  {
  }

  /** The table of every reachable daemon holds every poll of the run, to the
      millisecond. */
  lemma {:induction false} TableHoldsThePolls(steps: seq<Step>, accounts: seq<Account>, acc: Account)
    requires DistinctAccounts(accounts)
    ensures Reached(steps, accounts).db.events == StoredEvents(PollsOf(steps))
  {
    if steps != [] {
      var front, last := steps[..|steps| - 1], steps[|steps| - 1];
      TableHoldsThePolls(front, accounts, acc);
      match last
      case Poll(e) => StoreOneMore(PollsOf(front), e);
      case Restart(now) => HydratedAllAgrees(Reached(front, accounts).db, accounts, now, acc);
    }
  }

  lemma TableIdsBelow(steps: seq<Step>, accounts: seq<Account>, e: PollEvent, acc: Account)
    requires DistinctAccounts(accounts) && Follows(Poll(e), steps)
    ensures forall x <- Reached(steps, accounts).db.events :: x.id < e.id
  {
    TableHoldsThePolls(steps, accounts, acc);
    PollsOfMembers(steps);
    var polls := PollsOf(steps);
    forall x <- StoredEvents(polls) ensures x.id < e.id {
      var i :| 0 <= i < |polls| && x == StoredEvent(polls[i]);
      assert polls[i] in polls && Poll(polls[i]) in steps;
    }
  }

  /** The table conforms, and the caches of the account agree with it. */
  ghost predicate Sound(c: Caches, a: Account, schemas: Schemas, t: Instant) {
    DbOk(c.db, schemas, t) && Agrees(c, a) && BaselineOk(c, a.id, schemas, t)
  }

  lemma BaselineAfterPoll(c: Caches, e: PollEvent, a: AccountId, schemas: Schemas, t: Instant)
    requires BaselineOk(c, a, schemas, t) && t <= e.ts && Conforms(e, schemas)
    ensures BaselineOk(Recorded(c, e, true), a, schemas, e.ts)
  {
  }

  lemma SoundAfterPoll(c: Caches, e: PollEvent, a: Account, owner: Account, schemas: Schemas, t: Instant)
    requires Sound(c, a, schemas, t) && Sound(c, owner, schemas, t) && t <= e.ts && Conforms(e, schemas)
    requires owner.id == e.account && owner.provider == e.provider
    requires e.account == a.id ==> e.provider == a.provider
    requires forall x <- c.db.events :: x.id < e.id
    ensures Sound(Recorded(c, e, true), a, schemas, e.ts)
  {
    AgreesAfterPoll(c, e, a);
    BaselineAfterPoll(c, e, a.id, schemas, t);
    DbOkAfterPoll(c, e, schemas, t);
  }

  lemma OneOwner(accounts: seq<Account>, a: Account, b: Account)
    requires DistinctAccounts(accounts) && a in accounts && b in accounts && a.id == b.id
    ensures a == b
  {
  }

  lemma SoundLater(c: Caches, a: Account, schemas: Schemas, t: Instant, later: Instant)
    requires Sound(c, a, schemas, t) && t <= later
    ensures Sound(c, a, schemas, later)
  {
    forall r <- c.db.rollovers ensures RowOk(r, schemas, later) {
      assert RowOk(r, schemas, t);
    }
  }

  /** Every reachable daemon's caches agree with its own database. */
  lemma {:induction false} ReachedAgrees(
      steps: seq<Step>, accounts: seq<Account>, schemas: Schemas, t: Instant, acc: Account)
    requires Valid(steps, accounts, schemas) && acc in accounts
    requires forall s <- steps :: s.At() <= t
    ensures Sound(Reached(steps, accounts), acc, schemas, t)
  {
    if steps != [] {
      var front, last := steps[..|steps| - 1], steps[|steps| - 1];
      assert Follows(last, front);
      ValidPrefix(steps, accounts, schemas);
      ReachedAgrees(front, accounts, schemas, last.At(), acc);
      var c := Reached(front, accounts);
      match last
      case Poll(e) =>
        var owner :| owner in accounts && owner.id == e.account && owner.provider == e.provider;
        ReachedAgrees(front, accounts, schemas, last.At(), owner);
        TableIdsBelow(front, accounts, e, acc);
        if e.account == acc.id {
          OneOwner(accounts, owner, acc);
        }
        SoundAfterPoll(c, e, acc, owner, schemas, e.ts);
        SoundLater(Recorded(c, e, true), acc, schemas, e.ts, t);
      case Restart(now) =>
        var c' := HydratedAll(Fresh(c.db), accounts, now);
        HydratedAllOne(c.db, accounts, now, schemas, now, acc, "");
        ReadBackAgrees(c', acc, schemas, now);
        SoundLater(c', acc, schemas, now, t);
    }
  }

  lemma ValidPrefix(steps: seq<Step>, accounts: seq<Account>, schemas: Schemas)
    requires Valid(steps, accounts, schemas) && steps != []
    ensures Valid(steps[..|steps| - 1], accounts, schemas)
  {
    var front := steps[..|steps| - 1];
    forall i | 0 <= i < |front| ensures Follows(front[i], front[..i]) {
      assert front[..i] == steps[..i];
    }
  }

  ghost predicate InLatest(c: Caches, a: AccountId, w: WindowId) {
    Lookup(PreviousWindows(Get(c.latestSuccess, a)), w).Some?
  }

  /** The window's anchor, if it has one, is still known: since its newest row
      was added no restart has come, or at the last one the window was in the
      newest payload or had nothing to lose. */
  ghost predicate Remembered(steps: seq<Step>, accounts: seq<Account>, a: AccountId, w: WindowId) {
    steps != [] ==>
      var (front, last) := (steps[..|steps| - 1], steps[|steps| - 1]);
      var c := Reached(front, accounts);
      match last
      case Poll(e) => Tells(c, e, a, w) || Remembered(front, accounts, a, w)
      case Restart(_) => InLatest(c, a, w) || NothingToLose(c.db, a, w)
  }

  /** The window's newest row, if it has any, is no unannounced restart. */
  predicate NothingToLose(db: Db, a: AccountId, w: WindowId) {
    Verdict(Filter(db.rollovers, RowOf(a, w))).None?
  }

  lemma AnchorOkLater(c: Caches, a: AccountId, w: WindowId, schemas: Schemas, t: Instant, later: Instant)
    requires AnchorOk(c, a, w, schemas, t) && t <= later
    ensures AnchorOk(c, a, w, schemas, later)
  {
  }

  lemma AnchorAfterRestart(
      c: Caches, accounts: seq<Account>, schemas: Schemas, now: Instant, acc: Account, w: WindowId)
    requires Sound(c, acc, schemas, now) && DistinctAccounts(accounts) && acc in accounts
    ensures var c' := HydratedAll(Fresh(c.db), accounts, now);
      && c'.db == c.db && AnchorSound(c', acc.id, w)
      && Get(c'.anchors, (acc.id, w)) == ColdAnchor(c.db, acc.id, w, schemas, now)
      && (InLatest(c, acc.id, w) <==> Lookup(PreviousWindows(LatestSuccessFor(c.db, acc.id)), w).Some?)
      && (InLatest(c, acc.id, w) || NothingToLose(c.db, acc.id, w) ==> AnchorOk(c', acc.id, w, schemas, now))
      && (!InLatest(c, acc.id, w) ==> (acc.id, w) !in c'.anchors)
  {
    HydratedAllOne(c.db, accounts, now, schemas, now, acc, w);
    VerdictReadsBack(c.db.rollovers, schemas, now, acc.id, w);
  }

  lemma {:induction false} ReachedAnchor(
      steps: seq<Step>, accounts: seq<Account>, schemas: Schemas, t: Instant, acc: Account, w: WindowId)
    requires Valid(steps, accounts, schemas) && acc in accounts
    requires forall s <- steps :: s.At() <= t
    ensures AnchorSound(Reached(steps, accounts), acc.id, w)
    ensures Remembered(steps, accounts, acc.id, w) ==> AnchorOk(Reached(steps, accounts), acc.id, w, schemas, t)
    ensures !Remembered(steps, accounts, acc.id, w) ==> (acc.id, w) !in Reached(steps, accounts).anchors
  {
    if steps != [] {
      var front, last := steps[..|steps| - 1], steps[|steps| - 1];
      assert Follows(last, front);
      ValidPrefix(steps, accounts, schemas);
      ReachedAnchor(front, accounts, schemas, last.At(), acc, w);
      var c := Reached(front, accounts);
      match last
      case Poll(e) =>
        var owner :| owner in accounts && owner.id == e.account && owner.provider == e.provider;
        ReachedAgrees(front, accounts, schemas, last.At(), owner);
        AnchorAfterPoll(c, e, schemas, e.ts, acc.id, w);
      case Restart(now) =>
        ReachedAgrees(front, accounts, schemas, last.At(), acc);
        AnchorAfterRestart(c, accounts, schemas, now, acc, w);
      if Remembered(steps, accounts, acc.id, w) {
        AnchorOkLater(Reached(steps, accounts), acc.id, w, schemas, last.At(), t);
      }
    }
  }

  /** Restart refinement: a daemon started on the database at `now` serves the
      latest poll and latest success the one that wrote it served, to the
      millisecond, and the same health; and for each window of the newest payload
      the anchor that one held, to the millisecond, if that is still no older
      than the window is long: exactly so unless an earlier restart made it
      forget a young one, which is then found again. */
  lemma RestartRefinement(
      steps: seq<Step>, accounts: seq<Account>, schemas: Schemas, now: Instant, acc: Account, w: WindowId)
    requires Valid(steps, accounts, schemas) && acc in accounts
    requires forall s <- steps :: s.At() <= now
    ensures var live, cold := Reached(steps, accounts), Reached(steps + [Restart(now)], accounts);
      && Get(cold.latestPoll, acc.id) == StoredPoll(Get(live.latestPoll, acc.id))
      && Get(cold.latestSuccess, acc.id) == StoredPoll(Get(live.latestSuccess, acc.id))
      && HealthOf(cold, acc) == HealthOf(live, acc)
      && (InLatest(live, acc.id, w) ==>
            var young := Young(Verdict(Filter(live.db.rollovers, RowOf(acc.id, w))), schemas(acc.id, w).span, now);
            && Get(cold.anchors, (acc.id, w)) == young
            && (Get(cold.anchors, (acc.id, w))
                == Young(Floored(Get(live.anchors, (acc.id, w))), schemas(acc.id, w).span, now)
                <==> Remembered(steps, accounts, acc.id, w) || young.None?))
      && (!InLatest(live, acc.id, w) ==> Get(cold.anchors, (acc.id, w)).None?)
  {
    var live := Reached(steps, accounts);
    assert (steps + [Restart(now)])[..|steps|] == steps;
    ReachedAgrees(steps, accounts, schemas, now, acc);
    HydratedAllOne(live.db, accounts, now, schemas, now, acc, w);
    AnchorAfterRestart(live, accounts, schemas, now, acc, w);
    ReachedAnchor(steps, accounts, schemas, now, acc, w);
  }

  /** Whatever happened before, a restart never drops or moves a bracket that was
      being served for a window of the newest payload and reads back young. */
  lemma RestartLosesNothing(
      steps: seq<Step>, accounts: seq<Account>, schemas: Schemas, now: Instant, acc: Account, w: WindowId)
    requires Valid(steps, accounts, schemas) && acc in accounts
    requires forall s <- steps :: s.At() <= now
    ensures var live, cold := Reached(steps, accounts), Reached(steps + [Restart(now)], accounts);
      var served := Young(Floored(Get(live.anchors, (acc.id, w))), schemas(acc.id, w).span, now);
      InLatest(live, acc.id, w) && served.Some? ==> Get(cold.anchors, (acc.id, w)) == served
  {
    RestartRefinement(steps, accounts, schemas, now, acc, w);
    ReachedAnchor(steps, accounts, schemas, now, acc, w);
  }

  /** How far "to the millisecond" goes, for anything served across a restart. A
      poll comes back less than a millisecond early, and unchanged exactly when
      its instant is whole. A bracket comes back with both ends rounded down,
      unchanged exactly when both are whole; and it is dropped only within a
      millisecond of the age at which it would have been. */
  lemma RestoredToTheMillisecond(
      steps: seq<Step>, accounts: seq<Account>, schemas: Schemas, now: Instant, acc: Account, w: WindowId)
    requires Valid(steps, accounts, schemas) && acc in accounts
    requires forall s <- steps :: s.At() <= now
    ensures var live, cold := Reached(steps, accounts), Reached(steps + [Restart(now)], accounts);
      && PollRestored(Get(live.latestPoll, acc.id), Get(cold.latestPoll, acc.id))
      && PollRestored(Get(live.latestSuccess, acc.id), Get(cold.latestSuccess, acc.id))
      && (InLatest(live, acc.id, w) && (acc.id, w) in live.anchors ==>
            BracketRestored(live.anchors[(acc.id, w)], Get(cold.anchors, (acc.id, w)), schemas(acc.id, w).span, now))
  {
    RestartRefinement(steps, accounts, schemas, now, acc, w);
    var live := Reached(steps, accounts);
    PollReadsBack(Get(live.latestPoll, acc.id));
    PollReadsBack(Get(live.latestSuccess, acc.id));
    ReachedAnchor(steps, accounts, schemas, now, acc, w);
    if (acc.id, w) in live.anchors {
      FlooredEstimate(live.anchors[(acc.id, w)]);
      FlooredYouth(live.anchors[(acc.id, w)], schemas(acc.id, w).span, now);
      BracketReadsBack(live.anchors[(acc.id, w)]);
    }
  }

  ghost predicate PollRestored(served: Option<PollEvent>, restored: Option<PollEvent>) {
    && (served.None? <==> restored.None?)
    && (served.Some? ==>
          && restored.value.(ts := served.value.ts) == served.value
          && served.value.ts - MILLI < restored.value.ts <= served.value.ts
          && (restored == served <==> WholeMillis(served.value.ts)))
  }

  ghost predicate BracketRestored(
      served: ObservedStart, restored: Option<ObservedStart>, span: Duration, now: Instant)
  {
    match restored
    case Some(b) =>
      && now - served.Estimate() <= span
      && served.notBefore - MILLI < b.notBefore <= served.notBefore
      && served.notAfter - MILLI < b.notAfter <= served.notAfter
      && (b == served <==> WholeMillis(served.notBefore) && WholeMillis(served.notAfter))
    case None => now - served.Estimate() > span - MILLI
  }

  lemma PollReadsBack(served: Option<PollEvent>)
    ensures PollRestored(served, StoredPoll(served))
  {
    if served.Some? {
      TruncatedLaws(served.value.ts, served.value.ts);
    }
  }

  lemma BracketReadsBack(b: ObservedStart)
    ensures var r := Floored(Some(b)).value;
      && b.notBefore - MILLI < r.notBefore <= b.notBefore
      && b.notAfter - MILLI < r.notAfter <= b.notAfter
      && (r == b <==> WholeMillis(b.notBefore) && WholeMillis(b.notAfter))
  {
    TruncatedLaws(b.notBefore, b.notBefore);
    TruncatedLaws(b.notAfter, b.notAfter);
  }

  predicate NoRestarts(steps: seq<Step>) {
    forall s <- steps :: s.Poll?
  }

  /** Within one daemon's lifetime nothing is forgotten. */
  lemma {:induction false} OneLifetimeRemembers(steps: seq<Step>, accounts: seq<Account>, a: AccountId, w: WindowId)
    requires NoRestarts(steps)
    ensures Remembered(steps, accounts, a, w)
  {
    if steps != [] {
      assert steps[|steps| - 1] in steps;
      OneLifetimeRemembers(steps[..|steps| - 1], accounts, a, w);
    }
  }

  /** Failures at the end of a run of polls. */
  function TrailingFailures(events: seq<PollEvent>): nat {
    if events == [] || events[|events| - 1].outcome.Success? then 0
    else 1 + TrailingFailures(events[..|events| - 1])
  }

  lemma FailuresPush(mine: seq<PollEvent>, e: PollEvent)
    ensures TrailingFailures(mine + [e]) == if e.outcome.Success? then 0 else 1 + TrailingFailures(mine)
  {
    assert (mine + [e])[..|mine|] == mine;
  }

  ghost predicate IdsIncrease(events: seq<PollEvent>) {
    forall i, j :: 0 <= i < j < |events| ==> events[i].id < events[j].id
  }

  /** Newest poll, newest success, and the length of the failing streak. */
  ghost predicate AnswersMean(events: seq<PollEvent>, a: AccountId) {
    var db := Db(events, []);
    && LatestPollFor(db, a) == Last(Filter(events, OfAccount(a)))
    && LatestSuccessFor(db, a) == Last(Filter(events, SuccessOf(a)))
    && ConsecutiveFailuresFor(db, a) == TrailingFailures(Filter(events, OfAccount(a)))
  }

  lemma AnswersAfterPoll(front: seq<PollEvent>, events: seq<PollEvent>, e: PollEvent, a: AccountId)
    requires events == front + [e] && AnswersMean(front, a)
    requires forall x <- front :: x.id < e.id
    ensures AnswersMean(events, a)
  {
    QueriesAfterPoll(Db(front, []), Db(events, []), e, a);
    FailuresAfterPoll(Db(front, []), Db(events, []), e, a);
    FilterPush(front, e, SuccessOf(a));
    FilterPush(front, e, OfAccount(a));
    FailuresPush(Filter(front, OfAccount(a)), e);
  }

  /** What the queries answer on a table whose ids increase. */
  lemma {:induction false} QueryMeaning(events: seq<PollEvent>, a: AccountId)
    requires IdsIncrease(events)
    ensures AnswersMean(events, a)
  {
    if events != [] {
      var front, e := events[..|events| - 1], events[|events| - 1];
      QueryMeaning(front, a);
      AnswersAfterPoll(front, events, e, a);
    }
  }

  lemma {:induction false} PollsIncrease(steps: seq<Step>, accounts: seq<Account>, schemas: Schemas)
    requires Valid(steps, accounts, schemas)
    ensures IdsIncrease(PollsOf(steps))
  {
    if steps != [] {
      var front, last := steps[..|steps| - 1], steps[|steps| - 1];
      assert Follows(last, front);
      ValidPrefix(steps, accounts, schemas);
      PollsIncrease(front, accounts, schemas);
      PollsOfMembers(front);
      var polls := PollsOf(front);
      forall i | 0 <= i < |polls| && last.Poll? ensures polls[i].id < last.event.id {
        assert polls[i] in polls;
      }
    }
  }

  lemma {:induction false} FilterStoredEvents(es: seq<PollEvent>, a: AccountId)
    ensures Filter(StoredEvents(es), OfAccount(a)) == StoredEvents(Filter(es, OfAccount(a)))
    ensures Filter(StoredEvents(es), SuccessOf(a)) == StoredEvents(Filter(es, SuccessOf(a)))
  {
    if es != [] {
      var front, e := es[..|es| - 1], es[|es| - 1];
      FilterStoredEvents(front, a);
      StoreOneMore(front, e);
      assert es == front + [e];
      FilterPush(StoredEvents(front), StoredEvent(e), OfAccount(a));
      FilterPush(StoredEvents(front), StoredEvent(e), SuccessOf(a));
      StoreOneMore(Filter(front, OfAccount(a)), e);
      StoreOneMore(Filter(front, SuccessOf(a)), e);
    }
  }

  lemma {:induction false} FailuresStored(es: seq<PollEvent>)
    ensures TrailingFailures(StoredEvents(es)) == TrailingFailures(es)
  {
    if es != [] {
      var front, e := es[..|es| - 1], es[|es| - 1];
      FailuresStored(front);
      assert es == front + [e];
      StoreOneMore(front, e);
      FailuresPush(StoredEvents(front), StoredEvent(e));
    }
  }

  lemma StoredIdsIncrease(es: seq<PollEvent>)
    requires IdsIncrease(es)
    ensures IdsIncrease(StoredEvents(es))
  {
  }

  /** What the table answers after a run. */
  lemma TableAnswers(steps: seq<Step>, accounts: seq<Account>, schemas: Schemas, acc: Account)
    requires Valid(steps, accounts, schemas)
    ensures var db := Reached(steps, accounts).db;
      var polls := PollsOf(steps);
      && LatestPollFor(db, acc.id) == StoredPoll(Last(Filter(polls, OfAccount(acc.id))))
      && LatestSuccessFor(db, acc.id) == StoredPoll(Last(Filter(polls, SuccessOf(acc.id))))
      && ConsecutiveFailuresFor(db, acc.id) == TrailingFailures(Filter(polls, OfAccount(acc.id)))
  {
    var polls := PollsOf(steps);
    TableHoldsThePolls(steps, accounts, acc);
    PollsIncrease(steps, accounts, schemas);
    StoredIdsIncrease(polls);
    QueryMeaning(StoredEvents(polls), acc.id);
    FilterStoredEvents(polls, acc.id);
    FailuresStored(Filter(polls, OfAccount(acc.id)));
  }

  /** A poll held since it was made, or read back since. */
  ghost predicate Held(held: Option<PollEvent>, made: Option<PollEvent>, neverReadBack: bool) {
    held == made || (!neverReadBack && held == StoredPoll(made))
  }

  ghost predicate HoldsNewest(c: Caches, polls: seq<PollEvent>, a: AccountId, neverReadBack: bool) {
    && Held(Get(c.latestPoll, a), Last(Filter(polls, OfAccount(a))), neverReadBack)
    && Held(Get(c.latestSuccess, a), Last(Filter(polls, SuccessOf(a))), neverReadBack)
  }

  lemma HoldsAfterPoll(polls: seq<PollEvent>, c: Caches, e: PollEvent, a: AccountId, neverReadBack: bool)
    requires HoldsNewest(c, polls, a, neverReadBack)
    ensures HoldsNewest(Recorded(c, e, true), polls + [e], a, neverReadBack)
  {
    FilterPush(polls, e, OfAccount(a));
    FilterPush(polls, e, SuccessOf(a));
  }

  lemma HoldsAfterRestart(
      steps: seq<Step>, accounts: seq<Account>, schemas: Schemas, now: Instant, acc: Account)
    requires Valid(steps, accounts, schemas) && acc in accounts
    ensures HoldsNewest(HydratedAll(Fresh(Reached(steps, accounts).db), accounts, now), PollsOf(steps), acc.id, false)
  {
    HydratedAllAgrees(Reached(steps, accounts).db, accounts, now, acc);
    TableAnswers(steps, accounts, schemas, acc);
  }

  lemma RestartsSoFar(steps: seq<Step>)
    requires steps != []
    ensures NoRestarts(steps) <==> NoRestarts(steps[..|steps| - 1]) && steps[|steps| - 1].Poll?
  {
    assert steps == steps[..|steps| - 1] + [steps[|steps| - 1]];
  }

  lemma {:induction false} ReachedHolds(steps: seq<Step>, accounts: seq<Account>, schemas: Schemas, acc: Account)
    requires Valid(steps, accounts, schemas) && acc in accounts
    ensures HoldsNewest(Reached(steps, accounts), PollsOf(steps), acc.id, NoRestarts(steps))
  {
    if steps != [] {
      var front, last := steps[..|steps| - 1], steps[|steps| - 1];
      RestartsSoFar(steps);
      ValidPrefix(steps, accounts, schemas);
      match last
      case Poll(e) =>
        ReachedHolds(front, accounts, schemas, acc);
        HoldsAfterPoll(PollsOf(front), Reached(front, accounts), e, acc.id, NoRestarts(front));
      case Restart(now) =>
        HoldsAfterRestart(front, accounts, schemas, now, acc);
    }
  }

  /** What went wrong in the newest poll, if anything did. */
  ghost predicate SaysWhy(said: Option<string>, newest: Option<PollEvent>) {
    if newest.None? then said.None?
    else
      match newest.value.outcome
      case Success(_) => said.None?
      case AuthError(message) => said == Some(message)
      case NetworkError(message) => said == Some(message)
      case SchemaDrift(message) => said == Some(message)
      case RateLimited(_) => said == Some("rate limited")
  }

  /** What the caches mean: the account's newest poll and its newest success, to
      the millisecond once they were read back, the length of the failing streak it
      is in and what went wrong last, restarts or not. */
  lemma ServedMeaning(steps: seq<Step>, accounts: seq<Account>, schemas: Schemas, t: Instant, acc: Account)
    requires Valid(steps, accounts, schemas) && acc in accounts
    requires forall s <- steps :: s.At() <= t
    ensures var c := Reached(steps, accounts);
      var polls := PollsOf(steps);
      && HoldsNewest(c, polls, acc.id, NoRestarts(steps))
      && HealthOf(c, acc).failures == TrailingFailures(Filter(polls, OfAccount(acc.id)))
      && SaysWhy(HealthOf(c, acc).lastError, Last(Filter(polls, OfAccount(acc.id))))
  {
    ReachedHolds(steps, accounts, schemas, acc);
    TableAnswers(steps, accounts, schemas, acc);
    ReachedAgrees(steps, accounts, schemas, t, acc);
  }

  // ----- writes that fail

  /** Two daemons serve the same, whatever their databases hold. */
  ghost predicate ServesAlike(c: Caches, c': Caches) {
    && c.latestPoll == c'.latestPoll && c.latestSuccess == c'.latestSuccess
    && c.health == c'.health && c.anchors == c'.anchors
  }

  lemma RecordedAlike(c: Caches, c': Caches, e: PollEvent, committed: bool, committed': bool)
    requires ServesAlike(c, c')
    ensures ServesAlike(Recorded(c, e, committed), Recorded(c', e, committed'))
  {
  }

  /** One lifetime from `start` on, `commits` saying which writes went through. */
  function Lived(start: Caches, events: seq<PollEvent>, commits: seq<bool>): Caches
    requires |commits| == |events|
    decreases |events|
  {
    if events == [] then start
    else
      var n := |events| - 1;
      Recorded(Lived(start, events[..n], commits[..n]), events[n], commits[n])
  }

  /** A write that fails costs durability and not truth: whichever writes of a
      lifetime go through, and whatever it started from, it serves the same. */
  lemma {:induction false} FailedWritesCostNoTruth(
      start: Caches, events: seq<PollEvent>, commits: seq<bool>, commits': seq<bool>)
    requires |commits| == |commits'| == |events|
    ensures ServesAlike(Lived(start, events, commits), Lived(start, events, commits'))
    decreases |events|
  {
    if events != [] {
      var n := |events| - 1;
      FailedWritesCostNoTruth(start, events[..n], commits[..n], commits'[..n]);
      RecordedAlike(Lived(start, events[..n], commits[..n]), Lived(start, events[..n], commits'[..n]),
                    events[n], commits[n], commits'[n]);
    }
  }

  /** So does a daemon whose every write went through. */
  lemma {:induction false} LivedAsReached(steps: seq<Step>, accounts: seq<Account>, commits: seq<bool>)
    requires NoRestarts(steps) && |commits| == |PollsOf(steps)|
    ensures ServesAlike(Lived(Fresh(EMPTY_DB), PollsOf(steps), commits), Reached(steps, accounts))
  {
    if steps != [] {
      var front, last := steps[..|steps| - 1], steps[|steps| - 1];
      RestartsSoFar(steps);
      var n := |PollsOf(front)|;
      assert PollsOf(steps) == PollsOf(front) + [last.event] && PollsOf(steps)[..n] == PollsOf(front);
      LivedAsReached(front, accounts, commits[..n]);
      RecordedAlike(Lived(Fresh(EMPTY_DB), PollsOf(front), commits[..n]), Reached(front, accounts),
                    last.event, commits[n], true);
    }
  }
}
