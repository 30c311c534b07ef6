/** The values the daemon, its database and its clients exchange. */
module Domain {
  import opened Time
  import opened Collections

  type ProviderId = string
  type AccountId = string
  type WindowId = string

  /** A ULID, read as a number: the code compares poll ids and nothing else. */
  type PollId = nat

  datatype Account = Account(id: AccountId, provider: ProviderId, name: string)

  datatype QuotaUnit = Percent | Messages | Tokens | Hours

  datatype WindowScope = AccountWide | Model(name: string)

  /** `Rolling` holds a `std::time::Duration`, which is never negative. */
  datatype ResetKind = Rolling(length: nat)

  const U32_MAX: nat := 0xFFFF_FFFF

  /** The longest span `chrono` can hold: `i64::MAX` milliseconds. */
  const MAX_DURATION: Duration := 9_223_372_036_854_775_807 * MILLI

  function Clamp01(x: real): real {
    if x < 0.0 then 0.0 else if x > 1.0 then 1.0 else x
  }

  /** Share of the quota one reading says is spent, when it can be scaled. */
  function UtilizationOf(unit: QuotaUnit, used: real, limit: Option<real>): (r: Option<real>)
    ensures r.Some? ==> 0.0 <= r.value <= 1.0
  {
    if unit == Percent then Some(Clamp01(used / 100.0))
    else if limit.Some? && limit.value > 0.0 then Some(Clamp01(used / limit.value))
    else None
  }

  datatype QuotaWindow = QuotaWindow(
    id: WindowId,
    name: string,
    scope: WindowScope,
    resetKind: ResetKind,
    unit: QuotaUnit,
    used: real,
    limit: Option<real>,
    resetAt: Option<Instant>)
  {
    function Utilization(): Option<real> {
      UtilizationOf(unit, used, limit)
    }

    function Span(): (r: Option<Duration>)
      ensures r.Some? ==> r.value >= 0
    {
      if resetKind.length <= MAX_DURATION then Some(resetKind.length) else None
    }
  }

  datatype ClientKind = Tui | Other(name: string)

  datatype PollTrigger = Scheduled | Manual(client: ClientKind) | Startup

  datatype PollOutcome =
    | Success(windows: seq<QuotaWindow>)
    | AuthError(message: string)
    | NetworkError(message: string)
    | SchemaDrift(message: string)
    | RateLimited(retryAfter: Option<nat>)
  {
    function ErrorMessage(): Option<string> {
      match this
      case Success(_) => None
      case AuthError(m) => Some(m)
      case NetworkError(m) => Some(m)
      case SchemaDrift(m) => Some(m)
      case RateLimited(_) => Some("rate limited")
    }
  }

  datatype PollEvent = PollEvent(
    id: PollId,
    ts: Instant,
    provider: ProviderId,
    account: AccountId,
    trigger: PollTrigger,
    outcome: PollOutcome,
    latencyMs: nat)

  datatype QuotaSnapshot = QuotaSnapshot(
    pollId: PollId,
    ts: Instant,
    window: WindowId,
    name: string,
    unit: QuotaUnit,
    used: real,
    limit: Option<real>,
    resetAt: Option<Instant>)
  {
    function Utilization(): Option<real> {
      UtilizationOf(unit, used, limit)
    }
  }

  function OfWindow(window: WindowId): QuotaSnapshot -> bool {
    (p: QuotaSnapshot) => p.window == window
  }

  function SnapshotTs(p: QuotaSnapshot): Instant {
    p.ts
  }

  /** What a `HashMap` collected from `windows` holds for `id`: the last entry. */
  function Lookup(windows: seq<QuotaWindow>, id: WindowId): (r: Option<QuotaWindow>)
    ensures r.Some? ==> r.value in windows && r.value.id == id
    ensures r.None? ==> forall w <- windows :: w.id != id
  {
    if windows == [] then None
    else if windows[|windows| - 1].id == id then Some(windows[|windows| - 1])
    else Lookup(windows[..|windows| - 1], id)
  }

  ghost predicate DistinctIds(windows: seq<QuotaWindow>) {
    forall i, j :: 0 <= i < j < |windows| ==> windows[i].id != windows[j].id
  }
}
