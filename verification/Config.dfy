/** `config.toml`: what parsing reads out of a document, and what an edit does
    to one. */
module Config {
  import opened Collections
  import opened Domain

  const DEFAULT_POLL_INTERVAL_SECS: nat := 180
  const MIN_POLL_INTERVAL_SECS: nat := 10
  const MAX_POLL_INTERVAL_SECS: nat := U32_MAX

  datatype Result<+T> = Ok(value: T) | Err(error: ConfigError)

  datatype Reason = NotATable | NotABoolean | NotAnInteger | Negative | TooSmall | TooLarge

  datatype ConfigError = ConfigError(path: string, reason: Reason)

  datatype ProviderConfig = ProviderConfig(enabled: bool, pollIntervalSecs: Option<nat>)

  const DEFAULT_PROVIDER := ProviderConfig(true, None)

  datatype Config = Config(pollIntervalSecs: Option<nat>, providers: map<ProviderId, ProviderConfig>) {

    function Provider(id: ProviderId): ProviderConfig {
      if id in providers then providers[id] else DEFAULT_PROVIDER
    }

    function ProviderEnabled(id: ProviderId): bool {
      id in providers ==> providers[id].enabled
    }

    /** The override, else the global interval, else three minutes; in seconds. */
    function PollIntervalSecs(id: ProviderId): nat {
      if Provider(id).pollIntervalSecs.Some? then Provider(id).pollIntervalSecs.value
      else if pollIntervalSecs.Some? then pollIntervalSecs.value
      else DEFAULT_POLL_INTERVAL_SECS
    }
  }

  datatype Loaded = Loaded(config: Config, warnings: seq<string>)

  const EMPTY := Loaded(Config(None, map[]), [])

  // ----- documents

  /** A TOML value. `inlineTable` tells `{ a = 1 }` from a `[section]`: a reader does
      not care, an editor does. */
  datatype Value =
    | Text(text: string)
    | Integer(i: int)
    | Float(r: real)
    | Boolean(b: bool)
    | Datetime(stamp: string)
    | Array(items: seq<Value>)
    | Table(inlineTable: bool, entries: seq<Entry>)

  datatype Entry = Entry(key: string, value: Value)

  function Find(entries: seq<Entry>, key: string): (r: Option<Value>)
    ensures r.Some? ==> Entry(key, r.value) in entries
    ensures r.None? ==> forall e <- entries :: e.key != key
  {
    if entries == [] then None
    else if entries[|entries| - 1].key == key then Some(entries[|entries| - 1].value)
    else Find(entries[..|entries| - 1], key)
  }

  ghost predicate DistinctKeys(entries: seq<Entry>) {
    forall i, j :: 0 <= i < j < |entries| ==> entries[i].key != entries[j].key
  }

  /** No table that is read gives a key twice, as TOML requires. */
  ghost predicate WellFormed(doc: seq<Entry>) {
    && DistinctKeys(doc)
    && forall e <- doc :: e.value.Table? ==>
         DistinctKeys(e.value.entries)
         && forall f <- e.value.entries :: f.value.Table? ==> DistinctKeys(f.value.entries)
  }

  const POLL_INTERVAL := "poll_interval_secs"
  const PROVIDERS := "providers"
  const ENABLED := "enabled"

  function ProviderPath(id: ProviderId, key: string): string {
    "providers." + id + "." + key
  }

  // ----- parsing

  function Interval(value: Value, path: string): (r: Result<nat>)
    ensures r.Ok? <==> value.Integer? && 10 <= value.i <= 4294967295
    ensures r.Ok? ==> r.value == value.i
    ensures r.Err? ==>
      r.error == ConfigError(path, if !value.Integer? then NotAnInteger else if value.i < 0 then Negative
                                   else if value.i < 10 then TooSmall else TooLarge)
  {
    if !value.Integer? then Err(ConfigError(path, NotAnInteger))
    else if value.i < 0 then Err(ConfigError(path, Negative))
    else if value.i < MIN_POLL_INTERVAL_SECS then Err(ConfigError(path, TooSmall))
    else if value.i > MAX_POLL_INTERVAL_SECS then Err(ConfigError(path, TooLarge))
    else Ok(value.i)
  }

  datatype ParsedProvider = ParsedProvider(config: ProviderConfig, warnings: seq<string>)

  /** One more key of a provider's table. */
  function ReadProviderKey(so: ParsedProvider, e: Entry, id: ProviderId): Result<ParsedProvider> {
    if e.key == ENABLED then
      if e.value.Boolean? then Ok(so.(config := so.config.(enabled := e.value.b)))
      else Err(ConfigError(ProviderPath(id, e.key), NotABoolean))
    else if e.key == POLL_INTERVAL then
      match Interval(e.value, ProviderPath(id, e.key))
      case Ok(secs) => Ok(so.(config := so.config.(pollIntervalSecs := Some(secs))))
      case Err(error) => Err(error)
    else Ok(so.(warnings := so.warnings + [ProviderPath(id, e.key)]))
  }

  function ReadProviderKeys(entries: seq<Entry>, id: ProviderId, warnings: seq<string>): Result<ParsedProvider> {
    if entries == [] then Ok(ParsedProvider(DEFAULT_PROVIDER, warnings))
    else
      match ReadProviderKeys(entries[..|entries| - 1], id, warnings)
      case Ok(so) => ReadProviderKey(so, entries[|entries| - 1], id)
      case Err(error) => Err(error)
  }

  function ReadProvider(value: Value, id: ProviderId, warnings: seq<string>): Result<ParsedProvider> {
    if value.Table? then ReadProviderKeys(value.entries, id, warnings)
    else Err(ConfigError("providers." + id, NotATable))
  }

  function ReadProviders(so: Loaded, entries: seq<Entry>): Result<Loaded> {
    if entries == [] then Ok(so)
    else
      match ReadProviders(so, entries[..|entries| - 1])
      case Err(error) => Err(error)
      case Ok(before) =>
        var e := entries[|entries| - 1];
        match ReadProvider(e.value, e.key, before.warnings)
        case Err(error) => Err(error)
        case Ok(p) => Ok(Loaded(before.config.(providers := before.config.providers[e.key := p.config]), p.warnings))
  }

  function ReadKey(so: Loaded, e: Entry): Result<Loaded> {
    if e.key == POLL_INTERVAL then
      match Interval(e.value, e.key)
      case Ok(secs) => Ok(so.(config := so.config.(pollIntervalSecs := Some(secs))))
      case Err(error) => Err(error)
    else if e.key == PROVIDERS then
      if e.value.Table? then ReadProviders(so, e.value.entries) else Err(ConfigError(PROVIDERS, NotATable))
    else Ok(so.(warnings := so.warnings + [e.key]))
  }

  function Parse(doc: seq<Entry>): Result<Loaded> {
    if doc == [] then Ok(EMPTY)
    else
      match Parse(doc[..|doc| - 1])
      case Ok(so) => ReadKey(so, doc[|doc| - 1])
      case Err(error) => Err(error)
  }

  method ParseProvider(value: Value, id: ProviderId, warnings: seq<string>) returns (r: Result<ParsedProvider>)
    ensures r == ReadProvider(value, id, warnings)
  {
    if !value.Table? {
      return Err(ConfigError("providers." + id, NotATable));
    }
    var entries := value.entries;
    var so := ParsedProvider(DEFAULT_PROVIDER, warnings);
    for i := 0 to |entries|
      invariant ReadProviderKeys(entries[..i], id, warnings) == Ok(so)
    {
      assert entries[..i + 1][..i] == entries[..i];
      var next := ReadProviderKey(so, entries[i], id);
      if next.Err? {
        ReadProviderKeysFails(entries, i + 1, id, warnings);
        return next;
      }
      so := next.value;
    }
    assert entries[..|entries|] == entries;
    r := Ok(so);
  }

  lemma {:induction false} ReadProviderKeysFails(entries: seq<Entry>, i: nat, id: ProviderId, warnings: seq<string>)
    requires i <= |entries| && ReadProviderKeys(entries[..i], id, warnings).Err?
    ensures ReadProviderKeys(entries, id, warnings) == ReadProviderKeys(entries[..i], id, warnings)
  {
    if i < |entries| {
      ReadProviderKeysFails(entries[..|entries| - 1], i, id, warnings) by {
        assert entries[..|entries| - 1][..i] == entries[..i];
      }
      assert entries[..|entries| - 1][..i] == entries[..i];
    } else {
      assert entries[..i] == entries;
    }
  }

  method ParseProviders(so: Loaded, entries: seq<Entry>) returns (r: Result<Loaded>)
    ensures r == ReadProviders(so, entries)
  {
    var loaded := so;
    for i := 0 to |entries|
      invariant ReadProviders(so, entries[..i]) == Ok(loaded)
    {
      assert entries[..i + 1][..i] == entries[..i];
      var e := entries[i];
      var p := ParseProvider(e.value, e.key, loaded.warnings);
      if p.Err? {
        ReadProvidersFails(so, entries, i + 1);
        return Err(p.error);
      }
      loaded := Loaded(loaded.config.(providers := loaded.config.providers[e.key := p.value.config]), p.value.warnings);
    }
    assert entries[..|entries|] == entries;
    r := Ok(loaded);
  }

  lemma {:induction false} ReadProvidersFails(so: Loaded, entries: seq<Entry>, i: nat)
    requires i <= |entries| && ReadProviders(so, entries[..i]).Err?
    ensures ReadProviders(so, entries) == ReadProviders(so, entries[..i])
  {
    if i < |entries| {
      assert entries[..|entries| - 1][..i] == entries[..i];
      ReadProvidersFails(so, entries[..|entries| - 1], i);
    } else {
      assert entries[..i] == entries;
    }
  }

  method ParseDocument(doc: seq<Entry>) returns (r: Result<Loaded>)
    ensures r == Parse(doc)
  {
    var loaded := EMPTY;
    for i := 0 to |doc|
      invariant Parse(doc[..i]) == Ok(loaded)
    {
      assert doc[..i + 1][..i] == doc[..i];
      var e := doc[i];
      if e.key == POLL_INTERVAL {
        var secs := Interval(e.value, e.key);
        if secs.Err? {
          ParseFails(doc, i + 1);
          return Err(secs.error);
        }
        loaded := loaded.(config := loaded.config.(pollIntervalSecs := Some(secs.value)));
      } else if e.key == PROVIDERS {
        if !e.value.Table? {
          ParseFails(doc, i + 1);
          return Err(ConfigError(PROVIDERS, NotATable));
        }
        var next := ParseProviders(loaded, e.value.entries);
        if next.Err? {
          ParseFails(doc, i + 1);
          return next;
        }
        loaded := next.value;
      } else {
        loaded := loaded.(warnings := loaded.warnings + [e.key]);
      }
    }
    assert doc[..|doc|] == doc;
    r := Ok(loaded);
  }

  lemma {:induction false} ParseFails(doc: seq<Entry>, i: nat)
    requires i <= |doc| && Parse(doc[..i]).Err?
    ensures Parse(doc) == Parse(doc[..i])
  {
    if i < |doc| {
      assert doc[..|doc| - 1][..i] == doc[..i];
      ParseFails(doc[..|doc| - 1], i);
    } else {
      assert doc[..i] == doc;
    }
  }
}
