/** Edits to a hand-written document, against what parsing then reads. */
module ConfigEdits {
  import opened Collections
  import opened Domain
  import opened Config

  // ----- what a document means, read key by key

  function EnabledOf(entries: seq<Entry>): bool {
    var v := Find(entries, ENABLED);
    v.Some? && v.value.Boolean? ==> v.value.b
  }

  function IntervalOf(entries: seq<Entry>): Option<nat> {
    var v := Find(entries, POLL_INTERVAL);
    if v.Some? && v.value.Integer? && v.value.i >= 0 then Some(v.value.i) else None
  }

  predicate GoodInterval(v: Option<Value>) {
    v.Some? ==> v.value.Integer? && MIN_POLL_INTERVAL_SECS <= v.value.i <= MAX_POLL_INTERVAL_SECS
  }

  predicate GoodProviderKeys(entries: seq<Entry>) {
    && (Find(entries, ENABLED).Some? ==> Find(entries, ENABLED).value.Boolean?)
    && GoodInterval(Find(entries, POLL_INTERVAL))
  }

  predicate GoodProvider(v: Value) {
    v.Table? && GoodProviderKeys(v.entries)
  }

  function ProviderOf(v: Value): ProviderConfig {
    if v.Table? then ProviderConfig(EnabledOf(v.entries), IntervalOf(v.entries)) else DEFAULT_PROVIDER
  }

  predicate Good(doc: seq<Entry>) {
    && GoodInterval(Find(doc, POLL_INTERVAL))
    && (Find(doc, PROVIDERS).Some? ==>
          Find(doc, PROVIDERS).value.Table? && forall e <- Find(doc, PROVIDERS).value.entries :: GoodProvider(e.value))
  }

  function ProvidersIn(doc: seq<Entry>): seq<Entry> {
    var v := Find(doc, PROVIDERS);
    if v.Some? && v.value.Table? then v.value.entries else []
  }

  /** The document's own row for a provider, if it has one. */
  function RowOf(doc: seq<Entry>, id: ProviderId): Option<ProviderConfig> {
    var v := Find(ProvidersIn(doc), id);
    if v.Some? then Some(ProviderOf(v.value)) else None
  }

  // ----- unknown keys, in document order

  function FlatMap(entries: seq<Entry>, f: Entry -> seq<string>): seq<string> {
    if entries == [] then []
    else FlatMap(entries[..|entries| - 1], f) + f(entries[|entries| - 1])
  }

  lemma {:induction false} FlatMapAppend(a: seq<Entry>, b: seq<Entry>, f: Entry -> seq<string>)
    ensures FlatMap(a + b, f) == FlatMap(a, f) + FlatMap(b, f)
  {
    if b == [] {
      assert a + b == a;
    } else {
      assert (a + b)[..|a + b| - 1] == a + b[..|b| - 1];
      FlatMapAppend(a, b[..|b| - 1], f);
    }
  }

  function UnknownProviderKey(id: ProviderId): Entry -> seq<string> {
    (e: Entry) => if e.key == ENABLED || e.key == POLL_INTERVAL then [] else [ProviderPath(id, e.key)]
  }

  function UnknownInProvider(e: Entry): seq<string> {
    if e.value.Table? then FlatMap(e.value.entries, UnknownProviderKey(e.key)) else []
  }

  function UnknownKey(e: Entry): seq<string> {
    if e.key == POLL_INTERVAL then []
    else if e.key == PROVIDERS then
      if e.value.Table? then FlatMap(e.value.entries, UnknownInProvider) else []
    else [e.key]
  }

  lemma FindStep(front: seq<Entry>, e: Entry, key: string)
    ensures Find(front + [e], key) == if e.key == key then Some(e.value) else Find(front, key)
  {
    assert (front + [e])[..|front|] == front;
  }

  /** What reading a provider's keys should give. */
  ghost predicate ReadsAs(entries: seq<Entry>, id: ProviderId, warnings: seq<string>) {
    && (ReadProviderKeys(entries, id, warnings).Ok? <==> GoodProviderKeys(entries))
    && (GoodProviderKeys(entries) ==>
          ReadProviderKeys(entries, id, warnings) ==
          Ok(ParsedProvider(ProviderConfig(EnabledOf(entries), IntervalOf(entries)),
                            warnings + FlatMap(entries, UnknownProviderKey(id)))))
  }

  lemma ReadsOneMore(front: seq<Entry>, last: Entry, entries: seq<Entry>, id: ProviderId, warnings: seq<string>)
    requires entries != [] && front == entries[..|entries| - 1] && last == entries[|entries| - 1]
    requires DistinctKeys(entries) && ReadsAs(front, id, warnings)
    ensures ReadsAs(entries, id, warnings)
  {
    assert front + [last] == entries;
    FindStep(front, last, ENABLED);
    FindStep(front, last, POLL_INTERVAL);
    KeyIsNew(entries);
    KeysDiffer();
    var unknown, more := FlatMap(front, UnknownProviderKey(id)), UnknownProviderKey(id)(last);
    Regroup(warnings, unknown, more);
    assert more == [] ==> (warnings + unknown) + more == warnings + unknown;
  }

  lemma {:induction false} ProviderMeaning(entries: seq<Entry>, id: ProviderId, warnings: seq<string>)
    requires DistinctKeys(entries)
    ensures ReadsAs(entries, id, warnings)
  {
    assert warnings + [] == warnings;
    if entries != [] {
      ProviderMeaning(entries[..|entries| - 1], id, warnings);
      ReadsOneMore(entries[..|entries| - 1], entries[|entries| - 1], entries, id, warnings);
    }
  }

  lemma KeysDiffer()
    ensures ENABLED != POLL_INTERVAL && PROVIDERS != POLL_INTERVAL
  {
    assert |ENABLED| == 7 && |POLL_INTERVAL| == 18 && |PROVIDERS| == 9;
  }

  lemma KeyIsNew(entries: seq<Entry>)
    requires DistinctKeys(entries) && entries != []
    ensures Find(entries[..|entries| - 1], entries[|entries| - 1].key).None?
  {
  }

  ghost predicate DistinctTables(entries: seq<Entry>) {
    DistinctKeys(entries) && forall e <- entries :: e.value.Table? ==> DistinctKeys(e.value.entries)
  }

  lemma {:induction false} ProvidersAccepted(so: Loaded, entries: seq<Entry>)
    requires DistinctTables(entries)
    ensures ReadProviders(so, entries).Ok? <==> forall e <- entries :: GoodProvider(e.value)
  {
    if entries != [] {
      var front, last := entries[..|entries| - 1], entries[|entries| - 1];
      assert entries == front + [last];
      ProvidersAccepted(so, front);
      if ReadProviders(so, front).Ok? && last.value.Table? {
        ProviderMeaning(last.value.entries, last.key, ReadProviders(so, front).value.warnings);
      }
    }
  }

  lemma Regroup(a: seq<string>, b: seq<string>, c: seq<string>)
    ensures a + (b + c) == (a + b) + c
  {
  }

  lemma {:induction false} ProvidersWarnings(so: Loaded, entries: seq<Entry>)
    requires DistinctTables(entries) && ReadProviders(so, entries).Ok?
    ensures var r := ReadProviders(so, entries).value;
      && r.config.pollIntervalSecs == so.config.pollIntervalSecs
      && r.warnings == so.warnings + FlatMap(entries, UnknownInProvider)
  {
    if entries == [] {
      assert so.warnings + [] == so.warnings;
    } else {
      var front, last := entries[..|entries| - 1], entries[|entries| - 1];
      ProvidersWarnings(so, front);
      ProviderMeaning(last.value.entries, last.key, ReadProviders(so, front).value.warnings);
      Regroup(so.warnings, FlatMap(front, UnknownInProvider), UnknownInProvider(last));
    }
  }

  lemma {:induction false} ProviderRead(so: Loaded, entries: seq<Entry>, id: ProviderId)
    requires DistinctTables(entries) && ReadProviders(so, entries).Ok?
    ensures Get(ReadProviders(so, entries).value.config.providers, id)
         == if Find(entries, id).Some? then Some(ProviderOf(Find(entries, id).value))
            else Get(so.config.providers, id)
  {
    if entries != [] {
      var front, last := entries[..|entries| - 1], entries[|entries| - 1];
      ProviderRead(so, front, id);
      ProviderMeaning(last.value.entries, last.key, ReadProviders(so, front).value.warnings);
    }
  }

  /** What parsing reads, as a function of lookups alone: a document parses
      exactly when each setting it gives has the right shape and range. */
  lemma {:induction false} ParseMeaning(doc: seq<Entry>)
    requires WellFormed(doc)
    ensures Parse(doc).Ok? <==> Good(doc)
    ensures Parse(doc).Ok? ==>
      var r := Parse(doc).value;
      && r.config.pollIntervalSecs == IntervalOf(doc)
      && r.warnings == FlatMap(doc, UnknownKey)
  {
    if doc != [] {
      var front, last := doc[..|doc| - 1], doc[|doc| - 1];
      assert doc == front + [last];
      ParseMeaning(front);
      FindStep(front, last, POLL_INTERVAL);
      FindStep(front, last, PROVIDERS);
      KeyIsNew(doc);
      KeysDiffer();
      if Parse(front).Ok? && last.key == PROVIDERS && last.value.Table? {
        ProvidersAccepted(Parse(front).value, last.value.entries);
        if Parse(doc).Ok? {
          ProvidersWarnings(Parse(front).value, last.value.entries);
        }
      }
    }
  }

  lemma RowStep(front: seq<Entry>, last: Entry, id: ProviderId)
    ensures RowOf(front + [last], id)
         == if last.key != PROVIDERS then RowOf(front, id)
            else if last.value.Table? && Find(last.value.entries, id).Some?
            then Some(ProviderOf(Find(last.value.entries, id).value))
            else None
  {
    FindStep(front, last, PROVIDERS);
  }

  lemma ReadKeyRow(so: Loaded, e: Entry, id: ProviderId)
    requires e.value.Table? ==> DistinctTables(e.value.entries)
    requires ReadKey(so, e).Ok?
    ensures Get(ReadKey(so, e).value.config.providers, id)
         == if e.key == PROVIDERS && Find(e.value.entries, id).Some?
            then Some(ProviderOf(Find(e.value.entries, id).value))
            else Get(so.config.providers, id)
  {
    KeysDiffer();
    if e.key == PROVIDERS {
      ProviderRead(so, e.value.entries, id);
    }
  }

  lemma {:induction false} ParsedRow(doc: seq<Entry>, id: ProviderId)
    requires WellFormed(doc) && Parse(doc).Ok?
    ensures Get(Parse(doc).value.config.providers, id) == RowOf(doc, id)
  {
    if doc != [] {
      var front, last := doc[..|doc| - 1], doc[|doc| - 1];
      assert doc == front + [last];
      ParsedRow(front, id);
      KeyIsNew(doc);
      RowStep(front, last, id);
      ReadKeyRow(Parse(front).value, last, id);
    }
  }

  // ----- editing

  function IndexOf(entries: seq<Entry>, key: string): (k: nat)
    ensures k <= |entries|
    ensures k < |entries| ==> entries[k].key == key
    ensures k == |entries| ==> forall e <- entries :: e.key != key
  {
    if entries == [] || entries[0].key == key then 0 else 1 + IndexOf(entries[1..], key)
  }

  /** `table[key] = value`: replaced where it stands, or added at the end. */
  function SetKey(entries: seq<Entry>, key: string, value: Value): seq<Entry> {
    var k := IndexOf(entries, key);
    if k < |entries| then entries[k := Entry(key, value)] else entries + [Entry(key, value)]
  }

  function RemoveKey(entries: seq<Entry>, key: string): seq<Entry> {
    var k := IndexOf(entries, key);
    if k < |entries| then entries[..k] + entries[k + 1..] else entries
  }

  lemma {:induction false} FindAt(entries: seq<Entry>, i: nat)
    requires DistinctKeys(entries) && i < |entries|
    ensures Find(entries, entries[i].key) == Some(entries[i].value)
  {
    if i < |entries| - 1 {
      FindAt(entries[..|entries| - 1], i);
    }
  }

  /** Lookups see an edit at its own key and nowhere else. */
  lemma FindAfterSet(entries: seq<Entry>, key: string, value: Value, other: string)
    requires DistinctKeys(entries)
    ensures DistinctKeys(SetKey(entries, key, value))
    ensures Find(SetKey(entries, key, value), other) == if other == key then Some(value) else Find(entries, other)
  {
    var after := SetKey(entries, key, value);
    var k := IndexOf(entries, key);
    FindAt(after, k);
    if other != key {
      forall e <- entries | e.key == other ensures e in after {
        var i :| 0 <= i < |entries| && entries[i] == e;
        assert after[i] == e;
      }
      FindElsewhere(entries, after, other);
      FindElsewhere(after, entries, other);
    }
  }

  lemma FindElsewhere(a: seq<Entry>, b: seq<Entry>, key: string)
    requires DistinctKeys(b)
    requires forall e <- a :: e.key == key ==> e in b
    ensures Find(a, key).Some? ==> Find(b, key) == Find(a, key)
  {
    var v := Find(a, key);
    if v.Some? {
      var e := Entry(key, v.value);
      assert e in b;
      var i :| 0 <= i < |b| && b[i] == e;
      FindAt(b, i);
    }
  }

  lemma OthersRemain(entries: seq<Entry>, k: nat)
    requires k < |entries|
    ensures forall e <- entries :: e != entries[k] ==> e in entries[..k] + entries[k + 1..]
  {
  }

  lemma FindAfterRemove(entries: seq<Entry>, key: string, other: string)
    requires DistinctKeys(entries)
    ensures DistinctKeys(RemoveKey(entries, key))
    ensures Find(RemoveKey(entries, key), other) == if other == key then None else Find(entries, other)
  {
    var after := RemoveKey(entries, key);
    var k := IndexOf(entries, key);
    if k < |entries| {
      if other == key {
        assert forall e <- after :: e.key != key;
      } else {
        OthersRemain(entries, k);
        FindElsewhere(entries, after, other);
        FindElsewhere(after, entries, other);
      }
    }
  }

  lemma FlatMapSplit(x: seq<Entry>, e: Entry, y: seq<Entry>, f: Entry -> seq<string>)
    ensures FlatMap(x + [e] + y, f) == FlatMap(x, f) + f(e) + FlatMap(y, f)
  {
    FlatMapAppend(x + [e], y, f);
    FlatMapAppend(x, [e], f);
    assert FlatMap([e], f) == f(e);
  }

  lemma FlatMapReplaced(entries: seq<Entry>, k: nat, e: Entry, f: Entry -> seq<string>)
    requires k < |entries| && f(e) == f(entries[k])
    ensures FlatMap(entries[k := e], f) == FlatMap(entries, f)
  {
    var x, y := entries[..k], entries[k + 1..];
    FlatMapOf(entries, x, entries[k], y, f);
    FlatMapOf(entries[k := e], x, e, y, f);
  }

  lemma FlatMapOf(all: seq<Entry>, x: seq<Entry>, e: Entry, y: seq<Entry>, f: Entry -> seq<string>)
    requires all == x + [e] + y
    ensures FlatMap(all, f) == FlatMap(x, f) + f(e) + FlatMap(y, f)
  {
    FlatMapSplit(x, e, y, f);
  }

  lemma FlatMapAfterSet(entries: seq<Entry>, key: string, value: Value, f: Entry -> seq<string>)
    requires var k := IndexOf(entries, key);
      f(Entry(key, value)) == if k < |entries| then f(entries[k]) else []
    ensures FlatMap(SetKey(entries, key, value), f) == FlatMap(entries, f)
  {
    var k, e := IndexOf(entries, key), Entry(key, value);
    if k < |entries| {
      FlatMapReplaced(entries, k, e, f);
    } else {
      FlatMapAppend(entries, [e], f);
      assert FlatMap([e], f) == f(e);
    }
  }

  lemma FlatMapRemoved(entries: seq<Entry>, k: nat, f: Entry -> seq<string>)
    requires k < |entries| && f(entries[k]) == []
    ensures FlatMap(entries[..k] + entries[k + 1..], f) == FlatMap(entries, f)
  {
    var x, y := entries[..k], entries[k + 1..];
    FlatMapOf(entries, x, entries[k], y, f);
    FlatMapAppend(x, y, f);
    NothingBetween(FlatMap(x, f), FlatMap(y, f));
  }

  lemma FlatMapAfterRemove(entries: seq<Entry>, key: string, f: Entry -> seq<string>)
    requires var k := IndexOf(entries, key); k < |entries| ==> f(entries[k]) == []
    ensures FlatMap(RemoveKey(entries, key), f) == FlatMap(entries, f)
  {
    var k := IndexOf(entries, key);
    if k < |entries| {
      FlatMapRemoved(entries, k, f);
    } else {
      assert RemoveKey(entries, key) == entries;
    }
  }

  lemma NothingBetween(a: seq<string>, b: seq<string>)
    ensures a + [] + b == a + b
  {
  }

  datatype ConfigEdit =
    | GlobalPollInterval(secs: Option<nat>)
    | ProviderPollInterval(provider: ProviderId, secs: Option<nat>)
    | ProviderEnabled(provider: ProviderId, enabled: bool)

  function ValidateSecs(secs: Option<nat>, path: string): Result<()> {
    if secs.None? then Ok(())
    else
      match Interval(Integer(secs.value), path)
      case Ok(_) => Ok(())
      case Err(error) => Err(error)
  }

  function ValidateEdit(edit: ConfigEdit): Result<()> {
    match edit
    case GlobalPollInterval(secs) => ValidateSecs(secs, POLL_INTERVAL)
    case ProviderPollInterval(p, secs) => ValidateSecs(secs, ProviderPath(p, POLL_INTERVAL))
    case ProviderEnabled(_, _) => Ok(())
  }

  /** The entries of a section, created empty if absent; an inline table or any
      other value is not one. */
  function Section(entries: seq<Entry>, key: string, path: string): Result<seq<Entry>> {
    var v := Find(entries, key);
    if v.None? then Ok([])
    else if v.value.Table? && !v.value.inlineTable then Ok(v.value.entries)
    else Err(ConfigError(path, NotATable))
  }

  function EditedInterval(entries: seq<Entry>, secs: Option<nat>): seq<Entry> {
    if secs.Some? then SetKey(entries, POLL_INTERVAL, Integer(secs.value)) else RemoveKey(entries, POLL_INTERVAL)
  }

  /** One provider's section with the edit made. */
  function EditedSection(entries: seq<Entry>, edit: ConfigEdit): seq<Entry>
    requires !edit.GlobalPollInterval?
  {
    match edit
    case ProviderPollInterval(_, secs) => EditedInterval(entries, secs)
    case ProviderEnabled(_, enabled) => SetKey(entries, ENABLED, Boolean(enabled))
  }

  /** The document with the edit made. */
  function Edited(doc: seq<Entry>, edit: ConfigEdit): Result<seq<Entry>> {
    if edit.GlobalPollInterval? then Ok(EditedInterval(doc, edit.secs))
    else
      match Section(doc, PROVIDERS, PROVIDERS)
      case Err(error) => Err(error)
      case Ok(providers) =>
        match Section(providers, edit.provider, "providers." + edit.provider)
        case Err(error) => Err(error)
        case Ok(mine) =>
          Ok(SetKey(doc, PROVIDERS, Table(false,
             SetKey(providers, edit.provider, Table(false, EditedSection(mine, edit))))))
  }

  /** A document being edited in place. */
  class Document {
    var root: seq<Entry>

    constructor (text: seq<Entry>)
      ensures root == text
    {
      root := text;
    }

    /** `validate_edit`, then `apply_edit`; a refusal leaves the document alone. */
    method Apply(edit: ConfigEdit) returns (r: Result<()>)
      modifies this
      ensures r.Ok? <==> ValidateEdit(edit).Ok? && Edited(old(root), edit).Ok?
      ensures root == if r.Ok? then Edited(old(root), edit).value else old(root)
    {
      r := ValidateEdit(edit);
      if r.Err? {
        return;
      }
      if edit.GlobalPollInterval? {
        if edit.secs.Some? {
          root := SetKey(root, POLL_INTERVAL, Integer(edit.secs.value));
        } else {
          root := RemoveKey(root, POLL_INTERVAL);
        }
        return;
      }
      var providers := Section(root, PROVIDERS, PROVIDERS);
      if providers.Err? {
        return Err(providers.error);
      }
      var mine := Section(providers.value, edit.provider, "providers." + edit.provider);
      if mine.Err? {
        return Err(mine.error);
      }
      var section := mine.value;
      match edit {
        case ProviderPollInterval(_, secs) =>
          if secs.Some? {
            section := SetKey(section, POLL_INTERVAL, Integer(secs.value));
          } else {
            section := RemoveKey(section, POLL_INTERVAL);
          }
        case ProviderEnabled(_, enabled) =>
          section := SetKey(section, ENABLED, Boolean(enabled));
      }
      root := SetKey(root, PROVIDERS, Table(false, SetKey(providers.value, edit.provider, Table(false, section))));
    }
  }

  // ----- edits commute with parsing

  function AskedInterval(edit: ConfigEdit, was: Option<nat>): Option<nat> {
    if edit.ProviderPollInterval? then edit.secs else was
  }

  function AskedEnabled(edit: ConfigEdit, was: bool): bool {
    if edit.ProviderEnabled? then edit.enabled else was
  }

  lemma IntervalEdit(entries: seq<Entry>, secs: Option<nat>, other: string, f: Entry -> seq<string>)
    requires DistinctKeys(entries)
    requires forall v: Value :: f(Entry(POLL_INTERVAL, v)) == []
    ensures var after := EditedInterval(entries, secs);
      && DistinctKeys(after) && FlatMap(after, f) == FlatMap(entries, f)
      && Find(after, other) == (if other != POLL_INTERVAL then Find(entries, other)
                                else if secs.Some? then Some(Integer(secs.value)) else None)
      && forall e <- after :: e in entries || !e.value.Table?
  {
    var k := IndexOf(entries, POLL_INTERVAL);
    if k < |entries| {
      assert entries[k] == Entry(POLL_INTERVAL, entries[k].value);
    }
    if secs.Some? {
      FindAfterSet(entries, POLL_INTERVAL, Integer(secs.value), other);
      FlatMapAfterSet(entries, POLL_INTERVAL, Integer(secs.value), f);
    } else {
      FindAfterRemove(entries, POLL_INTERVAL, other);
      FlatMapAfterRemove(entries, POLL_INTERVAL, f);
    }
  }

  lemma SectionEdit(entries: seq<Entry>, edit: ConfigEdit)
    requires DistinctKeys(entries) && GoodProviderKeys(entries)
    requires !edit.GlobalPollInterval? && ValidateEdit(edit).Ok?
    ensures var after := EditedSection(entries, edit);
      && DistinctKeys(after) && GoodProviderKeys(after)
      && EnabledOf(after) == AskedEnabled(edit, EnabledOf(entries))
      && IntervalOf(after) == AskedInterval(edit, IntervalOf(entries))
      && FlatMap(after, UnknownProviderKey(edit.provider)) == FlatMap(entries, UnknownProviderKey(edit.provider))
  {
    match edit
    case ProviderPollInterval(_, secs) => SectionInterval(entries, edit.provider, secs);
    case ProviderEnabled(_, enabled) =>
      KeysDiffer();
      EnabledEdit(entries, enabled, UnknownProviderKey(edit.provider));
  }

  lemma SectionInterval(entries: seq<Entry>, provider: ProviderId, secs: Option<nat>)
    requires DistinctKeys(entries) && GoodProviderKeys(entries)
    requires ValidateEdit(ProviderPollInterval(provider, secs)).Ok?
    ensures var after := EditedInterval(entries, secs);
      && DistinctKeys(after) && GoodProviderKeys(after)
      && EnabledOf(after) == EnabledOf(entries) && IntervalOf(after) == secs
      && FlatMap(after, UnknownProviderKey(provider)) == FlatMap(entries, UnknownProviderKey(provider))
  {
    KeysDiffer();
    IntervalEdit(entries, secs, ENABLED, UnknownProviderKey(provider));
    IntervalEdit(entries, secs, POLL_INTERVAL, UnknownProviderKey(provider));
  }

  lemma EnabledEdit(entries: seq<Entry>, enabled: bool, f: Entry -> seq<string>)
    requires DistinctKeys(entries)
    requires forall v, v' :: f(Entry(ENABLED, v)) == f(Entry(ENABLED, v')) == []
    ensures var after := SetKey(entries, ENABLED, Boolean(enabled));
      && DistinctKeys(after) && FlatMap(after, f) == FlatMap(entries, f)
      && Find(after, ENABLED) == Some(Boolean(enabled)) && Find(after, POLL_INTERVAL) == Find(entries, POLL_INTERVAL)
  {
    KeysDiffer();
    FindAfterSet(entries, ENABLED, Boolean(enabled), ENABLED);
    FindAfterSet(entries, ENABLED, Boolean(enabled), POLL_INTERVAL);
    FlatMapAfterSet(entries, ENABLED, Boolean(enabled), f);
  }

  lemma GlobalEdit(doc: seq<Entry>, secs: Option<nat>)
    requires WellFormed(doc)
    ensures var after := EditedInterval(doc, secs);
      && WellFormed(after) && FlatMap(after, UnknownKey) == FlatMap(doc, UnknownKey)
      && IntervalOf(after) == secs && Find(after, PROVIDERS) == Find(doc, PROVIDERS)
      && GoodInterval(Find(after, POLL_INTERVAL))
         == GoodInterval(if secs.Some? then Some(Integer(secs.value)) else None)
  {
    KeysDiffer();
    IntervalEdit(doc, secs, POLL_INTERVAL, UnknownKey);
    IntervalEdit(doc, secs, PROVIDERS, UnknownKey);
  }

  /** Replacing one section of a table of sections. */
  lemma SectionReplaced(
      sections: seq<Entry>, key: string, after: seq<Entry>, f: Entry -> seq<string>)
    requires DistinctTables(sections) && DistinctKeys(after)
    requires Section(sections, key, key).Ok?
    requires f(Entry(key, Table(false, after))) == f(Entry(key, Table(false, Section(sections, key, key).value)))
    requires f(Entry(key, Table(false, []))) == []
    ensures var r := SetKey(sections, key, Table(false, after));
      && DistinctTables(r) && FlatMap(r, f) == FlatMap(sections, f)
      && forall e <- r :: e in sections || e == Entry(key, Table(false, after))
  {
    var k := IndexOf(sections, key);
    if k < |sections| {
      FindAt(sections, k);
      assert sections[k] == Entry(key, Table(false, Section(sections, key, key).value));
    }
    FindAfterSet(sections, key, Table(false, after), key);
    FlatMapAfterSet(sections, key, Table(false, after), f);
  }

  lemma SectionOf(entries: seq<Entry>, key: string, path: string)
    requires Section(entries, key, path).Ok?
    ensures Section(entries, key, key) == Section(entries, key, path)
    ensures DistinctTables(entries) ==> DistinctKeys(Section(entries, key, path).value)
  {
  }

  ghost predicate AllGood(providers: seq<Entry>) {
    forall e <- providers :: GoodProvider(e.value)
  }

  /** The rows of a `providers` table with one provider's section edited. */
  function EditedProviders(providers: seq<Entry>, mine: seq<Entry>, edit: ConfigEdit): seq<Entry>
    requires !edit.GlobalPollInterval?
  {
    SetKey(providers, edit.provider, Table(false, EditedSection(mine, edit)))
  }

  lemma ProvidersEdit(providers: seq<Entry>, mine: seq<Entry>, edit: ConfigEdit, id: ProviderId)
    requires DistinctTables(providers) && AllGood(providers)
    requires !edit.GlobalPollInterval? && ValidateEdit(edit).Ok?
    requires Section(providers, edit.provider, edit.provider) == Ok(mine)
    ensures var after := EditedProviders(providers, mine, edit);
      && DistinctTables(after) && AllGood(after)
      && FlatMap(after, UnknownInProvider) == FlatMap(providers, UnknownInProvider)
      && Find(after, id)
         == if id == edit.provider then Some(Table(false, EditedSection(mine, edit))) else Find(providers, id)
    ensures GoodProviderKeys(mine) && DistinctKeys(mine)
  {
    SectionOf(providers, edit.provider, edit.provider);
    SectionEdit(mine, edit);
    SectionReplaced(providers, edit.provider, EditedSection(mine, edit), UnknownInProvider);
    FindAfterSet(providers, edit.provider, Table(false, EditedSection(mine, edit)), id);
  }

  lemma StillWellFormed(doc: seq<Entry>, after: seq<Entry>)
    requires WellFormed(doc) && Section(doc, PROVIDERS, PROVIDERS).Ok?
    requires DistinctTables(after)
    requires FlatMap(after, UnknownInProvider) == FlatMap(Section(doc, PROVIDERS, PROVIDERS).value, UnknownInProvider)
    ensures var doc' := SetKey(doc, PROVIDERS, Table(false, after));
      WellFormed(doc') && FlatMap(doc', UnknownKey) == FlatMap(doc, UnknownKey)
  {
    KeysDiffer();
    SectionReplaced(doc, PROVIDERS, after, UnknownKey);
  }

  lemma StillGood(doc: seq<Entry>, after: seq<Entry>)
    requires DistinctKeys(doc) && Good(doc) && AllGood(after)
    ensures var doc' := SetKey(doc, PROVIDERS, Table(false, after));
      Good(doc') && ProvidersIn(doc') == after && IntervalOf(doc') == IntervalOf(doc)
  {
    KeysDiffer();
    FindAfterSet(doc, PROVIDERS, Table(false, after), PROVIDERS);
    FindAfterSet(doc, PROVIDERS, Table(false, after), POLL_INTERVAL);
  }

  /** The row an edited section reads as. */
  lemma SectionRow(mine: seq<Entry>, edit: ConfigEdit)
    requires DistinctKeys(mine) && GoodProviderKeys(mine)
    requires !edit.GlobalPollInterval? && ValidateEdit(edit).Ok?
    ensures ProviderOf(Table(false, EditedSection(mine, edit)))
         == AskedRow(edit, Some(ProviderConfig(EnabledOf(mine), IntervalOf(mine))))
  {
    SectionEdit(mine, edit);
  }

  lemma SectionWas(providers: seq<Entry>, mine: seq<Entry>, key: ProviderId)
    requires Section(providers, key, key) == Ok(mine)
    ensures var row := if Find(providers, key).Some? then ProviderOf(Find(providers, key).value) else DEFAULT_PROVIDER;
      row == ProviderConfig(EnabledOf(mine), IntervalOf(mine))
  {
  }

  lemma RowAfter(
      doc: seq<Entry>, doc': seq<Entry>, providers: seq<Entry>, mine: seq<Entry>, edit: ConfigEdit, id: ProviderId)
    requires DistinctTables(providers) && AllGood(providers)
    requires !edit.GlobalPollInterval? && ValidateEdit(edit).Ok?
    requires ProvidersIn(doc) == providers && Section(providers, edit.provider, edit.provider) == Ok(mine)
    requires ProvidersIn(doc') == EditedProviders(providers, mine, edit)
    ensures RowOf(doc', id) == if id == edit.provider then Some(AskedRow(edit, RowOf(doc, id))) else RowOf(doc, id)
  {
    ProvidersEdit(providers, mine, edit, id);
    if id == edit.provider {
      SectionRow(mine, edit);
      SectionWas(providers, mine, id);
    }
  }

  /** A provider edit, seen through lookups. */
  lemma ProviderEdit(doc: seq<Entry>, edit: ConfigEdit, id: ProviderId)
    requires WellFormed(doc) && Good(doc)
    requires !edit.GlobalPollInterval? && ValidateEdit(edit).Ok? && Edited(doc, edit).Ok?
    ensures var after := Edited(doc, edit).value;
      && WellFormed(after) && Good(after)
      && IntervalOf(after) == IntervalOf(doc) && FlatMap(after, UnknownKey) == FlatMap(doc, UnknownKey)
      && RowOf(after, id) == if id == edit.provider then Some(AskedRow(edit, RowOf(doc, id))) else RowOf(doc, id)
  {
    var providers := Section(doc, PROVIDERS, PROVIDERS).value;
    SectionOf(providers, edit.provider, "providers." + edit.provider);
    var mine := Section(providers, edit.provider, edit.provider).value;
    var after := EditedProviders(providers, mine, edit);
    assert DistinctTables(providers) && AllGood(providers);
    ProvidersEdit(providers, mine, edit, id);
    StillWellFormed(doc, after);
    StillGood(doc, after);
    RowAfter(doc, Edited(doc, edit).value, providers, mine, edit, id);
  }

  /** The row asked for, given the one there was. */
  function AskedRow(edit: ConfigEdit, row: Option<ProviderConfig>): ProviderConfig {
    var was := if row.Some? then row.value else DEFAULT_PROVIDER;
    ProviderConfig(AskedEnabled(edit, was.enabled), AskedInterval(edit, was.pollIntervalSecs))
  }

  /** Config edits commute with parsing: for every document that parses and
      every edit that goes through, the edited document parses, the edited
      setting reads as asked, and the global interval, every other provider's
      settings and the unknown keys reported read as before. */
  lemma EditsCommuteWithParsing(doc: seq<Entry>, edit: ConfigEdit, id: ProviderId)
    requires WellFormed(doc) && Parse(doc).Ok?
    requires ValidateEdit(edit).Ok? && Edited(doc, edit).Ok?
    ensures WellFormed(Edited(doc, edit).value) && Parse(Edited(doc, edit).value).Ok?
    ensures var (before, after) := (Parse(doc).value, Parse(Edited(doc, edit).value).value);
      && after.warnings == before.warnings
      && after.config.pollIntervalSecs
         == (if edit.GlobalPollInterval? then edit.secs else before.config.pollIntervalSecs)
      && after.config.Provider(id)
         == if !edit.GlobalPollInterval? && id == edit.provider
            then ProviderConfig(AskedEnabled(edit, before.config.Provider(id).enabled),
                                AskedInterval(edit, before.config.Provider(id).pollIntervalSecs))
            else before.config.Provider(id)
  {
    ParseMeaning(doc);
    ParsedRow(doc, id);
    if edit.GlobalPollInterval? {
      GlobalEdit(doc, edit.secs);
    } else {
      ProviderEdit(doc, edit, id);
    }
    var after := Edited(doc, edit).value;
    ParseMeaning(after);
    ParsedRow(after, id);
  }

  /** The check before writing refuses nothing it need not: had the refused
      interval been written, the file would no longer parse. */
  lemma RefusedGlobalEditWouldNotParse(doc: seq<Entry>, secs: Option<nat>)
    requires WellFormed(doc) && ValidateEdit(GlobalPollInterval(secs)).Err?
    ensures Parse(Edited(doc, GlobalPollInterval(secs)).value).Err?
  {
    GlobalEdit(doc, secs);
    ParseMeaning(EditedInterval(doc, secs));
  }
}
