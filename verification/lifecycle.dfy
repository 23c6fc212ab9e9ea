/**
 * Loading the configuration (`loadConfigValues`), the `/onlinerewards
 * reload` command, startup (`onEnable` with `loadData`) and shutdown
 * (`onDisable`).
 */
module Lifecycle {
  import opened Wrappers
  import opened Decimal
  import opened ThresholdTable
  import opened Engine

  /** One key of the `thresholds` section with its string list, in file order. */
  datatype ConfigEntry = ConfigEntry(key: string, commands: seq<string>)

  /**
   * The configuration as Bukkit resolves it, defaults included.
   * `thresholds` is the `thresholds` section's keys in file order, with
   * their lists. It is None only when neither the file nor the bundled
   * defaults have that section: a section present only in the defaults
   * reads as an empty one, `Some([])`. The other two are None when the key
   * is absent.
   */
  datatype Config = Config(
    thresholds: Option<seq<ConfigEntry>>,
    announcement: Option<string>,
    persistThresholds: Option<bool>)

  /** The integer keys of the entries that parse. */
  function ParsedKeys(entries: seq<ConfigEntry>): set<int> {
    set i | 0 <= i < |entries| && ParseInt(entries[i].key).Some? :: ParseInt(entries[i].key).value
  }

  /** Entry `i` parses and no later entry parses to the same key. */
  predicate LastFor(entries: seq<ConfigEntry>, i: nat) {
    && i < |entries|
    && ParseInt(entries[i].key).Some?
    && forall j | i < j < |entries| :: ParseInt(entries[j].key) != ParseInt(entries[i].key)
  }

  /** One entry of the section `put` into the table; an entry whose key does not parse is skipped. */
  function LoadEntry(t: Table, e: ConfigEntry): Table {
    match ParseInt(e.key)
    case Some(k) => Put(t, k, e.commands)
    case None => t
  }

  /** The table rebuilt from scratch: the entries are loaded in file order. */
  function BuildTable(entries: seq<ConfigEntry>): Table
    decreases |entries|
  {
    if |entries| == 0 then []
    else LoadEntry(BuildTable(entries[..|entries| - 1]), entries[|entries| - 1])
  }

  lemma ParsedKeysSnoc(entries: seq<ConfigEntry>)
    requires |entries| > 0
    ensures var e := entries[|entries| - 1];
      ParsedKeys(entries) == ParsedKeys(entries[..|entries| - 1])
        + (if ParseInt(e.key).Some? then {ParseInt(e.key).value} else {})
  {
    var init := entries[..|entries| - 1];
    assert forall i | 0 <= i < |init| :: entries[i] == init[i];
  }

  /** The table holds exactly the keys that parse. */
  lemma {:induction false} BuildTableKeys(entries: seq<ConfigEntry>)
    ensures KeySet(BuildTable(entries)) == ParsedKeys(entries)
    decreases |entries|
  {
    if |entries| > 0 {
      BuildTableKeys(entries[..|entries| - 1]);
      ParsedKeysSnoc(entries);
    }
  }

  /** Among entries whose keys parse to the same threshold, the last one wins. */
  lemma {:induction false} BuildTableLastWins(entries: seq<ConfigEntry>, i: nat)
    requires LastFor(entries, i)
    ensures ParseInt(entries[i].key).value in ToMap(BuildTable(entries))
    ensures ToMap(BuildTable(entries))[ParseInt(entries[i].key).value] == entries[i].commands
    decreases |entries|
  {
    var init := entries[..|entries| - 1];
    var k := ParseInt(entries[i].key).value;
    if i < |init| {
      assert LastFor(init, i) by {
        assert forall j | i < j < |init| :: init[j] == entries[j];
      }
      BuildTableLastWins(init, i);
    }
  }

  /** A key that does not parse leaves the table exactly as it would be without it. */
  lemma {:induction false} BuildTableSkipsMalformed(a: seq<ConfigEntry>, e: ConfigEntry, b: seq<ConfigEntry>)
    requires ParseInt(e.key).None?
    ensures BuildTable(a + [e] + b) == BuildTable(a + b)
    decreases |b|
  {
    var x, y := a + [e] + b, a + b;
    if |b| == 0 {
      calc {
        BuildTable(x);
      == { BuildTableSnoc(x); assert x[..|x| - 1] == a; }
        LoadEntry(BuildTable(a), e);
      ==
        BuildTable(a);
      == { assert y == a; }
        BuildTable(y);
      }
    } else {
      var b' := b[..|b| - 1];
      var last := b[|b| - 1];
      calc {
        BuildTable(x);
      == { BuildTableSnoc(x); assert x[..|x| - 1] == a + [e] + b'; }
        LoadEntry(BuildTable(a + [e] + b'), last);
      == { BuildTableSkipsMalformed(a, e, b'); }
        LoadEntry(BuildTable(a + b'), last);
      == { BuildTableSnoc(y); assert y[..|y| - 1] == a + b'; }
        BuildTable(y);
      }
    }
  }

  /** The table built from a section: exactly the parsing keys, each with its last list in file order. */
  lemma BuildTableContents(entries: seq<ConfigEntry>)
    ensures KeySet(BuildTable(entries)) == ParsedKeys(entries)
    ensures forall i: nat | LastFor(entries, i) ::
      && ParseInt(entries[i].key).value in ToMap(BuildTable(entries))
      && ToMap(BuildTable(entries))[ParseInt(entries[i].key).value] == entries[i].commands
  {
    BuildTableKeys(entries);
    forall i: nat | LastFor(entries, i)
      ensures ParseInt(entries[i].key).value in ToMap(BuildTable(entries))
      ensures ToMap(BuildTable(entries))[ParseInt(entries[i].key).value] == entries[i].commands
    {
      BuildTableLastWins(entries, i);
    }
  }

  lemma BuildTableSnoc(entries: seq<ConfigEntry>)
    requires |entries| > 0
    ensures BuildTable(entries) == LoadEntry(BuildTable(entries[..|entries| - 1]), entries[|entries| - 1])
  {
  }

  /** The table, template and flag read from a configuration, or None without a thresholds section. */
  datatype Settings = Settings(table: Table, template: string, persist: bool)

  /**
   * `loadConfigValues`: `hourly-announcement` defaults to "" and
   * `persist-thresholds` to true. A missing section makes the key loop
   * fail, after the table was already cleared.
   */
  function LoadConfig(cfg: Config): (r: Option<Settings>)
    ensures r.Some? <==> cfg.thresholds.Some?
    ensures r.Some? ==> KeySet(r.value.table) == ParsedKeys(cfg.thresholds.value)
    ensures r.Some? ==> forall i: nat | LastFor(cfg.thresholds.value, i) ::
      var k := ParseInt(cfg.thresholds.value[i].key).value;
      k in ToMap(r.value.table) && ToMap(r.value.table)[k] == cfg.thresholds.value[i].commands
    ensures r.Some? ==> r.value.template == cfg.announcement.GetOr("")
    ensures r.Some? ==> r.value.persist == cfg.persistThresholds.GetOr(true)
  {
    match cfg.thresholds
    case None => None
    case Some(entries) =>
      BuildTableContents(entries);
      Some(Settings(BuildTable(entries), cfg.announcement.GetOr(""), cfg.persistThresholds.GetOr(true)))
  }

  /**
   * The reload command: new table, template and flag; the trigger set is
   * cleared exactly when the new flag is false. The record, the data
   * document and the disk copy are never touched. Without a thresholds
   * section the table stays cleared and nothing else changes.
   */
  function Reload(s: State, cfg: Config): (r: State)
    ensures r.doc == s.doc && r.disk == s.disk
    ensures cfg.thresholds.None? ==> r == s.(table := [])
    ensures cfg.thresholds.Some? ==>
      && r.table == BuildTable(cfg.thresholds.value)
      && r.template == cfg.announcement.GetOr("")
      && r.persist == cfg.persistThresholds.GetOr(true)
      && (!r.persist ==> r.triggered == {})
      && (r.persist ==> r.triggered == s.triggered)
  {
    match LoadConfig(cfg)
    case None => s.(table := [])
    case Some(c) =>
      var loaded := s.(table := c.table, template := c.template, persist := c.persist);
      if !c.persist then loaded.(triggered := {}) else loaded
  }

  /** The document `data.yml` reads as when the file was just created empty. */
  const EmptyDoc: Doc := Doc(0, {})

  /**
   * `onEnable`: load the configuration, then the data document (an empty
   * one when there is no file yet) and restore the trigger set from it,
   * whatever the persistence flag says. None when the configuration has no
   * thresholds section, which aborts enabling.
   */
  function Startup(cfg: Config, stored: Option<Doc>): (r: Option<State>)
    ensures r.Some? <==> cfg.thresholds.Some?
    ensures r.Some? ==>
      var doc := stored.GetOr(EmptyDoc);
      && r.value.doc == doc && r.value.disk == doc
      && r.value.triggered == doc.triggeredList
      && r.value.table == BuildTable(cfg.thresholds.value)
      && r.value.template == cfg.announcement.GetOr("")
      && r.value.persist == cfg.persistThresholds.GetOr(true)
    ensures r.Some? ==> Persisted(r.value)
  {
    match LoadConfig(cfg)
    case None => None
    case Some(c) =>
      var doc := stored.GetOr(EmptyDoc);
      Some(State(c.table, doc.triggeredList, c.persist, c.template, doc, doc))
  }

  /** `onDisable`: the document is written out unconditionally. */
  function Shutdown(s: State): (r: Step)
    ensures r.state.disk == s.doc && r.trace == [Save(s.doc)]
    ensures r.state.doc == s.doc && r.state.triggered == s.triggered && r.state.table == s.table
    ensures r.state.persist == s.persist && r.state.template == s.template
  {
    SaveData(s)
  }

  /**
   * A reload while persisting keeps the document in step with the trigger
   * set. (A reload that turns persistence back on does not: the set kept
   * in memory is written only at the next fire.)
   */
  lemma ReloadKeepsPersisted(s: State, cfg: Config)
    requires s.persist && Persisted(s)
    ensures Persisted(Reload(s, cfg))
  {
  }

  /**
   * Shutting down while persisting and starting again from the document
   * written restores the trigger set, whatever the new configuration.
   */
  lemma RestartRestores(s: State, cfg: Config)
    requires s.persist && Persisted(s)
    requires cfg.thresholds.Some?
    ensures Startup(cfg, Some(Shutdown(s).state.disk)).value.triggered == s.triggered
  {
  }
}
