/**
 * The trigger engine: `checkThresholds` (record high-water mark plus the
 * at-most-once firing of threshold command lists) and `getNextThreshold`.
 */
module Engine {
  import opened ThresholdTable

  /** The data document (`data.yml`): `record-online` and `triggered-thresholds`. */
  datatype Doc = Doc(record: int, triggeredList: set<int>)

  /** What a step does to the outside world: a console command, or a write of the document. */
  datatype Event = Dispatch(command: string) | Save(snapshot: Doc)

  /**
   * The plugin's state. `doc` is the in-memory data document; `disk` is the
   * document as last written by `saveData`.
   */
  datatype State = State(
    table: Table,
    triggered: set<int>,
    persist: bool,
    template: string,
    doc: Doc,
    disk: Doc)

  /** The state after an operation and the events it emitted, in order. */
  datatype Step = Step(state: State, trace: seq<Event>)

  function Max(a: int, b: int): int {
    if a < b then b else a
  }

  /** One `Dispatch` per command, in list order. */
  function Dispatches(cmds: seq<string>): seq<Event>
    decreases |cmds|
  {
    if |cmds| == 0 then [] else [Dispatch(cmds[0])] + Dispatches(cmds[1..])
  }

  /** `saveData`: the in-memory document becomes the document on disk. */
  function SaveData(s: State): Step {
    Step(s.(disk := s.doc), [Save(s.doc)])
  }

  /** The thresholds of `t` that are reached at `online`. */
  function Reached(t: Table, online: int): set<int> {
    set k | k in KeySet(t) && k <= online
  }

  /**
   * The entries a check at `online` fires, in table order: reached and not
   * yet in `trig`. Its map is the table's map cut down to those keys.
   */
  function Pending(t: Table, online: int, trig: set<int>): (p: Table)
    ensures KeySet(p) == Reached(t, online) - trig
    decreases |t|
  {
    if |t| == 0 then []
    else
      var rest := Pending(t[1..], online, trig);
      HeadIsLeast(t);
      if t[0].key <= online && t[0].key !in trig then
        Cons(t[0], rest);
        [t[0]] + rest
      else
        rest
  }

  /**
   * The pending entries carry the table's own command lists: their map is
   * the table's map cut down to the reached, untriggered keys. With
   * `ToMapInjective` this fixes the pending entries and their order.
   */
  lemma {:induction false} PendingMap(t: Table, online: int, trig: set<int>)
    ensures ToMap(Pending(t, online, trig))
         == map k | k in ToMap(t) && k <= online && k !in trig :: ToMap(t)[k]
    decreases |t|
  {
    if |t| > 0 {
      PendingMap(t[1..], online, trig);
      HeadIsLeast(t);
      ToMapTail(t);
      var rest := Pending(t[1..], online, trig);
      if t[0].key <= online && t[0].key !in trig {
        Cons(t[0], rest);
        assert ([t[0]] + rest)[1..] == rest;
      }
    }
  }

  /** A trigger set that differs only in a key the table lacks selects the same entries. */
  lemma {:induction false} PendingIgnores(t: Table, online: int, trig: set<int>, x: int)
    requires x !in KeySet(t)
    ensures Pending(t, online, trig + {x}) == Pending(t, online, trig)
    decreases |t|
  {
    if |t| > 0 {
      PendingIgnores(t[1..], online, trig, x);
    }
  }

  /**
   * Reference trace of firing the pending entries `p` in order, starting
   * from trigger set `trig`: each entry's commands, then, when persisting, a
   * save of the document whose triggered list is the set at that moment.
   */
  function FireLog(p: Table, trig: set<int>, record: int, persist: bool): seq<Event>
    decreases |p|
  {
    if |p| == 0 then []
    else
      var now := trig + {p[0].key};
      Dispatches(p[0].commands)
        + (if persist then [Save(Doc(record, now))] else [])
        + FireLog(p[1..], now, record, persist)
  }

  /**
   * One iteration that fires entry `e`: dispatch its commands, add its key
   * to the trigger set and, when persisting, write the set out.
   */
  function Fire(s: State, e: Entry): (r: Step)
    ensures r.state.table == s.table && r.state.doc.record == s.doc.record
    ensures r.state.triggered == s.triggered + {e.key}
    ensures Commands(r.trace) == e.commands
    ensures Saves(r.trace) == if s.persist then [Doc(s.doc.record, s.triggered + {e.key})] else []
  {
    var trig := s.triggered + {e.key};
    ProjectDispatches(e.commands);
    if s.persist then
      var fired := s.(triggered := trig, doc := s.doc.(triggeredList := trig));
      var saved := SaveData(fired);
      ProjectConcat(Dispatches(e.commands), saved.trace);
      Step(saved.state, Dispatches(e.commands) + saved.trace)
    else
      Step(s.(triggered := trig), Dispatches(e.commands))
  }

  /** The loop of `checkThresholds` over the entries `es`, in ascending order. */
  function FireFrom(es: Table, online: int, s: State): (r: Step)
    ensures r.state.table == s.table && r.state.persist == s.persist
    ensures r.state.template == s.template && r.state.doc.record == s.doc.record
    ensures r.state.triggered == s.triggered + Reached(es, online)
    ensures var p := Pending(es, online, s.triggered);
      && r.trace == FireLog(p, s.triggered, s.doc.record, s.persist)
      && r.state.doc.triggeredList
         == (if s.persist && |p| > 0 then r.state.triggered else s.doc.triggeredList)
      && r.state.disk == (if s.persist && |p| > 0 then r.state.doc else s.disk)
    decreases |es|
  {
    if |es| == 0 then Step(s, [])
    else
      var e := es[0];
      HeadIsLeast(es);
      if online >= e.key && e.key !in s.triggered then
        var f := Fire(s, e);
        var rest := FireFrom(es[1..], online, f.state);
        PendingIgnores(es[1..], online, s.triggered, e.key);
        Step(rest.state, f.trace + rest.trace)
      else
        FireFrom(es[1..], online, s)
  }

  /**
   * `checkThresholds(online)`: raise and save the record when `online`
   * exceeds it, then fire, in ascending threshold order, every reached
   * threshold that has not fired yet.
   */
  function Check(s: State, online: nat): (r: Step)
    ensures r.state.table == s.table && r.state.persist == s.persist
    ensures r.state.template == s.template
    ensures r.state.doc.record == Max(s.doc.record, online)
    ensures r.state.triggered == s.triggered + Reached(s.table, online)
    ensures var p := Pending(s.table, online, s.triggered);
      var record := Max(s.doc.record, online);
      && r.trace
         == (if online > s.doc.record then [Save(Doc(record, s.doc.triggeredList))] else [])
            + FireLog(p, s.triggered, record, s.persist)
      && r.state.doc.triggeredList
         == (if s.persist && |p| > 0 then r.state.triggered else s.doc.triggeredList)
      && r.state.disk
         == (if online > s.doc.record || (s.persist && |p| > 0) then r.state.doc else s.disk)
  {
    var first :=
      if online > s.doc.record then SaveData(s.(doc := s.doc.(record := online)))
      else Step(s, []);
    var f := FireFrom(s.table, online, first.state);
    Step(f.state, first.trace + f.trace)
  }

  /**
   * `getNextThreshold(current)`: the least threshold strictly above
   * `current`, or `current` itself when there is none.
   */
  function NextThreshold(t: Table, current: int): (r: int)
    ensures r >= current
    ensures r == current <==> forall k | k in KeySet(t) :: k <= current
    ensures r > current ==> r in KeySet(t)
    ensures forall k | k in KeySet(t) && k > current :: r <= k
  {
    var above := FirstKeyAbove(t, current);
    if above.Some? then
      assert above.value in KeySet(t);
      assert !(forall k | k in KeySet(t) :: k <= current);
      above.value
    else
      current
  }

  /** The commands a trace dispatches, in order. */
  function Commands(trace: seq<Event>): seq<string>
    decreases |trace|
  {
    if |trace| == 0 then []
    else (if trace[0].Dispatch? then [trace[0].command] else []) + Commands(trace[1..])
  }

  /** The documents a trace writes to disk, in order. */
  function Saves(trace: seq<Event>): seq<Doc>
    decreases |trace|
  {
    if |trace| == 0 then []
    else (if trace[0].Save? then [trace[0].snapshot] else []) + Saves(trace[1..])
  }

  /** The command lists of `p`, concatenated in order. */
  function Flatten(p: seq<Entry>): seq<string>
    decreases |p|
  {
    if |p| == 0 then [] else p[0].commands + Flatten(p[1..])
  }

  /**
   * The documents written while firing `p` from trigger set `trig`: after
   * the j-th fire, the set holds `trig` and the first j + 1 keys of `p`.
   */
  function Snapshots(p: seq<Entry>, trig: set<int>, record: int): (r: seq<Doc>)
    ensures |r| == |p|
  {
    seq(|p|, j requires 0 <= j < |p| => Doc(record, trig + KeySet(p[..j + 1])))
  }

  lemma {:induction false} ProjectConcat(a: seq<Event>, b: seq<Event>)
    ensures Commands(a + b) == Commands(a) + Commands(b)
    ensures Saves(a + b) == Saves(a) + Saves(b)
    decreases |a|
  {
    if |a| > 0 {
      ProjectConcat(a[1..], b);
      assert (a + b)[1..] == a[1..] + b;
    } else {
      assert a + b == b;
    }
  }

  lemma {:induction false} ProjectDispatches(cmds: seq<string>)
    ensures Commands(Dispatches(cmds)) == cmds
    ensures Saves(Dispatches(cmds)) == []
    decreases |cmds|
  {
    if |cmds| > 0 {
      ProjectDispatches(cmds[1..]);
      ProjectConcat([Dispatch(cmds[0])], Dispatches(cmds[1..]));
    }
  }

  /** Firing dispatches exactly the pending command lists, one after the other. */
  lemma {:induction false} FireLogCommands(p: Table, trig: set<int>, record: int, persist: bool)
    ensures Commands(FireLog(p, trig, record, persist)) == Flatten(p)
    decreases |p|
  {
    if |p| > 0 {
      var now := trig + {p[0].key};
      var tail := FireLog(p[1..], now, record, persist);
      var saves: seq<Event> := if persist then [Save(Doc(record, now))] else [];
      FireLogCommands(p[1..], now, record, persist);
      ProjectDispatches(p[0].commands);
      ProjectConcat(Dispatches(p[0].commands), saves);
      ProjectConcat(Dispatches(p[0].commands) + saves, tail);
    }
  }

  lemma SnapshotsCons(p: seq<Entry>, trig: set<int>, record: int)
    requires |p| > 0
    ensures Snapshots(p, trig, record)
         == [Doc(record, trig + {p[0].key})] + Snapshots(p[1..], trig + {p[0].key}, record)
  {
    var a := Snapshots(p, trig, record);
    var b := [Doc(record, trig + {p[0].key})] + Snapshots(p[1..], trig + {p[0].key}, record);
    forall j | 0 <= j < |p|
      ensures a[j] == b[j]
    {
      assert p[..j + 1][1..] == p[1..][..j];
      assert KeySet(p[..j + 1]) == {p[0].key} + KeySet(p[1..][..j]);
      if j > 0 {
        assert b[j] == Snapshots(p[1..], trig + {p[0].key}, record)[j - 1];
      }
    }
  }

  /**
   * When persisting, firing writes one document per fired threshold, whose
   * triggered list is the in-memory set right after that fire; when not
   * persisting, firing writes nothing.
   */
  lemma {:induction false} FireLogSaves(p: Table, trig: set<int>, record: int, persist: bool)
    ensures Saves(FireLog(p, trig, record, persist))
         == (if persist then Snapshots(p, trig, record) else [])
    decreases |p|
  {
    if |p| > 0 {
      var now := trig + {p[0].key};
      var tail := FireLog(p[1..], now, record, persist);
      var saves: seq<Event> := if persist then [Save(Doc(record, now))] else [];
      FireLogSaves(p[1..], now, record, persist);
      ProjectDispatches(p[0].commands);
      ProjectConcat(Dispatches(p[0].commands), saves);
      ProjectConcat(Dispatches(p[0].commands) + saves, tail);
      if persist {
        SnapshotsCons(p, trig, record);
      }
    }
  }

  /**
   * The commands a check dispatches are the command lists of the reached,
   * not yet triggered thresholds, concatenated in ascending threshold order.
   */
  lemma CheckCommands(s: State, online: nat)
    ensures Commands(Check(s, online).trace) == Flatten(Pending(s.table, online, s.triggered))
  {
    var r := Check(s, online);
    var p := Pending(s.table, online, s.triggered);
    var record := Max(s.doc.record, online);
    var first: seq<Event> := if online > s.doc.record then [Save(Doc(record, s.doc.triggeredList))] else [];
    ProjectConcat(first, FireLog(p, s.triggered, record, s.persist));
    FireLogCommands(p, s.triggered, record, s.persist);
  }

  /**
   * The documents a check writes: the raised record first (only when
   * `online` beats it), then, only when persisting, one document per fired
   * threshold holding the trigger set as it stood right after that fire.
   */
  lemma CheckSaves(s: State, online: nat)
    ensures var p := Pending(s.table, online, s.triggered);
      var record := Max(s.doc.record, online);
      Saves(Check(s, online).trace)
      == (if online > s.doc.record then [Doc(online, s.doc.triggeredList)] else [])
         + (if s.persist then Snapshots(p, s.triggered, record) else [])
  {
    var p := Pending(s.table, online, s.triggered);
    var record := Max(s.doc.record, online);
    var first: seq<Event> := if online > s.doc.record then [Save(Doc(record, s.doc.triggeredList))] else [];
    ProjectConcat(first, FireLog(p, s.triggered, record, s.persist));
    FireLogSaves(p, s.triggered, record, s.persist);
  }

  /**
   * While persisting, the document's triggered list is the trigger set, so
   * the list a restart restores is exactly what has fired.
   */
  predicate Persisted(s: State) {
    s.persist ==> s.doc.triggeredList == s.triggered
  }

  /** A check keeps the triggered list on the document in step with the trigger set. */
  lemma CheckKeepsPersisted(s: State, online: nat)
    requires Persisted(s)
    ensures Persisted(Check(s, online).state)
  {
    var r := Check(s, online).state;
    var p := Pending(s.table, online, s.triggered);
    if s.persist && |p| == 0 {
      var reached := Reached(s.table, online);
      assert reached - s.triggered == KeySet(p) == {};
      NothingNew(s.triggered, reached);
    }
  }

  lemma NothingNew(before: set<int>, reached: set<int>)
    requires reached - before == {}
    ensures before + reached == before
  {
    forall x | x in reached
      ensures x in before
    {
      assert x !in reached - before;
    }
  }

  /** A second check at the same count dispatches nothing, saves nothing and changes nothing. */
  lemma CheckIdempotent(s: State, online: nat)
    ensures var once := Check(s, online).state;
      Check(once, online) == Step(once, [])
  {
  }
}
