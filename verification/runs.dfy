/**
 * Sequences of operations: the guarantees that only show over several
 * checks (at-most-once firing, the record high-water mark) and how a
 * reload starts a new round of firing.
 */
module Runs {
  import opened Wrappers
  import opened ThresholdTable
  import opened Engine
  import opened Lifecycle

  /** One check per observed online count, traces concatenated. */
  function Run(s: State, counts: seq<nat>): (r: Step)
    ensures r.state.table == s.table && r.state.persist == s.persist
    ensures r.state.template == s.template
    decreases |counts|
  {
    if |counts| == 0 then Step(s, [])
    else
      var first := Check(s, counts[0]);
      var rest := Run(first.state, counts[1..]);
      Step(rest.state, first.trace + rest.trace)
  }

  /** The keys of entries, in order. */
  function KeysInOrder(p: seq<Entry>): seq<int>
    decreases |p|
  {
    if |p| == 0 then [] else [p[0].key] + KeysInOrder(p[1..])
  }

  /** The thresholds a run fires, in the order it fires them. */
  function RunFired(s: State, counts: seq<nat>): seq<int>
    decreases |counts|
  {
    if |counts| == 0 then []
    else
      KeysInOrder(Pending(s.table, counts[0], s.triggered))
        + RunFired(Check(s, counts[0]).state, counts[1..])
  }

  predicate NoDuplicates(xs: seq<int>) {
    forall i, j | 0 <= i < j < |xs| :: xs[i] != xs[j]
  }

  /** Some count of the run reaches `x`. */
  predicate SomeCountReaches(counts: seq<nat>, x: int) {
    exists i | 0 <= i < |counts| :: x <= counts[i]
  }

  lemma {:induction false} KeysInOrderAt(p: seq<Entry>)
    ensures |KeysInOrder(p)| == |p|
    ensures forall i | 0 <= i < |p| :: KeysInOrder(p)[i] == p[i].key
    decreases |p|
  {
    if |p| > 0 {
      KeysInOrderAt(p[1..]);
    }
  }

  lemma KeysInOrderOfTable(t: Table)
    ensures NoDuplicates(KeysInOrder(t))
    ensures forall x :: x in KeysInOrder(t) <==> x in KeySet(t)
  {
    KeysInOrderAt(t);
    forall x
      ensures x in KeysInOrder(t) <==> x in KeySet(t)
    {
      KeySetIndex(t, x);
    }
  }

  lemma NoDuplicatesConcat(a: seq<int>, b: seq<int>)
    requires NoDuplicates(a) && NoDuplicates(b)
    requires forall x | x in a :: x !in b
    ensures NoDuplicates(a + b)
  {
    var c := a + b;
    forall i, j | 0 <= i < j < |c|
      ensures c[i] != c[j]
    {
      if i < |a| && j >= |a| {
        assert c[i] in a && c[j] == b[j - |a|];
      } else if j < |a| {
        assert c[i] == a[i] && c[j] == a[j];
      } else {
        assert c[i] == b[i - |a|] && c[j] == b[j - |a|];
      }
    }
  }

  lemma SomeCountReachesCons(counts: seq<nat>, x: int)
    requires |counts| > 0
    ensures SomeCountReaches(counts, x) <==> x <= counts[0] || SomeCountReaches(counts[1..], x)
  {
    var rest := counts[1..];
    if SomeCountReaches(rest, x) {
      var i :| 0 <= i < |rest| && x <= rest[i];
      assert counts[i + 1] == rest[i];
    }
    if SomeCountReaches(counts, x) {
      var i :| 0 <= i < |counts| && x <= counts[i];
      if i > 0 {
        assert rest[i - 1] == counts[i];
      }
    }
  }

  /**
   * Exactly when reached: over any run without a reload, the thresholds
   * fired are those not triggered at the start that some count reached,
   * even if counts drop in between.
   */
  lemma {:induction false} RunFiresReached(s: State, counts: seq<nat>)
    ensures forall x :: (x in RunFired(s, counts)
      <==> x in KeySet(s.table) && x !in s.triggered && SomeCountReaches(counts, x))
    decreases |counts|
  {
    if |counts| > 0 {
      var c := counts[0];
      var p := Pending(s.table, c, s.triggered);
      var s1 := Check(s, c).state;
      RunFiresReached(s1, counts[1..]);
      KeysInOrderOfTable(p);
      forall x
        ensures SomeCountReaches(counts, x) <==> x <= c || SomeCountReaches(counts[1..], x)
      {
        SomeCountReachesCons(counts, x);
      }
    }
  }

  /**
   * The first time reached: the thresholds the check on `counts[i]` fires
   * are those, not triggered at the start, that `counts[i]` reaches and no
   * earlier count of the run reached.
   */
  lemma FiresAtFirstReach(s: State, counts: seq<nat>, i: nat)
    requires i < |counts|
    ensures var b := Run(s, counts[..i]).state;
      forall x :: x in KeySet(Pending(b.table, counts[i], b.triggered))
        <==> && x in KeySet(s.table) && x !in s.triggered && x <= counts[i]
             && forall j | 0 <= j < i :: counts[j] < x
  {
    var before := counts[..i];
    RunTriggered(s, before);
    RunFiresReached(s, before);
    assert forall j | 0 <= j < i :: before[j] == counts[j];
  }

  /** Strictly increasing. */
  predicate Increasing(xs: seq<int>) {
    forall i, j | 0 <= i < j < |xs| :: xs[i] < xs[j]
  }

  lemma IncreasingConcat(a: seq<int>, b: seq<int>)
    requires Increasing(a) && Increasing(b)
    requires forall x, y | x in a && y in b :: x < y
    ensures Increasing(a + b)
  {
    var c := a + b;
    forall i, j | 0 <= i < j < |c|
      ensures c[i] < c[j]
    {
      if i < |a| && j >= |a| {
        assert c[i] == a[i] && c[j] == b[j - |a|];
        assert a[i] in a && b[j - |a|] in b;
      } else if j < |a| {
        assert c[i] == a[i] && c[j] == a[j];
      } else {
        assert c[i] == b[i - |a|] && c[j] == b[j - |a|];
      }
    }
  }

  /**
   * Over a whole run the thresholds fire in strictly ascending order: a
   * threshold fired later was out of reach of every earlier count, so it
   * lies above everything fired before it.
   */
  lemma {:induction false} RunFiredIncreasing(s: State, counts: seq<nat>)
    ensures Increasing(RunFired(s, counts))
    decreases |counts|
  {
    if |counts| > 0 {
      var c, rest := counts[0], counts[1..];
      var p := Pending(s.table, c, s.triggered);
      var s1 := Check(s, c).state;
      RunFiredIncreasing(s1, rest);
      RunFiresReached(s1, rest);
      KeysInOrderOfTable(p);
      KeysInOrderAt(p);
      assert forall x | x in KeysInOrder(p) :: x <= c;
      assert forall y | y in RunFired(s1, rest) :: c < y;
      IncreasingConcat(KeysInOrder(p), RunFired(s1, rest));
    }
  }

  /** The values a sequence holds. */
  function Elems(xs: seq<int>): set<int> {
    set x | x in xs
  }

  lemma ElemsConcat(a: seq<int>, b: seq<int>)
    ensures Elems(a + b) == Elems(a) + Elems(b)
  {
  }

  /** A run keeps the table, and every threshold it fires ends up triggered. */
  lemma {:induction false} RunTriggered(s: State, counts: seq<nat>)
    ensures Run(s, counts).state.table == s.table
    ensures Run(s, counts).state.triggered == s.triggered + Elems(RunFired(s, counts))
    decreases |counts|
  {
    if |counts| > 0 {
      var c, rest := counts[0], counts[1..];
      var p := Pending(s.table, c, s.triggered);
      var s1 := Check(s, c).state;
      RunTriggered(s1, rest);
      KeysInOrderOfTable(p);
      assert Elems(KeysInOrder(p)) == KeySet(p);
      ElemsConcat(KeysInOrder(p), RunFired(s1, rest));
      TriggeredStep(s.triggered, Reached(s.table, c), KeySet(p), Elems(RunFired(s1, rest)));
    }
  }

  lemma TriggeredStep(before: set<int>, reached: set<int>, now: set<int>, later: set<int>)
    requires now == reached - before
    ensures before + reached + later == before + (now + later)
  {
  }

  /** At most once: over any run without a reload, no threshold fires twice. */
  lemma {:induction false} RunFiresOnce(s: State, counts: seq<nat>)
    ensures NoDuplicates(RunFired(s, counts))
    decreases |counts|
  {
    if |counts| > 0 {
      var c := counts[0];
      var p := Pending(s.table, c, s.triggered);
      var s1 := Check(s, c).state;
      RunFiresOnce(s1, counts[1..]);
      RunFiresReached(s1, counts[1..]);
      KeysInOrderOfTable(p);
      NoDuplicatesConcat(KeysInOrder(p), RunFired(s1, counts[1..]));
    }
  }

  /** The largest of `base` and the counts. */
  predicate IsHighest(r: int, base: int, counts: seq<nat>) {
    && base <= r
    && (forall i | 0 <= i < |counts| :: counts[i] <= r)
    && (r == base || exists i | 0 <= i < |counts| :: r == counts[i])
  }

  /** The old record folded with every count by `Math.max`. */
  function Highest(base: int, counts: seq<nat>): int
    decreases |counts|
  {
    if |counts| == 0 then base else Highest(Max(base, counts[0]), counts[1..])
  }

  /** The fold is the largest of `base` and the counts. */
  lemma {:induction false} HighestIsLargest(base: int, counts: seq<nat>)
    ensures IsHighest(Highest(base, counts), base, counts)
    decreases |counts|
  {
    if |counts| > 0 {
      var m, rest := Max(base, counts[0]), counts[1..];
      HighestIsLargest(m, rest);
      var r := Highest(base, counts);
      assert forall i | 0 <= i < |rest| :: rest[i] == counts[i + 1];
      if r != m {
        var i :| 0 <= i < |rest| && r == rest[i];
        assert r == counts[i + 1];
      }
    }
  }

  lemma {:induction false} RunRecordIsHighest(s: State, counts: seq<nat>)
    ensures Run(s, counts).state.doc.record == Highest(s.doc.record, counts)
    decreases |counts|
  {
    if |counts| > 0 {
      RunRecordIsHighest(Check(s, counts[0]).state, counts[1..]);
    }
  }

  /** After a run the record is the largest of the old record and every count seen. */
  lemma RunRecord(s: State, counts: seq<nat>)
    ensures IsHighest(Run(s, counts).state.doc.record, s.doc.record, counts)
  {
    RunRecordIsHighest(s, counts);
    HighestIsLargest(s.doc.record, counts);
  }

  /**
   * After a reload that turns persistence off, every reached threshold
   * fires again; after one that keeps it on, only thresholds that never
   * fired do.
   */
  lemma ReloadThenCheck(s: State, cfg: Config, online: nat)
    requires cfg.thresholds.Some?
    ensures var r := Reload(s, cfg);
      KeySet(Pending(r.table, online, r.triggered))
      == if r.persist then Reached(r.table, online) - s.triggered else Reached(r.table, online)
  {
  }

  /** The record after each check of a run. */
  function RecordTrail(s: State, counts: seq<nat>): (r: seq<int>)
    ensures |r| == |counts|
    decreases |counts|
  {
    if |counts| == 0 then []
    else
      var next := Check(s, counts[0]).state;
      [next.doc.record] + RecordTrail(next, counts[1..])
  }

  /** The running maximum of `base` and the counts, one value per count. */
  function RunningMax(base: int, counts: seq<nat>): (r: seq<int>)
    ensures |r| == |counts|
    decreases |counts|
  {
    if |counts| == 0 then []
    else
      var m := Max(base, counts[0]);
      [m] + RunningMax(m, counts[1..])
  }

  /** The record trail is the running maximum of the counts, starting from the stored record. */
  lemma {:induction false} RecordTrailIsRunningMax(s: State, counts: seq<nat>)
    ensures RecordTrail(s, counts) == RunningMax(s.doc.record, counts)
    decreases |counts|
  {
    if |counts| > 0 {
      RecordTrailIsRunningMax(Check(s, counts[0]).state, counts[1..]);
    }
  }

  /** A running maximum never decreases and never drops below its base. */
  lemma {:induction false} RunningMaxMonotone(base: int, counts: seq<nat>)
    ensures forall i, j | 0 <= i < j < |counts| :: RunningMax(base, counts)[i] <= RunningMax(base, counts)[j]
    ensures forall i | 0 <= i < |counts| :: base <= RunningMax(base, counts)[i]
    decreases |counts|
  {
    if |counts| > 0 {
      var m, rest := Max(base, counts[0]), counts[1..];
      RunningMaxMonotone(m, rest);
      var tr := RunningMax(base, counts);
      assert forall i | 0 < i < |counts| :: tr[i] == RunningMax(m, rest)[i - 1];
    }
  }

  /** The record never decreases from one check to the next. */
  lemma RecordTrailMonotone(s: State, counts: seq<nat>)
    ensures forall i, j | 0 <= i < j < |counts| :: RecordTrail(s, counts)[i] <= RecordTrail(s, counts)[j]
    ensures forall i | 0 <= i < |counts| :: s.doc.record <= RecordTrail(s, counts)[i]
  {
    RecordTrailIsRunningMax(s, counts);
    RunningMaxMonotone(s.doc.record, counts);
  }

  /** A run keeps the document's triggered list in step with the trigger set. */
  lemma {:induction false} RunKeepsPersisted(s: State, counts: seq<nat>)
    requires Persisted(s)
    ensures Persisted(Run(s, counts).state)
    decreases |counts|
  {
    if |counts| > 0 {
      CheckKeepsPersisted(s, counts[0]);
      RunKeepsPersisted(Check(s, counts[0]).state, counts[1..]);
    }
  }

  /**
   * Thresholds survive a restart: start, run any checks, shut down while
   * persisting, and start again with any configuration, and the trigger set
   * comes back as it was.
   */
  lemma LifetimeRestores(cfg: Config, stored: Option<Doc>, counts: seq<nat>, next: Config)
    requires cfg.thresholds.Some? && next.thresholds.Some?
    ensures var s := Run(Startup(cfg, stored).value, counts).state;
      s.persist ==> Startup(next, Some(Shutdown(s).state.disk)).value.triggered == s.triggered
  {
    var s := Run(Startup(cfg, stored).value, counts).state;
    RunKeepsPersisted(Startup(cfg, stored).value, counts);
    if s.persist {
      RestartRestores(s, next);
    }
  }
}
