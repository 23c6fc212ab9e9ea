/** Concrete scenarios for the documented behaviour of the engine. */
module Scenarios {
  import opened Wrappers
  import opened Decimal
  import opened ThresholdTable
  import opened Engine
  import opened Lifecycle
  import opened Runs

  /** Thresholds 10, 25 and 50: the next one after 12 is 25; after 50 there is none, so 50 itself. */
  lemma NextThresholdExample()
    ensures var t := Put(Put(Put([], 10, []), 25, []), 50, []);
      NextThreshold(t, 12) == 25 && NextThreshold(t, 50) == 50
  {
    var t := Put(Put(Put([], 10, []), 25, []), 50, []);
    assert KeySet(t) == {10, 25, 50};
  }

  lemma RunningMaxExample()
    ensures RunningMax(0, [5, 20, 8, 20, 30]) == [5, 20, 20, 20, 30]
  {
  }

  /** Counts 5, 20, 8, 20, 30 from a record of 0 leave the record at 5, 20, 20, 20, 30. */
  lemma RecordExample(s: State)
    requires s.doc.record == 0
    ensures RecordTrail(s, [5, 20, 8, 20, 30]) == [5, 20, 20, 20, 30]
  {
    calc {
      RecordTrail(s, [5, 20, 8, 20, 30]);
    == { RecordTrailIsRunningMax(s, [5, 20, 8, 20, 30]); }
      RunningMax(0, [5, 20, 8, 20, 30]);
    == { RunningMaxExample(); }
      [5, 20, 20, 20, 30];
    }
  }

  /** A key that is not a number is skipped and the other keys still load. */
  lemma MalformedKeyExample()
    ensures BuildTable([ConfigEntry("abc", ["X"]), ConfigEntry("5", ["A"])]) == [Entry(5, ["A"])]
  {
    assert ParseInt("abc") == None by {
      ParseRejectsNonDigit("abc", 0);
    }
    assert ParseInt("5") == Some(5);
    BuildTableSkipsMalformed([], ConfigEntry("abc", ["X"]), [ConfigEntry("5", ["A"])]);
    assert [] + [ConfigEntry("abc", ["X"])] + [ConfigEntry("5", ["A"])]
        == [ConfigEntry("abc", ["X"]), ConfigEntry("5", ["A"])];
  }

  const EndToEndTable: Table := [Entry(5, ["A"]), Entry(10, ["B", "C"])]

  /** A fresh start with persistence on and no data file yet. */
  const Fresh: State := State(EndToEndTable, {}, true, "", EmptyDoc, EmptyDoc)

  const AfterThree: State := State(EndToEndTable, {}, true, "", Doc(3, {}), Doc(3, {}))
  const AfterFive: State := State(EndToEndTable, {5}, true, "", Doc(5, {5}), Doc(5, {5}))
  const AfterTen: State := State(EndToEndTable, {5, 10}, true, "", Doc(10, {5, 10}), Doc(10, {5, 10}))

  const TraceThree: seq<Event> := [Save(Doc(3, {}))]
  const TraceFive: seq<Event> := [Save(Doc(5, {})), Dispatch("A"), Save(Doc(5, {5}))]
  const TraceTen: seq<Event> := [Save(Doc(10, {5})), Dispatch("B"), Dispatch("C"), Save(Doc(10, {5, 10}))]

  lemma StepThree(s: State)
    requires s == Fresh
    ensures Check(s, 3) == Step(AfterThree, TraceThree)
  {
    assert Pending(EndToEndTable, 3, {}) == [];
  }

  lemma StepFive(s: State)
    requires s == AfterThree
    ensures Check(s, 5) == Step(AfterFive, TraceFive)
  {
    var p := Pending(EndToEndTable, 5, {});
    assert p == [Entry(5, ["A"])];
    assert Reached(EndToEndTable, 5) == {5};
    assert Dispatches(["A"]) == [Dispatch("A")];
    assert p[1..] == [];
    assert {} + {5} == {5};
    assert FireLog(p, {}, 5, true) == [Dispatch("A"), Save(Doc(5, {5}))];
  }

  lemma StepTen(s: State)
    requires s == AfterFive
    ensures Check(s, 10) == Step(AfterTen, TraceTen)
  {
    var p := Pending(EndToEndTable, 10, {5});
    assert p == [Entry(10, ["B", "C"])];
    assert Reached(EndToEndTable, 10) == {5, 10};
    assert Dispatches(["C"]) == [Dispatch("C")];
    assert Dispatches(["B", "C"]) == [Dispatch("B"), Dispatch("C")];
    assert p[1..] == [];
    assert {5} + {10} == {5, 10};
    assert FireLog(p, {5}, 10, true) == [Dispatch("B"), Dispatch("C"), Save(Doc(10, {5, 10}))];
  }

  /** Seeing 5 again after it fired changes nothing and writes nothing. */
  lemma RepeatFive(prev: State, s: State)
    requires prev == AfterThree && s == AfterFive
    ensures Check(s, 5) == Step(s, [])
  {
    StepFive(prev);
    CheckIdempotent(prev, 5);
  }

  /** What each check of the run fires. */
  lemma PendingSteps()
    ensures Pending(EndToEndTable, 3, {}) == []
    ensures Pending(EndToEndTable, 5, {}) == [Entry(5, ["A"])]
    ensures Pending(EndToEndTable, 5, {5}) == []
    ensures Pending(EndToEndTable, 10, {5}) == [Entry(10, ["B", "C"])]
  {
  }

  /** A run starts with the check of its first count. */
  lemma RunCons(s: State, counts: seq<nat>, first: Step)
    requires |counts| > 0 && first == Check(s, counts[0])
    ensures Run(s, counts) == Step(Run(first.state, counts[1..]).state, first.trace + Run(first.state, counts[1..]).trace)
  {
  }

  /** The thresholds a run fires start with those its first check fires. */
  lemma RunFiredCons(s: State, counts: seq<nat>, next: State)
    requires |counts| > 0 && next == Check(s, counts[0]).state
    ensures RunFired(s, counts) == KeysInOrder(Pending(s.table, counts[0], s.triggered)) + RunFired(next, counts[1..])
  {
  }

  lemma RunTen(s: State, counts: seq<nat>)
    requires s == AfterFive && counts == [10]
    ensures Run(s, counts) == Step(AfterTen, TraceTen)
  {
    StepTen(s);
    RunCons(s, counts, Check(s, 10));
    assert counts[1..] == [];
    assert TraceTen + [] == TraceTen;
  }

  lemma FiredTen(s: State, counts: seq<nat>)
    requires s == AfterFive && counts == [10]
    ensures RunFired(s, counts) == [10]
  {
    StepTen(s);
    PendingSteps();
    RunFiredCons(s, counts, AfterTen);
    assert counts[1..] == [];
    assert KeysInOrder([Entry(10, ["B", "C"])]) == [10];
  }

  lemma RunFiveTen(prev: State, s: State, counts: seq<nat>)
    requires prev == AfterThree && s == AfterFive && counts == [5, 10]
    ensures Run(s, counts) == Step(AfterTen, TraceTen)
  {
    var rest := counts[1..];
    calc {
      Run(s, counts);
    == { RepeatFive(prev, s); RunCons(s, counts, Step(s, [])); }
      Step(Run(s, rest).state, [] + Run(s, rest).trace);
    == { assert rest == [10]; RunTen(s, rest); }
      Step(AfterTen, [] + TraceTen);
    == { assert [] + TraceTen == TraceTen; }
      Step(AfterTen, TraceTen);
    }
  }

  lemma FiredFiveTen(prev: State, s: State, counts: seq<nat>)
    requires prev == AfterThree && s == AfterFive && counts == [5, 10]
    ensures RunFired(s, counts) == [10]
  {
    RepeatFive(prev, s);
    PendingSteps();
    RunFiredCons(s, counts, s);
    assert counts[1..] == [10];
    FiredTen(s, counts[1..]);
    assert KeysInOrder([]) + [10] == [10];
  }

  lemma RunFiveFiveTen(s: State, counts: seq<nat>)
    requires s == AfterThree && counts == [5, 5, 10]
    ensures Run(s, counts) == Step(AfterTen, TraceFive + TraceTen)
  {
    StepFive(s);
    RunCons(s, counts, Step(AfterFive, TraceFive));
    assert counts[1..] == [5, 10];
    RunFiveTen(s, AfterFive, counts[1..]);
  }

  lemma FiredFiveFiveTen(s: State, counts: seq<nat>)
    requires s == AfterThree && counts == [5, 5, 10]
    ensures RunFired(s, counts) == [5, 10]
  {
    var rest := counts[1..];
    calc {
      RunFired(s, counts);
    == { StepFive(s); RunFiredCons(s, counts, AfterFive); }
      KeysInOrder(Pending(s.table, 5, s.triggered)) + RunFired(AfterFive, rest);
    == { PendingSteps(); assert rest == [5, 10]; FiredFiveTen(s, AfterFive, rest); }
      KeysInOrder([Entry(5, ["A"])]) + [10];
    == { assert KeysInOrder([Entry(5, ["A"])]) == [5]; }
      [5, 10];
    }
  }

  lemma EndToEndCommands()
    ensures Commands(TraceThree + TraceFive + TraceTen) == ["A", "B", "C"]
  {
    ProjectConcat(TraceThree, TraceFive);
    ProjectConcat(TraceThree + TraceFive, TraceTen);
    assert Commands(TraceThree) == [];
    assert Commands(TraceFive[2..]) == [];
    assert Commands(TraceFive) == ["A"];
    assert Commands(TraceTen[2..]) == ["C"];
    assert Commands(TraceTen) == ["B", "C"];
  }

  lemma EndToEndRun(s: State, counts: seq<nat>)
    requires s == Fresh && counts == [3, 5, 5, 10]
    ensures Run(s, counts) == Step(AfterTen, TraceThree + (TraceFive + TraceTen))
  {
    StepThree(s);
    RunCons(s, counts, Step(AfterThree, TraceThree));
    assert counts[1..] == [5, 5, 10];
    RunFiveFiveTen(AfterThree, counts[1..]);
  }

  lemma EndToEndFired(s: State, counts: seq<nat>)
    requires s == Fresh && counts == [3, 5, 5, 10]
    ensures RunFired(s, counts) == [5, 10]
  {
    StepThree(s);
    PendingSteps();
    RunFiredCons(s, counts, AfterThree);
    assert counts[1..] == [5, 5, 10];
    FiredFiveFiveTen(AfterThree, counts[1..]);
    assert [] + [5, 10] == [5, 10];
  }

  /**
   * Thresholds 5 -> [A] and 10 -> [B, C], persistence on, counts 3, 5, 5,
   * 10: the record is written at 3 and 5; A fires once, at the second
   * check, and the triggered list {5} is written; the third check does
   * nothing; at the fourth the record 10 is written, B and C fire and the
   * triggered list {5, 10} is written.
   */
  lemma EndToEndExample(s: State, counts: seq<nat>)
    requires s == Fresh && counts == [3, 5, 5, 10]
    ensures Run(s, counts) == Step(AfterTen, TraceThree + TraceFive + TraceTen)
    ensures Commands(Run(s, counts).trace) == ["A", "B", "C"]
    ensures RunFired(s, counts) == [5, 10]
  {
    EndToEndRun(s, counts);
    assert TraceThree + (TraceFive + TraceTen) == TraceThree + TraceFive + TraceTen;
    EndToEndFired(s, counts);
    EndToEndCommands();
  }
}
