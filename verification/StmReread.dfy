/** A body that reads a TVar twice can commit a result no serial run produces: the
  second read replaces the version that the first one recorded
  (python/stm/stm_model.py:64-67). */
module StmReread {
  import opened Runs
  import opened Stm

  const X: Id := 0
  const Y: Id := 1

  /** Reads X twice and stores the difference in Y: zero, in any serial run. */
  function Rereader(seen: seq<int>): Op {
    if |seen| < 2 then Read(X) else if |seen| == 2 then Write(Y, seen[1] - seen[0]) else Return
  }

  function Writer(seen: seq<int>): Op {
    if seen == [] then Write(X, 5) else Return
  }

  ghost function Thread0(phase: Phase, done: nat, view: View, readSet: Memory): Local {
    Local([Rereader], done, phase, view, readSet, 0, 0)
  }

  ghost function Thread1(phase: Phase, done: nat, view: View): Local {
    Local([Writer], done, phase, view, map[], 0, 0)
  }

  ghost const START := State(
    map[X := Cell(0, 0), Y := Cell(0, 0)], NOBODY,
    [Thread0(Phase.Start, 0, BLANK, map[]), Thread1(Phase.Start, 0, BLANK)], map[], [], [0, 0])

  /** The run so far, and where it has got to. */
  ghost predicate At(acts: seq<Action>, s: State) {
    Legal(STM, START, acts) && After(STM, START, acts) == s
  }

  lemma Take(acts: seq<Action>, s: State, t: Thread, pick: Id) returns (acts': seq<Action>, s': State)
    requires At(acts, s) && Enabled(s, Act(t, pick))
    ensures s' == ActStep(s, t, pick) && At(acts', s')
  {
    Extend(STM, START, acts, Act(t, pick));
    acts', s' := acts + [Act(t, pick)], Step(s, Act(t, pick));
  }

  const ONE_READ := View([0], map[], false, [(X, 0)])
  const WRITTEN := View([0], map[X := 5], false, [])
  const TWO_READS := View([0, 5], map[], false, [(X, 0), (X, 5)])
  const ALL_DONE := View([0, 5, 0], map[Y := 5], false, [(X, 0), (X, 5)])
  ghost const MEM1: Memory := map[X := Cell(5, 1), Y := Cell(0, 0)]

  lemma Views()
    ensures Advance(BLANK, Read(X), 0) == ONE_READ && Advance(BLANK, Write(X, 5), 0) == WRITTEN
    ensures Advance(ONE_READ, Read(X), 5) == TWO_READS && Advance(TWO_READS, Write(Y, 5), 0) == ALL_DONE
  {
    assert [0] + [5] == [0, 5] && [0, 5] + [0] == [0, 5, 0];
    assert [(X, 0)] + [(X, 5)] == [(X, 0), (X, 5)];
    assert WRITTEN.writeSet == BLANK.writeSet[X := 5] && ALL_DONE.writeSet == TWO_READS.writeSet[Y := 5];
  }

  lemma FirstRead() returns (acts: seq<Action>, s: State)
    ensures At(acts, s)
    ensures s == START.(threads := [Thread0(Running, 0, ONE_READ, map[X := Cell(0, 0)]), START.threads[1]])
  {
    Views();
    acts, s := Take([], START, 0, X);
    acts, s := Take(acts, s, 0, X);
  }

  lemma WriterValidates() returns (acts: seq<Action>, s: State)
    ensures At(acts, s)
    ensures s == State(START.mem, 1,
                       [Thread0(Running, 0, ONE_READ, map[X := Cell(0, 0)]), Thread1(Check({}), 0, WRITTEN)],
                       START.mem, [], [0, 0])
  {
    Views();
    acts, s := FirstRead();
    var t0 := s.threads[0];
    acts, s := Take(acts, s, 1, X);
    acts, s := Take(acts, s, 1, X);
    assert s.threads == [t0, Thread1(Running, 0, WRITTEN)];
    acts, s := Take(acts, s, 1, X);
    acts, s := Take(acts, s, 1, X);
    acts, s := Take(acts, s, 1, X);
    assert s.threads == [t0, Thread1(Check({}), 0, WRITTEN)];
  }

  lemma WriterTakesLock() returns (acts: seq<Action>, s: State)
    ensures At(acts, s)
    ensures s == State(START.mem, 1,
                       [Thread0(Running, 0, ONE_READ, map[X := Cell(0, 0)]), Thread1(Publish({X}), 0, WRITTEN)],
                       START.mem, [], [0, 0])
  {
    acts, s := WriterValidates();
    var t0 := s.threads[0];
    acts, s := Take(acts, s, 1, X);
    acts, s := Take(acts, s, 1, X);
    assert WRITTEN.writeSet.Keys == {X};
    assert s.threads == [t0, Thread1(Publish({X}), 0, WRITTEN)];
  }

  /** The other thread runs and commits its whole transaction. */
  lemma WriterCommits() returns (acts: seq<Action>, s: State)
    ensures At(acts, s)
    ensures s == State(MEM1, NOBODY,
                       [Thread0(Running, 0, ONE_READ, map[X := Cell(0, 0)]), Thread1(Phase.Start, 1, WRITTEN)],
                       START.mem, [Committed(1, Writer, WRITTEN)], [1, 0])
  {
    acts, s := WriterTakesLock();
    var t0 := s.threads[0];
    acts, s := Take(acts, s, 1, X);
    assert {X} - {X} == {};
    assert s.threads == [t0, Thread1(Publish({}), 0, WRITTEN)] && s.mem == MEM1 && s.foreign == [1, 0];
    acts, s := Take(acts, s, 1, X);
    acts, s := Take(acts, s, 1, X);
  }

  /** The second read replaces the entry that has gone stale. */
  lemma RereaderReads() returns (acts: seq<Action>, s: State)
    ensures At(acts, s)
    ensures s == State(MEM1, NOBODY,
                       [Thread0(Running, 0, TWO_READS, map[X := Cell(5, 1)]), Thread1(Phase.Start, 1, WRITTEN)],
                       START.mem, [Committed(1, Writer, WRITTEN)], [1, 0])
  {
    Views();
    acts, s := WriterCommits();
    var t1 := s.threads[1];
    acts, s := Take(acts, s, 0, X);
    assert s.threads[0].readSet == map[X := Cell(5, 1)];
    assert s.threads == [Thread0(Running, 0, TWO_READS, map[X := Cell(5, 1)]), t1];
  }

  lemma RereaderReturns() returns (acts: seq<Action>, s: State)
    ensures At(acts, s)
    ensures s == State(MEM1, NOBODY,
                       [Thread0(Precheck({X}), 0, ALL_DONE, map[X := Cell(5, 1)]), Thread1(Phase.Start, 1, WRITTEN)],
                       START.mem, [Committed(1, Writer, WRITTEN)], [1, 0])
  {
    Views();
    acts, s := RereaderReads();
    var t1 := s.threads[1];
    acts, s := Take(acts, s, 0, X);
    assert s.threads == [Thread0(Running, 0, ALL_DONE, map[X := Cell(5, 1)]), t1];
    acts, s := Take(acts, s, 0, X);
    assert s.threads[0].readSet.Keys == {X};
  }

  lemma RereaderLocks() returns (acts: seq<Action>, s: State)
    ensures At(acts, s)
    ensures s == State(MEM1, 0,
                       [Thread0(Check({X}), 0, ALL_DONE, map[X := Cell(5, 1)]), Thread1(Phase.Start, 1, WRITTEN)],
                       MEM1, [Committed(1, Writer, WRITTEN)], [1, 0])
  {
    acts, s := RereaderReturns();
    var t1 := s.threads[1];
    assert {X} - {X} == {} && s.threads[0].readSet.Keys == {X};
    acts, s := Take(acts, s, 0, X);
    acts, s := Take(acts, s, 0, X);
    acts, s := Take(acts, s, 0, X);
    assert s.threads == [Thread0(Check({X}), 0, ALL_DONE, map[X := Cell(5, 1)]), t1];
  }

  lemma RereaderValidates() returns (acts: seq<Action>, s: State)
    ensures At(acts, s)
    ensures s == State(MEM1, 0,
                       [Thread0(Publish({Y}), 0, ALL_DONE, map[X := Cell(5, 1)]), Thread1(Phase.Start, 1, WRITTEN)],
                       MEM1, [Committed(1, Writer, WRITTEN)], [1, 0])
  {
    acts, s := RereaderLocks();
    var t1 := s.threads[1];
    assert {X} - {X} == {} && s.threads[0].readSet.Keys == {X};
    acts, s := Take(acts, s, 0, X);
    acts, s := Take(acts, s, 0, X);
    assert s.threads == [Thread0(Recheck({X}), 0, ALL_DONE, map[X := Cell(5, 1)]), t1];
    acts, s := Take(acts, s, 0, X);
    acts, s := Take(acts, s, 0, X);
    assert ALL_DONE.writeSet.Keys == {Y};
  }

  /** The run ends with Y = 5 although the same commits, executed one at a time, leave
      Y = 0: a body that does not look at what it has read can break serializability.  Which
      bodies do is the subject of module StmExact. */
  lemma RereadBreaksSerializability() returns (acts: seq<Action>)
    ensures Init(START) && Legal(STM, START, acts)
    ensures var s := After(STM, START, acts);
            && s.holder == NOBODY
            && Y in s.mem && s.mem[Y].value == 5
            && Y in Executed(s.log, ValuesOf(START.mem)) && Executed(s.log, ValuesOf(START.mem))[Y] == 0
  {
    var s;
    acts, s := RereaderValidates();
    var t1 := s.threads[1];
    acts, s := Take(acts, s, 0, Y);
    assert {Y} - {Y} == {};
    assert s.threads == [Thread0(Publish({}), 0, ALL_DONE, map[X := Cell(5, 1)]), t1];
    acts, s := Take(acts, s, 0, Y);
    acts, s := Take(acts, s, 0, Y);
    assert s.log == [Committed(1, Writer, WRITTEN), Committed(0, Rereader, ALL_DONE)];
    SerialOutcome();
  }

  lemma SerialOutcome()
    ensures Executed([Committed(1, Writer, WRITTEN), Committed(0, Rereader, ALL_DONE)], ValuesOf(START.mem))
            == map[X := 5, Y := 0]
  {
    var m0 := ValuesOf(START.mem);
    var e1, e2 := Committed(1, Writer, WRITTEN), Committed(0, Rereader, ALL_DONE);
    assert Alone(Writer, m0, 1).writeSet == map[X := 5];
    assert [e1, e2][..1] == [e1] && [e1][..0] == [];
    var m1 := Executed([e1], m0);
    assert Executed([], m0) == m0;
    assert m1 == Overwrite(m0, map[X := 5]);
    assert m1 == map[X := 5, Y := 0];
    RereaderAlone(m1);
  }

  lemma RereaderAlone(m1: Values)
    requires m1 == map[X := 5, Y := 0]
    ensures Alone(Rereader, m1, 3).writeSet == map[Y := 0]
  {
    var v1 := View([5], map[], false, [(X, 5)]);
    var v2 := View([5, 5], map[], false, [(X, 5), (X, 5)]);
    assert Alone(Rereader, m1, 0) == BLANK && Rereader([]) == Read(X) && Rereader([5]) == Read(X);
    assert [] + [5] == [5] && [5] + [5] == [5, 5] && [(X, 5)] + [(X, 5)] == [(X, 5), (X, 5)];
    assert Advance(BLANK, Read(X), 5) == v1 && Advance(v1, Read(X), 5) == v2;
    assert Alone(Rereader, m1, 1) == v1;
    assert Alone(Rereader, m1, 2) == v2;
    assert Rereader(v2.seen) == Write(Y, 0);
    assert Advance(v2, Write(Y, 0), 0).writeSet == map[Y := 0];
  }
}
