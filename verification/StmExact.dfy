/** The condition on bodies that module Stm asks for is exact: a body that can commit after
  reading two values from one TVar has a run in which it does, against one other thread that
  only ever writes single TVars. */
module StmExact {
  import opened Runs
  import opened Stm
  import opened StmProgress

  /** A transaction that writes one TVar and reads nothing. */
  function Writer(id: Id, value: int): Body {
    (seen: seq<int>) => if seen == [] then Write(id, value) else Return
  }

  /** What the other thread has to commit so that `body` reads `currents`: each value just
      before it is read. */
  ghost function Writers(body: Body, v: View, currents: seq<int>): seq<Body>
    decreases |currents|
  {
    if currents == [] then []
    else
      (if ReadsTVar(body, v) then [Writer(body(v.seen).id, currents[0])] else [])
      + Writers(body, Advance(v, body(v.seen), currents[0]), currents[1..])
  }

  ghost predicate Writes(body: Body) {
    exists id, value :: body == Writer(id, value)
  }

  lemma {:induction false} WritersWrite(body: Body, v: View, currents: seq<int>)
    ensures forall w :: w in Writers(body, v, currents) ==> Writes(w)
    decreases |currents|
  {
    if currents != [] {
      WritersWrite(body, Advance(v, body(v.seen), currents[0]), currents[1..]);
      if ReadsTVar(body, v) { assert Writes(Writer(body(v.seen).id, currents[0])); }
    }
  }

  lemma WriterIsConsistent(w: Body)
    requires Writes(w)
    ensures CommitsConsistent(w)
  {
    var id, value :| w == Writer(id, value);
    forall v: View | Reached(w, v)
      ensures v.trace == []
    {
      var currents :| Feed(w, BLANK, currents) == v;
      WriterReadsNothing(id, value, BLANK, currents);
    }
  }

  lemma {:induction false} WriterReadsNothing(id: Id, value: int, v: View, currents: seq<int>)
    ensures Feed(Writer(id, value), v, currents).trace == v.trace
    decreases |currents|
  {
    if currents != [] {
      var w := Writer(id, value);
      WriterReadsNothing(id, value, Advance(v, w(v.seen), currents[0]), currents[1..]);
    }
  }

  lemma {:induction false} FeedKeepsTrace(body: Body, v: View, currents: seq<int>)
    ensures forall e :: e in v.trace ==> e in Feed(body, v, currents).trace
    decreases |currents|
  {
    if currents != [] {
      FeedKeepsTrace(body, Advance(v, body(v.seen), currents[0]), currents[1..]);
    }
  }

  // ------------------------------------------------------------- building a run

  /** The other thread's transaction from start to end. */
  lemma WriterCommits(s0: State, acts: seq<Action>, s: State, id: Id, value: int) returns (acts': seq<Action>, s': State)
    requires At(s0, acts, s) && |s.threads| == |s.foreign| == 2 && s.holder == NOBODY && id in s.mem
    requires var l := s.threads[1]; l.phase.Start? && l.done < |l.program| && l.program[l.done] == Writer(id, value)
    ensures At(s0, acts', s') && |s'.threads| == |s'.foreign| == 2 && s'.holder == NOBODY
    ensures s'.threads[0] == s.threads[0] && s'.mem == s.mem[id := Cell(value, s.mem[id].version + 1)]
    ensures var l, l' := s.threads[1], s'.threads[1];
            && l'.program == l.program && l'.done == l.done + 1 && l'.phase == Phase.Start
            && exists v :: s'.log == s.log + [Committed(1, Writer(id, value), v)]
  {
    var w, m := Writer(id, value), ValuesOf(s.mem);
    assert Alone(w, m, 0) == BLANK && [] + [0] == [0];
    assert Alone(w, m, 1) == View([0], map[id := value], false, []);
    acts', s' := CommitsAlone(s0, acts, s, 1, 1);
  }

  /** The body has come to `v`, all that it has read is current, and the other thread is at
      number `k` of its program. */
  ghost predicate Ready(s: State, body: Body, v: View, program: seq<Body>, k: nat, ids: set<Id>) {
    && |s.threads| == |s.foreign| == 2 && s.holder == NOBODY && s.mem.Keys == ids
    && var l, w := s.threads[0], s.threads[1];
    && l.program == [body] && l.done == 0 && l.phase == Running && l.view == v && Snapshot(l.readSet, s.mem)
    && w.program == program && w.done == k && w.phase == Phase.Start
    && forall e :: e in s.log ==> e.Committed? && e.thread == 1
  }

  /** The other thread commits a value, and the body reads it. */
  lemma ReadNext(s0: State, acts: seq<Action>, s: State, body: Body, v: View, program: seq<Body>, k: nat, ids: set<Id>, current: int)
    returns (acts': seq<Action>, s': State)
    requires At(s0, acts, s) && Ready(s, body, v, program, k, ids) && ReadsTVar(body, v) && body(v.seen).id in ids
    requires k < |program| && program[k] == Writer(body(v.seen).id, current)
    ensures At(s0, acts', s') && Ready(s', body, Advance(v, body(v.seen), current), program, k + 1, ids)
  {
    var id := body(v.seen).id;
    acts', s' := WriterCommits(s0, acts, s, id, current);
    acts', s' := Take(s0, acts', s', 0, ANY);
  }

  /** The body does an operation that needs no TVar. */
  lemma DoNext(s0: State, acts: seq<Action>, s: State, body: Body, v: View, program: seq<Body>, k: nat, ids: set<Id>, current: int)
    returns (acts': seq<Action>, s': State)
    requires At(s0, acts, s) && Ready(s, body, v, program, k, ids) && !ReadsTVar(body, v)
    ensures At(s0, acts', s') && Ready(s', body, Advance(v, body(v.seen), current), program, k, ids)
  {
    var op := body(v.seen);
    if op.Return? || op.RaiseRetry? {
      acts', s' := acts, s;
    } else {
      acts', s' := Take(s0, acts, s, 0, ANY);
    }
  }

  lemma {:induction false} Drive(s0: State, acts: seq<Action>, s: State, body: Body, v: View, currents: seq<int>,
                                 program: seq<Body>, k: nat, ids: set<Id>)
    returns (acts': seq<Action>, s': State)
    requires At(s0, acts, s) && Ready(s, body, v, program, k, ids)
    requires k <= |program| && program[k..] == Writers(body, v, currents)
    requires forall e :: e in Feed(body, v, currents).trace ==> e.0 in ids
    ensures At(s0, acts', s') && Ready(s', body, Feed(body, v, currents), program, |program|, ids)
    decreases |currents|
  {
    if currents == [] {
      acts', s' := acts, s;
    } else {
      var w := Advance(v, body(v.seen), currents[0]);
      if ReadsTVar(body, v) {
        FeedKeepsTrace(body, w, currents[1..]);
        assert (body(v.seen).id, currents[0]) in w.trace;
        assert program[k] == program[k..][0] && program[k + 1..] == program[k..][1..];
        acts', s' := ReadNext(s0, acts, s, body, v, program, k, ids, currents[0]);
        hide Ready, At;
        acts', s' := Drive(s0, acts', s', body, w, currents[1..], program, k + 1, ids);
      } else {
        acts', s' := DoNext(s0, acts, s, body, v, program, k, ids, currents[0]);
        hide Ready, At;
        acts', s' := Drive(s0, acts', s', body, w, currents[1..], program, k, ids);
      }
    }
  }

  // ------------------------------------------------------------------- theorems

  ghost function ReadIn(v: View): set<Id> {
    set e | e in v.trace :: e.0
  }

  /** Two threads: one runs `body`, the other `program`; all TVars hold 0. */
  ghost function Against(body: Body, program: seq<Body>, ids: set<Id>): State {
    State(map id | id in ids :: Cell(0, 0), NOBODY,
          [Local([body], 0, Phase.Start, BLANK, map[], 0, 0), Local(program, 0, Phase.Start, BLANK, map[], 0, 0)],
          map[], [], [0, 0])
  }

  /** Whatever a body can come to see, there is a run in which it commits with that view. */
  lemma CommitsWith(body: Body, v: View, currents: seq<int>) returns (acts: seq<Action>, s: State)
    requires Feed(body, BLANK, currents) == v && Returned(body, v)
    ensures var s0 := Against(body, Writers(body, BLANK, currents), ReadIn(v));
            && Init(s0) && At(s0, acts, s)
            && s.log != [] && s.log[|s.log| - 1] == Committed(0, body, v)
            && forall i :: 0 <= i < |s.log| - 1 ==> s.log[i].Committed? && s.log[i].thread == 1
  {
    var program := Writers(body, BLANK, currents);
    var s0 := Against(body, program, ReadIn(v));
    acts, s := Take(s0, [], s0, 0, ANY);
    assert Ready(s, body, BLANK, program, 0, ReadIn(v));
    assert program[0..] == program;
    assert forall e :: e in v.trace ==> e.0 in ReadIn(v);
    acts, s := Drive(s0, acts, s, body, BLANK, currents, program, 0, ReadIn(v));
    acts, s := Commit(s0, acts, s, 0);
  }

  /** The converse of Serializable: a body that can return with a view whose reads disagree has
      a run, against one thread of single writes, whose last commit is not the serial one. */
  lemma InconsistentBodyBreaks(body: Body, v: View) returns (s0: State, acts: seq<Action>)
    requires Reached(body, v) && Returned(body, v) && !Consistent(v.trace)
    ensures Init(s0) && Legal(STM, s0, acts)
    ensures |s0.threads| == 2 && s0.threads[0].program == [body] && forall w :: w in s0.threads[1].program ==> Writes(w)
    ensures var log, m0 := After(STM, s0, acts).log, ValuesOf(s0.mem);
            && log != [] && log[|log| - 1] == Committed(0, body, v)
            && AllSerial(log[..|log| - 1], m0) && !SerialAt(log[|log| - 1], Executed(log[..|log| - 1], m0))
  {
    var currents :| Feed(body, BLANK, currents) == v;
    var program := Writers(body, BLANK, currents);
    s0 := Against(body, program, ReadIn(v));
    var s;
    acts, s := CommitsWith(body, v, currents);
    WritersWrite(body, BLANK, currents);
    hide Writers, Feed;
    InvAlongRun(s0, acts);
    LastIsNotSerial(s0, s, body, v);
  }

  lemma LastIsNotSerial(s0: State, s: State, body: Body, v: View)
    requires Inv(s, s0) && !Consistent(v.trace) && |s0.threads| == 2
    requires s.log != [] && s.log[|s.log| - 1] == Committed(0, body, v)
    requires forall i :: 0 <= i < |s.log| - 1 ==> s.log[i].Committed? && s.log[i].thread == 1
    requires forall w :: w in s0.threads[1].program ==> Writes(w)
    ensures var log, m0 := s.log, ValuesOf(s0.mem);
            AllSerial(log[..|log| - 1], m0) && !SerialAt(log[|log| - 1], Executed(log[..|log| - 1], m0))
  {
    var n, m0 := |s.log| - 1, ValuesOf(s0.mem);
    forall e | e in s.log[..n]
      ensures e.Committed? && CommitsConsistent(e.body)
    {
      assert e in s.log;
      WriterIsConsistent(e.body);
    }
    LogOkPrefix(s.log, m0, n);
    hide LocalOk;
    ExecutedIsRecorded(s.log[..n], m0);
    assert EntryOk(s.log[n], Recorded(s.log[..n], m0));
    SerialIffConsistent(body, v, Recorded(s.log[..n], m0));
  }

  /** Every other body commits only consistent views. */
  ghost predicate OthersCommitConsistent(s0: State, body: Body) {
    forall t, b :: 0 <= t < |s0.threads| && b in s0.threads[t].program ==> b == body || CommitsConsistent(b)
  }

  /** With any number of such threads beside it, all runs are serial. */
  ghost predicate AlwaysSerial(body: Body) {
    forall s0, acts :: Init(s0) && Legal(STM, s0, acts) && OthersCommitConsistent(s0, body) ==>
      AllSerial(After(STM, s0, acts).log, ValuesOf(s0.mem))
  }

  /** So the condition of Serializable is exact, body by body. */
  lemma ConsistencyIsExact(body: Body)
    ensures CommitsConsistent(body) <==> AlwaysSerial(body)
  {
    if CommitsConsistent(body) {
      forall s0, acts | Init(s0) && Legal(STM, s0, acts) && OthersCommitConsistent(s0, body)
        ensures AllSerial(After(STM, s0, acts).log, ValuesOf(s0.mem))
      {
        Serializable(s0, acts);
      }
    } else {
      var v: View :| Reached(body, v) && Returned(body, v) && !Consistent(v.trace);
      var s0, acts := InconsistentBodyBreaks(body, v);
      forall t, b | 0 <= t < |s0.threads| && b in s0.threads[t].program
        ensures b == body || CommitsConsistent(b)
      {
        if t == 1 { WriterIsConsistent(b); }
      }
      var log := After(STM, s0, acts).log;
      assert !SerialAt(log[|log| - 1], Executed(log[..|log| - 1], ValuesOf(s0.mem)));
    }
  }
}
