/** The optimistic transactions of python/stm/stm_model.py, interleaved.

  Every access that the program protects by one lock is one step: a read of a
  TVar, the version check of one TVar inside validate(), the write of one TVar
  inside commit().  Readers do not take the commit lock, so a transaction can
  observe a half-published commit; the theorems say that it then never commits. */
module Stm {
  import opened Runs

  type Id = nat
  type Thread = nat

  /** What a transaction body does next. */
  datatype Op =
    | Read(id: Id)
    | Write(id: Id, value: int)
    | FlagRetry      // txn.retry(): sets a flag and carries on
    | RaiseRetry     // retry(): leaves the body by an exception
    | Return

  /** A body is a strategy: its next operation, given what the earlier ones returned.
      Operations other than reads return a value that says nothing. */
  type Body = seq<int> -> Op

  datatype Cell = Cell(value: int, version: nat)
  type Memory = map<Id, Cell>
  type Values = map<Id, int>

  ghost function ValuesOf(mem: Memory): Values {
    map id | id in mem :: mem[id].value
  }

  // ---------------------------------------------------------------- one attempt

  /** The observable part of an attempt.  `trace` lists, in order, the reads that
      reached a TVar (reads of the own write set do not). */
  datatype View = View(seen: seq<int>, writeSet: Values, flagged: bool, trace: seq<(Id, int)>)

  const BLANK := View([], map[], false, [])

  /** The effect of `op` on an attempt when the TVar it reads, if any, holds `current`. */
  function Advance(v: View, op: Op, current: int): View {
    match op
    case Read(id) =>
      if id in v.writeSet then v.(seen := v.seen + [v.writeSet[id]])
      else v.(seen := v.seen + [current], trace := v.trace + [(id, current)])
    case Write(id, value) => v.(seen := v.seen + [0], writeSet := v.writeSet[id := value])
    case FlagRetry => v.(seen := v.seen + [0], flagged := true)
    case RaiseRetry => v
    case Return => v
  }

  function Fetch(op: Op, m: Values): int {
    if op.Read? && op.id in m then m[op.id] else 0
  }

  /** The first `n` operations of `body` run alone on memory `m`. */
  ghost function Alone(body: Body, m: Values, n: nat): View {
    if n == 0 then BLANK
    else
      var v := Alone(body, m, n - 1);
      Advance(v, body(v.seen), Fetch(body(v.seen), m))
  }

  /** The attempt wants to commit. */
  ghost predicate Returned(body: Body, v: View) {
    body(v.seen) == Return && !v.flagged
  }

  ghost predicate Agrees(trace: seq<(Id, int)>, m: Values) {
    forall e :: e in trace ==> e.0 in m && m[e.0] == e.1
  }

  /** Reads of the same TVar returned the same value. */
  ghost predicate Consistent(trace: seq<(Id, int)>) {
    forall e, f :: e in trace && f in trace && e.0 == f.0 ==> e.1 == f.1
  }

  /** The read set: for each TVar the last value read from it. */
  ghost function Latest(trace: seq<(Id, int)>): Values {
    if trace == [] then map[]
    else
      var last := trace[|trace| - 1];
      Latest(trace[..|trace| - 1])[last.0 := last.1]
  }

  /** Whatever memory the reads so far agree with, running alone on it gets here. */
  ghost predicate Faithful(body: Body, v: View) {
    forall m: Values :: Agrees(v.trace, m) ==> Alone(body, m, |v.seen|) == v
  }

  lemma AdvanceIsFaithful(body: Body, v: View, current: int)
    requires Faithful(body, v)
    ensures Faithful(body, Advance(v, body(v.seen), current))
  {
    var op := body(v.seen);
    var w := Advance(v, op, current);
    forall m: Values | Agrees(w.trace, m)
      ensures Alone(body, m, |w.seen|) == w
    {
      assert forall e :: e in v.trace ==> e in w.trace;
      assert Alone(body, m, |v.seen|) == v;
      if op.Read? && op.id !in v.writeSet {
        assert (op.id, current) in w.trace;
      }
    }
  }

  lemma LatestSnoc(trace: seq<(Id, int)>, e: (Id, int))
    ensures Latest(trace + [e]) == Latest(trace)[e.0 := e.1]
  {
    assert (trace + [e])[..|trace|] == trace;
  }

  lemma {:induction false} LatestKeys(trace: seq<(Id, int)>)
    ensures forall id :: id in Latest(trace) ==> (id, Latest(trace)[id]) in trace
    ensures forall e :: e in trace ==> e.0 in Latest(trace)
  {
    if trace != [] {
      var init, last := trace[..|trace| - 1], trace[|trace| - 1];
      LatestKeys(init);
      assert trace == init + [last];
    }
  }

  /** With consistent reads the read set speaks for every read. */
  lemma ConsistentReadsAgree(trace: seq<(Id, int)>, m: Values)
    requires forall id :: id in Latest(trace) ==> id in m && m[id] == Latest(trace)[id]
    ensures Agrees(trace, m) <==> Consistent(trace)
  {
    LatestKeys(trace);
    if Consistent(trace) {
      forall e | e in trace
        ensures e.0 in m && m[e.0] == e.1
      {
        assert (e.0, Latest(trace)[e.0]) in trace;
      }
    }
  }

  /** An attempt run alone reads from one memory. */
  lemma {:induction false} AloneReadsOneMemory(body: Body, m: Values, n: nat)
    ensures forall e :: e in Alone(body, m, n).trace ==> e.1 == if e.0 in m then m[e.0] else 0
  {
    if n > 0 {
      AloneReadsOneMemory(body, m, n - 1);
    }
  }

  /** Operation `j` of `body`, alone on `m`, is the last of its first `n` that writes `id`. */
  ghost predicate LastWrite(body: Body, m: Values, id: Id, j: nat, n: nat) {
    && j < n && WritesTo(body, m, id, j)
    && forall i :: j < i < n ==> !WritesTo(body, m, id, i)
  }

  ghost predicate NeverWritten(body: Body, m: Values, id: Id, n: nat) {
    forall j :: 0 <= j < n ==> !WritesTo(body, m, id, j)
  }

  ghost predicate WritesTo(body: Body, m: Values, id: Id, j: nat) {
    var op := body(Alone(body, m, j).seen);
    op.Write? && op.id == id
  }

  lemma WriteSetStep(body: Body, m: Values, n: nat, id: Id)
    ensures var v, w := Alone(body, m, n).writeSet, Alone(body, m, n + 1).writeSet;
            if WritesTo(body, m, id, n) then id in w && w[id] == body(Alone(body, m, n).seen).value
            else (id in w <==> id in v) && (id in v ==> w[id] == v[id])
  {
  }

  lemma {:induction false} WriteSetIsWritten(body: Body, m: Values, n: nat, id: Id)
    ensures id in Alone(body, m, n).writeSet <==> !NeverWritten(body, m, id, n)
  {
    if n > 0 {
      WriteSetIsWritten(body, m, n - 1, id);
      WriteSetStep(body, m, n - 1, id);
      hide Alone, WritesTo;
      assert NeverWritten(body, m, id, n) <==> NeverWritten(body, m, id, n - 1) && !WritesTo(body, m, id, n - 1);
    }
  }

  lemma {:induction false} LastWriteStays(body: Body, m: Values, n: nat, id: Id, j: nat)
    requires LastWrite(body, m, id, j, n)
    ensures id in Alone(body, m, n).writeSet && Alone(body, m, n).writeSet[id] == body(Alone(body, m, j).seen).value
  {
    WriteSetStep(body, m, n - 1, id);
    if j < n - 1 {
      LastWriteStays(body, m, n - 1, id, j);
    }
  }

  /** A body reads its own last write to a TVar if it has made one, and otherwise the memory. */
  lemma ReadsOwnWrites(body: Body, m: Values, n: nat, id: Id)
    requires body(Alone(body, m, n).seen) == Read(id) && id in m
    ensures var v, w := Alone(body, m, n), Alone(body, m, n + 1);
            && |w.seen| == |v.seen| + 1 && w.seen[..|v.seen|] == v.seen
            && w.writeSet == v.writeSet && w.flagged == v.flagged
            && (forall j: nat :: LastWrite(body, m, id, j, n) ==>
                  w.seen[|v.seen|] == body(Alone(body, m, j).seen).value && w.trace == v.trace)
            && (NeverWritten(body, m, id, n) ==>
                  w.seen[|v.seen|] == m[id] && w.trace == v.trace + [(id, m[id])])
  {
    WriteSetIsWritten(body, m, n, id);
    forall j: nat | LastWrite(body, m, id, j, n)
      ensures id in Alone(body, m, n).writeSet
      ensures Alone(body, m, n).writeSet[id] == body(Alone(body, m, j).seen).value
    {
      LastWriteStays(body, m, n, id, j);
    }
  }

  /** A committed attempt is the serial one exactly when its re-reads agreed. */
  lemma SerialIffConsistent(body: Body, v: View, m: Values)
    requires Faithful(body, v)
    requires forall id :: id in Latest(v.trace) ==> id in m && m[id] == Latest(v.trace)[id]
    ensures Alone(body, m, |v.seen|) == v <==> Consistent(v.trace)
  {
    ConsistentReadsAgree(v.trace, m);
    AloneReadsOneMemory(body, m, |v.seen|);
  }

  // ------------------------------------------- bodies that read each TVar once

  /** `body` does not now re-read a TVar it has read and not written. */
  ghost predicate NoReread(body: Body, v: View) {
    var op := body(v.seen);
    op.Read? && op.id !in v.writeSet ==> forall e :: e in v.trace ==> e.0 != op.id
  }

  /** The view after further operations, whatever values the TVars then hold. */
  ghost function Feed(body: Body, v: View, currents: seq<int>): View
    decreases |currents|
  {
    if currents == [] then v else Feed(body, Advance(v, body(v.seen), currents[0]), currents[1..])
  }

  ghost predicate ReadsOnceFrom(body: Body, v: View) {
    forall currents :: NoReread(body, Feed(body, v, currents))
  }

  ghost predicate ReadsOnce(body: Body) {
    ReadsOnceFrom(body, BLANK)
  }

  /** Some values of the TVars lead the body to this view. */
  ghost predicate Reached(body: Body, v: View) {
    exists currents :: Feed(body, BLANK, currents) == v
  }

  /** Whatever the TVars hold at each read, an attempt that wants to commit has not read two
      values from one TVar: because it reads none twice, or because it looks. */
  ghost predicate CommitsConsistent(body: Body) {
    forall v: View :: Reached(body, v) && Returned(body, v) ==> Consistent(v.trace)
  }

  lemma {:induction false} FeedSnoc(body: Body, v: View, currents: seq<int>, current: int)
    ensures var w := Feed(body, v, currents);
            Feed(body, v, currents + [current]) == Advance(w, body(w.seen), current)
    decreases |currents|
  {
    if currents == [] {
      assert [] + [current] == [current] && [current][1..] == [];
    } else {
      assert (currents + [current])[1..] == currents[1..] + [current];
      FeedSnoc(body, Advance(v, body(v.seen), currents[0]), currents[1..], current);
    }
  }

  lemma AdvanceIsReached(body: Body, v: View, current: int)
    requires Reached(body, v)
    ensures Reached(body, Advance(v, body(v.seen), current))
  {
    var currents :| Feed(body, BLANK, currents) == v;
    FeedSnoc(body, BLANK, currents, current);
  }

  ghost predicate Distinct(trace: seq<(Id, int)>) {
    forall i, j :: 0 <= i < j < |trace| ==> trace[i].0 != trace[j].0
  }

  lemma ReadsOnceStep(body: Body, v: View, current: int)
    requires ReadsOnceFrom(body, v) && Distinct(v.trace)
    ensures ReadsOnceFrom(body, Advance(v, body(v.seen), current))
    ensures Distinct(Advance(v, body(v.seen), current).trace)
  {
    var w := Advance(v, body(v.seen), current);
    assert Feed(body, v, []) == v;
    forall currents
      ensures NoReread(body, Feed(body, w, currents))
    {
      assert ([current] + currents)[1..] == currents;
      assert Feed(body, v, [current] + currents) == Feed(body, w, currents);
    }
  }

  lemma {:induction false} FeedKeepsDistinct(body: Body, v: View, currents: seq<int>)
    requires ReadsOnceFrom(body, v) && Distinct(v.trace)
    ensures Distinct(Feed(body, v, currents).trace)
    decreases |currents|
  {
    if currents != [] {
      ReadsOnceStep(body, v, currents[0]);
      FeedKeepsDistinct(body, Advance(v, body(v.seen), currents[0]), currents[1..]);
    }
  }

  /** A body that never reads an unwritten TVar twice is one of these. */
  lemma ReadsOnceCommitsConsistent(body: Body)
    requires ReadsOnce(body)
    ensures CommitsConsistent(body)
  {
    forall v: View | Reached(body, v)
      ensures Consistent(v.trace)
    {
      var currents :| Feed(body, BLANK, currents) == v;
      FeedKeepsDistinct(body, BLANK, currents);
      DistinctIsConsistent(v.trace);
    }
  }

  lemma DistinctIsConsistent(trace: seq<(Id, int)>)
    requires Distinct(trace)
    ensures Consistent(trace)
  {
    forall e, f | e in trace && f in trace && e.0 == f.0
      ensures e.1 == f.1
    {
      var i :| 0 <= i < |trace| && trace[i] == e;
      var j :| 0 <= j < |trace| && trace[j] == f;
    }
  }

  // ---------------------------------------------------------------- the system

  datatype Phase =
    | Start                     // no attempt in progress
    | Running                   // inside the body
    | Precheck(todo: set<Id>)   // the first validate(), without the commit lock
    | Waiting                   // for _GLOBAL_LOCK
    | Check(todo: set<Id>)      // validate() under the lock
    | Recheck(todo: set<Id>)    // validate() again, at the head of commit()
    | Publish(todo: set<Id>)    // commit() writing one TVar at a time
    | Leaving                   // all written, lock not yet released
    | Died                      // a RuntimeError left commit()

  /** One thread: it runs the bodies of `program` in order, each by atomically().
      `restarts` counts conflict restarts; `startedAt` remembers `foreign` at the
      start of the attempt. */
  datatype Local = Local(program: seq<Body>, done: nat, phase: Phase, view: View, readSet: Memory,
                         restarts: nat, startedAt: nat)

  datatype Event =
    | Committed(thread: Thread, body: Body, view: View)
    | Created(id: Id, value: int)

  /** `base` is the memory when the commit lock was last taken, `log` the commits and
      creations so far, `foreign[t]` the number of version increments made by threads
      other than `t`; these three are history, the program does not store them. */
  datatype State = State(mem: Memory, holder: int, threads: seq<Local>,
                         base: Memory, log: seq<Event>, foreign: seq<nat>)

  const NOBODY := -1

  /** `pick` is the TVar that a validation or publishing step treats next: any order
      of the dictionaries is covered. */
  datatype Action =
    | Act(t: Thread, pick: Id)
    | Create(id: Id, value: int)   // create_tvar

  ghost predicate Enabled(s: State, a: Action) {
    match a
    case Create(id, _) => s.holder == NOBODY && id !in s.mem
    case Act(t, pick) =>
      t < |s.threads| == |s.foreign| &&
      var l := s.threads[t];
      match l.phase
      case Start => l.done < |l.program|
      case Running =>
        l.done < |l.program| &&
        var op := l.program[l.done](l.view.seen);
        op.Read? ==> op.id in l.view.writeSet || op.id in s.mem
      case Waiting => s.holder == NOBODY
      case Precheck(todo) => todo == {} || pick in todo
      case Check(todo) => todo == {} || pick in todo
      case Recheck(todo) => todo == {} || pick in todo
      case Publish(todo) => todo == {} || pick in todo
      case Leaving => l.done < |l.program|
      case Died => false
  }

  /** The version test of validate() and of commit() for one TVar. */
  ghost predicate Unchanged(mem: Memory, readSet: Memory, id: Id) {
    id in mem && id in readSet && mem[id].version == readSet[id].version
  }

  /** One iteration of commit()'s loop; an unregistered TVar is skipped. */
  ghost function PublishOne(mem: Memory, writeSet: Values, id: Id): Memory {
    if id in mem && id in writeSet then mem[id := Cell(writeSet[id], mem[id].version + 1)] else mem
  }

  ghost function Restart(l: Local): Local {
    l.(phase := Start, restarts := l.restarts + 1)
  }

  ghost function RunBody(l: Local, mem: Memory): Local
    requires l.done < |l.program|
  {
    var op := l.program[l.done](l.view.seen);
    match op
    case Return => if l.view.flagged then l.(phase := Start) else l.(phase := Precheck(l.readSet.Keys))
    case RaiseRetry => l.(phase := Start)
    case Read(id) =>
      l.(view := Advance(l.view, op, Fetch(op, ValuesOf(mem))),
         readSet := if id !in l.view.writeSet && id in mem then l.readSet[id := mem[id]] else l.readSet)
    case _ => l.(view := Advance(l.view, op, 0))
  }

  ghost function Bumped(foreign: seq<nat>, t: Thread): seq<nat> {
    seq(|foreign|, i requires 0 <= i < |foreign| => if i == t then foreign[i] else foreign[i] + 1)
  }

  ghost function Put(s: State, t: Thread, l: Local): State
    requires t < |s.threads|
  {
    s.(threads := s.threads[t := l])
  }

  ghost function ActStep(s: State, t: Thread, pick: Id): State
    requires Enabled(s, Act(t, pick))
  {
    var l := s.threads[t];
    match l.phase
    case Start =>
      Put(s, t, l.(phase := Running, view := BLANK, readSet := map[], startedAt := s.foreign[t]))
    case Running => Put(s, t, RunBody(l, s.mem))
    case Precheck(todo) =>
      if todo == {} then Put(s, t, l.(phase := Waiting))
      else if Unchanged(s.mem, l.readSet, pick) then Put(s, t, l.(phase := Precheck(todo - {pick})))
      else Put(s, t, Restart(l))
    case Waiting =>
      Put(s, t, l.(phase := Check(l.readSet.Keys))).(holder := t, base := s.mem)
    case Check(todo) =>
      if todo == {} then Put(s, t, l.(phase := Recheck(l.readSet.Keys)))
      else if Unchanged(s.mem, l.readSet, pick) then Put(s, t, l.(phase := Check(todo - {pick})))
      else Put(s, t, Restart(l)).(holder := NOBODY)
    case Recheck(todo) =>
      if todo == {} then Put(s, t, l.(phase := Publish(l.view.writeSet.Keys)))
      else if Unchanged(s.mem, l.readSet, pick) then Put(s, t, l.(phase := Recheck(todo - {pick})))
      else Put(s, t, l.(phase := Died)).(holder := NOBODY)
    case Publish(todo) =>
      if todo == {} then Put(s, t, l.(phase := Leaving))
      else if pick !in s.mem then Put(s, t, l.(phase := Publish(todo - {pick})))
      else if pick in l.readSet && !Unchanged(s.mem, l.readSet, pick) then
        Put(s, t, l.(phase := Died)).(holder := NOBODY)
      else
        Put(s, t, l.(phase := Publish(todo - {pick})))
          .(mem := PublishOne(s.mem, l.view.writeSet, pick), foreign := Bumped(s.foreign, t))
    case Leaving =>
      Put(s, t, l.(phase := Start, done := l.done + 1))
        .(holder := NOBODY, log := s.log + [Committed(t, l.program[l.done], l.view)])
    case Died => s
  }

  ghost function Step(s: State, a: Action): State {
    if !Enabled(s, a) then s
    else match a
      case Create(id, value) =>
        s.(mem := s.mem[id := Cell(value, 0)], log := s.log + [Created(id, value)])
      case Act(t, pick) => ActStep(s, t, pick)
  }

  ghost const STM := System(Enabled, Step)

  ghost predicate Init(s: State) {
    && s.holder == NOBODY && s.log == [] && |s.foreign| == |s.threads|
    && forall t :: 0 <= t < |s.threads| ==>
         s.threads[t].done == 0 && s.threads[t].phase == Start && s.threads[t].restarts == 0
  }

  // ------------------------------------------------------------- serial meaning

  /** The memory with the writes of a view applied to the TVars it has. */
  ghost function Overwrite(m: Values, writeSet: Values): Values {
    map id | id in m :: if id in writeSet then writeSet[id] else m[id]
  }

  /** An event read as a record of the writes that were made. */
  ghost function Record(m: Values, e: Event): Values {
    match e
    case Created(id, value) => m[id := value]
    case Committed(_, _, view) => Overwrite(m, view.writeSet)
  }

  /** An event executed: the committed body runs alone on `m`, from the start. */
  ghost function Execute(m: Values, e: Event): Values {
    match e
    case Created(id, value) => m[id := value]
    case Committed(_, body, view) => Overwrite(m, Alone(body, m, |view.seen|).writeSet)
  }

  ghost function Recorded(log: seq<Event>, m0: Values): Values {
    if log == [] then m0 else Record(Recorded(log[..|log| - 1], m0), log[|log| - 1])
  }

  /** The serial run: the events of the log one at a time, in order. */
  ghost function Executed(log: seq<Event>, m0: Values): Values {
    if log == [] then m0 else Execute(Executed(log[..|log| - 1], m0), log[|log| - 1])
  }

  /** The bodies that thread `t` has committed, in order. */
  ghost function CommittedBy(log: seq<Event>, t: Thread): seq<Body> {
    if log == [] then []
    else
      var rest := CommittedBy(log[..|log| - 1], t);
      match log[|log| - 1]
      case Created(_, _) => rest
      case Committed(u, body, _) => if u == t then rest + [body] else rest
  }

  /** What is known of a commit made when the memory was `m`. */
  ghost predicate EntryOk(e: Event, m: Values) {
    if e.Created? then e.id !in m
    else
      && Returned(e.body, e.view)
      && Faithful(e.body, e.view)
      && (forall id :: id in Latest(e.view.trace) ==> id in m && m[id] == Latest(e.view.trace)[id])
      && Reached(e.body, e.view)
  }

  ghost predicate LogOk(log: seq<Event>, m0: Values) {
    forall i :: 0 <= i < |log| ==> EntryOk(log[i], Recorded(log[..i], m0))
  }

  // ------------------------------------------------------------------ invariant

  ghost predicate Holds(p: Phase) {
    p.Check? || p.Recheck? || p.Publish? || p.Leaving?
  }

  ghost predicate Attempting(p: Phase) {
    !p.Start? && !p.Died?
  }

  /** What the body's own steps establish: no other thread can disturb it. */
  ghost predicate ViewOk(body: Body, v: View, readSet: Memory) {
    && Faithful(body, v)
    && Reached(body, v)
    && ValuesOf(readSet) == Latest(v.trace)
  }

  /** The relation of a read set to the memory: it survives because versions only grow. */
  ghost predicate ReadsOk(readSet: Memory, mem: Memory) {
    forall id :: id in readSet ==> id in mem && ReadOk(readSet[id], mem[id])
  }

  ghost predicate AttemptOk(l: Local, mem: Memory, foreign: nat) {
    && l.done < |l.program|
    && ViewOk(l.program[l.done], l.view, l.readSet)
    && ReadsOk(l.readSet, mem)
    && (!l.phase.Running? ==> Returned(l.program[l.done], l.view))
    && l.restarts <= l.startedAt <= foreign
  }

  ghost predicate ReadOk(read: Cell, now: Cell) {
    read.version <= now.version && (read.version == now.version ==> read.value == now.value)
  }

  /** A read set that has gone stale has been made so by another thread. */
  ghost predicate StaleExplained(l: Local, mem: Memory, foreign: nat) {
    forall id :: id in l.readSet && id in mem && l.readSet[id].version < mem[id].version ==> l.startedAt < foreign
  }

  ghost predicate AllUnchanged(mem: Memory, readSet: Memory, ids: set<Id>) {
    forall id :: id in ids ==> Unchanged(mem, readSet, id)
  }

  /** The whole read set is still current in `base`, values included. */
  ghost predicate Snapshot(readSet: Memory, base: Memory) {
    forall id :: id in readSet ==> id in base && base[id] == readSet[id]
  }

  /** The memory when commit() has written all of `writes` but `todo`. */
  ghost function Published(base: Memory, writeSet: Values, todo: set<Id>): Memory {
    map id | id in base ::
      if id in writeSet && id !in todo then Cell(writeSet[id], base[id].version + 1) else base[id]
  }

  ghost predicate HolderOk(l: Local, mem: Memory, base: Memory) {
    match l.phase
    case Check(todo) => todo <= l.readSet.Keys && mem == base && AllUnchanged(base, l.readSet, l.readSet.Keys - todo)
    case Recheck(todo) => todo <= l.readSet.Keys && mem == base && AllUnchanged(base, l.readSet, l.readSet.Keys)
    case Publish(todo) =>
      todo <= l.view.writeSet.Keys && mem == Published(base, l.view.writeSet, todo) && Snapshot(l.readSet, base)
    case Leaving => mem == Published(base, l.view.writeSet, {}) && Snapshot(l.readSet, base)
    case _ => true
  }

  ghost predicate LocalOk(s: State, t: Thread)
    requires t < |s.threads| == |s.foreign|
  {
    var l := s.threads[t];
    && l.done <= |l.program|
    && CommittedBy(s.log, t) == l.program[..l.done]
    && !l.phase.Died?
    && (l.phase.Start? ==> l.restarts <= s.foreign[t])
    && (Attempting(l.phase) ==> AttemptOk(l, s.mem, s.foreign[t]))
    && (Attempting(l.phase) && !l.phase.Publish? && !l.phase.Leaving? ==> StaleExplained(l, s.mem, s.foreign[t]))
    && (l.phase.Precheck? ==> l.phase.todo <= l.readSet.Keys)
    && (Holds(l.phase) <==> s.holder == t)
    && HolderOk(l, s.mem, s.base)
  }

  /** The memory as of the last commit: what the log accounts for. */
  ghost function Settled(s: State): Memory {
    if s.holder == NOBODY then s.mem else s.base
  }

  /** Programs never change, and every commit came from one of them. */
  ghost predicate SameProgram(s: State, s0: State) {
    && |s.threads| == |s0.threads|
    && (forall t :: 0 <= t < |s.threads| ==> s.threads[t].program == s0.threads[t].program)
    && (forall e :: e in s.log && e.Committed? ==>
          e.thread < |s0.threads| && e.body in s0.threads[e.thread].program)
  }

  ghost predicate Inv(s: State, s0: State) {
    && |s.foreign| == |s.threads|
    && SameProgram(s, s0)
    && (s.holder == NOBODY || 0 <= s.holder < |s.threads|)
    && (forall t :: 0 <= t < |s.threads| ==> LocalOk(s, t))
    && ValuesOf(Settled(s)) == Recorded(s.log, ValuesOf(s0.mem))
    && LogOk(s.log, ValuesOf(s0.mem))
  }

  /** The memory only moves forward; if a version moved then so did `foreign`. */
  ghost predicate Evolves(mem: Memory, mem': Memory, foreign: nat, foreign': nat) {
    && foreign <= foreign'
    && forall id :: id in mem ==>
         && id in mem' && mem[id].version <= mem'[id].version
         && (mem[id].version == mem'[id].version ==> mem[id] == mem'[id])
         && (mem[id].version < mem'[id].version ==> foreign < foreign')
  }

  lemma BystanderOk(s: State, s': State, u: Thread)
    requires u < |s.threads| == |s.foreign| && |s'.threads| == |s.threads| == |s'.foreign|
    requires LocalOk(s, u) && s'.threads[u] == s.threads[u]
    requires CommittedBy(s'.log, u) == CommittedBy(s.log, u)
    requires Evolves(s.mem, s'.mem, s.foreign[u], s'.foreign[u])
    requires || (s.holder != u && s'.holder != u)
             || (s'.mem == s.mem && s'.base == s.base && s.holder == u == s'.holder)
    ensures LocalOk(s', u)
  {
  }

  lemma ViewOkAfterRead(body: Body, v: View, readSet: Memory, cell: Cell)
    requires ViewOk(body, v, readSet)
    requires body(v.seen).Read? && body(v.seen).id !in v.writeSet
    ensures ViewOk(body, Advance(v, body(v.seen), cell.value), readSet[body(v.seen).id := cell])
  {
    hide Faithful, Reached;
    var id := body(v.seen).id;
    AdvanceIsFaithful(body, v, cell.value);
    AdvanceIsReached(body, v, cell.value);
    LatestSnoc(v.trace, (id, cell.value));
    assert ValuesOf(readSet[id := cell]) == ValuesOf(readSet)[id := cell.value];
  }

  lemma ViewOkAfterOther(body: Body, v: View, readSet: Memory, current: int)
    requires ViewOk(body, v, readSet)
    requires body(v.seen).Read? ==> body(v.seen).id in v.writeSet
    ensures ViewOk(body, Advance(v, body(v.seen), current), readSet)
  {
    AdvanceIsFaithful(body, v, current);
    AdvanceIsReached(body, v, current);
  }

  lemma RunBodyOk(l: Local, mem: Memory, foreign: nat)
    requires l.phase == Running && AttemptOk(l, mem, foreign) && StaleExplained(l, mem, foreign)
    requires var op := l.program[l.done](l.view.seen); op.Read? ==> op.id in l.view.writeSet || op.id in mem
    ensures Attempting(RunBody(l, mem).phase) ==>
              AttemptOk(RunBody(l, mem), mem, foreign) && StaleExplained(RunBody(l, mem), mem, foreign)
  {
    hide ViewOk, Advance;
    var body := l.program[l.done];
    var op := body(l.view.seen);
    if op.Read? && op.id !in l.view.writeSet {
      ViewOkAfterRead(body, l.view, l.readSet, mem[op.id]);
    } else {
      ViewOkAfterOther(body, l.view, l.readSet, if op.Read? then Fetch(op, ValuesOf(mem)) else 0);
    }
  }

  lemma BlankOk(body: Body)
    ensures ViewOk(body, BLANK, map[])
  {
    assert Feed(body, BLANK, []) == BLANK;
  }

  lemma StartOk(s: State, t: Thread, pick: Id)
    requires t < |s.threads| == |s.foreign| && LocalOk(s, t) && Enabled(s, Act(t, pick))
    requires s.threads[t].phase.Start?
    ensures LocalOk(ActStep(s, t, pick), t)
  {
    BlankOk(s.threads[t].program[s.threads[t].done]);
  }

  lemma RunningOk(s: State, t: Thread, pick: Id)
    requires t < |s.threads| == |s.foreign| && LocalOk(s, t) && Enabled(s, Act(t, pick))
    requires s.threads[t].phase.Running?
    ensures LocalOk(ActStep(s, t, pick), t)
  {
    hide Faithful, Reached, Latest, CommittedBy;
    RunBodyOk(s.threads[t], s.mem, s.foreign[t]);
  }

  lemma PrecheckOk(s: State, t: Thread, pick: Id)
    requires t < |s.threads| == |s.foreign| && LocalOk(s, t) && Enabled(s, Act(t, pick))
    requires s.threads[t].phase.Precheck?
    ensures LocalOk(ActStep(s, t, pick), t)
  {
  }

  lemma WaitingOk(s: State, t: Thread, pick: Id)
    requires t < |s.threads| == |s.foreign| && LocalOk(s, t) && Enabled(s, Act(t, pick))
    requires s.threads[t].phase.Waiting?
    ensures LocalOk(ActStep(s, t, pick), t)
  {
  }

  lemma CheckOk(s: State, t: Thread, pick: Id)
    requires t < |s.threads| == |s.foreign| && LocalOk(s, t) && Enabled(s, Act(t, pick))
    requires s.threads[t].phase.Check?
    ensures LocalOk(ActStep(s, t, pick), t)
  {
  }

  lemma RecheckOk(s: State, t: Thread, pick: Id)
    requires t < |s.threads| == |s.foreign| && LocalOk(s, t) && Enabled(s, Act(t, pick))
    requires s.threads[t].phase.Recheck?
    ensures LocalOk(ActStep(s, t, pick), t)
  {
  }

  lemma PublishOk(s: State, t: Thread, pick: Id)
    requires t < |s.threads| == |s.foreign| && LocalOk(s, t) && Enabled(s, Act(t, pick))
    requires s.threads[t].phase.Publish?
    ensures LocalOk(ActStep(s, t, pick), t)
  {
  }

  lemma LeavingOk(s: State, t: Thread, pick: Id)
    requires t < |s.threads| == |s.foreign| && LocalOk(s, t) && Enabled(s, Act(t, pick))
    requires s.threads[t].phase.Leaving?
    ensures LocalOk(ActStep(s, t, pick), t)
  {
    var s' := ActStep(s, t, pick);
    assert s'.log[..|s'.log| - 1] == s.log;
  }

  lemma ActorOk(s: State, t: Thread, pick: Id)
    requires t < |s.threads| == |s.foreign| && LocalOk(s, t) && Enabled(s, Act(t, pick))
    ensures LocalOk(ActStep(s, t, pick), t)
  {
    match s.threads[t].phase
    case Start => StartOk(s, t, pick);
    case Running => RunningOk(s, t, pick);
    case Precheck(_) => PrecheckOk(s, t, pick);
    case Waiting => WaitingOk(s, t, pick);
    case Check(_) => CheckOk(s, t, pick);
    case Recheck(_) => RecheckOk(s, t, pick);
    case Publish(_) => PublishOk(s, t, pick);
    case Leaving => LeavingOk(s, t, pick);
    case Died =>
  }

  lemma CommittedBySnoc(log: seq<Event>, e: Event, u: Thread)
    ensures CommittedBy(log + [e], u) ==
            CommittedBy(log, u) + if e.Committed? && e.thread == u then [e.body] else []
  {
    assert (log + [e])[..|log|] == log;
  }

  // ------------------------------------------------------- every step keeps Inv

  lemma CreateKeepsLocal(s: State, s': State, id: Id, value: int, u: Thread)
    requires u < |s.threads| == |s.foreign| && LocalOk(s, u) && s.holder == NOBODY && id !in s.mem
    requires s' == s.(mem := s.mem[id := Cell(value, 0)], log := s.log + [Created(id, value)])
    ensures LocalOk(s', u)
  {
    CommittedBySnoc(s.log, Created(id, value), u);
    BystanderOk(s, s', u);
  }

  lemma CreateKeepsInv(s: State, s0: State, id: Id, value: int)
    requires Inv(s, s0) && Enabled(s, Create(id, value))
    ensures Inv(Step(s, Create(id, value)), s0)
  {
    hide LocalOk, LogOk, Recorded;
    var s' := Step(s, Create(id, value));
    LogSnoc(s.log, Created(id, value), ValuesOf(s0.mem));
    forall u | 0 <= u < |s.threads|
      ensures LocalOk(s', u)
    {
      CreateKeepsLocal(s, s', id, value, u);
    }
    assert ValuesOf(s'.mem) == ValuesOf(s.mem)[id := value];
  }

  lemma LogSnoc(log: seq<Event>, e: Event, m0: Values)
    requires LogOk(log, m0) && EntryOk(e, Recorded(log, m0))
    ensures LogOk(log + [e], m0)
    ensures Recorded(log + [e], m0) == Record(Recorded(log, m0), e)
  {
    var log' := log + [e];
    assert log'[..|log|] == log;
    forall i | 0 <= i < |log'|
      ensures EntryOk(log'[i], Recorded(log'[..i], m0))
    {
      if i < |log| { assert log'[..i] == log[..i]; }
    }
  }

  /** What a step of `t` does to the rest of the system. */
  ghost predicate Footprint(s: State, s': State, t: Thread)
    requires t < |s.threads| == |s.foreign|
  {
    && |s'.threads| == |s.threads| && |s'.foreign| == |s.foreign|
    && s'.threads[t].program == s.threads[t].program
    && (s'.log == s.log || LogsCommit(s, s', t))
    && (s'.holder == s.holder || (s.holder == NOBODY && s'.holder == t) || (s.holder == t && s'.holder == NOBODY))
    && ((s'.mem == s.mem && s'.base == s.base) || s.holder == t || s'.holder == t)
    && forall u :: 0 <= u < |s.threads| && u != t ==>
         s'.threads[u] == s.threads[u] && Evolves(s.mem, s'.mem, s.foreign[u], s'.foreign[u])
  }

  ghost predicate LogsCommit(s: State, s': State, t: Thread)
    requires t < |s.threads|
  {
    var l := s.threads[t];
    l.phase.Leaving? && l.done < |l.program| && s'.log == s.log + [Committed(t, l.program[l.done], l.view)]
  }

  lemma PublishFootprint(s: State, t: Thread, pick: Id)
    requires t < |s.threads| == |s.foreign| && LocalOk(s, t) && Enabled(s, Act(t, pick))
    requires s.threads[t].phase.Publish?
    ensures Footprint(s, ActStep(s, t, pick), t)
  {
  }

  lemma ActFootprint(s: State, t: Thread, pick: Id)
    requires t < |s.threads| == |s.foreign| && LocalOk(s, t) && Enabled(s, Act(t, pick))
    ensures Footprint(s, ActStep(s, t, pick), t)
  {
    hide Faithful, Reached, Latest, CommittedBy, Consistent;
    if s.threads[t].phase.Publish? {
      PublishFootprint(s, t, pick);
    } else {
      assert ActStep(s, t, pick).mem == s.mem && ActStep(s, t, pick).foreign == s.foreign;
    }
  }

  lemma FootprintKeepsBystanders(s: State, s': State, t: Thread, u: Thread)
    requires t < |s.threads| == |s.foreign| && u < |s.threads| && u != t
    requires Footprint(s, s', t) && LocalOk(s, u)
    ensures LocalOk(s', u)
  {
    if s'.log != s.log {
      CommittedBySnoc(s.log, s'.log[|s.log|], u);
    }
    BystanderOk(s, s', u);
  }

  lemma FootprintKeepsProgram(s: State, s': State, s0: State, t: Thread)
    requires t < |s.threads| == |s.foreign| && Footprint(s, s', t) && SameProgram(s, s0)
    ensures SameProgram(s', s0)
  {
  }

  /** The values that a finished commit leaves behind. */
  lemma PublishedValues(base: Memory, writeSet: Values)
    ensures ValuesOf(Published(base, writeSet, {})) == Overwrite(ValuesOf(base), writeSet)
  {
  }

  /** At the end of a commit the read set still speaks for the memory it started from. */
  lemma LeavingEntryOk(s: State, t: Thread)
    requires t < |s.threads| == |s.foreign| && LocalOk(s, t) && s.threads[t].phase.Leaving?
    ensures var l := s.threads[t]; EntryOk(Committed(t, l.program[l.done], l.view), ValuesOf(s.base))
  {
    var l := s.threads[t];
    forall id | id in Latest(l.view.trace)
      ensures id in s.base && s.base[id].value == Latest(l.view.trace)[id]
    {
      assert id in ValuesOf(l.readSet);
    }
  }

  lemma ActKeepsLog(s: State, s0: State, t: Thread, pick: Id)
    requires Inv(s, s0) && Enabled(s, Act(t, pick))
    ensures var s' := ActStep(s, t, pick);
            LogOk(s'.log, ValuesOf(s0.mem)) && ValuesOf(Settled(s')) == Recorded(s'.log, ValuesOf(s0.mem))
  {
    hide Faithful, Reached, Latest, CommittedBy, EntryOk;
    var l := s.threads[t];
    assert LocalOk(s, t);
    if l.phase.Leaving? {
      PublishedValues(s.base, l.view.writeSet);
      LeavingEntryOk(s, t);
      LogSnoc(s.log, Committed(t, l.program[l.done], l.view), ValuesOf(s0.mem));
    }
  }

  lemma ActKeepsLocals(s: State, s0: State, t: Thread, pick: Id)
    requires Inv(s, s0) && Enabled(s, Act(t, pick))
    ensures var s' := ActStep(s, t, pick);
            && Footprint(s, s', t) && SameProgram(s', s0)
            && forall u :: 0 <= u < |s.threads| ==> LocalOk(s', u)
  {
    var s' := ActStep(s, t, pick);
    assert LocalOk(s, t);
    ActFootprint(s, t, pick);
    FootprintKeepsProgram(s, s', s0, t);
    ActorOk(s, t, pick);
    forall u | 0 <= u < |s.threads| && u != t
      ensures LocalOk(s', u)
    {
      FootprintKeepsBystanders(s, s', t, u);
    }
  }

  lemma StepKeepsInv(s: State, s0: State, a: Action)
    requires Inv(s, s0) && Enabled(s, a)
    ensures Inv(Step(s, a), s0)
  {
    match a
    case Create(id, value) => CreateKeepsInv(s, s0, id, value);
    case Act(t, pick) =>
      ActKeepsLog(s, s0, t, pick);
      ActKeepsLocals(s, s0, t, pick);
  }

  lemma InvAlongRun(s0: State, acts: seq<Action>)
    requires Init(s0) && Legal(STM, s0, acts)
    ensures Inv(After(STM, s0, acts), s0)
  {
    forall s, a | Inv(s, s0) && STM.enabled(s, a)
      ensures Inv(STM.step(s, a), s0)
    {
      StepKeepsInv(s, s0, a);
    }
    InvariantAlongRun(STM, s => Inv(s, s0), s0, acts);
  }

  // ------------------------------------------------------------------- theorems

  ghost predicate AllCommitConsistent(s0: State) {
    forall t, body :: 0 <= t < |s0.threads| && body in s0.threads[t].program ==> CommitsConsistent(body)
  }

  /** `e` did on `m` what it does alone. */
  ghost predicate SerialAt(e: Event, m: Values) {
    if e.Created? then e.id !in m
    else Returned(e.body, e.view) && Alone(e.body, m, |e.view.seen|) == e.view
  }

  ghost predicate AllSerial(log: seq<Event>, m0: Values) {
    forall i :: 0 <= i < |log| ==> SerialAt(log[i], Executed(log[..i], m0))
  }

  lemma LogOkPrefix(log: seq<Event>, m0: Values, n: nat)
    requires LogOk(log, m0) && n <= |log|
    ensures LogOk(log[..n], m0)
  {
    forall i | 0 <= i < n
      ensures EntryOk(log[..n][i], Recorded(log[..n][..i], m0))
    {
      assert log[..n][..i] == log[..i];
    }
  }

  lemma ConsistentEntryIsSerial(e: Event, m: Values)
    requires EntryOk(e, m) && (e.Committed? ==> CommitsConsistent(e.body))
    ensures SerialAt(e, m) && Execute(m, e) == Record(m, e)
  {
    if e.Committed? {
      SerialIffConsistent(e.body, e.view, m);
    }
  }

  lemma SerialSnoc(log: seq<Event>, m0: Values)
    requires log != []
    requires var n := |log| - 1; AllSerial(log[..n], m0) && SerialAt(log[n], Executed(log[..n], m0))
    ensures AllSerial(log, m0)
  {
    hide SerialAt, Executed;
    var n := |log| - 1;
    forall i | 0 <= i < |log|
      ensures SerialAt(log[i], Executed(log[..i], m0))
    {
      if i < n { assert log[..n][..i] == log[..i] && log[..n][i] == log[i]; }
    }
  }

  lemma {:induction false} ExecutedIsRecorded(log: seq<Event>, m0: Values)
    requires LogOk(log, m0)
    requires forall e :: e in log && e.Committed? ==> CommitsConsistent(e.body)
    ensures Executed(log, m0) == Recorded(log, m0) && AllSerial(log, m0)
  {
    hide SerialAt, EntryOk, CommitsConsistent, Execute, Record;
    if log != [] {
      var n := |log| - 1;
      LogOkPrefix(log, m0, n);
      ExecutedIsRecorded(log[..n], m0);
      ConsistentEntryIsSerial(log[n], Recorded(log[..n], m0));
      SerialSnoc(log, m0);
    }
  }

  /** Serializability.  Whenever the commit lock is free the memory is what the
      committed bodies produce when run one at a time, each alone, in commit order;
      each of them did exactly what it does in that serial run, and each thread has
      committed its bodies in program order.  The bodies are those that do not commit after
      reading two values from one TVar; ReadsOnceCommitsConsistent says that reading each
      TVar at most once before writing it is enough. */
  lemma Serializable(s0: State, acts: seq<Action>)
    requires Init(s0) && Legal(STM, s0, acts) && AllCommitConsistent(s0)
    ensures var s, m0 := After(STM, s0, acts), ValuesOf(s0.mem);
            && (s.holder == NOBODY ==> ValuesOf(s.mem) == Executed(s.log, m0))
            && AllSerial(s.log, m0)
            && |s.threads| == |s0.threads|
            && (forall t :: 0 <= t < |s.threads| ==>
                  && s.threads[t].done <= |s0.threads[t].program|
                  && CommittedBy(s.log, t) == s0.threads[t].program[..s.threads[t].done])
  {
    InvAlongRun(s0, acts);
    var s, m0 := After(STM, s0, acts), ValuesOf(s0.mem);
    ExecutedIsRecorded(s.log, m0);
    forall t | 0 <= t < |s.threads|
      ensures s.threads[t].done <= |s0.threads[t].program|
      ensures CommittedBy(s.log, t) == s0.threads[t].program[..s.threads[t].done]
    {
      assert LocalOk(s, t);
    }
  }

  /** For bodies of any shape: a commit did what its body does alone, on the memory
      left by the commits before it, exactly when its re-reads of a TVar agreed. */
  lemma CommitSerialIffRereadsAgree(s0: State, acts: seq<Action>, i: nat)
    requires Init(s0) && Legal(STM, s0, acts)
    requires i < |After(STM, s0, acts).log| && After(STM, s0, acts).log[i].Committed?
    ensures var log := After(STM, s0, acts).log; var e := log[i];
            Alone(e.body, Recorded(log[..i], ValuesOf(s0.mem)), |e.view.seen|) == e.view
            <==> Consistent(e.view.trace)
  {
    InvAlongRun(s0, acts);
    var log := After(STM, s0, acts).log;
    assert EntryOk(log[i], Recorded(log[..i], ValuesOf(s0.mem)));
    SerialIffConsistent(log[i].body, log[i].view, Recorded(log[..i], ValuesOf(s0.mem)));
  }

  /** A transaction that is publishing, or has published, saw one lock-free memory:
      one that observed half of another commit never gets there. */
  lemma TornReadNeverCommits(s0: State, acts: seq<Action>, t: Thread)
    requires Init(s0) && Legal(STM, s0, acts) && AllCommitConsistent(s0)
    requires t < |s0.threads|
    ensures var s := After(STM, s0, acts);
            && t < |s.threads|
            && (!Agrees(s.threads[t].view.trace, ValuesOf(Settled(s))) ==>
                  !s.threads[t].phase.Publish? && !s.threads[t].phase.Leaving?)
  {
    InvAlongRun(s0, acts);
    var s := After(STM, s0, acts);
    var l := s.threads[t];
    assert LocalOk(s, t);
    if l.phase.Publish? || l.phase.Leaving? {
      assert l.program[l.done] in s0.threads[t].program && CommitsConsistent(l.program[l.done]);
      forall id | id in Latest(l.view.trace)
        ensures id in s.base && s.base[id].value == Latest(l.view.trace)[id]
      {
        assert id in ValuesOf(l.readSet);
      }
      ConsistentReadsAgree(l.view.trace, ValuesOf(s.base));
    }
  }

  /** Neither RuntimeError of commit() is ever raised. */
  lemma CommitNeverFails(s0: State, acts: seq<Action>, t: Thread)
    requires Init(s0) && Legal(STM, s0, acts) && t < |s0.threads|
    ensures t < |After(STM, s0, acts).threads| && !After(STM, s0, acts).threads[t].phase.Died?
  {
    InvAlongRun(s0, acts);
    assert LocalOk(After(STM, s0, acts), t);
  }

  /** `a` is a step of a thread other than `t` that raises the version of a TVar. */
  ghost predicate RaisedByOther(s: State, a: Action, t: Thread) {
    a.Act? && a.t != t && exists id :: id in s.mem && s.mem[id].version < Step(s, a).mem[id].version
  }

  /** `a` is a step in which thread `t` abandons an attempt because of a conflict. */
  ghost predicate ConflictRestart(s: State, a: Action, t: Thread) {
    && a.Act? && a.t == t < |s.threads|
    && (s.threads[t].phase.Precheck? || s.threads[t].phase.Check?)
    && |Step(s, a).threads| == |s.threads| && Step(s, a).threads[t].phase.Start?
  }

  ghost function CountRaised(s: State, acts: seq<Action>, t: Thread): nat
    decreases |acts|
  {
    if acts == [] then 0
    else (if RaisedByOther(s, acts[0], t) then 1 else 0) + CountRaised(Step(s, acts[0]), acts[1..], t)
  }

  ghost function CountRestarts(s: State, acts: seq<Action>, t: Thread): nat
    decreases |acts|
  {
    if acts == [] then 0
    else (if ConflictRestart(s, acts[0], t) then 1 else 0) + CountRestarts(Step(s, acts[0]), acts[1..], t)
  }

  lemma PublishRaises(s: State, a: Action, t: Thread)
    requires t < |s.threads| && t < |s.foreign| && Enabled(s, a) && a.Act? && LocalOk(s, a.t)
    ensures RaisedByOther(s, a, t) ==> a.t != t && s.threads[a.t].phase.Publish?
    ensures |Step(s, a).foreign| == |s.foreign|
    ensures Step(s, a).foreign[t] == s.foreign[t] + if RaisedByOther(s, a, t) then 1 else 0
  {
    var l := s.threads[a.t];
    if l.phase.Publish? && a.pick in l.phase.todo && a.pick in s.mem {
      assert Step(s, a).mem[a.pick].version == s.mem[a.pick].version + 1;
    }
  }

  lemma StepCounts(s: State, s0: State, a: Action, t: Thread)
    requires Inv(s, s0) && Enabled(s, a) && t < |s.threads|
    ensures var s' := Step(s, a);
            && |s'.threads| == |s'.foreign| == |s.threads|
            && s'.foreign[t] == s.foreign[t] + (if RaisedByOther(s, a, t) then 1 else 0)
            && s'.threads[t].restarts == s.threads[t].restarts + (if ConflictRestart(s, a, t) then 1 else 0)
  {
    if a.Act? {
      assert LocalOk(s, a.t);
      ActFootprint(s, a.t, a.pick);
      PublishRaises(s, a, t);
      if a.t == t { RestartCounted(s, t, a.pick); }
    }
  }

  lemma RestartCounted(s: State, t: Thread, pick: Id)
    requires t < |s.threads| == |s.foreign| && Enabled(s, Act(t, pick)) && LocalOk(s, t)
    ensures |ActStep(s, t, pick).threads| == |s.threads|
    ensures ActStep(s, t, pick).threads[t].restarts ==
            s.threads[t].restarts + if ConflictRestart(s, Act(t, pick), t) then 1 else 0
  {
  }

  lemma {:induction false} CountsAlongRun(s: State, s0: State, acts: seq<Action>, t: Thread)
    requires Inv(s, s0) && Legal(STM, s, acts) && t < |s.threads|
    ensures var s' := After(STM, s, acts);
            && |s'.threads| == |s'.foreign| == |s.threads|
            && s'.foreign[t] == s.foreign[t] + CountRaised(s, acts, t)
            && s'.threads[t].restarts == s.threads[t].restarts + CountRestarts(s, acts, t)
    decreases |acts|
  {
    if acts != [] {
      StepKeepsInv(s, s0, acts[0]);
      StepCounts(s, s0, acts[0], t);
      CountsAlongRun(Step(s, acts[0]), s0, acts[1..], t);
    }
  }

  /** Progress: each conflict restart is paid for by a version increment that another
      thread made. */
  lemma RestartsAreCausedByOthers(s0: State, acts: seq<Action>, t: Thread)
    requires Init(s0) && Legal(STM, s0, acts) && t < |s0.threads|
    requires s0.foreign[t] == 0
    ensures CountRestarts(s0, acts, t) <= CountRaised(s0, acts, t)
  {
    InvAlongRun(s0, []);
    CountsAlongRun(s0, s0, acts, t);
    InvAlongRun(s0, acts);
    assert LocalOk(After(STM, s0, acts), t);
  }

  // ------------------------------------------------------- who causes a restart

  /** Thread `t` has read `cell` from TVar `id` in its attempt. */
  ghost predicate Remembers(s: State, t: Thread, id: Id, cell: Cell) {
    t < |s.threads| && id in s.threads[t].readSet && s.threads[t].readSet[id] == cell
  }

  /** Step `i` of the run is one of another thread that raises the version of `id`, and from
      before that step to the end of the run `t` has had `cell` from `id` in its read set. */
  ghost predicate RaisedAt(s0: State, acts: seq<Action>, t: Thread, id: Id, cell: Cell, i: nat) {
    i < |acts| &&
    var s := After(STM, s0, acts[..i]);
    var s' := Step(s, acts[i]);
    && acts[i].Act? && acts[i].t != t
    && id in s.mem && id in s'.mem && s.mem[id].version < s'.mem[id].version
    && forall k :: i <= k <= |acts| ==> Remembers(After(STM, s0, acts[..k]), t, id, cell)
  }

  ghost predicate Undecided(p: Phase) {
    Attempting(p) && !p.Publish? && !p.Leaving?
  }

  ghost predicate Stale(s: State, t: Thread, id: Id) {
    t < |s.threads| && Undecided(s.threads[t].phase)
    && id in s.threads[t].readSet && id in s.mem && s.threads[t].readSet[id].version < s.mem[id].version
  }

  /** A thread's own steps make nothing stale. */
  lemma OwnStepReads(s: State, t: Thread, pick: Id, id: Id)
    requires t < |s.threads| == |s.foreign| && Enabled(s, Act(t, pick)) && LocalOk(s, t)
    requires Stale(ActStep(s, t, pick), t, id)
    ensures Stale(s, t, id) && ActStep(s, t, pick).threads[t].readSet[id] == s.threads[t].readSet[id]
  {
  }

  /** Another thread's step makes a TVar stale only by raising its version. */
  lemma OthersStepReads(s: State, s0: State, a: Action, t: Thread, id: Id)
    requires Inv(s, s0) && Enabled(s, a) && t < |s.threads| && (a.Act? ==> a.t != t) && Stale(Step(s, a), t, id)
    ensures Step(s, a).threads[t] == s.threads[t]
    ensures Stale(s, t, id) || (a.Act? && id in s.mem && id in Step(s, a).mem && s.mem[id].version < Step(s, a).mem[id].version)
  {
    hide ViewOk, HolderOk, CommittedBy, LogOk, RunBody, SameProgram;
    assert LocalOk(s, t);
    if a.Act? {
      assert LocalOk(s, a.t);
      ActFootprint(s, a.t, a.pick);
      assert Footprint(s, Step(s, a), a.t);
      hide ActStep, Step, Enabled, Inv;
      assert Evolves(s.mem, Step(s, a).mem, s.foreign[t], Step(s, a).foreign[t]);
    }
  }

  lemma RaisedLater(s0: State, acts: seq<Action>, t: Thread, id: Id, cell: Cell, i: nat)
    requires acts != [] && RaisedAt(s0, acts[..|acts| - 1], t, id, cell, i)
    requires Remembers(After(STM, s0, acts), t, id, cell)
    ensures RaisedAt(s0, acts, t, id, cell, i)
  {
    hide Remembers, Step;
    var n := |acts| - 1;
    assert acts[..n][..i] == acts[..i];
    forall k | i <= k <= |acts|
      ensures Remembers(After(STM, s0, acts[..k]), t, id, cell)
    {
      if k <= n { assert acts[..n][..k] == acts[..k]; } else { assert acts[..k] == acts; }
    }
  }

  lemma RaisedNow(s0: State, acts: seq<Action>, t: Thread, id: Id, cell: Cell)
    requires acts != []
    requires var n := |acts| - 1; var s := After(STM, s0, acts[..n]); var s' := Step(s, acts[n]);
             && acts[n].Act? && acts[n].t != t && Remembers(s, t, id, cell)
             && id in s.mem && id in s'.mem && s.mem[id].version < s'.mem[id].version
    requires Remembers(After(STM, s0, acts), t, id, cell)
    ensures RaisedAt(s0, acts, t, id, cell, |acts| - 1)
  {
    hide Remembers, Step;
    var n := |acts| - 1;
    forall k | n <= k <= |acts|
      ensures Remembers(After(STM, s0, acts[..k]), t, id, cell)
    {
      if k > n { assert acts[..k] == acts; }
    }
  }

  lemma {:induction false} StaleWasRaised(s0: State, acts: seq<Action>, t: Thread, id: Id) returns (i: nat)
    requires Init(s0) && Legal(STM, s0, acts) && t < |s0.threads| && Stale(After(STM, s0, acts), t, id)
    ensures RaisedAt(s0, acts, t, id, After(STM, s0, acts).threads[t].readSet[id], i)
    decreases |acts|
  {
    var n := |acts| - 1;
    LastStep(STM, s0, acts);
    InvAlongRun(s0, acts[..n]);
    var s, s' := After(STM, s0, acts[..n]), After(STM, s0, acts);
    var cell := s'.threads[t].readSet[id];
    assert LocalOk(s, t);
    if acts[n].Act? && acts[n].t == t {
      OwnStepReads(s, t, acts[n].pick, id);
    } else {
      OthersStepReads(s, s0, acts[n], t, id);
    }
    hide Step, LocalOk, Inv, Enabled, RaisedAt;
    if Stale(s, t, id) {
      i := StaleWasRaised(s0, acts[..n], t, id);
      RaisedLater(s0, acts, t, id, cell, i);
    } else {
      i := n;
      RaisedNow(s0, acts, t, id, cell);
    }
  }

  /** Each single restart has a culprit: the TVar that it fails on has a higher version than
      when this attempt read it, because after that read another thread raised it. */
  lemma ConflictHasCulprit(s0: State, acts: seq<Action>, t: Thread, pick: Id) returns (i: nat)
    requires Init(s0) && Legal(STM, s0, acts)
    requires var s := After(STM, s0, acts); Enabled(s, Act(t, pick)) && ConflictRestart(s, Act(t, pick), t)
    ensures var s := After(STM, s0, acts); var l := s.threads[t];
            && pick in l.readSet && pick in s.mem && l.readSet[pick].version < s.mem[pick].version
            && RaisedAt(s0, acts, t, pick, l.readSet[pick], i)
  {
    InvAlongRun(s0, acts);
    var s := After(STM, s0, acts);
    assert LocalOk(s, t);
    i := StaleWasRaised(s0, acts, t, pick);
  }
}
