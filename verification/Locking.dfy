/** Threads that take and release locks, and why a fixed order prevents deadlock.

  cpp/shared_memory_lock/deadlock.cpp is the program that hangs and the order that does
  not; module LockedBank uses the same argument for python/shared_memory_lock/bank_account.py. */
module Locking {
  import opened Runs

  type LockId = nat
  type Owner = map<LockId, nat>   // which thread holds each taken lock

  datatype Cmd<A> = Lock(id: LockId) | Unlock(id: LockId) | Do(act: A)

  predicate CanRun<A>(owner: Owner, cmd: Cmd<A>) {
    cmd.Lock? ==> cmd.id !in owner
  }

  function OwnerAfter<A>(owner: Owner, t: nat, cmd: Cmd<A>): Owner {
    match cmd
    case Lock(id) => owner[id := t]
    case Unlock(id) => owner - {id}
    case Do(_) => owner
  }

  function HeldBy(owner: Owner, t: nat): set<LockId> {
    set id | id in owner && owner[id] == t
  }

  /** Every lock is taken above all locks held, and only held locks are released. */
  predicate WellOrdered<A>(cmds: seq<Cmd<A>>, held: set<LockId>) {
    if cmds == [] then held == {}
    else
      match cmds[0]
      case Lock(id) => (forall h :: h in held ==> h < id) && WellOrdered(cmds[1..], held + {id})
      case Unlock(id) => id in held && WellOrdered(cmds[1..], held - {id})
      case Do(_) => WellOrdered(cmds[1..], held)
  }

  /** How a well-ordered list of commands is built from its end. */
  lemma OrderedCons<A>(cmd: Cmd<A>, rest: seq<Cmd<A>>, held: set<LockId>, held': set<LockId>)
    requires WellOrdered(rest, held')
    requires cmd.Lock? ==> (forall h :: h in held ==> h < cmd.id) && held' == held + {cmd.id}
    requires cmd.Unlock? ==> cmd.id in held && held' == held - {cmd.id}
    requires cmd.Do? ==> held' == held
    ensures WellOrdered([cmd] + rest, held)
  {
    assert ([cmd] + rest)[1..] == rest;
  }

  lemma {:induction false} Greatest(ids: set<LockId>) returns (top: LockId)
    requires ids != {}
    ensures top in ids && forall id :: id in ids ==> id <= top
    decreases |ids|
  {
    var x :| x in ids;
    if ids - {x} == {} {
      top := x;
      assert forall id :: id in ids ==> id in ids - {x} || id == x;
    } else {
      var rest := Greatest(ids - {x});
      top := if rest < x then x else rest;
      assert forall id :: id in ids ==> id in ids - {x} || id == x;
    }
  }

  /** `rest[t]` is what thread `t` has still to do.  Unless all have finished, the holder
      of the greatest lock taken can move, or, if none is taken, any unfinished thread. */
  lemma SomeoneCanMove<A>(owner: Owner, rest: seq<seq<Cmd<A>>>) returns (t: nat)
    requires forall id :: id in owner ==> owner[id] < |rest|
    requires forall u :: 0 <= u < |rest| ==> WellOrdered(rest[u], HeldBy(owner, u))
    requires exists u :: 0 <= u < |rest| && rest[u] != []
    ensures t < |rest| && rest[t] != [] && CanRun(owner, rest[t][0])
  {
    if owner.Keys == {} {
      t :| 0 <= t < |rest| && rest[t] != [];
    } else {
      var top := Greatest(owner.Keys);
      t := owner[top];
      assert top in HeldBy(owner, t);
    }
  }

  // -------------------------------------------------------- threads that only lock

  datatype State = State(owner: Owner, rest: seq<seq<Cmd<()>>>)

  predicate Enabled(s: State, t: nat) {
    t < |s.rest| && s.rest[t] != [] && CanRun(s.owner, s.rest[t][0])
  }

  function Step(s: State, t: nat): State {
    if !Enabled(s, t) then s
    else State(OwnerAfter(s.owner, t, s.rest[t][0]), s.rest[t := s.rest[t][1..]])
  }

  const THREADS := System(Enabled, Step)

  predicate Finished(s: State) {
    forall t :: 0 <= t < |s.rest| ==> s.rest[t] == []
  }

  predicate Ordered(s: State) {
    && (forall id :: id in s.owner ==> s.owner[id] < |s.rest|)
    && (forall t :: 0 <= t < |s.rest| ==> WellOrdered(s.rest[t], HeldBy(s.owner, t)))
  }

  lemma StepKeepsOrdered(s: State, t: nat)
    requires Ordered(s) && Enabled(s, t)
    ensures Ordered(Step(s, t))
  {
    var s' := Step(s, t);
    var cmd := s.rest[t][0];
    forall u | 0 <= u < |s'.rest|
      ensures WellOrdered(s'.rest[u], HeldBy(s'.owner, u))
    {
      assert WellOrdered(s.rest[u], HeldBy(s.owner, u)) && WellOrdered(s.rest[t], HeldBy(s.owner, t));
      if u != t {
        assert cmd.Unlock? ==> cmd.id in HeldBy(s.owner, t);
        assert HeldBy(s'.owner, u) == HeldBy(s.owner, u);
      } else {
        assert HeldBy(s'.owner, t) ==
               match cmd { case Lock(id) => HeldBy(s.owner, t) + {id}
                           case Unlock(id) => HeldBy(s.owner, t) - {id}
                           case Do(_) => HeldBy(s.owner, t) };
      }
    }
  }

  /** Any number of threads that take their locks in ascending order never hang. */
  lemma OrderedThreadsFinish(s0: State, acts: seq<nat>)
    requires s0.owner == map[] && forall t :: 0 <= t < |s0.rest| ==> WellOrdered(s0.rest[t], {})
    requires Legal(THREADS, s0, acts) && Stuck(THREADS, After(THREADS, s0, acts))
    ensures Finished(After(THREADS, s0, acts))
  {
    forall t | 0 <= t < |s0.rest|
      ensures WellOrdered(s0.rest[t], HeldBy(s0.owner, t))
    {
      assert HeldBy(s0.owner, t) == {};
    }
    forall s: State, t | Ordered(s) && THREADS.enabled(s, t)
      ensures Ordered(THREADS.step(s, t))
    {
      StepKeepsOrdered(s, t);
    }
    InvariantAlongRun(THREADS, Ordered, s0, acts);
    if !Finished(After(THREADS, s0, acts)) {
      NotStuck(After(THREADS, s0, acts));
    }
  }

  lemma NotStuck(s: State)
    requires Ordered(s) && !Finished(s)
    ensures !Stuck(THREADS, s)
  {
    var t := SomeoneCanMove(s.owner, s.rest);
    assert THREADS.enabled(s, t);
  }

  function CommandsLeft<A>(rest: seq<seq<Cmd<A>>>): nat {
    if rest == [] then 0 else |rest[0]| + CommandsLeft(rest[1..])
  }

  lemma {:induction false} OneLess<A>(rest: seq<seq<Cmd<A>>>, t: nat)
    requires t < |rest| && rest[t] != []
    ensures CommandsLeft(rest[t := rest[t][1..]]) + 1 == CommandsLeft(rest)
  {
    var rest' := rest[t := rest[t][1..]];
    if t == 0 {
      assert rest'[1..] == rest[1..];
    } else {
      OneLess(rest[1..], t - 1);
      assert rest'[1..] == rest[1..][t - 1 := rest[1..][t - 1][1..]];
    }
  }

  /** No run goes on for ever, deadlock or not: every step is one command. */
  lemma {:induction false} RunLength(s: State, acts: seq<nat>)
    requires Legal(THREADS, s, acts)
    ensures |acts| + CommandsLeft(After(THREADS, s, acts).rest) == CommandsLeft(s.rest)
    decreases acts
  {
    if acts != [] {
      OneLess(s.rest, acts[0]);
      RunLength(Step(s, acts[0]), acts[1..]);
    }
  }

  // ------------------------------------------------------------------ deadlock.cpp

  const MTX_A: LockId := 0
  const MTX_B: LockId := 1

  const THREAD_A: seq<Cmd<()>> := [Lock(MTX_A), Lock(MTX_B), Unlock(MTX_B), Unlock(MTX_A)]
  const THREAD_B: seq<Cmd<()>> := [Lock(MTX_B), Lock(MTX_A), Unlock(MTX_A), Unlock(MTX_B)]

  /** The threads of the corrected program release in the reverse order, as lock_guards do. */
  const THREAD_FIXED: seq<Cmd<()>> := [Lock(MTX_A), Lock(MTX_B), Unlock(MTX_B), Unlock(MTX_A)]

  const PROGRAM := State(map[], [THREAD_A, THREAD_B])

  /** Thread A holds mtx_a and wants mtx_b, thread B the other way round. */
  predicate Deadlocked(s: State) {
    s.owner == map[MTX_A := 0, MTX_B := 1] && s.rest == [THREAD_A[1..], THREAD_B[1..]]
  }

  /** The program hangs when each thread gets its first lock before the other's second. */
  lemma OppositeOrderHangs()
    ensures Legal(THREADS, PROGRAM, [0, 1])
    ensures Deadlocked(After(THREADS, PROGRAM, [0, 1])) && Stuck(THREADS, After(THREADS, PROGRAM, [0, 1]))
  {
    Extend(THREADS, PROGRAM, [], 0);
    Extend(THREADS, PROGRAM, [0], 1);
    assert [] + [0] == [0] && [0] + [1] == [0, 1];
    var s1 := Step(PROGRAM, 0);
    assert s1 == State(map[MTX_A := 0], [THREAD_A[1..], THREAD_B]);
    var s2 := Step(s1, 1);
    assert s2.owner == map[MTX_A := 0, MTX_B := 1];
    assert s2.rest == [THREAD_A[1..], THREAD_B[1..]];
  }

  /** Where the two threads are, and who then holds the locks. */
  predicate Reached(s: State, i: nat, j: nat) {
    && i <= 4 && j <= 4 && s.rest == [THREAD_A[i..], THREAD_B[j..]]
    && (MTX_A in s.owner <==> 1 <= i <= 3 || j == 2)
    && (MTX_B in s.owner <==> i == 2 || 1 <= j <= 3)
    && !((1 <= i <= 3) && j == 2) && !(i == 2 && 1 <= j <= 3)
  }

  predicate SomewhereReached(s: State) {
    exists i: nat, j: nat | i <= 4 && j <= 4 :: Reached(s, i, j)
  }

  lemma Tail(cmds: seq<Cmd<()>>, i: nat)
    requires i < |cmds|
    ensures cmds[i..][0] == cmds[i] && cmds[i..][1..] == cmds[i + 1..]
  {
  }

  lemma ReachedByA(s: State, i: nat, j: nat)
    requires Reached(s, i, j) && Enabled(s, 0)
    ensures i < 4 && Reached(Step(s, 0), i + 1, j)
  {
    Tail(THREAD_A, i);
    var s' := Step(s, 0);
    assert s'.rest == [THREAD_A[i + 1..], THREAD_B[j..]];
    assert s'.owner == OwnerAfter(s.owner, 0, THREAD_A[i]);
  }

  lemma ReachedByB(s: State, i: nat, j: nat)
    requires Reached(s, i, j) && Enabled(s, 1)
    ensures j < 4 && Reached(Step(s, 1), i, j + 1)
  {
    Tail(THREAD_B, j);
    var s' := Step(s, 1);
    assert s'.rest == [THREAD_A[i..], THREAD_B[j + 1..]];
    assert s'.owner == OwnerAfter(s.owner, 1, THREAD_B[j]);
  }

  lemma OneOfTwo(s: State, i: nat, j: nat, t: nat)
    requires Reached(s, i, j) && Enabled(s, t)
    ensures i <= 4 && j <= 4 && (t == 0 || t == 1)
  {
  }

  lemma SomewhereStep(s: State, t: nat)
    requires SomewhereReached(s) && Enabled(s, t)
    ensures SomewhereReached(Step(s, t))
  {
    hide Reached, Step, Enabled;
    var i: nat, j: nat :| i <= 4 && j <= 4 && Reached(s, i, j);
    OneOfTwo(s, i, j, t);
    if t == 0 { ReachedByA(s, i, j); } else { ReachedByB(s, i, j); }
  }

  lemma StuckReached(s: State, i: nat, j: nat)
    requires Reached(s, i, j) && !Enabled(s, 0) && !Enabled(s, 1)
    ensures Finished(s) || s.rest == [THREAD_A[1..], THREAD_B[1..]]
  {
    if i < 4 { Tail(THREAD_A, i); }
    if j < 4 { Tail(THREAD_B, j); }
    assert (i == 4 && j == 4) || (i == 1 && j == 1);
  }

  /** That is the only way to hang: any run that can go no further has finished, or is
      in that state. */
  lemma OnlyOneDeadlock(acts: seq<nat>)
    requires Legal(THREADS, PROGRAM, acts) && Stuck(THREADS, After(THREADS, PROGRAM, acts))
    ensures var s := After(THREADS, PROGRAM, acts);
            Finished(s) || s.rest == [THREAD_A[1..], THREAD_B[1..]]
  {
    assert Reached(PROGRAM, 0, 0);
    hide Reached, Enabled, Step, Finished;
    forall s: State, t | SomewhereReached(s) && THREADS.enabled(s, t)
      ensures SomewhereReached(THREADS.step(s, t))
    {
      SomewhereStep(s, t);
    }
    InvariantAlongRun(THREADS, SomewhereReached, PROGRAM, acts);
    var s := After(THREADS, PROGRAM, acts);
    var i: nat, j: nat :| i <= 4 && j <= 4 && Reached(s, i, j);
    assert !THREADS.enabled(s, 0) && !THREADS.enabled(s, 1);
    StuckReached(s, i, j);
  }

  /** With the order of the comment in the file, no number of threads hangs. */
  lemma FixedOrderFinishes(n: nat, acts: seq<nat>)
    requires Legal(THREADS, State(map[], seq(n, _ => THREAD_FIXED)), acts)
    requires Stuck(THREADS, After(THREADS, State(map[], seq(n, _ => THREAD_FIXED)), acts))
    ensures Finished(After(THREADS, State(map[], seq(n, _ => THREAD_FIXED)), acts))
  {
    var none: seq<Cmd<()>> := [];
    OrderedCons(Unlock(MTX_A), none, {MTX_A}, {});
    OrderedCons(Unlock(MTX_B), [Unlock(MTX_A)] + none, {MTX_A, MTX_B}, {MTX_A});
    OrderedCons(Lock(MTX_B), [Unlock(MTX_B)] + ([Unlock(MTX_A)] + none), {MTX_A}, {MTX_A, MTX_B});
    OrderedCons(Lock(MTX_A), [Lock(MTX_B)] + ([Unlock(MTX_B)] + ([Unlock(MTX_A)] + none)), {}, {MTX_A});
    assert THREAD_FIXED == [Lock(MTX_A)] + ([Lock(MTX_B)] + ([Unlock(MTX_B)] + ([Unlock(MTX_A)] + none)));
    OrderedThreadsFinish(State(map[], seq(n, _ => THREAD_FIXED)), acts);
  }
}
