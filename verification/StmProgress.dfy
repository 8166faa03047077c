/** What the transactions of module Stm can always do: some thread can move, a thread inside
  commit() frees the lock by its own steps, and a body that returns when run alone can commit
  from any moment at which the lock is free. */
module StmProgress {
  import opened Runs
  import opened Stm
  import opened Totals

  // ------------------------------------------------------------- building a run

  ghost predicate At(s0: State, acts: seq<Action>, s: State) {
    Legal(STM, s0, acts) && After(STM, s0, acts) == s
  }

  lemma Take(s0: State, acts: seq<Action>, s: State, t: Thread, pick: Id) returns (acts': seq<Action>, s': State)
    requires At(s0, acts, s) && Enabled(s, Act(t, pick))
    ensures At(s0, acts', s') && s' == ActStep(s, t, pick)
    ensures acts' == acts + [Act(t, pick)]
  {
    Extend(STM, s0, acts, Act(t, pick));
    acts', s' := acts + [Act(t, pick)], Step(s, Act(t, pick));
  }

  /** Nothing but thread `t` has moved, and only as far as its own state. */
  ghost predicate Moved(s: State, s': State, t: Thread, l: Local)
    requires t < |s.threads|
  {
    s' == s.(threads := s.threads[t := l])
  }

  const ANY: Id := 0

  // ------------------------------------------------------------ someone can move

  /** The next operation of thread `t` is not a read of a TVar that nobody has created. */
  ghost predicate NextRegistered(s: State, t: Thread)
    requires t < |s.threads|
  {
    var l := s.threads[t];
    l.phase.Running? && l.done < |l.program| && ReadsTVar(l.program[l.done], l.view) ==>
      l.program[l.done](l.view.seen).id in s.mem
  }

  ghost predicate ReadsTVar(body: Body, v: View) {
    body(v.seen).Read? && body(v.seen).id !in v.writeSet
  }

  /** One of the TVars still to be treated, if there is one. */
  ghost function Next(todo: set<Id>): Id {
    if todo == {} then ANY else AnyOf(todo)
  }

  ghost function NextPick(p: Phase): Id {
    match p
    case Precheck(todo) => Next(todo)
    case Check(todo) => Next(todo)
    case Recheck(todo) => Next(todo)
    case Publish(todo) => Next(todo)
    case _ => ANY
  }

  /** A thread that has a body left is held up by nothing but the commit lock, which it waits for
      only when it has returned and validated: it runs, and validates, beside a commit. */
  lemma ThreadCanMove(s: State, s0: State, t: Thread)
    requires Inv(s, s0) && t < |s.threads|
    requires s.threads[t].done < |s.threads[t].program| && NextRegistered(s, t)
    ensures (exists pick :: Enabled(s, Act(t, pick))) <==> s.threads[t].phase != Waiting || s.holder == NOBODY
    ensures s.threads[t].phase != Waiting || s.holder == NOBODY ==> Enabled(s, Act(t, NextPick(s.threads[t].phase)))
  {
    assert LocalOk(s, t);
    if s.threads[t].phase != Waiting || s.holder == NOBODY { assert Enabled(s, Act(t, NextPick(s.threads[t].phase))); }
  }

  /** In every reachable state in which a thread has a body left, and the TVar that it reads
      next is registered, some thread can take a step. */
  lemma SomeoneCanMove(s0: State, acts: seq<Action>, t: Thread) returns (u: Thread, pick: Id)
    requires Init(s0) && Legal(STM, s0, acts)
    requires var s := After(STM, s0, acts);
             t < |s.threads| && s.threads[t].done < |s.threads[t].program| && NextRegistered(s, t)
    ensures Enabled(After(STM, s0, acts), Act(u, pick))
    ensures After(STM, s0, acts).holder != NOBODY ==> u == After(STM, s0, acts).holder
  {
    InvAlongRun(s0, acts);
    var s := After(STM, s0, acts);
    u := if s.holder == NOBODY then t else s.holder;
    assert LocalOk(s, u) && (s.holder != NOBODY ==> Holds(s.threads[u].phase));
    pick := NextPick(s.threads[u].phase);
    ThreadCanMove(s, s0, u);
  }

  /** create_tvar succeeds whenever the lock is free: the TVar is there, at version 0, and all
      else is as it was. */
  lemma TVarCanBeCreated(s: State, id: Id, value: int)
    requires s.holder == NOBODY && id !in s.mem
    ensures Enabled(s, Create(id, value))
    ensures var s' := Step(s, Create(id, value));
            s'.mem.Keys == s.mem.Keys + {id} && s'.mem[id] == Cell(value, 0) && (forall i :: i in s.mem ==> s'.mem[i] == s.mem[i])
            && s'.threads == s.threads && s'.holder == NOBODY
  {
  }

  /** The steps that the holder of the lock has left before it frees it. */
  ghost function HolderWork(l: Local): nat {
    match l.phase
    case Check(todo) => |todo| + |l.readSet| + |l.view.writeSet| + 4
    case Recheck(todo) => |todo| + |l.view.writeSet| + 3
    case Publish(todo) => |todo| + 2
    case Leaving => 1
    case _ => 0
  }

  /** How the phase of the holder moves on. */
  ghost predicate PhaseMoves(l: Local, p: Phase, pick: Id) {
    match l.phase
    case Check(todo) => if todo == {} then p == Recheck(l.readSet.Keys) else pick in todo && p == Check(todo - {pick})
    case Recheck(todo) => if todo == {} then p == Publish(l.view.writeSet.Keys) else pick in todo && p == Recheck(todo - {pick})
    case Publish(todo) => if todo == {} then p == Leaving else pick in todo && p == Publish(todo - {pick})
    case _ => false
  }

  lemma HolderStep(s: State, t: Thread, pick: Id)
    requires t < |s.threads| && s.holder == t && Enabled(s, Act(t, pick)) && Holds(s.threads[t].phase)
    ensures var s' := ActStep(s, t, pick);
            && |s'.threads| == |s.threads|
            && (s'.holder == t || s'.holder == NOBODY)
            && var l, l' := s.threads[t], s'.threads[t];
            && (s'.holder == t ==>
                  l'.readSet == l.readSet && l'.view == l.view && PhaseMoves(l, l'.phase, pick))
  {
    hide Unchanged, PublishOne, Bumped;
  }

  lemma PhaseMovesDown(l: Local, l': Local, pick: Id)
    requires l'.readSet == l.readSet && l'.view == l.view && PhaseMoves(l, l'.phase, pick)
    ensures HolderWork(l') < HolderWork(l)
  {
    assert |l.readSet.Keys| == |l.readSet| && |l.view.writeSet.Keys| == |l.view.writeSet|;
  }

  ghost predicate OnlyBy(acts: seq<Action>, t: Thread) {
    forall a :: a in acts ==> a.Act? && a.t == t
  }

  lemma HolderMoves(s0: State, acts: seq<Action>, s: State, t: Thread) returns (pick: Id, s': State)
    requires Init(s0) && At(s0, acts, s) && s.holder == t && t < |s.threads|
    ensures At(s0, acts + [Act(t, pick)], s') && |s'.threads| == |s.threads|
    ensures s'.holder == t || s'.holder == NOBODY
    ensures HolderWork(s.threads[t]) > 0
    ensures s'.holder == t ==> HolderWork(s'.threads[t]) < HolderWork(s.threads[t])
  {
    InvAlongRun(s0, acts);
    assert LocalOk(s, t);
    pick := NextPick(s.threads[t].phase);
    ThreadCanMove(s, s0, t);
    HolderStep(s, t, pick);
    if ActStep(s, t, pick).holder == t { PhaseMovesDown(s.threads[t], ActStep(s, t, pick).threads[t], pick); }
    var acts';
    acts', s' := Take(s0, acts, s, t, pick);
  }

  lemma {:induction false} Release(s0: State, acts: seq<Action>, s: State, t: Thread) returns (more: seq<Action>, s': State)
    requires Init(s0) && At(s0, acts, s) && s.holder == t && t < |s.threads|
    ensures At(s0, acts + more, s') && s'.holder == NOBODY
    ensures OnlyBy(more, t) && |more| <= HolderWork(s.threads[t])
    decreases HolderWork(s.threads[t])
  {
    hide Init, At, HolderWork;
    var pick;
    pick, s' := HolderMoves(s0, acts, s, t);
    more := [Act(t, pick)];
    if s'.holder == t {
      var rest;
      rest, s' := Release(s0, acts + more, s', t);
      assert acts + more + rest == acts + (more + rest);
      more := more + rest;
    }
  }

  /** Whoever has the commit lock can free it without the help of any other thread, in no more
      steps than HolderWork counts. */
  lemma LockIsReleased(s0: State, acts: seq<Action>) returns (more: seq<Action>)
    requires Init(s0) && Legal(STM, s0, acts)
    ensures Legal(STM, s0, acts + more) && After(STM, s0, acts + more).holder == NOBODY
    ensures var s := After(STM, s0, acts);
            if s.holder == NOBODY then more == []
            else 0 <= s.holder < |s.threads| && OnlyBy(more, s.holder) && |more| <= HolderWork(s.threads[s.holder])
  {
    InvAlongRun(s0, acts);
    var s := After(STM, s0, acts);
    if s.holder == NOBODY {
      more := [];
      assert acts + [] == acts;
    } else {
      var s';
      more, s' := Release(s0, acts, s, s.holder);
    }
  }

  // --------------------------------------------------------- one thread by itself

  ghost predicate Validating(p: Phase) {
    p.Precheck? || p.Check? || p.Recheck?
  }

  ghost function WithTodo(p: Phase, todo: set<Id>): Phase
    requires Validating(p)
  {
    match p
    case Precheck(_) => Precheck(todo)
    case Check(_) => Check(todo)
    case _ => Recheck(todo)
  }

  /** With everything still current, a validation goes through. */
  lemma {:induction false} Validate(s0: State, acts: seq<Action>, s: State, t: Thread)
    returns (acts': seq<Action>, s': State)
    requires At(s0, acts, s) && t < |s.threads| == |s.foreign| && Validating(s.threads[t].phase)
    requires s.threads[t].phase.todo <= s.threads[t].readSet.Keys && Snapshot(s.threads[t].readSet, s.mem)
    ensures At(s0, acts', s')
    ensures var l := s.threads[t]; Moved(s, s', t, l.(phase := WithTodo(l.phase, {})))
    decreases s.threads[t].phase.todo
  {
    var l := s.threads[t];
    if l.phase.todo == {} {
      acts', s' := acts, s;
      assert s.threads[t := l] == s.threads;
    } else {
      var id := AnyOf(l.phase.todo);
      assert Unchanged(s.mem, l.readSet, id);
      acts', s' := Take(s0, acts, s, t, id);
      var l' := l.(phase := WithTodo(l.phase, l.phase.todo - {id}));
      assert Moved(s, s', t, l');
      var s1 := s';
      acts', s' := Validate(s0, acts', s1, t);
      assert s'.threads == s.threads[t := l.(phase := WithTodo(l.phase, {}))];
    }
  }

  /** Every TVar that was read and is still to be written is current, so all are written. */
  lemma {:induction false} PublishAll(s0: State, acts: seq<Action>, s: State, t: Thread)
    returns (acts': seq<Action>, s': State)
    requires At(s0, acts, s) && t < |s.threads| == |s.foreign| && s.threads[t].phase.Publish?
    requires var l := s.threads[t];
             && l.phase.todo <= l.view.writeSet.Keys && Snapshot(l.readSet, s.base)
             && s.mem == Published(s.base, l.view.writeSet, l.phase.todo)
    ensures At(s0, acts', s') && |s'.foreign| == |s.foreign|
    ensures var l := s.threads[t];
            Moved(s, s'.(mem := s.mem, foreign := s.foreign), t, l.(phase := Publish({})))
            && s'.mem == Published(s.base, l.view.writeSet, {})
    decreases s.threads[t].phase.todo
  {
    var l := s.threads[t];
    if l.phase.todo == {} {
      acts', s' := acts, s;
      assert s.threads[t := l] == s.threads;
    } else {
      var id := AnyOf(l.phase.todo);
      acts', s' := Take(s0, acts, s, t, id);
      var s1 := s';
      assert s1.mem == Published(s.base, l.view.writeSet, l.phase.todo - {id});
      assert Moved(s, s1.(mem := s.mem, foreign := s.foreign), t, l.(phase := Publish(l.phase.todo - {id})));
      acts', s' := PublishAll(s0, acts', s1, t);
      assert s'.threads == s.threads[t := l.(phase := Publish({}))];
    }
  }

  /** The attempt has returned and everything it has read is current. */
  ghost predicate ReadyToCommit(s: State, t: Thread) {
    && t < |s.threads| == |s.foreign| && s.holder == NOBODY
    && var l := s.threads[t];
    && l.phase == Running && l.done < |l.program| && Returned(l.program[l.done], l.view) && Snapshot(l.readSet, s.mem)
  }

  lemma Lock(s0: State, acts: seq<Action>, s: State, t: Thread) returns (acts': seq<Action>, s': State)
    requires At(s0, acts, s) && ReadyToCommit(s, t)
    ensures At(s0, acts', s') && s'.holder == t && s'.base == s.mem
    ensures var l := s.threads[t];
            Moved(s, s'.(holder := NOBODY, base := s.base), t, l.(phase := Check(l.readSet.Keys)))
  {
    acts', s' := Take(s0, acts, s, t, ANY);
    acts', s' := Validate(s0, acts', s', t);
    acts', s' := Take(s0, acts', s', t, ANY);
    acts', s' := Take(s0, acts', s', t, ANY);
  }

  lemma CheckTwice(s0: State, acts: seq<Action>, s: State, t: Thread) returns (acts': seq<Action>, s': State)
    requires At(s0, acts, s) && t < |s.threads| == |s.foreign| && Snapshot(s.threads[t].readSet, s.mem)
    requires s.threads[t].phase == Check(s.threads[t].readSet.Keys)
    ensures At(s0, acts', s')
    ensures var l := s.threads[t]; Moved(s, s', t, l.(phase := Publish(l.view.writeSet.Keys)))
  {
    acts', s' := Validate(s0, acts, s, t);
    acts', s' := Take(s0, acts', s', t, ANY);
    acts', s' := Validate(s0, acts', s', t);
    acts', s' := Take(s0, acts', s', t, ANY);
  }

  /** What thread `t` leaves behind when it commits `v` on `s`, the lock being free. */
  ghost predicate CommittedOn(s: State, s': State, t: Thread, v: View)
    requires t < |s.threads| && s.threads[t].done < |s.threads[t].program|
  {
    && |s'.threads| == |s.threads| && |s'.foreign| == |s.foreign| && s'.holder == NOBODY
    && s'.mem == Published(s.mem, v.writeSet, {})
    && var l, l' := s.threads[t], s'.threads[t];
    && s'.log == s.log + [Committed(t, l.program[l.done], v)]
    && l'.program == l.program && l'.done == l.done + 1 && l'.phase == Phase.Start
    && forall u :: 0 <= u < |s.threads| && u != t ==> s'.threads[u] == s.threads[u]
  }

  lemma Commit(s0: State, acts: seq<Action>, s: State, t: Thread) returns (acts': seq<Action>, s': State)
    requires At(s0, acts, s) && ReadyToCommit(s, t)
    ensures At(s0, acts', s') && CommittedOn(s, s', t, s.threads[t].view)
  {
    acts', s' := Lock(s0, acts, s, t);
    acts', s' := CheckTwice(s0, acts', s', t);
    assert s'.mem == Published(s'.base, s'.threads[t].view.writeSet, s'.threads[t].view.writeSet.Keys);
    acts', s' := PublishAll(s0, acts', s', t);
    acts', s' := Take(s0, acts', s', t, ANY);
    acts', s' := Take(s0, acts', s', t, ANY);
  }

  /** Run alone on `m`, the first `n` operations of `body` read no unregistered TVar. */
  ghost predicate ReadsRegistered(body: Body, m: Values, n: nat) {
    forall k :: 0 <= k < n && ReadsTVar(body, Alone(body, m, k)) ==> body(Alone(body, m, k).seen).id in m
  }

  lemma {:induction false} RunAlone(s0: State, acts: seq<Action>, s: State, t: Thread, body: Body, n: nat)
    returns (acts': seq<Action>, s': State)
    requires At(s0, acts, s) && t < |s.threads| == |s.foreign|
    requires var l := s.threads[t];
             l.phase == Running && l.done < |l.program| && l.program[l.done] == body && l.view == BLANK && l.readSet == map[]
    requires ReadsRegistered(body, ValuesOf(s.mem), n)
    ensures At(s0, acts', s') && t < |s'.threads| && Snapshot(s'.threads[t].readSet, s.mem)
    ensures Moved(s, s', t, s.threads[t].(view := Alone(body, ValuesOf(s.mem), n), readSet := s'.threads[t].readSet))
  {
    if n == 0 {
      acts', s' := acts, s;
      assert s.threads[t := s.threads[t]] == s.threads;
    } else {
      var s1;
      acts', s1 := RunAlone(s0, acts, s, t, body, n - 1);
      var op := body(s1.threads[t].view.seen);
      if op.Return? || op.RaiseRetry? {
        s' := s1;
      } else {
        acts', s' := Take(s0, acts', s1, t, ANY);
        assert s'.threads == s.threads[t := s'.threads[t]];
      }
    }
  }

  /** From any moment at which the commit lock is free, a thread that is about to start a body
      which returns when it is run alone on the memory can commit it, and with just that view,
      while the others stand still. */
  lemma CommitsAlone(s0: State, acts: seq<Action>, s: State, t: Thread, n: nat) returns (acts': seq<Action>, s': State)
    requires At(s0, acts, s) && t < |s.threads| == |s.foreign| && s.holder == NOBODY
    requires s.threads[t].phase.Start? && s.threads[t].done < |s.threads[t].program|
    requires var body := s.threads[t].program[s.threads[t].done];
             ReadsRegistered(body, ValuesOf(s.mem), n) && Returned(body, Alone(body, ValuesOf(s.mem), n))
    ensures var body := s.threads[t].program[s.threads[t].done];
            At(s0, acts', s') && CommittedOn(s, s', t, Alone(body, ValuesOf(s.mem), n))
  {
    var body := s.threads[t].program[s.threads[t].done];
    acts', s' := Take(s0, acts, s, t, ANY);
    acts', s' := RunAlone(s0, acts', s', t, body, n);
    acts', s' := Commit(s0, acts', s', t);
  }

  // --------------------------------------------------------- the first validation

  /** The TVars of an attempt that its first validate() has found unchanged, by its phase. */
  ghost function Validated(l: Local): set<Id> {
    match l.phase
    case Precheck(todo) => l.readSet.Keys - todo
    case Start => {}
    case Running => {}
    case _ => l.readSet.Keys
  }

  /** Step `k` of the run is the check of `id` in the first validate() of thread `t`, and finds
      the TVar at the version of `cell`, which was read from it. */
  ghost predicate FirstCheck(s0: State, acts: seq<Action>, t: Thread, id: Id, cell: Cell, k: nat) {
    k < |acts| && acts[k] == Act(t, id) &&
    var s := After(STM, s0, acts[..k]);
    && t < |s.threads| && s.threads[t].phase.Precheck? && id in s.threads[t].phase.todo
    && id in s.threads[t].readSet && s.threads[t].readSet[id] == cell
    && id in s.mem && s.mem[id].version == cell.version
  }

  lemma FirstCheckLater(s0: State, acts: seq<Action>, t: Thread, id: Id, cell: Cell, k: nat)
    requires acts != [] && FirstCheck(s0, acts[..|acts| - 1], t, id, cell, k)
    ensures FirstCheck(s0, acts, t, id, cell, k)
  {
    assert acts[..|acts| - 1][..k] == acts[..k];
  }

  /** A TVar that a step adds to the validated ones was found unchanged by this step. */
  lemma ValidatedStep(s: State, t: Thread, pick: Id, id: Id)
    requires t < |s.threads| && Enabled(s, Act(t, pick)) && LocalOk(s, t)
    requires id in Validated(ActStep(s, t, pick).threads[t])
    ensures var l, l' := s.threads[t], ActStep(s, t, pick).threads[t];
            && id in l.readSet && l'.readSet == l.readSet
            && (id in Validated(l) || (pick == id && l.phase.Precheck? && id in l.phase.todo && Unchanged(s.mem, l.readSet, id)))
  {
    hide ViewOk, ReadsOk, StaleExplained, CommittedBy, Bumped, PublishOne;
  }

  /** Nobody asks for the commit lock, let alone commits, in vain: each TVar that the attempt has
      read had passed the first validate() before. */
  lemma {:induction false} LockTakersHaveValidated(s0: State, acts: seq<Action>, t: Thread, id: Id) returns (k: nat)
    requires Init(s0) && Legal(STM, s0, acts) && t < |s0.threads|
    requires t < |After(STM, s0, acts).threads| && id in Validated(After(STM, s0, acts).threads[t])
    ensures id in After(STM, s0, acts).threads[t].readSet
    ensures FirstCheck(s0, acts, t, id, After(STM, s0, acts).threads[t].readSet[id], k)
    decreases |acts|
  {
    if acts == [] {
      assert false;
    } else {
      var n := |acts| - 1;
      LastStep(STM, s0, acts);
      InvAlongRun(s0, acts[..n]);
      var s, s' := After(STM, s0, acts[..n]), After(STM, s0, acts);
      assert LocalOk(s, t);
      if acts[n].Act? && acts[n].t == t {
        ValidatedStep(s, t, acts[n].pick, id);
      } else {
        OthersStay(s, s0, acts[n], t);
      }
      hide LocalOk, Inv, Step, Enabled, Validated;
      if id in Validated(s.threads[t]) {
        k := LockTakersHaveValidated(s0, acts[..n], t, id);
        FirstCheckLater(s0, acts, t, id, s'.threads[t].readSet[id], k);
      } else {
        k := n;
      }
    }
  }

  lemma OthersStay(s: State, s0: State, a: Action, t: Thread)
    requires Inv(s, s0) && Enabled(s, a) && t < |s.threads| && (a.Act? ==> a.t != t)
    ensures t < |Step(s, a).threads| && Step(s, a).threads[t] == s.threads[t]
  {
    if a.Act? {
      assert LocalOk(s, a.t);
      ActFootprint(s, a.t, a.pick);
    }
  }
}
