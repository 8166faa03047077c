/** cpp/shared_memory_lock/producer_consumer.cpp: producers and consumers around one mutex
  and one condition variable, whose notify_all() comes after the mutex is released.

  Any number of producers and consumers, any items, any capacity.  The mutex is explicit;
  a waiter can also be woken for no reason, as the C++ standard allows. */
module CppMonitor {
  import opened Logs
  import opened Runs

  datatype Pc =
    | Outside    // about to lock the mutex (for the first time, or after a wake-up)
    | InMutex    // holds it, about to test the predicate of cv.wait
    | Cleared    // holds it, the predicate was true
    | Waiting    // in the wait set of cv
    | Notifying  // has unlocked, not yet called notify_all
    | Ended

  datatype Thread =
    | Producer(items: seq<int>, next: nat, pc: Pc)
    | Consumer(pc: Pc)

  /** main(): joins the producers, sets `done` under the mutex, notifies, joins the consumers. */
  datatype MainPc = Joining | Locking | Setting | MainNotifying | JoiningConsumers | Returned

  /** `pushed` and `popped` are the history of the queue, with the thread that did it. */
  datatype State = State(cap: nat, buffer: seq<int>, done: bool, mutex: int, threads: seq<Thread>, main: MainPc,
                         pushed: seq<(nat, int)>, popped: seq<(nat, int)>)

  const FREE := -1
  const MAIN := -2

  datatype Action =
    | Act(t: nat)
    | MainAct
    | SpuriousWake(t: nat)

  predicate MayProceed(s: State, t: nat)
    requires t < |s.threads|
  {
    if s.threads[t].Producer? then |s.buffer| < s.cap else s.buffer != [] || s.done
  }

  predicate ProducersEnded(s: State) {
    forall t :: 0 <= t < |s.threads| && s.threads[t].Producer? ==> s.threads[t].pc == Ended
  }

  predicate ConsumersEnded(s: State) {
    forall t :: 0 <= t < |s.threads| && s.threads[t].Consumer? ==> s.threads[t].pc == Ended
  }

  predicate Enabled(s: State, a: Action) {
    match a
    case Act(t) =>
      t < |s.threads| &&
      (match s.threads[t].pc
       case Outside => s.mutex == FREE
       case Waiting => false
       case Ended => false
       case Cleared => s.threads[t].Producer? ==> s.threads[t].next < |s.threads[t].items|
       case _ => true)
    case MainAct =>
      (match s.main
       case Joining => ProducersEnded(s)
       case Locking => s.mutex == FREE
       case JoiningConsumers => ConsumersEnded(s)
       case Returned => false
       case _ => true)
    case SpuriousWake(t) => t < |s.threads| && s.threads[t].pc == Waiting
  }

  function Woken(th: Thread): Thread {
    if th.pc == Waiting then th.(pc := Outside) else th
  }

  /** cv.notify_all() */
  function WakeAll(threads: seq<Thread>): seq<Thread> {
    seq(|threads|, i requires 0 <= i < |threads| => Woken(threads[i]))
  }

  function Goto(s: State, t: nat, pc: Pc): State
    requires t < |s.threads|
  {
    s.(threads := s.threads[t := s.threads[t].(pc := pc)])
  }

  function ActStep(s: State, t: nat): State
    requires Enabled(s, Act(t))
  {
    var th := s.threads[t];
    match th.pc
    case Outside => Goto(s, t, InMutex).(mutex := t)
    case InMutex =>
      if MayProceed(s, t) then Goto(s, t, Cleared) else Goto(s, t, Waiting).(mutex := FREE)
    case Cleared =>
      if th.Producer? then
        var item := th.items[th.next];
        s.(threads := s.threads[t := Producer(th.items, th.next + 1, Notifying)], mutex := FREE,
           buffer := s.buffer + [item], pushed := s.pushed + [(t, item)])
      else if s.buffer == [] then
        Goto(s, t, Ended).(mutex := FREE)
      else
        Goto(s, t, Notifying).(mutex := FREE, buffer := s.buffer[1..], popped := s.popped + [(t, s.buffer[0])])
    case Notifying =>
      var s' := s.(threads := WakeAll(s.threads));
      Goto(s', t, if th.Producer? && th.next == |th.items| then Ended else Outside)
    case _ => s
  }

  function MainStep(s: State): State {
    match s.main
    case Joining => s.(main := Locking)
    case Locking => s.(main := Setting, mutex := MAIN)
    case Setting => s.(main := MainNotifying, done := true, mutex := FREE)
    case MainNotifying => s.(main := JoiningConsumers, threads := WakeAll(s.threads))
    case JoiningConsumers => s.(main := Returned)
    case Returned => s
  }

  function Step(s: State, a: Action): State {
    if !Enabled(s, a) then s
    else match a
      case Act(t) => ActStep(s, t)
      case MainAct => MainStep(s)
      case SpuriousWake(t) => Goto(s, t, Outside)
  }

  const MONITOR := System(Enabled, Step)

  predicate Init(s: State) {
    && s.buffer == [] && !s.done && s.mutex == FREE && s.main == Joining && s.pushed == [] && s.popped == []
    && forall t :: 0 <= t < |s.threads| ==>
         && (s.threads[t].Consumer? ==> s.threads[t].pc == Outside)
         && (s.threads[t].Producer? ==>
               s.threads[t].next == 0 && s.threads[t].pc == if s.threads[t].items == [] then Ended else Outside)
  }

  // ------------------------------------------------------------------ invariant

  predicate ThreadOk(s: State, t: nat)
    requires t < |s.threads|
  {
    var th := s.threads[t];
    && (th.pc == InMutex || th.pc == Cleared <==> s.mutex == t)
    && (th.pc == Cleared ==> MayProceed(s, t))
    && (th.Producer? ==>
          && th.next <= |th.items| && By(s.pushed, t) == th.items[..th.next]
          && (th.next == |th.items| ==> th.pc == Ended || th.pc == Notifying)
          && (th.pc == Ended ==> th.next == |th.items|)
          && (s.main != Joining ==> th.pc == Ended))
    && (th.Consumer? ==> By(s.pushed, t) == [])
    && (th.Consumer? && th.pc == Ended ==> s.done && s.buffer == [])
  }

  predicate SomeoneNotifies(s: State) {
    s.main == MainNotifying || exists t :: 0 <= t < |s.threads| && s.threads[t].pc == Notifying
  }

  /** No lost wake-up: while no notification is outstanding, every waiter has reason to wait. */
  predicate NoLostWakeup(s: State) {
    !SomeoneNotifies(s) ==>
      forall t :: 0 <= t < |s.threads| && s.threads[t].pc == Waiting ==> !MayProceed(s, t)
  }

  predicate Inv(s: State) {
    && s.cap >= 1 && |s.buffer| <= s.cap
    && (s.mutex == FREE || (s.mutex == MAIN && s.main == Setting) || 0 <= s.mutex < |s.threads|)
    && (s.main == Setting ==> s.mutex == MAIN)
    && (s.done <==> s.main == MainNotifying || s.main == JoiningConsumers || s.main == Returned)
    && (s.main == Returned ==> ConsumersEnded(s))
    && (forall t :: 0 <= t < |s.threads| ==> ThreadOk(s, t))
    && (forall e :: e in s.pushed ==> e.0 < |s.threads|)
    && Items(s.pushed) == Items(s.popped) + s.buffer
    && NoLostWakeup(s)
  }

  lemma ActorOk(s: State, t: nat)
    requires Enabled(s, Act(t)) && ThreadOk(s, t) && |s.buffer| <= s.cap
    ensures |ActStep(s, t).threads| == |s.threads| && ThreadOk(ActStep(s, t), t)
  {
    hide By;
    var th := s.threads[t];
    if th.pc == Cleared && th.Producer? {
      BySnoc(s.pushed, (t, th.items[th.next]), t);
    }
  }

  /** What thread `u` relies on when another thread moves. */
  lemma BystanderOk(s: State, s': State, t: nat, u: nat)
    requires t < |s.threads| == |s'.threads| && u < |s.threads| && u != t && ThreadOk(s, u)
    requires s'.threads[u] == s.threads[u] || s'.threads[u] == Woken(s.threads[u])
    requires s'.cap == s.cap && s'.done == s.done && s'.main == s.main
    requires s'.mutex == s.mutex || (s.mutex != u && s'.mutex != u)
    requires s'.buffer == s.buffer || (s.mutex == t && !s.done) || (s.mutex == t && |s'.buffer| <= |s.buffer|)
    requires s'.pushed == s.pushed || exists item :: s'.pushed == s.pushed + [(t, item)]
    ensures ThreadOk(s', u)
  {
    hide By;
    if s'.pushed != s.pushed {
      BySnoc(s.pushed, s'.pushed[|s.pushed|], u);
    }
  }

  lemma ActKeepsThreads(s: State, t: nat)
    requires Inv(s) && Enabled(s, Act(t))
    ensures var s' := ActStep(s, t); |s'.threads| == |s.threads| && forall u :: 0 <= u < |s.threads| ==> ThreadOk(s', u)
  {
    var s' := ActStep(s, t);
    ActorOk(s, t);
    assert ThreadOk(s, t);
    forall u | 0 <= u < |s.threads|
      ensures ThreadOk(s', u)
    {
      assert ThreadOk(s, u);
      if u != t { BystanderOk(s, s', t, u); }
    }
  }

  lemma ActKeepsQueue(s: State, t: nat)
    requires Inv(s) && Enabled(s, Act(t))
    ensures var s' := ActStep(s, t);
            && |s'.buffer| <= s'.cap
            && (forall e :: e in s'.pushed ==> e.0 < |s'.threads|)
            && Items(s'.pushed) == Items(s'.popped) + s'.buffer
  {
    hide By, NoLostWakeup, ConsumersEnded;
    var s' := ActStep(s, t);
    assert ThreadOk(s, t);
    if s'.pushed != s.pushed {
      assert Items(s'.pushed) == Items(s.pushed) + [s'.pushed[|s.pushed|].1];
    } else if s'.popped != s.popped {
      assert Items(s'.popped) == Items(s.popped) + [s.buffer[0]];
    }
  }

  lemma ActKeepsWakeups(s: State, t: nat)
    requires Inv(s) && Enabled(s, Act(t))
    ensures NoLostWakeup(ActStep(s, t))
  {
    var s' := ActStep(s, t);
    assert ThreadOk(s, t);
    if s.threads[t].pc != Notifying {
      if u :| 0 <= u < |s.threads| && s.threads[u].pc == Notifying {
        assert s'.threads[u].pc == Notifying;
      }
      if s'.threads[t].pc == Notifying { assert SomeoneNotifies(s'); }
    }
  }

  lemma MainKeepsInv(s: State)
    requires Inv(s) && Enabled(s, MainAct)
    ensures Inv(MainStep(s))
  {
    forall u | 0 <= u < |s.threads|
      ensures ThreadOk(MainStep(s), u)
    {
      assert ThreadOk(s, u);
    }
  }

  lemma SpuriousWakeKeepsInv(s: State, t: nat)
    requires Inv(s) && Enabled(s, SpuriousWake(t))
    ensures Inv(Goto(s, t, Outside))
  {
    var s' := Goto(s, t, Outside);
    forall u | 0 <= u < |s.threads|
      ensures ThreadOk(s', u)
    {
      assert ThreadOk(s, u);
    }
    if u :| 0 <= u < |s.threads| && s.threads[u].pc == Notifying {
      assert s'.threads[u].pc == Notifying;
    }
  }

  lemma ActKeepsInv(s: State, t: nat)
    requires Inv(s) && Enabled(s, Act(t))
    ensures Inv(ActStep(s, t))
  {
    assert ThreadOk(s, t);
    ActKeepsThreads(s, t);
    ActKeepsQueue(s, t);
    ActKeepsWakeups(s, t);
  }

  lemma StepKeepsInv(s: State, a: Action)
    requires Inv(s) && Enabled(s, a)
    ensures Inv(Step(s, a))
  {
    match a
    case Act(t) => ActKeepsInv(s, t);
    case MainAct => MainKeepsInv(s);
    case SpuriousWake(t) => SpuriousWakeKeepsInv(s, t);
  }

  lemma InvAlongRun(s0: State, acts: seq<Action>)
    requires Init(s0) && s0.cap >= 1 && Legal(MONITOR, s0, acts)
    ensures Inv(After(MONITOR, s0, acts))
  {
    forall s, a | Inv(s) && MONITOR.enabled(s, a)
      ensures Inv(MONITOR.step(s, a))
    {
      StepKeepsInv(s, a);
    }
    InvariantAlongRun(MONITOR, Inv, s0, acts);
  }

  // ------------------------------------------------------------------- theorems

  /** In every reachable state: a waiter whose predicate is true has a notification
      coming, from a thread that has unlocked and not yet notified. */
  lemma NoWakeupIsLost(s0: State, acts: seq<Action>, t: nat)
    requires Init(s0) && s0.cap >= 1 && Legal(MONITOR, s0, acts)
    requires var s := After(MONITOR, s0, acts); t < |s.threads| && s.threads[t].pc == Waiting && MayProceed(s, t)
    ensures SomeoneNotifies(After(MONITOR, s0, acts))
  {
    InvAlongRun(s0, acts);
  }

  /** What a waiter waits for.  When no notification is outstanding, a producer only waits before
      a queue that holds all that it can, and a consumer before an empty one that can still be
      filled. */
  lemma SleepersHaveReason(s0: State, acts: seq<Action>, t: nat)
    requires Init(s0) && s0.cap >= 1 && Legal(MONITOR, s0, acts)
    requires var s := After(MONITOR, s0, acts);
             && s.main != MainNotifying && (forall u :: 0 <= u < |s.threads| ==> s.threads[u].pc != Notifying)
             && t < |s.threads| && s.threads[t].pc == Waiting
    ensures var s := After(MONITOR, s0, acts);
            if s.threads[t].Producer? then |s.buffer| == s.cap else s.buffer == [] && !s.done
    ensures After(MONITOR, s0, acts).cap == s0.cap
  {
    InvAlongRun(s0, acts);
    CapStays(s0, acts);
  }

  lemma CapStays(s0: State, acts: seq<Action>)
    requires Legal(MONITOR, s0, acts)
    ensures After(MONITOR, s0, acts).cap == s0.cap
  {
    InvariantAlongRun(MONITOR, (s: State) => s.cap == s0.cap, s0, acts);
  }

  /** Nobody can move without a spurious wake-up. */
  predicate Blocked(s: State) {
    !Enabled(s, MainAct) && forall t :: 0 <= t < |s.threads| ==> !Enabled(s, Act(t))
  }

  lemma BlockedThread(s: State, t: nat)
    requires Inv(s) && Blocked(s) && t < |s.threads|
    ensures s.threads[t].pc == Ended || (s.threads[t].pc == Waiting && !MayProceed(s, t))
    ensures s.mutex == FREE
  {
    if 0 <= s.mutex < |s.threads| { assert ThreadOk(s, s.mutex); }
    assert 0 <= s.mutex < |s.threads| ==> Enabled(s, Act(s.mutex));
    assert forall u :: 0 <= u < |s.threads| && s.threads[u].pc == Notifying ==> Enabled(s, Act(u));
    assert ThreadOk(s, t) && !Enabled(s, Act(t));
  }

  /** With at least one consumer, only the end of the program blocks it. */
  lemma BlockedOnlyAtTheEnd(s: State)
    requires Inv(s) && Blocked(s)
    requires exists c :: 0 <= c < |s.threads| && s.threads[c].Consumer?
    ensures s.main == Returned && s.done && s.buffer == [] && ProducersEnded(s) && ConsumersEnded(s)
  {
    var c :| 0 <= c < |s.threads| && s.threads[c].Consumer?;
    forall t | 0 <= t < |s.threads|
      ensures s.threads[t].pc == Ended || (s.threads[t].pc == Waiting && !MayProceed(s, t))
      ensures ThreadOk(s, t) && s.mutex == FREE
    {
      BlockedThread(s, t);
    }
    // a waiting producer faces a full buffer, so the consumer can neither wait nor have ended
    assert ProducersEnded(s);
    assert ConsumersEnded(s);
  }

  // -------------------------------------------------------------- termination

  /** A notification can put every thread back to work, so it outweighs them all. */
  function NotifyWeight(n: nat): nat { 3 * n + 4 }

  /** What thread `th` can still do by itself, in a system of `n` threads. */
  function Weight(th: Thread, n: nat): nat {
    (match th.pc
     case Outside => 3
     case InMutex => 2
     case Cleared => 1
     case Notifying => NotifyWeight(n)
     case _ => 0)
    + if th.Producer? && th.next <= |th.items| then 2 * (|th.items| - th.next) * (NotifyWeight(n) + 1) else 0
  }

  function TotalWeight(threads: seq<Thread>, n: nat): nat {
    if threads == [] then 0 else Weight(threads[0], n) + TotalWeight(threads[1..], n)
  }

  function MainWeight(main: MainPc, n: nat): nat {
    match main
    case Joining => NotifyWeight(n) + 4
    case Locking => NotifyWeight(n) + 3
    case Setting => NotifyWeight(n) + 2
    case MainNotifying => NotifyWeight(n) + 1
    case JoiningConsumers => 1
    case Returned => 0
  }

  /** Each item still to be pushed weighs twice a push, each item in the buffer once. */
  function Measure(s: State): nat {
    var n := |s.threads|;
    TotalWeight(s.threads, n) + |s.buffer| * (NotifyWeight(n) + 1) + MainWeight(s.main, n)
  }

  lemma {:induction false} TotalWeightUpdate(threads: seq<Thread>, t: nat, th: Thread, n: nat)
    requires t < |threads|
    ensures TotalWeight(threads[t := th], n) == TotalWeight(threads, n) - Weight(threads[t], n) + Weight(th, n)
  {
    if t == 0 {
      assert threads[0 := th][1..] == threads[1..];
    } else {
      TotalWeightUpdate(threads[1..], t - 1, th, n);
      assert threads[t := th][1..] == threads[1..][t - 1 := th];
    }
  }

  lemma {:induction false} TotalWeightWoken(threads: seq<Thread>, n: nat)
    ensures TotalWeight(WakeAll(threads), n) <= TotalWeight(threads, n) + 3 * |threads|
  {
    if threads != [] {
      TotalWeightWoken(threads[1..], n);
      assert WakeAll(threads)[1..] == WakeAll(threads[1..]);
    }
  }

  lemma PopsWeigh(b: nat, w: nat)
    requires b > 0
    ensures (b - 1) * w == b * w - w
  {
  }

  lemma PushesWeigh(k: int, w: nat)
    ensures 2 * (k - 1) * w == 2 * k * w - 2 * w
  {
  }

  lemma NotifyDecreases(s: State, t: nat)
    requires Enabled(s, Act(t)) && s.threads[t].pc == Notifying
    ensures Measure(ActStep(s, t)) < Measure(s)
  {
    TotalWeightWoken(s.threads, |s.threads|);
    TotalWeightUpdate(WakeAll(s.threads), t, ActStep(s, t).threads[t], |s.threads|);
  }

  lemma QueueStepDecreases(s: State, t: nat)
    requires Enabled(s, Act(t)) && s.threads[t].pc == Cleared
    ensures Measure(ActStep(s, t)) < Measure(s)
  {
    var n := |s.threads|;
    var th, s' := s.threads[t], ActStep(s, t);
    TotalWeightUpdate(s.threads, t, s'.threads[t], n);
    if th.Producer? {
      PushesWeigh(|th.items| - th.next, NotifyWeight(n) + 1);
      PopsWeigh(|s'.buffer|, NotifyWeight(n) + 1);
    } else if s.buffer != [] {
      PopsWeigh(|s.buffer|, NotifyWeight(n) + 1);
    }
  }

  lemma ActDecreases(s: State, t: nat)
    requires Enabled(s, Act(t))
    ensures Measure(ActStep(s, t)) < Measure(s)
  {
    if s.threads[t].pc == Notifying {
      NotifyDecreases(s, t);
    } else if s.threads[t].pc == Cleared {
      QueueStepDecreases(s, t);
    } else {
      TotalWeightUpdate(s.threads, t, ActStep(s, t).threads[t], |s.threads|);
    }
  }

  lemma StepMeasure(s: State, a: Action)
    requires Enabled(s, a)
    ensures !a.SpuriousWake? ==> Measure(Step(s, a)) < Measure(s)
    ensures a.SpuriousWake? ==> Measure(Step(s, a)) <= Measure(s) + 3
  {
    match a
    case Act(t) => ActDecreases(s, t);
    case MainAct => TotalWeightWoken(s.threads, |s.threads|);
    case SpuriousWake(t) => TotalWeightUpdate(s.threads, t, Step(s, a).threads[t], |s.threads|);
  }

  function SpuriousWakes(acts: seq<Action>): nat {
    if acts == [] then 0 else (if acts[0].SpuriousWake? then 1 else 0) + SpuriousWakes(acts[1..])
  }

  lemma {:induction false} LengthBound(s: State, acts: seq<Action>)
    requires Legal(MONITOR, s, acts)
    ensures |acts| + Measure(After(MONITOR, s, acts)) <= Measure(s) + 4 * SpuriousWakes(acts)
    decreases |acts|
  {
    if acts != [] {
      StepMeasure(s, acts[0]);
      LengthBound(Step(s, acts[0]), acts[1..]);
    }
  }

  /** No run is infinite unless it is woken spuriously for ever: n steps need
      n - Measure(s0) wake-ups in four. */
  lemma RunsTerminate(s0: State, acts: seq<Action>)
    requires Legal(MONITOR, s0, acts)
    ensures |acts| <= Measure(s0) + 4 * SpuriousWakes(acts)
  {
    LengthBound(s0, acts);
  }

  // ------------------------------------------------------------- conservation

  /** All that the producers were asked to produce. */
  function Wanted(threads: seq<Thread>): multiset<int> {
    if threads == [] then multiset{}
    else Wanted(threads[..|threads| - 1]) +
         (if threads[|threads| - 1].Producer? then multiset(threads[|threads| - 1].items) else multiset{})
  }

  lemma {:induction false} WantedIsContributed(threads: seq<Thread>, log: seq<(nat, int)>)
    requires forall t :: 0 <= t < |threads| ==>
      By(log, t) == if threads[t].Producer? then threads[t].items else []
    ensures Wanted(threads) == Contributions(log, |threads|)
  {
    if threads != [] {
      WantedIsContributed(threads[..|threads| - 1], log);
    }
  }

  lemma InvAtTheEnd(s: State)
    requires Inv(s) && ProducersEnded(s) && s.buffer == []
    ensures Items(s.popped) == Items(s.pushed)
    ensures multiset(Items(s.popped)) == Wanted(s.threads)
    ensures forall t :: 0 <= t < |s.threads| && s.threads[t].Producer? ==> By(s.pushed, t) == s.threads[t].items
  {
    forall t | 0 <= t < |s.threads|
      ensures By(s.pushed, t) == if s.threads[t].Producer? then s.threads[t].items else []
    {
      assert ThreadOk(s, t);
    }
    LogIsContributions(s.pushed, |s.threads|);
    WantedIsContributed(s.threads, s.pushed);
    assert Items(s.popped) + [] == Items(s.popped);
  }

  /** A run that can go no further without a spurious wake-up is a finished program:
      every thread has ended, the queue is empty, the items came out in the order they
      went in, each producer's items in its own order, and exactly the items that the
      producers were given. */
  lemma FinishedRun(s0: State, acts: seq<Action>)
    requires Init(s0) && s0.cap >= 1 && Legal(MONITOR, s0, acts) && Blocked(After(MONITOR, s0, acts))
    requires exists c :: 0 <= c < |s0.threads| && s0.threads[c].Consumer?
    ensures var s := After(MONITOR, s0, acts);
            && s.main == Returned && ProducersEnded(s) && ConsumersEnded(s) && s.buffer == []
            && Items(s.popped) == Items(s.pushed)
            && multiset(Items(s.popped)) == Wanted(s0.threads)
            && |s.threads| == |s0.threads|
            && forall t :: 0 <= t < |s.threads| && s0.threads[t].Producer? ==> By(s.pushed, t) == s0.threads[t].items
  {
    InvAlongRun(s0, acts);
    RolesStay(s0, acts);
    var s := After(MONITOR, s0, acts);
    var c :| 0 <= c < |s0.threads| && s0.threads[c].Consumer?;
    assert s.threads[c].Consumer?;
    BlockedOnlyAtTheEnd(s);
    InvAtTheEnd(s);
    SameRolesSameWanted(s0.threads, s.threads);
  }

  predicate SameRoles(a: seq<Thread>, b: seq<Thread>) {
    && |a| == |b|
    && forall t :: 0 <= t < |a| ==>
         a[t].Producer? == b[t].Producer? && (a[t].Producer? ==> a[t].items == b[t].items)
  }

  lemma {:induction false} SameRolesSameWanted(a: seq<Thread>, b: seq<Thread>)
    requires SameRoles(a, b)
    ensures Wanted(a) == Wanted(b)
  {
    if a != [] { SameRolesSameWanted(a[..|a| - 1], b[..|b| - 1]); }
  }

  lemma RolesStay(s0: State, acts: seq<Action>)
    requires Legal(MONITOR, s0, acts)
    ensures SameRoles(After(MONITOR, s0, acts).threads, s0.threads)
  {
    forall s: State, a | SameRoles(s.threads, s0.threads) && MONITOR.enabled(s, a)
      ensures SameRoles(MONITOR.step(s, a).threads, s0.threads)
    {
      StepKeepsRoles(s, a);
    }
    InvariantAlongRun(MONITOR, (s: State) => SameRoles(s.threads, s0.threads), s0, acts);
  }

  lemma StepKeepsRoles(s: State, a: Action)
    ensures SameRoles(Step(s, a).threads, s.threads)
  {
    hide MayProceed, ProducersEnded, ConsumersEnded;
  }

  // -------------------------------------------------------- the program's state

  /** The globals of the program and the control points of its threads, updated in
      place.  Each method is the code of one thread between two scheduling points. */
  class Program {
    const cap: nat
    var buffer: seq<int>
    var done: bool
    var mutex: int
    var threads: seq<Thread>
    var main: MainPc
    ghost var pushed: seq<(nat, int)>
    ghost var popped: seq<(nat, int)>

    ghost function View(): State
      reads this
    {
      State(cap, buffer, done, mutex, threads, main, pushed, popped)
    }

    constructor (cap: nat, threads: seq<Thread>)
      requires forall t :: 0 <= t < |threads| ==>
        && (threads[t].Consumer? ==> threads[t].pc == Outside)
        && (threads[t].Producer? ==>
              threads[t].next == 0 && threads[t].pc == if threads[t].items == [] then Ended else Outside)
      ensures this.cap == cap && this.threads == threads && Init(View())
    {
      this.cap, this.threads := cap, threads;
      buffer, done, mutex, main := [], false, FREE, Joining;
      pushed, popped := [], [];
    }

    method NotifyAll()
      modifies this`threads
      ensures threads == WakeAll(old(threads))
    {
      var i := 0;
      while i < |threads|
        invariant i <= |threads| == |old(threads)|
        invariant forall j :: 0 <= j < |threads| ==>
          threads[j] == if j < i then Woken(old(threads)[j]) else old(threads)[j]
      {
        if threads[i].pc == Waiting {
          threads := threads[i := threads[i].(pc := Outside)];
        }
        i := i + 1;
      }
    }

    /** `unique_lock lock(mtx)` */
    method Lock(t: nat)
      requires Enabled(View(), Act(t)) && threads[t].pc == Outside
      modifies this
      ensures View() == Step(old(View()), Act(t))
    {
      mutex := t;
      threads := threads[t := threads[t].(pc := InMutex)];
    }

    /** One evaluation of the predicate inside cv.wait. */
    method Test(t: nat)
      requires Enabled(View(), Act(t)) && threads[t].pc == InMutex
      modifies this
      ensures View() == Step(old(View()), Act(t))
    {
      var mayProceed := if threads[t].Producer? then |buffer| < cap else buffer != [] || done;
      if mayProceed {
        threads := threads[t := threads[t].(pc := Cleared)];
      } else {
        mutex := FREE;
        threads := threads[t := threads[t].(pc := Waiting)];
      }
    }

    /** The producer's critical section: push and unlock. */
    method Produce(t: nat)
      requires Enabled(View(), Act(t)) && threads[t].pc == Cleared && threads[t].Producer?
      modifies this
      ensures View() == Step(old(View()), Act(t))
    {
      var item := threads[t].items[threads[t].next];
      buffer := buffer + [item];
      pushed := pushed + [(t, item)];
      mutex := FREE;
      threads := threads[t := Producer(threads[t].items, threads[t].next + 1, Notifying)];
    }

    /** The consumer's critical section: leave the loop, or pop and unlock. */
    method Consume(t: nat)
      requires Enabled(View(), Act(t)) && threads[t].pc == Cleared && threads[t].Consumer?
      requires MayProceed(View(), t)
      modifies this
      ensures View() == Step(old(View()), Act(t))
    {
      mutex := FREE;
      if buffer == [] && done {
        threads := threads[t := Consumer(Ended)];
        return;
      }
      var item := buffer[0];
      buffer := buffer[1..];
      popped := popped + [(t, item)];
      threads := threads[t := Consumer(Notifying)];
    }

    /** cv.notify_all(), and back to the head of the loop. */
    method Notify(t: nat)
      requires Enabled(View(), Act(t)) && threads[t].pc == Notifying
      modifies this
      ensures View() == Step(old(View()), Act(t))
    {
      var last := threads[t].Producer? && threads[t].next == |threads[t].items|;
      NotifyAll();
      threads := threads[t := threads[t].(pc := if last then Ended else Outside)];
    }

    /** The next statement of main(). */
    method MainTurn()
      requires Enabled(View(), MainAct)
      modifies this
      ensures View() == Step(old(View()), MainAct)
    {
      match main {
        case Joining => main := Locking;
        case Locking => main, mutex := Setting, MAIN;
        case Setting => main, mutex, done := MainNotifying, FREE, true;
        case MainNotifying => main := JoiningConsumers; NotifyAll();
        case JoiningConsumers => main := Returned;
      }
    }

    /** The scheduler may choose `a` now. */
    predicate Ready(a: Action): (r: bool)
      reads this
      ensures r <==> Enabled(View(), a)
    {
      Enabled(State(cap, buffer, done, mutex, threads, main, [], []), a)
    }

    /** One turn of whoever the scheduler has chosen. */
    method Turn(a: Action)
      requires Inv(View()) && Ready(a)
      modifies this
      ensures View() == Step(old(View()), a)
    {
      match a {
        case MainAct => MainTurn();
        case SpuriousWake(t) => threads := threads[t := threads[t].(pc := Outside)];
        case Act(t) =>
          assert ThreadOk(View(), t);
          match threads[t].pc {
            case Outside => Lock(t);
            case InMutex => Test(t);
            case Cleared => if threads[t].Producer? { Produce(t); } else { Consume(t); }
            case Notifying => Notify(t);
          }
      }
    }

    /** Somebody who can move, if there is anybody. */
    method Next() returns (found: bool, a: Action)
      ensures found ==> Ready(a) && !a.SpuriousWake?
      ensures !found ==> Blocked(View())
    {
      if Ready(MainAct) { return true, MainAct; }
      var t := 0;
      while t < |threads|
        invariant t <= |threads| && forall u :: 0 <= u < t ==> !Enabled(View(), Act(u))
      {
        if Ready(Act(t)) { return true, Act(t); }
        t := t + 1;
      }
      return false, MainAct;
    }

    /** The program under a scheduler, and a condition variable, that do what `choices` says
        while it says something that can be done, and then let anybody move who can.  It runs
        to its end: it never blocks with work undone, and no wake-up comes too late. */
    method Run(choices: seq<Action>) returns (ghost acts: seq<Action>)
      requires Init(View()) && cap >= 1
      requires exists c :: 0 <= c < |threads| && threads[c].Consumer?
      modifies this
      ensures Legal(MONITOR, old(View()), acts) && View() == After(MONITOR, old(View()), acts) && Blocked(View())
      ensures main == Returned && buffer == [] && ProducersEnded(View()) && ConsumersEnded(View())
      ensures Items(popped) == Items(pushed) && multiset(Items(popped)) == Wanted(old(threads))
      ensures forall t :: 0 <= t < |old(threads)| && old(threads)[t].Producer? ==> By(pushed, t) == old(threads)[t].items
    {
      ghost var s0 := View();
      acts := [];
      var i := 0;
      hide Inv, Step, Init, Blocked, Legal, After, Measure, Wanted, By, Items;
      RunStarts(s0);
      while true
        invariant Legal(MONITOR, s0, acts) && View() == After(MONITOR, s0, acts) && Inv(View()) && i <= |choices|
        decreases |choices| - i, Measure(View())
      {
        var found, a := true, MainAct;
        if i < |choices| {
          found, a, i := Ready(choices[i]), choices[i], i + 1;
          if !found { continue; }
        } else {
          found, a := Next();
          if !found {
            FinishedRun(s0, acts);
            return;
          }
        }
        ghost var s := View();
        StepKeepsInv(s, a);
        StepMeasure(s, a);
        Extend(MONITOR, s0, acts, a);
        acts := acts + [a];
        Turn(a);
      }
    }
  }

  lemma RunStarts(s: State)
    requires Init(s) && s.cap >= 1
    ensures Inv(s) && Legal(MONITOR, s, []) && After(MONITOR, s, []) == s
  {
    InvAlongRun(s, []);
  }
}
