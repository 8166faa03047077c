/** python/shared_memory_lock/thread_producer_consumer.py: a bounded buffer under one
  Condition, any number of producers and consumers, any number of items.

  put() and get() hold the lock from the test of the loop condition to the wait or the
  notify_all() that follows it, so each such stretch is one step. */
module BoundedBuffer {
  import opened Logs
  import opened Runs

  datatype Thread =
    | Producer(items: seq<int>, next: nat, waiting: bool)
    | Consumer(count: nat, got: seq<int>, waiting: bool)

  /** `put` and `taken` are the history of the buffer. */
  datatype State = State(maxsize: nat, buf: seq<int>, threads: seq<Thread>,
                         put: seq<(nat, int)>, taken: seq<(nat, int)>)

  /** How many operations the thread has still to complete. */
  function Remaining(th: Thread): nat {
    match th
    case Producer(items, next, _) => if next <= |items| then |items| - next else 0
    case Consumer(count, got, _) => if |got| <= count then count - |got| else 0
  }

  function Awake(th: Thread): nat {
    if th.waiting then 0 else 1
  }

  predicate Enabled(s: State, t: nat) {
    t < |s.threads| && !s.threads[t].waiting && Remaining(s.threads[t]) > 0
  }

  function Asleep(th: Thread): Thread {
    th.(waiting := true)
  }

  function NotifyAll(threads: seq<Thread>): seq<Thread> {
    seq(|threads|, i requires 0 <= i < |threads| => threads[i].(waiting := false))
  }

  /** Thread `t` gets the lock and runs until it waits or leaves put() or get(). */
  function Step(s: State, t: nat): State {
    if !Enabled(s, t) then s
    else
      var th := s.threads[t];
      if th.Producer? then
        if |s.buf| >= s.maxsize then s.(threads := s.threads[t := Asleep(th)])
        else
          var item := th.items[th.next];
          s.(buf := s.buf + [item], put := s.put + [(t, item)],
             threads := NotifyAll(s.threads[t := th.(next := th.next + 1)]))
      else
        if s.buf == [] then s.(threads := s.threads[t := Asleep(th)])
        else
          s.(buf := s.buf[1..], taken := s.taken + [(t, s.buf[0])],
             threads := NotifyAll(s.threads[t := th.(got := th.got + [s.buf[0]])]))
  }

  const BUFFER := System(Enabled, Step)

  predicate Init(s: State) {
    && s.buf == [] && s.put == [] && s.taken == []
    && forall t :: 0 <= t < |s.threads| ==>
         !s.threads[t].waiting && if s.threads[t].Producer? then s.threads[t].next == 0 else s.threads[t].got == []
  }

  // ------------------------------------------------------------------ invariant

  predicate ThreadOk(s: State, t: nat)
    requires t < |s.threads|
  {
    match s.threads[t]
    case Producer(items, next, waiting) =>
      && next <= |items| && By(s.put, t) == items[..next] && By(s.taken, t) == []
      && (waiting ==> |s.buf| >= s.maxsize)
    case Consumer(count, got, waiting) =>
      && |got| <= count && By(s.taken, t) == got && By(s.put, t) == []
      && (waiting ==> s.buf == [])
  }

  predicate Inv(s: State) {
    && |s.buf| <= s.maxsize
    && Items(s.put) == Items(s.taken) + s.buf
    && (forall t :: 0 <= t < |s.threads| ==> ThreadOk(s, t))
  }

  lemma ActorOk(s: State, t: nat)
    requires Inv(s) && Enabled(s, t)
    ensures |Step(s, t).threads| == |s.threads| && ThreadOk(Step(s, t), t)
  {
    var th := s.threads[t];
    assert ThreadOk(s, t);
    if th.Producer? {
      if |s.buf| < s.maxsize { BySnoc(s.put, (t, th.items[th.next]), t); }
    } else if s.buf != [] {
      BySnoc(s.taken, (t, s.buf[0]), t);
    }
  }

  lemma BystanderOk(s: State, t: nat, u: nat)
    requires Inv(s) && Enabled(s, t) && u < |s.threads| && u != t
    ensures |Step(s, t).threads| == |s.threads| && ThreadOk(Step(s, t), u)
  {
    var th := s.threads[t];
    assert ThreadOk(s, u);
    if th.Producer? {
      if |s.buf| < s.maxsize { BySnoc(s.put, (t, th.items[th.next]), u); }
    } else if s.buf != [] {
      BySnoc(s.taken, (t, s.buf[0]), u);
    }
  }

  lemma StepKeepsInv(s: State, t: nat)
    requires Inv(s) && Enabled(s, t)
    ensures Inv(Step(s, t))
  {
    var s' := Step(s, t);
    ActorOk(s, t);
    forall u | 0 <= u < |s.threads|
      ensures ThreadOk(s', u)
    {
      if u != t { BystanderOk(s, t, u); }
    }
    if s'.put != s.put {
      assert Items(s'.put) == Items(s.put) + [s'.put[|s.put|].1];
    } else if s'.taken != s.taken {
      assert Items(s'.taken) == Items(s.taken) + [s.buf[0]];
    }
  }

  // ----------------------------------------------------------- progress measure

  function Puts(threads: seq<Thread>): nat {
    if threads == [] then 0
    else (if threads[0].Producer? then Remaining(threads[0]) else 0) + Puts(threads[1..])
  }

  function Gets(threads: seq<Thread>): nat {
    if threads == [] then 0
    else (if threads[0].Consumer? then Remaining(threads[0]) else 0) + Gets(threads[1..])
  }

  function AwakeThreads(threads: seq<Thread>): nat {
    if threads == [] then 0 else Awake(threads[0]) + AwakeThreads(threads[1..])
  }

  lemma {:induction false} UpdateCounts(threads: seq<Thread>, t: nat, th: Thread)
    requires t < |threads| && th.Producer? == threads[t].Producer?
    ensures var was := threads[t]; var after := threads[t := th];
            && Puts(after) == Puts(threads) + (if th.Producer? then Remaining(th) - Remaining(was) else 0)
            && Gets(after) == Gets(threads) + (if th.Consumer? then Remaining(th) - Remaining(was) else 0)
            && AwakeThreads(after) == AwakeThreads(threads) + Awake(th) - Awake(was)
  {
    if t == 0 {
      assert threads[0 := th][1..] == threads[1..];
    } else {
      UpdateCounts(threads[1..], t - 1, th);
      assert threads[t := th][1..] == threads[1..][t - 1 := th];
    }
  }

  lemma {:induction false} NotifyCounts(threads: seq<Thread>)
    ensures Puts(NotifyAll(threads)) == Puts(threads) && Gets(NotifyAll(threads)) == Gets(threads)
    ensures AwakeThreads(NotifyAll(threads)) == |threads|
  {
    if threads != [] {
      NotifyCounts(threads[1..]);
      assert NotifyAll(threads)[1..] == NotifyAll(threads[1..]);
    }
  }

  lemma {:induction false} AwakeBound(threads: seq<Thread>)
    ensures AwakeThreads(threads) <= |threads|
  {
    if threads != [] { AwakeBound(threads[1..]); }
  }

  function OperationsLeft(s: State): nat {
    Puts(s.threads) + Gets(s.threads)
  }

  /** Every step completes an operation, or puts a thread to sleep; and the history
      accounts for the completed operations. */
  lemma StepProgress(s: State, t: nat)
    requires Enabled(s, t)
    ensures var s' := Step(s, t);
            && |s'.threads| == |s.threads|
            && (|| OperationsLeft(s') == OperationsLeft(s) - 1
                || (OperationsLeft(s') == OperationsLeft(s) && AwakeThreads(s'.threads) == AwakeThreads(s.threads) - 1))
            && Puts(s'.threads) + |s'.put| == Puts(s.threads) + |s.put|
            && Gets(s'.threads) + |s'.taken| == Gets(s.threads) + |s.taken|
  {
    var th := s.threads[t];
    if th.Producer? {
      if |s.buf| >= s.maxsize {
        UpdateCounts(s.threads, t, Asleep(th));
      } else {
        UpdateCounts(s.threads, t, th.(next := th.next + 1));
        NotifyCounts(s.threads[t := th.(next := th.next + 1)]);
      }
    } else {
      if s.buf == [] {
        UpdateCounts(s.threads, t, Asleep(th));
      } else {
        UpdateCounts(s.threads, t, th.(got := th.got + [s.buf[0]]));
        NotifyCounts(s.threads[t := th.(got := th.got + [s.buf[0]])]);
      }
    }
  }

  /** The lexicographic measure (operations left, threads awake) as one number. */
  function Measure(s: State): nat {
    OperationsLeft(s) * (|s.threads| + 1) + AwakeThreads(s.threads)
  }

  lemma LexicographicIsSmaller(k: nat, k': nat, a: nat, a': nat, n: nat)
    requires (k' < k && a' <= n) || (k' == k && a' < a)
    ensures k' * (n + 1) + a' < k * (n + 1) + a
  {
    if k' < k {
      var d, m := k - k', n + 1;
      assert k * m == k' * m + d * m by { assert k == k' + d; }
      AtLeastOnce(d, m);
    }
  }

  lemma AtLeastOnce(d: nat, m: nat)
    requires d >= 1
    ensures d * m >= m
  {
    assert d * m == (d - 1) * m + m;
  }

  lemma StepDecreases(s: State, t: nat)
    requires Enabled(s, t)
    ensures Measure(Step(s, t)) < Measure(s)
  {
    var s' := Step(s, t);
    StepProgress(s, t);
    AwakeBound(s'.threads);
    LexicographicIsSmaller(OperationsLeft(s), OperationsLeft(s'), AwakeThreads(s.threads), AwakeThreads(s'.threads),
                           |s.threads|);
  }

  // ------------------------------------------------------------------- theorems

  lemma InvAlongRun(s0: State, acts: seq<nat>)
    requires Init(s0) && Legal(BUFFER, s0, acts)
    ensures Inv(After(BUFFER, s0, acts))
  {
    forall s: State, t | Inv(s) && BUFFER.enabled(s, t)
      ensures Inv(BUFFER.step(s, t))
    {
      StepKeepsInv(s, t);
    }
    InvariantAlongRun(BUFFER, Inv, s0, acts);
  }

  /** No run is longer than the initial measure. */
  lemma RunsTerminate(s0: State, acts: seq<nat>)
    requires Legal(BUFFER, s0, acts)
    ensures |acts| <= Measure(s0)
  {
    forall s: State, t | BUFFER.enabled(s, t)
      ensures Measure(BUFFER.step(s, t)) < Measure(s)
    {
      StepDecreases(s, t);
    }
    RunsAreBounded(BUFFER, (s: State) => true, Measure, s0, acts);
  }

  lemma {:induction false} Accounting(s: State, acts: seq<nat>)
    requires Legal(BUFFER, s, acts)
    ensures var s' := After(BUFFER, s, acts);
            && s'.maxsize == s.maxsize
            && Puts(s'.threads) + |s'.put| == Puts(s.threads) + |s.put|
            && Gets(s'.threads) + |s'.taken| == Gets(s.threads) + |s.taken|
    decreases |acts|
  {
    if acts != [] {
      StepProgress(s, acts[0]);
      Accounting(Step(s, acts[0]), acts[1..]);
    }
  }

  predicate Completed(s: State) {
    forall t :: 0 <= t < |s.threads| ==> Remaining(s.threads[t]) == 0
  }

  lemma {:induction false} NothingLeft(threads: seq<Thread>)
    ensures Puts(threads) == 0 <==> forall t :: 0 <= t < |threads| && threads[t].Producer? ==> Remaining(threads[t]) == 0
    ensures Gets(threads) == 0 <==> forall t :: 0 <= t < |threads| && threads[t].Consumer? ==> Remaining(threads[t]) == 0
  {
    if threads != [] {
      NothingLeft(threads[1..]);
      assert forall t :: 1 <= t < |threads| ==> threads[t] == threads[1..][t - 1];
    }
  }

  /** A system that can go no further has completed all its operations exactly when there
      were at least as many puts as gets, and the surplus fits into the buffer. */
  lemma CompletesIff(s0: State, acts: seq<nat>)
    requires Init(s0) && s0.maxsize >= 1 && Legal(BUFFER, s0, acts) && Stuck(BUFFER, After(BUFFER, s0, acts))
    ensures Completed(After(BUFFER, s0, acts))
            <==> Gets(s0.threads) <= Puts(s0.threads) <= Gets(s0.threads) + s0.maxsize
  {
    var s := After(BUFFER, s0, acts);
    InvAlongRun(s0, acts);
    Accounting(s0, acts);
    NothingLeft(s.threads);
    assert |Items(s.put)| == |Items(s.taken)| + |s.buf|;
    if !Completed(s) {
      forall t | 0 <= t < |s.threads|
        ensures Remaining(s.threads[t]) > 0 ==> s.threads[t].waiting
        ensures ThreadOk(s, t)
      {
        assert !BUFFER.enabled(s, t);
      }
    }
  }

  /** With as many gets as puts every maximal run completes, the buffer ends empty, the
      items were taken in the order they were put, each producer's items in its order,
      and each consumer got the number it asked for. */
  lemma BalancedRunsComplete(s0: State, acts: seq<nat>)
    requires Init(s0) && s0.maxsize >= 1 && Puts(s0.threads) == Gets(s0.threads)
    requires Legal(BUFFER, s0, acts) && Stuck(BUFFER, After(BUFFER, s0, acts))
    ensures var s := After(BUFFER, s0, acts);
            && Completed(s) && s.buf == [] && Items(s.taken) == Items(s.put)
            && (forall t :: 0 <= t < |s.threads| ==>
                  if s.threads[t].Producer? then By(s.put, t) == s.threads[t].items
                  else By(s.taken, t) == s.threads[t].got && |s.threads[t].got| == s.threads[t].count)
  {
    var s := After(BUFFER, s0, acts);
    CompletesIff(s0, acts);
    InvAlongRun(s0, acts);
    Accounting(s0, acts);
    NothingLeft(s.threads);
    assert |Items(s.put)| == |Items(s.taken)| + |s.buf|;
    assert Items(s.taken) + [] == Items(s.taken);
    forall t | 0 <= t < |s.threads|
      ensures if s.threads[t].Producer? then By(s.put, t) == s.threads[t].items
              else By(s.taken, t) == s.threads[t].got && |s.threads[t].got| == s.threads[t].count
    {
      assert ThreadOk(s, t) && Remaining(s.threads[t]) == 0;
    }
  }

  /** In every reachable state: sleeping producers face a full buffer, sleeping consumers
      an empty one, and the items taken followed by the buffer are the items put. */
  lemma SleepersHaveReason(s0: State, acts: seq<nat>, t: nat)
    requires Init(s0) && Legal(BUFFER, s0, acts)
    ensures var s := After(BUFFER, s0, acts);
            && Items(s.put) == Items(s.taken) + s.buf && |s.buf| <= s.maxsize
            && (t < |s.threads| && s.threads[t].waiting ==>
                  if s.threads[t].Producer? then |s.buf| == s.maxsize else s.buf == [])
  {
    InvAlongRun(s0, acts);
    if t < |After(BUFFER, s0, acts).threads| { assert ThreadOk(After(BUFFER, s0, acts), t); }
  }

  // ------------------------------------------------------------------ the class

  /** The buffer object.  `others` is what other threads will do: each call of
      cond.wait() lets them complete the next batch of operations. */
  datatype Op = OtherPut(item: int) | OtherGet

  function Apply(maxsize: nat, buf: seq<int>, op: Op): seq<int> {
    match op
    case OtherPut(item) => if |buf| < maxsize then buf + [item] else buf
    case OtherGet => if buf == [] then buf else buf[1..]
  }

  function ApplyAll(maxsize: nat, buf: seq<int>, ops: seq<Op>): seq<int>
    decreases |ops|
  {
    if ops == [] then buf else ApplyAll(maxsize, Apply(maxsize, buf, ops[0]), ops[1..])
  }

  /** The buffer after the first `k` waits. */
  function AfterWaits(maxsize: nat, buf: seq<int>, others: seq<seq<Op>>, k: nat): seq<int>
    requires k <= |others|
  {
    if k == 0 then buf else ApplyAll(maxsize, AfterWaits(maxsize, buf, others, k - 1), others[k - 1])
  }

  class Buffer {
    const maxsize: nat
    var buf: seq<int>

    constructor (maxsize: nat)
      ensures this.maxsize == maxsize && buf == []
    {
      this.maxsize, buf := maxsize, [];
    }

    /** cond.wait(), during which other threads complete `ops`. */
    method Wait(ops: seq<Op>)
      modifies this
      ensures buf == ApplyAll(maxsize, old(buf), ops)
    {
      var i := 0;
      while i < |ops|
        invariant i <= |ops|
        invariant ApplyAll(maxsize, buf, ops[i..]) == ApplyAll(maxsize, old(buf), ops)
      {
        match ops[i] {
          case OtherPut(item) =>
            if |buf| < maxsize { buf := buf + [item]; }
          case OtherGet =>
            if buf != [] { buf := buf[1..]; }
        }
        assert ops[i..][1..] == ops[i + 1..];
        i := i + 1;
      }
    }

    /** put(): sleeps while the buffer is full, and no longer.  `waits` counts the sleeps;
        without a result the thread is still asleep when `others` is used up. */
    method Put(item: int, others: seq<seq<Op>>) returns (done: bool, waits: nat)
      modifies this
      ensures waits <= |others|
      ensures forall k :: 0 <= k < waits ==> |AfterWaits(maxsize, old(buf), others, k)| >= maxsize
      ensures !done ==> waits == |others| && |buf| >= maxsize && buf == AfterWaits(maxsize, old(buf), others, waits)
      ensures done ==> buf == AfterWaits(maxsize, old(buf), others, waits) + [item]
      ensures done ==> |buf| <= maxsize
    {
      waits := 0;
      while |buf| >= maxsize
        invariant waits <= |others| && buf == AfterWaits(maxsize, old(buf), others, waits)
        invariant forall k :: 0 <= k < waits ==> |AfterWaits(maxsize, old(buf), others, k)| >= maxsize
        decreases |others| - waits
      {
        if waits == |others| { return false, waits; }
        Wait(others[waits]);
        waits := waits + 1;
      }
      buf := buf + [item];
      done := true;
    }

    /** get(): sleeps while the buffer is empty, and no longer. */
    method Get(others: seq<seq<Op>>) returns (done: bool, item: int, waits: nat)
      modifies this
      ensures waits <= |others|
      ensures forall k :: 0 <= k < waits ==> AfterWaits(maxsize, old(buf), others, k) == []
      ensures !done ==> waits == |others| && buf == [] == AfterWaits(maxsize, old(buf), others, waits)
      ensures done ==> [item] + buf == AfterWaits(maxsize, old(buf), others, waits)
    {
      waits, item := 0, 0;
      while buf == []
        invariant waits <= |others| && buf == AfterWaits(maxsize, old(buf), others, waits)
        invariant forall k :: 0 <= k < waits ==> AfterWaits(maxsize, old(buf), others, k) == []
        decreases |others| - waits
      {
        if waits == |others| { return false, 0, waits; }
        Wait(others[waits]);
        waits := waits + 1;
      }
      item := buf[0];
      buf := buf[1..];
      done := true;
    }
  }
}
