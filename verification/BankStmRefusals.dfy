/** Why transfers of module BankStm fail: what has to have happened before one returns
  Insufficient or MaxRetries. */
module BankStmRefusals {
  import opened BankStm
  import opened Money
  import opened Runs

  // ------------------------------------------------------------ insufficient funds

  /** After the first `k` steps, while thread `t` was at its transfer number `n`, account `a`
      had balance `b`. */
  ghost predicate Had(s0: State, acts: seq<nat>, k: nat, t: nat, n: nat, a: Account, b: int) {
    k <= |acts| &&
    var s := After(TRANSFERS, s0, acts[..k]);
    t < |s.threads| && |s.threads[t].results| == n && a in s.balances && s.balances[a] == b
  }

  /** Each snapshot balance was the balance of its account at some time during the transfer. */
  ghost predicate SnapshotIsReal(s0: State, acts: seq<nat>, th: Thread, t: nat) {
    var n := |th.results|;
    && (th.todo != [] && Snapped1(th.pc) ==> exists k :: Had(s0, acts, k, t, n, First(th.todo[0]), th.b1))
    && (th.todo != [] && Snapped2(th.pc) ==> exists k :: Had(s0, acts, k, t, n, Second(th.todo[0]), th.b2))
  }

  lemma HadLater(s0: State, acts: seq<nat>, k: nat, t: nat, n: nat, a: Account, b: int)
    requires acts != [] && Had(s0, acts[..|acts| - 1], k, t, n, a, b)
    ensures Had(s0, acts, k, t, n, a, b)
  {
    assert acts[..|acts| - 1][..k] == acts[..k];
  }

  /** What a step does to the thread's snapshot. */
  lemma SnapshotStep(s: State, th: Thread)
    requires th.todo != [] && Known(s, th.todo[0])
    ensures var th' := Exec(s, th);
            && (Snapped1(th'.pc) && th'.todo != [] ==>
                  && th'.results == th.results && th'.todo == th.todo
                  && if th.pc == SnapBalance1 then th'.b1 == s.balances[First(th.todo[0])]
                     else th'.b1 == th.b1 && Snapped1(th.pc))
            && (Snapped2(th'.pc) && th'.todo != [] ==>
                  if th.pc == SnapBalance2 then th'.b2 == s.balances[Second(th.todo[0])]
                  else th'.b2 == th.b2 && Snapped2(th.pc))
  {
  }

  lemma {:induction false} SnapshotWasRead(s0: State, acts: seq<nat>, t: nat)
    requires Init(s0) && Legal(TRANSFERS, s0, acts) && t < |s0.threads|
    ensures var s := After(TRANSFERS, s0, acts);
            t < |s.threads| && SnapshotIsReal(s0, acts, s.threads[t], t)
    decreases |acts|
  {
    if acts != [] {
      var n := |acts| - 1;
      LastStep(TRANSFERS, s0, acts);
      SnapshotWasRead(s0, acts[..n], t);
      var s := After(TRANSFERS, s0, acts[..n]);
      LaterSnapshot(s0, acts, s, t);
    }
  }

  lemma LaterSnapshot(s0: State, acts: seq<nat>, s: State, t: nat)
    requires acts != [] && s == After(TRANSFERS, s0, acts[..|acts| - 1]) && Enabled(s, acts[|acts| - 1])
    requires t < |s.threads| && SnapshotIsReal(s0, acts[..|acts| - 1], s.threads[t], t)
    ensures var s' := Step(s, acts[|acts| - 1]);
            t < |s'.threads| && SnapshotIsReal(s0, acts, s'.threads[t], t)
  {
    var n, th, th' := |acts| - 1, s.threads[t], Step(s, acts[|acts| - 1]).threads[t];
    if acts[n] == t { SnapshotStep(s, th); }
    var m := |th'.results|;
    hide Had, Snapped1, Snapped2, Exec;
    if th'.todo != [] && Snapped1(th'.pc) {
      var a := First(th'.todo[0]);
      if acts[n] == t && th.pc == SnapBalance1 {
        HadNow(s0, acts, s, t, a);
      } else {
        var k :| Had(s0, acts[..n], k, t, m, a, th'.b1);
        HadLater(s0, acts, k, t, m, a, th'.b1);
      }
    }
    if th'.todo != [] && Snapped2(th'.pc) {
      var a := Second(th'.todo[0]);
      if acts[n] == t && th.pc == SnapBalance2 {
        HadNow(s0, acts, s, t, a);
      } else {
        var k :| Had(s0, acts[..n], k, t, m, a, th'.b2);
        HadLater(s0, acts, k, t, m, a, th'.b2);
      }
    }
  }

  lemma HadNow(s0: State, acts: seq<nat>, s: State, t: nat, a: Account)
    requires acts != [] && s == After(TRANSFERS, s0, acts[..|acts| - 1]) && t < |s.threads| && a in s.balances
    ensures Had(s0, acts, |acts| - 1, t, |s.threads[t].results|, a, s.balances[a])
  {
  }

  /** When a transfer returns Insufficient, there was a moment in the course of it at which
      the payer had less than the amount. */
  lemma InsufficientWasShort(s0: State, acts: seq<nat>, t: nat)
    requires Init(s0) && Legal(TRANSFERS, s0, acts) && Enabled(After(TRANSFERS, s0, acts), t)
    requires var s := After(TRANSFERS, s0, acts);
             Step(s, t).threads[t].results == s.threads[t].results + [Insufficient]
    ensures var th := After(TRANSFERS, s0, acts).threads[t];
            exists k, b :: Had(s0, acts, k, t, |th.results|, th.todo[0].src, b) && b < th.todo[0].amount
  {
    var s := After(TRANSFERS, s0, acts);
    var th := s.threads[t];
    ThreadsStay(s0, acts);
    RefusedAtDecide(s, t);
    hide Had, Step, Exec, Enabled;
    SnapshotWasRead(s0, acts, t);
    if First(th.todo[0]) == th.todo[0].src {
      var k :| Had(s0, acts, k, t, |th.results|, th.todo[0].src, th.b1);
    } else {
      var k :| Had(s0, acts, k, t, |th.results|, th.todo[0].src, th.b2);
    }
  }

  lemma RefusedAtDecide(s: State, t: nat)
    requires Enabled(s, t) && Step(s, t).threads[t].results == s.threads[t].results + [Insufficient]
    ensures var th := s.threads[t]; th.pc == Decide && ActualFrom(th, th.todo[0]) < th.todo[0].amount
  {
    var th := s.threads[t];
    assert Exec(s, th).results[|th.results|] == Insufficient;
  }

  // ------------------------------------------------------------------ contention

  /** How often thread `t` has found a version changed, and goes on from there. */
  ghost function Conflicts(s: State, acts: seq<nat>, t: nat): nat
    decreases |acts|
  {
    if acts == [] then 0
    else
      var n := |acts| - 1;
      Conflicts(s, acts[..n], t) + if FailsAttempt(After(TRANSFERS, s, acts[..n]), acts[n], t) then 1 else 0
  }

  predicate FailsAttempt(s: State, u: nat, t: nat) {
    u == t < |s.threads| && s.threads[t].pc == Unlock1(false)
  }

  /** How often threads other than `t` have raised a version. */
  ghost function Raises(s: State, acts: seq<nat>, t: nat): nat
    decreases |acts|
  {
    if acts == [] then 0
    else
      var n := |acts| - 1;
      Raises(s, acts[..n], t) + if RaisedByOther(After(TRANSFERS, s, acts[..n]), acts[n], t) then 1 else 0
  }

  ghost predicate RaisedByOther(s: State, u: nat, t: nat) {
    u != t && exists a :: a in s.versions && a in Step(s, u).versions && s.versions[a] < Step(s, u).versions[a]
  }

  function GivenUp(results: seq<Result>): nat {
    if results == [] then 0
    else GivenUp(results[..|results| - 1]) + if results[|results| - 1] == MaxRetries then 1 else 0
  }

  /** The attempt cannot succeed any more: a version has moved since it was read. */
  predicate Doomed(s: State, th: Thread) {
    th.todo != [] && Known(s, th.todo[0]) &&
    var v1, v2 := s.versions[First(th.todo[0])], s.versions[Second(th.todo[0])];
    match th.pc
    case SnapVersion1 => false
    case SnapBalance1 => th.v1 != v1
    case SnapVersion2 => th.v1 != v1
    case SnapBalance2 => th.v1 != v1 || th.v2 != v2
    case Decide => th.v1 != v1 || th.v2 != v2
    case Lock1 => th.v1 != v1 || th.v2 != v2
    case Lock2 => th.v1 != v1 || th.v2 != v2
    case Validate => th.v1 != v1 || th.v2 != v2
    case Unlock2(committed) => !committed
    case Unlock1(committed) => !committed
    case _ => false
  }

  lemma GivenUpSnoc(results: seq<Result>, r: Result)
    ensures GivenUp(results + [r]) == GivenUp(results) + if r == MaxRetries then 1 else 0
  {
    assert (results + [r])[..|results|] == results;
  }

  /** A thread's own steps doom no attempt; a failed one counts as such, and MAX_RETRIES of
      them make the transfer give up. */
  lemma OwnStep(s: State, t: nat)
    requires Enabled(s, t) && s.threads[t].attempt < MAX_RETRIES
    ensures var th, th' := s.threads[t], Step(s, t).threads[t];
            var failed := if FailsAttempt(s, t, t) then 1 else 0;
            && t < |Step(s, t).threads| && th'.attempt < MAX_RETRIES
            && MAX_RETRIES * GivenUp(th'.results) + th'.attempt <= MAX_RETRIES * GivenUp(th.results) + th.attempt + failed
            && (Doomed(Step(s, t), th') ==> Doomed(s, th) && failed == 0)
            && (failed == 1 ==> Doomed(s, th))
  {
    var th, th' := s.threads[t], Step(s, t).threads[t];
    if th'.results != th.results {
      var r := th'.results[|th.results|];
      assert th'.results == th.results + [r];
      GivenUpSnoc(th.results, r);
    }
  }

  /** Only a raised version dooms another thread's attempt. */
  lemma OthersStep(s: State, u: nat, t: nat)
    requires Enabled(s, u) && t < |s.threads| && t != u
    ensures t < |Step(s, u).threads| && Step(s, u).threads[t] == s.threads[t]
    ensures Doomed(Step(s, u), s.threads[t]) && !Doomed(s, s.threads[t]) ==> RaisedByOther(s, u, t)
  {
    var s' := Step(s, u);
    assert forall a :: a in s.versions ==> a in s'.versions && s.versions[a] <= s'.versions[a];
  }

  /** `conflicts` of the thread and `raises` of the others cover what has happened to it. */
  predicate Accounted(s: State, t: nat, conflicts: nat, raises: nat) {
    && t < |s.threads| && s.threads[t].attempt < MAX_RETRIES
    && MAX_RETRIES * GivenUp(s.threads[t].results) + s.threads[t].attempt <= conflicts
    && conflicts + (if Doomed(s, s.threads[t]) then 1 else 0) <= raises
  }

  lemma StepKeepsAccounted(s: State, u: nat, t: nat, conflicts: nat, raises: nat)
    requires Enabled(s, u) && Accounted(s, t, conflicts, raises)
    ensures Accounted(Step(s, u), t, conflicts + (if FailsAttempt(s, u, t) then 1 else 0),
                      raises + (if RaisedByOther(s, u, t) then 1 else 0))
  {
    hide Step, Doomed, GivenUp, Enabled, RaisedByOther;
    if u == t { OwnStep(s, t); } else { OthersStep(s, u, t); }
  }

  lemma {:induction false} AccountedAlongRun(s0: State, acts: seq<nat>, t: nat)
    requires Init(s0) && Legal(TRANSFERS, s0, acts) && t < |s0.threads|
    ensures Accounted(After(TRANSFERS, s0, acts), t, Conflicts(s0, acts, t), Raises(s0, acts, t))
    decreases |acts|
  {
    if acts != [] {
      hide Accounted, Step, Enabled, Init, RaisedByOther, FailsAttempt;
      var n := |acts| - 1;
      LastStep(TRANSFERS, s0, acts);
      AccountedAlongRun(s0, acts[..n], t);
      StepKeepsAccounted(After(TRANSFERS, s0, acts[..n]), acts[n], t, Conflicts(s0, acts[..n], t), Raises(s0, acts[..n], t));
    }
  }

  /** Giving up is a matter of contention: each transfer that returns MaxRetries has cost
      the other threads at least 100 version increments. */
  lemma GivingUpNeedsContention(s0: State, acts: seq<nat>, t: nat)
    requires Init(s0) && Legal(TRANSFERS, s0, acts) && t < |s0.threads|
    ensures var s := After(TRANSFERS, s0, acts);
            && t < |s.threads|
            && 100 * GivenUp(s.threads[t].results) <= Conflicts(s0, acts, t) <= Raises(s0, acts, t)
  {
    AccountedAlongRun(s0, acts, t);
  }

  /** How many attempts of its transfer number `n` thread `t` has seen fail. */
  ghost function Failures(s: State, acts: seq<nat>, t: nat, n: nat): nat
    decreases |acts|
  {
    if acts == [] then 0
    else
      var m := |acts| - 1;
      Failures(s, acts[..m], t, n) + if FailsAtTransfer(After(TRANSFERS, s, acts[..m]), acts[m], t, n) then 1 else 0
  }

  predicate FailsAtTransfer(s: State, u: nat, t: nat, n: nat) {
    FailsAttempt(s, u, t) && |s.threads[t].results| == n
  }

  /** `failures` is how many attempts of its transfer number `n` have failed. */
  predicate FailuresTell(th: Thread, n: nat, failures: nat) {
    if n < |th.results| then failures <= 100 && (th.results[n] == MaxRetries <==> failures == 100)
    else failures == (if n == |th.results| then th.attempt else 0) && failures < 100
  }

  lemma OwnStepTells(s: State, t: nat, n: nat, failures: nat)
    requires Enabled(s, t) && FailuresTell(s.threads[t], n, failures) && s.threads[t].attempt < 100
    ensures t < |Step(s, t).threads| && Step(s, t).threads[t].attempt < 100
    ensures FailuresTell(Step(s, t).threads[t], n, failures + if FailsAtTransfer(s, t, t, n) then 1 else 0)
  {
  }

  lemma {:induction false} FailuresAlongRun(s0: State, acts: seq<nat>, t: nat, n: nat)
    requires Init(s0) && Legal(TRANSFERS, s0, acts) && t < |s0.threads|
    ensures var s := After(TRANSFERS, s0, acts);
            t < |s.threads| && s.threads[t].attempt < 100 && FailuresTell(s.threads[t], n, Failures(s0, acts, t, n))
    decreases |acts|
  {
    if acts != [] {
      var m := |acts| - 1;
      LastStep(TRANSFERS, s0, acts);
      FailuresAlongRun(s0, acts[..m], t, n);
      hide FailuresTell, Init;
      var s := After(TRANSFERS, s0, acts[..m]);
      if acts[m] == t {
        OwnStepTells(s, t, n, Failures(s0, acts[..m], t, n));
      } else {
        assert Step(s, acts[m]).threads[t] == s.threads[t];
      }
    }
  }

  /** A transfer gives up after 100 failed attempts and not before: one that has returned
      anything else has seen fewer fail. */
  lemma GivesUpAfter100(s0: State, acts: seq<nat>, t: nat, n: nat)
    requires Init(s0) && Legal(TRANSFERS, s0, acts) && t < |s0.threads|
    requires t < |After(TRANSFERS, s0, acts).threads| && n < |After(TRANSFERS, s0, acts).threads[t].results|
    ensures var r, failures := After(TRANSFERS, s0, acts).threads[t].results[n], Failures(s0, acts, t, n);
            && failures <= 100 && (r == MaxRetries <==> failures == 100)
  {
    FailuresAlongRun(s0, acts, t, n);
  }

  // -------------------------------------------------- a culprit for each attempt

  /** The snapshot of the present attempt holds version `v` of account `a`. */
  predicate SnapHas(th: Thread, a: Account, v: nat) {
    th.todo != [] && !th.pc.SnapVersion1? &&
    (|| (a == First(th.todo[0]) && th.v1 == v)
     || (a == Second(th.todo[0]) && th.v2 == v && !th.pc.SnapBalance1? && !th.pc.SnapVersion2?))
  }

  /** Thread `t` is in attempt number `i` at its transfer number `n`, and holds that version. */
  predicate Holding(s: State, t: nat, n: nat, i: nat, a: Account, v: nat) {
    t < |s.threads| && |s.threads[t].results| == n && s.threads[t].attempt == i && SnapHas(s.threads[t], a, v)
  }

  /** The step takes account `a` from version `v` to a higher one. */
  ghost predicate Raising(s: State, u: nat, a: Account, v: nat) {
    a in s.versions && a in Step(s, u).versions && s.versions[a] == v < Step(s, u).versions[a]
  }

  ghost predicate OvertakenOn(s0: State, acts: seq<nat>, t: nat, n: nat, i: nat, j: nat, a: Account, v: nat) {
    && j < |acts| && acts[j] != t && Raising(After(TRANSFERS, s0, acts[..j]), acts[j], a, v)
    && forall k :: j <= k <= |acts| ==> Holding(After(TRANSFERS, s0, acts[..k]), t, n, i, a, v)
  }

  /** Step `j` of the run, another thread's, has raised a version that the snapshot of this
      attempt held then and still holds. */
  ghost predicate Overtaken(s0: State, acts: seq<nat>, t: nat, n: nat, i: nat, j: nat) {
    exists a, v :: OvertakenOn(s0, acts, t, n, i, j, a, v)
  }

  /** Attempt number `i` at transfer number `n` failed at step `k`, because of step `j`. */
  ghost predicate FailedAt(s0: State, acts: seq<nat>, t: nat, n: nat, i: nat, j: nat, k: nat) {
    k < |acts| && FailsAttempt(After(TRANSFERS, s0, acts[..k]), acts[k], t) && Overtaken(s0, acts[..k], t, n, i, j)
  }

  ghost predicate Failed(s0: State, acts: seq<nat>, t: nat, n: nat, i: nat) {
    exists j, k :: FailedAt(s0, acts, t, n, i, j, k)
  }

  ghost predicate PastExplained(s0: State, acts: seq<nat>, th: Thread, t: nat) {
    && (forall n, i :: 0 <= n < |th.results| && th.results[n] == MaxRetries && 0 <= i < MAX_RETRIES ==> Failed(s0, acts, t, n, i))
    && (forall i :: 0 <= i < th.attempt ==> Failed(s0, acts, t, |th.results|, i))
  }

  ghost predicate DoomExplained(s0: State, acts: seq<nat>, s: State, th: Thread, t: nat) {
    Doomed(s, th) ==> exists j :: Overtaken(s0, acts, t, |th.results|, th.attempt, j)
  }

  ghost predicate Explained(s0: State, acts: seq<nat>, s: State, t: nat)
    requires t < |s.threads|
  {
    var th := s.threads[t];
    th.attempt < MAX_RETRIES && PastExplained(s0, acts, th, t) && DoomExplained(s0, acts, s, th, t)
  }

  lemma FailedLater(s0: State, acts: seq<nat>, t: nat, n: nat, i: nat)
    requires acts != [] && Failed(s0, acts[..|acts| - 1], t, n, i)
    ensures Failed(s0, acts, t, n, i)
  {
    hide FailsAttempt, Overtaken;
    var j: nat, k: nat :| FailedAt(s0, acts[..|acts| - 1], t, n, i, j, k);
    assert acts[..|acts| - 1][..k] == acts[..k];
    assert FailedAt(s0, acts, t, n, i, j, k);
  }

  /** A version stays in the snapshot as long as the attempt goes on. */
  lemma HeldOn(s: State, t: nat, u: nat, n: nat, i: nat, a: Account, v: nat)
    requires Enabled(s, u) && Holding(s, t, n, i, a, v)
    requires t < |Step(s, u).threads| && |Step(s, u).threads[t].results| == n && Step(s, u).threads[t].attempt == i
    requires u == t ==> !FailsAttempt(s, t, t)
    ensures Holding(Step(s, u), t, n, i, a, v)
  {
  }

  lemma StillOvertaken(s0: State, acts: seq<nat>, t: nat, n: nat, i: nat, j: nat, a: Account, v: nat)
    requires acts != [] && OvertakenOn(s0, acts[..|acts| - 1], t, n, i, j, a, v)
    requires Holding(After(TRANSFERS, s0, acts), t, n, i, a, v)
    ensures OvertakenOn(s0, acts, t, n, i, j, a, v)
  {
    hide Holding, Raising, After;
    var m := |acts| - 1;
    assert acts[..m][..j] == acts[..j];
    forall k | j <= k <= |acts|
      ensures Holding(After(TRANSFERS, s0, acts[..k]), t, n, i, a, v)
    {
      if k <= m { assert acts[..m][..k] == acts[..k]; } else { assert acts[..k] == acts; }
    }
  }

  lemma OvertakenLater(s0: State, acts: seq<nat>, t: nat, n: nat, i: nat, j: nat)
    requires acts != [] && Overtaken(s0, acts[..|acts| - 1], t, n, i, j)
    requires var s := After(TRANSFERS, s0, acts[..|acts| - 1]); var u := acts[|acts| - 1];
             && Enabled(s, u) && After(TRANSFERS, s0, acts) == Step(s, u)
             && t < |Step(s, u).threads| && |Step(s, u).threads[t].results| == n && Step(s, u).threads[t].attempt == i
             && (u == t ==> !FailsAttempt(s, t, t))
    ensures Overtaken(s0, acts, t, n, i, j)
  {
    hide Holding, Raising, Step, Enabled, FailsAttempt, After;
    var m := |acts| - 1;
    var a, v :| OvertakenOn(s0, acts[..m], t, n, i, j, a, v);
    assert acts[..m][..m] == acts[..m];
    HeldOn(After(TRANSFERS, s0, acts[..m]), t, acts[m], n, i, a, v);
    hide OvertakenOn;
    StillOvertaken(s0, acts, t, n, i, j, a, v);
  }

  /** Another thread's step dooms an attempt only by raising a version that its snapshot holds. */
  lemma RaisedFromUnder(s: State, u: nat, t: nat) returns (a: Account, v: nat)
    requires Enabled(s, u) && t < |s.threads| && t != u
    requires Doomed(Step(s, u), s.threads[t]) && !Doomed(s, s.threads[t])
    ensures Raising(s, u, a, v) && SnapHas(s.threads[t], a, v)
  {
    var th, s' := s.threads[t], Step(s, u);
    assert forall b :: b in s.versions ==> b in s'.versions && s.versions[b] <= s'.versions[b];
    assert Known(s, th.todo[0]);
    if th.v1 != s'.versions[First(th.todo[0])] {
      a, v := First(th.todo[0]), th.v1;
    } else {
      a, v := Second(th.todo[0]), th.v2;
    }
  }

  lemma NowOvertaken(s0: State, acts: seq<nat>, t: nat, a: Account, v: nat)
    requires acts != []
    requires var s := After(TRANSFERS, s0, acts[..|acts| - 1]); var u := acts[|acts| - 1];
             && t < |s.threads| && u != t && Raising(s, u, a, v) && SnapHas(s.threads[t], a, v)
             && After(TRANSFERS, s0, acts) == Step(s, u) && t < |Step(s, u).threads| && Step(s, u).threads[t] == s.threads[t]
    ensures var th := After(TRANSFERS, s0, acts).threads[t];
            Overtaken(s0, acts, t, |th.results|, th.attempt, |acts| - 1)
  {
    var m := |acts| - 1;
    var th := After(TRANSFERS, s0, acts).threads[t];
    hide Step, SnapHas, Raising;
    forall k | m <= k <= |acts|
      ensures Holding(After(TRANSFERS, s0, acts[..k]), t, |th.results|, th.attempt, a, v)
    {
      if k > m { assert acts[..k] == acts; }
    }
    assert OvertakenOn(s0, acts, t, |th.results|, th.attempt, m, a, v);
  }

  lemma OthersStepDooms(s0: State, acts: seq<nat>, t: nat)
    requires acts != []
    requires var s := After(TRANSFERS, s0, acts[..|acts| - 1]); var u := acts[|acts| - 1];
             && t < |s.threads| && u != t && Enabled(s, u) && After(TRANSFERS, s0, acts) == Step(s, u)
             && t < |Step(s, u).threads| && Step(s, u).threads[t] == s.threads[t]
             && DoomExplained(s0, acts[..|acts| - 1], s, s.threads[t], t)
    ensures var s' := After(TRANSFERS, s0, acts); DoomExplained(s0, acts, s', s'.threads[t], t)
  {
    var m := |acts| - 1;
    var s, s' := After(TRANSFERS, s0, acts[..m]), After(TRANSFERS, s0, acts);
    var th := s.threads[t];
    if Doomed(s', th) {
      if Doomed(s, th) {
        hide Doomed, Step, Enabled, Overtaken, After;
        var j: nat :| Overtaken(s0, acts[..m], t, |th.results|, th.attempt, j);
        OvertakenLater(s0, acts, t, |th.results|, th.attempt, j);
      } else {
        var a, v := RaisedFromUnder(s, acts[m], t);
        hide Doomed, Step, Enabled, Overtaken, Raising, SnapHas, After;
        NowOvertaken(s0, acts, t, a, v);
      }
    }
  }

  lemma OthersStepExplained(s0: State, acts: seq<nat>, t: nat)
    requires acts != []
    requires var s := After(TRANSFERS, s0, acts[..|acts| - 1]); var u := acts[|acts| - 1];
             && t < |s.threads| && u != t && Enabled(s, u) && After(TRANSFERS, s0, acts) == Step(s, u)
             && Explained(s0, acts[..|acts| - 1], s, t)
    ensures t < |After(TRANSFERS, s0, acts).threads| && Explained(s0, acts, After(TRANSFERS, s0, acts), t)
  {
    hide Doomed, Step, Enabled, PastExplained, DoomExplained, After;
    var s := After(TRANSFERS, s0, acts[..|acts| - 1]);
    OthersStep(s, acts[|acts| - 1], t);
    OthersStepDooms(s0, acts, t);
    PastStays(s0, acts, s.threads[t], t);
  }

  lemma PastStays(s0: State, acts: seq<nat>, th: Thread, t: nat)
    requires acts != [] && PastExplained(s0, acts[..|acts| - 1], th, t)
    ensures PastExplained(s0, acts, th, t)
  {
    hide Failed;
    forall n, i | 0 <= n < |th.results| && th.results[n] == MaxRetries && 0 <= i < MAX_RETRIES
      ensures Failed(s0, acts, t, n, i)
    {
      FailedLater(s0, acts, t, n, i);
    }
    forall i | 0 <= i < th.attempt
      ensures Failed(s0, acts, t, |th.results|, i)
    {
      FailedLater(s0, acts, t, |th.results|, i);
    }
  }

  predicate Counts(th: Thread, th': Thread, fails: bool) {
    if fails then
      if th.attempt + 1 < MAX_RETRIES then th'.results == th.results && th'.attempt == th.attempt + 1
      else th'.results == th.results + [MaxRetries] && th'.attempt == 0
    else
      || (th'.results == th.results && th'.attempt == th.attempt)
      || (th'.attempt == 0 && exists r: Result :: r != MaxRetries && th'.results == th.results + [r])
  }

  lemma PastGrows(s0: State, acts: seq<nat>, th: Thread, th': Thread, t: nat, fails: bool)
    requires PastExplained(s0, acts, th, t) && th.attempt < MAX_RETRIES && Counts(th, th', fails)
    requires fails ==> Failed(s0, acts, t, |th.results|, th.attempt)
    ensures PastExplained(s0, acts, th', t)
  {
    hide Failed;
  }

  /** How a thread's own step counts its attempts and results. */
  lemma OwnStepCounts(s: State, t: nat)
    requires Enabled(s, t) && s.threads[t].attempt < MAX_RETRIES
    ensures var th, th' := s.threads[t], Step(s, t).threads[t];
            && t < |Step(s, t).threads|
            && Counts(th, th', FailsAttempt(s, t, t))
  {
    var th, th' := s.threads[t], Step(s, t).threads[t];
    if th'.results != th.results {
      var r := th'.results[|th.results|];
      assert th'.results == th.results + [r];
    }
  }

  lemma OwnStepDooms(s0: State, acts: seq<nat>, t: nat)
    requires acts != []
    requires var s := After(TRANSFERS, s0, acts[..|acts| - 1]);
             && acts[|acts| - 1] == t < |s.threads| && Enabled(s, t) && After(TRANSFERS, s0, acts) == Step(s, t)
             && t < |Step(s, t).threads| && s.threads[t].attempt < MAX_RETRIES
             && DoomExplained(s0, acts[..|acts| - 1], s, s.threads[t], t)
    ensures var s' := After(TRANSFERS, s0, acts); DoomExplained(s0, acts, s', s'.threads[t], t)
    ensures var s := After(TRANSFERS, s0, acts[..|acts| - 1]); var th := s.threads[t];
            FailsAttempt(s, t, t) ==> Failed(s0, acts, t, |th.results|, th.attempt)
  {
    var m := |acts| - 1;
    var s, s' := After(TRANSFERS, s0, acts[..m]), After(TRANSFERS, s0, acts);
    var th, th' := s.threads[t], s'.threads[t];
    OwnStep(s, t);
    if Doomed(s', th') { DoomedGoesOn(s, t); }
    var fails := FailsAttempt(s, t, t);
    hide Doomed, Step, Enabled, Failed, Overtaken, GivenUp, FailsAttempt, After;
    if fails {
      var j: nat :| Overtaken(s0, acts[..m], t, |th.results|, th.attempt, j);
      FailedNow(s0, acts, t, |th.results|, th.attempt, j);
    } else if Doomed(s', th') {
      var j: nat :| Overtaken(s0, acts[..m], t, |th.results|, th.attempt, j);
      OvertakenLater(s0, acts, t, |th.results|, th.attempt, j);
    }
  }

  lemma OwnStepExplained(s0: State, acts: seq<nat>, t: nat)
    requires acts != []
    requires var s := After(TRANSFERS, s0, acts[..|acts| - 1]);
             && acts[|acts| - 1] == t < |s.threads| && Enabled(s, t) && After(TRANSFERS, s0, acts) == Step(s, t)
             && Explained(s0, acts[..|acts| - 1], s, t)
    ensures t < |After(TRANSFERS, s0, acts).threads| && Explained(s0, acts, After(TRANSFERS, s0, acts), t)
  {
    hide Doomed, Step, Enabled, PastExplained, DoomExplained, After, Failed, FailsAttempt, Counts, GivenUp;
    var s, s' := After(TRANSFERS, s0, acts[..|acts| - 1]), After(TRANSFERS, s0, acts);
    OwnStep(s, t);
    OwnStepCounts(s, t);
    OwnStepDooms(s0, acts, t);
    PastStays(s0, acts, s.threads[t], t);
    PastGrows(s0, acts, s.threads[t], s'.threads[t], t, FailsAttempt(s, t, t));
  }

  /** A doomed attempt is one that has not ended. */
  lemma DoomedGoesOn(s: State, t: nat)
    requires Enabled(s, t) && s.threads[t].attempt < MAX_RETRIES && t < |Step(s, t).threads|
    requires Doomed(Step(s, t), Step(s, t).threads[t])
    ensures var th, th' := s.threads[t], Step(s, t).threads[t]; th'.results == th.results && th'.attempt == th.attempt
    ensures !FailsAttempt(s, t, t)
  {
  }

  lemma FailedNow(s0: State, acts: seq<nat>, t: nat, n: nat, i: nat, j: nat)
    requires acts != [] && FailsAttempt(After(TRANSFERS, s0, acts[..|acts| - 1]), acts[|acts| - 1], t)
    requires Overtaken(s0, acts[..|acts| - 1], t, n, i, j)
    ensures Failed(s0, acts, t, n, i)
  {
    assert FailedAt(s0, acts, t, n, i, j, |acts| - 1);
  }

  lemma {:induction false} AllExplained(s0: State, acts: seq<nat>, t: nat)
    requires Init(s0) && Legal(TRANSFERS, s0, acts) && t < |s0.threads|
    ensures var s := After(TRANSFERS, s0, acts); t < |s.threads| && Explained(s0, acts, s, t)
    decreases |acts|
  {
    if acts != [] {
      var m := |acts| - 1;
      LastStep(TRANSFERS, s0, acts);
      AllExplained(s0, acts[..m], t);
      hide Explained;
      if acts[m] == t { OwnStepExplained(s0, acts, t); } else { OthersStepExplained(s0, acts, t); }
    }
  }

  /** A transfer that has returned MaxRetries made 100 attempts, and each of them has its
      culprit: before it failed, and while its snapshot held a version of one of the two
      accounts, a step of another thread raised that version. */
  lemma EachAttemptHadCulprit(s0: State, acts: seq<nat>, t: nat, n: nat, i: nat)
    requires Init(s0) && Legal(TRANSFERS, s0, acts) && t < |s0.threads| && i < 100
    requires var s := After(TRANSFERS, s0, acts);
             t < |s.threads| && n < |s.threads[t].results| && s.threads[t].results[n] == MaxRetries
    ensures Failed(s0, acts, t, n, i)
  {
    hide Failed, Doomed;
    AllExplained(s0, acts, t);
  }
}
