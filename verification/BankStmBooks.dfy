/** What the commits of module BankStm do to the money: exactly when a commit moves the amount,
  overdraws an account, or creates money. */
module BankStmBooks {
  import opened BankStm
  import Locking
  import opened Money
  import opened Runs

  // ------------------------------------------------------------------- one commit

  /** The amount goes from payer to payee. */
  function Intended(m: Balances, x: Transfer): Balances {
    map a | a in m :: m[a] - (if a == x.src then x.amount else 0) + (if a == x.dst then x.amount else 0)
  }

  predicate Exact(m: Balances, x: Transfer) {
    Commit(m, x) == Intended(m, x)
  }

  /** A commit moves the amount from payer to payee exactly when the payer comes first in
      lock order, or the two balances are equal: otherwise it swaps them.  From an account to
      itself, it adds the amount. */
  lemma CommitExactIff(m: Balances, x: Transfer)
    requires x.src in m && x.dst in m
    ensures Exact(m, x) <==>
      x.src < x.dst || (x.src > x.dst && m[x.src] == m[x.dst]) || (x.src == x.dst && x.amount == 0)
  {
    var m1, m2 := Commit(m, x), Intended(m, x);
    if x.src < x.dst || (x.src > x.dst && m[x.src] == m[x.dst]) || (x.src == x.dst && x.amount == 0) {
      assert forall a :: a in m ==> m1[a] == m2[a];
    } else {
      assert m1[x.dst] != m2[x.dst];
    }
  }

  predicate NoneOverdrawn(m: Balances) {
    forall a :: a in m ==> m[a] >= 0
  }

  /** The balances that the commit leaves on the two accounts are not negative. */
  predicate Safe(m: Balances, x: Transfer)
    requires x.src in m && x.dst in m
  {
    if x.src < x.dst then m[x.dst] + x.amount >= 0
    else if x.src > x.dst then m[x.dst] >= x.amount && m[x.src] + x.amount >= 0
    else m[x.src] + x.amount >= 0
  }

  /** A commit that the payer can pay overdraws nobody if and only if it is safe: for an
      amount that is not negative, if and only if the payer does not come second in lock
      order, or the payee could have paid as well. */
  lemma CommitOverdrawsIff(m: Balances, x: Transfer)
    requires NoneOverdrawn(m) && CanPay(m, x)
    ensures NoneOverdrawn(Commit(m, x)) <==> Safe(m, x)
    ensures x.amount >= 0 ==> (Safe(m, x) <==> x.src <= x.dst || m[x.dst] >= x.amount)
  {
    var m' := Commit(m, x);
    assert x.src in m' && x.dst in m';
  }

  /** A commit changes the total if and only if payer and payee are the same and the amount
      is not zero. */
  lemma CommitTotalIff(accounts: seq<Account>, m: Balances, x: Transfer)
    requires NoDuplicates(accounts) && (forall a :: a in accounts <==> a in m)
    requires x.src in m && x.dst in m
    ensures Sum(accounts, Commit(m, x)) == Sum(accounts, m) + if x.src == x.dst then x.amount else 0
    ensures Sum(accounts, Commit(m, x)) == Sum(accounts, m) <==> x.src != x.dst || x.amount == 0
  {
    if x.src == x.dst {
      assert Commit(m, x) == m[x.src := m[x.src] + x.amount];
      SumAfterChange(accounts, m, x.src, x.amount);
    } else {
      var moved := m[x.src] - Commit(m, x)[x.src];
      SumAfterMove(accounts, m, Commit(m, x), x.src, x.dst, moved);
    }
  }

  // --------------------------------------------------------------------- all commits

  lemma {:induction false} SerialKeys(log: seq<Entry>, m0: Balances)
    ensures Serial(log, m0).Keys == m0.Keys
  {
    if log != [] { SerialKeys(log[..|log| - 1], m0); }
  }

  /** What the committed transfers of an account to itself have added. */
  function Created(log: seq<Entry>): int {
    if log == [] then 0
    else
      var x := log[|log| - 1].x;
      Created(log[..|log| - 1]) + if x.src == x.dst then x.amount else 0
  }

  /** What the committed transfers owe to an account. */
  function Net(log: seq<Entry>, a: Account): int {
    if log == [] then 0
    else
      var x := log[|log| - 1].x;
      Net(log[..|log| - 1], a) - (if a == x.src then x.amount else 0) + (if a == x.dst then x.amount else 0)
  }

  lemma CoveredPrefix(log: seq<Entry>, m0: Balances, n: nat)
    requires Covered(log, m0) && n <= |log|
    ensures Covered(log[..n], m0)
  {
    forall i | 0 <= i < n
      ensures CanPay(Serial(log[..n][..i], m0), log[..n][i].x)
    {
      assert log[..n][..i] == log[..i];
    }
  }

  lemma {:induction false} LogTotal(accounts: seq<Account>, log: seq<Entry>, m0: Balances)
    requires NoDuplicates(accounts) && (forall a :: a in accounts <==> a in m0) && Covered(log, m0)
    ensures Sum(accounts, Serial(log, m0)) == Sum(accounts, m0) + Created(log)
  {
    if log != [] {
      var n := |log| - 1;
      CoveredPrefix(log, m0, n);
      LogTotal(accounts, log[..n], m0);
      SerialKeys(log[..n], m0);
      CommitTotalIff(accounts, Serial(log[..n], m0), log[n].x);
    }
  }

  predicate AllExact(log: seq<Entry>, m0: Balances) {
    forall i :: 0 <= i < |log| ==> Exact(Serial(log[..i], m0), log[i].x)
  }

  lemma {:induction false} ExactLogPays(log: seq<Entry>, m0: Balances, a: Account)
    requires AllExact(log, m0) && a in m0
    ensures a in Serial(log, m0) && Serial(log, m0)[a] == m0[a] + Net(log, a)
  {
    SerialKeys(log, m0);
    if log != [] {
      var n := |log| - 1;
      forall i | 0 <= i < n
        ensures Exact(Serial(log[..n][..i], m0), log[..n][i].x)
      {
        assert log[..n][..i] == log[..i];
      }
      ExactLogPays(log[..n], m0, a);
      SerialKeys(log[..n], m0);
      assert Exact(Serial(log[..n], m0), log[n].x);
    }
  }

  predicate AllSafe(log: seq<Entry>, m0: Balances) {
    forall i :: 0 <= i < |log| ==> CanPay(Serial(log[..i], m0), log[i].x) && Safe(Serial(log[..i], m0), log[i].x)
  }

  lemma NextSerial(log: seq<Entry>, m0: Balances, i: nat)
    requires i < |log|
    ensures Serial(log[..i + 1], m0) == Commit(Serial(log[..i], m0), log[i].x)
  {
    assert log[..i + 1][..i] == log[..i];
  }

  predicate NeverOverdrawn(log: seq<Entry>, m0: Balances) {
    forall i :: 0 <= i <= |log| ==> NoneOverdrawn(Serial(log[..i], m0))
  }

  lemma {:induction false} NeverOverdrawnIff(log: seq<Entry>, m0: Balances)
    requires Covered(log, m0) && NoneOverdrawn(m0)
    ensures NeverOverdrawn(log, m0) <==> AllSafe(log, m0)
  {
    if NeverOverdrawn(log, m0) {
      forall i | 0 <= i < |log|
        ensures CanPay(Serial(log[..i], m0), log[i].x) && Safe(Serial(log[..i], m0), log[i].x)
      {
        NextSerial(log, m0, i);
        CommitOverdrawsIff(Serial(log[..i], m0), log[i].x);
      }
    }
    if AllSafe(log, m0) {
      forall i | 0 <= i <= |log|
        ensures NoneOverdrawn(Serial(log[..i], m0))
      {
        SafePrefix(log, m0, i);
      }
    }
  }

  lemma {:induction false} SafePrefix(log: seq<Entry>, m0: Balances, i: nat)
    requires Covered(log, m0) && NoneOverdrawn(m0) && AllSafe(log, m0) && i <= |log|
    ensures NoneOverdrawn(Serial(log[..i], m0))
    decreases i
  {
    if i > 0 {
      SafePrefix(log, m0, i - 1);
      NextSerial(log, m0, i - 1);
      CommitOverdrawsIff(Serial(log[..i - 1], m0), log[i - 1].x);
    }
  }

  // ------------------------------------------------------------------------ all runs

  predicate NoNegativeAmount(s0: State) {
    forall t, x :: 0 <= t < |s0.threads| && x in s0.threads[t].todo ==> x.amount >= 0
  }

  /** In every run, the balance of an account that nobody has locked is what the committed
      transfers leave when executed one at a time, each covered by its payer's balance.
      Whenever all locks are free, the total is the initial one plus what transfers from an
      account to itself have created: if no amount is negative, it is conserved if and only if
      no committed transfer from an account to itself has an amount other than zero. */
  lemma TotalIsConserved(s0: State, acts: seq<nat>, accounts: seq<Account>)
    requires Init(s0) && Legal(TRANSFERS, s0, acts)
    requires NoDuplicates(accounts) && (forall a :: a in accounts <==> a in s0.balances)
    ensures var s := After(TRANSFERS, s0, acts); var m := Serial(s.log, s0.balances);
            && Covered(s.log, s0.balances) && m.Keys == s.balances.Keys
            && (forall a :: a in m && a !in s.owner ==> s.balances[a] == m[a])
            && (s.owner == map[] ==>
                  && s.balances == m
                  && Sum(accounts, s.balances) == Sum(accounts, s0.balances) + Created(s.log)
                  && (NoNegativeAmount(s0) ==>
                        (Sum(accounts, s.balances) == Sum(accounts, s0.balances) <==>
                         forall e :: e in s.log && e.x.src == e.x.dst ==> e.x.amount == 0)))
  {
    InvAlongRun(s0, acts);
    hide Step, Enabled, Serial, Sum, Inv, Covered, Created, Legal, After;
    var s := After(TRANSFERS, s0, acts);
    UnlockedIsSerial(s, s0.balances);
    LogTotal(accounts, s.log, s0.balances);
    if NoNegativeAmount(s0) {
      forall e | e in s.log
        ensures e.x.amount >= 0
      {
        CommittedWasGiven(s0, acts, e);
      }
      NothingCreated(s.log);
    }
  }

  lemma UnlockedIsSerial(s: State, m0: Balances)
    requires Inv(s, m0)
    ensures var m := Serial(s.log, m0);
            m.Keys == s.balances.Keys && (forall a :: a in m && a !in s.owner ==> s.balances[a] == m[a])
    ensures Covered(s.log, m0)
    ensures s.owner == map[] ==> s.balances == Serial(s.log, m0)
  {
    hide ThreadOk, Serial, Covered;
    var m := Serial(s.log, m0);
    forall a | a in m && a !in s.owner
      ensures s.balances[a] == m[a]
    {
      assert s.balances[a] == Expected(s, m, a);
    }
  }

  lemma {:induction false} NothingCreated(log: seq<Entry>)
    requires forall e :: e in log ==> e.x.amount >= 0
    ensures Created(log) >= 0
    ensures Created(log) == 0 <==> forall e :: e in log && e.x.src == e.x.dst ==> e.x.amount == 0
  {
    if log != [] {
      var n := |log| - 1;
      assert log == log[..n] + [log[n]];
      NothingCreated(log[..n]);
    }
  }

  /** In every run: no commit has overdrawn an account if and only if each committed transfer
      was safe on the balances that it found. */
  lemma OverdraftIff(s0: State, acts: seq<nat>)
    requires Init(s0) && Legal(TRANSFERS, s0, acts) && NoneOverdrawn(s0.balances)
    ensures var log := After(TRANSFERS, s0, acts).log;
            NeverOverdrawn(log, s0.balances) <==> AllSafe(log, s0.balances)
  {
    InvAlongRun(s0, acts);
    NeverOverdrawnIff(After(TRANSFERS, s0, acts).log, s0.balances);
  }

  predicate AscendingTodo(s0: State) {
    forall t, x :: 0 <= t < |s0.threads| && x in s0.threads[t].todo ==> x.src < x.dst && x.amount >= 0
  }

  lemma {:induction false} LogOfKeepsEntries(log: seq<Entry>, e: Entry)
    requires e in log
    ensures e.x in LogOf(log, e.thread)
  {
    var n := |log| - 1;
    assert log == log[..n] + [log[n]];
    if e != log[n] { LogOfKeepsEntries(log[..n], e); }
  }

  lemma {:induction false} SucceededAreGiven(xs: seq<Transfer>, results: seq<Result>)
    requires |results| <= |xs|
    ensures forall x :: x in Succeeded(xs, results) ==> x in xs
  {
    if results != [] { SucceededAreGiven(xs, results[..|results| - 1]); }
  }

  /** A committed transfer is one that its thread was given. */
  lemma CommittedWasGiven(s0: State, acts: seq<nat>, e: Entry)
    requires Init(s0) && Legal(TRANSFERS, s0, acts) && e in After(TRANSFERS, s0, acts).log
    ensures e.thread < |s0.threads| && e.x in s0.threads[e.thread].todo
  {
    var s := After(TRANSFERS, s0, acts);
    ThreadsInLog(s0, acts);
    var xs := s0.threads[e.thread].todo;
    SuccessIffCommitted(s0, acts, e.thread);
    LogOfKeepsEntries(s.log, e);
    SucceededAreGiven(xs, s.threads[e.thread].results);
    if Returning(s.threads[e.thread]) { assert s.threads[e.thread].todo[0] in xs; }
  }

  lemma ThreadsInLog(s0: State, acts: seq<nat>)
    requires Init(s0) && Legal(TRANSFERS, s0, acts)
    ensures forall e :: e in After(TRANSFERS, s0, acts).log ==> e.thread < |s0.threads|
  {
    var inv := (s: State) => |s.threads| == |s0.threads| && forall e :: e in s.log ==> e.thread < |s0.threads|;
    forall s: State, u: nat | inv(s) && TRANSFERS.enabled(s, u)
      ensures inv(TRANSFERS.step(s, u))
    {
      ResultStep(s, u);
    }
    hide Step, Enabled;
    InvariantAlongRun(TRANSFERS, inv, s0, acts);
  }

  /** If every transfer goes from a smaller to a larger id: no account is ever overdrawn by a
      commit, and each transfer that returns success debits and credits exactly its amount.
      So whenever all locks are free, each balance is the initial one plus what the
      successful transfers owe to it, and those, thread by thread, are the ones that
      returned success. */
  lemma AscendingTransfersAreExact(s0: State, acts: seq<nat>)
    requires Init(s0) && Legal(TRANSFERS, s0, acts) && NoneOverdrawn(s0.balances) && AscendingTodo(s0)
    ensures var s := After(TRANSFERS, s0, acts);
            && NeverOverdrawn(s.log, s0.balances) && AllExact(s.log, s0.balances)
            && |s.threads| == |s0.threads|
            && (s.owner == map[] ==>
                  && NoneOverdrawn(s.balances) && s.balances.Keys == s0.balances.Keys
                  && (forall a :: a in s.balances ==> s.balances[a] == s0.balances[a] + Net(s.log, a))
                  && forall t :: 0 <= t < |s.threads| ==>
                       |s.threads[t].results| <= |s0.threads[t].todo|
                       && LogOf(s.log, t) == Succeeded(s0.threads[t].todo, s.threads[t].results))
  {
    var s, m0 := After(TRANSFERS, s0, acts), s0.balances;
    InvAlongRun(s0, acts);
    AscendingLog(s0, acts);
    NeverOverdrawnIff(s.log, m0);
    ThreadsStay(s0, acts);
    if s.owner == map[] {
      UnlockedIsSerial(s, m0);
      assert s.log[..|s.log|] == s.log;
      forall a | a in s.balances
        ensures s.balances[a] == m0[a] + Net(s.log, a)
      {
        ExactLogPays(s.log, m0, a);
      }
      forall t | 0 <= t < |s.threads|
        ensures |s.threads[t].results| <= |s0.threads[t].todo|
        ensures LogOf(s.log, t) == Succeeded(s0.threads[t].todo, s.threads[t].results)
      {
        SuccessIffCommitted(s0, acts, t);
        NobodyReturns(s, m0, t);
      }
    }
  }

  /** Who is about to return success still holds a lock. */
  lemma NobodyReturns(s: State, m0: Balances, t: nat)
    requires Inv(s, m0) && s.owner == map[] && t < |s.threads|
    ensures !Returning(s.threads[t])
  {
    assert ThreadOk(s, Serial(s.log, m0), t) && Locking.HeldBy(s.owner, t) == {};
    ReturningHolds(s.threads[t]);
  }

  lemma ReturningHolds(th: Thread)
    ensures Returning(th) ==> First(th.todo[0]) in Held(th)
  {
  }

  lemma AscendingLog(s0: State, acts: seq<nat>)
    requires Init(s0) && Legal(TRANSFERS, s0, acts) && AscendingTodo(s0)
    ensures var log := After(TRANSFERS, s0, acts).log;
            AllSafe(log, s0.balances) || !NoneOverdrawn(s0.balances)
    ensures AllExact(After(TRANSFERS, s0, acts).log, s0.balances)
  {
    var log, m0 := After(TRANSFERS, s0, acts).log, s0.balances;
    InvAlongRun(s0, acts);
    hide Step, Enabled, Serial, Commit;
    forall e | e in log
      ensures e.x.src < e.x.dst && e.x.amount >= 0
    {
      CommittedWasGiven(s0, acts, e);
    }
    forall i | 0 <= i < |log|
      ensures Exact(Serial(log[..i], m0), log[i].x)
    {
      CommitExactIff(Serial(log[..i], m0), log[i].x);
    }
    if NoneOverdrawn(m0) {
      forall i | 0 <= i < |log|
        ensures CanPay(Serial(log[..i], m0), log[i].x) && Safe(Serial(log[..i], m0), log[i].x)
      {
        AscendingIsSafe(log, m0, i);
        CommitOverdrawsIff(Serial(log[..i], m0), log[i].x);
      }
    }
  }

  lemma {:induction false} AscendingIsSafe(log: seq<Entry>, m0: Balances, n: nat)
    requires Covered(log, m0) && NoneOverdrawn(m0) && n <= |log|
    requires forall e :: e in log ==> e.x.src < e.x.dst && e.x.amount >= 0
    ensures NoneOverdrawn(Serial(log[..n], m0))
    decreases n
  {
    if n > 0 {
      hide Serial, Commit, NoneOverdrawn;
      AscendingIsSafe(log, m0, n - 1);
      NextSerial(log, m0, n - 1);
      assert log[n - 1] in log;
      CommitOverdrawsIff(Serial(log[..n - 1], m0), log[n - 1].x);
    }
  }

  // ----------------------------------------------------------- a transfer by itself

  /** One thread, one transfer. */
  function Solo(m: Balances, x: Transfer): State {
    State(m, map a | a in m :: 0, map[], [Thread([x], [], 0, SnapVersion1, 0, 0, 0, 0, 0, 0)], [])
  }

  const SOLO_PCS: seq<Pc> :=
    [SnapVersion1, SnapBalance1, SnapVersion2, SnapBalance2, Decide, Lock1, Lock2, Validate, Fetch,
     Set1, Set2, Inc1, Inc2, Unlock2(true), Unlock1(true), SnapVersion1]

  /** The same after `k` steps, if the payer can pay. */
  function SoloThread(m: Balances, x: Transfer, k: nat): Thread
    requires CanPay(m, x) && k <= 15
  {
    var f, g := m[First(x)], m[Second(x)];
    Thread(if k < 15 then [x] else [], if k < 15 then [] else [Success], 0, SOLO_PCS[k],
           0, if k >= 2 then f else 0, 0, if k >= 4 then g else 0, if k >= 9 then f else 0, if k >= 9 then g else 0)
  }

  function SoloOwner(x: Transfer, k: nat): Locking.Owner {
    if 6 <= k <= 14 then
      if First(x) == Second(x) || k == 6 || k == 14 then map[First(x) := 0] else map[First(x) := 0, Second(x) := 0]
    else map[]
  }

  function SoloVersions(m: Balances, x: Transfer, k: nat): map<Account, nat>
    requires CanPay(m, x)
  {
    var v: map<Account, nat> := map a | a in m :: 0;
    var v1 := v[First(x) := 1];
    if k <= 11 then v else if k == 12 then v1 else v1[Second(x) := v1[Second(x)] + 1]
  }

  function SoloAfter(m: Balances, x: Transfer, k: nat): State
    requires CanPay(m, x) && k <= 15
  {
    State(if k < 10 then m else if k == 10 then m[x.src := m[First(x)] - x.amount] else Commit(m, x),
          SoloVersions(m, x, k), SoloOwner(x, k), [SoloThread(m, x, k)], if k <= 10 then [] else [Entry(0, x)])
  }

  lemma SoloReads(m: Balances, x: Transfer, k: nat)
    requires CanPay(m, x) && k < 5
    ensures Enabled(SoloAfter(m, x, k), 0) && Step(SoloAfter(m, x, k), 0) == SoloAfter(m, x, k + 1)
  {
    var s, s' := Step(SoloAfter(m, x, k), 0), SoloAfter(m, x, k + 1);
    assert s.threads[0] == s'.threads[0];
  }

  lemma SoloLocks(m: Balances, x: Transfer, k: nat)
    requires CanPay(m, x) && 5 <= k < 9
    ensures Enabled(SoloAfter(m, x, k), 0) && Step(SoloAfter(m, x, k), 0) == SoloAfter(m, x, k + 1)
  {
    VersionsKnown(m, x, k);
    hide Commit;
    var s, s' := Step(SoloAfter(m, x, k), 0), SoloAfter(m, x, k + 1);
    assert s.threads[0] == s'.threads[0];
    assert s.owner == s'.owner;
  }

  lemma BothLocked(x: Transfer, k: nat)
    requires 7 <= k < 13
    ensures SoloOwner(x, k + 1) == SoloOwner(x, k)
  {
  }

  lemma VersionsKnown(m: Balances, x: Transfer, k: nat)
    requires CanPay(m, x) && k != 11 && k != 12
    ensures SoloVersions(m, x, k).Keys == m.Keys && SoloVersions(m, x, k + 1) == SoloVersions(m, x, k)
  {
  }

  lemma WriteStep(s: State, x: Transfer)
    requires |s.threads| == 1 && s.threads[0].todo == [x] && Known(s, x)
    requires s.threads[0].pc == Set1 || s.threads[0].pc == Set2
    ensures var th := s.threads[0];
            && Enabled(s, 0)
            && Step(s, 0) == if th.pc == Set1 then
                 State(s.balances[x.src := th.fBal - x.amount], s.versions, s.owner, [th.(pc := Set2)], s.log)
               else
                 State(s.balances[x.dst := th.sBal + x.amount], s.versions, s.owner, [th.(pc := Inc1)], s.log + [Entry(0, x)])
  {
    assert s.threads == [s.threads[0]];
  }

  lemma SoloWrites(m: Balances, x: Transfer, k: nat)
    requires CanPay(m, x) && 9 <= k < 11
    ensures Enabled(SoloAfter(m, x, k), 0) && Step(SoloAfter(m, x, k), 0) == SoloAfter(m, x, k + 1)
  {
    VersionsKnown(m, x, k);
    BothLocked(x, k);
    WriteStep(SoloAfter(m, x, k), x);
    hide SoloVersions, SoloOwner, Step, Enabled;
    assert [] + [Entry(0, x)] == [Entry(0, x)];
  }

  lemma SoloIncrements(m: Balances, x: Transfer, k: nat)
    requires CanPay(m, x) && 11 <= k < 13
    ensures Enabled(SoloAfter(m, x, k), 0) && Step(SoloAfter(m, x, k), 0) == SoloAfter(m, x, k + 1)
  {
    hide Commit, SoloOwner;
    BothLocked(x, k);
    var s, s' := Step(SoloAfter(m, x, k), 0), SoloAfter(m, x, k + 1);
    CommitKeys(m, x);
    assert s.threads[0] == s'.threads[0];
    assert s.versions == s'.versions;
  }

  lemma CommitKeys(m: Balances, x: Transfer)
    ensures Commit(m, x).Keys == m.Keys
  {
  }

  lemma SoloReturns(m: Balances, x: Transfer, k: nat)
    requires CanPay(m, x) && 13 <= k < 15
    ensures Enabled(SoloAfter(m, x, k), 0) && Step(SoloAfter(m, x, k), 0) == SoloAfter(m, x, k + 1)
  {
    hide SoloVersions, Commit;
    VersionsKnown(m, x, k);
    CommitKeys(m, x);
    var s, s' := Step(SoloAfter(m, x, k), 0), SoloAfter(m, x, k + 1);
    assert [x][1..] == [] && [] + [Success] == [Success];
    assert s.threads[0] == s'.threads[0];
    assert s.owner == s'.owner;
  }

  lemma {:induction false} SoloRun(m: Balances, x: Transfer, k: nat) returns (acts: seq<nat>)
    requires CanPay(m, x) && k <= 15
    ensures Legal(TRANSFERS, Solo(m, x), acts) && After(TRANSFERS, Solo(m, x), acts) == SoloAfter(m, x, k)
  {
    if k == 0 {
      acts := [];
    } else {
      acts := SoloRun(m, x, k - 1);
      if k <= 5 { SoloReads(m, x, k - 1); }
      else if k <= 9 { SoloLocks(m, x, k - 1); }
      else if k <= 11 { SoloWrites(m, x, k - 1); }
      else if k <= 13 { SoloIncrements(m, x, k - 1); }
      else { SoloReturns(m, x, k - 1); }
      hide SoloAfter, Step, Enabled, Solo;
      Extend(TRANSFERS, Solo(m, x), acts, 0);
      acts := acts + [0];
    }
  }

  /** A transfer that the payer can pay, run by itself, commits. */
  lemma SoloCommits(m: Balances, x: Transfer) returns (acts: seq<nat>)
    requires CanPay(m, x)
    ensures Init(Solo(m, x)) && Legal(TRANSFERS, Solo(m, x), acts)
    ensures var s := After(TRANSFERS, Solo(m, x), acts);
            && s.balances == Commit(m, x) && s.owner == map[] && s.log == [Entry(0, x)]
            && |s.threads| == 1 && s.threads[0].todo == [] && s.threads[0].results == [Success]
  {
    acts := SoloRun(m, x, 15);
  }

  /** So the conditions above are met or violated by real runs: for any balances, a transfer
      that is not safe has a run that ends with success, all locks free, and an account
      overdrawn; and one from an account to itself has a run that creates its amount. */
  lemma UnsafeTransferOverdraws(m: Balances, x: Transfer) returns (acts: seq<nat>)
    requires NoneOverdrawn(m) && CanPay(m, x) && !Safe(m, x)
    ensures Init(Solo(m, x)) && Legal(TRANSFERS, Solo(m, x), acts)
    ensures var s := After(TRANSFERS, Solo(m, x), acts);
            s.owner == map[] && |s.threads| == 1 && s.threads[0].results == [Success] && !NoneOverdrawn(s.balances)
  {
    acts := SoloCommits(m, x);
    CommitOverdrawsIff(m, x);
  }

  lemma SelfTransferCreates(m: Balances, x: Transfer, accounts: seq<Account>) returns (acts: seq<nat>)
    requires NoDuplicates(accounts) && (forall a :: a in accounts <==> a in m) && CanPay(m, x) && x.src == x.dst
    ensures Init(Solo(m, x)) && Legal(TRANSFERS, Solo(m, x), acts)
    ensures var s := After(TRANSFERS, Solo(m, x), acts);
            && s.owner == map[] && |s.threads| == 1 && s.threads[0].results == [Success]
            && Sum(accounts, s.balances) == Sum(accounts, m) + x.amount
  {
    acts := SoloCommits(m, x);
    CommitTotalIff(accounts, m, x);
  }

  /** The second account, with 100, pays 50 to the first, with nothing: a run of the program
      ends with success and -50 on the payer's account. */
  lemma CrossedCommitOverdraws() returns (acts: seq<nat>)
    ensures var m: Balances := map[0 := 0, 1 := 100]; var x := Transfer(1, 0, 50);
            && Init(Solo(m, x)) && Legal(TRANSFERS, Solo(m, x), acts)
            && var s := After(TRANSFERS, Solo(m, x), acts);
            && s.owner == map[] && |s.threads| == 1 && s.threads[0].results == [Success]
            && s.balances == map[0 := 150, 1 := -50]
  {
    var m: Balances, x := map[0 := 0, 1 := 100], Transfer(1, 0, 50);
    acts := SoloCommits(m, x);
    assert Commit(m, x) == map[0 := 150, 1 := -50];
  }
}
