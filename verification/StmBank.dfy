/** The bank of python/stm/stm_model.py:207-225, run by any number of threads over the
  transactions of module Stm. */
module StmBank {
  import opened Money
  import opened Runs
  import opened Stm
  import opened StmProgress

  datatype Transfer = Transfer(src: Id, dst: Id, amount: int, ledger: Id)

  /** The body that stm_bank_transfer passes to atomically(). */
  function TransferOp(x: Transfer, seen: seq<int>): Op {
    if |seen| == 0 then Read(x.src)
    else if |seen| == 1 then Read(x.dst)
    else if |seen| == 2 then if seen[0] < x.amount then FlagRetry else Write(x.src, seen[0] - x.amount)
    else if |seen| == 3 then if seen[0] < x.amount then Return else Write(x.dst, seen[1] + x.amount)
    else if |seen| == 4 then Read(x.ledger)
    else if |seen| == 5 then Write(x.ledger, seen[4] + 1)
    else Return
  }

  ghost function BodyOf(x: Transfer): Body {
    seen => TransferOp(x, seen)
  }

  /** Which TVars a transfer can have read after |seen| operations. */
  ghost predicate ReadSoFar(x: Transfer, v: View) {
    && (|v.seen| == 0 ==> v.trace == [])
    && (|v.seen| == 1 ==> forall e :: e in v.trace ==> e.0 == x.src)
    && (2 <= |v.seen| <= 4 ==> forall e :: e in v.trace ==> e.0 == x.src || e.0 == x.dst)
  }

  lemma {:induction false} FeedKeepsReadSoFar(x: Transfer, v: View, currents: seq<int>)
    requires ReadSoFar(x, v)
    ensures ReadSoFar(x, Feed(BodyOf(x), v, currents))
    decreases |currents|
  {
    if currents != [] {
      FeedKeepsReadSoFar(x, Advance(v, BodyOf(x)(v.seen), currents[0]), currents[1..]);
    }
  }

  lemma TransferReadsOnce(x: Transfer)
    requires x.src != x.dst && x.ledger != x.src && x.ledger != x.dst
    ensures ReadsOnce(BodyOf(x))
  {
    forall currents
      ensures NoReread(BodyOf(x), Feed(BodyOf(x), BLANK, currents))
    {
      FeedKeepsReadSoFar(x, BLANK, currents);
    }
  }

  ghost predicate ThreeTVars(x: Transfer, m: Values) {
    && x.src in m && x.dst in m && x.ledger in m
    && x.src != x.dst && x.ledger != x.src && x.ledger != x.dst
  }

  /** `m` with the money moved and the transfer counted. */
  ghost function Transferred(x: Transfer, m: Values): Values
    requires ThreeTVars(x, m)
  {
    m[x.src := m[x.src] - x.amount][x.dst := m[x.dst] + x.amount][x.ledger := m[x.ledger] + 1]
  }

  /** How far a transfer has got after `n` operations run alone on `m`. */
  ghost predicate Progress(x: Transfer, m: Values, n: nat, v: View)
    requires ThreeTVars(x, m)
  {
    var covered := m[x.src] >= x.amount;
    && |v.seen| == (if covered then if n <= 6 then n else 6 else if n <= 3 then n else 3)
    && (|v.seen| >= 1 ==> v.seen[0] == m[x.src])
    && (|v.seen| >= 2 ==> v.seen[1] == m[x.dst])
    && (|v.seen| >= 5 ==> v.seen[4] == m[x.ledger])
    && (v.flagged <==> !covered && |v.seen| == 3)
    && v.writeSet ==
         (if covered && |v.seen| >= 3 then map[x.src := m[x.src] - x.amount] else map[])
         + (if |v.seen| >= 4 then map[x.dst := m[x.dst] + x.amount] else map[])
         + (if |v.seen| >= 6 then map[x.ledger := m[x.ledger] + 1] else map[])
  }

  lemma ProgressStep(x: Transfer, m: Values, n: nat, v: View)
    requires ThreeTVars(x, m) && Progress(x, m, n, v)
    ensures Progress(x, m, n + 1, Advance(v, TransferOp(x, v.seen), Fetch(TransferOp(x, v.seen), m)))
  {
  }

  lemma {:induction false} AloneProgresses(x: Transfer, m: Values, n: nat)
    requires ThreeTVars(x, m)
    ensures Progress(x, m, n, Alone(BodyOf(x), m, n))
  {
    hide Progress, TransferOp, Advance, Fetch;
    if n == 0 {
      NoProgress(x, m);
    } else {
      AloneProgresses(x, m, n - 1);
      ProgressStep(x, m, n - 1, Alone(BodyOf(x), m, n - 1));
    }
  }

  lemma NoProgress(x: Transfer, m: Values)
    requires ThreeTVars(x, m)
    ensures Progress(x, m, 0, BLANK)
  {
  }

  /** The writes of a transfer made on `m`. */
  ghost function Changes(x: Transfer, m: Values): Values
    requires ThreeTVars(x, m)
  {
    map[x.src := m[x.src] - x.amount, x.dst := m[x.dst] + x.amount, x.ledger := m[x.ledger] + 1]
  }

  lemma ReturnsAfter(x: Transfer, m: Values, n: nat)
    requires ThreeTVars(x, m)
    ensures Returned(BodyOf(x), Alone(BodyOf(x), m, n)) <==> n >= 6 && m[x.src] >= x.amount
    ensures n >= 6 && m[x.src] >= x.amount ==> Alone(BodyOf(x), m, n).writeSet == Changes(x, m)
  {
    AloneProgresses(x, m, n);
    hide Alone;
  }

  /** Alone on `m`, a transfer comes to its end exactly when the payer has the amount, and it
      has then taken the amount from the payer, given it to the payee and counted one. */
  lemma TransferReturnsIff(x: Transfer, m: Values)
    requires ThreeTVars(x, m)
    ensures (exists n :: Returned(BodyOf(x), Alone(BodyOf(x), m, n))) <==> m[x.src] >= x.amount
    ensures forall n :: Returned(BodyOf(x), Alone(BodyOf(x), m, n)) ==> Alone(BodyOf(x), m, n).writeSet == Changes(x, m)
  {
    hide Alone, Returned, BodyOf, Changes;
    ReturnsAfter(x, m, 6);
    forall n | Returned(BodyOf(x), Alone(BodyOf(x), m, n))
      ensures m[x.src] >= x.amount && Alone(BodyOf(x), m, n).writeSet == Changes(x, m)
    {
      ReturnsAfter(x, m, n);
    }
  }

  /** Every committed transfer was covered, and did just that. */
  lemma CommittedTransferMoves(x: Transfer, m: Values, e: Event)
    requires ThreeTVars(x, m) && SerialAt(e, m) && e.Committed? && e.body == BodyOf(x)
    ensures m[x.src] >= x.amount && Execute(m, e) == Transferred(x, m)
  {
    hide Alone, BodyOf;
    ReturnsAfter(x, m, |e.view.seen|);
  }

  // ------------------------------------------------------------------- the bank

  ghost function Commits(log: seq<Event>): nat {
    if log == [] then 0
    else Commits(log[..|log| - 1]) + if log[|log| - 1].Committed? then 1 else 0
  }

  ghost predicate Among(x: Transfer, accounts: seq<Id>, ledger: Id) {
    && x.src in accounts && x.dst in accounts && x.src != x.dst
    && x.amount >= 0 && x.ledger == ledger
  }

  ghost predicate IsTransfer(body: Body, accounts: seq<Id>, ledger: Id) {
    exists x :: BodyOf(x) == body && Among(x, accounts, ledger)
  }

  ghost predicate BankOk(accounts: seq<Id>, ledger: Id, m: Values) {
    && NoDuplicates(accounts) && ledger !in accounts && ledger in m
    && forall a :: a in accounts ==> a in m && m[a] >= 0
  }

  /** One committed transfer keeps the books. */
  lemma TransferKeepsBank(accounts: seq<Id>, ledger: Id, m: Values, e: Event)
    requires BankOk(accounts, ledger, m) && SerialAt(e, m)
    requires e.Committed? ==> IsTransfer(e.body, accounts, ledger)
    ensures BankOk(accounts, ledger, Execute(m, e))
    ensures Sum(accounts, Execute(m, e)) == Sum(accounts, m)
    ensures Execute(m, e)[ledger] == m[ledger] + if e.Committed? then 1 else 0
  {
    if e.Committed? {
      var x :| BodyOf(x) == e.body && Among(x, accounts, ledger);
      CommittedTransferMoves(x, m, e);
      SumAfterMove(accounts, m, Execute(m, e), x.src, x.dst, x.amount);
    } else {
      SumDependsOnAccounts(accounts, m, Execute(m, e));
    }
  }

  lemma {:induction false} LogKeepsBank(accounts: seq<Id>, ledger: Id, log: seq<Event>, m0: Values)
    requires BankOk(accounts, ledger, m0) && AllSerial(log, m0)
    requires forall e :: e in log && e.Committed? ==> IsTransfer(e.body, accounts, ledger)
    ensures BankOk(accounts, ledger, Executed(log, m0))
    ensures Sum(accounts, Executed(log, m0)) == Sum(accounts, m0)
    ensures Executed(log, m0)[ledger] == m0[ledger] + Commits(log)
  {
    if log != [] {
      var n := |log| - 1;
      forall i | 0 <= i < n
        ensures SerialAt(log[..n][i], Executed(log[..n][..i], m0))
      {
        assert log[..n][..i] == log[..i];
      }
      LogKeepsBank(accounts, ledger, log[..n], m0);
      TransferKeepsBank(accounts, ledger, Executed(log[..n], m0), log[n]);
    }
  }

  /** Whenever the commit lock is free: the total is the initial one, no account is
      overdrawn, and the ledger has counted exactly the committed transfers. */
  lemma BankInvariant(s0: State, acts: seq<Action>, accounts: seq<Id>, ledger: Id)
    requires Init(s0) && Legal(STM, s0, acts) && BankOk(accounts, ledger, ValuesOf(s0.mem))
    requires forall t, body :: 0 <= t < |s0.threads| && body in s0.threads[t].program ==>
               IsTransfer(body, accounts, ledger)
    requires After(STM, s0, acts).holder == NOBODY
    ensures var s := After(STM, s0, acts); var m := ValuesOf(s.mem);
            && BankOk(accounts, ledger, m)
            && Sum(accounts, m) == Sum(accounts, ValuesOf(s0.mem))
            && m[ledger] == s0.mem[ledger].value + Commits(s.log)
  {
    forall t, body | 0 <= t < |s0.threads| && body in s0.threads[t].program
      ensures CommitsConsistent(body)
    {
      assert IsTransfer(body, accounts, ledger);
      var x :| BodyOf(x) == body && Among(x, accounts, ledger);
      TransferReadsOnce(x);
      ReadsOnceCommitsConsistent(body);
    }
    Serializable(s0, acts);
    InvAlongRun(s0, acts);
    LogKeepsBank(accounts, ledger, After(STM, s0, acts).log, ValuesOf(s0.mem));
  }

  // ------------------------------------------------- which transfers can commit

  lemma TransferReadsRegistered(x: Transfer, m: Values)
    requires ThreeTVars(x, m)
    ensures ReadsRegistered(BodyOf(x), m, 6)
  {
    forall k | 0 <= k < 6 && ReadsTVar(BodyOf(x), Alone(BodyOf(x), m, k))
      ensures BodyOf(x)(Alone(BodyOf(x), m, k).seen).id in m
    {
      AloneProgresses(x, m, k);
      hide Alone;
    }
  }

  /** From any moment at which the commit lock is free, a thread that is about to run a covered
      transfer can commit it by itself. */
  lemma CoveredTransferCommits(s: State, t: Thread, x: Transfer) returns (acts: seq<Action>)
    requires t < |s.threads| == |s.foreign| && s.holder == NOBODY && ThreeTVars(x, ValuesOf(s.mem))
    requires var l := s.threads[t]; l.phase.Start? && l.done < |l.program| && l.program[l.done] == BodyOf(x)
    requires s.mem[x.src].value >= x.amount
    ensures Legal(STM, s, acts)
    ensures var s' := After(STM, s, acts);
            && |s'.threads| == |s.threads| && s'.holder == NOBODY && s'.threads[t].done == s.threads[t].done + 1
            && ValuesOf(s'.mem) == Transferred(x, ValuesOf(s.mem))
  {
    var m := ValuesOf(s.mem);
    TransferReadsRegistered(x, m);
    ReturnsAfter(x, m, 6);
    hide Alone, BodyOf, Returned, ReadsRegistered;
    var s';
    acts, s' := CommitsAlone(s, [], s, t, 6);
    PublishedValues(s.mem, Changes(x, m));
    assert Overwrite(m, Changes(x, m)) == Transferred(x, m);
  }

  /** One thread, which has this one transfer to make. */
  ghost predicate OnlyTransfer(s0: State, x: Transfer) {
    Init(s0) && |s0.threads| == 1 && s0.threads[0].program == [BodyOf(x)] && ThreeTVars(x, ValuesOf(s0.mem))
  }

  lemma {:induction false} OnlyTransferLog(log: seq<Event>, m0: Values, x: Transfer)
    requires ThreeTVars(x, m0) && AllSerial(log, m0) && |CommittedBy(log, 0)| <= 1
    requires forall e :: e in log && e.Committed? ==> e.thread == 0 && e.body == BodyOf(x)
    ensures var m := Executed(log, m0);
            && ThreeTVars(x, m)
            && (CommittedBy(log, 0) != [] ==> m0[x.src] >= x.amount)
            && forall id :: id in {x.src, x.dst, x.ledger} ==>
                 m[id] == if CommittedBy(log, 0) == [] then m0[id] else Transferred(x, m0)[id]
  {
    if log != [] {
      var n := |log| - 1;
      forall i | 0 <= i < n
        ensures SerialAt(log[..n][i], Executed(log[..n][..i], m0))
      {
        assert log[..n][..i] == log[..i];
      }
      OnlyTransferLog(log[..n], m0, x);
      if log[n].Committed? {
        CommittedTransferMoves(x, Executed(log[..n], m0), log[n]);
      }
    }
  }

  /** Every run of it: the transfer commits only if it is covered, and while the lock is free
      the three TVars are as before or as after it. */
  lemma OnlyTransferRuns(s0: State, acts: seq<Action>, x: Transfer)
    requires OnlyTransfer(s0, x) && Legal(STM, s0, acts)
    ensures var s, m0 := After(STM, s0, acts), ValuesOf(s0.mem);
            && |s.threads| == 1 && s.threads[0].done <= 1
            && (s.threads[0].done == 1 ==> s.holder == NOBODY && m0[x.src] >= x.amount)
            && (s.holder == NOBODY ==> forall id :: id in {x.src, x.dst, x.ledger} ==>
                  id in s.mem && s.mem[id].value == if s.threads[0].done == 0 then m0[id] else Transferred(x, m0)[id])
  {
    TransferReadsOnce(x);
    ReadsOnceCommitsConsistent(BodyOf(x));
    Serializable(s0, acts);
    InvAlongRun(s0, acts);
    var s := After(STM, s0, acts);
    assert LocalOk(s, 0);
    OnlyTransferLog(s.log, ValuesOf(s0.mem), x);
  }

  ghost predicate Finishes(s0: State, acts: seq<Action>) {
    && Legal(STM, s0, acts)
    && var s := After(STM, s0, acts);
    && |s.threads| == 1 && s.threads[0].done == 1
  }

  /** The transfer has a run to its end exactly when the payer has the amount. */
  lemma TransferFinishesIff(s0: State, x: Transfer)
    requires OnlyTransfer(s0, x)
    ensures (exists acts :: Finishes(s0, acts)) <==> s0.mem[x.src].value >= x.amount
  {
    if s0.mem[x.src].value >= x.amount {
      var acts := CoveredTransferCommits(s0, 0, x);
      assert Finishes(s0, acts);
    }
    forall acts | Finishes(s0, acts)
      ensures s0.mem[x.src].value >= x.amount
    {
      OnlyTransferRuns(s0, acts, x);
    }
  }
}
