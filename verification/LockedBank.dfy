/** python/shared_memory_lock/bank_account.py: accounts with a lock each, any number of
  threads depositing, withdrawing, reading and transferring.

  Reading a balance, testing it and writing it back are separate steps: what makes an
  operation atomic is the locks it holds, and that is what is proved. */
module LockedBank {
  import opened Locking
  import opened Money
  import opened Options
  import opened Runs

  /** Accounts are numbered in the order of their account_id; an account's lock has its number. */
  type Balances = map<Account, int>

  datatype Op =
    | Deposit(a: Account, amount: int)
    | Withdraw(a: Account, amount: int)
    | GetBalance(a: Account)
    | Transfer(src: Account, dst: Account, amount: int)

  datatype Outcome = Done | Balance(value: int) | ValueError

  // ----------------------------------------------------------- one at a time

  /** The tests that raise ValueError. */
  predicate Accepted(m: Balances, op: Op)
    requires Uses(op) <= m.Keys
  {
    match op
    case Deposit(_, amount) => amount > 0
    case Withdraw(a, amount) => amount > 0 && amount <= m[a]
    case GetBalance(_) => true
    case Transfer(src, _, amount) => amount > 0 && m[src] >= amount
  }

  function Uses(op: Op): set<Account> {
    if op.Transfer? then {op.src, op.dst} else {op.a}
  }

  function Apply(m: Balances, op: Op): Balances
    requires Uses(op) <= m.Keys
  {
    if !Accepted(m, op) then m
    else match op
      case Deposit(a, amount) => m[a := m[a] + amount]
      case Withdraw(a, amount) => m[a := m[a] - amount]
      case GetBalance(_) => m
      case Transfer(src, dst, amount) => m[src := m[src] - amount][dst := m[dst] + amount]
  }

  function Result(m: Balances, op: Op): Outcome
    requires Uses(op) <= m.Keys
  {
    if !Accepted(m, op) then ValueError
    else if op.GetBalance? then Balance(m[op.a])
    else Done
  }

  /** What an operation promises about the balances before and after it and about its outcome,
      in numbers: it fails exactly when the amount is not positive or would leave the payer
      with less than nothing, and then changes nothing. */
  ghost predicate Promised(m: Balances, op: Op, outcome: Outcome, m': Balances)
    requires Uses(op) <= m.Keys
  {
    && m'.Keys == m.Keys
    && (outcome == ValueError ==> m' == m)
    && (forall a :: a in m && a !in Uses(op) ==> m'[a] == m[a])
    && match op
       case Deposit(a, amount) =>
         && (outcome == ValueError <==> amount <= 0)
         && (amount >= 1 ==> outcome == Done && m'[a] - m[a] == amount)
       case Withdraw(a, amount) =>
         && (outcome == ValueError <==> amount <= 0 || m[a] - amount < 0)
         && (amount >= 1 && m[a] - amount >= 0 ==> outcome == Done && m[a] - m'[a] == amount)
       case GetBalance(a) => outcome == Balance(m[a]) && m' == m
       case Transfer(src, dst, amount) =>
         && (outcome == ValueError <==> amount <= 0 || m[src] - amount < 0)
         && (amount >= 1 && m[src] - amount >= 0 && src != dst ==>
               outcome == Done && m[src] - m'[src] == amount && m'[dst] - m[dst] == amount)
  }

  lemma KeepsPromise(m: Balances, op: Op)
    requires Uses(op) <= m.Keys
    ensures Promised(m, op, Result(m, op), Apply(m, op))
  {
  }

  // ------------------------------------------------------------ as it is executed

  datatype Act =
    | Check                            // the tests of the operation
    | Load(a: Account)                 // read a balance into a temporary
    | Store(a: Account, delta: int)    // write the temporary, changed, back
    | Log                              // the operation is complete (history)

  function First(op: Op): Account {
    if op.Transfer? then if op.src < op.dst then op.src else op.dst else op.a
  }

  function Second(op: Op): Account
    requires op.Transfer?
  {
    if op.src < op.dst then op.dst else op.src
  }

  /** The statements of an operation. */
  function Compile(op: Op): seq<Cmd<Act>> {
    match op
    case Deposit(a, amount) => [Lock(a), Do(Check), Do(Load(a)), Do(Store(a, amount)), Do(Act.Log), Unlock(a)]
    case Withdraw(a, amount) => [Lock(a), Do(Check), Do(Load(a)), Do(Store(a, -amount)), Do(Act.Log), Unlock(a)]
    case GetBalance(a) => [Lock(a), Do(Check), Do(Load(a)), Do(Act.Log), Unlock(a)]
    case Transfer(src, dst, amount) =>
      [Lock(First(op)), Lock(Second(op)), Do(Check),
       Do(Load(src)), Do(Store(src, -amount)), Do(Load(dst)), Do(Store(dst, amount)),
       Do(Act.Log), Unlock(Second(op)), Unlock(First(op))]
  }

  /** `ops[done]` is in progress, its first `pc` statements executed.  `ok`: no exception
      has been raised; the statements that one would skip do nothing. */
  datatype Thread = Thread(ops: seq<Op>, done: nat, pc: nat, ok: bool, tmp: int)

  datatype Entry = Entry(thread: nat, op: Op, outcome: Outcome)

  datatype State = State(balances: Balances, owner: Owner, threads: seq<Thread>, log: seq<Entry>)

  predicate Busy(th: Thread) {
    th.done < |th.ops| && th.pc < |Compile(th.ops[th.done])|
  }

  predicate Enabled(s: State, t: nat) {
    && t < |s.threads| && Busy(s.threads[t])
    && Uses(s.threads[t].ops[s.threads[t].done]) <= s.balances.Keys
    && CanRun(s.owner, Compile(s.threads[t].ops[s.threads[t].done])[s.threads[t].pc])
  }

  function Advance(th: Thread): Thread
    requires th.done < |th.ops|
  {
    if th.pc + 1 == |Compile(th.ops[th.done])| then th.(done := th.done + 1, pc := 0) else th.(pc := th.pc + 1)
  }

  function OutcomeOf(th: Thread, op: Op): Outcome {
    if !th.ok then ValueError else if op.GetBalance? then Balance(th.tmp) else Done
  }

  function Current(th: Thread): Cmd<Act>
    requires Busy(th)
  {
    Compile(th.ops[th.done])[th.pc]
  }

  /** The thread's own part of a step. */
  function Exec(th: Thread, balances: Balances): Thread
    requires Busy(th) && Uses(th.ops[th.done]) <= balances.Keys
  {
    match Current(th)
    case Do(Check) => Advance(th.(ok := Accepted(balances, th.ops[th.done])))
    case Do(Load(a)) => Advance(if th.ok && a in balances then th.(tmp := balances[a]) else th)
    case _ => Advance(th)
  }

  function Written(th: Thread, balances: Balances): Balances
    requires Busy(th)
  {
    match Current(th)
    case Do(Store(a, delta)) => if th.ok then balances[a := th.tmp + delta] else balances
    case _ => balances
  }

  function Logged(th: Thread, t: nat, log: seq<Entry>): seq<Entry>
    requires Busy(th)
  {
    if Current(th) == Do(Act.Log) then log + [Entry(t, th.ops[th.done], OutcomeOf(th, th.ops[th.done]))] else log
  }

  function Step(s: State, t: nat): State {
    if !Enabled(s, t) then s
    else
      var th := s.threads[t];
      State.State(Written(th, s.balances), OwnerAfter(s.owner, t, Current(th)),
            s.threads[t := Exec(th, s.balances)], Logged(th, t, s.log))
  }

  const BANK := System(Enabled, Step)

  predicate Known(op: Op, accounts: set<Account>) {
    Uses(op) <= accounts
  }

  predicate SelfTransfer(op: Op) {
    op.Transfer? && op.src == op.dst
  }

  predicate Init(s: State) {
    && s.owner == map[] && s.log == []
    && forall t :: 0 <= t < |s.threads| ==>
         && s.threads[t].done == 0 && s.threads[t].pc == 0
         && forall i :: 0 <= i < |s.threads[t].ops| ==> Known(s.threads[t].ops[i], s.balances.Keys)
  }

  // ------------------------------------------------------------------ invariant

  /** The balances when the logged operations are executed one at a time. */
  function Serial(log: seq<Entry>, m0: Balances): Balances {
    if log == [] then m0
    else
      var m, e := Serial(log[..|log| - 1], m0), log[|log| - 1];
      if Uses(e.op) <= m.Keys then Apply(m, e.op) else m
  }

  predicate SerialOutcomes(log: seq<Entry>, m0: Balances) {
    forall i :: 0 <= i < |log| ==>
      var m := Serial(log[..i], m0);
      Uses(log[i].op) <= m.Keys && log[i].outcome == Result(m, log[i].op)
  }

  function OpsOf(log: seq<Entry>, t: nat): seq<Op> {
    if log == [] then []
    else OpsOf(log[..|log| - 1], t) + if log[|log| - 1].thread == t then [log[|log| - 1].op] else []
  }

  /** The locks held at statement `pc`. */
  function Held(op: Op, pc: nat): set<Account> {
    if op.Transfer? then
      if pc == 0 || pc >= 10 then {}
      else if pc == 1 || pc == 9 then {First(op)}
      else {First(op), Second(op)}
    else if pc == 0 then {} else {op.a}
  }

  function HeldNow(th: Thread): set<Account> {
    if th.done < |th.ops| then Held(th.ops[th.done], th.pc) else {}
  }

  function LogPc(op: Op): nat {
    match op
    case Transfer(_, _, _) => 7
    case GetBalance(_) => 3
    case _ => 4
  }

  /** By how much account `a` differs, at statement `pc`, from what the log accounts for. */
  function Unlogged(op: Op, pc: nat, ok: bool, a: Account): int {
    if !ok then 0
    else match op
      case Deposit(b, amount) => if pc == 4 && a == b then amount else 0
      case Withdraw(b, amount) => if pc == 4 && a == b then -amount else 0
      case GetBalance(_) => 0
      case Transfer(src, dst, amount) =>
        if 5 <= pc <= 7 && a == src then -amount else if pc == 7 && a == dst then amount else 0
  }

  function UnloggedNow(th: Thread, a: Account): int {
    if th.done < |th.ops| then Unlogged(th.ops[th.done], th.pc, th.ok, a) else 0
  }

  /** What a thread knows in the middle of an operation: `m` are the serial balances. */
  predicate Knows(th: Thread, op: Op, m: Balances)
    requires Uses(op) <= m.Keys
  {
    match op
    case Transfer(src, dst, _) =>
      && (3 <= th.pc <= 7 ==> th.ok == Accepted(m, op))
      && (th.ok && th.pc == 4 ==> th.tmp == m[src])
      && (th.ok && th.pc == 6 ==> th.tmp == m[dst])
    case _ =>
      && (2 <= th.pc <= LogPc(op) ==> th.ok == Accepted(m, op))
      && (th.ok && 3 <= th.pc <= LogPc(op) ==> th.tmp == m[op.a])
  }

  predicate ControlOk(th: Thread, m: Balances) {
    && th.done <= |th.ops|
    && (forall i :: 0 <= i < |th.ops| ==> Known(th.ops[i], m.Keys))
    && (th.done < |th.ops| && SelfTransfer(th.ops[th.done]) ==> th.pc <= 1)
    && (th.done < |th.ops| ==> th.pc < |Compile(th.ops[th.done])| && Knows(th, th.ops[th.done], m))
    && (th.done == |th.ops| ==> th.pc == 0)
  }

  /** How many operations the thread has logged. */
  function LoggedOps(th: Thread): nat {
    if th.done < |th.ops| && th.pc > LogPc(th.ops[th.done]) then th.done + 1 else th.done
  }

  predicate ThreadOk(s: State, m: Balances, t: nat)
    requires t < |s.threads|
  {
    var th := s.threads[t];
    && ControlOk(th, m)
    && HeldBy(s.owner, t) == HeldNow(th)
    && OpsOf(s.log, t) == th.ops[..LoggedOps(th)]
  }

  predicate BalanceOk(s: State, m: Balances, a: Account)
    requires a in m && a in s.balances && (a in s.owner ==> s.owner[a] < |s.threads|)
  {
    s.balances[a] == m[a] + if a in s.owner then UnloggedNow(s.threads[s.owner[a]], a) else 0
  }

  predicate Inv(s: State, m0: Balances) {
    var m := Serial(s.log, m0);
    && m.Keys == m0.Keys == s.balances.Keys
    && (forall a :: a in s.owner ==> s.owner[a] < |s.threads|)
    && (forall t :: 0 <= t < |s.threads| ==> ThreadOk(s, m, t))
    && (forall a :: a in m ==> BalanceOk(s, m, a))
    && SerialOutcomes(s.log, m0)
    && forall e :: e in s.log ==> !SelfTransfer(e.op)
  }

  /** The thread is not about to take a lock that it holds. */
  predicate MovesOn(th: Thread)
    requires Busy(th)
  {
    SelfTransfer(th.ops[th.done]) ==> th.pc == 0
  }

  lemma OpsOfSnoc(log: seq<Entry>, e: Entry, t: nat)
    ensures OpsOf(log + [e], t) == OpsOf(log, t) + if e.thread == t then [e.op] else []
  {
    assert (log + [e])[..|log|] == log;
  }

  lemma SerialSnoc(log: seq<Entry>, e: Entry, m0: Balances)
    requires Uses(e.op) <= Serial(log, m0).Keys
    ensures Serial(log + [e], m0) == Apply(Serial(log, m0), e.op)
  {
    assert (log + [e])[..|log|] == log;
  }

  /** The serial balances after a step. */
  function SerialAfter(th: Thread, m: Balances): Balances
    requires Busy(th) && Uses(th.ops[th.done]) <= m.Keys
  {
    if Current(th) == Do(Act.Log) then Apply(m, th.ops[th.done]) else m
  }

  /** Locks are taken in ascending order, and released when held. */
  lemma HeldStep(th: Thread)
    requires Busy(th) && MovesOn(th)
    ensures var th' := Advance(th);
            match Current(th)
            case Lock(id) => HeldNow(th') == HeldNow(th) + {id} && forall h :: h in HeldNow(th) ==> h < id
            case Unlock(id) => id in HeldNow(th) && HeldNow(th') == HeldNow(th) - {id}
            case Do(_) => HeldNow(th') == HeldNow(th)
  {
  }

  /** The lock-protected view of the memory that a thread has. */
  predicate Sees(th: Thread, m: Balances, balances: Balances) {
    m.Keys == balances.Keys && forall a :: a in HeldNow(th) && a in m ==> balances[a] == m[a] + UnloggedNow(th, a)
  }

  lemma KnowsTransferStep(th: Thread, m: Balances, balances: Balances)
    requires Busy(th) && MovesOn(th) && Known(th.ops[th.done], m.Keys) && Knows(th, th.ops[th.done], m) && Sees(th, m, balances)
    requires th.ops[th.done].Transfer?
    ensures var th' := Exec(th, balances);
            th'.done == th.done ==> Knows(th', th'.ops[th'.done], SerialAfter(th, m))
  {
  }

  lemma KnowsSingleStep(th: Thread, m: Balances, balances: Balances)
    requires Busy(th) && MovesOn(th) && Known(th.ops[th.done], m.Keys) && Knows(th, th.ops[th.done], m) && Sees(th, m, balances)
    requires !th.ops[th.done].Transfer?
    ensures var th' := Exec(th, balances);
            th'.done == th.done ==> Knows(th', th'.ops[th'.done], SerialAfter(th, m))
  {
  }

  lemma KnowsOutcome(th: Thread, m: Balances)
    requires Busy(th) && Known(th.ops[th.done], m.Keys) && Knows(th, th.ops[th.done], m)
    ensures Current(th) == Do(Act.Log) ==> OutcomeOf(th, th.ops[th.done]) == Result(m, th.ops[th.done])
  {
    hide Accepted;
    LogPosition(th);
  }

  /** What a thread knows stays true through its own steps, and what it logs is right. */
  lemma KnowsStep(th: Thread, m: Balances, balances: Balances)
    requires Busy(th) && MovesOn(th) && Known(th.ops[th.done], m.Keys) && Knows(th, th.ops[th.done], m) && Sees(th, m, balances)
    ensures var th' := Exec(th, balances);
            th'.done == th.done ==> Knows(th', th'.ops[th'.done], SerialAfter(th, m))
    ensures Current(th) == Do(Act.Log) ==> OutcomeOf(th, th.ops[th.done]) == Result(m, th.ops[th.done])
  {
    hide Knows, Sees, Exec, SerialAfter, Compile, Result, OutcomeOf;
    KnowsOutcome(th, m);
    if th.ops[th.done].Transfer? { KnowsTransferStep(th, m, balances); } else { KnowsSingleStep(th, m, balances); }
  }

  /** Nobody else's accounts move, and one's own differ from the serial balances by
      what is not yet logged. */
  predicate BalanceFollows(th: Thread, m: Balances, balances: Balances, a: Account)
    requires Busy(th) && Uses(th.ops[th.done]) <= m.Keys == balances.Keys && a in m
  {
    if a in HeldNow(th) then
      Written(th, balances)[a] == SerialAfter(th, m)[a] + UnloggedNow(Exec(th, balances), a)
    else
      Written(th, balances)[a] == balances[a] && SerialAfter(th, m)[a] == m[a]
  }

  /** The steps that write a balance or log the operation. */
  lemma TransferWriteFollows(th: Thread, m: Balances, balances: Balances, a: Account)
    requires Busy(th) && MovesOn(th) && Known(th.ops[th.done], m.Keys) && Knows(th, th.ops[th.done], m) && Sees(th, m, balances)
    requires a in m && th.ops[th.done].Transfer? && (th.pc == 4 || th.pc == 6 || th.pc == 7)
    ensures BalanceFollows(th, m, balances, a)
  {
  }

  lemma TransferRestFollows(th: Thread, m: Balances, balances: Balances, a: Account)
    requires Busy(th) && MovesOn(th) && Known(th.ops[th.done], m.Keys) && Knows(th, th.ops[th.done], m) && Sees(th, m, balances)
    requires a in m && th.ops[th.done].Transfer? && th.pc != 4 && th.pc != 6 && th.pc != 7
    ensures BalanceFollows(th, m, balances, a)
  {
    hide Apply, Knows;
    assert Written(th, balances) == balances && SerialAfter(th, m) == m;
  }

  lemma TransferFollows(th: Thread, m: Balances, balances: Balances, a: Account)
    requires Busy(th) && MovesOn(th) && Known(th.ops[th.done], m.Keys) && Knows(th, th.ops[th.done], m) && Sees(th, m, balances)
    requires a in m && th.ops[th.done].Transfer?
    ensures BalanceFollows(th, m, balances, a)
  {
    hide BalanceFollows, Knows, Compile;
    if th.pc == 4 || th.pc == 6 || th.pc == 7 {
      TransferWriteFollows(th, m, balances, a);
    } else {
      TransferRestFollows(th, m, balances, a);
    }
  }

  lemma SingleFollows(th: Thread, m: Balances, balances: Balances, a: Account)
    requires Busy(th) && MovesOn(th) && Known(th.ops[th.done], m.Keys) && Knows(th, th.ops[th.done], m) && Sees(th, m, balances)
    requires a in m && !th.ops[th.done].Transfer?
    ensures BalanceFollows(th, m, balances, a)
  {
  }

  lemma KeysStay(th: Thread, m: Balances, balances: Balances)
    requires Busy(th) && Uses(th.ops[th.done]) <= m.Keys == balances.Keys
    ensures Written(th, balances).Keys == balances.Keys && SerialAfter(th, m).Keys == m.Keys
  {
  }

  lemma LoggedStep(th: Thread)
    requires Busy(th)
    ensures LoggedOps(Advance(th)) == LoggedOps(th) + if Current(th) == Do(Act.Log) then 1 else 0
    ensures Current(th) == Do(Act.Log) ==> LoggedOps(th) == th.done
  {
  }

  /** What a step does to the thread's place in its operations. */
  lemma PlaceStep(th: Thread, balances: Balances)
    requires Busy(th) && Uses(th.ops[th.done]) <= balances.Keys
    ensures var th' := Exec(th, balances);
            && th'.ops == th.ops == Advance(th).ops && th'.done == Advance(th).done && th'.pc == Advance(th).pc
            && (th'.done == th.done || (th'.done == th.done + 1 && th'.pc == 0))
            && th'.done <= |th.ops|
            && (th'.done < |th.ops| ==> th'.pc < |Compile(th.ops[th'.done])|)
            && (SelfTransfer(th.ops[th.done]) && th.pc <= 1 ==> th'.done == th.done && th'.pc == th.pc + 1)
  {
  }

  lemma ControlStep(th: Thread, m: Balances, balances: Balances)
    requires Busy(th) && MovesOn(th) && ControlOk(th, m) && Sees(th, m, balances)
    ensures ControlOk(Exec(th, balances), SerialAfter(th, m))
    ensures var th' := Exec(th, balances);
      th'.ops == th.ops && LoggedOps(th') == LoggedOps(Advance(th)) && HeldNow(th') == HeldNow(Advance(th))
  {
    hide Knows, Accepted, Exec, Compile, Advance, SerialAfter;
    KeysStay(th, m, balances);
    PlaceStep(th, balances);
    KnowsStep(th, m, balances);
    var th', m' := Exec(th, balances), SerialAfter(th, m);
    if th'.done != th.done && th'.done < |th'.ops| { KnowsNothingYet(th', th'.ops[th'.done], m'); }
  }

  lemma KnowsNothingYet(th: Thread, op: Op, m: Balances)
    requires th.pc == 0 && Uses(op) <= m.Keys
    ensures Knows(th, op, m)
  {
  }

  /** A thread that waits for its own lock is not enabled. */
  lemma EnabledMovesOn(s: State, m: Balances, t: nat)
    requires Enabled(s, t) && ThreadOk(s, m, t)
    ensures MovesOn(s.threads[t])
  {
    assert forall a :: a in HeldBy(s.owner, t) ==> a in s.owner;
    assert forall a :: a in HeldNow(s.threads[t]) ==> a in s.owner;
  }

  lemma ActorOk(s: State, m: Balances, t: nat)
    requires Enabled(s, t) && ThreadOk(s, m, t) && Sees(s.threads[t], m, s.balances)
    ensures ThreadOk(Step(s, t), SerialAfter(s.threads[t], m), t)
  {
    EnabledMovesOn(s, m, t);
    var th := s.threads[t];
    ControlStep(th, m, s.balances);
    HeldStep(th);
    OwnLocks(s.owner, t, Current(th));
    LoggedStep(th);
    OpsOfSnoc(s.log, Entry(t, th.ops[th.done], OutcomeOf(th, th.ops[th.done])), t);
  }

  lemma OwnLocks(owner: Owner, t: nat, cmd: Cmd<Act>)
    ensures cmd.Lock? ==> HeldBy(OwnerAfter(owner, t, cmd), t) == HeldBy(owner, t) + {cmd.id}
    ensures cmd.Unlock? ==> HeldBy(OwnerAfter(owner, t, cmd), t) == HeldBy(owner, t) - {cmd.id}
    ensures cmd.Do? ==> HeldBy(OwnerAfter(owner, t, cmd), t) == HeldBy(owner, t)
  {
  }

  lemma LogPosition(th: Thread)
    requires Busy(th)
    ensures Current(th) == Do(Act.Log) <==> th.pc == LogPc(th.ops[th.done])
    ensures LogPc(th.ops[th.done]) + 1 < |Compile(th.ops[th.done])|
  {
  }

  lemma OthersLocks(owner: Owner, t: nat, u: nat, cmd: Cmd<Act>)
    requires u != t && (cmd.Unlock? ==> cmd.id in HeldBy(owner, t)) && CanRun(owner, cmd)
    ensures HeldBy(OwnerAfter(owner, t, cmd), u) == HeldBy(owner, u)
  {
  }

  lemma BystanderOk(s: State, m: Balances, t: nat, u: nat)
    requires Enabled(s, t) && ThreadOk(s, m, t) && m.Keys == s.balances.Keys
    requires u < |s.threads| && u != t && ThreadOk(s, m, u)
    ensures ThreadOk(Step(s, t), SerialAfter(s.threads[t], m), u)
  {
    EnabledMovesOn(s, m, t);
    var th := s.threads[t];
    KeysStay(th, m, s.balances);
    HeldStep(th);
    OthersLocks(s.owner, t, u, Current(th));
    OpsOfSnoc(s.log, Entry(t, th.ops[th.done], OutcomeOf(th, th.ops[th.done])), u);
    forall a | a in m && a in HeldNow(s.threads[u])
      ensures SerialAfter(th, m)[a] == m[a]
    {
      assert a in HeldBy(s.owner, u) && a !in HeldBy(s.owner, t);
      SerialElsewhere(th, m, a);
    }
    KnowsTransfers(s.threads[u], m, SerialAfter(th, m));
  }

  /** Logging an operation changes the serial balances only where it holds locks. */
  lemma SerialElsewhere(th: Thread, m: Balances, a: Account)
    requires Busy(th) && MovesOn(th) && Known(th.ops[th.done], m.Keys) && a in m && a !in HeldNow(th)
    ensures SerialAfter(th, m)[a] == m[a]
  {
    LogPosition(th);
  }

  /** What a thread knows is about accounts that it holds. */
  lemma KnowsTransfers(th: Thread, m: Balances, m': Balances)
    requires th.done < |th.ops| ==> Known(th.ops[th.done], m.Keys) && Knows(th, th.ops[th.done], m)
    requires m'.Keys == m.Keys && forall a :: a in m && a in HeldNow(th) ==> m'[a] == m[a]
    ensures th.done < |th.ops| ==> Knows(th, th.ops[th.done], m')
  {
  }

  lemma Follows(th: Thread, m: Balances, balances: Balances, a: Account)
    requires Busy(th) && MovesOn(th) && Known(th.ops[th.done], m.Keys) && Knows(th, th.ops[th.done], m) && Sees(th, m, balances)
    requires a in m
    ensures BalanceFollows(th, m, balances, a)
  {
    if th.ops[th.done].Transfer? { TransferFollows(th, m, balances, a); } else { SingleFollows(th, m, balances, a); }
  }

  lemma ActorSees(s: State, m: Balances, t: nat)
    requires t < |s.threads| && ThreadOk(s, m, t) && m.Keys == s.balances.Keys
    requires forall a :: a in m ==> (a in s.owner ==> s.owner[a] < |s.threads|) && BalanceOk(s, m, a)
    ensures Sees(s.threads[t], m, s.balances)
  {
    forall a | a in HeldNow(s.threads[t]) && a in m
      ensures s.balances[a] == m[a] + UnloggedNow(s.threads[t], a)
    {
      assert a in HeldBy(s.owner, t);
      assert BalanceOk(s, m, a);
    }
  }

  lemma StepKeepsBalance(s: State, m: Balances, t: nat, a: Account)
    requires Enabled(s, t) && ThreadOk(s, m, t) && Sees(s.threads[t], m, s.balances) && a in m
    requires (a in s.owner ==> s.owner[a] < |s.threads|) && BalanceOk(s, m, a)
    ensures var s' := Step(s, t); var m' := SerialAfter(s.threads[t], m);
            && a in m' && a in s'.balances && |s'.threads| == |s.threads|
            && (a in s'.owner ==> s'.owner[a] < |s.threads|) && BalanceOk(s', m', a)
  {
    EnabledMovesOn(s, m, t);
    var th := s.threads[t];
    KeysStay(th, m, s.balances);
    Follows(th, m, s.balances, a);
    HeldStep(th);
    assert a in HeldNow(th) <==> a in s.owner && s.owner[a] == t by { assert a in HeldBy(s.owner, t) <==> a in HeldNow(th); }
    Quiet(th, s.balances, a);
  }

  /** A lock just taken, or just given back, finds the account settled. */
  lemma Quiet(th: Thread, balances: Balances, a: Account)
    requires Busy(th) && Uses(th.ops[th.done]) <= balances.Keys
    ensures Current(th).Lock? && Current(th).id == a ==> UnloggedNow(Exec(th, balances), a) == 0
    ensures Current(th).Unlock? && Current(th).id == a ==> UnloggedNow(Exec(th, balances), a) == 0
  {
  }

  lemma StepKeepsInv(s: State, m0: Balances, t: nat)
    requires Inv(s, m0) && Enabled(s, t)
    ensures Inv(Step(s, t), m0)
  {
    var m := Serial(s.log, m0);
    var th, s', m' := s.threads[t], Step(s, t), SerialAfter(s.threads[t], m);
    EnabledMovesOn(s, m, t);
    ActorSees(s, m, t);
    KeysStay(th, m, s.balances);
    KnowsStep(th, m, s.balances);
    SerialStep(s, m0, t);
    LogPosition(th);
    forall a | a in m'
      ensures (a in s'.owner ==> s'.owner[a] < |s'.threads|) && BalanceOk(s', m', a)
    {
      StepKeepsBalance(s, m, t, a);
    }
    forall u | 0 <= u < |s'.threads|
      ensures ThreadOk(s', m', u)
    {
      if u == t { ActorOk(s, m, t); } else { BystanderOk(s, m, t, u); }
    }
    assert forall a :: a in s'.owner ==> s'.owner[a] == t || (a in s.owner && s'.owner[a] == s.owner[a]);
  }

  lemma SerialStep(s: State, m0: Balances, t: nat)
    requires Inv(s, m0) && Enabled(s, t)
    ensures Serial(Step(s, t).log, m0) == SerialAfter(s.threads[t], Serial(s.log, m0))
    ensures SerialOutcomes(Step(s, t).log, m0)
  {
    var th := s.threads[t];
    var m := Serial(s.log, m0);
    if Current(th) == Do(Act.Log) {
      var e := Entry(t, th.ops[th.done], OutcomeOf(th, th.ops[th.done]));
      SerialSnoc(s.log, e, m0);
      ActorSees(s, m, t);
      EnabledMovesOn(s, m, t);
      KnowsStep(th, m, s.balances);
      OutcomesSnoc(s.log, e, m0);
    }
  }

  lemma OutcomesSnoc(log: seq<Entry>, e: Entry, m0: Balances)
    requires SerialOutcomes(log, m0)
    requires Uses(e.op) <= Serial(log, m0).Keys && e.outcome == Result(Serial(log, m0), e.op)
    ensures SerialOutcomes(log + [e], m0)
  {
    hide Result, Serial;
    var log' := log + [e];
    forall i | 0 <= i < |log'|
      ensures Uses(log'[i].op) <= Serial(log'[..i], m0).Keys
      ensures log'[i].outcome == Result(Serial(log'[..i], m0), log'[i].op)
    {
      assert log'[..i] == log[..i];
      if i == |log| { assert log'[..i] == log; }
    }
  }

  lemma InvAlongRun(s0: State, acts: seq<nat>)
    requires Init(s0) && Legal(BANK, s0, acts)
    ensures Inv(After(BANK, s0, acts), s0.balances)
  {
    forall t | 0 <= t < |s0.threads|
      ensures ThreadOk(s0, s0.balances, t)
    {
      assert HeldBy(s0.owner, t) == {};
    }
    forall s: State, t | Inv(s, s0.balances) && BANK.enabled(s, t)
      ensures Inv(BANK.step(s, t), s0.balances)
    {
      StepKeepsInv(s, s0.balances, t);
    }
    InvariantAlongRun(BANK, (s: State) => Inv(s, s0.balances), s0, acts);
  }

  // ------------------------------------------------------------------- theorems

  /** Every operation took effect at one point in time.  The balance of an unlocked
      account is what the logged operations leave when executed one at a time; each
      operation ended as it does in that execution, failed ones without effect; and each
      thread's operations were logged in its own order. */
  lemma Linearizable(s0: State, acts: seq<nat>)
    requires Init(s0) && Legal(BANK, s0, acts)
    ensures var s, m := After(BANK, s0, acts), Serial(After(BANK, s0, acts).log, s0.balances);
            && m.Keys == s.balances.Keys
            && (forall a :: a in m && a !in s.owner ==> s.balances[a] == m[a])
            && SerialOutcomes(s.log, s0.balances)
            && (forall t :: 0 <= t < |s.threads| ==> OpsOf(s.log, t) <= s.threads[t].ops)
  {
    InvAlongRun(s0, acts);
    var s, m := After(BANK, s0, acts), Serial(After(BANK, s0, acts).log, s0.balances);
    forall a | a in m && a !in s.owner
      ensures s.balances[a] == m[a]
    {
      assert BalanceOk(s, m, a);
    }
    forall t | 0 <= t < |s.threads|
      ensures OpsOf(s.log, t) <= s.threads[t].ops
    {
      assert ThreadOk(s, m, t);
    }
  }

  lemma EntryKeepsPromise(log: seq<Entry>, m0: Balances, i: nat)
    requires SerialOutcomes(log, m0) && i < |log|
    ensures var m := Serial(log[..i], m0);
            Uses(log[i].op) <= m.Keys && Promised(m, log[i].op, log[i].outcome, Serial(log[..i + 1], m0))
  {
    hide Promised, Serial, Result, Apply;
    var m := Serial(log[..i], m0);
    assert Uses(log[i].op) <= m.Keys && log[i].outcome == Result(m, log[i].op);
    assert log[..i + 1] == log[..i] + [log[i]];
    SerialSnoc(log[..i], log[i], m0);
    KeepsPromise(m, log[i].op);
  }

  /** So every operation of every run did, when its turn came, what it promises. */
  lemma LoggedAsPromised(s0: State, acts: seq<nat>, i: nat)
    requires Init(s0) && Legal(BANK, s0, acts) && i < |After(BANK, s0, acts).log|
    ensures var log := After(BANK, s0, acts).log; var m := Serial(log[..i], s0.balances);
            && Uses(log[i].op) <= m.Keys && !SelfTransfer(log[i].op)
            && Promised(m, log[i].op, log[i].outcome, Serial(log[..i + 1], s0.balances))
  {
    InvAlongRun(s0, acts);
    hide ThreadOk, BalanceOk, Promised, SerialOutcomes;
    EntryKeepsPromise(After(BANK, s0, acts).log, s0.balances, i);
    assert After(BANK, s0, acts).log[i] in After(BANK, s0, acts).log;
  }

  function Rest(th: Thread): seq<Cmd<Act>> {
    if Busy(th) then Compile(th.ops[th.done])[th.pc..] else []
  }

  lemma {:induction false} RestIsOrdered(th: Thread)
    requires Busy(th) && !SelfTransfer(th.ops[th.done])
    ensures WellOrdered(Rest(th), HeldNow(th))
    decreases |Compile(th.ops[th.done])| - th.pc
  {
    HeldStep(th);
    var th' := Advance(th);
    if th'.done == th.done {
      RestIsOrdered(th');
      assert Rest(th)[1..] == Rest(th');
    } else {
      assert Rest(th)[1..] == [];
      assert HeldNow(th') == {};
    }
  }

  predicate AllDone(s: State) {
    forall t :: 0 <= t < |s.threads| ==> s.threads[t].done == |s.threads[t].ops|
  }

  predicate NoSelfTransfer(s: State) {
    forall t, i :: 0 <= t < |s.threads| && 0 <= i < |s.threads[t].ops| ==> !SelfTransfer(s.threads[t].ops[i])
  }

  /** Threads come and go with the operations they were given. */
  lemma OpsStay(s0: State, acts: seq<nat>)
    requires Legal(BANK, s0, acts)
    ensures var s := After(BANK, s0, acts);
            |s.threads| == |s0.threads| && forall t :: 0 <= t < |s.threads| ==> s.threads[t].ops == s0.threads[t].ops
  {
    var inv := (s: State) =>
      |s.threads| == |s0.threads| && forall t :: 0 <= t < |s.threads| ==> s.threads[t].ops == s0.threads[t].ops;
    forall s: State, t: nat | inv(s) && BANK.enabled(s, t)
      ensures inv(BANK.step(s, t))
    {
      assert Exec(s.threads[t], s.balances).ops == s.threads[t].ops;
    }
    hide Step, Enabled;
    InvariantAlongRun(BANK, inv, s0, acts);
  }

  /** In a state where nobody can move, whoever holds a lock waits for another one, and has
      changed nothing. */
  lemma StuckIsSettled(s: State, m0: Balances)
    requires Inv(s, m0) && Stuck(BANK, s)
    ensures s.balances == Serial(s.log, m0)
  {
    var m := Serial(s.log, m0);
    forall a | a in m
      ensures s.balances[a] == m[a]
    {
      assert BalanceOk(s, m, a);
      if a in s.owner {
        var t := s.owner[a];
        assert ThreadOk(s, m, t) && a in HeldBy(s.owner, t);
        assert !BANK.enabled(s, t);
        WaitingIsUnlogged(s, m, t, a);
      }
    }
  }

  lemma WaitingIsUnlogged(s: State, m: Balances, t: nat, a: Account)
    requires t < |s.threads| && ThreadOk(s, m, t) && m.Keys == s.balances.Keys && !Enabled(s, t)
    ensures UnloggedNow(s.threads[t], a) == 0
  {
    var th := s.threads[t];
    if Busy(th) { assert Current(th).Lock?; }
  }

  /** Fixed-order locking never hangs, if no thread transfers from an account to itself: a
      run that can go no further has completed every operation, all locks are free, and the
      final balances are the serial ones. */
  lemma NoDeadlock(s0: State, acts: seq<nat>)
    requires Init(s0) && NoSelfTransfer(s0) && Legal(BANK, s0, acts) && Stuck(BANK, After(BANK, s0, acts))
    ensures var s := After(BANK, s0, acts);
            && AllDone(s) && s.owner == map[] && s.balances == Serial(s.log, s0.balances)
            && forall t :: 0 <= t < |s.threads| ==> OpsOf(s.log, t) == s.threads[t].ops
  {
    InvAlongRun(s0, acts);
    OpsStay(s0, acts);
    var s := After(BANK, s0, acts);
    if !AllDone(s) { SomethingEnabled(s, s0.balances); }
    var m := Serial(s.log, s0.balances);
    forall t | 0 <= t < |s.threads|
      ensures HeldBy(s.owner, t) == {} && OpsOf(s.log, t) == s.threads[t].ops
    {
      assert ThreadOk(s, m, t);
    }
    NobodyHolds(s.owner, |s.threads|);
    StuckIsSettled(s, s0.balances);
  }

  lemma NobodyHolds(owner: Owner, n: nat)
    requires forall id :: id in owner ==> owner[id] < n
    requires forall t :: 0 <= t < n ==> HeldBy(owner, t) == {}
    ensures owner == map[]
  {
    assert forall id :: id in owner ==> id in HeldBy(owner, owner[id]);
  }

  lemma SomethingEnabled(s: State, m0: Balances)
    requires Inv(s, m0) && !AllDone(s) && NoSelfTransfer(s)
    ensures !Stuck(BANK, s)
  {
    var m := Serial(s.log, m0);
    var rest := seq(|s.threads|, t requires 0 <= t < |s.threads| => Rest(s.threads[t]));
    forall t | 0 <= t < |s.threads|
      ensures WellOrdered(rest[t], HeldBy(s.owner, t))
      ensures rest[t] == [] <==> s.threads[t].done == |s.threads[t].ops|
    {
      assert ThreadOk(s, m, t);
      if Busy(s.threads[t]) { RestIsOrdered(s.threads[t]); }
    }
    var u :| 0 <= u < |s.threads| && s.threads[u].done != |s.threads[u].ops|;
    assert rest[u] != [];
    var t := SomeoneCanMove(s.owner, rest);
    assert ThreadOk(s, m, t);
    assert BANK.enabled(s, t);
  }

  // -------------------------------------------------------------- termination

  function StepsLeft(ops: seq<Op>, done: nat, pc: nat): int
    decreases |ops| - done
  {
    if done >= |ops| then 0
    else |Compile(ops[done])| - pc + StepsLeft(ops, done + 1, 0)
  }

  function TotalSteps(threads: seq<Thread>): int {
    if threads == [] then 0
    else StepsLeft(threads[0].ops, threads[0].done, threads[0].pc) + TotalSteps(threads[1..])
  }

  lemma {:induction false} TotalStepsUpdate(threads: seq<Thread>, t: nat, th: Thread)
    requires t < |threads|
    ensures TotalSteps(threads[t := th]) == TotalSteps(threads)
              - StepsLeft(threads[t].ops, threads[t].done, threads[t].pc) + StepsLeft(th.ops, th.done, th.pc)
  {
    if t == 0 {
      assert threads[0 := th][1..] == threads[1..];
    } else {
      TotalStepsUpdate(threads[1..], t - 1, th);
      assert threads[t := th][1..] == threads[1..][t - 1 := th];
    }
  }

  lemma StepTakesOne(s: State, t: nat)
    requires Enabled(s, t)
    ensures TotalSteps(Step(s, t).threads) == TotalSteps(s.threads) - 1
  {
    hide Compile, CanRun, OwnerAfter;
    var th := s.threads[t];
    TotalStepsUpdate(s.threads, t, Exec(th, s.balances));
    var th' := Exec(th, s.balances);
    assert th'.ops == th.ops && th'.done == Advance(th).done && th'.pc == Advance(th).pc;
  }

  /** Every run is exactly as long as the statements it has executed: with NoDeadlock, all
      maximal runs have the length of all operations together. */
  lemma {:induction false} RunLength(s: State, acts: seq<nat>)
    requires Legal(BANK, s, acts)
    ensures |acts| + TotalSteps(After(BANK, s, acts).threads) == TotalSteps(s.threads)
    decreases |acts|
  {
    if acts != [] {
      StepTakesOne(s, acts[0]);
      RunLength(Step(s, acts[0]), acts[1..]);
    }
  }

  // ---------------------------------------------------------------- conservation

  /** What the successful deposits and withdrawals of a log bring in. */
  function NetDeposits(log: seq<Entry>): int {
    if log == [] then 0
    else
      var e := log[|log| - 1];
      NetDeposits(log[..|log| - 1]) +
      if e.outcome != Done then 0
      else if e.op.Deposit? then e.op.amount
      else if e.op.Withdraw? then -e.op.amount
      else 0
  }

  predicate NoneOverdrawn(m: Balances) {
    forall a :: a in m ==> m[a] >= 0
  }

  lemma ApplyConserves(accounts: seq<Account>, m: Balances, op: Op)
    requires NoDuplicates(accounts) && (forall a :: a in accounts <==> a in m)
    requires Uses(op) <= m.Keys && (op.Transfer? ==> op.src != op.dst)
    ensures Sum(accounts, Apply(m, op)) == Sum(accounts, m) +
      if Result(m, op) != Done then 0 else if op.Deposit? then op.amount else if op.Withdraw? then -op.amount else 0
    ensures NoneOverdrawn(m) ==> NoneOverdrawn(Apply(m, op))
  {
    if Accepted(m, op) && !op.GetBalance? {
      match op
      case Transfer(src, dst, amount) => SumAfterMove(accounts, m, Apply(m, op), src, dst, amount);
      case Deposit(a, amount) => SumAfterChange(accounts, m, a, amount);
      case Withdraw(a, amount) => SumAfterChange(accounts, m, a, -amount);
    }
  }

  lemma {:induction false} LogConserves(accounts: seq<Account>, log: seq<Entry>, m0: Balances)
    requires NoDuplicates(accounts) && (forall a :: a in accounts <==> a in m0)
    requires SerialOutcomes(log, m0) && forall e :: e in log && e.op.Transfer? ==> e.op.src != e.op.dst
    ensures Serial(log, m0).Keys == m0.Keys
    ensures Sum(accounts, Serial(log, m0)) == Sum(accounts, m0) + NetDeposits(log)
    ensures NoneOverdrawn(m0) ==> NoneOverdrawn(Serial(log, m0))
  {
    if log != [] {
      var n := |log| - 1;
      forall i | 0 <= i < n
        ensures log[..n][..i] == log[..i] && log[..n][i] == log[i]
      {
      }
      LogConserves(accounts, log[..n], m0);
      ApplyConserves(accounts, Serial(log[..n], m0), log[n].op);
    }
  }

  /** When no thread can go on, finished or not, no account is overdrawn, and the money in
      the bank is what it was plus the successful deposits, less the successful
      withdrawals. */
  lemma MoneyIsConserved(s0: State, acts: seq<nat>, accounts: seq<Account>)
    requires Init(s0) && Legal(BANK, s0, acts) && Stuck(BANK, After(BANK, s0, acts))
    requires NoDuplicates(accounts) && (forall a :: a in accounts <==> a in s0.balances) && NoneOverdrawn(s0.balances)
    ensures var s := After(BANK, s0, acts);
            && NoneOverdrawn(s.balances)
            && Sum(accounts, s.balances) == Sum(accounts, s0.balances) + NetDeposits(s.log)
  {
    var s := After(BANK, s0, acts);
    InvAlongRun(s0, acts);
    StuckIsSettled(s, s0.balances);
    hide ThreadOk, BalanceOk, Stuck;
    LogConserves(accounts, s.log, s0.balances);
  }

  // ---------------------------------------------- transfers from an account to itself

  /** No run gets past a transfer from an account to itself. */
  lemma SelfTransferNeverCompletes(s0: State, acts: seq<nat>, t: nat, i: nat)
    requires Init(s0) && Legal(BANK, s0, acts)
    requires t < |s0.threads| && i < |s0.threads[t].ops| && SelfTransfer(s0.threads[t].ops[i])
    ensures var s := After(BANK, s0, acts); t < |s.threads| && s.threads[t].done <= i
  {
    var op := s0.threads[t].ops[i];
    var inv := (s: State) =>
      && Inv(s, s0.balances) && t < |s.threads| && s.threads[t].done <= i < |s.threads[t].ops| && s.threads[t].ops[i] == op;
    InvAlongRun(s0, []);
    forall s: State, u: nat | inv(s) && BANK.enabled(s, u)
      ensures inv(BANK.step(s, u))
    {
      StepKeepsInv(s, s0.balances, u);
      StillFirstLock(s, s0.balances, t);
      NotPast(s, u, t, i);
    }
    hide Inv, Step, Enabled;
    InvariantAlongRun(BANK, inv, s0, acts);
  }

  lemma NotPast(s: State, u: nat, t: nat, i: nat)
    requires Enabled(s, u)
    requires t < |s.threads| && s.threads[t].done <= i < |s.threads[t].ops| && SelfTransfer(s.threads[t].ops[i])
    requires s.threads[t].done == i ==> s.threads[t].pc <= 1
    ensures var s' := Step(s, u);
            t < |s'.threads| && s'.threads[t].done <= i && s'.threads[t].ops == s.threads[t].ops
  {
    hide Exec, Compile, Advance, Written, Logged, OwnerAfter;
    if u == t { PlaceStep(s.threads[t], s.balances); }
  }

  lemma StillFirstLock(s: State, m0: Balances, t: nat)
    requires Inv(s, m0) && t < |s.threads|
    ensures var th := s.threads[t]; th.done < |th.ops| && SelfTransfer(th.ops[th.done]) ==> th.pc <= 1
  {
    assert ThreadOk(s, Serial(s.log, m0), t);
  }

  /** Once it has its lock, it waits for it for ever, whatever the other threads do. */
  lemma {:induction false} SelfTransferHangs(s: State, m0: Balances, t: nat, acts: seq<nat>)
    requires Inv(s, m0) && Legal(BANK, s, acts)
    requires t < |s.threads| && s.threads[t].done < |s.threads[t].ops| && s.threads[t].pc == 1
    requires SelfTransfer(s.threads[t].ops[s.threads[t].done])
    ensures var s' := After(BANK, s, acts); t < |s'.threads| && s'.threads[t] == s.threads[t]
    decreases |acts|
  {
    if acts != [] {
      assert ThreadOk(s, Serial(s.log, m0), t);
      if acts[0] == t { EnabledMovesOn(s, Serial(s.log, m0), t); }
      StepKeepsInv(s, m0, acts[0]);
      var s' := Step(s, acts[0]);
      assert s'.threads[t] == s.threads[t];
      hide Inv, Step, Enabled;
      SelfTransferHangs(s', m0, t, acts[1..]);
    }
  }

  /** Every run can be continued until nobody can move. */
  lemma {:induction false} MaximalRun(s: State, m0: Balances) returns (acts: seq<nat>)
    requires Inv(s, m0)
    ensures Legal(BANK, s, acts) && Stuck(BANK, After(BANK, s, acts))
    decreases TotalSteps(s.threads)
  {
    if Stuck(BANK, s) {
      acts := [];
    } else {
      var t :| BANK.enabled(s, t);
      StepKeepsInv(s, m0, t);
      StepTakesOne(s, t);
      StepsAreLeft(s, m0);
      hide Inv, Step, Enabled, TotalSteps;
      var rest := MaximalRun(Step(s, t), m0);
      acts := [t] + rest;
      assert acts[1..] == rest;
    }
  }

  lemma StepsAreLeft(s: State, m0: Balances)
    requires Inv(s, m0)
    ensures TotalSteps(s.threads) >= 0
  {
    forall t | 0 <= t < |s.threads|
      ensures s.threads[t].done < |s.threads[t].ops| ==> s.threads[t].pc < |Compile(s.threads[t].ops[s.threads[t].done])|
    {
      assert ThreadOk(s, Serial(s.log, m0), t);
    }
    NotNegative(s.threads);
  }

  lemma {:induction false} NotNegative(threads: seq<Thread>)
    requires forall t :: 0 <= t < |threads| ==>
      threads[t].done < |threads[t].ops| ==> threads[t].pc < |Compile(threads[t].ops[threads[t].done])|
    ensures TotalSteps(threads) >= 0
  {
    if threads != [] {
      NotNegative(threads[1..]);
      StepsNotNegative(threads[0].ops, threads[0].done, threads[0].pc);
    }
  }

  lemma {:induction false} StepsNotNegative(ops: seq<Op>, done: nat, pc: nat)
    requires done < |ops| ==> pc < |Compile(ops[done])|
    ensures StepsLeft(ops, done, pc) >= 0
    decreases |ops| - done
  {
    if done < |ops| { StepsNotNegative(ops, done + 1, 0); }
  }

  /** The exact condition: all runs that can go no further have completed all operations if
      and only if no thread transfers from an account to itself.  If one does, no run
      completes. */
  lemma CompletesIff(s0: State)
    requires Init(s0)
    ensures (forall acts :: Legal(BANK, s0, acts) && Stuck(BANK, After(BANK, s0, acts)) ==> AllDone(After(BANK, s0, acts)))
            <==> NoSelfTransfer(s0)
    ensures !NoSelfTransfer(s0) ==> forall acts :: Legal(BANK, s0, acts) ==> !AllDone(After(BANK, s0, acts))
  {
    hide AllDone, Inv;
    if NoSelfTransfer(s0) {
      forall acts | Legal(BANK, s0, acts) && Stuck(BANK, After(BANK, s0, acts))
        ensures AllDone(After(BANK, s0, acts))
      {
        NoDeadlock(s0, acts);
      }
    } else {
      forall acts | Legal(BANK, s0, acts)
        ensures !AllDone(After(BANK, s0, acts))
      {
        SelfTransferStops(s0, acts);
      }
      InvAlongRun(s0, []);
      var acts := MaximalRun(s0, s0.balances);
    }
  }

  lemma SelfTransferStops(s0: State, acts: seq<nat>)
    requires Init(s0) && !NoSelfTransfer(s0) && Legal(BANK, s0, acts)
    ensures !AllDone(After(BANK, s0, acts))
  {
    var t: nat, i: nat :| t < |s0.threads| && i < |s0.threads[t].ops| && SelfTransfer(s0.threads[t].ops[i]);
    SelfTransferNeverCompletes(s0, acts, t, i);
    OpsStay(s0, acts);
  }

  // ------------------------------------------------------------------- the class

  /** An account object.  `locked`: some thread holds its lock. */
  class BankAccount {
    const id: Account
    var balance: int
    var locked: bool

    constructor (id: Account, initial: int)
      ensures this.id == id && balance == initial && !locked
    {
      this.id, balance, locked := id, initial, false;
    }

    ghost function View(): Balances
      reads this
    {
      var none: Balances := map[];
      none[id := balance]
    }

    /** None: the caller waits for the lock. */
    method Deposit(amount: int) returns (r: Option<Outcome>)
      modifies this
      ensures locked == old(locked)
      ensures if old(locked) then r == None && balance == old(balance)
              else r == Some(Result(old(View()), Op.Deposit(id, amount))) && View() == Apply(old(View()), Op.Deposit(id, amount))
      ensures !old(locked) ==>
        && r == Some(if amount <= 0 then ValueError else Done)
        && balance == old(balance) + if amount <= 0 then 0 else amount
    {
      if locked { return None; }
      locked := true;
      if amount <= 0 {
        locked := false;
        return Some(ValueError);
      }
      balance := balance + amount;
      locked := false;
      return Some(Done);
    }

    method Withdraw(amount: int) returns (r: Option<Outcome>)
      modifies this
      ensures locked == old(locked)
      ensures if old(locked) then r == None && balance == old(balance)
              else r == Some(Result(old(View()), Op.Withdraw(id, amount))) && View() == Apply(old(View()), Op.Withdraw(id, amount))
      ensures !old(locked) ==>
        var fails := amount <= 0 || old(balance) - amount < 0;
        && r == Some(if fails then ValueError else Done)
        && balance == old(balance) - if fails then 0 else amount
    {
      if locked { return None; }
      locked := true;
      if amount <= 0 || amount > balance {
        locked := false;
        return Some(ValueError);
      }
      balance := balance - amount;
      locked := false;
      return Some(Done);
    }

    method GetBalance() returns (r: Option<Outcome>)
      ensures r == if locked then None else Some(Result(View(), Op.GetBalance(id)))
      ensures !locked ==> r == Some(Balance(balance))
    {
      if locked { return None; }
      return Some(Balance(balance));
    }

    /** transfer() from this account to any account, itself included: from here it waits for
        ever for the second lock, and keeps the first. */
    method TransferTo(other: BankAccount, amount: int) returns (r: Option<Outcome>)
      modifies this, other
      ensures r == None <==> old(locked) || old(other.locked) || other == this
      ensures r == None ==> balance == old(balance) && other.balance == old(other.balance)
      ensures r == None ==>
        if other.id < id then other.locked && (locked == old(locked)) else locked && (other != this ==> other.locked == old(other.locked))
      ensures r.Some? ==>
        var m := Pair(old(balance), old(other.balance));
        && !locked && !other.locked
        && r.value == Result(m, Transfer(0, 1, amount))
        && Pair(balance, other.balance) == Apply(m, Transfer(0, 1, amount))
      ensures r.Some? ==>
        var fails := amount <= 0 || old(balance) - amount < 0;
        && r.value == (if fails then ValueError else Done)
        && balance == old(balance) - (if fails then 0 else amount)
        && other.balance == old(other.balance) + (if fails then 0 else amount)
    {
      var first, second := this, other;
      if other.id < id { first, second := other, this; }
      if first.locked { return None; }
      first.locked := true;
      if second.locked { return None; }
      second.locked := true;
      if amount <= 0 {
        r := Some(ValueError);
      } else if balance < amount {
        r := Some(ValueError);
      } else {
        balance := balance - amount;
        other.balance := other.balance + amount;
        r := Some(Done);
      }
      second.locked := false;
      first.locked := false;
    }
  }

  /** Two accounts, as numbers 0 and 1. */
  function Pair(a: int, b: int): Balances {
    var none: Balances := map[];
    none[0 := a][1 := b]
  }
}
