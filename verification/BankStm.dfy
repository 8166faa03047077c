/** java/stm/BankSTM.java: transfers that read versioned accounts without their locks, and
  then lock, compare the versions, and commit or retry.

  Every read and every write of a field is a step of its own, except that the two versions, and
  then the two balances, that are read under both locks are read together.  The snapshot is taken
  under the accounts' monitors, the commit under their ReentrantLocks; as different locks exclude
  nothing, the monitors are not modelled.  A ReentrantLock can be taken again by its holder,
  so a transfer from an account to itself goes through. */
module BankStm {
  import opened Locking
  import opened Money
  import opened Runs

  type Balances = map<Account, int>

  datatype Transfer = Transfer(src: Account, dst: Account, amount: int)

  const MAX_RETRIES := 100

  datatype Pc =
    | SnapVersion1 | SnapBalance1 | SnapVersion2 | SnapBalance2   // the optimistic snapshot
    | Decide                                                      // enough money, by the snapshot?
    | Lock1 | Lock2 | Validate | Fetch                            // both locks, versions, balances
    | Set1 | Set2 | Inc1 | Inc2                                   // the four writes of a commit
    | Unlock2(committed: bool) | Unlock1(committed: bool)

  datatype Result = Success | Insufficient | MaxRetries

  /** `v1`, `b1`, `v2`, `b2` are the snapshot of the first and second account in lock order,
      `fBal` and `sBal` their balances read again under the locks. */
  datatype Thread = Thread(todo: seq<Transfer>, results: seq<Result>, attempt: nat, pc: Pc,
                           v1: nat, b1: int, v2: nat, b2: int, fBal: int, sBal: int)

  datatype Entry = Entry(thread: nat, x: Transfer)

  /** `log` lists the committed transfers and who made them, in the order of their last
      balance write. */
  datatype State = State(balances: Balances, versions: map<Account, nat>, owner: Owner,
                         threads: seq<Thread>, log: seq<Entry>)

  function First(x: Transfer): Account { if x.src < x.dst then x.src else x.dst }
  function Second(x: Transfer): Account { if x.src < x.dst then x.dst else x.src }

  predicate Known(s: State, x: Transfer) {
    && x.src in s.balances && x.dst in s.balances && x.src in s.versions && x.dst in s.versions
  }

  predicate Enabled(s: State, t: nat) {
    && t < |s.threads| && s.threads[t].todo != [] && Known(s, s.threads[t].todo[0])
    && (s.threads[t].pc == Lock1 ==> First(s.threads[t].todo[0]) !in s.owner)
    && (s.threads[t].pc == Lock2 ==>
          var g := Second(s.threads[t].todo[0]); g !in s.owner || s.owner[g] == t)
  }

  /** transfer() returns. */
  function Finish(th: Thread, r: Result): Thread
    requires th.todo != []
  {
    th.(todo := th.todo[1..], results := th.results + [r], attempt := 0, pc := SnapVersion1)
  }

  /** The account that the first, and the second, setBalance goes to, and its new value. */
  function Target1(x: Transfer): Account { x.src }
  function Target2(x: Transfer): Account { x.dst }
  function NewValue1(th: Thread, x: Transfer): int { th.fBal - x.amount }
  function NewValue2(th: Thread, x: Transfer): int { th.sBal + x.amount }

  function Exec(s: State, th: Thread): Thread
    requires th.todo != [] && Known(s, th.todo[0])
  {
    var x := th.todo[0];
    match th.pc
    case SnapVersion1 => th.(v1 := s.versions[First(x)], pc := SnapBalance1)
    case SnapBalance1 => th.(b1 := s.balances[First(x)], pc := SnapVersion2)
    case SnapVersion2 => th.(v2 := s.versions[Second(x)], pc := SnapBalance2)
    case SnapBalance2 => th.(b2 := s.balances[Second(x)], pc := Decide)
    case Decide => if ActualFrom(th, x) < x.amount then Finish(th, Insufficient) else th.(pc := Lock1)
    case Lock1 => th.(pc := Lock2)
    case Lock2 => th.(pc := Validate)
    case Validate =>
      if s.versions[First(x)] == th.v1 && s.versions[Second(x)] == th.v2 then th.(pc := Fetch)
      else th.(pc := Unlock2(false))
    case Fetch => th.(fBal := s.balances[First(x)], sBal := s.balances[Second(x)], pc := Set1)
    case Set1 => th.(pc := Set2)
    case Set2 => th.(pc := Inc1)
    case Inc1 => th.(pc := Inc2)
    case Inc2 => th.(pc := Unlock2(true))
    case Unlock2(committed) => th.(pc := Unlock1(committed))
    case Unlock1(committed) =>
      if committed then Finish(th, Success)
      else if th.attempt + 1 < MAX_RETRIES then th.(attempt := th.attempt + 1, pc := SnapVersion1)
      else Finish(th, MaxRetries)
  }

  /** The balance of the paying account according to the snapshot. */
  function ActualFrom(th: Thread, x: Transfer): int {
    if First(x) == x.src then th.b1 else th.b2
  }

  function OwnerNext(s: State, t: nat, th: Thread): Owner
    requires th.todo != []
  {
    match th.pc
    case Lock1 => s.owner[First(th.todo[0]) := t]
    case Lock2 => s.owner[Second(th.todo[0]) := t]
    case Unlock2(_) =>
      if First(th.todo[0]) == Second(th.todo[0]) then s.owner else s.owner - {Second(th.todo[0])}
    case Unlock1(_) => s.owner - {First(th.todo[0])}
    case _ => s.owner
  }

  function Step(s: State, t: nat): State {
    if !Enabled(s, t) then s
    else
      var th := s.threads[t];
      var x := th.todo[0];
      State.State(
        if th.pc == Set1 then s.balances[Target1(x) := NewValue1(th, x)]
        else if th.pc == Set2 then s.balances[Target2(x) := NewValue2(th, x)]
        else s.balances,
        if th.pc == Inc1 then s.versions[First(x) := s.versions[First(x)] + 1]
        else if th.pc == Inc2 then s.versions[Second(x) := s.versions[Second(x)] + 1]
        else s.versions,
        OwnerNext(s, t, th),
        s.threads[t := Exec(s, th)],
        if th.pc == Set2 then s.log + [Entry(t, x)] else s.log)
  }

  const TRANSFERS := System(Enabled, Step)

  predicate Init(s: State) {
    && s.owner == map[] && s.log == [] && s.balances.Keys == s.versions.Keys
    && forall t :: 0 <= t < |s.threads| ==>
         && s.threads[t].pc == SnapVersion1 && s.threads[t].attempt == 0 && s.threads[t].results == []
         && forall i :: 0 <= i < |s.threads[t].todo| ==> Known(s, s.threads[t].todo[i])
  }

  // ------------------------------------------------------------- serial meaning

  /** What one commit does to the balances: `fBal` is the first account's balance, the
      payer's only if the payer comes first in lock order. */
  function Commit(m: Balances, x: Transfer): Balances {
    if x.src in m && x.dst in m then
      m[x.src := m[First(x)] - x.amount][x.dst := m[Second(x)] + x.amount]
    else m
  }

  function Serial(log: seq<Entry>, m0: Balances): Balances {
    if log == [] then m0 else Commit(Serial(log[..|log| - 1], m0), log[|log| - 1].x)
  }

  lemma SerialSnoc(log: seq<Entry>, e: Entry, m0: Balances)
    ensures Serial(log + [e], m0) == Commit(Serial(log, m0), e.x)
  {
    assert (log + [e])[..|log|] == log;
  }

  /** Each committed transfer could be paid for when it was committed. */
  predicate Covered(log: seq<Entry>, m0: Balances) {
    forall i :: 0 <= i < |log| ==> CanPay(Serial(log[..i], m0), log[i].x)
  }

  predicate CanPay(m: Balances, x: Transfer) {
    x.src in m && x.dst in m && m[x.src] >= x.amount
  }

  // ------------------------------------------------------------------ invariant

  predicate Holds1(pc: Pc) {
    !(pc.SnapVersion1? || pc.SnapBalance1? || pc.SnapVersion2? || pc.SnapBalance2? || pc.Decide? || pc.Lock1?)
  }

  predicate Holds2(pc: Pc) {
    Holds1(pc) && !pc.Lock2? && !pc.Unlock1?
  }

  function Held(th: Thread): set<LockId> {
    if th.todo == [] then {}
    else (if Holds1(th.pc) then {First(th.todo[0])} else {}) + (if Holds2(th.pc) then {Second(th.todo[0])} else {})
  }

  /** Between the write of a balance and the increment of its version. */
  predicate MidCommit(th: Thread, a: Account) {
    th.todo != [] &&
    (|| (a == Target1(th.todo[0]) && th.pc == Set2)
     || (a == First(th.todo[0]) && th.pc == Inc1)
     || (a == Second(th.todo[0]) && (th.pc == Inc1 || th.pc == Inc2)))
  }

  predicate Dirty(s: State, a: Account) {
    a in s.owner && s.owner[a] < |s.threads| && MidCommit(s.threads[s.owner[a]], a)
  }

  /** A snapshot whose version is current has the current balance, unless a commit is
      about to change the version. */
  predicate SnapOk(s: State, a: Account, v: nat, b: int)
    requires a in s.versions && a in s.balances
  {
    v <= s.versions[a] && (v == s.versions[a] && !Dirty(s, a) ==> b == s.balances[a])
  }

  predicate Snapped1(pc: Pc) { !pc.SnapVersion1? && !pc.SnapBalance1? }
  predicate Snapped2(pc: Pc) { Snapped1(pc) && !pc.SnapVersion2? && !pc.SnapBalance2? }

  /** From the validation to the second write the snapshot is the serial state of the two
      accounts, and so are the balances read under the locks. */
  predicate Validated(th: Thread, x: Transfer, m: Balances)
    requires x.src in m && x.dst in m
  {
    && (th.pc == Fetch || th.pc == Set1 || th.pc == Set2 ==> th.b1 == m[First(x)] && th.b2 == m[Second(x)])
    && (th.pc == Set1 || th.pc == Set2 ==> th.fBal == th.b1 && th.sBal == th.b2)
  }

  predicate AttemptOk(s: State, th: Thread, x: Transfer, m: Balances)
    requires Known(s, x) && x.src in m && x.dst in m
  {
    && (th.pc == SnapBalance1 ==> th.v1 <= s.versions[First(x)])
    && (th.pc == SnapBalance2 ==> th.v2 <= s.versions[Second(x)])
    && (Snapped1(th.pc) && !Committing(th.pc) ==> SnapOk(s, First(x), th.v1, th.b1))
    && (Snapped2(th.pc) && !Committing(th.pc) ==> SnapOk(s, Second(x), th.v2, th.b2))
    && (Holds1(th.pc) || th.pc == Lock1 ==> ActualFrom(th, x) >= x.amount)
    && Validated(th, x, m)
  }

  predicate ThreadOk(s: State, m: Balances, t: nat)
    requires t < |s.threads| && m.Keys == s.balances.Keys
  {
    var th := s.threads[t];
    && HeldBy(s.owner, t) == Held(th)
    && (forall i :: 0 <= i < |th.todo| ==> Known(s, th.todo[i]))
    && th.attempt < MAX_RETRIES
    && (th.todo == [] ==> th.pc == SnapVersion1)
    && (th.todo != [] ==> AttemptOk(s, th, th.todo[0], m))
  }

  /** The snapshot has served its purpose. */
  predicate Committing(pc: Pc) {
    pc == Fetch || pc == Set1 || pc == Set2 || pc == Inc1 || pc == Inc2 || pc.Unlock2? || pc.Unlock1?
  }

  /** The balances are the serial ones, but for a first write not yet followed by the second. */
  function Expected(s: State, m: Balances, a: Account): int
    requires a in m
  {
    if a in s.owner && s.owner[a] < |s.threads| && s.threads[s.owner[a]].todo != []
       && s.threads[s.owner[a]].pc == Set2 && a == Target1(s.threads[s.owner[a]].todo[0])
    then NewValue1(s.threads[s.owner[a]], s.threads[s.owner[a]].todo[0])
    else m[a]
  }

  predicate Inv(s: State, m0: Balances) {
    var m := Serial(s.log, m0);
    && m.Keys == m0.Keys == s.balances.Keys == s.versions.Keys
    && (forall a :: a in s.owner ==> s.owner[a] < |s.threads|)
    && (forall t :: 0 <= t < |s.threads| ==> ThreadOk(s, m, t))
    && (forall a :: a in m ==> s.balances[a] == Expected(s, m, a))
    && Covered(s.log, m0)
  }

  // -------------------------------------------------------------- one step of `t`

  /** The serial state after a step. */
  function SerialAfter(s: State, t: nat, m: Balances): Balances
    requires Enabled(s, t)
  {
    if s.threads[t].pc == Set2 then Commit(m, s.threads[t].todo[0]) else m
  }

  /** What a step of `t` can do to an account. */
  predicate Touch(s: State, s': State, m: Balances, m': Balances, t: nat, a: Account)
    requires a in s.balances && a in s.versions && a in s'.balances && a in s'.versions && a in m && a in m'
  {
    if a in HeldBy(s.owner, t) then
      && s.versions[a] <= s'.versions[a]
      && (s.versions[a] == s'.versions[a] ==> Dirty(s', a) || (!Dirty(s, a) && s'.balances[a] == s.balances[a]))
    else
      && s'.balances[a] == s.balances[a] && s'.versions[a] == s.versions[a] && m'[a] == m[a]
      && (Dirty(s', a) <==> Dirty(s, a))
  }

  lemma KeysStay(s: State, t: nat, m: Balances)
    requires Enabled(s, t)
    ensures Step(s, t).balances.Keys == s.balances.Keys && Step(s, t).versions.Keys == s.versions.Keys
    ensures |Step(s, t).threads| == |s.threads| && SerialAfter(s, t, m).Keys == m.Keys
    ensures forall x :: Known(s, x) ==> Known(Step(s, t), x)
  {
  }

  lemma OwnerStep(s: State, m: Balances, t: nat)
    requires Enabled(s, t) && m.Keys == s.balances.Keys && ThreadOk(s, m, t)
    ensures HeldBy(Step(s, t).owner, t) == Held(Step(s, t).threads[t])
    ensures forall u :: u != t ==> HeldBy(Step(s, t).owner, u) == HeldBy(s.owner, u)
  {
    var th := s.threads[t];
    if th.pc.Unlock1? { assert First(th.todo[0]) in HeldBy(s.owner, t); }
    if th.pc.Unlock2? { assert Second(th.todo[0]) in HeldBy(s.owner, t); }
  }

  lemma StepTouches(s: State, m: Balances, t: nat, a: Account)
    requires Enabled(s, t) && m.Keys == s.balances.Keys == s.versions.Keys && ThreadOk(s, m, t) && a in m
    ensures var s' := Step(s, t);
            && a in s'.balances && a in s'.versions && a in SerialAfter(s, t, m)
            && Touch(s, s', m, SerialAfter(s, t, m), t, a)
  {
    var th := s.threads[t];
    KeysStay(s, t, m);
    OwnerStep(s, m, t);
    assert a in HeldBy(s.owner, t) <==> a in Held(th);
  }

  lemma BystanderOk(s: State, m: Balances, t: nat, u: nat)
    requires Enabled(s, t) && m.Keys == s.balances.Keys == s.versions.Keys && ThreadOk(s, m, t)
    requires u < |s.threads| && u != t && ThreadOk(s, m, u)
    ensures SerialAfter(s, t, m).Keys == Step(s, t).balances.Keys && u < |Step(s, t).threads|
    ensures ThreadOk(Step(s, t), SerialAfter(s, t, m), u)
  {
    KeysStay(s, t, m);
    OwnerStep(s, m, t);
    var th := s.threads[u];
    if th.todo != [] {
      var x := th.todo[0];
      StepTouches(s, m, t, First(x));
      StepTouches(s, m, t, Second(x));
      assert forall a :: a in HeldBy(s.owner, u) ==> a !in HeldBy(s.owner, t);
    }
  }

  /** The steps before the validation. */
  lemma SnapshotStepOk(s: State, m: Balances, t: nat)
    requires Enabled(s, t) && m.Keys == s.balances.Keys == s.versions.Keys && ThreadOk(s, m, t)
    requires !Committing(s.threads[t].pc) && s.threads[t].pc != Validate
    ensures t < |Step(s, t).threads| && ThreadOk(Step(s, t), m, t)
  {
    KeysStay(s, t, m);
    OwnerStep(s, m, t);
    var x := s.threads[t].todo[0];
    StepTouches(s, m, t, First(x));
    StepTouches(s, m, t, Second(x));
  }

  /** If the versions are those of the snapshot, so are the balances: nobody is in the
      middle of a commit on accounts that this thread has locked. */
  lemma ValidateStepOk(s: State, m: Balances, t: nat)
    requires Enabled(s, t) && m.Keys == s.balances.Keys == s.versions.Keys && ThreadOk(s, m, t)
    requires s.threads[t].pc == Validate
    requires forall a :: a in m ==> s.balances[a] == Expected(s, m, a)
    ensures t < |Step(s, t).threads| && ThreadOk(Step(s, t), m, t)
  {
    KeysStay(s, t, m);
    OwnerStep(s, m, t);
    var x := s.threads[t].todo[0];
    assert First(x) in HeldBy(s.owner, t) && Second(x) in HeldBy(s.owner, t);
  }

  predicate Writing(pc: Pc) {
    pc == Fetch || pc == Set1 || pc == Set2
  }

  lemma WriteStepOk(s: State, m: Balances, t: nat)
    requires Enabled(s, t) && m.Keys == s.balances.Keys == s.versions.Keys && ThreadOk(s, m, t)
    requires Writing(s.threads[t].pc)
    requires forall a :: a in m ==> s.balances[a] == Expected(s, m, a)
    ensures t < |Step(s, t).threads| && SerialAfter(s, t, m).Keys == Step(s, t).balances.Keys
    ensures ThreadOk(Step(s, t), SerialAfter(s, t, m), t)
  {
    KeysStay(s, t, m);
    OwnerStep(s, m, t);
    var x := s.threads[t].todo[0];
    assert First(x) in HeldBy(s.owner, t) && Second(x) in HeldBy(s.owner, t);
  }

  lemma ReleaseStepOk(s: State, m: Balances, t: nat)
    requires Enabled(s, t) && m.Keys == s.balances.Keys == s.versions.Keys && ThreadOk(s, m, t)
    requires Committing(s.threads[t].pc) && !Writing(s.threads[t].pc) && !s.threads[t].pc.Unlock1?
    ensures t < |Step(s, t).threads| && SerialAfter(s, t, m).Keys == Step(s, t).balances.Keys
    ensures ThreadOk(Step(s, t), SerialAfter(s, t, m), t)
  {
    var th := s.threads[t];
    OwnerStep(s, m, t);
    KeysStay(s, t, m);
    hide HeldBy, Held, SnapOk;
    assert Exec(s, th).todo == th.todo && SerialAfter(s, t, m) == m;
    assert Committing(Exec(s, th).pc) && !Writing(Exec(s, th).pc);
  }

  lemma EndStepOk(s: State, m: Balances, t: nat)
    requires Enabled(s, t) && m.Keys == s.balances.Keys == s.versions.Keys && ThreadOk(s, m, t)
    requires s.threads[t].pc.Unlock1?
    ensures t < |Step(s, t).threads| && SerialAfter(s, t, m).Keys == Step(s, t).balances.Keys
    ensures ThreadOk(Step(s, t), SerialAfter(s, t, m), t)
  {
    var th := s.threads[t];
    OwnerStep(s, m, t);
    KeysStay(s, t, m);
    hide HeldBy, Held, SnapOk;
    assert Exec(s, th).todo == th.todo || Exec(s, th).todo == th.todo[1..];
    assert Exec(s, th).pc == SnapVersion1 && SerialAfter(s, t, m) == m;
  }

  lemma ActorOk(s: State, m: Balances, t: nat)
    requires Enabled(s, t) && m.Keys == s.balances.Keys == s.versions.Keys && ThreadOk(s, m, t)
    requires forall a :: a in m ==> s.balances[a] == Expected(s, m, a)
    ensures SerialAfter(s, t, m).Keys == Step(s, t).balances.Keys && t < |Step(s, t).threads|
    ensures ThreadOk(Step(s, t), SerialAfter(s, t, m), t)
  {
    KeysStay(s, t, m);
    if Writing(s.threads[t].pc) {
      WriteStepOk(s, m, t);
    } else if s.threads[t].pc.Unlock1? {
      EndStepOk(s, m, t);
    } else if Committing(s.threads[t].pc) {
      ReleaseStepOk(s, m, t);
    } else if s.threads[t].pc == Validate {
      ValidateStepOk(s, m, t);
    } else {
      SnapshotStepOk(s, m, t);
    }
  }

  lemma WriteKeepsExpected(s: State, m: Balances, t: nat, a: Account)
    requires Enabled(s, t) && m.Keys == s.balances.Keys == s.versions.Keys && ThreadOk(s, m, t) && a in m
    requires s.balances[a] == Expected(s, m, a) && (s.threads[t].pc == Set1 || s.threads[t].pc == Set2)
    ensures a in SerialAfter(s, t, m) && a in Step(s, t).balances
    ensures Step(s, t).balances[a] == Expected(Step(s, t), SerialAfter(s, t, m), a)
  {
    var th := s.threads[t];
    assert a in HeldBy(s.owner, t) <==> a in Held(th);
    assert First(th.todo[0]) in Held(th) && Second(th.todo[0]) in Held(th);
  }

  lemma QuietKeepsExpected(s: State, m: Balances, t: nat, a: Account)
    requires Enabled(s, t) && m.Keys == s.balances.Keys == s.versions.Keys && ThreadOk(s, m, t) && a in m
    requires s.balances[a] == Expected(s, m, a) && s.threads[t].pc != Set1 && s.threads[t].pc != Set2
    ensures SerialAfter(s, t, m) == m && Step(s, t).balances == s.balances
    ensures s.balances[a] == Expected(Step(s, t), m, a)
  {
    hide AttemptOk, Commit;
    var th := s.threads[t];
    assert a in HeldBy(s.owner, t) <==> a in Held(th);
  }

  lemma StepKeepsExpected(s: State, m: Balances, t: nat, a: Account)
    requires Enabled(s, t) && m.Keys == s.balances.Keys == s.versions.Keys && ThreadOk(s, m, t) && a in m
    requires s.balances[a] == Expected(s, m, a)
    ensures a in SerialAfter(s, t, m) && a in Step(s, t).balances
    ensures Step(s, t).balances[a] == Expected(Step(s, t), SerialAfter(s, t, m), a)
  {
    hide ThreadOk, Step, SerialAfter, Expected;
    if s.threads[t].pc == Set1 || s.threads[t].pc == Set2 {
      WriteKeepsExpected(s, m, t, a);
    } else {
      QuietKeepsExpected(s, m, t, a);
    }
  }

  lemma StepKeepsInv(s: State, m0: Balances, t: nat)
    requires Inv(s, m0) && Enabled(s, t)
    ensures Inv(Step(s, t), m0)
  {
    hide ThreadOk, Expected, Covered, Commit;
    var m := Serial(s.log, m0);
    var s', m' := Step(s, t), SerialAfter(s, t, m);
    var x := s.threads[t].todo[0];
    KeysStay(s, t, m);
    SerialSnoc(s.log, Entry(t, x), m0);
    forall a | a in m'
      ensures s'.balances[a] == Expected(s', m', a)
    {
      StepKeepsExpected(s, m, t, a);
    }
    forall u | 0 <= u < |s'.threads|
      ensures ThreadOk(s', m', u)
    {
      if u == t { ActorOk(s, m, t); } else { BystanderOk(s, m, t, u); }
    }
    StepKeepsCovered(s, m0, t);
  }

  lemma StepKeepsCovered(s: State, m0: Balances, t: nat)
    requires Inv(s, m0) && Enabled(s, t)
    ensures Covered(Step(s, t).log, m0)
  {
    var log' := Step(s, t).log;
    assert ThreadOk(s, Serial(s.log, m0), t);
    forall i | 0 <= i < |log'|
      ensures CanPay(Serial(log'[..i], m0), log'[i].x)
    {
      assert log'[..i] == s.log[..i];
      if i == |s.log| { assert s.log[..i] == s.log; }
    }
  }

  lemma InvAlongRun(s0: State, acts: seq<nat>)
    requires Init(s0) && Legal(TRANSFERS, s0, acts)
    ensures Inv(After(TRANSFERS, s0, acts), s0.balances)
  {
    forall t | 0 <= t < |s0.threads|
      ensures ThreadOk(s0, s0.balances, t)
    {
      assert HeldBy(s0.owner, t) == {};
    }
    forall s: State, t: nat | Inv(s, s0.balances) && TRANSFERS.enabled(s, t)
      ensures Inv(TRANSFERS.step(s, t), s0.balances)
    {
      StepKeepsInv(s, s0.balances, t);
    }
    InvariantAlongRun(TRANSFERS, (s: State) => Inv(s, s0.balances), s0, acts);
  }

  // ------------------------------------------------------------------- theorems

  /** Once the versions have been found unchanged, the snapshot balances are the current
      ones, although no common lock protected the two readings. */
  lemma SnapshotIsCurrent(s0: State, acts: seq<nat>, t: nat)
    requires Init(s0) && Legal(TRANSFERS, s0, acts)
    requires t < |After(TRANSFERS, s0, acts).threads| && After(TRANSFERS, s0, acts).threads[t].pc == Fetch
    ensures var s := After(TRANSFERS, s0, acts); var th := s.threads[t];
            && th.todo != [] && Known(s, th.todo[0])
            && th.b1 == s.balances[First(th.todo[0])] && th.b2 == s.balances[Second(th.todo[0])]
            && s.balances[th.todo[0].src] >= th.todo[0].amount
  {
    InvAlongRun(s0, acts);
    var s := After(TRANSFERS, s0, acts);
    assert ThreadOk(s, Serial(s.log, s0.balances), t);
    var x := s.threads[t].todo[0];
    assert First(x) in HeldBy(s.owner, t) && Second(x) in HeldBy(s.owner, t);
  }

  // ------------------------------------------------------------------ what transfer() returns

  /** What thread `t` has committed, in order. */
  function LogOf(log: seq<Entry>, t: nat): seq<Transfer> {
    if log == [] then []
    else LogOf(log[..|log| - 1], t) + if log[|log| - 1].thread == t then [log[|log| - 1].x] else []
  }

  /** The transfers that succeeded, of those that have a result. */
  function Succeeded(xs: seq<Transfer>, results: seq<Result>): seq<Transfer>
    requires |results| <= |xs|
  {
    if results == [] then []
    else
      var n := |results| - 1;
      Succeeded(xs, results[..n]) + if results[n] == Success then [xs[n]] else []
  }

  /** The transfer has been committed and not yet returned. */
  predicate Returning(th: Thread) {
    th.todo != [] && (th.pc == Inc1 || th.pc == Inc2 || th.pc == Unlock2(true) || th.pc == Unlock1(true))
  }

  /** Every transfer of thread `t`, out of `xs`, has a result or is still to be done, and the
      thread's part of the log is the transfers that succeeded, and the one that is about to. */
  predicate ResultsOk(s: State, t: nat, xs: seq<Transfer>)
    requires t < |s.threads|
  {
    var th := s.threads[t];
    && |th.results| + |th.todo| == |xs| && th.todo == xs[|th.results|..]
    && LogOf(s.log, t) == Succeeded(xs, th.results) + if Returning(th) then [th.todo[0]] else []
  }

  lemma LogOfSnoc(log: seq<Entry>, e: Entry, t: nat)
    ensures LogOf(log + [e], t) == LogOf(log, t) + if e.thread == t then [e.x] else []
  {
    assert (log + [e])[..|log|] == log;
  }

  lemma SucceededSnoc(xs: seq<Transfer>, results: seq<Result>, r: Result)
    requires |results| < |xs|
    ensures Succeeded(xs, results + [r]) == Succeeded(xs, results) + if r == Success then [xs[|results|]] else []
  {
    assert (results + [r])[..|results|] == results;
  }

  lemma ThreadsStay(s0: State, acts: seq<nat>)
    requires Init(s0) && Legal(TRANSFERS, s0, acts)
    ensures |After(TRANSFERS, s0, acts).threads| == |s0.threads|
  {
    InvariantAlongRun(TRANSFERS, (s: State) => |s.threads| == |s0.threads|, s0, acts);
  }

  /** What a step does to the thread's results, its list and the log. */
  lemma ResultStep(s: State, t: nat)
    requires Enabled(s, t)
    ensures var th, th' := s.threads[t], Exec(s, s.threads[t]);
            && Step(s, t).threads == s.threads[t := th']
            && Step(s, t).log == (if th.pc == Set2 then s.log + [Entry(t, th.todo[0])] else s.log)
            && (th.pc == Set2 ==> th'.todo == th.todo && th'.results == th.results && Returning(th') && !Returning(th))
            && (th.pc != Set2 ==>
                  || (th'.todo == th.todo && th'.results == th.results && Returning(th') == Returning(th))
                  || (th'.todo == th.todo[1..] && !Returning(th')
                      && exists r :: th'.results == th.results + [r] && (r == Success <==> Returning(th))))
  {
    var th, th' := s.threads[t], Exec(s, s.threads[t]);
    if th'.results != th.results {
      assert exists r :: th'.results == th.results + [r] && (r == Success <==> Returning(th)) by {
        var r := th'.results[|th.results|];
        assert th'.results == th.results + [r];
      }
    }
  }

  lemma StepKeepsResults(s: State, u: nat, t: nat, xs: seq<Transfer>)
    requires Enabled(s, u) && t < |s.threads| && ResultsOk(s, t, xs)
    ensures t < |Step(s, u).threads| && ResultsOk(Step(s, u), t, xs)
  {
    ResultStep(s, u);
    hide LogOf, Succeeded, Enabled, Returning;
    var th, s' := s.threads[u], Step(s, u);
    hide Step, Exec;
    LogOfSnoc(s.log, Entry(u, th.todo[0]), t);
    if u == t && s'.threads[t].results != th.results {
      var r :| s'.threads[t].results == th.results + [r] && (r == Success <==> Returning(th));
      SucceededSnoc(xs, th.results, r);
      assert xs[|th.results|..][1..] == xs[|th.results| + 1..];
    }
  }

  /** After every run: each transfer a thread was given has a result or is still to be done,
      and what the thread has committed is, in order, exactly the transfers for which it
      returned success, and at most the one it is returning from.  So a transfer that is
      refused or gives up has committed nothing. */
  lemma SuccessIffCommitted(s0: State, acts: seq<nat>, t: nat)
    requires Init(s0) && Legal(TRANSFERS, s0, acts) && t < |s0.threads|
    ensures var s := After(TRANSFERS, s0, acts);
            |s.threads| == |s0.threads| && ResultsOk(s, t, s0.threads[t].todo)
  {
    var xs := s0.threads[t].todo;
    var inv := (s: State) => |s.threads| == |s0.threads| && ResultsOk(s, t, xs);
    forall s: State, u: nat | inv(s) && TRANSFERS.enabled(s, u)
      ensures inv(TRANSFERS.step(s, u))
    {
      StepKeepsResults(s, u, t, xs);
      KeysStay(s, u, s.balances);
    }
    hide Step, Enabled;
    InvariantAlongRun(TRANSFERS, inv, s0, acts);
  }

  // -------------------------------------------------- no deadlock, and termination

  /** The lock operations that an attempt has still to make; everything else is an act, and
      so is taking the same lock again, or giving it back once. */
  function Rest(th: Thread): seq<Cmd<Pc>>
    requires th.todo != []
  {
    var f, g := First(th.todo[0]), Second(th.todo[0]);
    if f == g then
      match th.pc
      case Lock1 => [Lock(f)] + [Unlock(f)]
      case Unlock1(_) => [Unlock(f)]
      case _ => [Do(th.pc)] + if Holds1(th.pc) then [Unlock(f)] else []
    else
      match th.pc
      case Lock1 => [Lock(f)] + ([Lock(g)] + ([Unlock(g)] + [Unlock(f)]))
      case Lock2 => [Lock(g)] + ([Unlock(g)] + [Unlock(f)])
      case Unlock2(_) => [Unlock(g)] + [Unlock(f)]
      case Unlock1(_) => [Unlock(f)]
      case _ => [Do(th.pc)] + if Holds1(th.pc) then [Unlock(g)] + [Unlock(f)] else []
  }

  lemma RestIsOrdered(th: Thread)
    requires th.todo != []
    ensures WellOrdered(Rest(th), Held(th))
  {
    var f, g := First(th.todo[0]), Second(th.todo[0]);
    var none: seq<Cmd<Pc>> := [];
    var one: seq<Cmd<Pc>> := [Unlock(f)];
    assert WellOrdered(none, {});
    hide WellOrdered;
    OrderedCons(Unlock(f), none, {f}, {});
    assert [Unlock(f)] + none == one && [Do(th.pc)] + none == [Do(th.pc)];
    OrderedCons(Do(th.pc), none, {}, {});
    OrderedCons(Lock(f), one, {}, {f});
    OrderedCons(Do(th.pc), one, {f}, {f});
    assert Held(th) == if Holds2(th.pc) then {f, g} else if Holds1(th.pc) then {f} else {};
    if f != g {
      var two: seq<Cmd<Pc>> := [Unlock(g)] + one;
      OrderedCons(Unlock(g), one, {f, g}, {f});
      OrderedCons(Lock(g), two, {f}, {f, g});
      OrderedCons(Lock(f), [Lock(g)] + two, {}, {f});
      OrderedCons(Do(th.pc), two, {f, g}, {f, g});
    } else {
      assert {f, g} == {f};
    }
  }

  predicate AllDone(s: State) {
    forall t :: 0 <= t < |s.threads| ==> s.threads[t].todo == []
  }

  /** Every maximal run completes all transfers and frees all locks.  Each transfer has one
      result, and those that succeeded are what the thread has committed, in order. */
  lemma NoDeadlock(s0: State, acts: seq<nat>)
    requires Init(s0) && Legal(TRANSFERS, s0, acts) && Stuck(TRANSFERS, After(TRANSFERS, s0, acts))
    ensures AllDone(After(TRANSFERS, s0, acts))
    ensures After(TRANSFERS, s0, acts).owner == map[]
    ensures var s := After(TRANSFERS, s0, acts);
            && |s.threads| == |s0.threads|
            && forall t :: 0 <= t < |s.threads| ==>
                 var xs, results := s0.threads[t].todo, s.threads[t].results;
                 |results| == |xs| && LogOf(s.log, t) == Succeeded(xs, results)
  {
    hide LogOf, Succeeded;
    InvAlongRun(s0, acts);
    var s := After(TRANSFERS, s0, acts);
    forall t | 0 <= t < |s0.threads|
      ensures |s.threads| == |s0.threads| && ResultsOk(s, t, s0.threads[t].todo)
    {
      SuccessIffCommitted(s0, acts, t);
    }
    if !AllDone(s) { SomethingEnabled(s, s0.balances); }
    forall t | 0 <= t < |s.threads|
      ensures HeldBy(s.owner, t) == {}
    {
      assert ThreadOk(s, Serial(s.log, s0.balances), t);
    }
    assert forall id :: id in s.owner ==> id in HeldBy(s.owner, s.owner[id]);
  }

  lemma SomethingEnabled(s: State, m0: Balances)
    requires Inv(s, m0) && !AllDone(s)
    ensures !Stuck(TRANSFERS, s)
  {
    hide ThreadOk, WellOrdered, Covered, Expected, Enabled, Serial;
    var m := Serial(s.log, m0);
    var rest := seq(|s.threads|, t requires 0 <= t < |s.threads| =>
      if s.threads[t].todo == [] then [] else Rest(s.threads[t]));
    forall t | 0 <= t < |s.threads|
      ensures WellOrdered(rest[t], HeldBy(s.owner, t))
      ensures rest[t] == [] <==> s.threads[t].todo == []
    {
      UnfinishedIsOrdered(s, m, t);
    }
    var u :| 0 <= u < |s.threads| && s.threads[u].todo != [];
    assert rest[u] != [];
    var t := SomeoneCanMove(s.owner, rest);
    NextIsEnabled(s, m, t);
    assert TRANSFERS.enabled(s, t);
  }

  lemma UnfinishedIsOrdered(s: State, m: Balances, t: nat)
    requires t < |s.threads| && m.Keys == s.balances.Keys && ThreadOk(s, m, t)
    ensures s.threads[t].todo == [] ==> WellOrdered<Pc>([], HeldBy(s.owner, t))
    ensures s.threads[t].todo != [] ==> Rest(s.threads[t]) != [] && WellOrdered(Rest(s.threads[t]), HeldBy(s.owner, t))
  {
    if s.threads[t].todo != [] { RestIsOrdered(s.threads[t]); }
  }

  lemma NextIsEnabled(s: State, m: Balances, t: nat)
    requires t < |s.threads| && m.Keys == s.balances.Keys && ThreadOk(s, m, t)
    requires s.threads[t].todo != [] && Rest(s.threads[t]) != [] && CanRun(s.owner, Rest(s.threads[t])[0])
    ensures Enabled(s, t)
  {
    hide AttemptOk;
    var th := s.threads[t];
    if th.pc == Lock2 && First(th.todo[0]) == Second(th.todo[0]) {
      assert First(th.todo[0]) in HeldBy(s.owner, t);
    }
  }

  /** Steps left in the current attempt. */
  function PcRank(pc: Pc): nat {
    match pc
    case SnapVersion1 => 14
    case SnapBalance1 => 13
    case SnapVersion2 => 12
    case SnapBalance2 => 11
    case Decide => 10
    case Lock1 => 9
    case Lock2 => 8
    case Validate => 7
    case Fetch => 6
    case Set1 => 5
    case Set2 => 4
    case Inc1 => 3
    case Inc2 => 2
    case Unlock2(_) => 1
    case Unlock1(_) => 0
  }

  const ATTEMPT := 15

  /** A transfer makes at most MAX_RETRIES attempts of at most ATTEMPT steps. */
  function Fuel(th: Thread): nat {
    if th.todo == [] || th.attempt >= MAX_RETRIES then |th.todo| * ATTEMPT * MAX_RETRIES
    else (|th.todo| - 1) * ATTEMPT * MAX_RETRIES + (MAX_RETRIES - th.attempt - 1) * ATTEMPT + PcRank(th.pc) + 1
  }

  function TotalFuel(threads: seq<Thread>): nat {
    if threads == [] then 0 else Fuel(threads[0]) + TotalFuel(threads[1..])
  }

  lemma {:induction false} TotalFuelUpdate(threads: seq<Thread>, t: nat, th: Thread)
    requires t < |threads|
    ensures TotalFuel(threads[t := th]) == TotalFuel(threads) - Fuel(threads[t]) + Fuel(th)
  {
    if t == 0 {
      assert threads[0 := th][1..] == threads[1..];
    } else {
      TotalFuelUpdate(threads[1..], t - 1, th);
      assert threads[t := th][1..] == threads[1..][t - 1 := th];
    }
  }

  lemma FuelStep(s: State, th: Thread)
    requires th.todo != [] && Known(s, th.todo[0]) && th.attempt < MAX_RETRIES
    ensures Exec(s, th).attempt < MAX_RETRIES && Fuel(Exec(s, th)) < Fuel(th)
  {
  }

  predicate AttemptsBounded(s: State) {
    forall t :: 0 <= t < |s.threads| ==> s.threads[t].attempt < MAX_RETRIES
  }

  lemma RunsTerminate(s0: State, acts: seq<nat>)
    requires Init(s0) && Legal(TRANSFERS, s0, acts)
    ensures |acts| <= TotalFuel(s0.threads)
  {
    forall s: State, t: nat | AttemptsBounded(s) && TRANSFERS.enabled(s, t)
      ensures AttemptsBounded(TRANSFERS.step(s, t))
      ensures TotalFuel(TRANSFERS.step(s, t).threads) < TotalFuel(s.threads)
    {
      FuelStep(s, s.threads[t]);
      TotalFuelUpdate(s.threads, t, Exec(s, s.threads[t]));
    }
    RunsAreBounded(TRANSFERS, AttemptsBounded, (s: State) => TotalFuel(s.threads), s0, acts);
  }
}
