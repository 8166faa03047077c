/** The objects of java/stm/BankSTM.java and its transfer() loop, in imperative form; what
  the other threads do is given.  Module BankStm has the interleaving step by step. */
module BankStmObjects {
  import opened BankStm

  /** What another thread's commit does to one of the two accounts. */
  datatype Deal = Deal(onPayer: bool, delta: int)

  /** `same`: payer and payee are one account. */
  function AfterDeal(b: (int, int), d: Deal, same: bool): (int, int) {
    if same then (b.0 + d.delta, b.0 + d.delta)
    else if d.onPayer then (b.0 + d.delta, b.1) else (b.0, b.1 + d.delta)
  }

  function Dealt(b: (int, int), deals: seq<Deal>, same: bool): (int, int)
    decreases |deals|
  {
    if deals == [] then b else Dealt(AfterDeal(b, deals[0], same), deals[1..], same)
  }

  /** How many of them are on the payer, or on the payee. */
  function CountOn(deals: seq<Deal>, payer: bool, same: bool): nat {
    if deals == [] then 0 else CountOn(deals[1..], payer, same) + if same || deals[0].onPayer == payer then 1 else 0
  }

  lemma {:induction false} DealsAppend(b: (int, int), x: seq<Deal>, y: seq<Deal>, same: bool)
    ensures Dealt(b, x + y, same) == Dealt(Dealt(b, x, same), y, same)
    ensures forall payer :: CountOn(x + y, payer, same) == CountOn(x, payer, same) + CountOn(y, payer, same)
    decreases |x|
  {
    if x == [] {
      assert x + y == y;
    } else {
      assert (x + y)[1..] == x[1..] + y;
      DealsAppend(AfterDeal(b, x[0], same), x[1..], y, same);
    }
  }

  /** An account on which there is no deal keeps its balance. */
  lemma {:induction false} Untouched(b: (int, int), deals: seq<Deal>, same: bool)
    ensures CountOn(deals, true, same) == 0 ==> Dealt(b, deals, same).0 == b.0
    ensures same && b.0 == b.1 ==> Dealt(b, deals, same).0 == Dealt(b, deals, same).1
    decreases |deals|
  {
    if deals != [] { Untouched(AfterDeal(b, deals[0], same), deals[1..], same); }
  }

  /** What happens during one attempt: between the reads of the first account's version and
      balance, before the second account is read, between its version and balance, and from
      there until both locks are taken. */
  datatype Gaps = Gaps(inFirst: seq<Deal>, between: seq<Deal>, inSecond: seq<Deal>, beforeLocks: seq<Deal>)

  function Snapshot(g: Gaps): seq<Deal> {
    g.inFirst + g.between + g.inSecond
  }

  function All(g: Gaps): seq<Deal> {
    Snapshot(g) + g.beforeLocks
  }

  /** The balance that the snapshot has of the payer. */
  function PayerRead(b: (int, int), g: Gaps, ascending: bool, same: bool): int {
    if ascending || same then Dealt(b, g.inFirst, same).0 else Dealt(b, Snapshot(g), same).0
  }

  /** An account has changed since its version was read. */
  predicate Disturbed(g: Gaps, ascending: bool, same: bool) {
    CountOn(All(g), ascending, same) > 0 || CountOn(g.inSecond + g.beforeLocks, !ascending, same) > 0
  }

  /** The balances of payer and payee at attempt `k`, if all attempts before it failed. */
  function AtAttempt(b: (int, int), others: seq<Gaps>, k: nat, same: bool): (int, int)
    requires k <= |others|
  {
    if k == 0 then b else Dealt(AtAttempt(b, others, k - 1, same), All(others[k - 1]), same)
  }

  class Account {
    const id: nat
    var balance: int
    var version: nat

    constructor (id: nat, initialBalance: int)
      ensures this.id == id && balance == initialBalance && version == 0
    {
      this.id, balance, version := id, initialBalance, 0;
    }

    method SetBalance(b: int)
      modifies this`balance
      ensures balance == b
    {
      balance := b;
    }

    method IncVersion()
      modifies this`version
      ensures version == old(version) + 1
    {
      version := version + 1;
    }
  }

  /** Other threads commit `deals`, one after the other. */
  method Interfere(payer: Account, payee: Account, deals: seq<Deal>)
    modifies payer, payee
    ensures (payer.balance, payee.balance) == Dealt(old((payer.balance, payee.balance)), deals, payer == payee)
    ensures payer.version == old(payer.version) + CountOn(deals, true, payer == payee)
    ensures payee.version == old(payee.version) + CountOn(deals, false, payer == payee)
  {
    var i := 0;
    ghost var b0, same := (payer.balance, payee.balance), payer == payee;
    while i < |deals|
      invariant i <= |deals|
      invariant Dealt((payer.balance, payee.balance), deals[i..], same) == Dealt(b0, deals, same)
      invariant payer.version + CountOn(deals[i..], true, same) == old(payer.version) + CountOn(deals, true, same)
      invariant payee.version + CountOn(deals[i..], false, same) == old(payee.version) + CountOn(deals, false, same)
    {
      ghost var b := (payer.balance, payee.balance);
      var account := if deals[i].onPayer then payer else payee;
      account.SetBalance(account.balance + deals[i].delta);
      account.IncVersion();
      assert (payer.balance, payee.balance) == AfterDeal(b, deals[i], same);
      assert deals[i..][1..] == deals[i + 1..];
      i := i + 1;
    }
  }

  /** What a commit makes of the balances of payer and payee. */
  function Committed(b: (int, int), amount: int, ascending: bool, same: bool): (int, int) {
    if same then (b.0 + amount, b.0 + amount)
    else if ascending then (b.0 - amount, b.1 + amount)
    else (b.1 - amount, b.0 + amount)
  }

  /** It is the commit of the interleaved model. */
  lemma CommittedIsCommit(m: Balances, x: Transfer)
    requires x.src in m && x.dst in m
    ensures x.src in Commit(m, x) && x.dst in Commit(m, x)
    ensures (Commit(m, x)[x.src], Commit(m, x)[x.dst])
         == Committed((m[x.src], m[x.dst]), x.amount, x.src < x.dst, x.src == x.dst)
  {
  }

  datatype Tried = Refused | Conflict | Done

  /** One turn of the retry loop. */
  method Attempt(from: Account, to: Account, amount: int, g: Gaps) returns (r: Tried)
    modifies from, to
    ensures var b, up, same := old((from.balance, to.balance)), from.id < to.id, from == to;
      && (r.Refused? <==> PayerRead(b, g, up, same) < amount)
      && (r.Conflict? <==> PayerRead(b, g, up, same) >= amount && Disturbed(g, up, same))
      && (from.balance, to.balance) ==
           match r
           case Refused => Dealt(b, Snapshot(g), same)
           case Conflict => Dealt(b, All(g), same)
           case Done => Committed(Dealt(b, All(g), same), amount, up, same)
    ensures r.Done? ==> Dealt(old((from.balance, to.balance)), All(g), from == to).0 >= amount
  {
    hide Dealt, CountOn;
    ghost var b, up, same := (from.balance, to.balance), from.id < to.id, from == to;
    SnapshotDeals(b, g, up, same);
    var first, second := to, from;
    if from.id < to.id { first, second := from, to; }
    var vFrom := first.version;
    Interfere(from, to, g.inFirst);
    var balFrom := first.balance;
    Interfere(from, to, g.between);
    var vTo := second.version;
    Interfere(from, to, g.inSecond);
    var balTo := second.balance;
    var actualFrom := if first == from then balFrom else balTo;
    if actualFrom < amount {
      return Refused;
    }
    Interfere(from, to, g.beforeLocks);
    if first.version != vFrom || second.version != vTo {
      return Conflict;
    }
    CommitWrites(first, second, from, amount);
    return Done;
  }

  /** The deals of the gaps, one after the other, are those of the attempt. */
  lemma SnapshotDeals(b: (int, int), g: Gaps, up: bool, same: bool)
    ensures var b1 := Dealt(b, g.inFirst, same); var b2 := Dealt(b1, g.between, same); var b3 := Dealt(b2, g.inSecond, same);
            && Dealt(b, Snapshot(g), same) == b3 && Dealt(b, All(g), same) == Dealt(b3, g.beforeLocks, same)
            && forall payer ::
                 && CountOn(All(g), payer, same) == CountOn(g.inFirst, payer, same) + CountOn(g.between, payer, same)
                      + CountOn(g.inSecond, payer, same) + CountOn(g.beforeLocks, payer, same)
                 && CountOn(g.inSecond + g.beforeLocks, payer, same) == CountOn(g.inSecond, payer, same) + CountOn(g.beforeLocks, payer, same)
    ensures same ==> forall deals :: CountOn(deals, true, same) == CountOn(deals, false, same)
    ensures !Disturbed(g, up, same) ==> PayerRead(b, g, up, same) == Dealt(b, All(g), same).0
  {
    DealsAppend(b, g.inFirst, g.between, same);
    DealsAppend(b, g.inFirst + g.between, g.inSecond, same);
    DealsAppend(b, Snapshot(g), g.beforeLocks, same);
    DealsAppend(b, g.inSecond, g.beforeLocks, same);
    var b1 := Dealt(b, g.inFirst, same);
    var b2 := Dealt(b1, g.between, same);
    var b3 := Dealt(b2, g.inSecond, same);
    Untouched(b1, g.between, same);
    Untouched(b2, g.inSecond, same);
    Untouched(b3, g.beforeLocks, same);
    if same {
      forall deals ensures CountOn(deals, true, same) == CountOn(deals, false, same) { SameCount(deals); }
    }
  }

  lemma {:induction false} SameCount(deals: seq<Deal>)
    ensures CountOn(deals, true, true) == CountOn(deals, false, true)
  {
    if deals != [] { SameCount(deals[1..]); }
  }

  /** transfer(), for any two accounts, or one, other threads committing `others[k]` during
      attempt `k`.  It commits in the first attempt in which neither account changes after its
      version has been read, gives up in the first whose snapshot cannot pay, and after
      100 attempts. */
  method RunTransfer(from: Account, to: Account, amount: int, others: seq<Gaps>)
    returns (r: Result, attempt: nat)
    requires |others| == 100
    modifies from, to
    ensures attempt <= 100 && (r == MaxRetries <==> attempt == 100)
    ensures forall k :: 0 <= k < attempt ==>
      && Disturbed(others[k], from.id < to.id, from == to)
      && PayerRead(AtAttempt(old((from.balance, to.balance)), others, k, from == to), others[k], from.id < to.id, from == to) >= amount
    ensures var up, same := from.id < to.id, from == to;
      var b := AtAttempt(old((from.balance, to.balance)), others, attempt, same);
      match r
      case Success =>
        && !Disturbed(others[attempt], up, same) && PayerRead(b, others[attempt], up, same) >= amount
        && Dealt(b, All(others[attempt]), same).0 >= amount
        && (from.balance, to.balance) == Committed(Dealt(b, All(others[attempt]), same), amount, up, same)
      case Insufficient =>
        && PayerRead(b, others[attempt], up, same) < amount
        && (from.balance, to.balance) == Dealt(b, Snapshot(others[attempt]), same)
      case MaxRetries => (from.balance, to.balance) == b
  {
    hide Dealt, CountOn, Disturbed, PayerRead, Snapshot, All;
    ghost var same := from == to;
    attempt := 0;
    while attempt < MAX_RETRIES
      invariant attempt <= MAX_RETRIES
      invariant (from.balance, to.balance) == AtAttempt(old((from.balance, to.balance)), others, attempt, same)
      invariant forall k :: 0 <= k < attempt ==>
        && Disturbed(others[k], from.id < to.id, same)
        && PayerRead(AtAttempt(old((from.balance, to.balance)), others, k, same), others[k], from.id < to.id, same) >= amount
    {
      var t := Attempt(from, to, amount, others[attempt]);
      match t {
        case Refused => return Insufficient, attempt;
        case Done => return Success, attempt;
        case Conflict => attempt := attempt + 1;
      }
    }
    return MaxRetries, attempt;
  }

  /** The four writes under the locks. */
  method CommitWrites(first: Account, second: Account, from: Account, amount: int)
    requires from == first || from == second
    modifies first, second
    ensures first != second ==>
      && first.balance == (if first == from then old(first.balance) - amount else old(second.balance) + amount)
      && second.balance == (if first == from then old(second.balance) + amount else old(first.balance) - amount)
      && first.version == old(first.version) + 1 && second.version == old(second.version) + 1
    ensures first == second ==> first.balance == old(first.balance) + amount && first.version == old(first.version) + 2
  {
    var fBal, sBal := first.balance, second.balance;
    if first == from {
      first.SetBalance(fBal - amount);
      second.SetBalance(sBal + amount);
    } else {
      second.SetBalance(fBal - amount);
      first.SetBalance(sBal + amount);
    }
    first.IncVersion();
    second.IncVersion();
  }
}
