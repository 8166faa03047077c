/** Sums of balances. */
module Money {
  type Account = nat

  function Sum(accounts: seq<Account>, m: map<Account, int>): int {
    if accounts == [] then 0
    else (if accounts[0] in m then m[accounts[0]] else 0) + Sum(accounts[1..], m)
  }

  predicate NoDuplicates(accounts: seq<Account>) {
    forall i, j :: 0 <= i < j < |accounts| ==> accounts[i] != accounts[j]
  }

  /** `m'` is `m` after `amount` has gone from `src` to `dst`. */
  predicate Moved(accounts: seq<Account>, m: map<Account, int>, m': map<Account, int>,
                  src: Account, dst: Account, amount: int) {
    forall a :: a in accounts ==>
      a in m && a in m' && m'[a] == m[a] + (if a == src then -amount else if a == dst then amount else 0)
  }

  lemma {:induction false} SumAfterMove(accounts: seq<Account>, m: map<Account, int>, m': map<Account, int>,
                                        src: Account, dst: Account, amount: int)
    requires NoDuplicates(accounts) && src != dst && Moved(accounts, m, m', src, dst, amount)
    ensures Sum(accounts, m') == Sum(accounts, m)
              - (if src in accounts then amount else 0) + (if dst in accounts then amount else 0)
  {
    if accounts != [] {
      SumAfterMove(accounts[1..], m, m', src, dst, amount);
      assert accounts == [accounts[0]] + accounts[1..];
    }
  }

  lemma {:induction false} SumAfterChange(accounts: seq<Account>, m: map<Account, int>, a: Account, delta: int)
    requires NoDuplicates(accounts) && a in m
    ensures Sum(accounts, m[a := m[a] + delta]) == Sum(accounts, m) + if a in accounts then delta else 0
  {
    if accounts != [] {
      SumAfterChange(accounts[1..], m, a, delta);
      assert accounts == [accounts[0]] + accounts[1..];
    }
  }

  lemma {:induction false} SumDependsOnAccounts(accounts: seq<Account>, m: map<Account, int>, m': map<Account, int>)
    requires forall a :: a in accounts ==> (a in m <==> a in m') && (a in m ==> m[a] == m'[a])
    ensures Sum(accounts, m') == Sum(accounts, m)
  {
    if accounts != [] {
      SumDependsOnAccounts(accounts[1..], m, m');
      assert accounts[0] in accounts;
    }
  }
}
