/** Histories of a queue: who put or took what, in order. */
module Logs {
  function Items(log: seq<(nat, int)>): seq<int> {
    seq(|log|, i requires 0 <= i < |log| => log[i].1)
  }

  /** What thread `t` contributed to a log, in order. */
  function By(log: seq<(nat, int)>, t: nat): seq<int> {
    if log == [] then []
    else By(log[..|log| - 1], t) + if log[|log| - 1].0 == t then [log[|log| - 1].1] else []
  }

  lemma BySnoc(log: seq<(nat, int)>, e: (nat, int), t: nat)
    ensures By(log + [e], t) == By(log, t) + if e.0 == t then [e.1] else []
  {
    assert (log + [e])[..|log|] == log;
  }

  /** A log splits into the contributions of the threads `0 .. n`. */
  function Contributions(log: seq<(nat, int)>, n: nat): multiset<int> {
    if n == 0 then multiset{} else Contributions(log, n - 1) + multiset(By(log, n - 1))
  }

  lemma {:induction false} ContributionsSnoc(log: seq<(nat, int)>, e: (nat, int), n: nat)
    ensures Contributions(log + [e], n) == Contributions(log, n) + if e.0 < n then multiset{e.1} else multiset{}
  {
    hide By;
    if n > 0 {
      ContributionsSnoc(log, e, n - 1);
      BySnoc(log, e, n - 1);
    }
  }

  lemma {:induction false} ContributionsOfNothing(n: nat)
    ensures Contributions([], n) == multiset{}
  {
    if n > 0 { ContributionsOfNothing(n - 1); }
  }

  lemma {:induction false} LogIsContributions(log: seq<(nat, int)>, n: nat)
    requires forall e :: e in log ==> e.0 < n
    ensures multiset(Items(log)) == Contributions(log, n)
  {
    hide By, Contributions;
    if log == [] {
      ContributionsOfNothing(n);
    } else {
      var init, e := log[..|log| - 1], log[|log| - 1];
      LogIsContributions(init, n);
      assert log == init + [e] && Items(log) == Items(init) + [e.1];
      ContributionsSnoc(init, e, n);
    }
  }
}
