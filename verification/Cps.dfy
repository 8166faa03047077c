/** python/continuation_cps/continuation_cps.py: direct style, continuation-passing style, and
  continuation-passing style on a trampoline. */
module Cps {
  function FibDirect(n: int): int
    decreases if n < 0 then 0 else n
  {
    if n <= 1 then n else FibDirect(n - 1) + FibDirect(n - 2)
  }

  function FibCps<R>(n: int, cont: int -> R): R
    decreases if n < 0 then 0 else n
  {
    if n <= 1 then cont(n)
    else FibCps(n - 1, (a: int) => FibCps(n - 2, (b: int) => cont(a + b)))
  }

  function FactDirect(n: nat): int {
    if n == 0 then 1 else n * FactDirect(n - 1)
  }

  function FactCps<R>(n: nat, cont: int -> R): R {
    if n == 0 then cont(1) else FactCps(n - 1, (res: int) => cont(n * res))
  }

  lemma {:induction false} FibCpsIsDirect<R>(n: int, cont: int -> R)
    ensures FibCps(n, cont) == cont(FibDirect(n))
    decreases if n < 0 then 0 else n
  {
    if n > 1 {
      var a := FibDirect(n - 1);
      FibCpsIsDirect(n - 1, (a: int) => FibCps(n - 2, (b: int) => cont(a + b)));
      FibCpsIsDirect(n - 2, (b: int) => cont(a + b));
    }
  }

  lemma {:induction false} FactCpsIsDirect<R>(n: nat, cont: int -> R)
    ensures FactCps(n, cont) == cont(FactDirect(n))
  {
    if n > 0 {
      FactCpsIsDirect(n - 1, (res: int) => cont(n * res));
    }
  }

  // ------------------------------------------------------ which numbers these are

  /** The first Fibonacci numbers, and what becomes of a number below 2. */
  lemma FibValues(n: int)
    ensures n <= 1 ==> FibDirect(n) == n
    ensures FibDirect(2) == 1 && FibDirect(3) == 2 && FibDirect(4) == 3 && FibDirect(5) == 5 && FibDirect(6) == 8
  {
  }

  /** The addition law; with the first values it leaves no other sequence. */
  lemma {:induction false} FibAdds(m: nat, n: nat)
    ensures FibDirect(m + n + 1) == FibDirect(m + 1) * FibDirect(n + 1) + FibDirect(m) * FibDirect(n)
    decreases m
  {
    if m == 0 {
      FibValues(0);
      FibValues(1);
    } else {
      FibAdds(m - 1, n + 1);
      Regroup(FibDirect(m), FibDirect(m - 1), FibDirect(n + 1), FibDirect(n));
    }
  }

  lemma Regroup(p: int, q: int, u: int, w: int)
    ensures p * (u + w) + q * u == (p + q) * u + p * w
  {
  }

  function Product(s: seq<int>): int {
    if s == [] then 1 else s[0] * Product(s[1..])
  }

  lemma {:induction false} ProductSnoc(s: seq<int>, x: int)
    ensures Product(s + [x]) == Product(s) * x
  {
    if s == [] {
      assert [] + [x] == [x] && [x][1..] == [];
    } else {
      ProductSnoc(s[1..], x);
      assert (s + [x])[1..] == s[1..] + [x];
      assert s[0] * (Product(s[1..]) * x) == s[0] * Product(s[1..]) * x;
    }
  }

  /** The factorial of n is the product of 1, 2, ..., n. */
  lemma {:induction false} FactIsProduct(n: nat)
    ensures FactDirect(n) == Product(seq(n, i => i + 1))
  {
    if n > 0 {
      FactIsProduct(n - 1);
      ProductSnoc(seq(n - 1, i => i + 1), n);
      assert seq(n, i => i + 1) == seq(n - 1, i => i + 1) + [n];
    }
  }

  // ------------------------------------------------------------- tree traversal

  datatype Tree<V> = Leaf | Node(value: V, left: Tree<V>, right: Tree<V>)

  function TreeWalkCps<V, R>(node: Tree<V>, cont: seq<V> -> R): R {
    match node
    case Leaf => cont([])
    case Node(value, left, right) =>
      TreeWalkCps(left, (leftVals: seq<V>) =>
        TreeWalkCps(right, (rightVals: seq<V>) => cont(leftVals + [value] + rightVals)))
  }

  function InOrder<V>(node: Tree<V>): seq<V> {
    match node
    case Leaf => []
    case Node(value, left, right) => InOrder(left) + [value] + InOrder(right)
  }

  lemma {:induction false} TreeWalkIsInOrder<V, R>(node: Tree<V>, cont: seq<V> -> R)
    ensures TreeWalkCps(node, cont) == cont(InOrder(node))
  {
    match node
    case Leaf =>
    case Node(value, left, right) =>
      var leftVals := InOrder(left);
      TreeWalkIsInOrder(left, (leftVals: seq<V>) =>
        TreeWalkCps(right, (rightVals: seq<V>) => cont(leftVals + [value] + rightVals)));
      TreeWalkIsInOrder(right, (rightVals: seq<V>) => cont(leftVals + [value] + rightVals));
  }

  /** What is in a tree. */
  function Values<V>(node: Tree<V>): multiset<V> {
    match node
    case Leaf => multiset{}
    case Node(value, left, right) => multiset{value} + Values(left) + Values(right)
  }

  predicate SearchTree(node: Tree<int>) {
    match node
    case Leaf => true
    case Node(value, left, right) =>
      && SearchTree(left) && SearchTree(right)
      && AtMost(Values(left), value) && AtLeast(Values(right), value)
  }

  predicate AtMost(values: multiset<int>, bound: int) {
    forall x :: x in values ==> x <= bound
  }

  predicate AtLeast(values: multiset<int>, bound: int) {
    forall x :: x in values ==> bound <= x
  }

  predicate Sorted(s: seq<int>) {
    forall i, j :: 0 <= i < j < |s| ==> s[i] <= s[j]
  }

  /** The in-order list has just the values of the tree. */
  lemma {:induction false} InOrderKeepsValues<V>(node: Tree<V>)
    ensures multiset(InOrder(node)) == Values(node)
  {
    match node
    case Leaf =>
    case Node(value, left, right) =>
      InOrderKeepsValues(left);
      InOrderKeepsValues(right);
      assert multiset(InOrder(left) + [value] + InOrder(right)) == multiset(InOrder(left)) + multiset{value} + multiset(InOrder(right));
  }

  lemma SortedParts(a: seq<int>, x: int, b: seq<int>)
    ensures Sorted(a + [x] + b) <==> Sorted(a) && Sorted(b) && AtMost(multiset(a), x) && AtLeast(multiset(b), x)
  {
    Bounds(a, x);
    Bounds(b, x);
    hide AtMost, AtLeast;
    var s, n := a + [x] + b, |a|;
    assert forall i :: 0 <= i < n ==> s[i] == a[i];
    assert s[n] == x && forall i :: 0 <= i < |b| ==> s[n + 1 + i] == b[i];
    if Sorted(a) && Sorted(b) && AtMost(multiset(a), x) && AtLeast(multiset(b), x) {
      forall i, j | 0 <= i < j < |s|
        ensures s[i] <= s[j]
      {
        assert i < n ==> s[i] <= x;
        assert j > n ==> x <= b[j - n - 1] == s[j];
        if i > n { assert b[i - n - 1] <= b[j - n - 1]; }
      }
    }
  }

  lemma Bounds(s: seq<int>, x: int)
    ensures AtMost(multiset(s), x) <==> forall i :: 0 <= i < |s| ==> s[i] <= x
    ensures AtLeast(multiset(s), x) <==> forall i :: 0 <= i < |s| ==> x <= s[i]
  {
    assert forall i :: 0 <= i < |s| ==> s[i] in multiset(s);
  }

  /** It is sorted exactly when the tree is a search tree. */
  lemma {:induction false} InOrderSortedIff(node: Tree<int>)
    ensures Sorted(InOrder(node)) <==> SearchTree(node)
  {
    hide AtMost, AtLeast;
    match node
    case Leaf =>
    case Node(value, left, right) =>
      InOrderSortedIff(left);
      InOrderSortedIff(right);
      InOrderKeepsValues(left);
      InOrderKeepsValues(right);
      SortedParts(InOrder(left), value, InOrder(right));
  }

  // ------------------------------------------------------------------ trampoline

  /** The closures of the trampolined functions, by what they capture.  `Final` stands for
      any continuation of the caller that ends the computation. */
  datatype Cont =
    | Final(f: int -> int)             // x => Done(f(x))
    | FibRight(n: int, next: Cont)     // a => Bounce(() => fib(n - 2, b => next(a + b)))
    | FibSum(a: int, next: Cont)       // b => next(a + b)
    | Times(factor: int, next: Cont)   // res => next(factor * res)

  datatype Thunk = CallFib(fibOf: int, cont: Cont) | CallFact(factOf: nat, cont: Cont)

  datatype Bouncy = Bounce(thunk: Thunk) | Done(value: int)

  function Resume(cont: Cont, x: int): Bouncy {
    match cont
    case Final(f) => Done(f(x))
    case FibRight(n, next) => Bounce(CallFib(n - 2, FibSum(x, next)))
    case FibSum(a, next) => Resume(next, a + x)
    case Times(factor, next) => Resume(next, factor * x)
  }

  function FibTrampoline(n: int, cont: Cont): Bouncy {
    if n <= 1 then Resume(cont, n) else Bounce(CallFib(n - 1, FibRight(n, cont)))
  }

  function FactTrampoline(n: nat, cont: Cont): Bouncy {
    if n == 0 then Resume(cont, 1) else Bounce(CallFact(n - 1, Times(n, cont)))
  }

  function Call(thunk: Thunk): Bouncy {
    match thunk
    case CallFib(n, cont) => FibTrampoline(n, cont)
    case CallFact(n, cont) => FactTrampoline(n, cont)
  }

  /** What a continuation makes of a value, in the end. */
  function Outcome(cont: Cont, x: int): int {
    match cont
    case Final(f) => f(x)
    case FibRight(n, next) => Outcome(next, x + FibDirect(n - 2))
    case FibSum(a, next) => Outcome(next, a + x)
    case Times(factor, next) => Outcome(next, factor * x)
  }

  function Meaning(b: Bouncy): int {
    match b
    case Done(value) => value
    case Bounce(CallFib(n, cont)) => Outcome(cont, FibDirect(n))
    case Bounce(CallFact(n, cont)) => Outcome(cont, FactDirect(n))
  }

  /** How many thunks fib_cps_trampoline(n, ...) makes before it calls its continuation. */
  function FibBounces(n: int): (r: nat)
    ensures n >= 0 ==> r == 2 * (FibDirect(n + 1) - 1)
    decreases if n < 0 then 0 else n
  {
    if n <= 1 then 0 else 2 + FibBounces(n - 1) + FibBounces(n - 2)
  }

  function ContBounces(cont: Cont): nat {
    match cont
    case Final(_) => 0
    case FibRight(n, next) => 1 + FibBounces(n - 2) + ContBounces(next)
    case FibSum(_, next) => ContBounces(next)
    case Times(_, next) => ContBounces(next)
  }

  /** How many thunks are still to be called. */
  function Bounces(b: Bouncy): nat {
    match b
    case Done(_) => 0
    case Bounce(CallFib(n, cont)) => 1 + FibBounces(n) + ContBounces(cont)
    case Bounce(CallFact(n, cont)) => 1 + n + ContBounces(cont)
  }

  lemma {:induction false} ResumeOk(cont: Cont, x: int)
    ensures Meaning(Resume(cont, x)) == Outcome(cont, x)
    ensures Bounces(Resume(cont, x)) == ContBounces(cont)
  {
    match cont
    case Final(_) =>
    case FibRight(_, _) =>
    case FibSum(a, next) => ResumeOk(next, a + x);
    case Times(factor, next) => ResumeOk(next, factor * x);
  }

  lemma CallOk(thunk: Thunk)
    ensures Meaning(Call(thunk)) == Meaning(Bounce(thunk))
    ensures Bounces(Call(thunk)) + 1 == Bounces(Bounce(thunk))
  {
    match thunk
    case CallFib(n, cont) => if n <= 1 { ResumeOk(cont, n); }
    case CallFact(n, cont) => if n == 0 { ResumeOk(cont, 1); }
  }

  /** trampoline: it ends, whatever it is given. */
  method Trampoline(bouncy: Bouncy) returns (value: int, ghost calls: nat)
    ensures value == Meaning(bouncy) && calls == Bounces(bouncy)
  {
    var result := bouncy;
    calls := 0;
    while result.Bounce?
      invariant Meaning(result) == Meaning(bouncy) && calls + Bounces(result) == Bounces(bouncy)
      decreases Bounces(result)
    {
      CallOk(result.thunk);
      result := Call(result.thunk);
      calls := calls + 1;
    }
    value := result.value;
  }

  /** `b` after `k` thunks, or fewer if it is done by then. */
  function After(b: Bouncy, k: nat): Bouncy
    decreases k
  {
    if k == 0 || b.Done? then b else After(Call(b.thunk), k - 1)
  }

  lemma {:induction false} DoneExactlyAfter(b: Bouncy, k: nat)
    ensures After(b, k).Done? <==> k >= Bounces(b)
    ensures k >= Bounces(b) ==> After(b, k) == Done(Meaning(b))
    decreases k
  {
    if k > 0 && b.Bounce? {
      CallOk(b.thunk);
      DoneExactlyAfter(Call(b.thunk), k - 1);
    }
  }

  /** On the trampoline, Fibonacci gives the direct result to the continuation after exactly
      2 * (fib(n + 1) - 1) thunks, and not before. */
  lemma FibTrampolineIsExact(n: nat, f: int -> int, k: nat)
    ensures FibDirect(n + 1) >= 1
    ensures var b := FibTrampoline(n, Final(f)); var cost := 2 * (FibDirect(n + 1) - 1);
            && (After(b, k).Done? <==> k >= cost)
            && After(b, cost) == Done(f(FibDirect(n)))
  {
    var b := FibTrampoline(n, Final(f));
    CallOk(CallFib(n, Final(f)));
    DoneExactlyAfter(b, k);
    DoneExactlyAfter(b, FibBounces(n));
  }

  /** The factorial takes exactly n thunks. */
  lemma FactTrampolineIsExact(n: nat, f: int -> int, k: nat)
    ensures var b := FactTrampoline(n, Final(f));
            && (After(b, k).Done? <==> k >= n)
            && After(b, n) == Done(f(FactDirect(n)))
  {
    var b := FactTrampoline(n, Final(f));
    CallOk(CallFact(n, Final(f)));
    DoneExactlyAfter(b, k);
    DoneExactlyAfter(b, n);
  }
}
