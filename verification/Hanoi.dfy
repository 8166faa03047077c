/** The Tower of Hanoi, in the forms in which the repository solves it: the Hanoi module of
  README.md with its tests, and the three versions of haskell/continuation_cps/ContMonadHanoi.hs. */
module Hanoi {
  import opened Options

  type Peg = nat
  type Tower = seq<int>     // top disc first
  type State = seq<Tower>

  // ----------------------------------------------------------- the moves, directly

  /** hanoiDirect, for any kind of peg. */
  function HanoiDirect<P>(n: nat, src: P, dst: P, aux: P): seq<(P, P)> {
    if n == 0 then []
    else HanoiDirect(n - 1, src, aux, dst) + [(src, dst)] + HanoiDirect(n - 1, aux, dst, src)
  }

  /** The first of the pegs 0, 1, 2 that is neither of the two. */
  function Spare(from: Peg, to: Peg): Peg {
    if from != 0 && to != 0 then 0 else if from != 1 && to != 1 then 1 else 2
  }

  /** hanoi of README.md, which finds the spare peg by itself. */
  function Hanoi(n: nat, from: Peg, to: Peg): seq<(Peg, Peg)> {
    if n == 0 then []
    else Hanoi(n - 1, from, Spare(from, to)) + [(from, to)] + Hanoi(n - 1, Spare(from, to), to)
  }

  lemma {:induction false} HanoiIsDirect(n: nat, from: Peg, to: Peg)
    requires from != to && from < 3 && to < 3
    ensures Hanoi(n, from, to) == HanoiDirect(n, from, to, Spare(from, to))
  {
    if n > 0 {
      HanoiIsDirect(n - 1, from, Spare(from, to));
      HanoiIsDirect(n - 1, Spare(from, to), to);
    }
  }

  // ------------------------------------------------------ continuation-passing forms

  /** Control.Monad.Cont */
  type Cont<!R, !A> = (A -> R) -> R

  function Return<R, A>(a: A): Cont<R, A> {
    (k: A -> R) => k(a)
  }

  /** What is left to do with the first result: run `f` on it, then `k`. */
  function Next<R, A, B>(f: A -> Cont<R, B>, k: B -> R): A -> R {
    (a: A) => f(a)(k)
  }

  function Bind<R, A, B>(m: Cont<R, A>, f: A -> Cont<R, B>): Cont<R, B> {
    (k: B -> R) => m(Next(f, k))
  }

  function HanoiCont<R, P>(n: nat, src: P, dst: P, aux: P): Cont<R, seq<(P, P)>> {
    if n == 0 then Return([])
    else
      Bind(HanoiCont(n - 1, src, aux, dst), (left: seq<(P, P)>) =>
        var mid := [(src, dst)];
        Bind(HanoiCont(n - 1, aux, dst, src), (right: seq<(P, P)>) => Return(left + mid + right)))
  }

  function HanoiExplicitCps<R, P>(n: nat, src: P, dst: P, aux: P, k: seq<(P, P)> -> R): R {
    if n == 0 then k([])
    else
      HanoiExplicitCps(n - 1, src, aux, dst, (left: seq<(P, P)>) =>
        var mid := [(src, dst)];
        HanoiExplicitCps(n - 1, aux, dst, src, (right: seq<(P, P)>) => k(left + mid + right)))
  }

  /** For every continuation, the Cont form hands it the moves of the direct form. */
  lemma {:induction false} ContIsDirect<R, P>(n: nat, src: P, dst: P, aux: P, k: seq<(P, P)> -> R)
    ensures HanoiCont(n, src, dst, aux)(k) == k(HanoiDirect(n, src, dst, aux))
  {
    if n > 0 {
      var left := HanoiDirect(n - 1, src, aux, dst);
      var mid := [(src, dst)];
      var f := (left: seq<(P, P)>) =>
        var mid := [(src, dst)];
        Bind(HanoiCont(n - 1, aux, dst, src), (right: seq<(P, P)>) => Return<R, seq<(P, P)>>(left + mid + right));
      var g := (right: seq<(P, P)>) => Return<R, seq<(P, P)>>(left + mid + right);
      ContIsDirect(n - 1, src, aux, dst, Next(f, k));
      ContIsDirect(n - 1, aux, dst, src, Next(g, k));
    }
  }

  /** For every continuation, explicit continuation passing hands it the moves of the direct form. */
  lemma {:induction false} ExplicitCpsIsDirect<R, P>(n: nat, src: P, dst: P, aux: P, k: seq<(P, P)> -> R)
    ensures HanoiExplicitCps(n, src, dst, aux, k) == k(HanoiDirect(n, src, dst, aux))
  {
    if n > 0 {
      var left := HanoiDirect(n - 1, src, aux, dst);
      var mid := [(src, dst)];
      ExplicitCpsIsDirect(n - 1, src, aux, dst, (left: seq<(P, P)>) =>
        var mid := [(src, dst)];
        HanoiExplicitCps(n - 1, aux, dst, src, (right: seq<(P, P)>) => k(left + mid + right)));
      ExplicitCpsIsDirect(n - 1, aux, dst, src, (right: seq<(P, P)>) => k(left + mid + right));
    }
  }

  // ---------------------------------------------------------------- playing the moves

  predicate LegalTower(t: Tower) {
    |t| >= 2 ==> t[0] < t[1] && LegalTower(t[1..])
  }

  predicate LegalState(s: State) {
    forall p :: 0 <= p < |s| ==> LegalTower(s[p])
  }

  predicate CanMove(m: (Peg, Peg), s: State) {
    m.0 < |s| && s[m.0] != []
  }

  /** move: the top disc of one peg goes on another.  There are three pegs at most. */
  function Move(m: (Peg, Peg), s: State): State
    requires CanMove(m, s)
  {
    var d := s[m.0][0];
    seq(if |s| < 3 then |s| else 3, i requires 0 <= i < |s| =>
      if i == m.0 then s[i][1..] else if i == m.1 then [d] + s[i] else s[i])
  }

  /** runMoves: the states visited, the latest first; None if an empty peg is popped. */
  function RunMoves(moves: seq<(Peg, Peg)>, visited: seq<State>): Option<seq<State>>
    requires visited != []
    decreases |moves|
  {
    if moves == [] then Some(visited)
    else if !CanMove(moves[0], visited[0]) then None
    else RunMoves(moves[1..], [Move(moves[0], visited[0])] + visited)
  }

  lemma {:induction false} RunMovesAppend(a: seq<(Peg, Peg)>, b: seq<(Peg, Peg)>, visited: seq<State>)
    requires visited != [] && RunMoves(a, visited).Some? && RunMoves(a, visited).value != []
    ensures RunMoves(a + b, visited) == RunMoves(b, RunMoves(a, visited).value)
    decreases |a|
  {
    if a == [] {
      assert a + b == b;
    } else {
      assert (a + b)[1..] == a[1..] + b;
      RunMovesAppend(a[1..], b, [Move(a[0], visited[0])] + visited);
    }
  }

  // --------------------------------------------------------------------- legality

  function Pow2(n: nat): (p: nat)
    ensures p >= 1
  {
    if n == 0 then 1 else 2 * Pow2(n - 1)
  }

  predicate Smaller(a: Tower, b: Tower) {
    forall x, y :: x in a && y in b ==> x < y
  }

  /** A legal state whose peg `from` has `n` discs on top that are smaller than all discs
      elsewhere. */
  predicate Movable(s: State, n: nat, from: Peg) {
    && |s| == 3 && from < 3 && n <= |s[from]| && LegalState(s)
    && forall p :: 0 <= p < 3 && p != from ==> Smaller(s[from][..n], s[p])
  }

  function Moved(s: State, n: nat, from: Peg, to: Peg): State
    requires from < |s| && to < |s| && n <= |s[from]|
  {
    seq(|s|, i requires 0 <= i < |s| =>
      if i == from then s[i][n..] else if i == to then s[from][..n] + s[i] else s[i])
  }

  lemma {:induction false} LegalCons(d: int, b: Tower)
    ensures LegalTower([d] + b) <==> LegalTower(b) && Smaller([d], b)
    decreases b
  {
    assert ([d] + b)[1..] == b;
    if b != [] {
      assert b == [b[0]] + b[1..];
      LegalCons(b[0], b[1..]);
      if LegalTower(b) && d < b[0] {
        forall x, y | x in [d] && y in b
          ensures x < y
        {
          assert b[0] in [b[0]] && (y == b[0] || y in b[1..]);
        }
      }
      if Smaller([d], b) {
        assert d in [d] && b[0] in b;
      }
    }
  }

  /** One tower on top of another is legal just when both are and all discs above are smaller. */
  lemma {:induction false} LegalIff(a: Tower, b: Tower)
    ensures LegalTower(a + b) <==> LegalTower(a) && LegalTower(b) && Smaller(a, b)
  {
    if a == [] {
      assert a + b == b;
    } else {
      assert a + b == [a[0]] + (a[1..] + b) && a == [a[0]] + a[1..];
      LegalCons(a[0], a[1..] + b);
      LegalCons(a[0], a[1..]);
      LegalIff(a[1..], b);
      assert a[0] in [a[0]];
      assert forall x :: x in a <==> x == a[0] || x in a[1..];
      assert forall y :: y in a[1..] + b <==> y in a[1..] || y in b;
    }
  }

  /** `visited` has been extended by exactly `k` states, all legal, the last being `s`. */
  predicate Extends(result: Option<seq<State>>, visited: seq<State>, k: nat, s: State) {
    && result.Some? && |result.value| == k + |visited| && result.value[k..] == visited
    && (forall i :: 0 <= i < k ==> LegalState(result.value[i]))
    && result.value != [] && result.value[0] == s
  }

  lemma {:induction false} HanoiExtends(n: nat, from: Peg, to: Peg, s: State, visited: seq<State>)
    requires Movable(s, n, from) && to < 3 && to != from
    requires visited != [] && visited[0] == s
    ensures Extends(RunMoves(Hanoi(n, from, to), visited), visited, Pow2(n) - 1, Moved(s, n, from, to))
  {
    hide Moved, LegalState, LegalTower, Move, Smaller;
    if n == 0 {
      NothingMoved(from, to, s);
    } else {
      var spare := Spare(from, to);
      MiddleMove(n, from, to, s);
      var s1 := Moved(s, n - 1, from, spare);
      var s2 := Move((from, to), s1);
      HanoiExtends(n - 1, from, spare, s, visited);
      var v1 := RunMoves(Hanoi(n - 1, from, spare), visited).value;
      HanoiExtends(n - 1, spare, to, s2, [s2] + v1);
      ExtendsTwice(Hanoi(n - 1, from, spare), (from, to), Hanoi(n - 1, spare, to), visited, Pow2(n - 1) - 1,
                   s1, Moved(s, n, from, to));
    }
  }

  lemma NothingMoved(from: Peg, to: Peg, s: State)
    requires from < |s| && to < |s|
    ensures Moved(s, 0, from, to) == s
  {
    assert s[from][0..] == s[from] && s[from][..0] + s[to] == s[to];
  }

  lemma ExtendsTwice(first: seq<(Peg, Peg)>, m: (Peg, Peg), last: seq<(Peg, Peg)>, visited: seq<State>, k: nat,
                     s1: State, s3: State)
    requires visited != [] && Extends(RunMoves(first, visited), visited, k, s1)
    requires CanMove(m, s1) && LegalState(Move(m, s1))
    requires var v2 := [Move(m, s1)] + RunMoves(first, visited).value;
             Extends(RunMoves(last, v2), v2, k, s3)
    ensures Extends(RunMoves(first + [m] + last, visited), visited, 2 * k + 1, s3)
  {
    var v1 := RunMoves(first, visited).value;
    var v2 := [Move(m, s1)] + v1;
    RunInThreeParts(first, m, last, visited);
    StatesConcatenate(RunMoves(last, v2).value, v2, v1, visited, k);
  }

  lemma RunInThreeParts(first: seq<(Peg, Peg)>, m: (Peg, Peg), last: seq<(Peg, Peg)>, visited: seq<State>)
    requires visited != [] && RunMoves(first, visited).Some?
    requires var v := RunMoves(first, visited).value; v != [] && CanMove(m, v[0])
    ensures var v := RunMoves(first, visited).value;
            RunMoves(first + [m] + last, visited) == RunMoves(last, [Move(m, v[0])] + v)
  {
    RunMovesAppend(first, [m] + last, visited);
    assert first + [m] + last == first + ([m] + last);
    assert ([m] + last)[1..] == last;
  }

  /** The middle move is possible and legal, and leaves the smaller discs movable. */
  lemma MiddleMove(n: nat, from: Peg, to: Peg, s: State)
    requires n > 0 && Movable(s, n, from) && to < 3 && to != from
    ensures Movable(s, n - 1, from)
    ensures from < 3 && Spare(from, to) < 3 && Spare(from, to) !in {from, to}
    ensures var spare := Spare(from, to); var s1 := Moved(s, n - 1, from, spare);
            && CanMove((from, to), s1) && LegalState(Move((from, to), s1))
            && Movable(Move((from, to), s1), n - 1, spare)
            && Moved(Move((from, to), s1), n - 1, spare, to) == Moved(s, n, from, to)
  {
    var spare := Spare(from, to);
    TowersAfterMiddle(s, n, from, to, spare);
    MiddleIsMovable(s, Move((from, to), Moved(s, n - 1, from, spare)), n, from, to, spare);
  }

  lemma TowersAfterMiddle(s: State, n: nat, from: Peg, to: Peg, spare: Peg)
    requires |s| == 3 && from < 3 && to < 3 && spare < 3 && from != to && from != spare && to != spare
    requires 0 < n <= |s[from]|
    ensures var s1 := Moved(s, n - 1, from, spare);
            CanMove((from, to), s1)
            && var s2 := Move((from, to), s1);
            && |s2| == 3 && s2[from] == s[from][n..] && s2[to] == [s[from][n - 1]] + s[to]
            && s2[spare] == s[from][..n - 1] + s[spare]
            && Moved(s2, n - 1, spare, to) == Moved(s, n, from, to)
  {
    var s1 := Moved(s, n - 1, from, spare);
    assert s1[from] == [s[from][n - 1]] + s[from][n..];
    SpareMovesOn(s, Move((from, to), s1), n, from, to, spare);
  }

  lemma SpareMovesOn(s: State, s2: State, n: nat, from: Peg, to: Peg, spare: Peg)
    requires |s| == 3 && from < 3 && to < 3 && spare < 3 && from != to && from != spare && to != spare
    requires 0 < n <= |s[from]|
    requires |s2| == 3 && s2[from] == s[from][n..] && s2[to] == [s[from][n - 1]] + s[to]
    requires s2[spare] == s[from][..n - 1] + s[spare]
    ensures Moved(s2, n - 1, spare, to) == Moved(s, n, from, to)
  {
    var a, b := Moved(s2, n - 1, spare, to), Moved(s, n, from, to);
    assert a[spare] == b[spare];
    assert s[from][..n] == s[from][..n - 1] + [s[from][n - 1]];
    assert a[to] == b[to];
  }

  lemma MiddleIsMovable(s: State, s2: State, n: nat, from: Peg, to: Peg, spare: Peg)
    requires n > 0 && Movable(s, n, from)
    requires to < 3 && spare < 3 && from != to && from != spare && to != spare
    requires |s2| == 3 && s2[from] == s[from][n..] && s2[to] == [s[from][n - 1]] + s[to]
    requires s2[spare] == s[from][..n - 1] + s[spare]
    ensures Movable(s, n - 1, from) && Movable(s2, n - 1, spare)
  {
    hide LegalTower;
    var top, d, rest := s[from][..n - 1], s[from][n - 1], s[from][n..];
    assert s[from] == top + [d] + rest && s[from][..n] == top + [d] && s2[spare][..n - 1] == top;
    MiddleTowers(top, d, rest, s[spare], s[to]);
  }

  lemma MiddleTowers(top: Tower, d: int, rest: Tower, a: Tower, b: Tower)
    requires LegalTower(top + [d] + rest) && LegalTower(a) && LegalTower(b)
    requires Smaller(top + [d], a) && Smaller(top + [d], b)
    ensures LegalTower(top + a) && LegalTower([d] + b) && LegalTower(rest)
    ensures Smaller(top, rest) && Smaller(top, [d] + b) && Smaller(top, a) && Smaller(top, b)
  {
    hide LegalTower;
    LegalIff(top + [d], rest);
    LegalIff(top, [d]);
    LegalIff(top, a);
    LegalIff([d], b);
    assert forall x :: x in top ==> x in top + [d];
    assert d in top + [d] && d in [d];
  }

  lemma StatesConcatenate(v3: seq<State>, v2: seq<State>, v1: seq<State>, visited: seq<State>, k: nat)
    requires |v3| == k + |v2| && v3[k..] == v2 && |v1| == k + |visited| && v1[k..] == visited
    requires |v2| == 1 + |v1| && v2[1..] == v1 && LegalState(v2[0])
    requires forall i :: 0 <= i < k ==> LegalState(v3[i]) && LegalState(v1[i])
    ensures |v3| == (2 * k + 1) + |visited| && v3[2 * k + 1..] == visited
    ensures forall i :: 0 <= i < 2 * k + 1 ==> LegalState(v3[i])
  {
    assert forall i :: k <= i < |v3| ==> v3[i] == v2[i - k];
    assert forall i :: 1 <= i < |v2| ==> v2[i] == v1[i - 1];
    assert forall i :: k <= i < |v1| ==> v1[i] == visited[i - k];
  }

  /** Playing hanoi n from to, on a state that has the n discs to move: no move pops an
      empty peg, every state on the way is legal, exactly those discs end on the target,
      and there are 2^n - 1 moves. */
  lemma HanoiIsLegal(n: nat, from: Peg, to: Peg, s: State)
    requires Movable(s, n, from) && to < 3 && to != from
    ensures var run := RunMoves(Hanoi(n, from, to), [s]);
            && run.Some? && |run.value| == Pow2(n)
            && (forall i :: 0 <= i < |run.value| ==> LegalState(run.value[i]))
            && run.value[0] == Moved(s, n, from, to)
            && |Hanoi(n, from, to)| == Pow2(n) - 1
  {
    HanoiExtends(n, from, to, s, [s]);
    var run := RunMoves(Hanoi(n, from, to), [s]).value;
    assert run[Pow2(n) - 1..][0] == s;
    RunLength(Hanoi(n, from, to), [s]);
  }

  lemma {:induction false} RunLength(moves: seq<(Peg, Peg)>, visited: seq<State>)
    requires visited != [] && RunMoves(moves, visited).Some?
    ensures |RunMoves(moves, visited).value| == |moves| + |visited|
    decreases |moves|
  {
    if moves != [] { RunLength(moves[1..], [Move(moves[0], visited[0])] + visited); }
  }
}
