/** Transition systems and their finite runs.

  The concurrent programs of the repository are modelled as systems whose
  actions are the atomic steps of their threads.  A schedule is any sequence of
  actions, each enabled when it is taken, so a statement about every schedule is
  a statement about every interleaving. */
module Runs {
  datatype System<!S, !A> = System(enabled: (S, A) -> bool, step: (S, A) -> S)

  /** `acts` can be executed from `s`, in this order. */
  ghost predicate Legal<S, A>(sys: System<S, A>, s: S, acts: seq<A>) {
    acts == [] || (sys.enabled(s, acts[0]) && Legal(sys, sys.step(s, acts[0]), acts[1..]))
  }

  ghost function After<S, A>(sys: System<S, A>, s: S, acts: seq<A>): S {
    if acts == [] then s else After(sys, sys.step(s, acts[0]), acts[1..])
  }

  /** No action is enabled. */
  ghost predicate Stuck<S, A(!new)>(sys: System<S, A>, s: S) {
    forall a :: !sys.enabled(s, a)
  }

  /** `inv` is kept by every enabled action. */
  ghost predicate Inductive<S(!new), A(!new)>(sys: System<S, A>, inv: S -> bool) {
    forall s, a :: inv(s) && sys.enabled(s, a) ==> inv(sys.step(s, a))
  }

  /** Every enabled action taken where `inv` holds makes `measure` smaller. */
  ghost predicate Decreasing<S(!new), A(!new)>(sys: System<S, A>, inv: S -> bool, measure: S -> nat) {
    forall s, a :: inv(s) && sys.enabled(s, a) ==> measure(sys.step(s, a)) < measure(s)
  }

  lemma {:induction false} InvariantAlongRun<S(!new), A(!new)>(sys: System<S, A>, inv: S -> bool, s: S, acts: seq<A>)
    requires Inductive(sys, inv)
    requires inv(s) && Legal(sys, s, acts)
    ensures inv(After(sys, s, acts))
  {
    if acts != [] {
      InvariantAlongRun(sys, inv, sys.step(s, acts[0]), acts[1..]);
    }
  }

  /** A measure that every action decreases bounds the length of every run. */
  lemma {:induction false} RunsAreBounded<S(!new), A(!new)>(
    sys: System<S, A>, inv: S -> bool, measure: S -> nat, s: S, acts: seq<A>)
    requires Inductive(sys, inv) && Decreasing(sys, inv, measure)
    requires inv(s) && Legal(sys, s, acts)
    ensures |acts| + measure(After(sys, s, acts)) <= measure(s)
  {
    if acts != [] {
      RunsAreBounded(sys, inv, measure, sys.step(s, acts[0]), acts[1..]);
    }
  }

  lemma {:induction false} Extend<S, A>(sys: System<S, A>, s: S, acts: seq<A>, a: A)
    requires Legal(sys, s, acts) && sys.enabled(After(sys, s, acts), a)
    ensures Legal(sys, s, acts + [a])
    ensures After(sys, s, acts + [a]) == sys.step(After(sys, s, acts), a)
  {
    if acts == [] {
      assert Legal(sys, sys.step(s, a), []);
      assert [a][1..] == [];
    } else {
      Extend(sys, sys.step(s, acts[0]), acts[1..], a);
      assert (acts + [a])[1..] == acts[1..] + [a];
    }
  }

  /** The last step of a run. */
  lemma {:induction false} LastStep<S, A>(sys: System<S, A>, s: S, acts: seq<A>)
    requires Legal(sys, s, acts) && acts != []
    ensures var n := |acts| - 1; var before := After(sys, s, acts[..n]);
            && Legal(sys, s, acts[..n]) && sys.enabled(before, acts[n])
            && After(sys, s, acts) == sys.step(before, acts[n])
  {
    if |acts| == 1 {
      assert acts[..0] == [] && acts[1..] == [];
    } else {
      LastStep(sys, sys.step(s, acts[0]), acts[1..]);
      var n := |acts| - 1;
      assert acts[1..][..n - 1] == acts[..n][1..];
    }
  }
}
