/** python/stackless_coroutine/stackless_vs_stackful.py: a chain of generators, and the same
  chain run with an explicit stack of frames. */
module Stackful {
  datatype Event = Enter(n: nat, depth: nat) | LeafAt(depth: nat) | Exit(n: nat, depth: nat)

  /** All that the generator yields. */
  function StacklessChain(n: nat, depth: nat): seq<Event> {
    if n == 0 then [LeafAt(depth)]
    else [Enter(n, depth)] + StacklessChain(n - 1, depth + 1) + [Exit(n, depth)]
  }

  // ------------------------------------------------------- the explicit stack

  datatype Phase = Entering | AfterChild | Exiting
  datatype Frame = Frame(n: nat, depth: nat, phase: Phase)

  /** What a frame will still write, and its callees on its behalf. */
  function Writes(f: Frame): seq<Event>
    decreases f.n, if f.phase.Entering? then 1 else 0
  {
    if f.phase.Entering? then
      [Enter(f.n, f.depth)]
      + (if f.n == 0 then [LeafAt(f.depth)] else Writes(Frame(f.n - 1, f.depth + 1, Entering)))
      + [Exit(f.n, f.depth)]
    else [Exit(f.n, f.depth)]
  }

  function AllWrites(stack: seq<Frame>): seq<Event> {
    if stack == [] then [] else Writes(stack[|stack| - 1]) + AllWrites(stack[..|stack| - 1])
  }

  /** How many steps a frame and its callees still take. */
  function Steps(f: Frame): nat {
    match f.phase
    case Entering => 3 * f.n + 2
    case AfterChild => 2
    case Exiting => 1
  }

  function AllSteps(stack: seq<Frame>): nat {
    if stack == [] then 0 else Steps(stack[|stack| - 1]) + AllSteps(stack[..|stack| - 1])
  }

  /** The frames of a run on `n`: one for each depth, and all but the top one waiting for
      their callee. */
  predicate WellFormed(stack: seq<Frame>, n: nat) {
    && |stack| <= n + 1
    && (forall i :: 0 <= i < |stack| ==> stack[i].depth == i && stack[i].n == n - i)
    && (forall i :: 0 <= i < |stack| - 1 ==> stack[i].phase == AfterChild)
  }

  lemma Pushed(stack: seq<Frame>, f: Frame)
    ensures AllWrites(stack + [f]) == Writes(f) + AllWrites(stack)
    ensures AllSteps(stack + [f]) == Steps(f) + AllSteps(stack)
  {
    assert (stack + [f])[..|stack|] == stack;
  }

  lemma WritesAre(f: Frame)
    ensures !f.phase.Entering? ==> Writes(f) == [Exit(f.n, f.depth)]
    ensures f.phase.Entering? && f.n == 0 ==> Writes(f) == [Enter(0, f.depth), LeafAt(f.depth), Exit(0, f.depth)]
    ensures f.phase.Entering? && f.n > 0 ==>
      Writes(f) == [Enter(f.n, f.depth)] + Writes(Frame(f.n - 1, f.depth + 1, Entering)) + [Exit(f.n, f.depth)]
  {
  }

  class StackfulCoroutine {
    var stack: seq<Frame>
    var results: seq<Event>
    var done: bool

    constructor (n: nat)
      ensures stack == [Frame(n, 0, Entering)] && results == [] && !done
    {
      stack, results, done := [Frame(n, 0, Entering)], [], false;
    }

    /** One step: the frames stay well-formed, what is written and what is still to be
        written do not change together, and there is exactly one step less to take. */
    method Step(ghost n: nat) returns (running: bool)
      requires WellFormed(stack, n)
      modifies this
      ensures WellFormed(stack, n)
      ensures results + AllWrites(stack) == old(results + AllWrites(stack)) && old(results) <= results
      ensures old(stack) != [] ==> AllSteps(stack) + 1 == old(AllSteps(stack)) && done == old(done) && running
      ensures old(stack) == [] ==> stack == [] && done && !running && results == old(results)
    {
      hide AllWrites, AllSteps, Writes;
      if stack == [] {
        done := true;
        return false;
      }
      var top := |stack| - 1;
      var frame, below := stack[top], stack[..top];
      assert stack == below + [frame];
      Pushed(below, frame);
      WritesAre(frame);
      match frame.phase {
        case Entering =>
          results := results + [Enter(frame.n, frame.depth)];
          if frame.n == 0 {
            results := results + [LeafAt(frame.depth)];
            stack := stack[top := Frame(frame.n, frame.depth, Exiting)];
            assert stack == below + [stack[top]];
            Pushed(below, stack[top]);
            WritesAre(stack[top]);
          } else {
            var child := Frame(frame.n - 1, frame.depth + 1, Entering);
            stack := stack + [child];
            stack := stack[top := Frame(frame.n, frame.depth, AfterChild)];
            assert stack == below + [stack[top]] + [child];
            Pushed(below, stack[top]);
            Pushed(below + [stack[top]], child);
            WritesAre(stack[top]);
          }
          return true;
        case AfterChild =>
          stack := stack[top := Frame(frame.n, frame.depth, Exiting)];
          assert stack == below + [stack[top]];
          Pushed(below, stack[top]);
          WritesAre(stack[top]);
        case Exiting =>
          results := results + [Exit(frame.n, frame.depth)];
          stack := below;
          return true;
      }
      return true;
    }
  }

  /** Event number `i` of the trace on `n`: in through all depths, the leaf, and out again. */
  function InAndOut(n: nat, i: nat): Event
    requires i <= 2 * n + 2
  {
    if i <= n then Enter(n - i, i) else if i == n + 1 then LeafAt(n) else Exit(i - n - 2, 2 * n + 2 - i)
  }

  /** run_stackful: exactly 3n + 3 steps, and the trace of the first frame. */
  method RunStackful(n: nat) returns (results: seq<Event>, ghost steps: nat)
    ensures results == Writes(Frame(n, 0, Entering)) && steps == 3 * n + 3
    ensures |results| == 2 * n + 3 && forall i :: 0 <= i < |results| ==> results[i] == InAndOut(n, i)
  {
    var coro := new StackfulCoroutine(n);
    Pushed([], Frame(n, 0, Entering));
    assert [] + [Frame(n, 0, Entering)] == coro.stack;
    steps := 0;
    while !coro.done
      invariant WellFormed(coro.stack, n) && (coro.done ==> coro.stack == [])
      invariant coro.results + AllWrites(coro.stack) == Writes(Frame(n, 0, Entering))
      invariant steps + AllSteps(coro.stack) + (if coro.done then 0 else 1) == 3 * n + 3
      decreases 3 * n + 3 - steps
    {
      var _ := coro.Step(n);
      steps := steps + 1;
    }
    results := coro.results;
    StackEvent(n, 0, 0);
    forall i | 0 <= i < |results|
      ensures results[i] == InAndOut(n, i)
    {
      StackEvent(n, 0, i);
    }
  }

  // ------------------------------------------------- stackless against stackful

  /** The frame at n = 0 also writes that it is entered and left. */
  function WithLeafFrame(events: seq<Event>): seq<Event> {
    if events == [] then []
    else
      (match events[0]
       case LeafAt(depth) => [Enter(0, depth), events[0], Exit(0, depth)]
       case _ => [events[0]]) + WithLeafFrame(events[1..])
  }

  lemma {:induction false} WithLeafFrameAppend(a: seq<Event>, b: seq<Event>)
    ensures WithLeafFrame(a + b) == WithLeafFrame(a) + WithLeafFrame(b)
  {
    if a == [] {
      assert a + b == b;
    } else {
      assert (a + b)[1..] == a[1..] + b;
      WithLeafFrameAppend(a[1..], b);
    }
  }

  lemma OneEvent(e: Event)
    ensures WithLeafFrame([e]) == if e.LeafAt? then [Enter(0, e.depth), e, Exit(0, e.depth)] else [e]
  {
  }

  /** With the leaf replaced by entering, leaf and leaving, the trace of the generators is
      the trace of the explicit stack. */
  lemma {:induction false} StackfulExpandsTheLeaf(n: nat, depth: nat)
    ensures Writes(Frame(n, depth, Entering)) == WithLeafFrame(StacklessChain(n, depth))
  {
    hide WithLeafFrame, Writes;
    WritesAre(Frame(n, depth, Entering));
    if n == 0 {
      OneEvent(LeafAt(depth));
    } else {
      StackfulExpandsTheLeaf(n - 1, depth + 1);
      var child := StacklessChain(n - 1, depth + 1);
      WithLeafFrameAppend([Enter(n, depth)] + child, [Exit(n, depth)]);
      WithLeafFrameAppend([Enter(n, depth)], child);
      OneEvent(Enter(n, depth));
      OneEvent(Exit(n, depth));
    }
  }

  /** The trace of the generators, event by event: in down to depth n, the leaf, and out again. */
  lemma {:induction false} ChainEvent(n: nat, depth: nat, i: nat)
    requires i <= 2 * n
    ensures |StacklessChain(n, depth)| == 2 * n + 1
    ensures StacklessChain(n, depth)[i] ==
      if i < n then Enter(n - i, depth + i) else if i == n then LeafAt(depth + n) else Exit(i - n, depth + 2 * n - i)
  {
    if n > 0 { ChainEvent(n - 1, depth + 1, if i == 0 then 0 else if i == 2 * n then 2 * n - 2 else i - 1); }
  }

  /** There is one leaf in the trace of the generators, in the middle, at depth n. */
  lemma OneLeaf(n: nat, depth: nat)
    ensures |StacklessChain(n, depth)| == 2 * n + 1
    ensures StacklessChain(n, depth)[n] == LeafAt(depth + n)
    ensures forall i :: 0 <= i < 2 * n + 1 && i != n ==> !StacklessChain(n, depth)[i].LeafAt?
  {
    hide StacklessChain;
    forall i | 0 <= i <= 2 * n
      ensures |StacklessChain(n, depth)| == 2 * n + 1
      ensures StacklessChain(n, depth)[i].LeafAt? <==> i == n
    {
      ChainEvent(n, depth, i);
    }
    ChainEvent(n, depth, n);
  }

  /** The trace of the explicit stack, event by event. */
  lemma {:induction false} StackEvent(n: nat, depth: nat, i: nat)
    requires i <= 2 * n + 2
    ensures |Writes(Frame(n, depth, Entering))| == 2 * n + 3
    ensures Writes(Frame(n, depth, Entering))[i] ==
      if i <= n then Enter(n - i, depth + i) else if i == n + 1 then LeafAt(depth + n) else Exit(i - n - 2, depth + 2 * n + 2 - i)
  {
    hide Writes;
    WritesAre(Frame(n, depth, Entering));
    if n > 0 { StackEvent(n - 1, depth + 1, if i == 0 then 0 else if i == 2 * n + 2 then 2 * n else i - 1); }
  }

  /** The demo asserts that the two traces are equal; they are not, for any n. */
  lemma TracesAlwaysDiffer(n: nat)
    ensures StacklessChain(n, 0) != Writes(Frame(n, 0, Entering))
  {
    OneLeaf(n, 0);
    StackEvent(n, 0, 0);
  }
}
