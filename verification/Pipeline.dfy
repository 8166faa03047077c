/** go/csp_deep_dive/main.go, demo 4: generator, square and the consuming loop, connected by
  unbuffered channels. */
module Pipeline {
  import opened Runs

  /** Go's int on a 64-bit machine. */
  type Int64 = x: int | -0x8000_0000_0000_0000 <= x < 0x8000_0000_0000_0000

  function Wrap(x: int): Int64 {
    (x + 0x8000_0000_0000_0000) % 0x1_0000_0000_0000_0000 - 0x8000_0000_0000_0000
  }

  function Square(n: Int64): Int64 {
    Wrap(n * n)
  }

  /** The product if it is an int, and in any case the int that differs from it by a multiple of
      2^64. */
  lemma SquareIsProduct(n: Int64)
    ensures -0x8000_0000_0000_0000 <= n * n < 0x8000_0000_0000_0000 ==> Square(n) == n * n
    ensures (Square(n) - n * n) % 0x1_0000_0000_0000_0000 == 0
  {
    WrapIsCongruent(n * n);
  }

  lemma WrapIsCongruent(x: int)
    ensures -0x8000_0000_0000_0000 <= x < 0x8000_0000_0000_0000 ==> Wrap(x) == x
    ensures (Wrap(x) - x) % 0x1_0000_0000_0000_0000 == 0
  {
  }

  function Squares(nums: seq<Int64>): seq<Int64> {
    seq(|nums|, i requires 0 <= i < |nums| => Square(nums[i]))
  }

  /** The loop of `square`: about to receive, about to send, about to close, ended. */
  datatype Squarer = Receiving | Sending(value: Int64) | Closing | Ended

  /** `next` is the position of the generator in `nums`; `closed1` and `closed2` say whether
      the two channels have been closed; `consuming` whether the last loop still runs. */
  datatype State = State(nums: seq<Int64>, next: nat, closed1: bool, squarer: Squarer, closed2: bool,
                         consuming: bool, output: seq<Int64>)

  function Start(nums: seq<Int64>): State {
    State(nums, 0, false, Receiving, false, true, [])
  }

  /** On an unbuffered channel a send and the receive that takes it are one step. */
  datatype Action = Pass1 | Close1 | EndOfRange1 | Pass2 | Close2 | EndOfRange2

  predicate Enabled(s: State, a: Action) {
    match a
    case Pass1 => s.next < |s.nums| && s.squarer.Receiving?
    case Close1 => s.next >= |s.nums| && !s.closed1
    case EndOfRange1 => s.squarer.Receiving? && s.closed1
    case Pass2 => s.squarer.Sending? && s.consuming
    case Close2 => s.squarer.Closing?
    case EndOfRange2 => s.consuming && s.closed2
  }

  function Step(s: State, a: Action): State {
    match a
    case Pass1 => if s.next < |s.nums| then s.(next := s.next + 1, squarer := Sending(Square(s.nums[s.next]))) else s
    case Close1 => s.(closed1 := true)
    case EndOfRange1 => s.(squarer := Closing)
    case Pass2 => if s.squarer.Sending? then s.(squarer := Receiving, output := s.output + [s.squarer.value]) else s
    case Close2 => s.(squarer := Ended, closed2 := true)
    case EndOfRange2 => s.(consuming := false)
  }

  const SYSTEM: System<State, Action> := System(Enabled, Step)

  /** What has come out, with what is between the channels, is the squares of what has gone
      in; a channel is closed after its last value, and nothing ends before its channel. */
  predicate Inv(s: State) {
    && s.next <= |s.nums|
    && s.output + (if s.squarer.Sending? then [s.squarer.value] else []) == Squares(s.nums[..s.next])
    && (s.closed1 ==> s.next == |s.nums|)
    && (s.squarer.Closing? || s.squarer.Ended? ==> s.closed1)
    && (s.squarer.Ended? <==> s.closed2)
    && (!s.consuming ==> s.closed2)
  }

  function Measure(s: State): nat {
    3 * (if s.next < |s.nums| then |s.nums| - s.next else 0)
    + (if s.closed1 then 0 else 1)
    + (match s.squarer case Sending(_) => 3 case Receiving => 2 case Closing => 1 case Ended => 0)
    + (if s.consuming then 1 else 0)
  }

  lemma StepOk(s: State, a: Action)
    requires Inv(s) && Enabled(s, a)
    ensures Inv(Step(s, a)) && Step(s, a).nums == s.nums
    ensures Measure(Step(s, a)) < Measure(s)
  {
    if a.Pass1? {
      assert s.nums[..s.next + 1] == s.nums[..s.next] + [s.nums[s.next]];
      assert Squares(s.nums[..s.next + 1]) == Squares(s.nums[..s.next]) + [Square(s.nums[s.next])];
      assert s.output + [] == s.output;
    } else if a.Pass2? {
      assert s.output + [s.squarer.value] + [] == s.output + [s.squarer.value];
    }
  }

  /** Some step is possible until the last range loop has ended; there is never a choice
      that could go wrong. */
  lemma NeverStuckEarly(s: State)
    requires Inv(s)
    ensures Stuck(SYSTEM, s) <==> !s.consuming
    ensures !s.consuming ==> s.output == Squares(s.nums)
  {
    if s.consuming {
      var a := if s.closed2 then EndOfRange2
               else if s.squarer.Sending? then Pass2
               else if s.squarer.Closing? then Close2
               else if s.next < |s.nums| then Pass1
               else if !s.closed1 then Close1 else EndOfRange1;
      assert SYSTEM.enabled(s, a);
    } else {
      assert s.nums[..|s.nums|] == s.nums && s.output + [] == s.output;
      forall a: Action
        ensures !SYSTEM.enabled(s, a)
      {
      }
    }
  }

  /** Sending on a closed channel and closing one twice would panic. */
  lemma NoPanic(nums: seq<Int64>, acts: seq<Action>)
    requires Legal(SYSTEM, Start(nums), acts)
    ensures var s := After(SYSTEM, Start(nums), acts);
            && (Enabled(s, Pass1) || Enabled(s, Close1) ==> !s.closed1)
            && (s.squarer.Sending? || Enabled(s, Close2) ==> !s.closed2)
  {
    InvAlongRun(nums, acts);
  }

  lemma InvAlongRun(nums: seq<Int64>, acts: seq<Action>)
    requires Legal(SYSTEM, Start(nums), acts)
    ensures Inv(After(SYSTEM, Start(nums), acts)) && After(SYSTEM, Start(nums), acts).nums == nums
    ensures |acts| <= 3 * |nums| + 4
  {
    var s0 := Start(nums);
    assert Squares(nums[..0]) == [] && [] + [] == Squares(nums[..0]);
    var inv := (s: State) => Inv(s) && s.nums == nums;
    assert Inductive(SYSTEM, inv) && Decreasing(SYSTEM, inv, Measure) by {
      forall s: State, a: Action | inv(s) && SYSTEM.enabled(s, a)
        ensures inv(SYSTEM.step(s, a)) && Measure(SYSTEM.step(s, a)) < Measure(s)
      {
        StepOk(s, a);
      }
    }
    InvariantAlongRun(SYSTEM, inv, s0, acts);
    RunsAreBounded(SYSTEM, inv, Measure, s0, acts);
  }

  /** Whatever the schedule: the output is always a prefix of the squares, in order; a run
      has at most 3n + 4 steps; and one that cannot go on has put out all of them. */
  lemma OutputIsSquares(nums: seq<Int64>, acts: seq<Action>)
    requires Legal(SYSTEM, Start(nums), acts)
    ensures var s := After(SYSTEM, Start(nums), acts);
            && s.output <= Squares(nums)
            && |acts| <= 3 * |nums| + 4
            && (Stuck(SYSTEM, s) <==> !s.consuming)
            && (Stuck(SYSTEM, s) ==> s.output == Squares(nums))
  {
    InvAlongRun(nums, acts);
    var s := After(SYSTEM, Start(nums), acts);
    NeverStuckEarly(s);
    PrefixOfSquares(nums, s.next);
    assert s.output <= Squares(nums[..s.next]);
  }

  lemma PrefixOfSquares(nums: seq<Int64>, k: nat)
    requires k <= |nums|
    ensures Squares(nums[..k]) <= Squares(nums)
  {
  }

  /** So number `i` of the output, as soon as it is there, is the product of number `i` of the
      input with itself, if that is an int. */
  lemma OutputValue(nums: seq<Int64>, acts: seq<Action>, i: nat)
    requires Legal(SYSTEM, Start(nums), acts) && i < |After(SYSTEM, Start(nums), acts).output|
    ensures i < |nums|
    ensures var n: int := nums[i]; n * n < 0x8000_0000_0000_0000 ==> After(SYSTEM, Start(nums), acts).output[i] == n * n
  {
    OutputIsSquares(nums, acts);
    SquareIsProduct(nums[i]);
    hide Legal, After;
  }

  const DEMO: seq<Int64> := [1, 2, 3, 4, 5, 6, 7, 8]

  lemma DemoSquares()
    ensures Squares(DEMO) == [1, 4, 9, 16, 25, 36, 49, 64]
  {
    forall n: Int64 | 1 <= n <= 8
      ensures Square(n) == n * n
    {
      assert 0 <= n * n <= 64;
      SquareIsProduct(n);
    }
  }

  /** Every run of the demo that cannot go on has put out these numbers. */
  lemma DemoOutput(acts: seq<Action>)
    requires Legal(SYSTEM, Start(DEMO), acts) && Stuck(SYSTEM, After(SYSTEM, Start(DEMO), acts))
    ensures After(SYSTEM, Start(DEMO), acts).output == [1, 4, 9, 16, 25, 36, 49, 64]
  {
    OutputIsSquares(DEMO, acts);
    DemoSquares();
  }

  // -------------------------------------------------------- the program itself

  /** The goroutines and channels of demo 4. */
  class Program {
    const nums: seq<Int64>
    var next: nat
    var closed1: bool
    var squarer: Squarer
    var closed2: bool
    var consuming: bool
    var output: seq<Int64>

    ghost function Now(): State
      reads this
    {
      State(nums, next, closed1, squarer, closed2, consuming, output)
    }

    constructor (nums: seq<Int64>)
      ensures Now() == Start(nums)
    {
      this.nums, next, closed1, squarer, closed2, consuming, output := nums, 0, false, Receiving, false, true, [];
    }

    /** out <- n in the generator meets the receive of the squarer, which goes on to its send. */
    method PassFirst()
      requires Enabled(Now(), Pass1)
      modifies this
      ensures Now() == Step(old(Now()), Pass1)
    {
      var n := nums[next];
      next := next + 1;
      squarer := Sending(Square(n));
    }

    /** out <- n * n meets the receive of the consuming loop. */
    method PassSecond()
      requires Enabled(Now(), Pass2)
      modifies this
      ensures Now() == Step(old(Now()), Pass2)
    {
      output := output + [squarer.value];
      squarer := Receiving;
    }

    /** demo4 under a scheduler that prefers the later goroutines or the earlier ones, as
        `choices` says, and the later ones when it says nothing. */
    method Run(choices: seq<bool>)
      requires Now() == Start(nums)
      modifies this
      ensures output == Squares(nums) && !consuming && closed1 && closed2
    {
      var i := 0;
      assert Squares(nums[..0]) == [] && output + [] == [];
      while consuming
        invariant Inv(Now())
        decreases Measure(Now())
      {
        var early := i < |choices| && choices[i];
        NeverStuckEarly(Now());
        ghost var before := Now();
        if early && next < |nums| && squarer.Receiving? {
          PassFirst();
          StepOk(before, Pass1);
        } else if early && next >= |nums| && !closed1 {
          closed1 := true;
          StepOk(before, Close1);
        } else if closed2 {
          consuming := false;
          StepOk(before, EndOfRange2);
        } else if squarer.Sending? {
          PassSecond();
          StepOk(before, Pass2);
        } else if squarer.Closing? {
          squarer, closed2 := Ended, true;
          StepOk(before, Close2);
        } else if closed1 {
          squarer := Closing;
          StepOk(before, EndOfRange1);
        } else if next < |nums| {
          PassFirst();
          StepOk(before, Pass1);
        } else {
          closed1 := true;
          StepOk(before, Close1);
        }
        i := i + 1;
      }
      NeverStuckEarly(Now());
    }
  }

  /** demo4 */
  method Demo(choices: seq<bool>) returns (output: seq<Int64>)
    ensures output == [1, 4, 9, 16, 25, 36, 49, 64]
  {
    var program := new Program(DEMO);
    program.Run(choices);
    DemoSquares();
    output := program.output;
  }
}
