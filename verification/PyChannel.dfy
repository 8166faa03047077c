/** python/csp/channel_demo.py: the Channel class.  Everything a thread does to a channel it
  does in attempts that hold the lock throughout, so that what any number of threads do to
  one channel is a sequence of attempts. */
module PyChannel {
  import opened Options
  import opened Seqs

  /** One turn of the loop of send or recv, or a call of one of the others.  The items are
      not None. */
  datatype Attempt<T> = Send(item: T) | TrySend(item: T) | Recv | TryRecv | Close

  datatype Outcome<T> =
    | Accepted         // the item is in the buffer
    | Refused          // full: send tries again, try_send returns False
    | ChannelClosed    // raised
    | Got(item: T)
    | Nothing          // empty: recv tries again, try_recv returns (None, False)
    | EndOfChannel     // recv returns None
    | Unit

  datatype State<T> = State(maxsize: int, buf: seq<T>, closed: bool)

  /** queue.Queue.full: no bound unless maxsize is positive. */
  predicate Full<T>(s: State<T>) {
    0 < s.maxsize <= |s.buf|
  }

  function OutcomeOf<T>(s: State<T>, a: Attempt<T>): Outcome<T> {
    match a
    case Send(_) => if s.closed then ChannelClosed else if Full(s) then Refused else Accepted
    case TrySend(_) => if s.closed then ChannelClosed else if Full(s) then Refused else Accepted
    case Recv => if s.buf != [] then Got(s.buf[0]) else if s.closed then EndOfChannel else Nothing
    case TryRecv => if s.buf != [] then Got(s.buf[0]) else Nothing
    case Close => Unit
  }

  function Next<T>(s: State<T>, a: Attempt<T>): State<T> {
    match OutcomeOf(s, a)
    case Accepted => s.(buf := s.buf + [a.item])
    case Got(_) => s.(buf := s.buf[1..])
    case Unit => s.(closed := true)
    case _ => s
  }

  // -------------------------------------------------------- histories of a channel

  function StateAfter<T>(s: State<T>, attempts: seq<Attempt<T>>): State<T>
    decreases |attempts|
  {
    if attempts == [] then s
    else Next(StateAfter(s, attempts[..|attempts| - 1]), attempts[|attempts| - 1])
  }

  /** The outcome of the last attempt. */
  function LastOutcome<T>(s: State<T>, attempts: seq<Attempt<T>>): Outcome<T>
    requires attempts != []
  {
    OutcomeOf(StateAfter(s, attempts[..|attempts| - 1]), attempts[|attempts| - 1])
  }

  /** The items accepted, in order. */
  function Sent<T>(s: State<T>, attempts: seq<Attempt<T>>): seq<T>
    decreases |attempts|
  {
    if attempts == [] then []
    else
      var last := |attempts| - 1;
      Sent(s, attempts[..last]) + if LastOutcome(s, attempts).Accepted? then [attempts[last].item] else []
  }

  /** The items received, in order. */
  function Received<T>(s: State<T>, attempts: seq<Attempt<T>>): seq<T>
    decreases |attempts|
  {
    if attempts == [] then []
    else
      var last := |attempts| - 1;
      Received(s, attempts[..last]) + if LastOutcome(s, attempts).Got? then [LastOutcome(s, attempts).item] else []
  }

  function New<T>(maxsize: int): State<T> {
    State(maxsize, [], false)
  }

  /** First in, first out, for any number of threads: what was received, followed by what is
      in the buffer, is what was sent; and the buffer respects a positive bound. */
  lemma {:induction false} OrderIsKept<T>(maxsize: int, attempts: seq<Attempt<T>>)
    ensures var s := StateAfter(New(maxsize), attempts);
            && Received(New(maxsize), attempts) + s.buf == Sent(New(maxsize), attempts)
            && (maxsize > 0 ==> |s.buf| <= maxsize)
            && s.maxsize == maxsize
    decreases |attempts|
  {
    if attempts != [] {
      var last := |attempts| - 1;
      OrderIsKept<T>(maxsize, attempts[..last]);
      var s, r := StateAfter<T>(New(maxsize), attempts[..last]), Received(New(maxsize), attempts[..last]);
      match LastOutcome(New(maxsize), attempts) {
        case Accepted => assert r + (s.buf + [attempts[last].item]) == r + s.buf + [attempts[last].item];
        case Got(item) => assert r + [item] + s.buf[1..] == r + s.buf;
        case _ =>
      }
    }
  }

  lemma {:induction false} ClosedIff<T>(maxsize: int, attempts: seq<Attempt<T>>)
    ensures StateAfter(New(maxsize), attempts).closed <==> Close in attempts
    decreases |attempts|
  {
    if attempts != [] {
      var last := |attempts| - 1;
      assert attempts == attempts[..last] + [attempts[last]];
      ClosedIff(maxsize, attempts[..last]);
    }
  }

  /** A channel is closed exactly if it has been; from then on nothing is accepted, and each
      send raises ChannelClosed. */
  lemma {:induction false} NothingSentAfterClose<T>(maxsize: int, before: seq<Attempt<T>>, after: seq<Attempt<T>>)
    ensures StateAfter(New(maxsize), before + after).closed <==> Close in before + after
    ensures Close in before ==> Sent(New(maxsize), before + after) == Sent(New(maxsize), before)
    ensures Close in before && after != [] && (after[|after| - 1].Send? || after[|after| - 1].TrySend?) ==>
      LastOutcome(New(maxsize), before + after) == ChannelClosed
    decreases |after|
  {
    var all := before + after;
    ClosedIff(maxsize, all);
    if after == [] {
      assert all == before;
    } else {
      var last := |all| - 1;
      assert all[..last] == before + after[..|after| - 1] && all[last] == after[|after| - 1];
      ClosedIff(maxsize, all[..last]);
      NothingSentAfterClose(maxsize, before, after[..|after| - 1]);
    }
  }

  /** What a receive finds: the next item that was sent and not yet received.  Only when there is
      none does try_recv return nothing, and recv wait or, on a closed channel, return None. */
  lemma ReceiveGivesNextItem<T>(maxsize: int, before: seq<Attempt<T>>)
    ensures var sent, received := Sent(New(maxsize), before), Received(New(maxsize), before);
            && received <= sent
            && LastOutcome(New(maxsize), before + [TryRecv]) ==
                 (if received == sent then Nothing else Got(sent[|received|]))
            && LastOutcome(New(maxsize), before + [Recv]) ==
                 (if received != sent then Got(sent[|received|]) else if Close in before then EndOfChannel else Nothing)
  {
    assert (before + [Attempt.Recv])[..|before|] == before && (before + [Attempt.TryRecv])[..|before|] == before;
    OrderIsKept<T>(maxsize, before);
    ClosedIff<T>(maxsize, before);
    var s, received := StateAfter<T>(New(maxsize), before), Received(New(maxsize), before);
    if s.buf != [] { assert Sent(New(maxsize), before)[|received|] == s.buf[0]; } else { assert received + [] == received; }
  }

  /** What becomes of a send, waiting or not: the closed channel raises, a positive bound that
      is reached refuses, and otherwise the item is accepted. */
  lemma SendOutcome<T>(maxsize: int, before: seq<Attempt<T>>, item: T)
    ensures var waiting := |Sent(New(maxsize), before)| - |Received(New(maxsize), before)|;
            var outcome := if Close in before then ChannelClosed else if maxsize > 0 && waiting == maxsize then Refused else Accepted;
            && LastOutcome(New(maxsize), before + [Attempt.Send(item)]) == outcome
            && LastOutcome(New(maxsize), before + [Attempt.TrySend(item)]) == outcome
  {
    assert (before + [Attempt.Send(item)])[..|before|] == before && (before + [Attempt.TrySend(item)])[..|before|] == before;
    OrderIsKept<T>(maxsize, before);
    ClosedIff<T>(maxsize, before);
  }

  /** recv returns None if and only if the channel has been closed and every item that was
      ever sent has been received; and then that stays so. */
  lemma NoneMeansAllReceived<T>(maxsize: int, before: seq<Attempt<T>>, after: seq<Attempt<T>>)
    ensures LastOutcome(New(maxsize), before + [Recv]) == EndOfChannel <==>
      Close in before && Received(New(maxsize), before) == Sent(New(maxsize), before)
    ensures LastOutcome(New(maxsize), before + [Recv]) == EndOfChannel ==>
      && Sent(New(maxsize), before + after) == Sent(New(maxsize), before)
      && Received(New(maxsize), before + after) == Received(New(maxsize), before)
  {
    assert (before + [Recv])[..|before|] == before;
    OrderIsKept<T>(maxsize, before);
    OrderIsKept<T>(maxsize, before + after);
    ClosedIff<T>(maxsize, before);
    NothingSentAfterClose<T>(maxsize, before, after);
    ReceivedGrows(New<T>(maxsize), before, after);
  }

  lemma {:induction false} ReceivedGrows<T>(s: State<T>, before: seq<Attempt<T>>, after: seq<Attempt<T>>)
    ensures Received(s, before) <= Received(s, before + after)
    decreases |after|
  {
    if after == [] {
      assert before + after == before;
    } else {
      assert (before + after)[..|before + after| - 1] == before + after[..|after| - 1];
      ReceivedGrows(s, before, after[..|after| - 1]);
    }
  }

  /** The class documentation says that a send to an unbuffered channel (maxsize 0) waits for
      a receiver.  It does so for no maxsize that is not positive: an attempt to send to an
      open channel is refused if and only if there is a positive bound and it is reached. */
  lemma SendWaitsOnlyIfBounded<T>(maxsize: int, before: seq<Attempt<T>>, item: T)
    ensures LastOutcome(New(maxsize), before + [Attempt.Send(item)]) == Refused <==>
      && Close !in before && maxsize > 0
      && |Sent(New(maxsize), before)| - |Received(New(maxsize), before)| == maxsize
  {
    SendOutcome(maxsize, before, item);
  }

  // ------------------------------------------------------------------ the class

  class Channel<T> {
    const maxsize: int
    var buf: seq<T>
    var closed: bool
    ghost var history: seq<Attempt<T>>

    ghost function Now(): State<T>
      reads this
    {
      State(maxsize, buf, closed)
    }

    ghost predicate Valid()
      reads this
    {
      Now() == StateAfter(New(maxsize), history)
    }

    constructor (maxsize: int)
      ensures this.maxsize == maxsize && history == [] && Valid()
    {
      this.maxsize, buf, closed, history := maxsize, [], false, [];
    }

    ghost method Log(a: Attempt<T>)
      modifies this`history
      ensures history == old(history) + [a]
      ensures StateAfter(New(maxsize), history) == Next(StateAfter(New(maxsize), old(history)), a)
      ensures LastOutcome(New(maxsize), history) == OutcomeOf(StateAfter(New(maxsize), old(history)), a)
    {
      history := history + [a];
      assert history[..|history| - 1] == old(history);
    }

    /** None: ChannelClosed was raised. */
    method TrySend(item: T) returns (sent: Option<bool>)
      requires Valid()
      modifies this
      ensures Valid() && history == old(history) + [Attempt.TrySend(item)]
      ensures LastOutcome(New(maxsize), history) ==
        if sent.None? then ChannelClosed else if sent.value then Accepted else Refused
      ensures sent == if old(closed) then None else Some(maxsize <= 0 || |old(buf)| < maxsize)
      ensures closed == old(closed) && buf == old(buf) + if sent == Some(true) then [item] else []
    {
      Log(Attempt.TrySend(item));
      if closed {
        return None;
      }
      if !(0 < maxsize <= |buf|) {
        buf := buf + [item];
        return Some(true);
      }
      return Some(false);
    }

    /** None: there was nothing. */
    method TryRecv() returns (item: Option<T>)
      requires Valid()
      modifies this
      ensures Valid() && history == old(history) + [Attempt.TryRecv]
      ensures LastOutcome(New(maxsize), history) == if item.Some? then Got(item.value) else Nothing
      ensures item == if old(buf) == [] then None else Some(old(buf)[0])
      ensures closed == old(closed) && buf == if old(buf) == [] then [] else old(buf)[1..]
    {
      Log(Attempt.TryRecv);
      if buf != [] {
        item := Some(buf[0]);
        buf := buf[1..];
      } else {
        item := None;
      }
    }

    method Close()
      requires Valid()
      modifies this
      ensures Valid() && history == old(history) + [Attempt.Close]
      ensures closed && buf == old(buf)
    {
      Log(Attempt.Close);
      closed := true;
    }

    /** What the other threads do between two attempts of this one. */
    method Others(attempts: seq<Attempt<T>>)
      requires Valid()
      modifies this
      ensures Valid() && history == old(history) + attempts
    {
      hide StateAfter, LastOutcome;
      for i := 0 to |attempts|
        invariant Valid() && history == old(history) + attempts[..i]
      {
        var before := State(maxsize, buf, closed);
        var after := Next(before, attempts[i]);
        Log(attempts[i]);
        buf, closed := after.buf, after.closed;
      }
    }

    /** send: attempts, each after the first preceded by what `others` says that the other
        threads do in the meantime, until one is not refused; or until nothing is known of
        the other threads any more. */
    method Send(item: T, others: seq<seq<Attempt<T>>>) returns (r: Outcome<T>, ghost retries: nat)
      requires Valid()
      modifies this
      ensures Valid() && retries <= |others|
      ensures history == old(history) + Retried(Attempt.Send(item), others[..retries]) + [Attempt.Send(item)]
      ensures LastOutcome(New(maxsize), history) == r && (r.Accepted? || r.ChannelClosed? || r.Refused?)
      ensures r.Refused? ==> retries == |others|
      ensures retries > 0 ==> maxsize > 0
    {
      hide StateAfter, LastOutcome;
      var i := 0;
      ghost var a := Attempt.Send(item);
      while true
        invariant Valid() && i <= |others| && history == old(history) + Retried(a, others[..i])
        invariant i > 0 ==> maxsize > 0
        decreases |others| - i
      {
        ghost var before := history;
        Log(a);
        if closed {
          return ChannelClosed, i;
        }
        if !(0 < maxsize <= |buf|) {
          buf := buf + [item];
          return Accepted, i;
        }
        if i == |others| {
          return Refused, i;
        }
        Others(others[i]);
        RetriedOnce(a, others, i);
        assert before + [a] + others[i] == before + ([a] + others[i]);
        Associate(old(history), Retried(a, others[..i]), [a] + others[i]);
        i := i + 1;
      }
    }

    /** recv: likewise, until there is an item or the channel is closed. */
    method Recv(others: seq<seq<Attempt<T>>>) returns (r: Outcome<T>, ghost retries: nat)
      requires Valid()
      modifies this
      ensures Valid() && retries <= |others|
      ensures history == old(history) + Retried(Attempt.Recv, others[..retries]) + [Attempt.Recv]
      ensures LastOutcome(New(maxsize), history) == r && (r.Got? || r.EndOfChannel? || r.Nothing?)
      ensures r.Nothing? ==> retries == |others|
    {
      hide StateAfter, LastOutcome;
      var i := 0;
      ghost var a: Attempt<T> := Attempt.Recv;
      while true
        invariant Valid() && i <= |others| && history == old(history) + Retried(a, others[..i])
        decreases |others| - i
      {
        ghost var before := history;
        Log(a);
        if buf != [] {
          var item := buf[0];
          buf := buf[1..];
          return Got(item), i;
        }
        if closed {
          return EndOfChannel, i;
        }
        if i == |others| {
          return Nothing, i;
        }
        Others(others[i]);
        RetriedOnce(a, others, i);
        assert before + [a] + others[i] == before + ([a] + others[i]);
        Associate(old(history), Retried(a, others[..i]), [a] + others[i]);
        i := i + 1;
      }
    }
  }

  /** An attempt repeated, and what others do after each repetition. */
  function Retried<T>(a: Attempt<T>, others: seq<seq<Attempt<T>>>): seq<Attempt<T>>
    decreases |others|
  {
    if others == [] then [] else Retried(a, others[..|others| - 1]) + ([a] + others[|others| - 1])
  }

  lemma RetriedOnce<T>(a: Attempt<T>, others: seq<seq<Attempt<T>>>, i: nat)
    requires i < |others|
    ensures Retried(a, others[..i + 1]) == Retried(a, others[..i]) + ([a] + others[i])
  {
    assert others[..i + 1][..i] == others[..i];
  }
}
