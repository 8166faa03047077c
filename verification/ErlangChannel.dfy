/** erlang/csp/channel_demo.erl: the channel process with its two receive statements.
  Messages reach its mailbox in any order, from any number of processes, and it takes them
  out at any pace.  `close` is not modelled. */
module ErlangChannel {
  import opened Runs

  type Pid = nat

  datatype Msg = Send(value: int, from: Pid) | Recv(from: Pid)
  datatype Reply = Ok(to: Pid) | Value(to: Pid, value: int)

  /** Where the process is: in channel_loop, or in the inner receive on behalf of a process
      that found the buffer empty. */
  datatype Control = ChannelLoop(buffer: seq<int>) | AwaitSend(from: Pid)
  datatype Channel = Channel(control: Control, mailbox: seq<Msg>, sent: seq<Reply>)

  const START := Channel(ChannelLoop([]), [], [])

  /** The position of the first send in a mailbox, which the inner receive takes. */
  function FirstSend(mailbox: seq<Msg>): (k: nat)
    ensures k <= |mailbox| && (k < |mailbox| ==> mailbox[k].Send?)
    ensures forall i :: 0 <= i < k ==> mailbox[i].Recv?
  {
    if mailbox == [] || mailbox[0].Send? then 0 else 1 + FirstSend(mailbox[1..])
  }

  predicate CanReceive(c: Channel) {
    match c.control
    case ChannelLoop(_) => c.mailbox != []
    case AwaitSend(_) => FirstSend(c.mailbox) < |c.mailbox|
  }

  /** From one receive to the next. */
  function Receive(c: Channel): Channel
    requires CanReceive(c)
  {
    match c.control
    case ChannelLoop(buffer) =>
      var rest := c.mailbox[1..];
      (match c.mailbox[0]
       case Send(value, from) => Channel(ChannelLoop(buffer + [value]), rest, c.sent + [Ok(from)])
       case Recv(from) =>
         if buffer != [] then Channel(ChannelLoop(buffer[1..]), rest, c.sent + [Value(from, buffer[0])])
         else Channel(AwaitSend(from), rest, c.sent))
    case AwaitSend(from) =>
      var k := FirstSend(c.mailbox);
      var m := c.mailbox[k];
      Channel(ChannelLoop([]), c.mailbox[..k] + c.mailbox[k + 1..], c.sent + [Ok(m.from), Value(from, m.value)])
  }

  function Deliver(c: Channel, ms: seq<Msg>): Channel {
    c.(mailbox := c.mailbox + ms)
  }

  datatype Event = Delivery(m: Msg) | Reception

  const SYSTEM: System<Channel, Event> := System(
    (c: Channel, e: Event) => e.Reception? ==> CanReceive(c),
    (c: Channel, e: Event) =>
      if e.Delivery? then Deliver(c, [e.m]) else if CanReceive(c) then Receive(c) else c)

  /** The messages that have arrived, in order. */
  function Arrived(events: seq<Event>): seq<Msg> {
    if events == [] then []
    else (if events[0].Delivery? then [events[0].m] else []) + Arrived(events[1..])
  }

  // ---------------------------------------------- the pace does not matter

  /** Receiving until nothing more can be received. */
  function Drain(c: Channel): Channel
    decreases |c.mailbox|
  {
    if CanReceive(c) then Drain(Receive(c)) else c
  }

  lemma {:induction false} FirstSendAppend(a: seq<Msg>, b: seq<Msg>)
    requires FirstSend(a) < |a|
    ensures FirstSend(a + b) == FirstSend(a)
  {
    assert (a + b)[0] == a[0];
    if a[0].Recv? {
      assert (a + b)[1..] == a[1..] + b;
      FirstSendAppend(a[1..], b);
    }
  }

  /** What arrives later does not change what is received now. */
  lemma ReceiveCommutes(c: Channel, ms: seq<Msg>)
    requires CanReceive(c)
    ensures CanReceive(Deliver(c, ms)) && Receive(Deliver(c, ms)) == Deliver(Receive(c), ms)
  {
    var all := c.mailbox + ms;
    if c.control.ChannelLoop? {
      assert all[1..] == c.mailbox[1..] + ms;
    } else {
      FirstSendAppend(c.mailbox, ms);
      var k := FirstSend(c.mailbox);
      assert all[..k] + all[k + 1..] == (c.mailbox[..k] + c.mailbox[k + 1..]) + ms;
    }
  }

  lemma {:induction false} PaceDoesNotMatter(c: Channel, events: seq<Event>)
    requires Legal(SYSTEM, c, events)
    ensures Drain(After(SYSTEM, c, events)) == Drain(Deliver(c, Arrived(events)))
    decreases |events|
  {
    hide Receive, CanReceive;
    if events == [] {
      assert Deliver(c, []) == c by { assert c.mailbox + [] == c.mailbox; }
    } else {
      var rest := Arrived(events[1..]);
      if events[0].Delivery? {
        var c' := Deliver(c, [events[0].m]);
        PaceDoesNotMatter(c', events[1..]);
        assert c.mailbox + [events[0].m] + rest == c.mailbox + ([events[0].m] + rest);
      } else {
        PaceDoesNotMatter(Receive(c), events[1..]);
        ReceiveCommutes(c, rest);
        assert [] + rest == rest;
      }
    }
  }

  /** Two runs in which the same messages arrive in the same order, and in which nothing more
      can be received, have sent the same replies in the same order, however the receptions
      fell between the arrivals. */
  lemma OutcomeDependsOnArrivalOrder(events: seq<Event>, events': seq<Event>)
    requires Legal(SYSTEM, START, events) && Legal(SYSTEM, START, events') && Arrived(events) == Arrived(events')
    requires !CanReceive(After(SYSTEM, START, events)) && !CanReceive(After(SYSTEM, START, events'))
    ensures After(SYSTEM, START, events) == After(SYSTEM, START, events')
  {
    PaceDoesNotMatter(START, events);
    PaceDoesNotMatter(START, events');
  }

  // ------------------------------------------------- who gets what

  function Sends(ms: seq<Msg>): (r: seq<Msg>)
    ensures forall m :: m in r ==> m.Send?
  {
    if ms == [] then [] else if ms[0].Send? then [ms[0]] + Sends(ms[1..]) else Sends(ms[1..])
  }

  function Recvs(ms: seq<Msg>): (r: seq<Msg>)
    ensures forall m :: m in r ==> m.Recv?
  {
    if ms == [] then [] else if ms[0].Recv? then [ms[0]] + Recvs(ms[1..]) else Recvs(ms[1..])
  }

  function Acks(replies: seq<Reply>): seq<Pid> {
    if replies == [] then []
    else if replies[0].Ok? then [replies[0].to] + Acks(replies[1..])
    else Acks(replies[1..])
  }

  function Values(replies: seq<Reply>): seq<(Pid, int)> {
    if replies == [] then []
    else if replies[0].Value? then [(replies[0].to, replies[0].value)] + Values(replies[1..])
    else Values(replies[1..])
  }

  lemma SplitSingle(m: Msg)
    ensures Sends([m]) == (if m.Send? then [m] else []) && Recvs([m]) == (if m.Recv? then [m] else [])
  {
  }

  lemma SplitReplies(to: Pid, r: Reply)
    requires r.Value?
    ensures Acks([]) == [] && Values([]) == []
    ensures Acks([Ok(to)]) == [to] && Values([Ok(to)]) == []
    ensures Acks([r]) == [] && Values([r]) == [(r.to, r.value)]
  {
    assert [Ok(to)][1..] == [] && [r][1..] == [];
  }

  lemma {:induction false} SendsAppend(a: seq<Msg>, b: seq<Msg>)
    ensures Sends(a + b) == Sends(a) + Sends(b)
  {
    if a == [] {
      assert a + b == b;
    } else {
      assert (a + b)[1..] == a[1..] + b && (a + b)[0] == a[0];
      SendsAppend(a[1..], b);
    }
  }

  lemma {:induction false} RecvsAppend(a: seq<Msg>, b: seq<Msg>)
    ensures Recvs(a + b) == Recvs(a) + Recvs(b)
  {
    if a == [] {
      assert a + b == b;
    } else {
      assert (a + b)[1..] == a[1..] + b && (a + b)[0] == a[0];
      RecvsAppend(a[1..], b);
    }
  }

  lemma SplitAppend(a: seq<Msg>, b: seq<Msg>)
    ensures Sends(a + b) == Sends(a) + Sends(b) && Recvs(a + b) == Recvs(a) + Recvs(b)
  {
    SendsAppend(a, b);
    RecvsAppend(a, b);
  }

  lemma DropAppend(s: seq<Msg>, t: seq<Msg>, k: nat)
    requires k <= |s|
    ensures (s + t)[k..] == s[k..] + t
  {
  }

  lemma {:induction false} AcksAppend(a: seq<Reply>, b: seq<Reply>)
    ensures Acks(a + b) == Acks(a) + Acks(b)
  {
    if a == [] {
      assert a + b == b;
    } else {
      assert (a + b)[1..] == a[1..] + b && (a + b)[0] == a[0];
      AcksAppend(a[1..], b);
    }
  }

  lemma {:induction false} ValuesAppend(a: seq<Reply>, b: seq<Reply>)
    ensures Values(a + b) == Values(a) + Values(b)
  {
    if a == [] {
      assert a + b == b;
    } else {
      assert (a + b)[1..] == a[1..] + b && (a + b)[0] == a[0];
      ValuesAppend(a[1..], b);
    }
  }

  lemma RepliesAppend(a: seq<Reply>, b: seq<Reply>)
    ensures Acks(a + b) == Acks(a) + Acks(b) && Values(a + b) == Values(a) + Values(b)
  {
    AcksAppend(a, b);
    ValuesAppend(a, b);
  }

  lemma {:induction false} OnlyRecvs(ms: seq<Msg>)
    requires forall i :: 0 <= i < |ms| ==> ms[i].Recv?
    ensures Sends(ms) == [] && Recvs(ms) == ms
  {
    if ms != [] { OnlyRecvs(ms[1..]); }
  }

  /** Taking out the first send leaves the other sends and all recvs in order. */
  lemma TakeFirstSend(mailbox: seq<Msg>)
    requires FirstSend(mailbox) < |mailbox|
    ensures var k := FirstSend(mailbox); var rest := mailbox[..k] + mailbox[k + 1..];
            Sends(mailbox) == [mailbox[k]] + Sends(rest) && Recvs(mailbox) == Recvs(rest)
  {
    hide Sends, Recvs;
    var k := FirstSend(mailbox);
    var before, m, after := mailbox[..k], mailbox[k], mailbox[k + 1..];
    assert mailbox == before + ([m] + after);
    OnlyRecvs(before);
    SplitAppend(before, [m] + after);
    SplitAppend([m], after);
    SplitSingle(m);
    SplitAppend(before, after);
  }

  /** All that has arrived is what was taken, in order, followed by what is in the mailbox;
      the senders taken are acknowledged; and the requests taken have the values taken, the
      k-th the k-th, except that more values were taken (they are in the buffer) or one
      more request (it waits). */
  ghost predicate Matching(c: Channel, arrived: seq<Msg>) {
    var sends, recvs := Sends(arrived), Recvs(arrived);
    var acks, values := Acks(c.sent), Values(c.sent);
    && |values| <= |acks| <= |sends| && |values| <= |recvs|
    && (forall k :: 0 <= k < |acks| ==> acks[k] == sends[k].from)
    && (forall k :: 0 <= k < |values| ==> values[k] == (recvs[k].from, sends[k].value))
    && sends[|acks|..] == Sends(c.mailbox)
    && (match c.control
        case ChannelLoop(buffer) =>
          && recvs[|values|..] == Recvs(c.mailbox)
          && |buffer| == |acks| - |values|
          && forall i :: 0 <= i < |buffer| ==> buffer[i] == sends[|values| + i].value
        case AwaitSend(from) =>
          && |values| == |acks| && |values| < |recvs|
          && recvs[|values|] == Recv(from) && recvs[|values| + 1..] == Recvs(c.mailbox))
  }

  lemma DeliveryKeepsMatching(c: Channel, m: Msg, arrived: seq<Msg>)
    requires Matching(c, arrived)
    ensures Matching(Deliver(c, [m]), arrived + [m])
  {
    hide Sends, Recvs, Acks, Values;
    SplitAppend(arrived, [m]);
    SplitAppend(c.mailbox, [m]);
    SplitSingle(m);
    DropAppend(Sends(arrived), Sends([m]), |Acks(c.sent)|);
    DropAppend(Recvs(arrived), Recvs([m]), |Values(c.sent)|);
    if c.control.AwaitSend? {
      DropAppend(Recvs(arrived), Recvs([m]), |Values(c.sent)| + 1);
    }
  }

  lemma SendIsBuffered(c: Channel, arrived: seq<Msg>)
    requires Matching(c, arrived) && c.control.ChannelLoop? && c.mailbox != [] && c.mailbox[0].Send?
    ensures Matching(Receive(c), arrived)
  {
    hide Sends, Recvs, Acks, Values, FirstSend;
    var m, rest := c.mailbox[0], c.mailbox[1..];
    assert c.mailbox == [m] + rest;
    SplitAppend([m], rest);
    SplitSingle(m);
    RepliesAppend(c.sent, [Ok(m.from)]);
    SplitReplies(m.from, Value(0, 0));
    var sends := Sends(arrived);
    assert sends[|Acks(c.sent)|..][1..] == sends[|Acks(c.sent)| + 1..];
    assert Recvs(rest) == Recvs(c.mailbox);
  }

  lemma RequestIsAnswered(c: Channel, arrived: seq<Msg>)
    requires Matching(c, arrived) && c.control.ChannelLoop? && c.mailbox != [] && c.mailbox[0].Recv?
    requires c.control.buffer != []
    ensures Matching(Receive(c), arrived)
  {
    hide Sends, Recvs, Acks, Values, FirstSend;
    var m, rest := c.mailbox[0], c.mailbox[1..];
    assert c.mailbox == [m] + rest;
    SplitAppend([m], rest);
    SplitSingle(m);
    var reply := Value(m.from, c.control.buffer[0]);
    RepliesAppend(c.sent, [reply]);
    SplitReplies(0, reply);
    var recvs := Recvs(arrived);
    assert recvs[|Values(c.sent)|..][1..] == recvs[|Values(c.sent)| + 1..];
    assert Sends(rest) == Sends(c.mailbox);
  }

  lemma RequestWaits(c: Channel, arrived: seq<Msg>)
    requires Matching(c, arrived) && c.control.ChannelLoop? && c.mailbox != [] && c.mailbox[0].Recv?
    requires c.control.buffer == []
    ensures Matching(Receive(c), arrived)
  {
    hide Sends, Recvs, Acks, Values, FirstSend;
    var m, rest := c.mailbox[0], c.mailbox[1..];
    assert c.mailbox == [m] + rest;
    SplitAppend([m], rest);
    SplitSingle(m);
    var recvs := Recvs(arrived);
    assert recvs[|Values(c.sent)|..][1..] == recvs[|Values(c.sent)| + 1..];
    assert Sends(rest) == Sends(c.mailbox);
  }

  lemma SendIsHandedOver(c: Channel, arrived: seq<Msg>)
    requires Matching(c, arrived) && c.control.AwaitSend? && CanReceive(c)
    ensures Matching(Receive(c), arrived)
  {
    hide Sends, Recvs, Acks, Values, FirstSend;
    TakeFirstSend(c.mailbox);
    var m := c.mailbox[FirstSend(c.mailbox)];
    var reply := Value(c.control.from, m.value);
    assert Receive(c).sent == c.sent + [Ok(m.from)] + [reply];
    RepliesAppend(c.sent, [Ok(m.from)]);
    RepliesAppend(c.sent + [Ok(m.from)], [reply]);
    SplitReplies(m.from, reply);
    var sends := Sends(arrived);
    assert sends[|Acks(c.sent)|..][1..] == sends[|Acks(c.sent)| + 1..];
  }

  lemma ReceptionKeepsMatching(c: Channel, arrived: seq<Msg>)
    requires Matching(c, arrived) && CanReceive(c)
    ensures Matching(Receive(c), arrived)
  {
    hide Matching, Receive, FirstSend;
    if c.control.AwaitSend? {
      SendIsHandedOver(c, arrived);
    } else if c.mailbox[0].Send? {
      SendIsBuffered(c, arrived);
    } else if c.control.buffer != [] {
      RequestIsAnswered(c, arrived);
    } else {
      RequestWaits(c, arrived);
    }
  }

  lemma {:induction false} MatchingAlongRun(c: Channel, arrived: seq<Msg>, events: seq<Event>)
    requires Matching(c, arrived) && Legal(SYSTEM, c, events)
    ensures Matching(After(SYSTEM, c, events), arrived + Arrived(events))
    decreases |events|
  {
    hide Sends, Recvs, Acks, Values, Matching, Receive;
    if events == [] {
      assert arrived + [] == arrived;
    } else if events[0].Delivery? {
      DeliveryKeepsMatching(c, events[0].m, arrived);
      MatchingAlongRun(Deliver(c, [events[0].m]), arrived + [events[0].m], events[1..]);
      assert arrived + [events[0].m] + Arrived(events[1..]) == arrived + Arrived(events);
    } else {
      ReceptionKeepsMatching(c, arrived);
      MatchingAlongRun(Receive(c), arrived, events[1..]);
      assert arrived + Arrived(events[1..]) == arrived + Arrived(events);
    }
  }

  /** At any time: the k-th request to be answered is the k-th that arrived, and its answer
      is the k-th value that arrived; acknowledgements go to the senders in the order of
      their messages, one each.  When nothing more can be received, every send has been
      acknowledged and as many requests answered as there are values. */
  lemma KthRequestGetsKthValue(events: seq<Event>)
    requires Legal(SYSTEM, START, events)
    ensures var c := After(SYSTEM, START, events);
            var sends, recvs := Sends(Arrived(events)), Recvs(Arrived(events));
            var acks, values := Acks(c.sent), Values(c.sent);
            && |acks| <= |sends| && |values| <= |sends| && |values| <= |recvs|
            && (forall k :: 0 <= k < |acks| ==> acks[k] == sends[k].from)
            && (forall k :: 0 <= k < |values| ==> values[k] == (recvs[k].from, sends[k].value))
            && (!CanReceive(c) ==>
                  |acks| == |sends| && |values| == if |sends| <= |recvs| then |sends| else |recvs|)
  {
    assert Matching(START, []);
    hide Sends, Recvs, Acks, Values, Arrived;
    MatchingAlongRun(START, [], events);
    assert [] + Arrived(events) == Arrived(events);
    var c := After(SYSTEM, START, events);
    if !CanReceive(c) {
      OnlyRecvs(c.mailbox);
    }
  }
}
