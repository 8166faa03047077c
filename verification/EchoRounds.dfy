/** What the echo server of python/io_multiplexing/epoll_server.py does with one report about
  a client when nothing else happens, and how a connection ends that is at end of file. */
module EchoRounds {
  import opened Sockets

  datatype Mode = Level | Edge

  /** What poll() reports for a descriptor: EPOLLIN, EPOLLOUT, EPOLLERR or EPOLLHUP. */
  datatype Event = Event(readable: bool, writable: bool, failed: bool)

  const NOTHING := Event(false, false, false)

  /** The client with its connection and buffer, or closed. */
  datatype Outcome = Kept(c: Conn, buf: Bytes) | Gone(c: Conn)

  /** Reading until EAGAIN. */
  function ReadAll(c: Conn, buf: Bytes): Outcome
    decreases |c.recvQ|
  {
    match RecvResult(c)
    case Data(data) => ReadAll(AfterRecv(c), buf + Upper(data))
    case WouldBlock => Kept(c, buf)
    case _ => Gone(c)
  }

  function ReadOnce(c: Conn, buf: Bytes): Outcome {
    match RecvResult(c)
    case Data(data) => Kept(AfterRecv(c), buf + Upper(data))
    case WouldBlock => Kept(c, buf)
    case _ => Gone(c)
  }

  function Flush(c: Conn, buf: Bytes): Outcome {
    if buf == [] then Kept(c, buf)
    else match SendResult(c, buf)
      case Taken(n) => Kept(AfterSend(c, buf), buf[n..])
      case Full => Kept(c, buf)
      case SendFailed => Gone(c)
  }

  function Handle(mode: Mode, c: Conn, buf: Bytes, event: Event): Outcome {
    if event.failed then Gone(c)
    else
      var o := if !event.readable then Kept(c, buf) else if mode == Edge then ReadAll(c, buf) else ReadOnce(c, buf);
      if event.writable && o.Kept? then Flush(o.c, o.buf) else o
  }

  /** EPOLLOUT is asked for exactly while there are bytes to send. */
  function Report(c: Conn, buf: Bytes): Event {
    Event(Readable(c), buf != [] && c.room > 0, c.broken)
  }

  function Turn(mode: Mode, c: Conn, buf: Bytes): Outcome {
    Handle(mode, c, buf, Report(c, buf))
  }

  /** A byte not yet read has still to be read and sent, a byte in the buffer to be sent, and
      the connection to be closed. */
  function Load(c: Conn, buf: Bytes): nat {
    2 * |c.recvQ| + |buf| + 1
  }

  /** A connection that is waiting has first to be accepted. */
  function BacklogLoad(backlog: seq<Conn>): nat {
    if backlog == [] then 0 else Load(backlog[0], []) + 1 + BacklogLoad(backlog[1..])
  }

  /** Nothing more will arrive on it. */
  predicate Dying(c: Conn) {
    c.eof || c.broken
  }

  predicate SameEnd(c: Conn, c': Conn) {
    c'.arrived == c.arrived && c'.eof == c.eof && c'.broken == c.broken
  }

  lemma {:induction false} ReadAllTurn(c: Conn, buf: Bytes)
    requires EchoExact(c, buf)
    ensures var o := ReadAll(c, buf);
            && o.Gone? == Dying(c) && SameEnd(c, o.c) && o.c.sent == c.sent && |o.c.recvQ| <= |c.recvQ|
            && (o.Kept? ==>
                  && o.c.recvQ == [] && EchoExact(o.c, o.buf)
                  && Load(o.c, o.buf) <= Load(c, buf) && (c.recvQ != [] ==> Load(o.c, o.buf) < Load(c, buf)))
    decreases |c.recvQ|
  {
    if RecvResult(c).Data? {
      RecvKeepsEcho(c, buf);
      ReadAllTurn(AfterRecv(c), buf + Upper(RecvResult(c).bytes));
    }
  }

  lemma FlushTurn(c: Conn, buf: Bytes)
    requires EchoExact(c, buf)
    ensures var o := Flush(c, buf);
            && SameEnd(c, o.c) && c.sent <= o.c.sent && o.c.recvQ == c.recvQ
            && (o.Kept? ==>
                  && EchoExact(o.c, o.buf) && Load(o.c, o.buf) <= Load(c, buf)
                  && (buf != [] && c.room > 0 ==> Load(o.c, o.buf) < Load(c, buf)))
  {
    if buf != [] && SendResult(c, buf).Taken? { SendKeepsEcho(c, buf); }
  }

  /** A report is progress: the client is closed, which only happens to one that is dying, or
      there is less to do for it. */
  lemma TurnIsProgress(mode: Mode, c: Conn, buf: Bytes)
    requires EchoExact(c, buf)
    ensures var o := Turn(mode, c, buf);
            && SameEnd(c, o.c) && c.sent <= o.c.sent && |o.c.recvQ| <= |c.recvQ| && (o.Gone? ==> Dying(c))
            && (o.Kept? ==> EchoExact(o.c, o.buf) && (Report(c, buf) != NOTHING ==> Load(o.c, o.buf) < Load(c, buf)))
  {
    ReadAllTurn(c, buf);
    if RecvResult(c).Data? { RecvKeepsEcho(c, buf); }
    var event := Report(c, buf);
    var o := if !event.readable then Kept(c, buf) else if mode == Edge then ReadAll(c, buf) else ReadOnce(c, buf);
    if o.Kept? { FlushTurn(o.c, o.buf); }
  }

  /** The connection as it is closed, when reports about it are handled until it is. */
  ghost function Ends(mode: Mode, c: Conn, buf: Bytes): Conn
    requires Dying(c) && EchoExact(c, buf)
    decreases Load(c, buf)
  {
    var o := Turn(mode, c, buf);
    TurnIsProgress(mode, c, buf);
    if o.Gone? then o.c else Ends(mode, o.c, o.buf)
  }

  predicate Complete(c: Conn) {
    c.sent == Upper(c.arrived)
  }

  /** How many times recv(4096) finds something. */
  function Rounds(unread: nat): nat {
    (unread + 4095) / 4096
  }

  lemma NextRound(unread: nat)
    requires unread > 0
    ensures Rounds(unread) == 1 + Rounds(if unread <= RECV_SIZE then 0 else unread - RECV_SIZE)
  {
  }

  lemma CompleteMeansNothingLeft(c: Conn, buf: Bytes)
    requires EchoExact(c, buf)
    ensures Complete(c) <==> buf == [] && c.recvQ == []
  {
    assert |c.sent + buf + Upper(c.recvQ)| == |c.sent| + |buf| + |c.recvQ|;
    if buf == [] && c.recvQ == [] { assert c.sent + [] + [] == c.sent; }
  }

  /** In edge mode a client at end of file, and in both modes a broken one, is closed by the
      first report, without another byte being sent. */
  lemma ClosedAtOnce(mode: Mode, c: Conn, buf: Bytes)
    requires Dying(c) && EchoExact(c, buf) && (mode == Edge || c.broken)
    ensures var e := Ends(mode, c, buf); e.sent == c.sent && SameEnd(c, e)
    ensures Complete(Ends(mode, c, buf)) <==> buf == [] && c.recvQ == []
  {
    ReadAllTurn(c, buf);
    CompleteMeansNothingLeft(c, buf);
  }

  /** One report about a client at end of file with bytes to read, in level mode. */
  lemma LevelRound(c: Conn, buf: Bytes)
    requires c.eof && !c.broken && c.recvQ != []
    ensures var o := Turn(Level, c, buf);
            var n := if |c.recvQ| <= RECV_SIZE then |c.recvQ| else RECV_SIZE;
            var sent := if buf == [] then 0 else if |buf| + n <= c.room then |buf| + n else c.room;
            && o.Kept? && |o.c.recvQ| == |c.recvQ| - n && |o.buf| == |buf| + n - sent && o.c.room == c.room - sent
  {
    assert RecvResult(c).Data?;
  }

  /** All will be sent of `unread` bytes and of `buffered` ones, `room` being what the send
      queue takes. */
  predicate SendsAll(unread: nat, buffered: nat, room: nat) {
    buffered + unread <= room && (buffered == 0 <==> Rounds(unread) % 2 == 0)
  }

  lemma SendsAllRound(unread: nat, buffered: nat, room: nat, n: nat, sent: nat)
    requires unread > 0 && n == if unread <= RECV_SIZE then unread else RECV_SIZE
    requires sent == if buffered == 0 then 0 else if buffered + n <= room then buffered + n else room
    ensures SendsAll(unread, buffered, room) <==> SendsAll(unread - n, buffered + n - sent, room - sent)
  {
    NextRound(unread);
    hide Rounds;
    var r, r' := Rounds(unread), Rounds(unread - n);
    assert r == r' + 1 && (r % 2 == 0 <==> r' % 2 != 0);
  }

  lemma EndsAfterTurn(mode: Mode, c: Conn, buf: Bytes)
    requires Dying(c) && EchoExact(c, buf) && Turn(mode, c, buf).Kept?
    ensures var o := Turn(mode, c, buf);
            && Dying(o.c) && EchoExact(o.c, o.buf) && SameEnd(c, o.c) && c.sent <= o.c.sent
            && Load(o.c, o.buf) < Load(c, buf) && Ends(mode, c, buf) == Ends(mode, o.c, o.buf)
  {
    TurnIsProgress(mode, c, buf);
  }

  /** In level mode a client at end of file is read 4096 bytes at a time, and closed when
      there is nothing left to read.  Its buffer is flushed in the rounds whose report found
      bytes in it, that is in every second one while there is room: so whether everything has
      been sent by then is a matter of parity. */
  lemma {:induction false} ClosedAfterReading(c: Conn, buf: Bytes)
    requires c.eof && !c.broken && EchoExact(c, buf)
    ensures SameEnd(c, Ends(Level, c, buf)) && c.sent <= Ends(Level, c, buf).sent
    ensures Complete(Ends(Level, c, buf)) <==> SendsAll(|c.recvQ|, |buf|, c.room)
    decreases Load(c, buf)
  {
    if c.recvQ == [] {
      CompleteMeansNothingLeft(c, buf);
    } else {
      LevelRound(c, buf);
      EndsAfterTurn(Level, c, buf);
      hide Turn, EchoExact, SendsAll, Complete, Ends;
      var o := Turn(Level, c, buf);
      var n := if |c.recvQ| <= RECV_SIZE then |c.recvQ| else RECV_SIZE;
      SendsAllRound(|c.recvQ|, |buf|, c.room, n, |buf| + n - |o.buf|);
      ClosedAfterReading(o.c, o.buf);
    }
  }

  /** When the echo of a connection on which nothing more arrives is complete. */
  predicate EchoesAll(mode: Mode, c: Conn, buf: Bytes) {
    if mode == Edge || c.broken then buf == [] && c.recvQ == []
    else SendsAll(|c.recvQ|, |buf|, c.room)
  }

  /** The exact condition, and what is so in any case: nothing but a prefix is ever sent. */
  lemma EndIsComplete(mode: Mode, c: Conn, buf: Bytes)
    requires Dying(c) && EchoExact(c, buf)
    ensures var e := Ends(mode, c, buf);
            && e.arrived == c.arrived && c.sent <= e.sent && (Complete(e) <==> EchoesAll(mode, c, buf))
            && (mode == Edge || c.broken ==> e.sent == c.sent)
  {
    if mode == Edge || c.broken { ClosedAtOnce(mode, c, buf); } else { ClosedAfterReading(c, buf); }
  }

  /** A client that sends one byte and shuts down its writing side gets nothing back, in
      either mode, although there is room for it. */
  lemma ByteIsLost(mode: Mode)
    ensures var c := Conn([97], true, false, 1000, [97], []);
            && EchoExact(c, []) && Dying(c)
            && var e := Ends(mode, c, []); e.sent == [] && e.recvQ == [] && SameEnd(c, e) && !Complete(e)
  {
    var c := Conn([97], true, false, 1000, [97], []);
    var c1 := AfterRecv(c);
    assert [] + [] + Upper([97]) == Upper([97]) && [97][1..] == [];
    EndIsComplete(mode, c, []);
    assert RecvResult(c) == Data([97]) && c1 == c.(recvQ := []);
    if mode == Level {
      assert Turn(Level, c, []) == Kept(c1, [] + Upper([97]));
      assert Turn(Level, c1, [] + Upper([97])) == Gone(c1);
    } else {
      assert ReadAll(c1, [] + Upper([97])) == Gone(c1);
    }
  }
}
