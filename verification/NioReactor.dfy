/** python/io_multiplexing/nio_reactor_server.py: the reactor, its cancel handles, the echo
  handlers and the acceptor, on top of an event loop that calls whatever is registered. */
module NioReactor {
  import opened EchoRounds
  import opened Options
  import opened Sockets
  import opened Totals

  /** The bound methods that are registered as callbacks. */
  datatype Callback =
    | ReadCallback(handler: EchoHandler)
    | WriteCallback(handler: EchoHandler)
    | AcceptCallback(acceptor: Acceptor)

  ghost predicate SameBut(fd: Fd, m: map<Fd, Callback>, m': map<Fd, Callback>) {
    forall g :: g != fd ==> (g in m <==> g in m') && (g in m ==> m'[g] == m[g])
  }

  /** The asyncio loop: one reader and one writer callback per descriptor at most. */
  class EventLoop {
    var readers: map<Fd, Callback>
    var writers: map<Fd, Callback>

    constructor ()
      ensures readers == map[] && writers == map[]
    {
      readers, writers := map[], map[];
    }

    method AddReader(fd: Fd, callback: Callback)
      modifies this`readers
      ensures readers == old(readers)[fd := callback]
    {
      readers := readers[fd := callback];
    }

    method AddWriter(fd: Fd, callback: Callback)
      modifies this`writers
      ensures writers == old(writers)[fd := callback]
    {
      writers := writers[fd := callback];
    }

    method RemoveReader(fd: Fd)
      modifies this`readers
      ensures readers == old(readers) - {fd}
    {
      readers := readers - {fd};
    }

    method RemoveWriter(fd: Fd)
      modifies this`writers
      ensures writers == old(writers) - {fd}
    {
      writers := writers - {fd};
    }
  }

  /** _CancelHandle: removes a reader or a writer from the loop, once. */
  class CancelHandle {
    const fd: Fd
    const loop: EventLoop
    const reader: bool      // remove_reader or remove_writer
    var cancelled: bool

    constructor (fd: Fd, loop: EventLoop, reader: bool)
      ensures this.fd == fd && this.loop == loop && this.reader == reader && !cancelled
    {
      this.fd, this.loop, this.reader, cancelled := fd, loop, reader, false;
    }

    method Cancel()
      modifies this, loop
      ensures cancelled
      ensures loop.readers == old(loop.readers) - if reader && !old(cancelled) then {fd} else {}
      ensures loop.writers == old(loop.writers) - if !reader && !old(cancelled) then {fd} else {}
    {
      if !cancelled {
        cancelled := true;
        if reader { loop.RemoveReader(fd); } else { loop.RemoveWriter(fd); }
      }
    }
  }

  class Reactor {
    var loop: EventLoop?
    var handlers: map<Fd, (Option<Callback>, Option<Callback>)>
    var readWatchers: map<Fd, CancelHandle>
    var writeWatchers: map<Fd, CancelHandle>
    ghost var made: set<CancelHandle>       // all handles ever made

    /** Before a loop is attached nothing is registered.  Afterwards the watchers are
        exactly the registrations of the loop, each can be cancelled, and `handlers` knows
        its callback; `handlers` may still name a writer that is no longer registered. */
    ghost predicate Valid()
      reads this, loop, made
    {
      && (loop == null ==> readWatchers == map[] && writeWatchers == map[] && handlers == map[])
      && (loop != null ==> WatchersOk() && HandlersOk())
    }

    ghost predicate WatchersOk()
      requires loop != null
      reads this, loop, made
    {
      && loop.readers.Keys == readWatchers.Keys && loop.writers.Keys == writeWatchers.Keys
      && (forall fd :: fd in readWatchers ==> WatcherOk(fd, readWatchers[fd], true))
      && (forall fd :: fd in writeWatchers ==> WatcherOk(fd, writeWatchers[fd], false))
    }

    /** All watchers are in order, except that of one callback of `fd`. */
    ghost predicate OthersWatched(fd: Fd, reader: bool)
      reads this, made
    {
      && (forall g :: g in readWatchers && !(reader && g == fd) ==> WatcherOk(g, readWatchers[g], true))
      && (forall g :: g in writeWatchers && !(!reader && g == fd) ==> WatcherOk(g, writeWatchers[g], false))
    }

    ghost predicate WatcherOk(fd: Fd, w: CancelHandle, reader: bool)
      reads this, made
    {
      w in made && w.fd == fd && w.reader == reader && w.loop == loop && !w.cancelled
    }

    ghost predicate HandlersOk()
      requires loop != null
      reads this, loop
    {
      && (forall fd :: fd in loop.readers ==> fd in handlers && handlers[fd].0 == Some(loop.readers[fd]))
      && (forall fd :: fd in loop.writers ==> fd in handlers && handlers[fd].1 == Some(loop.writers[fd]))
      && (forall fd :: fd in handlers && handlers[fd].0.Some? ==> fd in loop.readers)
    }

    constructor ()
      ensures Valid() && loop == null && made == {}
    {
      loop := null;
      handlers, readWatchers, writeWatchers, made := map[], map[], map[], {};
    }

    /** attach_loop: the handles made so far belong to the loop that was attached before, so
        another loop agrees with the watchers if and only if nothing is registered anywhere. */
    method AttachLoop(loop: EventLoop)
      modifies this`loop
      ensures this.loop == loop
      ensures old(Valid()) && loop != old(this.loop) ==>
        (Valid() <==> readWatchers == map[] && writeWatchers == map[] && loop.readers == map[] && loop.writers == map[])
      ensures old(Valid()) && loop == old(this.loop) ==> Valid()
    {
      ghost var before := this.loop;
      ghost var wasValid := Valid();
      assert wasValid && before != null ==>
        && (forall fd :: fd in readWatchers ==> readWatchers[fd].loop == before)
        && (forall fd :: fd in writeWatchers ==> writeWatchers[fd].loop == before);
      this.loop := loop;
      if wasValid && loop != before {
        if Valid() {
          assert readWatchers.Keys == {} by { assert forall fd :: fd in readWatchers ==> WatcherOk(fd, readWatchers[fd], true); }
          assert writeWatchers.Keys == {} by { assert forall fd :: fd in writeWatchers ==> WatcherOk(fd, writeWatchers[fd], false); }
          assert loop.readers.Keys == {} && loop.writers.Keys == {};
        }
      }
    }

    /** _add_read_watcher: the registration that is replaced is cancelled first ... */
    method CancelOldReader(fd: Fd)
      requires loop != null && WatchersOk()
      modifies loop, made
      ensures OthersWatched(fd, true) && loop.readers == old(loop.readers) - {fd} && loop.writers == old(loop.writers)
    {
      if fd in readWatchers {
        readWatchers[fd].Cancel();
      }
    }

    /** ... and then the new one is made, with a handle of its own. */
    method AddNewReader(fd: Fd, callback: Callback)
      requires loop != null && OthersWatched(fd, true)
      requires loop.readers.Keys == readWatchers.Keys - {fd} && loop.writers.Keys == writeWatchers.Keys
      modifies this`readWatchers, this`made, loop
      ensures WatchersOk() && fresh(made - old(made))
      ensures loop.readers == old(loop.readers)[fd := callback] && loop.writers == old(loop.writers)
    {
      loop.AddReader(fd, callback);
      var handle := new CancelHandle(fd, loop, true);
      made := made + {handle};
      readWatchers := readWatchers[fd := handle];
    }

    method AddReadWatcher(fd: Fd, callback: Callback)
      requires loop != null ==> WatchersOk()
      modifies this`readWatchers, this`made, loop, made
      ensures loop != null ==>
        && WatchersOk() && fresh(made - old(made))
        && loop.readers == old(loop.readers)[fd := callback] && loop.writers == old(loop.writers)
      ensures loop == null ==> made == old(made) && readWatchers == old(readWatchers)
    {
      if loop == null { return; }
      CancelOldReader(fd);
      AddNewReader(fd, callback);
    }

    /** _add_write_watcher: the registration that is replaced is cancelled first ... */
    method CancelOldWriter(fd: Fd)
      requires loop != null && WatchersOk()
      modifies loop, made
      ensures OthersWatched(fd, false) && loop.writers == old(loop.writers) - {fd} && loop.readers == old(loop.readers)
    {
      if fd in writeWatchers {
        writeWatchers[fd].Cancel();
      }
    }

    /** ... and then the new one is made, with a handle of its own. */
    method AddNewWriter(fd: Fd, callback: Callback)
      requires loop != null && OthersWatched(fd, false)
      requires loop.writers.Keys == writeWatchers.Keys - {fd} && loop.readers.Keys == readWatchers.Keys
      modifies this`writeWatchers, this`made, loop
      ensures WatchersOk() && fresh(made - old(made))
      ensures loop.writers == old(loop.writers)[fd := callback] && loop.readers == old(loop.readers)
    {
      loop.AddWriter(fd, callback);
      var handle := new CancelHandle(fd, loop, false);
      made := made + {handle};
      writeWatchers := writeWatchers[fd := handle];
    }

    method AddWriteWatcher(fd: Fd, callback: Callback)
      requires loop != null ==> WatchersOk()
      modifies this`writeWatchers, this`made, loop, made
      ensures loop != null ==>
        && WatchersOk() && fresh(made - old(made))
        && loop.writers == old(loop.writers)[fd := callback] && loop.readers == old(loop.readers)
      ensures loop == null ==> made == old(made) && writeWatchers == old(writeWatchers)
    {
      if loop == null { return; }
      CancelOldWriter(fd);
      AddNewWriter(fd, callback);
    }

    /** register_read: without a loop it does nothing. */
    method RegisterRead(fd: Fd, callback: Callback)
      requires Valid()
      modifies this, loop, made
      ensures Valid() && loop == old(loop) && fresh(made - old(made))
      ensures loop != null ==> loop.readers == old(loop.readers)[fd := callback] && loop.writers == old(loop.writers)
    {
      if loop == null { return; }
      var w := if fd in handlers then handlers[fd].1 else None;
      handlers := handlers[fd := (Some(callback), w)];
      AddReadWatcher(fd, callback);
    }

    /** register_write: without a loop it does nothing. */
    method RegisterWrite(fd: Fd, callback: Callback)
      requires Valid()
      modifies this, loop, made
      ensures Valid() && loop == old(loop) && fresh(made - old(made))
      ensures loop != null ==> loop.writers == old(loop.writers)[fd := callback] && loop.readers == old(loop.readers)
    {
      if loop == null { return; }
      var r := if fd in handlers then handlers[fd].0 else None;
      handlers := handlers[fd := (r, Some(callback))];
      AddWriteWatcher(fd, callback);
    }

    method CancelReadWatcher(fd: Fd)
      requires if loop != null then WatchersOk() else readWatchers == map[]
      modifies this`readWatchers, loop, made
      ensures if loop != null then WatchersOk() else readWatchers == map[]
      ensures loop != null ==> loop.readers == old(loop.readers) - {fd} && loop.writers == old(loop.writers)
    {
      if fd in readWatchers {
        readWatchers[fd].Cancel();
        readWatchers := readWatchers - {fd};
      }
    }

    method CancelWriteWatcher(fd: Fd)
      requires if loop != null then WatchersOk() else writeWatchers == map[]
      modifies this`writeWatchers, loop, made
      ensures if loop != null then WatchersOk() else writeWatchers == map[]
      ensures loop != null ==> loop.writers == old(loop.writers) - {fd} && loop.readers == old(loop.readers)
    {
      if fd in writeWatchers {
        writeWatchers[fd].Cancel();
        writeWatchers := writeWatchers - {fd};
      }
    }

    /** unregister_write: `handlers` keeps its entry. */
    method UnregisterWrite(fd: Fd)
      requires Valid()
      modifies this`writeWatchers, loop, made
      ensures Valid()
      ensures loop != null ==> loop.writers == old(loop.writers) - {fd} && loop.readers == old(loop.readers)
    {
      CancelWriteWatcher(fd);
    }

    method UnregisterAll(fd: Fd)
      requires Valid()
      modifies this, loop, made
      ensures Valid() && loop == old(loop) && made == old(made) && handlers == old(handlers) - {fd}
      ensures loop != null ==> loop.writers == old(loop.writers) - {fd} && loop.readers == old(loop.readers) - {fd}
    {
      CancelReadWatcher(fd);
      CancelWriteWatcher(fd);
      handlers := handlers - {fd};
    }
  }

  /** A connected socket and its state in the kernel. */
  class Socket {
    const fd: Fd
    var conn: Conn
    var open: bool

    constructor (fd: Fd, conn: Conn)
      ensures this.fd == fd && this.conn == conn && open
    {
      this.fd, this.conn, open := fd, conn, true;
    }

    /** Something happens outside. */
    method Happen(a: Outside)
      modifies this`conn
      ensures conn == ConnAfter(old(conn), a)
    {
      conn := ConnAfter(conn, a);
    }

    method Recv() returns (r: Received)
      modifies this`conn
      ensures r == RecvResult(old(conn)) && conn == AfterRecv(old(conn))
    {
      r := RecvResult(conn);
      conn := AfterRecv(conn);
    }

    method Send(data: Bytes) returns (r: Sent)
      modifies this`conn
      ensures r == SendResult(old(conn), data) && conn == AfterSend(old(conn), data)
    {
      r := SendResult(conn, data);
      conn := AfterSend(conn, data);
    }
  }

  class EchoHandler {
    const reactor: Reactor
    const sock: Socket
    const fd: Fd
    var sendBuf: Bytes
    var closed: bool

    /** A handler has echoed all it has read but for the bytes in its buffer; an open one has
        its read callback registered, and its write callback exactly when there are any. */
    ghost predicate Ok()
      reads this, sock, reactor, reactor.loop
    {
      && reactor.loop != null && sock.fd == fd && sock.open == !closed
      && EchoExact(sock.conn, sendBuf)
      && if closed then ClosedOk(sock.conn)
         else
           && fd in reactor.loop.readers && reactor.loop.readers[fd] == ReadCallback(this)
           && (fd in reactor.loop.writers <==> sendBuf != [])
           && (fd in reactor.loop.writers ==> reactor.loop.writers[fd] == WriteCallback(this))
    }

    /** Nothing is registered for `fd` but what was registered for it before. */
    twostate predicate OnlyMine()
      reads this, reactor, reactor.loop
    {
      && reactor.loop == old(reactor.loop) && reactor.loop != null
      && SameBut(fd, old(reactor.loop.readers), reactor.loop.readers)
      && SameBut(fd, old(reactor.loop.writers), reactor.loop.writers)
    }

    /** A handler is in order as long as nobody touches it or its registrations. */
    twostate lemma StillOk()
      requires old(Ok()) && reactor.loop == old(reactor.loop)
      requires closed == old(closed) && sendBuf == old(sendBuf) && sock.conn == old(sock.conn) && sock.open == old(sock.open)
      requires !closed ==> fd in reactor.loop.readers && reactor.loop.readers[fd] == old(reactor.loop.readers[fd])
      requires !closed ==> (fd in reactor.loop.writers <==> fd in old(reactor.loop.writers))
      requires !closed && fd in reactor.loop.writers ==> reactor.loop.writers[fd] == old(reactor.loop.writers[fd])
      ensures Ok()
    {
    }

    /** __init__: without a loop the read callback is not registered. */
    constructor (reactor: Reactor, sock: Socket)
      requires reactor.Valid()
      modifies reactor, reactor.loop, reactor.made
      ensures this.reactor == reactor && this.sock == sock && fd == sock.fd && sendBuf == [] && !closed
      ensures reactor.Valid() && reactor.loop == old(reactor.loop) && fresh(reactor.made - old(reactor.made))
      ensures reactor.loop != null ==>
        && reactor.loop.readers == old(reactor.loop.readers)[fd := ReadCallback(this)]
        && reactor.loop.writers == old(reactor.loop.writers)
        && (sock.open && EchoExact(sock.conn, []) && fd !in reactor.loop.writers ==> Ok())
    {
      this.reactor, this.sock, fd, sendBuf, closed := reactor, sock, sock.fd, [], false;
      new;
      reactor.RegisterRead(fd, ReadCallback(this));
    }

    /** on_read: what is read is upper-cased and queued; end of file or a reset closes. */
    method OnRead()
      requires reactor.Valid() && Ok()
      modifies this, sock, reactor, reactor.loop, reactor.made
      ensures reactor.Valid() && Ok() && OnlyMine() && fresh(reactor.made - old(reactor.made))
      ensures sock.conn == if old(closed) then old(sock.conn) else AfterRecv(old(sock.conn))
      ensures closed == (old(closed) || RecvResult(old(sock.conn)).Eof? || RecvResult(old(sock.conn)).Reset?)
      ensures sendBuf == old(sendBuf) +
        if !old(closed) && RecvResult(old(sock.conn)).Data? then Upper(RecvResult(old(sock.conn)).bytes) else []
      ensures closed && !old(closed) ==> fd !in reactor.loop.readers && fd !in reactor.loop.writers
    {
      hide Reactor.Valid;
      if closed { return; }
      ghost var before := sock.conn;
      var r := sock.Recv();
      match r {
        case WouldBlock => return;
        case Eof => Close();
        case Reset => Close();
        case Data(data) =>
          RecvKeepsEcho(before, sendBuf);
          Queue(data);
      }
    }

    /** The end of on_read: the echo is queued and write interest registered. */
    method Queue(data: Bytes)
      requires reactor.Valid() && reactor.loop != null && !closed && sock.open && sock.fd == fd
      requires data != [] && EchoExact(sock.conn, sendBuf + Upper(data))
      requires fd in reactor.loop.readers && reactor.loop.readers[fd] == ReadCallback(this)
      modifies this`sendBuf, reactor, reactor.loop, reactor.made
      ensures reactor.Valid() && Ok() && OnlyMine() && fresh(reactor.made - old(reactor.made))
      ensures sendBuf == old(sendBuf) + Upper(data)
    {
      sendBuf := sendBuf + Upper(data);
      reactor.RegisterWrite(fd, WriteCallback(this));
    }

    /** on_write: sends what fits, and drops the write interest once all is sent. */
    method OnWrite()
      requires reactor.Valid() && Ok()
      modifies this, sock, reactor, reactor.loop, reactor.made
      ensures reactor.Valid() && Ok() && OnlyMine() && fresh(reactor.made - old(reactor.made))
      ensures var sends := !old(closed) && old(sendBuf) != [];
        && sock.conn == (if sends then AfterSend(old(sock.conn), old(sendBuf)) else old(sock.conn))
        && closed == (old(closed) || (sends && SendResult(old(sock.conn), old(sendBuf)).SendFailed?))
        && sendBuf == (if sends && SendResult(old(sock.conn), old(sendBuf)).Taken?
                       then old(sendBuf)[SendResult(old(sock.conn), old(sendBuf)).n..] else old(sendBuf))
      ensures closed && !old(closed) ==> fd !in reactor.loop.readers && fd !in reactor.loop.writers
    {
      hide Reactor.Valid;
      if closed { return; }
      if sendBuf == [] {
        reactor.UnregisterWrite(fd);
        return;
      }
      ghost var before := sock.conn;
      var r := sock.Send(sendBuf);
      match r {
        case Full => return;
        case SendFailed => Close(); return;
        case Taken(n) =>
          SendKeepsEcho(before, sendBuf);
          Drop(n);
      }
    }

    /** The end of on_write: what was sent is dropped, and the write interest with the last of it. */
    method Drop(n: nat)
      requires reactor.Valid() && reactor.loop != null && !closed && sock.open && sock.fd == fd
      requires n <= |sendBuf| && EchoExact(sock.conn, sendBuf[n..])
      requires fd in reactor.loop.readers && reactor.loop.readers[fd] == ReadCallback(this)
      requires fd in reactor.loop.writers && reactor.loop.writers[fd] == WriteCallback(this)
      modifies this`sendBuf, reactor, reactor.loop, reactor.made
      ensures reactor.Valid() && Ok() && OnlyMine() && reactor.made == old(reactor.made)
      ensures sendBuf == old(sendBuf)[n..]
    {
      if n > 0 {
        sendBuf := sendBuf[n..];
      }
      if sendBuf == [] {
        reactor.UnregisterWrite(fd);
      }
    }

    /** _close: only once; nothing stays registered. */
    method Close()
      requires reactor.Valid() && reactor.loop != null && sock.fd == fd && sock.open == !closed
      requires EchoExact(sock.conn, sendBuf)
      requires closed ==> ClosedOk(sock.conn)
      requires !closed ==> (sock.conn.broken || (sock.conn.eof && sock.conn.recvQ == []))
      modifies this`closed, sock`open, reactor, reactor.loop, reactor.made
      ensures reactor.Valid() && Ok() && OnlyMine() && reactor.made <= old(reactor.made)
      ensures closed
      ensures !old(closed) ==> fd !in reactor.loop.readers && fd !in reactor.loop.writers
    {
      if closed { return; }
      assert Upper(sock.conn.arrived)[..|sock.conn.sent|] == sock.conn.sent;
      closed := true;
      reactor.UnregisterAll(fd);
      sock.open := false;
    }
  }

  /** The listening socket: connections that have not been accepted. */
  class Listener {
    const fd: Fd
    var backlog: seq<Conn>

    constructor (fd: Fd)
      ensures this.fd == fd && backlog == []
    {
      this.fd, backlog := fd, [];
    }

    /** A connection arrives, or data on one that has not been accepted. */
    method Happen(a: Outside)
      requires forall c :: c in backlog ==> c.sent == [] && c.recvQ == c.arrived
      modifies this`backlog
      ensures forall c :: c in backlog ==> c.sent == [] && c.recvQ == c.arrived
      ensures |backlog| == |old(backlog)| + if a.Connect? then 1 else 0
    {
      if a.Connect? {
        backlog := backlog + [Conn([], false, false, a.room, [], [])];
      } else if a.Early? && a.index < |backlog| && !backlog[a.index].eof {
        var c := backlog[a.index];
        backlog := backlog[a.index := c.(recvQ := c.recvQ + a.data, arrived := c.arrived + a.data, eof := a.eof)];
      }
    }

    method Accept() returns (conn: Conn)
      requires backlog != []
      modifies this
      ensures conn == old(backlog)[0] && backlog == old(backlog)[1..]
    {
      conn := backlog[0];
      backlog := backlog[1..];
    }
  }

  class Acceptor {
    const reactor: Reactor
    const sock: Listener
    const fd: Fd
    ghost var clients: set<EchoHandler>       // all handlers ever made
    ghost var owned: set<object>              // these handlers and their sockets

    /** Every handler made is in order, and whatever is registered belongs to the acceptor
        or to an open handler. */
    ghost predicate Valid()
      reads this, sock, reactor, reactor.loop, reactor.made, owned
    {
      reactor.Valid() && reactor.loop != null && Listening() && ClientsOk() && NothingElse()
    }

    ghost predicate Listening()
      requires reactor.loop != null
      reads this, sock, reactor, reactor.loop
    {
      && sock.fd == fd && fd !in reactor.loop.writers
      && fd in reactor.loop.readers && reactor.loop.readers[fd] == AcceptCallback(this)
      && forall c :: c in sock.backlog ==> c.sent == [] && c.recvQ == c.arrived
    }

    ghost predicate ClientsOk()
      reads this, reactor, reactor.loop, owned
    {
      && (forall h :: h in clients ==>
            h in owned && h.sock in owned && h.reactor == reactor && h.fd != fd && h.Ok())
      && (forall h, h' :: h in clients && h' in clients && h.sock == h'.sock ==> h == h')
    }

    ghost predicate NothingElse()
      requires reactor.loop != null
      reads this, reactor, reactor.loop, owned
    {
      && (forall g :: g in reactor.loop.readers && g != fd ==> Mine(g, reactor.loop.readers[g], true))
      && (forall g :: g in reactor.loop.writers ==> Mine(g, reactor.loop.writers[g], false))
    }

    ghost predicate Mine(g: Fd, callback: Callback, reader: bool)
      reads this, owned
    {
      && (if reader then callback.ReadCallback? else callback.WriteCallback?)
      && callback.handler in clients && callback.handler in owned && callback.handler.fd == g && !callback.handler.closed
    }

    /** What there is to do for each open client. */
    ghost function Loads(): map<EchoHandler, nat>
      reads this, owned
    {
      map h | h in clients && h in owned && h.sock in owned && !h.closed :: Load(h.sock.conn, h.sendBuf)
    }

    ghost function Work(): nat
      reads this, sock, owned
    {
      Total(Loads()) + BacklogLoad(sock.backlog)
    }

    twostate lemma WorkOn(h: EchoHandler)
      requires h in clients && clients == old(clients) && sock.backlog == old(sock.backlog) && !old(h.closed)
      requires owned == old(owned) && h in owned && h.sock in owned
      requires forall c :: c in clients && c != h ==> unchanged(c) && unchanged(c.sock)
      ensures Work() == old(Work()) - old(Load(h.sock.conn, h.sendBuf)) + if h.closed then 0 else Load(h.sock.conn, h.sendBuf)
    {
      hide Total, Load, BacklogLoad;
      var m, m' := old(Loads()), Loads();
      TotalRemove(m, h);
      forall c | c in clients && c != h
        ensures c in m' <==> c in m
        ensures c in m ==> m'[c] == m[c]
      {
        assert unchanged(c) && unchanged(c.sock);
      }
      assert m' - {h} == m - {h};
      if h.closed {
        assert m' == m' - {h};
      } else {
        TotalRemove(m', h);
      }
    }

    twostate lemma WorkOfNew(new h: EchoHandler)
      requires sock.backlog == old(sock.backlog)
      requires h !in old(clients) && clients == old(clients) + {h} && owned == old(owned) + {h, h.sock} && !h.closed
      requires forall c :: c in old(clients) ==> c in owned && c.sock in old(owned)
      requires forall c :: c in old(clients) ==> unchanged(c) && unchanged(c.sock)
      ensures Work() == old(Work()) + Load(h.sock.conn, h.sendBuf)
    {
      TotalRemove(Loads(), h);
      assert Loads() - {h} == old(Loads());
    }

    constructor (reactor: Reactor, sock: Listener)
      requires reactor.Valid() && reactor.loop != null
      requires reactor.loop.readers == map[] && reactor.loop.writers == map[] && sock.backlog == []
      modifies reactor, reactor.loop, reactor.made
      ensures this.reactor == reactor && this.sock == sock && clients == {} && owned == {} && Valid()
      ensures fresh(reactor.made - old(reactor.made)) && reactor.loop == old(reactor.loop)
    {
      this.reactor, this.sock, fd, clients, owned := reactor, sock, sock.fd, {}, {};
      new;
      reactor.RegisterRead(fd, AcceptCallback(this));
    }

    /** The lowest descriptor not in use. */
    method NewFd() returns (g: Fd)
      requires reactor.loop != null
      ensures g !in reactor.loop.readers
    {
      var used := reactor.loop.readers.Keys;
      g := 0;
      while g in used
        invariant forall i :: i in reactor.loop.readers && i >= g ==> i in used
        decreases |used|
      {
        used := used - {g};
        g := g + 1;
      }
    }

    lemma WritersAreReaders()
      requires Valid()
      ensures reactor.loop.writers.Keys <= reactor.loop.readers.Keys
    {
      forall g | g in reactor.loop.writers
        ensures g in reactor.loop.readers
      {
        assert Mine(g, reactor.loop.writers[g], false);
      }
    }

    lemma ClientsAreOwned()
      requires Valid()
      ensures forall h :: h in clients ==> h in owned && h.sock in owned
    {
    }

    /** A handler for a new connection. */
    method Attend(conn: Conn) returns (h: EchoHandler)
      requires Valid() && conn.sent == [] && conn.recvQ == conn.arrived
      modifies this`clients, this`owned, reactor, reactor.loop, reactor.made
      ensures Valid() && fresh(reactor.made - old(reactor.made)) && reactor.loop == old(reactor.loop)
      ensures fresh(h) && clients == old(clients) + {h} && !h.closed && h.sock.conn == conn && h.sendBuf == []
      ensures fresh(h.sock) && owned == old(owned) + {h, h.sock}
      ensures Work() == old(Work()) + Load(conn, [])
    {
      hide Reactor.Valid, EchoHandler.Ok, Listening, ClientsOk, NothingElse;
      var g := NewFd();
      NothingToEcho(conn);
      WritersAreReaders();
      ClientsAreOwned();
      var s := new Socket(g, conn);
      h := new EchoHandler(reactor, s);
      clients, owned := clients + {h}, owned + {h, s};
      Joined(h);
      WorkOfNew(h);
    }

    /** A new handler does not disturb the others. */
    twostate lemma Joined(new h: EchoHandler)
      requires old(Valid()) && fresh(h) && fresh(h.sock) && clients == old(clients) + {h} && owned == old(owned) + {h, h.sock}
      requires reactor.Valid() && reactor.loop == old(reactor.loop)
      requires h.reactor == reactor && h.fd !in old(reactor.loop.readers) && h.Ok() && h.sendBuf == [] && !h.closed
      requires reactor.loop.readers == old(reactor.loop.readers)[h.fd := ReadCallback(h)]
      requires reactor.loop.writers == old(reactor.loop.writers)
      requires forall c :: c in old(clients) ==> unchanged(c) && unchanged(c.sock)
      requires sock.backlog == old(sock.backlog)
      ensures Valid()
    {
      hide Reactor.Valid, EchoExact;
      forall c | c in old(clients)
        ensures c.Ok()
      {
        c.StillOk();
      }
    }

    /** accept() */
    method Accept() returns (conn: Conn)
      requires Valid() && sock.backlog != []
      modifies sock
      ensures Valid() && conn == old(sock.backlog)[0] && sock.backlog == old(sock.backlog)[1..]
      ensures conn.sent == [] && conn.recvQ == conn.arrived
      ensures Work() == old(Work()) - Load(conn, []) - 1
    {
      hide Reactor.Valid, EchoHandler.Ok;
      assert sock.backlog[0] in sock.backlog;
      conn := sock.Accept();
      assert Loads() == old(Loads());
    }

    method AcceptOne() returns (h: EchoHandler)
      requires Valid() && sock.backlog != []
      modifies this`clients, this`owned, sock, reactor, reactor.loop, reactor.made
      ensures Valid() && fresh(reactor.made - old(reactor.made)) && reactor.loop == old(reactor.loop)
      ensures sock.backlog == old(sock.backlog)[1..]
      ensures fresh(h) && clients == old(clients) + {h} && h.sock.conn == old(sock.backlog)[0] && !h.closed && h.sendBuf == []
      ensures Work() == old(Work()) - 1
      ensures |clients| == |old(clients)| + 1 && fresh(owned - old(owned)) && old(owned) <= owned
    {
      hide *;
      var conn := Accept();
      h := Attend(conn);
    }

    /** on_accept: until there is nothing more to accept. */
    method OnAccept()
      requires Valid()
      modifies this`clients, this`owned, sock, reactor, reactor.loop, reactor.made
      ensures Valid() && fresh(reactor.made - old(reactor.made)) && reactor.loop == old(reactor.loop)
      ensures sock.backlog == [] && old(clients) <= clients && |clients| == |old(clients)| + |old(sock.backlog)|
      ensures Work() == old(Work()) - |old(sock.backlog)|
      ensures fresh(owned - old(owned)) && old(owned) <= owned
    {
      hide *;
      while sock.backlog != []
        invariant Valid() && fresh(reactor.made - old(reactor.made)) && reactor.loop == old(reactor.loop)
        invariant fresh(owned - old(owned)) && old(owned) <= owned
        invariant old(clients) <= clients && |clients| + |sock.backlog| == |old(clients)| + |old(sock.backlog)|
        invariant Work() == old(Work()) - |old(sock.backlog)| + |sock.backlog|
        decreases |sock.backlog|
      {
        var h := AcceptOne();
      }
    }

    lemma SocketsDiffer(h: EchoHandler)
      requires Valid() && h in clients
      ensures h in owned && h.sock in owned && EchoExact(h.sock.conn, h.sendBuf)
      ensures forall c :: c in clients && c != h ==> c.sock != h.sock
    {
      assert h.Ok();
    }

    method HappenTo(h: EchoHandler, a: Outside)
      requires Valid() && h in clients && !h.closed
      modifies h.sock`conn
      ensures Valid() && h.sock.conn == ConnAfter(old(h.sock.conn), a)
    {
      hide Reactor.Valid;
      assert h.Ok();
      OutsideKeepsEcho(h.sock.conn, a, h.sendBuf);
      h.sock.Happen(a);
      Undisturbed(h);
    }

    method ReadFrom(h: EchoHandler)
      requires Valid() && h in clients && !h.closed
      modifies h, h.sock, reactor, reactor.loop, reactor.made
      ensures Valid() && fresh(reactor.made - old(reactor.made)) && reactor.loop == old(reactor.loop)
      ensures h.sock.conn == AfterRecv(old(h.sock.conn))
      ensures h.closed == (RecvResult(old(h.sock.conn)).Eof? || RecvResult(old(h.sock.conn)).Reset?)
      ensures h.sendBuf == old(h.sendBuf) +
        if RecvResult(old(h.sock.conn)).Data? then Upper(RecvResult(old(h.sock.conn)).bytes) else []
    {
      hide Reactor.Valid;
      h.OnRead();
      Undisturbed(h);
    }

    method WriteTo(h: EchoHandler)
      requires Valid() && h in clients && !h.closed
      modifies h, h.sock, reactor, reactor.loop, reactor.made
      ensures Valid() && fresh(reactor.made - old(reactor.made)) && reactor.loop == old(reactor.loop)
      ensures var sends, r := old(h.sendBuf) != [], SendResult(old(h.sock.conn), old(h.sendBuf));
        && h.sock.conn == (if sends then AfterSend(old(h.sock.conn), old(h.sendBuf)) else old(h.sock.conn))
        && h.closed == (sends && r.SendFailed?)
        && h.sendBuf == (if sends && r.Taken? then old(h.sendBuf)[r.n..] else old(h.sendBuf))
    {
      hide Reactor.Valid;
      h.OnWrite();
      Undisturbed(h);
    }

    /** What one handler does to itself and its registrations does not disturb the others. */
    twostate lemma Undisturbed(h: EchoHandler)
      requires old(Valid()) && h in clients && clients == old(clients) && owned == old(owned) && !old(h.closed)
      requires reactor.Valid() && h.Ok() && h.OnlyMine()
      requires h.closed ==> h.fd !in reactor.loop.readers && h.fd !in reactor.loop.writers
      requires unchanged(sock) && forall c :: c in clients && c != h ==> unchanged(c) && unchanged(c.sock)
      ensures Valid()
    {
      forall c | c in clients && c != h
        ensures c.Ok()
      {
        c.StillOk();
      }
    }
  }

  /** What happens next: something outside, or the loop finds a descriptor ready. */
  datatype Happening = World(a: Outside) | ReadReady(fd: Fd) | WriteReady(fd: Fd)

  /** Everything in a set is listed. */
  ghost predicate Covers(order: set<Fd> -> seq<Fd>) {
    forall fds, fd :: fd in fds ==> fd in order(fds)
  }

  datatype History = History(conn: Conn, closed: bool)

  /** What was sent and what arrived only grows, and a closed handler stays closed. */
  ghost predicate Grow(m: map<EchoHandler, History>, m': map<EchoHandler, History>) {
    forall h :: h in m ==>
      && h in m' && m[h].conn.sent <= m'[h].conn.sent && m[h].conn.arrived <= m'[h].conn.arrived
      && (m[h].closed ==> m'[h] == m[h])
  }

  lemma GrowOn(m: map<EchoHandler, History>, m1: map<EchoHandler, History>, m2: map<EchoHandler, History>)
    requires Grow(m, m1) && Grow(m1, m2)
    ensures Grow(m, m2)
  {
  }

  class NioReactorServer {
    const reactor: Reactor
    const acceptor: Acceptor

    ghost predicate Valid()
      reads this, acceptor, acceptor.sock, reactor, reactor.loop, reactor.made, acceptor.owned
    {
      acceptor.reactor == reactor && acceptor.Valid()
    }

    ghost function Histories(): map<EchoHandler, History>
      reads acceptor, acceptor.owned
    {
      map h | h in acceptor.clients && h in acceptor.owned && h.sock in acceptor.owned :: History(h.sock.conn, h.closed)
    }

    /** The loop finds a descriptor ready for a callback that has something to do. */
    predicate Ready(h: Happening)
      reads *
    {
      reactor.loop != null &&
      match h
      case World(_) => false
      case ReadReady(fd) =>
        fd in reactor.loop.readers &&
        (match reactor.loop.readers[fd]
         case AcceptCallback(a) => a.sock.backlog != []
         case ReadCallback(handler) => Readable(handler.sock.conn)
         case WriteCallback(_) => false)
      case WriteReady(fd) =>
        fd in reactor.loop.writers &&
        (match reactor.loop.writers[fd]
         case WriteCallback(handler) => handler.sock.conn.room > 0
         case _ => false)
    }

    twostate lemma OnlyOneGrew(h: EchoHandler)
      requires h in acceptor.clients && acceptor.clients == old(acceptor.clients) && !old(h.closed)
      requires acceptor.owned == old(acceptor.owned)
      requires forall c :: c in acceptor.clients && c != h ==> unchanged(c) && unchanged(c.sock)
      requires old(h.sock.conn.sent) <= h.sock.conn.sent && old(h.sock.conn.arrived) <= h.sock.conn.arrived
      ensures Grow(old(Histories()), Histories())
    {
    }

    twostate lemma NothingGrew()
      requires old(acceptor.clients) <= acceptor.clients && old(acceptor.owned) <= acceptor.owned
      requires forall c :: c in old(acceptor.clients) ==> unchanged(c) && unchanged(c.sock)
      ensures Grow(old(Histories()), Histories())
    {
    }

    lemma ServesFor()
      requires Valid()
      ensures acceptor.reactor == reactor && acceptor.Valid() && reactor.loop != null
    {
    }

    lemma StillServes()
      requires acceptor.reactor == reactor && acceptor.Valid()
      ensures Valid()
    {
    }

    /** start and the beginning of serve_forever. */
    constructor (listen: Fd)
      ensures Valid() && fresh(acceptor) && fresh(acceptor.sock) && fresh(reactor) && fresh(reactor.loop) && fresh(reactor.made)
      ensures acceptor.clients == {} && acceptor.owned == {} && acceptor.sock.backlog == []
    {
      hide Reactor.Valid, Acceptor.Valid;
      var r := new Reactor();
      var loop := new EventLoop();
      r.AttachLoop(loop);
      var listener := new Listener(listen);
      var a := new Acceptor(r, listener);
      reactor, acceptor := r, a;
    }

    method Outside(a: Outside)
      requires Valid()
      modifies acceptor.sock, acceptor.owned
      ensures Valid() && Grow(old(Histories()), Histories())
      ensures reactor.made == old(reactor.made) && reactor.loop == old(reactor.loop) && acceptor.owned == old(acceptor.owned)
    {
      hide Reactor.Valid;
      if a.Connect? || a.Early? {
        HappenToListener(a);
      } else if a.fd in reactor.loop.readers && reactor.loop.readers[a.fd].ReadCallback? {
        HappenTo(reactor.loop.readers[a.fd].handler, a);
      }
    }

    method HappenToListener(a: Outside)
      requires Valid()
      modifies acceptor.sock
      ensures Valid() && Grow(old(Histories()), Histories())
    {
      hide Reactor.Valid;
      acceptor.sock.Happen(a);
      NothingGrew();
    }

    method HappenTo(h: EchoHandler, a: Outside)
      requires Valid() && h in acceptor.clients && !h.closed
      modifies h.sock`conn
      ensures Valid() && Grow(old(Histories()), Histories()) && h.sock.conn == ConnAfter(old(h.sock.conn), a)
    {
      acceptor.SocketsDiffer(h);
      hide *;
      acceptor.HappenTo(h, a);
      OutsideGrows(old(h.sock.conn), a);
      OnlyOneGrew(h);
      StillServes();
    }

    /** The loop calls the reader of a descriptor: all pending connections are attended to,
        or a client is read from. */
    method CallReader(fd: Fd)
      requires Valid()
      modifies acceptor, acceptor.sock, reactor, reactor.loop, reactor.made, acceptor.owned
      ensures Valid() && Grow(old(Histories()), Histories())
      ensures fresh(reactor.made - old(reactor.made)) && reactor.loop == old(reactor.loop)
      ensures fresh(acceptor.owned - old(acceptor.owned))
      ensures fd == acceptor.fd ==>
        acceptor.sock.backlog == [] && |acceptor.clients| == |old(acceptor.clients)| + |old(acceptor.sock.backlog)|
      ensures fd in old(reactor.loop.readers) && old(reactor.loop.readers[fd]).ReadCallback? ==>
        var h := old(reactor.loop.readers[fd]).handler;
        h.sock.conn == AfterRecv(old(h.sock.conn))
      ensures old(Ready(ReadReady(fd))) ==> acceptor.Work() < old(acceptor.Work())
    {
      hide Reactor.Valid, Acceptor.Work, EchoHandler.Ok;
      NothingGrew();
      if fd in reactor.loop.readers {
        match reactor.loop.readers[fd] {
          case AcceptCallback(a) =>
            AcceptAll();
          case ReadCallback(h) =>
            ReadFrom(h);
          case WriteCallback(h) =>
            assert false;
        }
      }
    }

    method AcceptAll()
      requires Valid()
      modifies acceptor, acceptor.sock, reactor, reactor.loop, reactor.made
      ensures Valid() && Grow(old(Histories()), Histories())
      ensures fresh(reactor.made - old(reactor.made)) && reactor.loop == old(reactor.loop)
      ensures fresh(acceptor.owned - old(acceptor.owned))
      ensures acceptor.sock.backlog == [] && |acceptor.clients| == |old(acceptor.clients)| + |old(acceptor.sock.backlog)|
      ensures acceptor.Work() == old(acceptor.Work()) - |old(acceptor.sock.backlog)|
    {
      ServesFor();
      hide *;
      acceptor.OnAccept();
      NothingGrew();
      StillServes();
    }

    method ReadFrom(h: EchoHandler)
      requires Valid() && h in acceptor.clients && !h.closed
      modifies h, h.sock, reactor, reactor.loop, reactor.made
      ensures Valid() && Grow(old(Histories()), Histories())
      ensures acceptor.clients == old(acceptor.clients) && acceptor.owned == old(acceptor.owned)
      ensures fresh(reactor.made - old(reactor.made)) && reactor.loop == old(reactor.loop)
      ensures h.sock.conn == AfterRecv(old(h.sock.conn))
      ensures old(Readable(h.sock.conn)) ==> acceptor.Work() < old(acceptor.Work())
    {
      hide Reactor.Valid;
      acceptor.SocketsDiffer(h);
      hide *;
      acceptor.ReadFrom(h);
      ReadIsProgress(old(h.sock.conn), old(h.sendBuf));
      acceptor.WorkOn(h);
      OnlyOneGrew(h);
      StillServes();
    }

    /** The loop calls the writer of a descriptor: a client is sent what fits. */
    method CallWriter(fd: Fd)
      requires Valid()
      modifies acceptor, acceptor.sock, reactor, reactor.loop, reactor.made, acceptor.owned
      ensures Valid() && Grow(old(Histories()), Histories()) && acceptor.clients == old(acceptor.clients) && acceptor.owned == old(acceptor.owned)
      ensures fresh(reactor.made - old(reactor.made)) && reactor.loop == old(reactor.loop)
      ensures fd in old(reactor.loop.writers) ==>
        var h := old(reactor.loop.writers[fd]).handler;
        h.sock.conn == AfterSend(old(h.sock.conn), old(h.sendBuf))
      ensures old(Ready(WriteReady(fd))) ==> acceptor.Work() < old(acceptor.Work())
    {
      hide Reactor.Valid, Acceptor.Work;
      if fd in reactor.loop.writers {
        WriteTo(reactor.loop.writers[fd].handler);
      }
    }

    method WriteTo(h: EchoHandler)
      requires Valid() && h in acceptor.clients && !h.closed
      modifies h, h.sock, reactor, reactor.loop, reactor.made
      ensures Valid() && Grow(old(Histories()), Histories())
      ensures acceptor.clients == old(acceptor.clients) && acceptor.owned == old(acceptor.owned)
      ensures fresh(reactor.made - old(reactor.made)) && reactor.loop == old(reactor.loop)
      ensures old(h.sendBuf) != [] ==> h.sock.conn == AfterSend(old(h.sock.conn), old(h.sendBuf))
      ensures old(h.sendBuf) != [] && old(h.sock.conn.room) > 0 ==> acceptor.Work() < old(acceptor.Work())
    {
      hide Reactor.Valid;
      acceptor.SocketsDiffer(h);
      hide *;
      acceptor.WriteTo(h);
      WriteIsProgress(old(h.sock.conn), old(h.sendBuf));
      acceptor.WorkOn(h);
      OnlyOneGrew(h);
      StillServes();
    }

    /** One turn of the loop, or one event outside. */
    method Turn(h: Happening)
      requires Valid()
      modifies acceptor, acceptor.sock, reactor, reactor.loop, reactor.made, acceptor.owned
      ensures Valid() && Grow(old(Histories()), Histories())
      ensures fresh(reactor.made - old(reactor.made)) && reactor.loop == old(reactor.loop)
      ensures fresh(acceptor.owned - old(acceptor.owned))
      ensures old(Ready(h)) ==> acceptor.Work() < old(acceptor.Work())
    {
      hide Valid, Reactor.Valid, Acceptor.Work, Histories, Grow;
      match h {
        case World(a) => Outside(a);
        case ReadReady(fd) => CallReader(fd);
        case WriteReady(fd) => CallWriter(fd);
      }
    }

    /** serve_forever, for as long as `script` says. */
    method ServeForever(script: seq<Happening>)
      requires Valid()
      modifies acceptor, acceptor.sock, reactor, reactor.loop, reactor.made, acceptor.owned
      ensures Valid() && Grow(old(Histories()), Histories())
    {
      NothingGrew();
      hide Valid, Histories, Grow;
      var i := 0;
      while i < |script|
        invariant Valid() && Grow(old(Histories()), Histories())
        invariant fresh(reactor.made - old(reactor.made)) && reactor.loop == old(reactor.loop)
        invariant fresh(acceptor.owned - old(acceptor.owned))
      {
        ghost var m := Histories();
        Turn(script[i]);
        GrowOn(old(Histories()), m, Histories());
        i := i + 1;
      }
    }

    /** No registered callback has anything to do. */
    ghost predicate Quiet()
      requires Valid()
      reads this, acceptor, acceptor.sock, reactor, reactor.loop, reactor.made, acceptor.owned
    {
      && acceptor.sock.backlog == []
      && (forall h :: h in acceptor.clients && h.fd in reactor.loop.readers && reactor.loop.readers[h.fd] == ReadCallback(h) ==>
            !Readable(h.sock.conn))
      && (forall h :: h in acceptor.clients && h.fd in reactor.loop.writers && reactor.loop.writers[h.fd] == WriteCallback(h) ==>
            h.sock.conn.room == 0)
    }

    lemma NothingReady()
      requires Valid()
      requires forall fd :: fd in reactor.loop.readers ==> !Ready(ReadReady(fd)) && !Ready(WriteReady(fd))
      ensures Quiet()
    {
      acceptor.WritersAreReaders();
      assert !Ready(ReadReady(acceptor.fd));
      forall h | h in acceptor.clients && h.fd in reactor.loop.readers && reactor.loop.readers[h.fd] == ReadCallback(h)
        ensures !Readable(h.sock.conn)
      {
        assert !Ready(ReadReady(h.fd));
      }
      forall h | h in acceptor.clients && h.fd in reactor.loop.writers && reactor.loop.writers[h.fd] == WriteCallback(h)
        ensures h.sock.conn.room == 0
      {
        assert !Ready(WriteReady(h.fd));
      }
    }

    /** serve_forever once the outside world has fallen silent: the loop calls callbacks of
        descriptors that it finds ready, as `choices` says, and then in the order that `order`
        gives.  After no more calls than there was work to do, no callback has anything to do,
        and EchoIsExact describes what has become of every client. */
    method Settle(choices: seq<Happening>, order: set<Fd> -> seq<Fd>) returns (calls: nat)
      requires Valid() && Covers(order)
      modifies acceptor, acceptor.sock, reactor, reactor.loop, reactor.made, acceptor.owned
      ensures Valid() && Grow(old(Histories()), Histories()) && Quiet()
      ensures fresh(reactor.made - old(reactor.made)) && reactor.loop == old(reactor.loop)
      ensures fresh(acceptor.owned - old(acceptor.owned))
      ensures calls <= old(acceptor.Work()) - acceptor.Work()
      decreases |choices|, acceptor.Work()
    {
      ghost var m := Histories();
      hide *;
      if choices != [] {
        calls := CallIfReady(choices[0]);
      } else {
        calls := CallAny(order);
        if calls == 0 { return; }
      }
      ghost var m1 := Histories();
      var more := Settle(if choices == [] then [] else choices[1..], order);
      GrowOn(m, m1, Histories());
      calls := calls + more;
    }

    method CallIfReady(h: Happening) returns (called: nat)
      requires Valid()
      modifies acceptor, acceptor.sock, reactor, reactor.loop, reactor.made, acceptor.owned
      ensures Valid() && Grow(old(Histories()), Histories())
      ensures fresh(reactor.made - old(reactor.made)) && reactor.loop == old(reactor.loop)
      ensures fresh(acceptor.owned - old(acceptor.owned))
      ensures called <= 1 && acceptor.Work() <= old(acceptor.Work()) - called
    {
      called := 0;
      NothingGrew();
      hide Valid, Acceptor.Work, Ready, Histories, Grow;
      if Ready(h) {
        Turn(h);
        called := 1;
      }
    }

    method CallAny(order: set<Fd> -> seq<Fd>) returns (called: nat)
      requires Valid()
      requires Covers(order)
      modifies acceptor, acceptor.sock, reactor, reactor.loop, reactor.made, acceptor.owned
      ensures Valid() && Grow(old(Histories()), Histories())
      ensures fresh(reactor.made - old(reactor.made)) && reactor.loop == old(reactor.loop)
      ensures fresh(acceptor.owned - old(acceptor.owned))
      ensures called <= 1 && acceptor.Work() <= old(acceptor.Work()) - called
      ensures called == 0 ==> Quiet()
    {
      called := 0;
      NothingGrew();
      var fds := order(reactor.loop.readers.Keys);
      hide Valid, Acceptor.Work, Ready, Histories, Grow, Quiet;
      var i := 0;
      while i < |fds|
        invariant i <= |fds| && forall j :: 0 <= j < i ==> !Ready(ReadReady(fds[j])) && !Ready(WriteReady(fds[j]))
      {
        if Ready(ReadReady(fds[i])) {
          Turn(ReadReady(fds[i]));
          return 1;
        } else if Ready(WriteReady(fds[i])) {
          Turn(WriteReady(fds[i]));
          return 1;
        }
        i := i + 1;
      }
      NothingReady();
    }

    /** For every client, open or closed: what was sent is a prefix of the upper-case of
        what arrived.  For open ones the rest is in the buffer and in what was not read;
        and once no callback has anything to do, the echo is complete, except for what a
        full send queue does not take, and for that write interest is registered.  A client
        that has been closed at end of file has lost what was in its buffer, so its echo is
        complete if and only if that was nothing. */
    lemma EchoIsExact(h: EchoHandler)
      requires Valid() && h in acceptor.clients
      ensures h.sock.conn.sent <= Upper(h.sock.conn.arrived)
      ensures EchoExact(h.sock.conn, h.sendBuf)
      ensures h.closed ==> h.sock.conn.broken || (h.sock.conn.eof && h.sock.conn.recvQ == [])
      ensures Complete(h.sock.conn) <==> h.sendBuf == [] && h.sock.conn.recvQ == []
      ensures Quiet() && !h.closed ==>
        && h.sock.conn.sent + h.sendBuf == Upper(h.sock.conn.arrived)
        && (h.sock.conn.room > 0 ==> h.sock.conn.sent == Upper(h.sock.conn.arrived))
        && (h.fd in reactor.loop.writers <==> h.sock.conn.sent != Upper(h.sock.conn.arrived))
    {
      assert h.Ok();
      var c := h.sock.conn;
      CompleteMeansNothingLeft(c, h.sendBuf);
      assert Upper(c.arrived)[..|c.sent|] == c.sent;
      if !h.closed {
        if Quiet() {
          assert c.recvQ == [] && c.sent + h.sendBuf + Upper(c.recvQ) == c.sent + h.sendBuf;
          assert c.sent + [] == c.sent;
        }
      }
    }

    /** A client that has sent abc, and takes an answer, gets ABC. */
    lemma AbcIsEchoed(h: EchoHandler)
      requires Valid() && h in acceptor.clients && Quiet() && !h.closed
      requires h.sock.conn.arrived == [97, 98, 99] && h.sock.conn.room > 0
      ensures h.sock.conn.sent == [65, 66, 67]
    {
      EchoIsExact(h);
      UpperOfAbc();
    }
  }

  /** Reading from a client that has something to read leaves less to do for it. */
  lemma ReadIsProgress(c: Conn, buf: Bytes)
    requires EchoExact(c, buf)
    ensures AfterRecv(c).sent == c.sent && AfterRecv(c).arrived == c.arrived
    ensures RecvResult(c).Data? ==> Load(AfterRecv(c), buf + Upper(RecvResult(c).bytes)) < Load(c, buf)
    ensures Readable(c) <==> !RecvResult(c).WouldBlock?
    ensures buf + [] == buf && (!RecvResult(c).Data? ==> AfterRecv(c) == c)
  {
    if RecvResult(c).Data? { RecvKeepsEcho(c, buf); }
  }

  lemma OutsideGrows(c: Conn, a: Outside)
    ensures ConnAfter(c, a).sent == c.sent && c.arrived <= ConnAfter(c, a).arrived
  {
  }

  lemma WriteIsProgress(c: Conn, buf: Bytes)
    requires EchoExact(c, buf)
    ensures c.sent <= AfterSend(c, buf).sent && AfterSend(c, buf).arrived == c.arrived
    ensures var r := SendResult(c, buf);
            && (r.Taken? && buf != [] ==> Load(AfterSend(c, buf), buf[r.n..]) < Load(c, buf))
            && (r.Full? ==> c.room == 0) && (!r.Taken? ==> AfterSend(c, buf) == c)
  {
  }
}
