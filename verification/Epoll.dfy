/** python/io_multiplexing/epoll_server.py: the echo server in both trigger modes, without
  EPOLLONESHOT, against a kernel that acts on its own between any two system calls. */
module Epoll {
  import opened EchoRounds
  import opened Sockets
  import opened Totals

  // ------------------------------------------------------------------ the kernel

  /** The event mask of a registration; the server always asks for EPOLLIN. */
  datatype Mask = Mask(out: bool)

  /** `ready` is the list of descriptors that have had an edge since they were last
      reported; `closed` the connections that the server has closed. */
  datatype Kernel = Kernel(listen: Fd, conns: map<Fd, Conn>, interest: map<Fd, Mask>, ready: set<Fd>,
                           backlog: seq<Conn>, closed: seq<Conn>)

  /** The edges that put a descriptor on the ready list.  Space in the send queue is an
      edge only if there was none and EPOLLOUT is asked for. */
  predicate IsEdge(c: Conn, mask: Mask, a: Outside) {
    match a
    case Arrive(_, data) => !c.eof && data != []
    case Acknowledge(_, space) => mask.out && c.room == 0 && space > 0
    case _ => true
  }

  function Happen(k: Kernel, a: Outside): Kernel {
    if a.Connect? then
      k.(backlog := k.backlog + [Conn([], false, false, a.room, [], [])], ready := k.ready + {k.listen})
    else if a.Early? then
      if a.index >= |k.backlog| || k.backlog[a.index].eof then k
      else
        var c := k.backlog[a.index];
        k.(backlog := k.backlog[a.index := c.(recvQ := c.recvQ + a.data, arrived := c.arrived + a.data, eof := a.eof)])
    else if a.fd !in k.conns then k
    else
      var c := k.conns[a.fd];
      k.(conns := k.conns[a.fd := ConnAfter(c, a)],
         ready := if a.fd in k.interest && IsEdge(c, k.interest[a.fd], a) then k.ready + {a.fd} else k.ready)
  }

  function HappenAll(k: Kernel, acts: seq<Outside>): Kernel
    decreases |acts|
  {
    if acts == [] then k else HappenAll(Happen(k, acts[0]), acts[1..])
  }

  /** The readiness of `fd` as poll() sees it, masked by its registration. */
  function Status(k: Kernel, fd: Fd): Event {
    if fd == k.listen then Event(k.backlog != [], false, false)
    else if fd in k.conns && fd in k.interest then
      Event(Readable(k.conns[fd]), k.interest[fd].out && k.conns[fd].room > 0, k.conns[fd].broken)
    else NOTHING
  }

  /** epoll_ctl ADD or MOD: a descriptor that is ready now is put on the ready list. */
  function Arm(k: Kernel, fd: Fd, mask: Mask): Kernel {
    var k' := k.(interest := k.interest[fd := mask]);
    if Status(k', fd) != NOTHING then k'.(ready := k'.ready + {fd}) else k'
  }

  // -------------------------------------------------------------- the invariants

  /** Nothing about the client is forgotten: whatever there is to do, `fd` is on the ready
      list, or in the event `ev` that the loop has still to handle. */
  predicate Flagged(k: Kernel, fd: Fd, c: Conn, buf: Bytes, ev: Event) {
    && (Readable(c) ==> fd in k.ready || ev.readable || ev.failed)
    && (c.broken ==> fd in k.ready || ev.failed)
    && (buf != [] && c.room > 0 ==> fd in k.ready || ev.writable || ev.failed)
  }

  /** An event, once reported, stays true until it is handled. */
  predicate StillTrue(c: Conn, buf: Bytes, ev: Event) {
    && (ev.readable ==> Readable(c))
    && (ev.writable ==> buf != [] && c.room > 0)
    && (ev.failed ==> c.broken)
  }

  predicate ClientOk(mode: Mode, k: Kernel, fd: Fd, buf: Bytes, ev: Event) {
    && fd in k.conns && fd in k.interest && fd != k.listen
    && EchoExact(k.conns[fd], buf)
    && (k.interest[fd].out <==> buf != [])
    && StillTrue(k.conns[fd], buf, ev)
    && (mode == Edge ==> Flagged(k, fd, k.conns[fd], buf, ev))
  }

  function EventOf(pending: map<Fd, Event>, fd: Fd): Event {
    if fd in pending then pending[fd] else NOTHING
  }

  /** The tables agree with each other and with the kernel, and every client but `busy`
      is registered and in order.  `pending` are the reported events not yet handled. */
  predicate OthersOk(mode: Mode, k: Kernel, bufs: map<Fd, Bytes>, pending: map<Fd, Event>, busy: Fd) {
    && bufs.Keys == k.conns.Keys && k.listen !in k.conns && k.listen in k.interest
    && k.interest.Keys <= k.conns.Keys + {k.listen} && k.conns.Keys - {busy} <= k.interest.Keys
    && pending.Keys <= k.interest.Keys
    && (forall fd :: fd in bufs && fd != busy ==> ClientOk(mode, k, fd, bufs[fd], EventOf(pending, fd)))
    && (forall c :: c in k.closed ==> ClosedOk(c))
    && (forall c :: c in k.backlog ==> c.sent == [] && c.recvQ == c.arrived)
    && (mode == Edge && k.backlog != [] ==> k.listen in k.ready || EventOf(pending, k.listen).readable)
  }

  /** Between system calls made for no client in particular. */
  predicate ServerOk(mode: Mode, k: Kernel, bufs: map<Fd, Bytes>, pending: map<Fd, Event>) {
    OthersOk(mode, k, bufs, pending, k.listen)
  }

  lemma HappenKeepsClient(mode: Mode, k: Kernel, a: Outside, fd: Fd, buf: Bytes, ev: Event)
    requires ClientOk(mode, k, fd, buf, ev)
    ensures ClientOk(mode, Happen(k, a), fd, buf, ev)
  {
    OutsideKeepsEcho(k.conns[fd], a, buf);
  }

  /** accept(): the connection has a descriptor, and is not registered yet. */
  function Accepted(k: Kernel, fd: Fd): Kernel
    requires k.backlog != []
  {
    k.(backlog := k.backlog[1..], conns := k.conns[fd := k.backlog[0]])
  }

  lemma AcceptKeepsOthers(mode: Mode, k: Kernel, bufs: map<Fd, Bytes>, pending: map<Fd, Event>, fd: Fd)
    requires OthersOk(mode, k, bufs, pending, k.listen)
    requires k.backlog != [] && fd !in k.conns && fd != k.listen
    ensures OthersOk(mode, Accepted(k, fd), bufs[fd := []], pending, fd)
    ensures EchoExact(k.backlog[0], []) && fd !in pending
  {
    assert k.backlog[0] in k.backlog;
    NothingToEcho(k.backlog[0]);
    assert fd !in k.interest;
    var k' := Accepted(k, fd);
    forall g | g in bufs && g != k.listen
      ensures ClientOk(mode, k', g, bufs[g], EventOf(pending, g))
    {
      assert ClientOk(mode, k, g, bufs[g], EventOf(pending, g));
    }
  }

  /** Reporting a descriptor and taking it off the ready list loses nothing. */
  lemma ReportKeepsOthers(mode: Mode, k: Kernel, bufs: map<Fd, Bytes>, pending: map<Fd, Event>, fd: Fd)
    requires OthersOk(mode, k, bufs, pending, k.listen) && Status(k, fd) != NOTHING
    ensures OthersOk(mode, k.(ready := k.ready - {fd}), bufs, pending[fd := Status(k, fd)], k.listen)
  {
    var k', pending' := k.(ready := k.ready - {fd}), pending[fd := Status(k, fd)];
    forall g | g in bufs && g != k.listen
      ensures ClientOk(mode, k', g, bufs[g], EventOf(pending', g))
    {
      assert ClientOk(mode, k, g, bufs[g], EventOf(pending, g));
    }
  }

  lemma HappenKeepsOthers(mode: Mode, k: Kernel, a: Outside, bufs: map<Fd, Bytes>, pending: map<Fd, Event>, busy: Fd)
    requires OthersOk(mode, k, bufs, pending, busy)
    ensures OthersOk(mode, Happen(k, a), bufs, pending, busy)
  {
    forall fd | fd in bufs && fd != busy
      ensures ClientOk(mode, Happen(k, a), fd, bufs[fd], EventOf(pending, fd))
    {
      HappenKeepsClient(mode, k, a, fd, bufs[fd], EventOf(pending, fd));
    }
  }

  lemma {:induction false} HappenAllKeepsOthers(
    mode: Mode, k: Kernel, acts: seq<Outside>, bufs: map<Fd, Bytes>, pending: map<Fd, Event>, busy: Fd)
    requires OthersOk(mode, k, bufs, pending, busy)
    ensures OthersOk(mode, HappenAll(k, acts), bufs, pending, busy)
    ensures HappenAll(k, acts).listen == k.listen && HappenAll(k, acts).interest == k.interest
    ensures HappenAll(k, acts).conns.Keys == k.conns.Keys
    decreases |acts|
  {
    if acts != [] {
      HappenKeepsOthers(mode, k, acts[0], bufs, pending, busy);
      HappenAllKeepsOthers(mode, Happen(k, acts[0]), acts[1..], bufs, pending, busy);
    }
  }

  /** What the outside world can do to the connection that is being handled. */
  ghost predicate Later(k: Kernel, k': Kernel, fd: Fd)
    requires fd in k.conns
  {
    && fd in k'.conns && k'.interest == k.interest && k'.listen == k.listen
    && var c, c' := k.conns[fd], k'.conns[fd];
    && k.ready <= k'.ready
    && c.recvQ <= c'.recvQ && c.arrived <= c'.arrived && c'.sent == c.sent && c.room <= c'.room
    && Consumed(c') == Consumed(c)
    && (c.eof ==> c'.eof) && (c.broken ==> c'.broken)
    && (fd in k.interest ==>
          && (c'.recvQ != c.recvQ || c'.eof != c.eof || c'.broken != c.broken ==> fd in k'.ready)
          && (c.room == 0 < c'.room && k.interest[fd].out ==> fd in k'.ready))
    && (forall buf :: EchoExact(c, buf) ==> EchoExact(c', buf))
  }

  lemma HappenIsLater(k: Kernel, a: Outside, fd: Fd)
    requires fd in k.conns
    ensures Later(k, Happen(k, a), fd)
  {
    hide EchoExact;
    forall buf | EchoExact(k.conns[fd], buf)
      ensures EchoExact(Happen(k, a).conns[fd], buf)
    {
      OutsideKeepsEcho(k.conns[fd], a, buf);
    }
  }

  lemma {:induction false} HappenAllIsLater(k: Kernel, acts: seq<Outside>, fd: Fd)
    requires fd in k.conns
    ensures Later(k, HappenAll(k, acts), fd)
    decreases |acts|
  {
    if acts != [] {
      HappenIsLater(k, acts[0], fd);
      HappenAllIsLater(Happen(k, acts[0]), acts[1..], fd);
    }
  }

  /** The buffer of the client being handled is nobody else's business. */
  lemma OwnBuffer(mode: Mode, k: Kernel, bufs: map<Fd, Bytes>, pending: map<Fd, Event>, busy: Fd, buf: Bytes)
    requires OthersOk(mode, k, bufs, pending, busy) && busy in bufs
    ensures OthersOk(mode, k, bufs[busy := buf], pending, busy)
  {
  }

  /** So is its connection. */
  lemma OwnConnection(mode: Mode, k: Kernel, bufs: map<Fd, Bytes>, pending: map<Fd, Event>, busy: Fd, c: Conn)
    requires OthersOk(mode, k, bufs, pending, busy) && busy in k.conns
    ensures OthersOk(mode, k.(conns := k.conns[busy := c]), bufs, pending, busy)
  {
    var k' := k.(conns := k.conns[busy := c]);
    forall g | g in bufs && g != busy
      ensures ClientOk(mode, k', g, bufs[g], EventOf(pending, g))
    {
      assert ClientOk(mode, k, g, bufs[g], EventOf(pending, g));
    }
  }

  function Closed(k: Kernel, fd: Fd): Kernel
    requires fd in k.conns
  {
    k.(interest := k.interest - {fd}, conns := k.conns - {fd}, ready := k.ready - {fd}, closed := k.closed + [k.conns[fd]])
  }

  lemma CloseKeepsOthers(mode: Mode, k: Kernel, bufs: map<Fd, Bytes>, pending: map<Fd, Event>, fd: Fd)
    requires OthersOk(mode, k, bufs, pending, fd) && fd in k.conns && fd != k.listen && EchoExact(k.conns[fd], bufs[fd])
    requires k.conns[fd].broken || (k.conns[fd].eof && k.conns[fd].recvQ == [])
    ensures OthersOk(mode, Closed(k, fd), bufs - {fd}, pending - {fd}, k.listen)
  {
    var c := k.conns[fd];
    assert ClosedOk(c) by { assert Upper(c.arrived)[..|c.sent|] == c.sent; }
    forall g | g in bufs - {fd} && g != k.listen
      ensures ClientOk(mode, Closed(k, fd), g, (bufs - {fd})[g], EventOf(pending - {fd}, g))
    {
      assert ClientOk(mode, k, g, bufs[g], EventOf(pending, g));
    }
  }

  /** Arming looks at the readiness of the client afresh. */
  lemma ArmKeepsOthers(mode: Mode, k: Kernel, bufs: map<Fd, Bytes>, pending: map<Fd, Event>, fd: Fd, out: bool)
    requires OthersOk(mode, k, bufs, pending, fd) && fd in k.conns && fd != k.listen
    requires EchoExact(k.conns[fd], bufs[fd]) && out == (bufs[fd] != [])
    ensures var k' := Arm(k, fd, Mask(out));
            && OthersOk(mode, k', bufs, pending, fd) && ClientOk(mode, k', fd, bufs[fd], NOTHING)
            && k'.conns == k.conns && k'.closed == k.closed && k'.listen == k.listen && k'.backlog == k.backlog
  {
    var k' := Arm(k, fd, Mask(out));
    forall g | g in bufs && g != fd
      ensures ClientOk(mode, k', g, bufs[g], EventOf(pending, g))
    {
      assert ClientOk(mode, k, g, bufs[g], EventOf(pending, g));
    }
  }

  /** Taking up a client. */
  lemma TakeUp(mode: Mode, k: Kernel, bufs: map<Fd, Bytes>, pending: map<Fd, Event>, fd: Fd)
    requires OthersOk(mode, k, bufs, pending, k.listen) && fd != k.listen
    ensures OthersOk(mode, k, bufs, pending, fd)
    ensures fd in bufs ==> ClientOk(mode, k, fd, bufs[fd], EventOf(pending, fd))
    ensures bufs.Keys == k.conns.Keys && k.interest.Keys == k.conns.Keys + {k.listen} && k.listen !in k.conns
    ensures fd in pending ==> fd in bufs
  {
  }

  lemma TablesAgree(mode: Mode, k: Kernel, bufs: map<Fd, Bytes>, pending: map<Fd, Event>, busy: Fd)
    requires OthersOk(mode, k, bufs, pending, busy)
    ensures bufs.Keys == k.conns.Keys && k.interest.Keys <= k.conns.Keys + {k.listen} && k.listen !in k.conns
  {
  }

  // ------------------------------------------------------------------ work to do

  function LoadOf(k: Kernel, bufs: map<Fd, Bytes>, fd: Fd): nat {
    if fd in k.conns && fd in bufs then Load(k.conns[fd], bufs[fd]) else 0
  }

  ghost function Work(k: Kernel, bufs: map<Fd, Bytes>): nat {
    Total(map fd | fd in k.conns :: LoadOf(k, bufs, fd)) + BacklogLoad(k.backlog)
  }

  /** Client `fd` has become `o`, and all else is as it was. */
  ghost predicate Did(k: Kernel, bufs: map<Fd, Bytes>, k': Kernel, bufs': map<Fd, Bytes>, fd: Fd, o: Outcome) {
    && k'.backlog == k.backlog && k'.listen == k.listen
    && match o
       case Kept(c, buf) => k'.conns == k.conns[fd := c] && bufs' == bufs[fd := buf] && k'.closed == k.closed
       case Gone(c) => k'.conns == k.conns - {fd} && bufs' == bufs - {fd} && k'.closed == k.closed + [c]
  }

  /** A stretch of the server's work on client `fd`, `coming` and `left` being what was still
      to come from outside at its start and end: if that was nothing, it has done just `o`. */
  ghost predicate Quietly(coming: seq<seq<Outside>>, k: Kernel, bufs: map<Fd, Bytes>,
                          left: seq<seq<Outside>>, k': Kernel, bufs': map<Fd, Bytes>, fd: Fd, o: Outcome) {
    coming == [] ==> left == [] && Did(k, bufs, k', bufs', fd, o)
  }

  lemma QuietlyKept(coming: seq<seq<Outside>>, k: Kernel, bufs: map<Fd, Bytes>,
                    left: seq<seq<Outside>>, k': Kernel, bufs': map<Fd, Bytes>, fd: Fd, o: Outcome)
    requires Quietly(coming, k, bufs, left, k', bufs', fd, o) && (coming == [] ==> o.Kept?)
    ensures coming == [] ==>
      left == [] && fd in k'.conns && fd in bufs' && k'.conns[fd] == o.c && bufs'[fd] == o.buf
  {
  }

  lemma QuietlyOn(coming: seq<seq<Outside>>, k: Kernel, bufs: map<Fd, Bytes>,
                  then_: seq<seq<Outside>>, k1: Kernel, bufs1: map<Fd, Bytes>,
                  left: seq<seq<Outside>>, k2: Kernel, bufs2: map<Fd, Bytes>, fd: Fd,
                  first: Outcome, second: Outcome, o: Outcome)
    requires Quietly(coming, k, bufs, then_, k1, bufs1, fd, first)
    requires Quietly(then_, k1, bufs1, left, k2, bufs2, fd, second)
    requires coming == [] ==> first.Kept? && o == second
    ensures Quietly(coming, k, bufs, left, k2, bufs2, fd, o)
  {
  }

  lemma QuietlySame(coming: seq<seq<Outside>>, k: Kernel, left: seq<seq<Outside>>, k': Kernel, bufs: map<Fd, Bytes>, fd: Fd)
    requires fd in k.conns && fd in bufs
    requires coming == [] ==>
      left == [] && k'.conns == k.conns && k'.backlog == k.backlog && k'.listen == k.listen && k'.closed == k.closed
    ensures Quietly(coming, k, bufs, left, k', bufs, fd, Kept(k.conns[fd], bufs[fd]))
  {
    assert k.conns[fd := k.conns[fd]] == k.conns && bufs[fd := bufs[fd]] == bufs;
  }

  lemma QuietlyIs(coming: seq<seq<Outside>>, k: Kernel, bufs: map<Fd, Bytes>,
                  left: seq<seq<Outside>>, k': Kernel, bufs': map<Fd, Bytes>, fd: Fd, was: Outcome, o: Outcome)
    requires Quietly(coming, k, bufs, left, k', bufs', fd, was) && (coming == [] ==> o == was)
    ensures Quietly(coming, k, bufs, left, k', bufs', fd, o)
  {
  }

  /** A system call on the client's connection, and what it means for the buffer. */
  lemma QuietlyChanged(coming: seq<seq<Outside>>, k: Kernel, bufs: map<Fd, Bytes>,
                       left: seq<seq<Outside>>, k': Kernel, bufs': map<Fd, Bytes>, fd: Fd, before: Kernel)
    requires coming == [] ==> left == [] && before == k
    requires fd in k'.conns && fd in bufs'
    requires k' == before.(conns := before.conns[fd := k'.conns[fd]]) && bufs' == bufs[fd := bufs'[fd]]
    ensures Quietly(coming, k, bufs, left, k', bufs', fd, Kept(k'.conns[fd], bufs'[fd]))
  {
  }

  lemma DidWork(k: Kernel, bufs: map<Fd, Bytes>, k': Kernel, bufs': map<Fd, Bytes>, fd: Fd, o: Outcome)
    requires Did(k, bufs, k', bufs', fd, o) && fd in k.conns
    ensures Work(k', bufs') == Work(k, bufs) - LoadOf(k, bufs, fd) + if o.Kept? then Load(o.c, o.buf) else 0
  {
    var m := map g | g in k.conns :: LoadOf(k, bufs, g);
    var m' := map g | g in k'.conns :: LoadOf(k', bufs', g);
    TotalRemove(m, fd);
    if o.Kept? {
      TotalRemove(m', fd);
      assert m' - {fd} == m - {fd};
    } else {
      assert m' == m - {fd};
    }
  }

  lemma SameWork(k: Kernel, k': Kernel, bufs: map<Fd, Bytes>)
    requires k'.conns == k.conns && k'.backlog == k.backlog
    ensures Work(k', bufs) == Work(k, bufs)
  {
    assert (map fd | fd in k'.conns :: LoadOf(k', bufs, fd)) == (map fd | fd in k.conns :: LoadOf(k, bufs, fd));
  }

  lemma AcceptWork(k: Kernel, bufs: map<Fd, Bytes>, k': Kernel, bufs': map<Fd, Bytes>, fd: Fd)
    requires k.backlog != [] && fd !in k.conns
    requires k'.backlog == k.backlog[1..] && k'.conns == k.conns[fd := k.backlog[0]] && bufs' == bufs[fd := []]
    ensures Work(k', bufs') == Work(k, bufs) - 1
  {
    var m := map g | g in k.conns :: LoadOf(k, bufs, g);
    var m' := map g | g in k'.conns :: LoadOf(k', bufs', g);
    TotalRemove(m', fd);
    assert m' - {fd} == m;
  }

  // ------------------------------------------- what becomes of each connection

  /** A client has become this one, nothing having come from outside. */
  ghost predicate SameFate(mode: Mode, c: Conn, buf: Bytes, c': Conn, buf': Bytes) {
    && EchoExact(c, buf) && EchoExact(c', buf') && SameEnd(c, c') && Older(c, c')
    && (Dying(c) ==> Ends(mode, c', buf') == Ends(mode, c, buf))
  }

  ghost predicate IsAt(mode: Mode, c: Conn, buf: Bytes, k': Kernel, bufs': map<Fd, Bytes>, fd: Fd) {
    fd in k'.conns && fd in bufs' && SameFate(mode, c, buf, k'.conns[fd], bufs'[fd])
  }

  /** It has been closed, as one of the connections from number `from` on. */
  ghost predicate ClosedAs(k': Kernel, from: nat, c: Conn) {
    exists i :: from <= i < |k'.closed| && k'.closed[i] == c
  }

  ghost predicate HasEnded(mode: Mode, c: Conn, buf: Bytes, k': Kernel, from: nat) {
    Dying(c) && EchoExact(c, buf) && ClosedAs(k', from, Ends(mode, c, buf))
  }

  /** Nothing having come from outside between `k` and `k'`: every client is where it was, or
      has been closed as it had to be; every connection that waited still waits, or has become
      a client, or that has been closed as it had to be. */
  ghost predicate Fates(mode: Mode, k: Kernel, bufs: map<Fd, Bytes>, k': Kernel, bufs': map<Fd, Bytes>) {
    && k.closed <= k'.closed
    && (forall fd :: fd in k.conns && fd in bufs ==>
          || IsAt(mode, k.conns[fd], bufs[fd], k', bufs', fd)
          || HasEnded(mode, k.conns[fd], bufs[fd], k', |k.closed|))
    && (forall c :: c in k.backlog ==>
          || c in k'.backlog || HasEnded(mode, c, [], k', |k.closed|)
          || exists fd :: IsAt(mode, c, [], k', bufs', fd))
  }

  lemma IsAtOn(mode: Mode, c: Conn, buf: Bytes, from: nat, k1: Kernel, bufs1: map<Fd, Bytes>, k2: Kernel, bufs2: map<Fd, Bytes>, fd: Fd)
    requires IsAt(mode, c, buf, k1, bufs1, fd) && Fates(mode, k1, bufs1, k2, bufs2) && from <= |k1.closed|
    ensures IsAt(mode, c, buf, k2, bufs2, fd) || HasEnded(mode, c, buf, k2, from)
  {
    hide Ends, EchoExact;
    if !IsAt(mode, k1.conns[fd], bufs1[fd], k2, bufs2, fd) {
      assert HasEnded(mode, k1.conns[fd], bufs1[fd], k2, |k1.closed|);
    }
  }

  lemma HasEndedOn(mode: Mode, c: Conn, buf: Bytes, from: nat, k1: Kernel, k2: Kernel)
    requires HasEnded(mode, c, buf, k1, from) && k1.closed <= k2.closed
    ensures HasEnded(mode, c, buf, k2, from)
  {
    hide Ends, EchoExact;
    var i :| from <= i < |k1.closed| && k1.closed[i] == Ends(mode, c, buf);
    assert k2.closed[i] == k1.closed[i];
  }

  lemma FatesOn(mode: Mode, k: Kernel, bufs: map<Fd, Bytes>, k1: Kernel, bufs1: map<Fd, Bytes>, k2: Kernel, bufs2: map<Fd, Bytes>)
    requires Fates(mode, k, bufs, k1, bufs1) && Fates(mode, k1, bufs1, k2, bufs2)
    ensures Fates(mode, k, bufs, k2, bufs2)
  {
    hide IsAt, HasEnded;
    forall fd | fd in k.conns && fd in bufs
      ensures
        || IsAt(mode, k.conns[fd], bufs[fd], k2, bufs2, fd)
        || HasEnded(mode, k.conns[fd], bufs[fd], k2, |k.closed|)
    {
      if IsAt(mode, k.conns[fd], bufs[fd], k1, bufs1, fd) {
        IsAtOn(mode, k.conns[fd], bufs[fd], |k.closed|, k1, bufs1, k2, bufs2, fd);
      } else {
        HasEndedOn(mode, k.conns[fd], bufs[fd], |k.closed|, k1, k2);
      }
    }
    forall c | c in k.backlog
      ensures c in k2.backlog || HasEnded(mode, c, [], k2, |k.closed|) || exists fd :: IsAt(mode, c, [], k2, bufs2, fd)
    {
      if c in k1.backlog {
        if HasEnded(mode, c, [], k2, |k1.closed|) { EarlierEnd(mode, c, [], |k.closed|, |k1.closed|, k2); }
      } else if HasEnded(mode, c, [], k1, |k.closed|) {
        HasEndedOn(mode, c, [], |k.closed|, k1, k2);
      } else {
        var fd :| IsAt(mode, c, [], k1, bufs1, fd);
        IsAtOn(mode, c, [], |k.closed|, k1, bufs1, k2, bufs2, fd);
      }
    }
  }

  lemma EarlierEnd(mode: Mode, c: Conn, buf: Bytes, from: nat, later: nat, k: Kernel)
    requires HasEnded(mode, c, buf, k, later) && from <= later
    ensures HasEnded(mode, c, buf, k, from)
  {
  }

  /** All that the echo needs of the tables. */
  ghost predicate EchoesExact(k: Kernel, bufs: map<Fd, Bytes>) {
    && (forall fd :: fd in k.conns && fd in bufs ==> EchoExact(k.conns[fd], bufs[fd]))
    && (forall c :: c in k.backlog ==> EchoExact(c, []))
  }

  lemma ServerEchoes(mode: Mode, k: Kernel, bufs: map<Fd, Bytes>, pending: map<Fd, Event>)
    requires ServerOk(mode, k, bufs, pending)
    ensures EchoesExact(k, bufs)
  {
    forall fd | fd in k.conns && fd in bufs
      ensures EchoExact(k.conns[fd], bufs[fd])
    {
      assert ClientOk(mode, k, fd, bufs[fd], EventOf(pending, fd));
    }
    forall c | c in k.backlog
      ensures EchoExact(c, [])
    {
      NothingToEcho(c);
    }
  }

  lemma StaysAt(mode: Mode, k: Kernel, bufs: map<Fd, Bytes>, k': Kernel, bufs': map<Fd, Bytes>, fd: Fd)
    requires EchoesExact(k, bufs) && fd in k.conns && fd in bufs && fd in k'.conns && fd in bufs'
    requires k'.conns[fd] == k.conns[fd] && bufs'[fd] == bufs[fd]
    ensures IsAt(mode, k.conns[fd], bufs[fd], k', bufs', fd)
  {
  }

  lemma SameFates(mode: Mode, k: Kernel, k': Kernel, bufs: map<Fd, Bytes>)
    requires EchoesExact(k, bufs) && k'.conns == k.conns && k'.backlog == k.backlog && k'.closed == k.closed
    ensures Fates(mode, k, bufs, k', bufs)
  {
    hide IsAt, EchoesExact;
    forall fd | fd in k.conns && fd in bufs
      ensures IsAt(mode, k.conns[fd], bufs[fd], k', bufs, fd)
    {
      StaysAt(mode, k, bufs, k', bufs, fd);
    }
  }

  lemma TurnFate(mode: Mode, k: Kernel, bufs: map<Fd, Bytes>, k': Kernel, bufs': map<Fd, Bytes>, fd: Fd)
    requires fd in k.conns && fd in bufs && EchoExact(k.conns[fd], bufs[fd])
    requires Did(k, bufs, k', bufs', fd, Turn(mode, k.conns[fd], bufs[fd]))
    ensures
      || IsAt(mode, k.conns[fd], bufs[fd], k', bufs', fd)
      || HasEnded(mode, k.conns[fd], bufs[fd], k', |k.closed|)
  {
    hide Turn, EchoExact;
    var c, buf := k.conns[fd], bufs[fd];
    var o := Turn(mode, c, buf);
    TurnIsProgress(mode, c, buf);
    if o.Kept? {
      if Dying(c) { EndsAfterTurn(mode, c, buf); }
    } else {
      assert k'.closed[|k.closed|] == o.c == Ends(mode, c, buf);
    }
  }

  lemma TurnFates(mode: Mode, k: Kernel, bufs: map<Fd, Bytes>, k': Kernel, bufs': map<Fd, Bytes>, fd: Fd)
    requires EchoesExact(k, bufs) && fd in k.conns && fd in bufs
    requires Did(k, bufs, k', bufs', fd, Turn(mode, k.conns[fd], bufs[fd]))
    ensures Fates(mode, k, bufs, k', bufs')
  {
    hide IsAt, HasEnded, Turn;
    TurnFate(mode, k, bufs, k', bufs', fd);
    forall g | g in k.conns && g in bufs && g != fd
      ensures IsAt(mode, k.conns[g], bufs[g], k', bufs', g)
    {
      StaysAt(mode, k, bufs, k', bufs', g);
    }
  }

  lemma AcceptFates(mode: Mode, k: Kernel, bufs: map<Fd, Bytes>, k': Kernel, bufs': map<Fd, Bytes>, fd: Fd)
    requires EchoesExact(k, bufs) && k.backlog != [] && fd !in k.conns && k'.closed == k.closed
    requires k'.backlog == k.backlog[1..] && k'.conns == k.conns[fd := k.backlog[0]] && bufs' == bufs[fd := []]
    ensures Fates(mode, k, bufs, k', bufs')
  {
    assert IsAt(mode, k.backlog[0], [], k', bufs', fd) by { assert k.backlog[0] in k.backlog; }
    hide IsAt, EchoesExact;
    forall g | g in k.conns && g in bufs
      ensures IsAt(mode, k.conns[g], bufs[g], k', bufs', g)
    {
      StaysAt(mode, k, bufs, k', bufs', g);
    }
    forall c | c in k.backlog
      ensures c in k'.backlog || c == k.backlog[0]
    {
      assert k.backlog == [k.backlog[0]] + k'.backlog;
    }
  }

  /** What a silent world leaves behind: each client at end of file, or broken, has been
      closed as it had to be, and each other one is open, with what it had received. */
  ghost predicate AllEnded(mode: Mode, k: Kernel, bufs: map<Fd, Bytes>, k': Kernel) {
    && (forall fd :: fd in k.conns && fd in bufs ==>
          var c := k.conns[fd];
          if Dying(c) then HasEnded(mode, c, bufs[fd], k', |k.closed|)
          else fd in k'.conns && Older(c, k'.conns[fd]) && SameEnd(c, k'.conns[fd]))
    && (forall c :: c in k.backlog ==>
          if Dying(c) then HasEnded(mode, c, [], k', |k.closed|)
          else exists fd :: fd in k'.conns && Older(c, k'.conns[fd]) && SameEnd(c, k'.conns[fd]))
  }

  lemma QuietMeansAllEnded(mode: Mode, k: Kernel, bufs: map<Fd, Bytes>, k': Kernel, bufs': map<Fd, Bytes>)
    requires Fates(mode, k, bufs, k', bufs') && AllEchoed(k', bufs')
    ensures AllEnded(mode, k, bufs, k')
  {
    hide Ends, EchoExact;
    forall c | c in k.backlog
      ensures if Dying(c) then HasEnded(mode, c, [], k', |k.closed|)
              else exists fd :: fd in k'.conns && Older(c, k'.conns[fd]) && SameEnd(c, k'.conns[fd])
    {
      if !HasEnded(mode, c, [], k', |k.closed|) {
        var fd :| IsAt(mode, c, [], k', bufs', fd);
      }
    }
  }

  // ------------------------------------------------------------------ histories

  ghost predicate Older(c: Conn, c': Conn) {
    c.sent <= c'.sent && c.arrived <= c'.arrived && Consumed(c) <= Consumed(c')
  }

  /** No connection is lost or changes its past: what was sent, received and read of it
      only grows, until it is among the closed ones, where it stays. */
  ghost predicate Grows(k: Kernel, k': Kernel) {
    && k.closed <= k'.closed
    && forall fd :: fd in k.conns ==>
         || (fd in k'.conns && Older(k.conns[fd], k'.conns[fd]))
         || exists i :: |k.closed| <= i < |k'.closed| && Older(k.conns[fd], k'.closed[i])
  }

  lemma GrowsOn(k: Kernel, k1: Kernel, k2: Kernel)
    requires Grows(k, k1) && Grows(k1, k2)
    ensures Grows(k, k2)
  {
    forall fd | fd in k.conns
      ensures
        || (fd in k2.conns && Older(k.conns[fd], k2.conns[fd]))
        || exists i :: |k.closed| <= i < |k2.closed| && Older(k.conns[fd], k2.closed[i])
    {
      if i :| |k.closed| <= i < |k1.closed| && Older(k.conns[fd], k1.closed[i]) {
        assert k2.closed[i] == k1.closed[i];
      } else if i :| |k1.closed| <= i < |k2.closed| && Older(k1.conns[fd], k2.closed[i]) {
        assert Older(k.conns[fd], k2.closed[i]);
      }
    }
  }

  lemma NothingGrows(k: Kernel, k': Kernel)
    requires k'.closed == k.closed && k.conns.Keys <= k'.conns.Keys
    requires forall fd :: fd in k.conns ==> k'.conns[fd] == k.conns[fd]
    ensures Grows(k, k')
  {
  }

  lemma OneGrows(k: Kernel, k': Kernel, fd: Fd)
    requires k'.closed == k.closed && fd in k.conns && fd in k'.conns && k'.conns == k.conns[fd := k'.conns[fd]]
    requires Older(k.conns[fd], k'.conns[fd])
    ensures Grows(k, k')
  {
  }

  lemma CloseGrows(k: Kernel, k': Kernel, fd: Fd)
    requires fd in k.conns && k'.closed == k.closed + [k.conns[fd]] && k'.conns == k.conns - {fd}
    ensures Grows(k, k')
  {
    assert k'.closed[|k.closed|] == k.conns[fd];
  }

  lemma {:induction false} HappenAllGrows(k: Kernel, acts: seq<Outside>)
    ensures Grows(k, HappenAll(k, acts))
    decreases |acts|
  {
    if acts == [] {
      NothingGrows(k, k);
    } else {
      var k' := Happen(k, acts[0]);
      if k'.conns == k.conns { NothingGrows(k, k'); } else { OneGrows(k, k', acts[0].fd); }
      HappenAllGrows(k', acts[1..]);
      GrowsOn(k, k', HappenAll(k', acts[1..]));
    }
  }

  // ------------------------------------------------------------------ the server

  class EpollEchoServer {
    const mode: Mode
    const listen: Fd
    var kernel: Kernel                  // the epoll instance and the sockets
    var outside: seq<seq<Outside>>      // what will happen before each system call to come
    var sendBufs: map<Fd, Bytes>
    var fdToSock: set<Fd>

    ghost predicate Valid(pending: map<Fd, Event>, busy: Fd)
      reads this
    {
      && kernel.listen == listen && fdToSock == sendBufs.Keys + {listen}
      && OthersOk(mode, kernel, sendBufs, pending, busy)
    }

    /** start(): the listener is registered and nothing has happened yet. */
    constructor (mode: Mode, listen: Fd, outside: seq<seq<Outside>>)
      ensures this.mode == mode && this.listen == listen && this.outside == outside
      ensures Valid(map[], listen) && kernel == Kernel(listen, map[], map[listen := Mask(false)], {}, [], [])
    {
      this.mode, this.listen, this.outside := mode, listen, outside;
      kernel := Kernel(listen, map[], map[listen := Mask(false)], {}, [], []);
      sendBufs, fdToSock := map[], {listen};
    }

    /** Time passes. */
    method Interfere(ghost pending: map<Fd, Event>, ghost busy: Fd)
      requires Valid(pending, busy)
      modifies this`kernel, this`outside
      ensures Valid(pending, busy)
      ensures kernel.interest == old(kernel.interest) && kernel.conns.Keys == old(kernel.conns.Keys)
      ensures busy in old(kernel.conns) ==> Later(old(kernel), kernel, busy)
      ensures |outside| < old(|outside|) || (outside == [] && kernel == old(kernel))
      ensures Grows(old(kernel), kernel)
    {
      hide Grows;
      NothingGrows(kernel, kernel);
      if outside != [] {
        HappenAllGrows(kernel, outside[0]);
        HappenAllKeepsOthers(mode, kernel, outside[0], sendBufs, pending, busy);
        if busy in kernel.conns { HappenAllIsLater(kernel, outside[0], busy); }
        kernel, outside := HappenAll(kernel, outside[0]), outside[1..];
      }
    }

    /** sock.recv(4096) */
    method Recv(fd: Fd, ghost pending: map<Fd, Event>) returns (r: Received, ghost before: Kernel)
      requires Valid(pending, fd) && fd in kernel.conns && fd != listen
      modifies this`kernel, this`outside
      ensures Valid(pending, fd) && fd in kernel.conns
      ensures Later(old(kernel), before, fd) && r == RecvResult(before.conns[fd])
      ensures kernel == before.(conns := before.conns[fd := AfterRecv(before.conns[fd])])
      ensures |outside| < old(|outside|) || (outside == [] && before == old(kernel))
      ensures Grows(old(kernel), kernel)
    {
      hide Grows, OthersOk, Later;
      Interfere(pending, fd);
      before := kernel;
      r := RecvResult(kernel.conns[fd]);
      OwnConnection(mode, kernel, sendBufs, pending, fd, AfterRecv(kernel.conns[fd]));
      kernel := kernel.(conns := kernel.conns[fd := AfterRecv(kernel.conns[fd])]);
      OneGrows(before, kernel, fd);
      GrowsOn(old(kernel), before, kernel);
    }

    /** sock.send(data) */
    method Send(fd: Fd, data: Bytes, ghost pending: map<Fd, Event>) returns (r: Sent, ghost before: Kernel)
      requires Valid(pending, fd) && fd in kernel.conns && fd != listen
      modifies this`kernel, this`outside
      ensures Valid(pending, fd) && fd in kernel.conns
      ensures old(outside) == [] ==> outside == [] && before == old(kernel)
      ensures Later(old(kernel), before, fd) && r == SendResult(before.conns[fd], data)
      ensures kernel == before.(conns := before.conns[fd := AfterSend(before.conns[fd], data)])
      ensures Grows(old(kernel), kernel)
    {
      hide Grows, OthersOk, Later;
      Interfere(pending, fd);
      before := kernel;
      r := SendResult(kernel.conns[fd], data);
      OwnConnection(mode, kernel, sendBufs, pending, fd, AfterSend(kernel.conns[fd], data));
      kernel := kernel.(conns := kernel.conns[fd := AfterSend(kernel.conns[fd], data)]);
      OneGrows(before, kernel, fd);
      GrowsOn(old(kernel), before, kernel);
    }

    /** epoll.modify: it looks at the readiness of `fd` afresh, so nothing about the client
        is forgotten, provided the mask asks for EPOLLOUT exactly if there are bytes to send. */
    method Rearm(fd: Fd, out: bool, ghost pending: map<Fd, Event>)
      requires Valid(pending, fd) && fd in kernel.conns && fd != listen
      requires EchoExact(kernel.conns[fd], sendBufs[fd]) && out == (sendBufs[fd] != [])
      modifies this`kernel, this`outside
      ensures Valid(pending, fd) && ClientOk(mode, kernel, fd, sendBufs[fd], NOTHING)
      ensures kernel.conns[fd].room >= old(kernel.conns[fd].room)
      ensures Consumed(kernel.conns[fd]) == old(Consumed(kernel.conns[fd])) && kernel.conns[fd].sent == old(kernel.conns[fd].sent)
      ensures Grows(old(kernel), kernel)
      ensures kernel.conns.Keys == old(kernel.conns.Keys) && Older(old(kernel.conns[fd]), kernel.conns[fd])
      ensures |outside| <= old(|outside|)
      ensures Quietly(old(outside), old(kernel), sendBufs, outside, kernel, sendBufs, fd, Kept(old(kernel.conns[fd]), sendBufs[fd]))
    {
      hide Grows, OthersOk, Arm, ClientOk, Quietly;
      TablesAgree(mode, kernel, sendBufs, pending, fd);
      Interfere(pending, fd);
      ghost var before := kernel;
      ArmKeepsOthers(mode, kernel, sendBufs, pending, fd, out);
      kernel := Arm(kernel, fd, Mask(out));
      NothingGrows(before, kernel);
      GrowsOn(old(kernel), before, kernel);
      QuietlySame(old(outside), old(kernel), outside, kernel, sendBufs, fd);
    }

    /** _close_client: out of both tables, out of epoll, and closed. */
    method CloseClient(fd: Fd, ghost pending: map<Fd, Event>)
      requires Valid(pending, fd) && fd in kernel.conns && fd != listen
      requires EchoExact(kernel.conns[fd], sendBufs[fd])
      requires kernel.conns[fd].broken || (kernel.conns[fd].eof && kernel.conns[fd].recvQ == [])
      modifies this
      ensures Valid(pending - {fd}, listen)
      ensures fd !in fdToSock && fd !in sendBufs && fd !in kernel.conns && fd !in kernel.interest
      ensures Grows(old(kernel), kernel) && kernel.closed == old(kernel.closed + [kernel.conns[fd]])
      ensures Quietly(old(outside), old(kernel), old(sendBufs), outside, kernel, sendBufs, fd, Gone(old(kernel.conns[fd])))
    {
      hide Grows, OthersOk;
      CloseKeepsOthers(mode, kernel, sendBufs, pending, fd);
      TablesAgree(mode, kernel, sendBufs, pending, fd);
      fdToSock := fdToSock - {fd};
      kernel := Closed(kernel, fd);
      CloseGrows(old(kernel), kernel, fd);
      sendBufs := sendBufs - {fd};
    }

    /** The client that was being handled is in order again and its event is used up. */
    lemma Handled(pending: map<Fd, Event>, fd: Fd)
      requires Valid(pending, fd) && fd != listen
      requires fd in kernel.conns ==> ClientOk(mode, kernel, fd, sendBufs[fd], NOTHING)
      ensures Valid(pending - {fd}, listen)
    {
      forall g | g in sendBufs && g != listen
        ensures ClientOk(mode, kernel, g, sendBufs[g], EventOf(pending - {fd}, g))
      {
        assert g != fd ==> EventOf(pending - {fd}, g) == EventOf(pending, g);
      }
    }

    /** What has been taken leaves the buffer. */
    method Shorten(fd: Fd, n: nat, ghost before: Kernel, ghost pending: map<Fd, Event>)
      requires Valid(pending, fd) && fd in kernel.conns && fd in before.conns && fd in sendBufs
      requires EchoExact(before.conns[fd], sendBufs[fd]) && SendResult(before.conns[fd], sendBufs[fd]) == Taken(n)
      requires kernel.conns[fd] == AfterSend(before.conns[fd], sendBufs[fd])
      modifies this`sendBufs
      ensures sendBufs == old(sendBufs)[fd := old(sendBufs[fd])[n..]]
      ensures Valid(pending, fd) && EchoExact(kernel.conns[fd], sendBufs[fd])
    {
      hide OthersOk;
      SendKeepsEcho(before.conns[fd], sendBufs[fd]);
      OwnBuffer(mode, kernel, sendBufs, pending, fd, sendBufs[fd][n..]);
      sendBufs := sendBufs[fd := sendBufs[fd][n..]];
    }

    /** What has been received joins the buffer. */
    method Lengthen(fd: Fd, data: Bytes, ghost before: Kernel, ghost pending: map<Fd, Event>)
      requires Valid(pending, fd) && fd in kernel.conns && fd in before.conns && fd in sendBufs
      requires EchoExact(before.conns[fd], sendBufs[fd]) && RecvResult(before.conns[fd]) == Data(data)
      requires kernel.conns[fd] == AfterRecv(before.conns[fd])
      modifies this`sendBufs
      ensures sendBufs == old(sendBufs)[fd := old(sendBufs[fd]) + Upper(data)]
      ensures Valid(pending, fd) && EchoExact(kernel.conns[fd], sendBufs[fd]) && data != []
    {
      hide OthersOk;
      RecvKeepsEcho(before.conns[fd], sendBufs[fd]);
      OwnBuffer(mode, kernel, sendBufs, pending, fd, sendBufs[fd] + Upper(data));
      sendBufs := sendBufs[fd := sendBufs[fd] + Upper(data)];
    }

    /** One send() of the buffer; what has been taken leaves it.  With bytes left, the send
        queue is full. */
    method SendSome(fd: Fd, ghost pending: map<Fd, Event>) returns (r: Sent)
      requires Valid(pending, fd) && fd != listen && Drained(mode, kernel, fd, sendBufs) && sendBufs[fd] != []
      modifies this`kernel, this`outside, this`sendBufs
      ensures Valid(pending, fd) && fd in kernel.conns && fd in sendBufs && EchoExact(kernel.conns[fd], sendBufs[fd])
      ensures r.SendFailed? ==> kernel.conns[fd].broken
      ensures r.Full? ==> old(kernel.conns[fd].room) == 0
      ensures !r.SendFailed? && sendBufs[fd] != [] ==> ClientOk(mode, kernel, fd, sendBufs[fd], NOTHING)
      ensures if r.Taken? then 0 < r.n <= |old(sendBufs[fd])| && sendBufs == old(sendBufs)[fd := old(sendBufs[fd])[r.n..]]
              else sendBufs == old(sendBufs)
      ensures var c, c' := old(kernel.conns[fd]), kernel.conns[fd];
              Consumed(c') == Consumed(c) && |c'.sent| == |c.sent| + if r.Taken? then r.n else 0
      ensures old(outside) == [] ==>
        && outside == [] && r == SendResult(old(kernel.conns[fd]), old(sendBufs[fd]))
        && kernel.conns[fd] == AfterSend(old(kernel.conns[fd]), old(sendBufs[fd]))
      ensures Grows(old(kernel), kernel)
      ensures Quietly(old(outside), old(kernel), old(sendBufs), outside, kernel, sendBufs, fd, Kept(kernel.conns[fd], sendBufs[fd]))
    {
      hide Grows, OthersOk, Quietly, EchoExact;
      TablesAgree(mode, kernel, sendBufs, pending, fd);
      ghost var before;
      r, before := Send(fd, sendBufs[fd], pending);
      TablesAgree(mode, kernel, sendBufs, pending, fd);
      if r.Taken? { Shorten(fd, r.n, before, pending); }
      QuietlyChanged(old(outside), old(kernel), old(sendBufs), outside, kernel, sendBufs, fd, before);
    }

    /** _flush_send.  `crashed`: an exception left it. */
    method FlushSend(fd: Fd, ghost pending: map<Fd, Event>) returns (crashed: bool)
      requires Valid(pending, fd) && fd != listen && Drained(mode, kernel, fd, sendBufs)
      requires mode == Level ==> kernel.conns[fd].room > 0
      modifies this
      ensures Valid(pending - {fd}, listen) && !crashed
      ensures fd in kernel.conns ==> Consumed(kernel.conns[fd]) == old(Consumed(kernel.conns[fd]))
      ensures fd in kernel.conns && old(sendBufs[fd]) != [] && old(kernel.conns[fd].room) > 0 ==>
        |kernel.conns[fd].sent| > old(|kernel.conns[fd].sent|)
      ensures Grows(old(kernel), kernel)
      ensures Quietly(old(outside), old(kernel), old(sendBufs), outside, kernel, sendBufs, fd,
                      Flush(old(kernel.conns[fd]), old(sendBufs[fd])))
    {
      hide Grows, OthersOk, Quietly, EchoExact, ClientOk;
      TablesAgree(mode, kernel, sendBufs, pending, fd);
      crashed := false;
      ghost var o := Flush(kernel.conns[fd], sendBufs[fd]);
      if sendBufs[fd] == [] {
        Rearm(fd, false, pending);
        Handled(pending, fd);
        return;
      }
      var r := SendSome(fd, pending);
      ghost var out1, k1, bufs1 := outside, kernel, sendBufs;
      NothingGrows(k1, k1);
      QuietlySame(out1, k1, out1, k1, bufs1, fd);
      ghost var then_ := Kept(k1.conns[fd], bufs1[fd]);
      match r {
        case Full =>
          if mode == Level {
            assert false;   // BlockingIOError is not caught here, and does not occur
          }
          Handled(pending, fd);
        case SendFailed =>
          CloseClient(fd, pending);
          then_ := Gone(k1.conns[fd]);
        case Taken(n) =>
          if sendBufs[fd] == [] { Rearm(fd, false, pending); }
          Handled(pending, fd);
      }
      QuietlyOn(old(outside), old(kernel), old(sendBufs), out1, k1, bufs1, outside, kernel, sendBufs, fd,
                Kept(k1.conns[fd], bufs1[fd]), then_, o);
      GrowsOn(old(kernel), k1, kernel);
    }

    /** What is known of the write side of a client of which nothing has been read yet. */
    ghost predicate WriteSideFlagged(fd: Fd, event: Event)
      reads this
      requires fd in kernel.conns && fd in kernel.interest && fd in sendBufs
    {
      && (kernel.interest[fd].out <==> sendBufs[fd] != [])
      && (sendBufs[fd] != [] && kernel.conns[fd].room > 0 ==> fd in kernel.ready || event.writable)
    }

    /** One recv(), its bytes in upper case joining the buffer. */
    method ReadSome(fd: Fd, ghost pending: map<Fd, Event>) returns (r: Received)
      requires Valid(pending, fd) && fd in kernel.conns && fd != listen && EchoExact(kernel.conns[fd], sendBufs[fd])
      modifies this`kernel, this`outside, this`sendBufs
      ensures Valid(pending, fd) && fd in kernel.conns && fd in sendBufs && EchoExact(kernel.conns[fd], sendBufs[fd])
      ensures if r.Data? then sendBufs == old(sendBufs)[fd := old(sendBufs[fd]) + Upper(r.bytes)] && r.bytes != []
              else sendBufs == old(sendBufs)
      ensures r.WouldBlock? <==> !r.Data? && !Readable(kernel.conns[fd])
      ensures r.WouldBlock? ==> !old(Readable(kernel.conns[fd]))
      ensures r.Eof? || r.Reset? ==> kernel.conns[fd].broken || (kernel.conns[fd].eof && kernel.conns[fd].recvQ == [])
      ensures kernel.interest == old(kernel.interest) && old(kernel.ready) <= kernel.ready
      ensures var c, c' := old(kernel.conns[fd]), kernel.conns[fd];
              && c'.sent == c.sent && c'.room >= c.room && |c'.arrived| >= |c.arrived|
              && (fd in kernel.interest && kernel.interest[fd].out && c.room == 0 < c'.room ==> fd in kernel.ready)
              && Consumed(c') == Consumed(c) + if r.Data? then |r.bytes| else 0
      ensures |outside| < old(|outside|) || (outside == [] && kernel.conns[fd].arrived == old(kernel.conns[fd].arrived))
      ensures old(outside) == [] ==> outside == [] && r == RecvResult(old(kernel.conns[fd]))
      ensures Grows(old(kernel), kernel)
      ensures Quietly(old(outside), old(kernel), old(sendBufs), outside, kernel, sendBufs, fd, Kept(kernel.conns[fd], sendBufs[fd]))
      ensures old(outside) == [] ==> kernel.conns[fd] == AfterRecv(old(kernel.conns[fd]))
    {
      hide Grows, OthersOk, Quietly, EchoExact;
      TablesAgree(mode, kernel, sendBufs, pending, fd);
      ghost var before;
      r, before := Recv(fd, pending);
      TablesAgree(mode, kernel, sendBufs, pending, fd);
      if r.Data? { Lengthen(fd, r.bytes, before, pending); }
      QuietlyChanged(old(outside), old(kernel), old(sendBufs), outside, kernel, sendBufs, fd, before);
    }

    /** The reading loop of _handle_io_et: until EAGAIN, or until the client is gone. */
    method ReadUntilBlocked(fd: Fd, event: Event, ghost pending: map<Fd, Event>) returns (open: bool, totalRead: nat)
      requires Valid(pending, fd) && mode == Edge && fd != listen
      requires fd in kernel.conns && fd in kernel.interest && EchoExact(kernel.conns[fd], sendBufs[fd])
      requires WriteSideFlagged(fd, event)
      modifies this
      ensures !open ==> Valid(pending - {fd}, listen) && fd !in kernel.conns
      ensures open ==>
        && Valid(pending, fd) && fd in kernel.conns && fd in kernel.interest && fd in sendBufs
        && EchoExact(kernel.conns[fd], sendBufs[fd])
        && (Readable(kernel.conns[fd]) ==> fd in kernel.ready)
        && (if totalRead > 0 then sendBufs[fd] != [] else WriteSideFlagged(fd, event))
        && Consumed(kernel.conns[fd]) >= |old(kernel.conns[fd].arrived)| && old(sendBufs[fd]) <= sendBufs[fd]
        && kernel.conns[fd].sent == old(kernel.conns[fd].sent) && kernel.conns[fd].room >= old(kernel.conns[fd].room)
      ensures Grows(old(kernel), kernel)
      ensures Quietly(old(outside), old(kernel), old(sendBufs), outside, kernel, sendBufs, fd,
                      ReadAll(old(kernel.conns[fd]), old(sendBufs[fd])))
      ensures old(outside) == [] ==> open == ReadAll(old(kernel.conns[fd]), old(sendBufs[fd])).Kept?
    {
      hide Grows, OthersOk, Quietly, EchoExact;
      NothingGrows(kernel, kernel);
      TablesAgree(mode, kernel, sendBufs, pending, fd);
      QuietlySame(outside, kernel, outside, kernel, sendBufs, fd);
      ghost var o := ReadAll(kernel.conns[fd], sendBufs[fd]);
      totalRead := 0;
      while true
        invariant Grows(old(kernel), kernel)
        invariant Valid(pending, fd) && fd in kernel.conns && fd in kernel.interest && fd in sendBufs
        invariant EchoExact(kernel.conns[fd], sendBufs[fd])
        invariant if totalRead > 0 then sendBufs[fd] != [] else WriteSideFlagged(fd, event)
        invariant |kernel.conns[fd].arrived| >= |old(kernel.conns[fd].arrived)| && old(sendBufs[fd]) <= sendBufs[fd]
        invariant kernel.conns[fd].sent == old(kernel.conns[fd].sent) && kernel.conns[fd].room >= old(kernel.conns[fd].room)
        invariant Quietly(old(outside), old(kernel), old(sendBufs), outside, kernel, sendBufs, fd, Kept(kernel.conns[fd], sendBufs[fd]))
        invariant old(outside) == [] ==> outside == [] && ReadAll(kernel.conns[fd], sendBufs[fd]) == o
        decreases |outside|, |kernel.conns[fd].arrived| - Consumed(kernel.conns[fd])
      {
        ghost var out1, k1, bufs1 := outside, kernel, sendBufs;
        var r := ReadSome(fd, pending);
        ghost var out2, k2, bufs2 := outside, kernel, sendBufs;
        GrowsOn(old(kernel), k1, k2);
        QuietlyOn(old(outside), old(kernel), old(sendBufs), out1, k1, bufs1, out2, k2, bufs2, fd,
                  Kept(k1.conns[fd], bufs1[fd]), Kept(k2.conns[fd], bufs2[fd]), Kept(k2.conns[fd], bufs2[fd]));
        match r {
          case Data(data) => totalRead := totalRead + |data|;
          case WouldBlock =>
            QuietlyIs(old(outside), old(kernel), old(sendBufs), out2, k2, bufs2, fd, Kept(k2.conns[fd], bufs2[fd]), o);
            return true, totalRead;
          case _ =>   // end of file, or a reset
            CloseClient(fd, pending);
            GrowsOn(old(kernel), k2, kernel);
            QuietlyOn(old(outside), old(kernel), old(sendBufs), out2, k2, bufs2, outside, kernel, sendBufs, fd,
                      Kept(k2.conns[fd], bufs2[fd]), Gone(k2.conns[fd]), o);
            return false, totalRead;
        }
      }
    }

    /** The second half of both handlers. */
    method HandleWriting(fd: Fd, event: Event, ghost pending: map<Fd, Event>) returns (crashed: bool)
      requires Valid(pending, fd) && fd != listen && fd in kernel.conns && fd in sendBufs
      requires if event.writable then Drained(mode, kernel, fd, sendBufs) && (mode == Level ==> kernel.conns[fd].room > 0)
               else ClientOk(mode, kernel, fd, sendBufs[fd], NOTHING)
      modifies this
      ensures Valid(pending - {fd}, listen) && !crashed
      ensures fd in kernel.conns ==> Consumed(kernel.conns[fd]) == old(Consumed(kernel.conns[fd]))
      ensures event.writable && fd in kernel.conns && old(sendBufs[fd]) != [] && old(kernel.conns[fd].room) > 0 ==>
        |kernel.conns[fd].sent| > old(|kernel.conns[fd].sent|)
      ensures Grows(old(kernel), kernel)
      ensures var o := if event.writable then Flush(old(kernel.conns[fd]), old(sendBufs[fd]))
                       else Kept(old(kernel.conns[fd]), old(sendBufs[fd]));
              Quietly(old(outside), old(kernel), old(sendBufs), outside, kernel, sendBufs, fd, o)
    {
      hide Grows, OthersOk, Quietly, EchoExact, Flush, ClientOk;
      crashed := false;
      if event.writable {
        crashed := FlushSend(fd, pending);
      } else {
        NothingGrows(kernel, kernel);
        QuietlySame(outside, kernel, outside, kernel, sendBufs, fd);
        Handled(pending, fd);
      }
    }

    /** The first half of _handle_io_et: what had arrived is read, and EPOLLOUT is asked for
        if that was anything. */
    method HandleReading(fd: Fd, event: Event, ghost pending: map<Fd, Event>) returns (open: bool)
      requires Valid(pending, fd) && mode == Edge && fd != listen && fd in sendBufs && event.readable && !event.failed
      requires ClientOk(mode, kernel, fd, sendBufs[fd], event)
      modifies this
      ensures !open ==> Valid(pending - {fd}, listen) && fd !in kernel.conns
      ensures open ==>
        && Valid(pending, fd) && fd in kernel.conns && fd in sendBufs
        && (if event.writable then Drained(mode, kernel, fd, sendBufs) else ClientOk(mode, kernel, fd, sendBufs[fd], NOTHING))
        && Consumed(kernel.conns[fd]) >= |old(kernel.conns[fd].arrived)| && old(sendBufs[fd]) <= sendBufs[fd]
        && kernel.conns[fd].sent == old(kernel.conns[fd].sent) && kernel.conns[fd].room >= old(kernel.conns[fd].room)
      ensures Grows(old(kernel), kernel)
      ensures Quietly(old(outside), old(kernel), old(sendBufs), outside, kernel, sendBufs, fd,
                      ReadAll(old(kernel.conns[fd]), old(sendBufs[fd])))
      ensures old(outside) == [] ==> open == ReadAll(old(kernel.conns[fd]), old(sendBufs[fd])).Kept?
    {
      hide Grows, OthersOk, Quietly, ReadAll, EchoExact;
      ghost var o := ReadAll(kernel.conns[fd], sendBufs[fd]);
      var totalRead;
      open, totalRead := ReadUntilBlocked(fd, event, pending);
      if open && totalRead > 0 {
        ghost var out1, k1, bufs1 := outside, kernel, sendBufs;
        QuietlyKept(old(outside), old(kernel), old(sendBufs), out1, k1, bufs1, fd, o);
        Rearm(fd, true, pending);
        GrowsOn(old(kernel), k1, kernel);
        QuietlyOn(old(outside), old(kernel), old(sendBufs), out1, k1, bufs1, outside, kernel, sendBufs, fd,
                  o, Kept(k1.conns[fd], bufs1[fd]), o);
      }
    }

    /** _handle_io_et: read until EAGAIN, then write.  If the client is not closed, all that
        had arrived when the event was handled has been read, and bytes have been sent if
        there were any to send and there was room. */
    method HandleIoEt(fd: Fd, event: Event, ghost pending: map<Fd, Event>) returns (crashed: bool)
      requires Valid(pending, listen) && mode == Edge && fd != listen && EventOf(pending, fd) == event
      modifies this
      ensures Valid(pending - {fd}, listen) && !crashed
      ensures Grows(old(kernel), kernel)
      ensures event.readable && fd in old(kernel.conns) && fd in kernel.conns ==>
        Consumed(kernel.conns[fd]) >= old(|kernel.conns[fd].arrived|)
      ensures event.writable && fd in old(kernel.conns) && fd in kernel.conns ==>
        old(sendBufs[fd]) != [] && old(kernel.conns[fd].room) > 0 ==> |kernel.conns[fd].sent| > old(|kernel.conns[fd].sent|)
      ensures fd in old(kernel.conns) && fd in old(sendBufs) ==>
        Quietly(old(outside), old(kernel), old(sendBufs), outside, kernel, sendBufs, fd,
                Handle(mode, old(kernel.conns[fd]), old(sendBufs[fd]), event))
    {
      hide Grows, OthersOk, Quietly, ReadAll, Flush, EchoExact;
      TakeUp(mode, kernel, sendBufs, pending, fd);
      NothingGrows(kernel, kernel);
      crashed := false;
      if fd !in fdToSock {
        Handled(pending, fd);
        return;
      }
      if event.failed {
        CloseClient(fd, pending);
        return;
      }
      ghost var result := Handle(mode, kernel.conns[fd], sendBufs[fd], event);
      ghost var o := if event.readable then ReadAll(kernel.conns[fd], sendBufs[fd]) else Kept(kernel.conns[fd], sendBufs[fd]);
      QuietlySame(outside, kernel, outside, kernel, sendBufs, fd);
      if event.readable {
        var open := HandleReading(fd, event, pending);
        if !open {
          QuietlyIs(old(outside), old(kernel), old(sendBufs), outside, kernel, sendBufs, fd, o, result);
          return;
        }
      }
      TablesAgree(mode, kernel, sendBufs, pending, fd);
      ghost var out2, k2, bufs2 := outside, kernel, sendBufs;
      QuietlyKept(old(outside), old(kernel), old(sendBufs), out2, k2, bufs2, fd, o);
      ghost var writes := if event.writable then Flush(k2.conns[fd], bufs2[fd]) else Kept(k2.conns[fd], bufs2[fd]);
      crashed := HandleWriting(fd, event, pending);
      GrowsOn(old(kernel), k2, kernel);
      QuietlyOn(old(outside), old(kernel), old(sendBufs), out2, k2, bufs2, outside, kernel, sendBufs, fd, o, writes, result);
    }

    /** _handle_io_lt: one read, one write; the kernel will say so if there is more.  The
        client is closed, or has moved on by at least a byte. */
    method HandleIoLt(fd: Fd, event: Event, ghost pending: map<Fd, Event>) returns (crashed: bool)
      requires Valid(pending, listen) && mode == Level && fd != listen && EventOf(pending, fd) == event
      modifies this
      ensures Valid(pending - {fd}, listen) && !crashed
      ensures event.readable && fd in old(kernel.conns) && fd in kernel.conns ==>
        Consumed(kernel.conns[fd]) > old(Consumed(kernel.conns[fd]))
      ensures event.writable && fd in old(kernel.conns) && fd in kernel.conns ==>
        old(sendBufs[fd]) != [] ==> |kernel.conns[fd].sent| > old(|kernel.conns[fd].sent|)
      ensures Grows(old(kernel), kernel)
      ensures fd in old(kernel.conns) && fd in old(sendBufs) ==>
        Quietly(old(outside), old(kernel), old(sendBufs), outside, kernel, sendBufs, fd,
                Handle(mode, old(kernel.conns[fd]), old(sendBufs[fd]), event))
    {
      hide Grows, OthersOk, Quietly, Flush;
      NothingGrows(kernel, kernel);
      crashed := false;
      TakeUp(mode, kernel, sendBufs, pending, fd);
      if fd !in fdToSock {
        Handled(pending, fd);
        return;
      }
      if event.failed {
        CloseClient(fd, pending);
        return;
      }
      ghost var result := Handle(mode, kernel.conns[fd], sendBufs[fd], event);
      ghost var o := if event.readable then ReadOnce(kernel.conns[fd], sendBufs[fd]) else Kept(kernel.conns[fd], sendBufs[fd]);
      QuietlySame(outside, kernel, outside, kernel, sendBufs, fd);
      if event.readable {
        var r := ReadSome(fd, pending);
        ghost var out1, k1, bufs1 := outside, kernel, sendBufs;
        match r {
          case WouldBlock =>
            assert false;   // BlockingIOError is not caught here, and does not occur
          case Data(data) =>
            Rearm(fd, true, pending);
            GrowsOn(old(kernel), k1, kernel);
            QuietlyOn(old(outside), old(kernel), old(sendBufs), out1, k1, bufs1, outside, kernel, sendBufs, fd,
                      Kept(k1.conns[fd], bufs1[fd]), Kept(k1.conns[fd], bufs1[fd]), o);
          case _ =>   // end of file, or a reset
            CloseClient(fd, pending);
            GrowsOn(old(kernel), k1, kernel);
            QuietlyOn(old(outside), old(kernel), old(sendBufs), out1, k1, bufs1, outside, kernel, sendBufs, fd,
                      Kept(k1.conns[fd], bufs1[fd]), Gone(k1.conns[fd]), result);
            return;
        }
      }
      ghost var out2, k2, bufs2 := outside, kernel, sendBufs;
      QuietlyKept(old(outside), old(kernel), old(sendBufs), out2, k2, bufs2, fd, o);
      ghost var writes := if event.writable then Flush(k2.conns[fd], bufs2[fd]) else Kept(k2.conns[fd], bufs2[fd]);
      crashed := HandleWriting(fd, event, pending);
      GrowsOn(old(kernel), k2, kernel);
      QuietlyOn(old(outside), old(kernel), old(sendBufs), out2, k2, bufs2, outside, kernel, sendBufs, fd, o, writes, result);
    }

    /** A descriptor that is not in use. */
    method NewFd() returns (fd: Fd)
      ensures fd !in kernel.conns && fd != listen
    {
      var used := kernel.conns.Keys + {listen};
      fd := 0;
      ghost var all := used;
      while fd in used
        invariant forall g :: g in all && g >= fd ==> g in used
        decreases |used|
      {
        used := used - {fd};
        fd := fd + 1;
      }
    }

    /** accept(), and then register the new socket, with time passing in between: whatever has
        arrived on it by then makes it ready. */
    method AcceptOne(ghost pending: map<Fd, Event>) returns (fd: Fd)
      requires Valid(pending, listen) && kernel.backlog != []
      modifies this
      ensures Valid(pending, listen)
      ensures fd !in old(kernel.conns) && kernel.conns.Keys == old(kernel.conns).Keys + {fd}
      ensures sendBufs == old(sendBufs)[fd := []] && Older(old(kernel.backlog[0]), kernel.conns[fd])
      ensures Grows(old(kernel), kernel)
      ensures |outside| <= old(|outside|)
      ensures old(outside) == [] ==>
        && kernel.backlog == old(kernel.backlog)[1..] && kernel.closed == old(kernel.closed)
        && kernel.conns == old(kernel.conns)[fd := old(kernel.backlog[0])]
    {
      hide Grows, OthersOk, Arm, ClientOk;
      TablesAgree(mode, kernel, sendBufs, pending, listen);
      fd := NewFd();
      AcceptKeepsOthers(mode, kernel, sendBufs, pending, fd);
      kernel := Accepted(kernel, fd);
      fdToSock := fdToSock + {fd};
      sendBufs := sendBufs[fd := []];
      ghost var k1 := kernel;
      NothingGrows(old(kernel), k1);
      Rearm(fd, false, pending);   // the registration: epoll_ctl ADD instead of MOD
      GrowsOn(old(kernel), k1, kernel);
      Handled(pending, fd);
      assert pending - {fd} == pending;
      assert k1.conns[fd := k1.conns[fd]] == k1.conns;
    }

    /** _accept_client: accept until EAGAIN. */
    method AcceptClient(event: Event, ghost pending: map<Fd, Event>)
      requires Valid(pending, listen) && EventOf(pending, listen) == event
      modifies this
      ensures Valid(pending - {listen}, listen)
      ensures event.readable ==> kernel.backlog == []
      ensures Grows(old(kernel), kernel)
      ensures old(outside) == [] ==>
        && outside == [] && Fates(mode, old(kernel), old(sendBufs), kernel, sendBufs)
        && Undisturbed(old(kernel), old(sendBufs), kernel, sendBufs, listen)
        && (event.readable && old(kernel.backlog) != [] ==> Work(kernel, sendBufs) < old(Work(kernel, sendBufs)))
    {
      hide Grows, Work, OthersOk, Fates;
      NothingGrows(kernel, kernel);
      ServerEchoes(mode, kernel, sendBufs, pending);
      SameFates(mode, kernel, kernel, sendBufs);
      hide EchoesExact;
      if event.readable {
        while true
          invariant Valid(pending, listen) && Grows(old(kernel), kernel)
          invariant old(outside) == [] ==>
            && outside == [] && Fates(mode, old(kernel), old(sendBufs), kernel, sendBufs)
            && Undisturbed(old(kernel), old(sendBufs), kernel, sendBufs, listen)
            && (if kernel.backlog == old(kernel.backlog) then Work(kernel, sendBufs) == old(Work(kernel, sendBufs))
                else Work(kernel, sendBufs) < old(Work(kernel, sendBufs)))
          decreases |outside|, |kernel.backlog|
        {
          ghost var k1 := kernel;
          Interfere(pending, listen);
          GrowsOn(old(kernel), k1, kernel);
          if kernel.backlog == [] { break; }
          ghost var k2, bufs2 := kernel, sendBufs;
          ServerEchoes(mode, k2, bufs2, pending);
          var fd := AcceptOne(pending);
          GrowsOn(old(kernel), k2, kernel);
          if old(outside) == [] {
            AcceptFates(mode, k2, bufs2, kernel, sendBufs, fd);
            FatesOn(mode, old(kernel), old(sendBufs), k2, bufs2, kernel, sendBufs);
            AcceptWork(k2, bufs2, kernel, sendBufs, fd);
          }
        }
      }
      ListenerHandled(pending);
    }

    lemma ListenerHandled(pending: map<Fd, Event>)
      requires Valid(pending, listen) && (mode == Edge && EventOf(pending, listen).readable ==> kernel.backlog == [])
      ensures Valid(pending - {listen}, listen)
    {
      forall g | g in sendBufs
        ensures EventOf(pending - {listen}, g) == EventOf(pending, g)
      {
      }
    }

    /** poll() has something to report about `fd`. */
    predicate Due(fd: Fd)
      reads this
    {
      Status(kernel, fd) != NOTHING && (mode == Edge ==> fd in kernel.ready)
    }

    /** epoll.poll: reports those of `order` that have something to report, in that order,
        each once; in edge mode only those on the ready list, which they leave. */
    method Poll(order: seq<Fd>) returns (events: seq<(Fd, Event)>)
      requires Valid(map[], listen)
      modifies this`kernel, this`outside
      ensures DistinctFds(events) && Valid(Pending(events), listen)
      ensures Grows(old(kernel), kernel)
      ensures forall e :: e in events ==> e.1 == Status(kernel, e.0) != NOTHING && Told(kernel, sendBufs, e)
      ensures forall fd :: fd in order ==> Reported(events, fd) || !Due(fd)
      ensures kernel.interest == old(kernel.interest)
      ensures old(outside) == [] ==>
        && outside == [] && kernel.conns == old(kernel.conns)
        && kernel.backlog == old(kernel.backlog) && kernel.closed == old(kernel.closed)
    {
      hide Grows, OthersOk, Pending, Told;
      assert Pending([]) == map[] by { EmptyPending(); }
      Interfere(map[], listen);
      events := [];
      var i := 0;
      while i < |order|
        invariant i <= |order| && DistinctFds(events) && Valid(Pending(events), listen)
        invariant Grows(old(kernel), kernel)
        invariant forall e :: e in events ==> e.1 == Status(kernel, e.0) != NOTHING
        invariant forall j :: 0 <= j < i ==> Reported(events, order[j]) || !Due(order[j])
        invariant kernel.interest == old(kernel.interest)
        invariant old(outside) == [] ==>
          && outside == [] && kernel.conns == old(kernel.conns)
          && kernel.backlog == old(kernel.backlog) && kernel.closed == old(kernel.closed)
      {
        var fd := order[i];
        var due := Due(fd);
        if due && !Reported(events, fd) {
          PendingKeys(events);
          PendingAppend(events, fd, Status(kernel, fd));
          ReportKeepsOthers(mode, kernel, sendBufs, Pending(events), fd);
          events := events + [(fd, Status(kernel, fd))];
          ghost var k1 := kernel;
          kernel := kernel.(ready := kernel.ready - {fd});
          NothingGrows(k1, kernel);
          GrowsOn(old(kernel), k1, kernel);
        }
        i := i + 1;
      }
      forall e | e in events
        ensures Told(kernel, sendBufs, e)
      {
        StatusIsTold(mode, kernel, sendBufs, Pending(events), e);
      }
    }

    /** One reported event goes to the handler for its descriptor.  With nothing more from
        outside, that is a piece of the work done, and the client becomes what it has to. */
    method Dispatch(fd: Fd, event: Event, ghost pending: map<Fd, Event>) returns (crashed: bool)
      requires Valid(pending, listen) && EventOf(pending, fd) == event
      modifies this
      ensures Valid(pending - {fd}, listen) && !crashed
      ensures Grows(old(kernel), kernel)
      ensures old(outside) == [] && Told(old(kernel), old(sendBufs), (fd, event)) ==>
        && outside == [] && Fates(mode, old(kernel), old(sendBufs), kernel, sendBufs)
        && Work(kernel, sendBufs) < old(Work(kernel, sendBufs))
        && Undisturbed(old(kernel), old(sendBufs), kernel, sendBufs, fd)
    {
      hide Grows, OthersOk, Work, Fates, EchoesExact, Handle, Undisturbed, Did;
      crashed := false;
      if fd == listen {
        AcceptClient(event, pending);
      } else {
        ServerEchoes(mode, kernel, sendBufs, pending);
        if mode == Edge {
          crashed := HandleIoEt(fd, event, pending);
        } else {
          crashed := HandleIoLt(fd, event, pending);
        }
        if old(outside) == [] && Told(old(kernel), old(sendBufs), (fd, event)) {
          ToldIsDone(mode, old(kernel), old(sendBufs), kernel, sendBufs, fd, event);
        }
      }
    }

    /** One turn of the loop in serve_forever, after the poll. */
    method DispatchAll(events: seq<(Fd, Event)>) returns (crashed: bool)
      requires DistinctFds(events) && Valid(Pending(events), listen)
      modifies this
      ensures Valid(map[], listen) && !crashed && Grows(old(kernel), kernel)
      ensures old(outside) == [] && (forall e :: e in events ==> Told(old(kernel), old(sendBufs), e)) ==>
        && outside == [] && Fates(mode, old(kernel), old(sendBufs), kernel, sendBufs)
        && Work(kernel, sendBufs) <= old(Work(kernel, sendBufs)) - |events|
    {
      hide Grows, OthersOk, Work, Pending, Fates, Told, Undisturbed, EchoesExact;
      NothingGrows(kernel, kernel);
      ghost var quiet := outside == [] && forall e :: e in events ==> Told(kernel, sendBufs, e);
      crashed := false;
      var j := 0;
      assert events[0..] == events;
      ServerEchoes(mode, kernel, sendBufs, Pending(events));
      SameFates(mode, kernel, kernel, sendBufs);
      while j < |events|
        invariant j <= |events| && Valid(Pending(events[j..]), listen) && !crashed && Grows(old(kernel), kernel)
        invariant quiet ==>
          && outside == [] && Fates(mode, old(kernel), old(sendBufs), kernel, sendBufs)
          && Work(kernel, sendBufs) <= old(Work(kernel, sendBufs)) - j
          && forall e :: e in events[j..] ==> Told(kernel, sendBufs, e)
      {
        ghost var k1, bufs1 := kernel, sendBufs;
        PendingRest(events[j..]);
        assert events[j] in events[j..] && events[j..][1..] == events[j + 1..];
        assert forall e :: e in events[j + 1..] ==> e in events[j..] && e.0 != events[j].0;
        crashed := Dispatch(events[j].0, events[j].1, Pending(events[j..]));
        GrowsOn(old(kernel), k1, kernel);
        if quiet {
          FatesOn(mode, old(kernel), old(sendBufs), k1, bufs1, kernel, sendBufs);
          forall e | e in events[j + 1..]
            ensures Told(kernel, sendBufs, e)
          {
            StillTold(k1, bufs1, kernel, sendBufs, events[j].0, e);
          }
        }
        j := j + 1;
      }
      assert Pending(events[j..]) == map[] by { EmptyPending(); assert events[j..] == []; }
    }

    /** serve_forever, for as many polls as `polls` says: no exception ends it, and
        between any two polls every client is in order. */
    method ServeForever(polls: seq<seq<Fd>>) returns (crashed: bool)
      requires Valid(map[], listen)
      modifies this
      ensures Valid(map[], listen) && !crashed && Grows(old(kernel), kernel)
    {
      hide Grows, OthersOk;
      NothingGrows(kernel, kernel);
      crashed := false;
      var i := 0;
      while i < |polls|
        invariant Valid(map[], listen) && !crashed && Grows(old(kernel), kernel)
      {
        ghost var k1 := kernel;
        var events := Poll(polls[i]);
        GrowsOn(old(kernel), k1, kernel);
        ghost var k2 := kernel;
        crashed := DispatchAll(events);
        GrowsOn(old(kernel), k2, kernel);
        i := i + 1;
      }
    }

    /** serve_forever once the outside world has fallen silent, each poll reporting whatever
        there is to report, in any order: after no more polls than there was work to do,
        nothing is left to report, what the open clients have sent has been echoed as far as
        they take it, and those at end of file have been closed, as EchoRounds.Ends says. */
    method Settle(order: set<Fd> -> seq<Fd>) returns (crashed: bool, polls: nat)
      requires Valid(map[], listen) && outside == []
      requires forall fds, fd :: fd in fds ==> fd in order(fds)
      modifies this
      ensures Valid(map[], listen) && !crashed && Grows(old(kernel), kernel)
      ensures polls <= old(Work(kernel, sendBufs)) && PollIsEmpty(mode, kernel) && AllEchoed(kernel, sendBufs)
      ensures AllEnded(mode, old(kernel), old(sendBufs), kernel)
    {
      hide Grows, OthersOk, Work, Pending, AllEchoed, AllEnded, Fates, Told, EchoesExact;
      NothingGrows(kernel, kernel);
      ServerEchoes(mode, kernel, sendBufs, map[]);
      SameFates(mode, kernel, kernel, sendBufs);
      crashed, polls := false, 0;
      while true
        invariant Valid(map[], listen) && outside == [] && !crashed && Grows(old(kernel), kernel)
        invariant Fates(mode, old(kernel), old(sendBufs), kernel, sendBufs)
        invariant polls + Work(kernel, sendBufs) <= old(Work(kernel, sendBufs))
        decreases Work(kernel, sendBufs)
      {
        ghost var k1 := kernel;
        ServerEchoes(mode, kernel, sendBufs, map[]);
        var events := Poll(order(kernel.interest.Keys));
        GrowsOn(old(kernel), k1, kernel);
        SameWork(k1, kernel, sendBufs);
        SameFates(mode, k1, kernel, sendBufs);
        FatesOn(mode, old(kernel), old(sendBufs), k1, sendBufs, kernel, sendBufs);
        if events == [] {
          NoReports(events, order);
          QuietMeansAllEchoed(mode, kernel, sendBufs);
          QuietMeansAllEnded(mode, old(kernel), old(sendBufs), kernel, sendBufs);
          return;
        }
        ghost var k2, bufs2 := kernel, sendBufs;
        crashed := DispatchAll(events);
        GrowsOn(old(kernel), k2, kernel);
        FatesOn(mode, old(kernel), old(sendBufs), k2, bufs2, kernel, sendBufs);
        polls := polls + 1;
      }
    }

    lemma NoReports(events: seq<(Fd, Event)>, order: set<Fd> -> seq<Fd>)
      requires forall fds, fd :: fd in fds ==> fd in order(fds)
      requires events == [] && forall fd :: fd in order(kernel.interest.Keys) ==> Reported(events, fd) || !Due(fd)
      ensures Pending(events) == map[] && PollIsEmpty(mode, kernel)
    {
      forall fd | fd in kernel.interest
        ensures !Due(fd)
      {
        assert fd in order(kernel.interest.Keys) && !Reported(events, fd);
      }
    }
  }

  // ----------------------------------------------------------------- reports

  /** What poll() has reported is so. */
  ghost predicate Told(k: Kernel, bufs: map<Fd, Bytes>, e: (Fd, Event)) {
    if e.0 == k.listen then e.1.readable && k.backlog != []
    else e.0 in k.conns && e.0 in bufs && e.1 == Report(k.conns[e.0], bufs[e.0]) != NOTHING
  }

  lemma StatusIsTold(mode: Mode, k: Kernel, bufs: map<Fd, Bytes>, pending: map<Fd, Event>, e: (Fd, Event))
    requires ServerOk(mode, k, bufs, pending) && e.1 == Status(k, e.0) != NOTHING
    ensures Told(k, bufs, e)
  {
    if e.0 != k.listen { assert ClientOk(mode, k, e.0, bufs[e.0], EventOf(pending, e.0)); }
  }

  /** Every client but `fd` is as it was. */
  ghost predicate Undisturbed(k: Kernel, bufs: map<Fd, Bytes>, k': Kernel, bufs': map<Fd, Bytes>, fd: Fd) {
    && k'.listen == k.listen && (fd != k.listen ==> k'.backlog == k.backlog)
    && forall g :: g in k.conns && g in bufs && g != fd ==>
         g in k'.conns && g in bufs' && k'.conns[g] == k.conns[g] && bufs'[g] == bufs[g]
  }

  lemma StillTold(k: Kernel, bufs: map<Fd, Bytes>, k': Kernel, bufs': map<Fd, Bytes>, fd: Fd, e: (Fd, Event))
    requires Told(k, bufs, e) && e.0 != fd && Undisturbed(k, bufs, k', bufs', fd)
    ensures Told(k', bufs', e)
  {
  }

  lemma ToldIsDone(mode: Mode, k: Kernel, bufs: map<Fd, Bytes>, k': Kernel, bufs': map<Fd, Bytes>, fd: Fd, event: Event)
    requires EchoesExact(k, bufs) && fd != k.listen && Told(k, bufs, (fd, event))
    requires Did(k, bufs, k', bufs', fd, Handle(mode, k.conns[fd], bufs[fd], event))
    ensures Fates(mode, k, bufs, k', bufs') && Work(k', bufs') < Work(k, bufs) && Undisturbed(k, bufs, k', bufs', fd)
  {
    hide Handle, Work, Fates;
    var c, buf := k.conns[fd], bufs[fd];
    assert Turn(mode, c, buf) == Handle(mode, c, buf, event);
    TurnIsProgress(mode, c, buf);
    TurnFates(mode, k, bufs, k', bufs', fd);
    DidWork(k, bufs, k', bufs', fd, Turn(mode, c, buf));
  }

  // ------------------------------------------------------------- lists of events

  predicate Reported(events: seq<(Fd, Event)>, fd: Fd) {
    exists e :: e in events && e.0 == fd
  }

  predicate DistinctFds(events: seq<(Fd, Event)>) {
    forall i, j :: 0 <= i < j < |events| ==> events[i].0 != events[j].0
  }

  function Pending(events: seq<(Fd, Event)>): map<Fd, Event> {
    if events == [] then map[] else Pending(events[1..])[events[0].0 := events[0].1]
  }

  lemma EmptyPending()
    ensures Pending([]) == map[]
  {
  }

  lemma {:induction false} PendingKeys(events: seq<(Fd, Event)>)
    ensures forall fd :: fd in Pending(events) <==> Reported(events, fd)
  {
    if events != [] {
      PendingKeys(events[1..]);
      assert events == [events[0]] + events[1..];
      forall fd
        ensures fd in Pending(events) <==> Reported(events, fd)
      {
        assert Reported(events, fd) <==> events[0].0 == fd || Reported(events[1..], fd);
      }
    }
  }

  lemma {:induction false} PendingAppend(events: seq<(Fd, Event)>, fd: Fd, event: Event)
    requires !Reported(events, fd)
    ensures Pending(events + [(fd, event)]) == Pending(events)[fd := event]
  {
    var events' := events + [(fd, event)];
    if events != [] {
      assert forall e :: e in events[1..] ==> e in events;
      assert events[0] in events;
      PendingAppend(events[1..], fd, event);
      assert events'[1..] == events[1..] + [(fd, event)];
    }
  }

  lemma PendingRest(events: seq<(Fd, Event)>)
    requires events != [] && DistinctFds(events)
    ensures EventOf(Pending(events), events[0].0) == events[0].1
    ensures Pending(events) - {events[0].0} == Pending(events[1..])
  {
    PendingKeys(events[1..]);
  }

  /** A client whose unread bytes, if any, are flagged; its write side may still be open. */
  predicate Drained(mode: Mode, k: Kernel, fd: Fd, bufs: map<Fd, Bytes>) {
    && fd in k.conns && fd in k.interest && fd in bufs
    && EchoExact(k.conns[fd], bufs[fd])
    && (k.interest[fd].out <==> bufs[fd] != [])
    && (mode == Edge && Readable(k.conns[fd]) ==> fd in k.ready)
  }

  // ----------------------------------------------------- what the invariant means

  /** epoll.poll would report nothing. */
  predicate PollIsEmpty(mode: Mode, k: Kernel) {
    forall fd :: fd in k.interest ==> Status(k, fd) == NOTHING || (mode == Edge && fd !in k.ready)
  }

  /** When the loop has nothing left to do, nothing has been stranded: every connection is
      accepted, and of every client that is still open every byte has been read, and the
      upper-case of all its bytes has been sent, except what its full send queue does not take. */
  lemma QuietMeansEchoed(mode: Mode, k: Kernel, bufs: map<Fd, Bytes>, fd: Fd)
    requires ServerOk(mode, k, bufs, map[]) && PollIsEmpty(mode, k)
    ensures k.backlog == []
    ensures fd in k.conns ==>
      var c := k.conns[fd];
      && !Readable(c) && c.sent + bufs[fd] == Upper(c.arrived)
      && (c.room > 0 ==> c.sent == Upper(c.arrived))
      && (k.interest[fd].out <==> c.sent != Upper(c.arrived))
  {
    assert k.listen in k.interest;
    if fd in k.conns {
      assert ClientOk(mode, k, fd, bufs[fd], NOTHING);
      assert fd in k.interest;
      assert Status(k, fd) == NOTHING || (mode == Edge && fd !in k.ready);
      var c, buf := k.conns[fd], bufs[fd];
      assert c.recvQ == [] && c.sent + buf + Upper(c.recvQ) == c.sent + buf;
      assert c.sent + [] == c.sent;
    }
  }

  /** Of every client that is still open, every byte that has arrived has been read, and echoed
      if the client takes it. */
  ghost predicate AllEchoed(k: Kernel, bufs: map<Fd, Bytes>) {
    && k.backlog == []
    && forall fd :: fd in k.conns ==>
         var c := k.conns[fd];
         fd in bufs && !Readable(c) && c.sent + bufs[fd] == Upper(c.arrived) && (c.room > 0 ==> c.sent == Upper(c.arrived))
  }

  lemma QuietMeansAllEchoed(mode: Mode, k: Kernel, bufs: map<Fd, Bytes>)
    requires ServerOk(mode, k, bufs, map[]) && PollIsEmpty(mode, k)
    ensures AllEchoed(k, bufs)
  {
    QuietMeansEchoed(mode, k, bufs, k.listen);
    forall fd | fd in k.conns
      ensures fd in bufs && !Readable(k.conns[fd]) && k.conns[fd].sent + bufs[fd] == Upper(k.conns[fd].arrived)
      ensures k.conns[fd].room > 0 ==> k.conns[fd].sent == Upper(k.conns[fd].arrived)
    {
      QuietMeansEchoed(mode, k, bufs, fd);
    }
  }

  /** The server is not deaf: from the quiet state the next poll reports a client on which bytes
      arrive, that closes its side, breaks, or makes room for what is buffered for it, and the
      listener when a connection comes. */
  lemma NewsIsReported(mode: Mode, k: Kernel, bufs: map<Fd, Bytes>, a: Outside)
    requires ServerOk(mode, k, bufs, map[]) && PollIsEmpty(mode, k)
    ensures var k' := Happen(k, a);
            match a
            case Arrive(fd, data) => fd in k.conns && data != [] ==>
              Status(k', fd).readable && fd in k'.ready && k'.conns[fd].recvQ == data && k'.conns[fd].arrived == k.conns[fd].arrived + data
            case PeerClose(fd) => fd in k.conns ==> Status(k', fd).readable && fd in k'.ready && k'.conns[fd].eof
            case Break(fd) => fd in k.conns ==> Status(k', fd).failed && fd in k'.ready
            case Acknowledge(fd, space) => fd in k.conns && bufs[fd] != [] && space > 0 ==>
              Status(k', fd).writable && fd in k'.ready && k'.conns[fd].room == space
            case Connect(room) =>
              && Status(k', k.listen).readable && k.listen in k'.ready
              && k'.backlog == [Conn([], false, false, room, [], [])]
            case Early(_, _, _) => k' == k
  {
    QuietMeansEchoed(mode, k, bufs, k.listen);
    if !a.Connect? && !a.Early? && a.fd in k.conns {
      QuietMeansEchoed(mode, k, bufs, a.fd);
      assert ClientOk(mode, k, a.fd, bufs[a.fd], NOTHING);
    }
  }

  /** What the echo is for: a client that has sent abc, and takes an answer, gets ABC. */
  lemma AbcIsEchoed(mode: Mode, k: Kernel, bufs: map<Fd, Bytes>, fd: Fd)
    requires ServerOk(mode, k, bufs, map[]) && PollIsEmpty(mode, k) && fd in k.conns
    requires k.conns[fd].arrived == [97, 98, 99] && k.conns[fd].room > 0
    ensures k.conns[fd].sent == [65, 66, 67]
  {
    QuietMeansEchoed(mode, k, bufs, fd);
    UpperOfAbc();
  }

  /** A client can connect, send a byte and shut down its writing side, and then whatever the
      server does in either mode, it closes the connection without having echoed the byte. */
  lemma HalfCloseLosesEcho(mode: Mode, listen: Fd, k': Kernel)
    requires var k := HappenAll(Kernel(listen, map[], map[listen := Mask(false)], {}, [], []),
                                [Connect(1000), Early(0, [97], true)]);
             AllEnded(mode, k, map[], k')
    ensures exists i :: 0 <= i < |k'.closed| && k'.closed[i].arrived == [97] && k'.closed[i].sent == []
                && k'.closed[i].recvQ == [] && !k'.closed[i].broken
  {
    var k0 := Kernel(listen, map[], map[listen := Mask(false)], {}, [], []);
    var acts, c := [Connect(1000), Early(0, [97], true)], Conn([97], true, false, 1000, [97], []);
    var k1 := Happen(k0, acts[0]);
    var k2 := Happen(k1, acts[1]);
    var data: Bytes := [97];
    assert k1.backlog == [Conn([], false, false, 1000, [], [])] && [] + data == data;
    assert acts[1..] == [acts[1]] && acts[1..][1..] == [];
    assert HappenAll(k0, acts) == HappenAll(k1, acts[1..]) == HappenAll(k2, []) == k2;
    assert k2.backlog == [c] && k2.closed == [] && c in k2.backlog;
    ByteIsLost(mode);
    hide Ends;
    assert HasEnded(mode, c, [], k', 0);
  }

  /** At any time, for open and closed connections alike, what has been sent is a prefix
      of the upper-case of what has arrived; for open ones the rest is in the buffer and
      in the part not yet read. */
  lemma SentIsPrefix(mode: Mode, k: Kernel, bufs: map<Fd, Bytes>, pending: map<Fd, Event>)
    requires ServerOk(mode, k, bufs, pending)
    ensures forall fd :: fd in k.conns ==>
      var c := k.conns[fd];
      |c.recvQ| <= |c.arrived| && c.sent <= Upper(c.arrived)
      && c.sent + bufs[fd] == Upper(c.arrived)[..|c.arrived| - |c.recvQ|]
    ensures forall c :: c in k.closed ==> c.sent <= Upper(c.arrived)
  {
    forall fd | fd in k.conns
      ensures |k.conns[fd].recvQ| <= |k.conns[fd].arrived| && k.conns[fd].sent <= Upper(k.conns[fd].arrived)
      ensures k.conns[fd].sent + bufs[fd] == Upper(k.conns[fd].arrived)[..|k.conns[fd].arrived| - |k.conns[fd].recvQ|]
    {
      var c := k.conns[fd];
      assert ClientOk(mode, k, fd, bufs[fd], EventOf(pending, fd));
      assert |c.sent + bufs[fd] + Upper(c.recvQ)| == |c.arrived|;
      assert Upper(c.arrived)[..|c.sent|] == c.sent;
    }
  }
}
