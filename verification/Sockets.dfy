/** Connections of the echo servers as the kernel keeps them. */
module Sockets {
  type Fd = int
  type Byte = b: int | 0 <= b < 256
  type Bytes = seq<Byte>

  function Upper(s: Bytes): Bytes {
    seq(|s|, i requires 0 <= i < |s| => if 97 <= s[i] <= 122 then s[i] - 32 else s[i])
  }

  lemma UpperAppend(s: Bytes, t: Bytes)
    ensures Upper(s + t) == Upper(s) + Upper(t)
  {
  }

  const LOWER_CASE: Bytes := [97, 98, 99, 100, 101, 102, 103, 104, 105, 106, 107, 108, 109,
                              110, 111, 112, 113, 114, 115, 116, 117, 118, 119, 120, 121, 122]
  const UPPER_CASE: Bytes := [65, 66, 67, 68, 69, 70, 71, 72, 73, 74, 75, 76, 77,
                              78, 79, 80, 81, 82, 83, 84, 85, 86, 87, 88, 89, 90]

  /** The letters a to z become A to Z, in order and wherever they stand, and no other byte is
      changed. */
  lemma UpperIsUpperCase(s: Bytes)
    ensures |Upper(s)| == |s|
    ensures forall i, j :: 0 <= i < |s| && 0 <= j < 26 && s[i] == LOWER_CASE[j] ==> Upper(s)[i] == UPPER_CASE[j]
    ensures forall i :: 0 <= i < |s| && s[i] !in LOWER_CASE ==> Upper(s)[i] == s[i]
    ensures forall b :: b in Upper(s) ==> b !in LOWER_CASE
  {
    assert forall j :: 0 <= j < 26 ==> LOWER_CASE[j] == 97 + j && UPPER_CASE[j] == 65 + j;
    forall b: Byte | 97 <= b <= 122
      ensures b in LOWER_CASE
    {
      assert LOWER_CASE[b - 97] == b;
    }
  }

  lemma UpperAlphabet()
    ensures Upper(LOWER_CASE) == UPPER_CASE
  {
    UpperIsUpperCase(LOWER_CASE);
    assert |LOWER_CASE| == |UPPER_CASE| == 26;
  }

  lemma UpperOfAbc()
    ensures Upper([97, 98, 99]) == [65, 66, 67]
  {
  }

  /** A connection: bytes not yet read by the server, end of file, reset, free space in
      the send queue; and its history: all bytes that arrived, all bytes accepted for
      sending. */
  datatype Conn = Conn(recvQ: Bytes, eof: bool, broken: bool, room: nat, arrived: Bytes, sent: Bytes)

  predicate Readable(c: Conn) {
    c.recvQ != [] || c.eof || c.broken
  }

  /** What the outside world can do at any moment. */
  datatype Outside =
    | Arrive(fd: Fd, data: Bytes)
    | PeerClose(fd: Fd)
    | Break(fd: Fd)
    | Acknowledge(fd: Fd, space: nat)             // frees space in the send queue
    | Connect(room: nat)                          // a connection to be accepted ...
    | Early(index: nat, data: Bytes, eof: bool)   // ... on which data can arrive before it is

  function ConnAfter(c: Conn, a: Outside): Conn {
    match a
    case Arrive(_, data) => if c.eof then c else c.(recvQ := c.recvQ + data, arrived := c.arrived + data)
    case PeerClose(_) => c.(eof := true)
    case Break(_) => c.(broken := true)
    case Acknowledge(_, space) => c.(room := c.room + space)
    case _ => c
  }

  datatype Received = Data(bytes: Bytes) | WouldBlock | Eof | Reset

  const RECV_SIZE := 4096

  function RecvResult(c: Conn): Received {
    if c.broken then Reset
    else if c.recvQ != [] then Data(if |c.recvQ| <= RECV_SIZE then c.recvQ else c.recvQ[..RECV_SIZE])
    else if c.eof then Eof
    else WouldBlock
  }

  function AfterRecv(c: Conn): Conn {
    match RecvResult(c)
    case Data(bytes) => c.(recvQ := c.recvQ[|bytes|..])
    case _ => c
  }

  datatype Sent = Taken(n: nat) | Full | SendFailed

  /** send() takes all that fits, so a short count means that the queue is now full. */
  function SendResult(c: Conn, data: Bytes): Sent {
    if c.broken then SendFailed
    else if c.room == 0 then Full
    else Taken(if |data| <= c.room then |data| else c.room)
  }

  function AfterSend(c: Conn, data: Bytes): Conn {
    match SendResult(c, data)
    case Taken(n) => c.(room := c.room - n, sent := c.sent + data[..n])
    case _ => c
  }

  /** The echo is exact: what was sent, what is buffered and what is unread make up the
      upper-case of what arrived. */
  predicate EchoExact(c: Conn, buf: Bytes) {
    c.sent + buf + Upper(c.recvQ) == Upper(c.arrived)
  }

  /** A client is closed only when it is broken, or at end of file with all bytes read. */
  predicate ClosedOk(c: Conn) {
    c.sent <= Upper(c.arrived) && (c.broken || (c.eof && c.recvQ == []))
  }

  /** How many bytes the server has read. */
  function Consumed(c: Conn): int {
    |c.arrived| - |c.recvQ|
  }

  lemma OutsideKeepsEcho(c: Conn, a: Outside, buf: Bytes)
    requires EchoExact(c, buf)
    ensures EchoExact(ConnAfter(c, a), buf)
  {
    if a.Arrive? && !c.eof {
      UpperAppend(c.recvQ, a.data);
      UpperAppend(c.arrived, a.data);
      assert c.sent + buf + (Upper(c.recvQ) + Upper(a.data)) == c.sent + buf + Upper(c.recvQ) + Upper(a.data);
    }
  }

  lemma NothingToEcho(c: Conn)
    requires c.sent == [] && c.recvQ == c.arrived
    ensures EchoExact(c, [])
  {
    assert [] + [] + Upper(c.recvQ) == Upper(c.recvQ);
  }

  lemma RecvKeepsEcho(c: Conn, buf: Bytes)
    requires EchoExact(c, buf) && RecvResult(c).Data?
    ensures EchoExact(AfterRecv(c), buf + Upper(RecvResult(c).bytes)) && RecvResult(c).bytes != []
    ensures |RecvResult(c).bytes| == if |c.recvQ| <= 4096 then |c.recvQ| else 4096
  {
    var data := RecvResult(c).bytes;
    assert c.recvQ == data + AfterRecv(c).recvQ;
    UpperAppend(data, AfterRecv(c).recvQ);
  }

  lemma SendKeepsEcho(c: Conn, buf: Bytes)
    requires EchoExact(c, buf) && SendResult(c, buf).Taken?
    ensures EchoExact(AfterSend(c, buf), buf[SendResult(c, buf).n..])
  {
    var n := SendResult(c, buf).n;
    assert c.sent + buf == c.sent + buf[..n] + buf[n..];
  }
}
