/** The bookkeeping of src/brickred/tcp_service.cc as a state machine: the five maps, the connections and the timers
    that the service has started. Kernel calls are results that an event carries. */
module TcpSpec {
  import opened Options
  import opened Bytes

  type SocketId = int
  type TimerId = int
  type Context = int
  type Completion = int

  const ENOBUFS: int := 105
  const ETIMEDOUT: int := 110

  datatype Status = Connecting | Connected | PeerClosed | PendingError
  datatype ReadCallback = NoRead | OnListenSocketRead | OnSocketRead
  datatype WriteCallback = NoWrite | OnAsyncConnectSocketWrite | OnSocketWrite
  datatype TimerKind = ConnectTimer | SendErrorTimer

  /** A socket, with the history of the bytes that the kernel took from it and gave to it. */
  datatype Sock = Sock(readCb: ReadCallback, writeCb: WriteCallback, open: bool, wire: seq<Byte>, got: seq<Byte>)

  /** A connection, with the history of the messages that sendMessage accepted, of the part of a refused message that
      was sent before the refusal, of whether a partly sent message was buffered, and of the bytes that the receive
      callback has consumed. */
  datatype Conn = Conn(
    status: Status,
    error: int,
    readBuffer: seq<Byte>,
    writeBuffer: seq<Byte>,
    sendComplete: Option<Completion>,
    accepted: seq<Byte>,
    stray: seq<Byte>,
    skewed: bool,
    consumed: seq<Byte>)

  /** The service; `timers` are its timers in the IOService, `used` and `reported` are the ids that were ever given
      out and those whose error callback was called. A limit of 0 means none. */
  datatype Service = Service(
    maxRead: nat,
    maxWrite: nat,
    sockets: map<SocketId, Sock>,
    connections: map<SocketId, Conn>,
    contexts: map<SocketId, Context>,
    socketToTimer: map<SocketId, TimerId>,
    timerToSocket: map<TimerId, SocketId>,
    timers: map<TimerId, TimerKind>,
    used: set<SocketId>,
    reported: set<SocketId>)

  function NewSock(readCb: ReadCallback, writeCb: WriteCallback): (k: Sock) {
    Sock(readCb, writeCb, true, [], [])
  }

  function NewConn(status: Status): (c: Conn) {
    Conn(status, 0, [], [], None, [], [], false, [])
  }

  // ---------- one connection: the send path ----------

  datatype SendResult = Sent(n: nat) | WouldBlock | Failed(errno: int)

  datatype Link = Link(conn: Conn, sock: Sock)

  /** send() takes at most what it is given. */
  predicate Possible(ret: SendResult, size: nat) {
    ret.Sent? ==> ret.n <= size
  }

  datatype Outcome = Complete | Buffered | Refused(errno: int)

  /** The number of bytes of the message that the direct send takes. */
  function Direct(l: Link, size: nat, ret: SendResult): (n: nat)
    requires Possible(ret, size)
    ensures n <= size
  {
    if l.conn.writeBuffer == [] && ret.Sent? then ret.n else 0
  }

  function SendOutcome(l: Link, size: nat, ret: SendResult, max: nat): (o: Outcome)
    requires Possible(ret, size)
  {
    var remain := size - Direct(l, size, ret);
    if l.conn.writeBuffer == [] && ret.Failed? then Refused(ret.errno)
    else if remain == 0 then Complete
    else if max > 0 && remain + |l.conn.writeBuffer| > max then Refused(ENOBUFS)
    else Buffered
  }

  /** sendMessage on a connected connection. What is buffered is copied from the start of the message. */
  function SendOn(l: Link, msg: seq<Byte>, cb: Option<Completion>, ret: SendResult, max: nat): (r: Link)
    requires Possible(ret, |msg|)
  {
    var n := Direct(l, |msg|, ret);
    var k := l.sock.(wire := l.sock.wire + msg[..n]);
    match SendOutcome(l, |msg|, ret, max)
    case Refused(e) => Link(l.conn.(status := PendingError, error := e, stray := l.conn.stray + msg[..n]), k)
    case Complete => Link(l.conn.(accepted := l.conn.accepted + msg), k)
    case Buffered =>
      Link(l.conn.(writeBuffer := l.conn.writeBuffer + msg[..|msg| - n], sendComplete := cb,
                   accepted := l.conn.accepted + msg, skewed := l.conn.skewed || n > 0),
           k.(writeCb := OnSocketWrite))
  }

  /** onSocketWrite, without its callbacks. */
  function Flush(l: Link, ret: SendResult): (r: Link)
    requires Possible(ret, |l.conn.writeBuffer|)
  {
    match ret
    case Failed(e) => l.(conn := l.conn.(status := PendingError, error := e))
    case WouldBlock => l
    case Sent(n) =>
      var rest := l.conn.writeBuffer[n..];
      var k := l.sock.(wire := l.sock.wire + l.conn.writeBuffer[..n]);
      if rest == [] then Link(l.conn.(writeBuffer := [], sendComplete := None), k.(writeCb := NoWrite))
      else Link(l.conn.(writeBuffer := rest), k)
  }

  /** The completion callback that onSocketWrite calls. */
  function FlushCompletes(l: Link, ret: SendResult): (cb: Option<Completion>)
    requires Possible(ret, |l.conn.writeBuffer|)
  {
    if ret.Sent? && ret.n == |l.conn.writeBuffer| then l.conn.sendComplete else None
  }

  // ---------- one connection: the receive loop ----------

  /** One round of the loop of onSocketRead: what FIONREAD announces, and what recv then returns. */
  datatype Arrival = Data(announced: nat, bytes: seq<Byte>) | NoData(announced: nat) | EndOfFile(announced: nat)
                   | RecvFailed(announced: nat, errno: int)

  datatype ReadEnd = Again | Closed | Broken(errno: int)

  function ToRead(a: Arrival): (n: nat) { if a.announced < 1 then 1 else a.announced }

  predicate PossibleArrival(a: Arrival) { a.Data? ==> 0 < |a.bytes| <= ToRead(a) }

  predicate TooMuch(buffer: seq<Byte>, a: Arrival, maxRead: nat) {
    maxRead > 0 && ToRead(a) + |buffer| > maxRead
  }

  /** The bytes that the loop receives, and how it ends. A sequence of arrivals that ends early means that the
      next recv would block. */
  function Received(buffer: seq<Byte>, arrivals: seq<Arrival>, maxRead: nat): (bytes: seq<Byte>)
    decreases |arrivals|
  {
    if arrivals == [] || TooMuch(buffer, arrivals[0], maxRead) || !arrivals[0].Data? then []
    else arrivals[0].bytes + Received(buffer + arrivals[0].bytes, arrivals[1..], maxRead)
  }

  function LoopEnd(buffer: seq<Byte>, arrivals: seq<Arrival>, maxRead: nat): (e: ReadEnd)
    decreases |arrivals|
  {
    if arrivals == [] then Again
    else if TooMuch(buffer, arrivals[0], maxRead) then Closed
    else
      match arrivals[0]
      case Data(_, bytes) => LoopEnd(buffer + bytes, arrivals[1..], maxRead)
      case NoData(_) => Again
      case EndOfFile(_) => Closed
      case RecvFailed(_, e) => Broken(e)
  }

  // ---------- one connection: the other events ----------

  /** setError. */
  function FailOn(l: Link, error: int): (r: Link) {
    l.(conn := l.conn.(status := PendingError, error := error))
  }

  function ConnectOn(l: Link): (r: Link) {
    Link(l.conn.(status := Connected), l.sock.(readCb := OnSocketRead, writeCb := NoWrite))
  }

  function TimeoutOn(l: Link): (r: Link) {
    FailOn(l.(sock := l.sock.(open := false)), ETIMEDOUT)
  }

  function PeerCloseOn(l: Link): (r: Link) {
    l.(conn := l.conn.(status := PeerClosed))
  }

  /** The loop of onSocketRead. */
  function ReadOn(l: Link, arrivals: seq<Arrival>, maxRead: nat): (r: Link) {
    var bytes := Received(l.conn.readBuffer, arrivals, maxRead);
    var r := Link(l.conn.(readBuffer := l.conn.readBuffer + bytes), l.sock.(got := l.sock.got + bytes));
    match LoopEnd(l.conn.readBuffer, arrivals, maxRead)
    case Broken(e) => FailOn(r, e)
    case _ => r
  }

  /** The receive callback takes bytes from the read buffer. */
  function ConsumeOn(l: Link, n: nat): (r: Link)
    requires n <= |l.conn.readBuffer|
  {
    l.(conn := l.conn.(readBuffer := l.conn.readBuffer[n..], consumed := l.conn.consumed + l.conn.readBuffer[..n]))
  }

  // ---------- what every event keeps ----------

  /** The bytes on the wire and then the write buffer are the accepted messages, in order. */
  ghost predicate Conserved(l: Link) {
    l.sock.wire + l.conn.writeBuffer == l.conn.accepted + l.conn.stray
  }

  /** What every event keeps about a connection and its socket. */
  ghost predicate LinkOk(l: Link, maxRead: nat, maxWrite: nat) {
    && (l.conn.writeBuffer != [] <==> l.sock.writeCb == OnSocketWrite)
    && (maxWrite > 0 ==> |l.conn.writeBuffer| <= maxWrite)
    && (maxRead > 0 ==> |l.conn.readBuffer| <= maxRead)
    && (l.conn.status == Connected ==> l.sock.open && l.conn.stray == [])
    && (l.sock.writeCb == OnAsyncConnectSocketWrite ==>
          l.conn.status != Connected && l.sock.wire == [] && l.conn.accepted == [] && l.conn.stray == [])
    && (!l.conn.skewed ==> Conserved(l))
    && |l.sock.wire| + |l.conn.writeBuffer| == |l.conn.accepted| + |l.conn.stray|
    && l.conn.consumed + l.conn.readBuffer == l.sock.got
  }

  lemma SendKeepsLink(l: Link, msg: seq<Byte>, cb: Option<Completion>, ret: SendResult, maxRead: nat, maxWrite: nat)
    requires Possible(ret, |msg|) && LinkOk(l, maxRead, maxWrite) && l.conn.status == Connected
    ensures LinkOk(SendOn(l, msg, cb, ret, maxWrite), maxRead, maxWrite)
  {
    hide Conserved;
    if !l.conn.skewed {
      SendConserves(l, msg, cb, ret, maxWrite);
    }
  }

  lemma SendConserves(l: Link, msg: seq<Byte>, cb: Option<Completion>, ret: SendResult, maxWrite: nat)
    requires Possible(ret, |msg|) && Conserved(l) && l.conn.stray == []
    ensures !SendOn(l, msg, cb, ret, maxWrite).conn.skewed ==> Conserved(SendOn(l, msg, cb, ret, maxWrite))
  {
    hide Conserved;
    if !SendOn(l, msg, cb, ret, maxWrite).conn.skewed {
      WholeSendConserves(l, msg, cb, ret, maxWrite);
    }
  }

  lemma FlushKeepsLink(l: Link, ret: SendResult, maxRead: nat, maxWrite: nat)
    requires Possible(ret, |l.conn.writeBuffer|) && LinkOk(l, maxRead, maxWrite) && l.sock.writeCb == OnSocketWrite
    ensures LinkOk(Flush(l, ret), maxRead, maxWrite)
  {
    if ret.Sent? {
      var w := l.conn.writeBuffer;
      assert w == w[..ret.n] + w[ret.n..];
      assert l.sock.wire + w[..ret.n] + w[ret.n..] == l.sock.wire + w;
    }
  }

  /** onSocketWrite calls the completion callback only when every byte accepted so far has left, so that closing in
      the callback loses nothing. */
  lemma CompletionMeansAllSent(l: Link, ret: SendResult, maxRead: nat, maxWrite: nat)
    requires Possible(ret, |l.conn.writeBuffer|) && LinkOk(l, maxRead, maxWrite) && l.sock.writeCb == OnSocketWrite
    requires FlushCompletes(l, ret).Some? && l.conn.status == Connected && !l.conn.skewed
    ensures Flush(l, ret).sock.wire == l.conn.accepted && Flush(l, ret).conn.writeBuffer == []
  {
    FlushKeepsLink(l, ret, maxRead, maxWrite);
    var r := Flush(l, ret);
    assert r.sock.wire + [] == r.sock.wire && l.conn.accepted + [] == l.conn.accepted;
  }

  /** The completion that sendMessage itself reports means the same exactly unless the message is empty and bytes of
      earlier messages wait in the buffer. */
  lemma DirectCompletionMeansAllSent(l: Link, msg: seq<Byte>, cb: Option<Completion>, ret: SendResult, max: nat)
    requires Possible(ret, |msg|) && Conserved(l) && l.conn.stray == []
    requires SendOutcome(l, |msg|, ret, max) == Complete
    ensures var r := SendOn(l, msg, cb, ret, max);
            r.sock.wire == r.conn.accepted <==> !(msg == [] && l.conn.writeBuffer != [])
  {
    var c, r := l.conn, SendOn(l, msg, cb, ret, max);
    assert c.accepted + c.stray == c.accepted;
    if c.writeBuffer == [] {
      assert l.sock.wire + c.writeBuffer == l.sock.wire;
      assert msg[..|msg|] == msg;
    } else {
      assert |l.sock.wire| + |c.writeBuffer| == |c.accepted|;
    }
  }

  /** Conservation holds for every message of a size exactly when the direct send takes none or all of it, or the
      message is refused. */
  lemma DirectSendExactly(l: Link, size: nat, cb: Option<Completion>, ret: SendResult, max: nat)
    requires Possible(ret, size) && Conserved(l) && l.conn.stray == []
    ensures (forall msg: seq<Byte> :: |msg| == size ==> Conserved(SendOn(l, msg, cb, ret, max)))
       <==> (SendOutcome(l, size, ret, max) != Buffered || Direct(l, size, ret) == 0)
  {
    if SendOutcome(l, size, ret, max) == Buffered && Direct(l, size, ret) > 0 {
      var msg := PartialSendSkews(l, size, cb, ret, max);
    } else {
      forall msg: seq<Byte> | |msg| == size ensures Conserved(SendOn(l, msg, cb, ret, max)) {
        WholeSendConserves(l, msg, cb, ret, max);
      }
    }
  }

  lemma PartialSendSkews(l: Link, size: nat, cb: Option<Completion>, ret: SendResult, max: nat) returns (msg: seq<Byte>)
    requires Possible(ret, size) && SendOutcome(l, size, ret, max) == Buffered && Direct(l, size, ret) > 0
    requires Conserved(l) && l.conn.stray == []
    ensures |msg| == size && !Conserved(SendOn(l, msg, cb, ret, max))
  {
    var n := Direct(l, size, ret);
    msg := [0] + seq(size - 1, i => 1);
    var c, r := l.conn, SendOn(l, msg, cb, ret, max);
    assert l.sock.wire + c.writeBuffer == l.sock.wire && c.accepted + c.stray == c.accepted;
    assert (r.sock.wire + r.conn.writeBuffer)[|l.sock.wire| + n] == r.conn.writeBuffer[0] == 0;
    assert (r.conn.accepted + r.conn.stray)[|l.sock.wire| + n] == msg[n] == 1;
  }

  /** A partial direct send that is buffered can happen to every message of two bytes or more. */
  lemma PartialSendHappens(l: Link, size: nat, max: nat)
    requires l.conn.writeBuffer == [] && size >= 2 && (max == 0 || size <= max)
    ensures Possible(Sent(1), size) && SendOutcome(l, size, Sent(1), max) == Buffered && Direct(l, size, Sent(1)) == 1
  {}

  lemma WholeSendConserves(l: Link, msg: seq<Byte>, cb: Option<Completion>, ret: SendResult, max: nat)
    requires Possible(ret, |msg|) && Conserved(l) && l.conn.stray == []
    requires SendOutcome(l, |msg|, ret, max) != Buffered || Direct(l, |msg|, ret) == 0
    ensures Conserved(SendOn(l, msg, cb, ret, max))
  {
    var n := Direct(l, |msg|, ret);
    var c, r := l.conn, SendOn(l, msg, cb, ret, max);
    assert msg[..|msg|] == msg && c.accepted + c.stray == c.accepted;
    if n > 0 {
      assert l.sock.wire + c.writeBuffer == l.sock.wire && r.sock.wire + r.conn.writeBuffer == r.sock.wire;
    }
    if SendOutcome(l, |msg|, ret, max) == Buffered {
      assert l.sock.wire + (c.writeBuffer + msg) == (l.sock.wire + c.writeBuffer) + msg;
    }
  }

  /** With the copy starting where the direct send stopped, conservation holds for every result. */
  lemma OffsetConserves(l: Link, msg: seq<Byte>, cb: Option<Completion>, ret: SendResult, max: nat)
    requires Possible(ret, |msg|) && Conserved(l) && l.conn.stray == []
    requires SendOutcome(l, |msg|, ret, max) == Buffered
    ensures var n, r := Direct(l, |msg|, ret), SendOn(l, msg, cb, ret, max);
            r.sock.wire + (l.conn.writeBuffer + msg[n..]) == r.conn.accepted
  {
    var n, c := Direct(l, |msg|, ret), l.conn;
    assert msg == msg[..n] + msg[n..];
    assert n > 0 ==> l.sock.wire + c.writeBuffer == l.sock.wire;
    assert l.sock.wire + msg[..n] + (c.writeBuffer + msg[n..]) == (l.sock.wire + c.writeBuffer) + msg;
    assert c.accepted + c.stray == c.accepted;
  }

  /** The loop never exceeds the limit, and after a full buffer nothing more is read. */
  lemma {:induction false} ReceiveLimit(buffer: seq<Byte>, arrivals: seq<Arrival>, maxRead: nat)
    requires maxRead > 0 ==> |buffer| <= maxRead
    requires forall i :: 0 <= i < |arrivals| ==> PossibleArrival(arrivals[i])
    ensures maxRead > 0 ==> |buffer| + |Received(buffer, arrivals, maxRead)| <= maxRead
    decreases |arrivals|
  {
    if arrivals != [] && !TooMuch(buffer, arrivals[0], maxRead) && arrivals[0].Data? {
      assert PossibleArrival(arrivals[0]);
      ReceiveLimit(buffer + arrivals[0].bytes, arrivals[1..], maxRead);
    }
  }

  lemma ReadKeepsLink(l: Link, arrivals: seq<Arrival>, maxRead: nat, maxWrite: nat)
    requires LinkOk(l, maxRead, maxWrite)
    requires forall i :: 0 <= i < |arrivals| ==> PossibleArrival(arrivals[i])
    ensures LinkOk(ReadOn(l, arrivals, maxRead), maxRead, maxWrite)
    ensures var r, e := ReadOn(l, arrivals, maxRead), LoopEnd(l.conn.readBuffer, arrivals, maxRead);
            r.conn.status == if e.Broken? then PendingError else l.conn.status
  {
    hide Received, LoopEnd;
    ReceiveLimit(l.conn.readBuffer, arrivals, maxRead);
    var c, bytes := l.conn, Received(l.conn.readBuffer, arrivals, maxRead);
    assert c.consumed + (c.readBuffer + bytes) == c.consumed + c.readBuffer + bytes;
  }

  lemma ConsumeKeepsLink(l: Link, n: nat, maxRead: nat, maxWrite: nat)
    requires LinkOk(l, maxRead, maxWrite) && n <= |l.conn.readBuffer|
    ensures LinkOk(ConsumeOn(l, n), maxRead, maxWrite)
  {
    var c := l.conn;
    assert c.readBuffer == c.readBuffer[..n] + c.readBuffer[n..];
    assert c.consumed + c.readBuffer[..n] + c.readBuffer[n..] == c.consumed + c.readBuffer;
  }

  lemma StatusKeepsLink(l: Link, error: int, maxRead: nat, maxWrite: nat)
    requires LinkOk(l, maxRead, maxWrite)
    ensures LinkOk(FailOn(l, error), maxRead, maxWrite) && LinkOk(TimeoutOn(l), maxRead, maxWrite)
    ensures LinkOk(PeerCloseOn(l), maxRead, maxWrite)
    ensures l.sock.writeCb == OnAsyncConnectSocketWrite && l.sock.open ==> LinkOk(ConnectOn(l), maxRead, maxWrite)
  {}

  lemma SendStatus(l: Link, msg: seq<Byte>, cb: Option<Completion>, ret: SendResult, max: nat)
    requires Possible(ret, |msg|) && l.conn.status == Connected
    ensures SendOn(l, msg, cb, ret, max).conn.status
         == if SendOutcome(l, |msg|, ret, max).Refused? then PendingError else Connected
  {}

  // ---------- the service ----------

  function At(s: Service, id: SocketId): (l: Link)
    requires id in s.connections && id in s.sockets
  {
    Link(s.connections[id], s.sockets[id])
  }

  function PutLink(s: Service, id: SocketId, l: Link): (r: Service) {
    s.(connections := s.connections[id := l.conn], sockets := s.sockets[id := l.sock])
  }

  /** The error callback is called. */
  function Report(s: Service, id: SocketId): (r: Service) {
    s.(reported := s.reported + {id})
  }

  /** A connection has its socket. */
  ghost predicate HasSocket(s: Service, id: SocketId) {
    id in s.connections ==> id in s.sockets
  }

  function AddSocketTimer(s: Service, id: SocketId, t: TimerId, kind: TimerKind): (r: Service) {
    s.(timers := s.timers[t := kind], socketToTimer := s.socketToTimer[id := t],
       timerToSocket := s.timerToSocket[t := id])
  }

  function RemoveSocketTimer(s: Service, id: SocketId): (r: Service) {
    if id !in s.socketToTimer then s
    else
      var t := s.socketToTimer[id];
      s.(socketToTimer := s.socketToTimer - {id}, timerToSocket := s.timerToSocket - {t}, timers := s.timers - {t})
  }

  function BuildListenSocket(s: Service, id: SocketId): (r: Service) {
    if id in s.sockets then s
    else s.(sockets := s.sockets[id := NewSock(OnListenSocketRead, NoWrite)], used := s.used + {id})
  }

  function BuildConnectedSocket(s: Service, id: SocketId): (r: Service) {
    if id in s.sockets || id in s.connections then s
    else s.(sockets := s.sockets[id := NewSock(OnSocketRead, NoWrite)],
            connections := s.connections[id := NewConn(Connected)], used := s.used + {id})
  }

  /** `timer` is None without a timeout. */
  function BuildAsyncConnectSocket(s: Service, id: SocketId, timer: Option<TimerId>): (r: Service) {
    if id in s.sockets || id in s.connections then s
    else
      var s1 := if timer.Some? then AddSocketTimer(s, id, timer.value, ConnectTimer) else s;
      s1.(sockets := s.sockets[id := NewSock(NoRead, OnAsyncConnectSocketWrite)],
          connections := s.connections[id := NewConn(Connecting)], used := s.used + {id})
  }

  function OnAsyncConnectWrite(s: Service, id: SocketId, socketError: int): (r: Service)
    requires HasSocket(s, id)
  {
    var s1 := RemoveSocketTimer(s, id);
    if id !in s.connections then s1
    else if socketError != 0 then PutLink(Report(s1, id), id, FailOn(At(s, id), socketError))
    else PutLink(s1, id, ConnectOn(At(s, id)))
  }

  /** A timer of the service fires; it leaves the IOService before its callback runs. */
  function FireTimer(s: Service, t: TimerId): (r: Service)
    requires t in s.timers
  {
    var s1 := s.(timers := s.timers - {t});
    match s.timers[t]
    case ConnectTimer => OnAsyncConnectTimeout(s1, t)
    case SendErrorTimer => OnSendMessageError(s1, t)
  }

  function DropTimer(s: Service, t: TimerId): (r: Service)
    requires t in s.timerToSocket
  {
    s.(timerToSocket := s.timerToSocket - {t}, socketToTimer := s.socketToTimer - {s.timerToSocket[t]})
  }

  function OnAsyncConnectTimeout(s: Service, t: TimerId): (r: Service) {
    if t !in s.timerToSocket then s
    else
      var id := s.timerToSocket[t];
      var s1 := DropTimer(s, t);
      if id !in s.sockets || id !in s.connections then s1
      else PutLink(Report(s1, id), id, TimeoutOn(At(s, id)))
  }

  function OnSendMessageError(s: Service, t: TimerId): (r: Service) {
    if t !in s.timerToSocket then s
    else
      var id := s.timerToSocket[t];
      var s1 := DropTimer(s, t);
      if id !in s.sockets || id !in s.connections then s1 else Report(s1, id)
  }

  /** onSocketRead up to the receive callback. */
  function OnRead(s: Service, id: SocketId, arrivals: seq<Arrival>): (r: Service)
    requires HasSocket(s, id)
  {
    if id !in s.connections then s
    else
      var broken := LoopEnd(s.connections[id].readBuffer, arrivals, s.maxRead).Broken?;
      PutLink(if broken then Report(s, id) else s, id, ReadOn(At(s, id), arrivals, s.maxRead))
  }

  /** onSocketRead after the receive callback, which may have closed the socket, when the peer has closed. */
  function OnPeerClose(s: Service, id: SocketId): (r: Service)
    requires HasSocket(s, id)
  {
    if id !in s.connections then s else PutLink(s, id, PeerCloseOn(At(s, id)))
  }

  function Consume(s: Service, id: SocketId, n: nat): (r: Service)
    requires HasSocket(s, id)
  {
    if id !in s.connections || n > |s.connections[id].readBuffer| then s
    else PutLink(s, id, ConsumeOn(At(s, id), n))
  }

  function OnWrite(s: Service, id: SocketId, ret: SendResult): (r: Service)
    requires HasSocket(s, id) && (id in s.connections ==> Possible(ret, |s.connections[id].writeBuffer|))
  {
    if id !in s.connections then s
    else PutLink(if ret.Failed? then Report(s, id) else s, id, Flush(At(s, id), ret))
  }

  function OnError(s: Service, id: SocketId, socketError: int, errno: int): (r: Service)
    requires HasSocket(s, id)
  {
    if id !in s.connections then s
    else PutLink(Report(s, id), id, FailOn(At(s, id), if socketError == 0 then errno else socketError))
  }

  /** sendMessage by id; t is the id of the timer that a refused message starts. */
  function SendMessage(s: Service, id: SocketId, msg: seq<Byte>, cb: Option<Completion>, ret: SendResult, t: TimerId)
      : (r: Service)
    requires Possible(ret, |msg|) && HasSocket(s, id)
  {
    if id !in s.connections || s.connections[id].status != Connected then s
    else
      var l := At(s, id);
      var s1 := PutLink(s, id, SendOn(l, msg, cb, ret, s.maxWrite));
      if SendOutcome(l, |msg|, ret, s.maxWrite).Refused? then AddSocketTimer(s1, id, t, SendErrorTimer) else s1
  }

  function CloseSocket(s: Service, id: SocketId): (r: Service) {
    s.(connections := s.connections - {id}, sockets := s.sockets - {id}, contexts := s.contexts - {id})
  }

  function SetContext(s: Service, id: SocketId, context: Context): (r: Service) {
    if id !in s.sockets then s else s.(contexts := s.contexts[id := context])
  }
}
