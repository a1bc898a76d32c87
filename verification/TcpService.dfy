/** The objects of src/brickred/tcp_service.cc: sockets, connections that point at their sockets, and the maps. Every
    method is proved to do what TcpSpec says. */
module TcpServices {
  import opened Options
  import opened Bytes
  import opened TcpSpec

  class TcpSocket {
    const id: SocketId
    var readCb: ReadCallback
    var writeCb: WriteCallback
    var open: bool
    ghost var wire: seq<Byte>
    ghost var got: seq<Byte>

    constructor (id: SocketId, readCb: ReadCallback, writeCb: WriteCallback)
      ensures this.id == id && Val() == NewSock(readCb, writeCb)
    {
      this.id, this.readCb, this.writeCb, open := id, readCb, writeCb, true;
      wire, got := [], [];
    }

    ghost function Val(): (k: Sock)
      reads this
    {
      Sock(readCb, writeCb, open, wire, got)
    }
  }

  class TcpConnection {
    const socket: TcpSocket
    var status: Status
    var error: int
    var readBuffer: seq<Byte>
    var writeBuffer: seq<Byte>
    var sendComplete: Option<Completion>
    ghost var accepted: seq<Byte>
    ghost var stray: seq<Byte>
    ghost var skewed: bool
    ghost var consumed: seq<Byte>

    constructor (socket: TcpSocket, status: Status)
      ensures this.socket == socket && Val() == NewConn(status)
    {
      this.socket, this.status, error := socket, status, 0;
      readBuffer, writeBuffer, sendComplete := [], [], None;
      accepted, stray, skewed, consumed := [], [], false, [];
    }

    ghost function Val(): (c: Conn)
      reads this
    {
      Conn(status, error, readBuffer, writeBuffer, sendComplete, accepted, stray, skewed, consumed)
    }

    ghost function Both(): (l: Link)
      reads this, socket
    {
      Link(Val(), socket.Val())
    }

    method SetError(error: int)
      modifies this
      ensures Val() == old(Val()).(status := PendingError, error := error)
      ensures Both() == FailOn(old(Both()), error)
    {
      status, this.error := PendingError, error;
    }

    method SetConnected()
      modifies this`status, socket`readCb, socket`writeCb
      ensures Both() == ConnectOn(old(Both()))
    {
      socket.readCb := ReadCallback.OnSocketRead;
      socket.writeCb := NoWrite;
      status := Connected;
    }

    /** The loop of onSocketRead. */
    method Receive(arrivals: seq<Arrival>, maxRead: nat) returns (end: ReadEnd, dataArrive: bool)
      requires forall i :: 0 <= i < |arrivals| ==> PossibleArrival(arrivals[i])
      modifies this`readBuffer, socket`got
      ensures var bytes := Received(old(readBuffer), arrivals, maxRead);
              && readBuffer == old(readBuffer) + bytes && socket.got == old(socket.got) + bytes
              && (dataArrive <==> bytes != [])
      ensures end == LoopEnd(old(readBuffer), arrivals, maxRead)
    {
      hide TooMuch;
      ghost var got := [];
      dataArrive, end := false, Again;
      for i := 0 to |arrivals|
        invariant readBuffer == old(readBuffer) + got && socket.got == old(socket.got) + got
        invariant dataArrive <==> got != []
        invariant end == Again
        invariant Received(old(readBuffer), arrivals, maxRead) == got + Received(readBuffer, arrivals[i..], maxRead)
        invariant LoopEnd(old(readBuffer), arrivals, maxRead) == LoopEnd(readBuffer, arrivals[i..], maxRead)
      {
        var a := arrivals[i];
        assert arrivals[i..][0] == a && arrivals[i..][1..] == arrivals[i + 1..];
        if TooMuch(readBuffer, a, maxRead) {
          end := Closed;
          break;
        }
        match a {
          case Data(_, bytes) =>
            assert PossibleArrival(a);
            readBuffer := readBuffer + bytes;
            socket.got := socket.got + bytes;
            dataArrive, got := true, got + bytes;
          case NoData(_) => break;
          case EndOfFile(_) => end := Closed; break;
          case RecvFailed(_, e) => end := Broken(e); break;
        }
      }
    }

    /** sendMessage on a connected connection, without the timer that a refused message starts. */
    method Send(msg: seq<Byte>, cb: Option<Completion>, ret: SendResult, maxWrite: nat) returns (outcome: Outcome)
      requires Possible(ret, |msg|)
      modifies this, socket
      ensures Both() == SendOn(old(Both()), msg, cb, ret, maxWrite)
      ensures outcome == SendOutcome(old(Both()), |msg|, ret, maxWrite)
    {
      hide Direct;
      var remain, failed := SendDirectly(msg, ret);
      ghost var sent := msg[..|msg| - remain];
      if failed.Some? {
        SetError(failed.value);
        stray := stray + sent;
        return Refused(failed.value);
      }
      if remain > 0 {
        if maxWrite > 0 && remain + |writeBuffer| > maxWrite {
          SetError(ENOBUFS);
          stray := stray + sent;
          return Refused(ENOBUFS);
        }
        Keep(msg, remain, cb);
        outcome := Buffered;
      } else {
        accepted := accepted + msg;
        outcome := Complete;
      }
    }

    /** What is left is copied into the write buffer and the loop is asked to write. */
    method Keep(msg: seq<Byte>, remain: nat, cb: Option<Completion>)
      requires remain <= |msg|
      modifies this, socket`writeCb
      ensures Val() == old(Val()).(writeBuffer := old(writeBuffer) + msg[..remain], sendComplete := cb,
                                   accepted := old(accepted) + msg, skewed := old(skewed) || remain < |msg|)
      ensures socket.Val() == old(socket.Val()).(writeCb := OnSocketWrite)
    {
      writeBuffer := writeBuffer + msg[..remain];
      sendComplete := cb;
      socket.writeCb := OnSocketWrite;
      accepted, skewed := accepted + msg, skewed || remain < |msg|;
    }

    /** The attempt to send at once, which is made only with an empty write buffer. */
    method SendDirectly(msg: seq<Byte>, ret: SendResult) returns (remain: nat, failed: Option<int>)
      requires Possible(ret, |msg|)
      modifies socket`wire
      ensures remain == |msg| - Direct(old(Both()), |msg|, ret) && Val() == old(Val())
      ensures socket.Val() == old(socket.Val()).(wire := old(socket.wire) + msg[..|msg| - remain])
      ensures failed == if old(writeBuffer) == [] && ret.Failed? then Some(ret.errno) else None
    {
      remain, failed := |msg|, None;
      if writeBuffer == [] {
        match ret {
          case Failed(e) => failed := Some(e);
          case WouldBlock =>
          case Sent(n) => remain := remain - n;
        }
      }
      socket.wire := socket.wire + msg[..|msg| - remain];
    }

    /** onSocketWrite: what completes is returned. */
    method Drain(ret: SendResult) returns (completed: Option<Completion>)
      requires Possible(ret, |writeBuffer|)
      modifies this, socket
      ensures Both() == Flush(old(Both()), ret) && completed == FlushCompletes(old(Both()), ret)
    {
      completed := None;
      match ret {
        case Failed(e) => SetError(e);
        case WouldBlock =>
        case Sent(n) =>
          socket.wire := socket.wire + writeBuffer[..n];
          writeBuffer := writeBuffer[n..];
          if writeBuffer == [] {
            socket.writeCb := NoWrite;
            completed := sendComplete;
            sendComplete := None;
          }
      }
    }
  }

  class TcpService {
    const maxRead: nat
    const maxWrite: nat
    var sockets: map<SocketId, TcpSocket>
    var connections: map<SocketId, TcpConnection>
    var contexts: map<SocketId, Context>
    var socketToTimer: map<SocketId, TimerId>
    var timerToSocket: map<TimerId, SocketId>
    var timers: map<TimerId, TimerKind>
    ghost var used: set<SocketId>
    ghost var reported: set<SocketId>

    /** Every socket knows its id, and each connection points at its own socket. */
    ghost predicate Valid()
      reads this`sockets, this`connections
    {
      && (forall id :: id in sockets ==> sockets[id].id == id)
      && (forall id :: id in connections ==> id in sockets && connections[id].socket == sockets[id])
    }

    ghost function Socks(): (m: map<SocketId, Sock>)
      reads this`sockets, sockets.Values
      ensures m.Keys == sockets.Keys
    {
      map id | id in sockets :: sockets[id].Val()
    }

    ghost function Conns(): (m: map<SocketId, Conn>)
      reads this`connections, connections.Values
      ensures m.Keys == connections.Keys
    {
      map id | id in connections :: connections[id].Val()
    }

    ghost function State(): (s: Service)
      reads this, sockets.Values, connections.Values
    {
      Service(maxRead, maxWrite, Socks(), Conns(), contexts, socketToTimer, timerToSocket, timers, used, reported)
    }

    constructor (maxRead: nat, maxWrite: nat)
      ensures Valid()
      ensures State() == Service(maxRead, maxWrite, map[], map[], map[], map[], map[], map[], {}, {})
    {
      this.maxRead, this.maxWrite := maxRead, maxWrite;
      sockets, connections, contexts := map[], map[], map[];
      socketToTimer, timerToSocket, timers := map[], map[], map[];
      used, reported := {}, {};
    }

    method AddSocketTimer(id: SocketId, t: TimerId, kind: TimerKind)
      modifies this`timers, this`socketToTimer, this`timerToSocket
      ensures State() == TcpSpec.AddSocketTimer(old(State()), id, t, kind)
    {
      hide Socks, Conns;
      timers := timers[t := kind];
      socketToTimer := socketToTimer[id := t];
      timerToSocket := timerToSocket[t := id];
    }

    method RemoveSocketTimer(id: SocketId)
      modifies this`timers, this`socketToTimer, this`timerToSocket
      ensures State() == TcpSpec.RemoveSocketTimer(old(State()), id)
    {
      hide Socks, Conns;
      if id !in socketToTimer {
        return;
      }
      var t := socketToTimer[id];
      socketToTimer := socketToTimer - {id};
      timerToSocket := timerToSocket - {t};
      timers := timers - {t};
    }

    /** buildListenSocket; -1 when the id is in use. */
    method BuildListenSocket(id: SocketId) returns (r: SocketId)
      requires Valid()
      modifies this
      ensures Valid() && State() == TcpSpec.BuildListenSocket(old(State()), id)
      ensures r == if id in old(sockets) then -1 else id
    {
      hide Socks, Conns;
      if id in sockets {
        return -1;
      }
      var socket := InsertSocket(id, OnListenSocketRead, NoWrite);
      r := id;
    }

    method BuildConnectedSocket(id: SocketId) returns (r: SocketId)
      requires Valid()
      modifies this
      ensures Valid() && State() == TcpSpec.BuildConnectedSocket(old(State()), id)
      ensures r == if id in old(sockets) then -1 else id
    {
      hide Socks, Conns;
      if id in sockets || id in connections {
        return -1;
      }
      r := Build(id, ReadCallback.OnSocketRead, NoWrite, Connected);
    }

    /** The end of both ways to build a connection. */
    method Build(id: SocketId, readCb: ReadCallback, writeCb: WriteCallback, status: Status) returns (r: SocketId)
      requires Valid() && id !in sockets && id !in connections
      modifies this`sockets, this`connections, this`used
      ensures Valid() && r == id
      ensures var s := old(State());
              State() == s.(sockets := s.sockets[id := NewSock(readCb, writeCb)],
                            connections := s.connections[id := NewConn(status)], used := s.used + {id})
    {
      hide Socks, Conns;
      var socket := InsertSocket(id, readCb, writeCb);
      InsertConnection(socket, status);
      r := id;
    }

    method InsertSocket(id: SocketId, readCb: ReadCallback, writeCb: WriteCallback) returns (socket: TcpSocket)
      requires Valid() && id !in sockets
      modifies this`sockets, this`used
      ensures Valid() && fresh(socket) && sockets == old(sockets)[id := socket] && socket.id == id
      ensures State() == old(State()).(sockets := old(Socks())[id := NewSock(readCb, writeCb)],
                                       used := old(used) + {id})
    {
      hide Socks, Conns;
      socket := new TcpSocket(id, readCb, writeCb);
      RegisterSocket(socket);
    }

    method RegisterSocket(socket: TcpSocket)
      requires Valid() && socket.id !in sockets
      modifies this`sockets, this`used
      ensures Valid() && sockets == old(sockets)[socket.id := socket]
      ensures State() == old(State()).(sockets := old(Socks())[socket.id := socket.Val()],
                                       used := old(used) + {socket.id})
    {
      hide Socks, Conns, TcpSocket.Val;
      StillConnected(socket);
      sockets := sockets[socket.id := socket];
      used := used + {socket.id};
      OneSocketAdded(socket.id);
    }

    lemma StillConnected(socket: TcpSocket)
      requires Valid() && socket.id !in sockets
      ensures var more := sockets[socket.id := socket];
              && (forall id :: id in more ==> more[id].id == id)
              && (forall id :: id in connections ==> id in more && connections[id].socket == more[id])
    {}

    method InsertConnection(socket: TcpSocket, status: Status)
      requires Valid() && socket.id in sockets && sockets[socket.id] == socket && socket.id !in connections
      modifies this`connections
      ensures Valid() && State() == old(State()).(connections := old(Conns())[socket.id := NewConn(status)])
    {
      hide Socks, Conns;
      var connection := new TcpConnection(socket, status);
      RegisterConnection(connection);
    }

    method RegisterConnection(connection: TcpConnection)
      requires Valid() && connection.socket.id !in connections
      requires connection.socket.id in sockets && sockets[connection.socket.id] == connection.socket
      modifies this`connections
      ensures Valid()
      ensures State() == old(State()).(connections := old(Conns())[connection.socket.id := connection.Val()])
    {
      hide Socks, Conns, TcpConnection.Val;
      connections := connections[connection.socket.id := connection];
      OneConnectionAdded(connection.socket.id);
    }

    method BuildAsyncConnectSocket(id: SocketId, timer: Option<TimerId>) returns (r: SocketId)
      requires Valid()
      modifies this
      ensures Valid() && State() == TcpSpec.BuildAsyncConnectSocket(old(State()), id, timer)
      ensures r == if id in old(sockets) then -1 else id
    {
      hide Socks, Conns;
      if id in sockets || id in connections {
        return -1;
      }
      if timer.Some? {
        AddSocketTimer(id, timer.value, ConnectTimer);
      }
      r := Build(id, NoRead, WriteCallback.OnAsyncConnectSocketWrite, Connecting);
    }

    /** What a method that changes one connection and its socket has done to the maps. */
    twostate lemma OneChanged(id: SocketId)
      requires old(Valid()) && Valid() && sockets == old(sockets) && connections == old(connections)
      requires id in connections
      requires forall other :: other in sockets && other != id ==> sockets[other].Val() == old(sockets[other].Val())
      requires forall other :: other in connections && other != id ==>
                 connections[other].Val() == old(connections[other].Val())
      ensures Conns() == old(Conns())[id := connections[id].Val()]
      ensures Socks() == old(Socks())[id := sockets[id].Val()]
      ensures connections[id].Both() == At(State(), id) && old(connections[id].Both()) == At(old(State()), id)
    {
      OneSocketChanged(id);
      OneConnectionChanged(id);
      ConnectionAt(id);
      hide TcpConnection.Val, TcpSocket.Val;
    }

    twostate lemma OneConnectionChanged(id: SocketId)
      requires connections == old(connections) && id in connections
      requires forall other :: other in connections && other != id ==>
                 connections[other].Val() == old(connections[other].Val())
      ensures Conns() == old(Conns())[id := connections[id].Val()]
    {
      hide TcpConnection.Val;
      forall other | other in connections ensures Conns()[other] == old(Conns())[id := connections[id].Val()][other] {
        assert other != id ==> old(Conns())[other] == old(connections[other].Val());
      }
    }

    twostate lemma OneSocketChanged(id: SocketId)
      requires sockets == old(sockets) && id in sockets
      requires forall other :: other in sockets && other != id ==> sockets[other].Val() == old(sockets[other].Val())
      ensures Socks() == old(Socks())[id := sockets[id].Val()]
    {
      hide TcpSocket.Val;
      forall other | other in sockets ensures Socks()[other] == old(Socks())[id := sockets[id].Val()][other] {
        assert other != id ==> old(Socks())[other] == old(sockets[other].Val());
      }
    }

    lemma ConnectionAt(id: SocketId)
      requires id in connections
      ensures Conns()[id] == connections[id].Val()
    {}

    twostate lemma OneSocketAdded(id: SocketId)
      requires id in sockets && id !in old(sockets) && sockets == old(sockets)[id := sockets[id]]
      requires forall other :: other in old(sockets) ==> sockets[other].Val() == old(sockets[other].Val())
      ensures Socks() == old(Socks())[id := sockets[id].Val()]
    {
      forall other | other in sockets ensures Socks()[other] == old(Socks())[id := sockets[id].Val()][other] {
        assert other != id ==> old(Socks())[other] == old(sockets[other].Val());
      }
    }

    twostate lemma OneConnectionAdded(id: SocketId)
      requires id in connections && id !in old(connections) && connections == old(connections)[id := connections[id]]
      requires forall other :: other in old(connections) ==> connections[other].Val() == old(connections[other].Val())
      ensures Conns() == old(Conns())[id := connections[id].Val()]
    {
      forall other | other in connections ensures Conns()[other] == old(Conns())[id := connections[id].Val()][other] {
        assert other != id ==> old(Conns())[other] == old(connections[other].Val());
      }
    }

    twostate lemma OneGone(id: SocketId)
      requires sockets == old(sockets) - {id} && connections == old(connections) - {id}
      requires forall other :: other in sockets ==> sockets[other].Val() == old(sockets[other].Val())
      requires forall other :: other in connections ==> connections[other].Val() == old(connections[other].Val())
      ensures Socks() == old(Socks()) - {id} && Conns() == old(Conns()) - {id}
    {
      forall other | other in sockets ensures Socks()[other] == old(Socks())[other] {
        assert old(Socks())[other] == old(sockets[other].Val());
      }
      forall other | other in connections ensures Conns()[other] == old(Conns())[other] {
        assert old(Conns())[other] == old(connections[other].Val());
      }
    }

    method OnAsyncConnectSocketWrite(socket: TcpSocket, socketError: int)
      requires Valid() && socket.id in sockets && sockets[socket.id] == socket
      modifies this, connections.Values, socket
      ensures Valid() && State() == OnAsyncConnectWrite(old(State()), socket.id, socketError)
    {
      hide Socks, Conns, FailOn, ConnectOn;
      var id := socket.id;
      RemoveSocketTimer(id);
      if id !in connections {
        return;
      }
      var connection := connections[id];
      if socketError != 0 {
        connection.SetError(socketError);
        reported := reported + {id};
      } else {
        connection.SetConnected();
      }
      OneChanged(id);
    }

    /** The timer callbacks; the IOService has taken the timer, which fires once, from its heap. */
    method FireTimer(t: TimerId)
      requires Valid() && t in timers
      modifies this, connections.Values, sockets.Values
      ensures Valid() && State() == TcpSpec.FireTimer(old(State()), t)
    {
      hide Socks, Conns, TimeoutOn;
      var kind := timers[t];
      timers := timers - {t};
      match kind {
        case ConnectTimer => OnAsyncConnectTimeout(t);
        case SendErrorTimer => OnSendMessageError(t);
      }
    }

    method OnAsyncConnectTimeout(t: TimerId)
      requires Valid()
      modifies this, connections.Values, sockets.Values
      ensures Valid() && State() == TcpSpec.OnAsyncConnectTimeout(old(State()), t)
    {
      hide Socks, Conns;
      if t !in timerToSocket {
        return;
      }
      var id := timerToSocket[t];
      timerToSocket := timerToSocket - {t};
      socketToTimer := socketToTimer - {id};
      if id !in sockets || id !in connections {
        return;
      }
      sockets[id].open := false;
      connections[id].SetError(ETIMEDOUT);
      reported := reported + {id};
      OneChanged(id);
    }

    method OnSendMessageError(t: TimerId)
      requires Valid()
      modifies this
      ensures Valid() && State() == TcpSpec.OnSendMessageError(old(State()), t)
    {
      hide Socks, Conns;
      if t !in timerToSocket {
        return;
      }
      var id := timerToSocket[t];
      timerToSocket := timerToSocket - {t};
      socketToTimer := socketToTimer - {id};
      if id !in sockets || id !in connections {
        return;
      }
      reported := reported + {id};
    }

    /** onSocketRead up to the receive callback, which is called when data has arrived and recv has not failed. */
    method OnSocketRead(socket: TcpSocket, arrivals: seq<Arrival>) returns (deliver: bool, peerClose: bool)
      requires Valid() && socket.id in sockets && sockets[socket.id] == socket
      requires forall i :: 0 <= i < |arrivals| ==> PossibleArrival(arrivals[i])
      modifies this`reported, connections.Values, socket
      ensures Valid() && State() == OnRead(old(State()), socket.id, arrivals)
      ensures socket.id in connections ==>
                var buffer := old(connections[socket.id].readBuffer);
                && (deliver <==>
                      Received(buffer, arrivals, maxRead) != [] && !LoopEnd(buffer, arrivals, maxRead).Broken?)
                && (peerClose <==> LoopEnd(buffer, arrivals, maxRead) == Closed)
    {
      hide Socks, Conns, Received, LoopEnd;
      deliver, peerClose := false, false;
      var id := socket.id;
      if id !in connections {
        return;
      }
      var connection := connections[id];
      var end;
      end, deliver := connection.Receive(arrivals, maxRead);
      match end {
        case Broken(e) =>
          deliver := false;
          connection.SetError(e);
          reported := reported + {id};
        case Closed => peerClose := true;
        case Again =>
      }
      OneChanged(id);
    }

    /** The end of onSocketRead. */
    method PeerClosed(id: SocketId)
      requires Valid()
      modifies connections.Values
      ensures Valid() && State() == OnPeerClose(old(State()), id)
    {
      hide Socks, Conns;
      if id !in connections {
        return;
      }
      connections[id].status := Status.PeerClosed;
      OneChanged(id);
    }

    method OnSocketWrite(socket: TcpSocket, ret: SendResult) returns (completed: Option<Completion>)
      requires Valid() && socket.id in sockets && sockets[socket.id] == socket
      requires socket.id in connections ==> Possible(ret, |connections[socket.id].writeBuffer|)
      modifies this`reported, connections.Values, socket
      ensures Valid() && State() == OnWrite(old(State()), socket.id, ret)
      ensures completed ==
              if socket.id in old(connections) then FlushCompletes(At(old(State()), socket.id), ret) else None
    {
      hide Socks, Conns, Flush, FlushCompletes;
      var id := socket.id;
      if id !in connections {
        return None;
      }
      completed := connections[id].Drain(ret);
      if ret.Failed? {
        reported := reported + {id};
      }
      OneChanged(id);
    }

    method OnSocketError(socket: TcpSocket, socketError: int, errno: int)
      requires Valid() && socket.id in sockets && sockets[socket.id] == socket
      modifies this`reported, connections.Values
      ensures Valid() && State() == OnError(old(State()), socket.id, socketError, errno)
    {
      hide Socks, Conns;
      var id := socket.id;
      if id !in connections {
        return;
      }
      connections[id].SetError(if socketError == 0 then errno else socketError);
      reported := reported + {id};
      OneChanged(id);
    }

    method IsConnected(id: SocketId) returns (r: bool)
      requires Valid()
      ensures r <==> id in State().connections && State().connections[id].status == Connected
    {
      r := id in connections && connections[id].status == Connected;
    }

    /** sendMessage: completed is the callback that is called at once. */
    method SendMessage(id: SocketId, msg: seq<Byte>, cb: Option<Completion>, ret: SendResult, t: TimerId)
        returns (ok: bool, completed: Option<Completion>)
      requires Valid() && Possible(ret, |msg|)
      modifies this, connections.Values, sockets.Values
      ensures Valid() && State() == TcpSpec.SendMessage(old(State()), id, msg, cb, ret, t)
      ensures ok <==> id in old(State()).connections && old(State()).connections[id].status == Connected
                      && !SendOutcome(At(old(State()), id), |msg|, ret, maxWrite).Refused?
      ensures completed.Some? ==> ok && completed == cb
      ensures ok && cb.Some? ==>
                (completed.Some? <==> SendOutcome(At(old(State()), id), |msg|, ret, maxWrite) == Complete)
    {
      hide Socks, Conns, SendOutcome, PutLink, TcpSpec.AddSocketTimer, SendOn;
      if id !in connections {
        return false, None;
      }
      ConnectionAt(id);
      if connections[id].status != Connected {
        return false, None;
      }
      ok, completed := SendConnected(id, msg, cb, ret, t);
    }

    /** The overload for a connection, past its status check. */
    method SendConnected(id: SocketId, msg: seq<Byte>, cb: Option<Completion>, ret: SendResult, t: TimerId)
        returns (ok: bool, completed: Option<Completion>)
      requires Valid() && Possible(ret, |msg|) && id in connections && connections[id].status == Connected
      modifies this, connections.Values, sockets.Values
      ensures Valid() && State() == TcpSpec.SendMessage(old(State()), id, msg, cb, ret, t)
      ensures ok <==> !SendOutcome(At(old(State()), id), |msg|, ret, maxWrite).Refused?
      ensures completed == if SendOutcome(At(old(State()), id), |msg|, ret, maxWrite) == Complete then cb else None
    {
      hide Socks, Conns, SendOn, SendOutcome;
      ConnectionAt(id);
      var outcome := connections[id].Send(msg, cb, ret, maxWrite);
      OneChanged(id);
      ok := !outcome.Refused?;
      if outcome.Refused? {
        AddSocketTimer(id, t, SendErrorTimer);
      }
      completed := if outcome == Complete then cb else None;
    }

    method CloseSocket(id: SocketId)
      requires Valid()
      modifies this
      ensures Valid() && State() == TcpSpec.CloseSocket(old(State()), id)
    {
      hide Socks, Conns;
      connections := connections - {id};
      sockets := sockets - {id};
      contexts := contexts - {id};
      OneGone(id);
    }

    method SetContext(id: SocketId, context: Context) returns (ok: bool)
      requires Valid()
      modifies this`contexts
      ensures Valid() && State() == TcpSpec.SetContext(old(State()), id, context) && (ok <==> id in old(sockets))
    {
      hide Socks, Conns;
      if id !in sockets {
        return false;
      }
      contexts := contexts[id := context];
      ok := true;
    }
  }
}
