/** All runs of src/brickred/tcp_service.cc: whatever events and calls follow one another, the five maps agree and
    no byte and no error is lost. Socket ids and timer ids are fresh when they are given out. */
module TcpRuns {
  import opened Options
  import opened Bytes
  import opened TcpSpec

  /** The calls that the application makes, also from inside callbacks, and the events of the loop. */
  datatype Event =
    | Listen(id: SocketId)
    | Accept(id: SocketId)
    | AsyncConnect(id: SocketId, timer: Option<TimerId>)
    | AsyncConnectWrite(id: SocketId, socketError: int)
    | Timer(t: TimerId)
    | Read(id: SocketId, arrivals: seq<Arrival>)
    | PeerClose(id: SocketId)
    | Consume(id: SocketId, n: nat)
    | Write(id: SocketId, ret: SendResult)
    | Error(id: SocketId, socketError: int, errno: int)
    | Send(id: SocketId, msg: seq<Byte>, cb: Option<Completion>, ret: SendResult, t: TimerId)
    | Close(id: SocketId)
    | SetContext(id: SocketId, context: Context)

  /** What the kernel and the IOService guarantee; calls of the application are always possible. */
  ghost predicate Enabled(s: Service, e: Event) {
    match e
    case Listen(id) => id !in s.used
    case Accept(id) => id !in s.used
    case AsyncConnect(id, timer) => id !in s.used && (timer.Some? ==> timer.value !in s.timers)
    case AsyncConnectWrite(id, _) =>
      id in s.sockets && s.sockets[id].open && s.sockets[id].writeCb == OnAsyncConnectSocketWrite
    case Timer(t) => t in s.timers
    case Read(id, arrivals) =>
      && id in s.sockets && s.sockets[id].open && s.sockets[id].readCb == OnSocketRead
      && forall i :: 0 <= i < |arrivals| ==> PossibleArrival(arrivals[i])
    case Write(id, ret) =>
      && id in s.sockets && s.sockets[id].open && s.sockets[id].writeCb == OnSocketWrite
      && (id in s.connections ==> Possible(ret, |s.connections[id].writeBuffer|))
    case Error(id, _, _) => id in s.sockets && s.sockets[id].open
    case Send(id, msg, _, ret, t) => Possible(ret, |msg|) && t !in s.timers
    case _ => true
  }

  ghost function Apply(s: Service, e: Event): (r: Service)
    requires Agree(s) && Enabled(s, e)
  {
    match e
    case Listen(id) => BuildListenSocket(s, id)
    case Accept(id) => BuildConnectedSocket(s, id)
    case AsyncConnect(id, timer) => BuildAsyncConnectSocket(s, id, timer)
    case AsyncConnectWrite(id, socketError) => OnAsyncConnectWrite(s, id, socketError)
    case Timer(t) => FireTimer(s, t)
    case Read(id, arrivals) => OnRead(s, id, arrivals)
    case PeerClose(id) => OnPeerClose(s, id)
    case Consume(id, n) => TcpSpec.Consume(s, id, n)
    case Write(id, ret) => OnWrite(s, id, ret)
    case Error(id, socketError, errno) => OnError(s, id, socketError, errno)
    case Send(id, msg, cb, ret, t) => SendMessage(s, id, msg, cb, ret, t)
    case Close(id) => CloseSocket(s, id)
    case SetContext(id, context) => TcpSpec.SetContext(s, id, context)
  }

  // ---------- the invariant ----------

  /** Connections and contexts belong to sockets. */
  ghost predicate Agree(s: Service) {
    s.connections.Keys <= s.sockets.Keys && s.contexts.Keys <= s.sockets.Keys && s.sockets.Keys <= s.used
  }

  /** The two timer maps are mutual inverses, and hold exactly the timers that run. */
  ghost predicate Inverse(s: Service) {
    && (forall id :: id in s.socketToTimer ==>
          s.socketToTimer[id] in s.timerToSocket && s.timerToSocket[s.socketToTimer[id]] == id)
    && (forall t :: t in s.timerToSocket ==>
          s.timerToSocket[t] in s.socketToTimer && s.socketToTimer[s.timerToSocket[t]] == t)
    && (forall t :: t in s.timerToSocket <==> t in s.timers)
    && s.socketToTimer.Keys <= s.used
  }

  /** A connected connection has no timer, and an error has been reported or a timer will report it. */
  ghost predicate TimersFit(s: Service) {
    forall id :: id in s.connections ==>
      && (s.connections[id].status == Connected ==> id !in s.socketToTimer)
      && (s.connections[id].status == PendingError ==> id in s.reported || id in s.socketToTimer)
  }

  ghost predicate LinksOk(s: Service)
    requires Agree(s)
  {
    forall id :: id in s.connections ==> LinkOk(Link(s.connections[id], s.sockets[id]), s.maxRead, s.maxWrite)
  }

  ghost predicate Inv(s: Service) {
    Agree(s) && Inverse(s) && TimersFit(s) && LinksOk(s)
  }

  ghost function Initial(maxRead: nat, maxWrite: nat): (s: Service)
    ensures Inv(s)
  {
    Service(maxRead, maxWrite, map[], map[], map[], map[], map[], map[], {}, {})
  }

  // ---------- the timer maps ----------

  /** addSocketTimer keeps the maps inverse exactly for a socket that has no timer. */
  lemma AddSocketTimerExactly(s: Service, id: SocketId, t: TimerId, kind: TimerKind)
    requires Inverse(s) && id in s.used && t !in s.timers
    ensures Inverse(AddSocketTimer(s, id, t, kind)) <==> id !in s.socketToTimer
  {
    var r := AddSocketTimer(s, id, t, kind);
    if id in s.socketToTimer {
      var before := s.socketToTimer[id];
      assert before in r.timerToSocket && r.timerToSocket[before] == id && r.socketToTimer[id] == t;
    }
  }

  lemma DropTimerKeeps(s: Service, t: TimerId)
    requires Inverse(s) && t in s.timers
    ensures var s1 := s.(timers := s.timers - {t});
            && t in s1.timerToSocket && Inverse(DropTimer(s1, t))
            && DropTimer(s1, t).socketToTimer == s.socketToTimer - {s.timerToSocket[t]}
  {}

  // ---------- every event keeps the invariant ----------

  lemma ListenKeeps(s: Service, id: SocketId)
    requires Inv(s) && id !in s.used
    ensures Inv(BuildListenSocket(s, id))
  {
    hide LinkOk;
  }

  lemma NewLinkOk(status: Status, readCb: ReadCallback, writeCb: WriteCallback, maxRead: nat, maxWrite: nat)
    requires writeCb != OnSocketWrite && (writeCb == OnAsyncConnectSocketWrite ==> status != Connected)
    ensures LinkOk(Link(NewConn(status), NewSock(readCb, writeCb)), maxRead, maxWrite)
  {}

  lemma AcceptKeeps(s: Service, id: SocketId)
    requires Inv(s) && id !in s.used
    ensures Inv(BuildConnectedSocket(s, id))
  {
    NewLinkOk(Connected, OnSocketRead, NoWrite, s.maxRead, s.maxWrite);
    hide LinkOk;
  }

  lemma AsyncConnectKeeps(s: Service, id: SocketId, timer: Option<TimerId>)
    requires Inv(s) && id !in s.used && (timer.Some? ==> timer.value !in s.timers)
    ensures Inv(BuildAsyncConnectSocket(s, id, timer))
  {
    NewLinkOk(Connecting, NoRead, OnAsyncConnectSocketWrite, s.maxRead, s.maxWrite);
    hide LinkOk;
    var s0 := s.(used := s.used + {id});
    if timer.Some? {
      AddSocketTimerExactly(s0, id, timer.value, ConnectTimer);
    }
  }

  /** Replacing one connection and its socket. */
  lemma PutLinkKeeps(s: Service, id: SocketId, l: Link)
    requires Agree(s) && Inverse(s) && TimersFitBut(s, id) && LinksOk(s)
    requires id in s.connections && LinkOk(l, s.maxRead, s.maxWrite)
    requires l.conn.status == Connected ==> id !in s.socketToTimer
    requires l.conn.status == PendingError ==> id in s.reported || id in s.socketToTimer
    ensures Inv(PutLink(s, id, l))
  {
    hide LinkOk;
  }

  ghost predicate TimersFitBut(s: Service, id: SocketId) {
    forall other :: other in s.connections && other != id ==>
      && (s.connections[other].status == Connected ==> other !in s.socketToTimer)
      && (s.connections[other].status == PendingError ==> other in s.reported || other in s.socketToTimer)
  }

  lemma InvGives(s: Service, id: SocketId)
    requires Inv(s) && id in s.connections
    ensures id in s.sockets && LinkOk(At(s, id), s.maxRead, s.maxWrite) && TimersFitBut(s, id)
  {}

  lemma ReportKeeps(s: Service, id: SocketId)
    requires Agree(s) && Inverse(s) && TimersFitBut(s, id) && LinksOk(s)
    ensures var r := Report(s, id);
            && Agree(r) && Inverse(r) && TimersFitBut(r, id) && LinksOk(r) && id in r.reported
            && r.connections == s.connections && r.sockets == s.sockets && r.socketToTimer == s.socketToTimer
            && r.maxRead == s.maxRead && r.maxWrite == s.maxWrite
  {
    hide LinkOk;
  }

  lemma RemoveSocketTimerKeeps(s: Service, id: SocketId)
    requires Inv(s)
    ensures var r := RemoveSocketTimer(s, id);
            && Agree(r) && Inverse(r) && TimersFitBut(r, id) && LinksOk(r) && id !in r.socketToTimer
            && r.connections == s.connections && r.sockets == s.sockets
            && r.maxRead == s.maxRead && r.maxWrite == s.maxWrite
            && (id !in s.connections ==> Inv(r))
  {
    hide LinkOk;
  }

  lemma AsyncConnectWriteKeeps(s: Service, id: SocketId, socketError: int)
    requires Inv(s) && Enabled(s, AsyncConnectWrite(id, socketError))
    ensures Inv(OnAsyncConnectWrite(s, id, socketError))
  {
    hide LinkOk, RemoveSocketTimer, Inverse, TimersFit, TimersFitBut, LinksOk, FailOn, ConnectOn, PutLink, Report;
    var s1 := RemoveSocketTimer(s, id);
    RemoveSocketTimerKeeps(s, id);
    if id in s.connections {
      InvGives(s, id);
      StatusKeepsLink(At(s, id), socketError, s.maxRead, s.maxWrite);
      Statuses(At(s, id), socketError);
      if socketError != 0 {
        ReportKeeps(s1, id);
        PutLinkKeeps(Report(s1, id), id, FailOn(At(s, id), socketError));
      } else {
        PutLinkKeeps(s1, id, ConnectOn(At(s, id)));
      }
    }
  }

  lemma Statuses(l: Link, error: int)
    ensures FailOn(l, error).conn.status == TimeoutOn(l).conn.status == PendingError
    ensures ConnectOn(l).conn.status == Connected && PeerCloseOn(l).conn.status == PeerClosed
  {}

  lemma TimerKeeps(s: Service, t: TimerId)
    requires Inv(s) && t in s.timers
    ensures Inv(FireTimer(s, t))
  {
    hide LinkOk, FailOn, TimeoutOn;
    var id := s.timerToSocket[t];
    var s1 := DropTimer(s.(timers := s.timers - {t}), t);
    DropTimerKeeps(s, t);
    assert TimersFitBut(s1, id) && Agree(s1) && LinksOk(s1);
    if id in s.connections {
      InvGives(s, id);
      StatusKeepsLink(At(s, id), 0, s.maxRead, s.maxWrite);
      Statuses(At(s, id), 0);
      ReportKeeps(s1, id);
      PutLinkKeeps(Report(s1, id), id, TimeoutOn(At(s, id)));
    }
  }

  lemma ReadKeeps(s: Service, id: SocketId, arrivals: seq<Arrival>)
    requires Inv(s) && Enabled(s, Read(id, arrivals))
    ensures Inv(OnRead(s, id, arrivals))
  {
    hide LinkOk, ReadOn, Received, LoopEnd, Inverse, TimersFitBut, LinksOk, PutLink, Report;
    if id in s.connections {
      InvGives(s, id);
      ReadKeepsLink(At(s, id), arrivals, s.maxRead, s.maxWrite);
      ReportKeeps(s, id);
      var broken := LoopEnd(s.connections[id].readBuffer, arrivals, s.maxRead).Broken?;
      PutLinkKeeps(if broken then Report(s, id) else s, id, ReadOn(At(s, id), arrivals, s.maxRead));
    }
  }

  lemma PeerCloseKeeps(s: Service, id: SocketId)
    requires Inv(s)
    ensures Inv(OnPeerClose(s, id))
  {
    hide LinkOk, Inverse, TimersFit, TimersFitBut, LinksOk, PeerCloseOn, PutLink;
    if id in s.connections {
      InvGives(s, id);
      StatusKeepsLink(At(s, id), 0, s.maxRead, s.maxWrite);
      Statuses(At(s, id), 0);
      PutLinkKeeps(s, id, PeerCloseOn(At(s, id)));
    }
  }

  lemma ConsumeKeeps(s: Service, id: SocketId, n: nat)
    requires Inv(s)
    ensures Inv(TcpSpec.Consume(s, id, n))
  {
    hide LinkOk, Inverse, TimersFitBut, LinksOk, PutLink;
    if id in s.connections && n <= |s.connections[id].readBuffer| {
      InvGives(s, id);
      ConsumeKeepsLink(At(s, id), n, s.maxRead, s.maxWrite);
      PutLinkKeeps(s, id, ConsumeOn(At(s, id), n));
    }
  }

  lemma WriteKeeps(s: Service, id: SocketId, ret: SendResult)
    requires Inv(s) && Enabled(s, Write(id, ret))
    ensures Inv(OnWrite(s, id, ret))
  {
    hide LinkOk, Inverse, TimersFitBut, LinksOk, PutLink, Report;
    if id in s.connections {
      InvGives(s, id);
      FlushKeepsLink(At(s, id), ret, s.maxRead, s.maxWrite);
      ReportKeeps(s, id);
      PutLinkKeeps(if ret.Failed? then Report(s, id) else s, id, Flush(At(s, id), ret));
    }
  }

  lemma ErrorKeeps(s: Service, id: SocketId, socketError: int, errno: int)
    requires Inv(s)
    ensures Inv(OnError(s, id, socketError, errno))
  {
    hide LinkOk, Inverse, TimersFit, TimersFitBut, LinksOk, FailOn, PutLink, Report;
    if id in s.connections {
      var error := if socketError == 0 then errno else socketError;
      InvGives(s, id);
      StatusKeepsLink(At(s, id), error, s.maxRead, s.maxWrite);
      Statuses(At(s, id), error);
      ReportKeeps(s, id);
      PutLinkKeeps(Report(s, id), id, FailOn(At(s, id), error));
    }
  }

  lemma SendKeeps(s: Service, id: SocketId, msg: seq<Byte>, cb: Option<Completion>, ret: SendResult, t: TimerId)
    requires Inv(s) && Possible(ret, |msg|) && t !in s.timers
    ensures Inv(SendMessage(s, id, msg, cb, ret, t))
  {
    hide LinkOk, SendOn, SendOutcome, Inverse, TimersFitBut, LinksOk, PutLink, AddSocketTimer;
    if id in s.connections && s.connections[id].status == Connected {
      var l := At(s, id);
      var r := SendOn(l, msg, cb, ret, s.maxWrite);
      InvGives(s, id);
      SendKeepsLink(l, msg, cb, ret, s.maxRead, s.maxWrite);
      SendStatus(l, msg, cb, ret, s.maxWrite);
      if SendOutcome(l, |msg|, ret, s.maxWrite).Refused? {
        AddTimerKeeps(s, id, t, r);
      } else {
        PutLinkKeeps(s, id, r);
      }
    }
  }

  /** A refused message: the timer that will report the error is started. */
  lemma AddTimerKeeps(s: Service, id: SocketId, t: TimerId, l: Link)
    requires Inv(s) && id in s.connections && id !in s.socketToTimer && t !in s.timers
    requires LinkOk(l, s.maxRead, s.maxWrite) && l.conn.status == PendingError
    ensures Inv(AddSocketTimer(PutLink(s, id, l), id, t, SendErrorTimer))
  {
    hide LinkOk;
    var s1 := AddSocketTimer(s, id, t, SendErrorTimer);
    AddSocketTimerExactly(s, id, t, SendErrorTimer);
    assert TimersFitBut(s1, id);
    PutLinkKeeps(s1, id, l);
  }

  lemma CloseKeeps(s: Service, id: SocketId)
    requires Inv(s)
    ensures Inv(CloseSocket(s, id))
  {
    hide LinkOk;
  }

  lemma StepKeepsInv(s: Service, e: Event)
    requires Inv(s) && Enabled(s, e)
    ensures Inv(Apply(s, e))
  {
    hide Inverse, TimersFit, LinksOk;
    match e
    case Listen(id) => ListenKeeps(s, id);
    case Accept(id) => AcceptKeeps(s, id);
    case AsyncConnect(id, timer) => AsyncConnectKeeps(s, id, timer);
    case AsyncConnectWrite(id, socketError) => AsyncConnectWriteKeeps(s, id, socketError);
    case Timer(t) => TimerKeeps(s, t);
    case Read(id, arrivals) => ReadKeeps(s, id, arrivals);
    case PeerClose(id) => PeerCloseKeeps(s, id);
    case Consume(id, n) => ConsumeKeeps(s, id, n);
    case Write(id, ret) => WriteKeeps(s, id, ret);
    case Error(id, socketError, errno) => ErrorKeeps(s, id, socketError, errno);
    case Send(id, msg, cb, ret, t) => SendKeeps(s, id, msg, cb, ret, t);
    case Close(id) => CloseKeeps(s, id);
    case SetContext(id, context) => SetContextKeeps(s, id, context);
  }

  lemma SetContextKeeps(s: Service, id: SocketId, context: Context)
    requires Inv(s)
    ensures Inv(TcpSpec.SetContext(s, id, context))
  {
    hide LinkOk;
  }

  // ---------- runs ----------

  ghost predicate RunOk(s: Service, events: seq<Event>)
    requires Inv(s)
    decreases |events|
  {
    events == [] || (Enabled(s, events[0]) && (StepKeepsInv(s, events[0]); RunOk(Apply(s, events[0]), events[1..])))
  }

  ghost function Run(s: Service, events: seq<Event>): (r: Service)
    requires Inv(s) && RunOk(s, events)
    decreases |events|
  {
    if events == [] then s else StepKeepsInv(s, events[0]); Run(Apply(s, events[0]), events[1..])
  }

  lemma {:induction false} RunKeepsInv(s: Service, events: seq<Event>)
    requires Inv(s) && RunOk(s, events)
    ensures Inv(Run(s, events))
    decreases |events|
  {
    hide Enabled, Agree, Inverse, TimersFit, LinksOk, Apply;
    if events != [] {
      StepKeepsInv(s, events[0]);
      RunKeepsInv(Apply(s, events[0]), events[1..]);
    }
  }

  /** The direct send takes the whole message or nothing. */
  ghost predicate WholeSends(events: seq<Event>) {
    forall e :: e in events && e.Send? && e.ret.Sent? ==> e.ret.n in {0, |e.msg|}
  }

  ghost predicate NoneSkewed(s: Service) {
    forall id :: id in s.connections ==> !s.connections[id].skewed
  }

  lemma WholeSendDoesNotSkew(s: Service, e: Event)
    requires Inv(s) && Enabled(s, e) && NoneSkewed(s) && WholeSends([e])
    ensures NoneSkewed(Apply(s, e))
  {
    hide LinkOk, LinksOk, Inverse, TimersFit, Received, LoopEnd;
    assert e in [e];
  }

  lemma {:induction false} WholeSendsDoNotSkew(s: Service, events: seq<Event>)
    requires Inv(s) && RunOk(s, events) && NoneSkewed(s) && WholeSends(events)
    ensures NoneSkewed(Run(s, events))
    decreases |events|
  {
    hide Enabled, Agree, Inverse, TimersFit, LinksOk, Apply, NoneSkewed;
    if events != [] {
      StepKeepsInv(s, events[0]);
      assert events[0] in events;
      WholeSendDoesNotSkew(s, events[0]);
      WholeSendsDoNotSkew(Apply(s, events[0]), events[1..]);
    }
  }

  /** After every run the five maps agree. */
  lemma MapsAgree(maxRead: nat, maxWrite: nat, events: seq<Event>)
    requires RunOk(Initial(maxRead, maxWrite), events)
    ensures var s := Run(Initial(maxRead, maxWrite), events);
            && s.connections.Keys <= s.sockets.Keys && s.contexts.Keys <= s.sockets.Keys
            && (forall id :: id in s.socketToTimer ==>
                  s.socketToTimer[id] in s.timerToSocket && s.timerToSocket[s.socketToTimer[id]] == id)
            && (forall t :: t in s.timerToSocket ==>
                  s.timerToSocket[t] in s.socketToTimer && s.socketToTimer[s.timerToSocket[t]] == t)
            && (forall id :: id in s.connections && s.connections[id].status == Connected ==> id !in s.socketToTimer)
  {
    RunKeepsInv(Initial(maxRead, maxWrite), events);
  }

  /** After every run in which each direct send takes all or nothing, every connected connection has sent, or holds
      in its write buffer, exactly the messages accepted; the buffers respect their limits, and waiting bytes imply
      that the loop will call onSocketWrite. */
  lemma BytesConserved(maxRead: nat, maxWrite: nat, events: seq<Event>, id: SocketId)
    requires RunOk(Initial(maxRead, maxWrite), events)
    requires WholeSends(events)
    ensures var s := Run(Initial(maxRead, maxWrite), events);
            id in s.connections ==> id in s.sockets && Sound(At(s, id), s.maxRead, s.maxWrite)
  {
    RunKeepsInv(Initial(maxRead, maxWrite), events);
    WholeSendsDoNotSkew(Initial(maxRead, maxWrite), events);
    var s := Run(Initial(maxRead, maxWrite), events);
    if id in s.connections {
      var l := At(s, id);
      assert LinkOk(l, s.maxRead, s.maxWrite);
      assert l.conn.accepted + [] == l.conn.accepted;
    }
  }

  ghost predicate Sound(l: Link, maxRead: nat, maxWrite: nat) {
    && (l.conn.status == Connected ==> l.sock.wire + l.conn.writeBuffer == l.conn.accepted)
    && l.conn.consumed + l.conn.readBuffer == l.sock.got
    && (l.conn.writeBuffer != [] <==> l.sock.writeCb == OnSocketWrite)
    && (maxWrite > 0 ==> |l.conn.writeBuffer| <= maxWrite)
    && (maxRead > 0 ==> |l.conn.readBuffer| <= maxRead)
  }

  /** No timer touches a connected connection, so that a connect timeout never closes an established one. */
  lemma TimersSpareConnected(s: Service, t: TimerId, id: SocketId)
    requires Inv(s) && t in s.timers && id in s.connections && s.connections[id].status == Connected
    ensures var r := FireTimer(s, t);
            id in r.connections && r.connections[id] == s.connections[id] && r.sockets[id] == s.sockets[id]
  {
    hide LinksOk;
  }

  /** No error is lost: it has been reported, or its timer runs and reports it. */
  lemma ErrorsAreReported(s: Service, id: SocketId)
    requires Inv(s) && id in s.connections && s.connections[id].status == PendingError && id !in s.reported
    ensures id in s.socketToTimer && s.socketToTimer[id] in s.timers
    ensures id in FireTimer(s, s.socketToTimer[id]).reported
  {
    hide LinksOk;
    assert Inverse(s) && id in s.socketToTimer;
    var t := s.socketToTimer[id];
    assert t in s.timerToSocket;
    assert t in s.timers;
  }

  /** A closed socket never comes back, whatever timers it left behind. */
  lemma {:induction false} ClosedStaysClosed(s: Service, events: seq<Event>, id: SocketId)
    requires Inv(s) && RunOk(s, events) && id in s.used && id !in s.sockets
    ensures id !in Run(s, events).sockets && id !in Run(s, events).connections && id !in Run(s, events).contexts
    decreases |events|
  {
    if events == [] {
      assert Agree(s);
    } else {
      StepKeepsInv(s, events[0]);
      StepKeepsClosed(s, events[0], id);
      hide Enabled, Agree, Inverse, TimersFit, LinksOk, Apply;
      ClosedStaysClosed(Apply(s, events[0]), events[1..], id);
    }
  }

  lemma StepKeepsClosed(s: Service, e: Event, id: SocketId)
    requires Inv(s) && Enabled(s, e) && id in s.used && id !in s.sockets
    ensures id !in Apply(s, e).sockets && id in Apply(s, e).used
  {
    hide LinkOk, LinksOk, Inverse, TimersFit, Received, LoopEnd, SendOn, Flush, ReadOn;
  }
}
