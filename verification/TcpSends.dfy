/** When sendMessage of src/brickred/tcp_service.cc accepts a message, when it completes, and what becomes of the
    accepted messages over whole runs. */
module TcpSends {
  import opened Options
  import opened Bytes
  import opened TcpSpec
  import opened TcpRuns

  // ---------- one call ----------

  /** The bytes that were accepted but have not left yet, and the bytes of this message that are left unsent. */
  function Backlog(l: Link): (n: int) { |l.conn.accepted| - |l.sock.wire| }

  function Unsent(before: Link, size: nat, after: Link): (n: int) { size - (|after.sock.wire| - |before.sock.wire|) }

  /** A call on a connected connection is refused exactly if the kernel failed with nothing waiting, or a limit is
      set, part of the message is left unsent, and all that would then wait exceeds the limit; any other message is
      accepted as a whole. */
  lemma RefusedExactly(l: Link, msg: seq<Byte>, cb: Option<Completion>, ret: SendResult, maxRead: nat, max: nat)
    requires Possible(ret, |msg|) && LinkOk(l, maxRead, max) && l.conn.status == Connected
    ensures var r := SendOn(l, msg, cb, ret, max);
            var refused := SendOutcome(l, |msg|, ret, max).Refused?;
            && (refused <==>
                  || (ret.Failed? && Backlog(l) == 0)
                  || (max > 0 && Unsent(l, |msg|, r) > 0 && |l.conn.accepted| + |msg| - |r.sock.wire| > max))
            && r.conn.status == (if refused then PendingError else Connected)
            && r.conn.accepted == l.conn.accepted + (if refused then [] else msg)
            && (refused ==> r.conn.error == if ret.Failed? && Backlog(l) == 0 then ret.errno else ENOBUFS)
  {
    hide Conserved;
    assert |l.conn.writeBuffer| == Backlog(l);
    assert l.conn.accepted + [] == l.conn.accepted;
  }

  /** The completion of a message that had to wait is called by the write that sends the last byte of all that was
      accepted, and by no other. */
  lemma CompletesExactly(l: Link, ret: SendResult, maxRead: nat, max: nat)
    requires LinkOk(l, maxRead, max) && l.conn.status == Connected && l.sock.writeCb == OnSocketWrite
    requires Possible(ret, |l.conn.writeBuffer|)
    ensures Backlog(l) > 0 && Backlog(Flush(l, ret)) == Backlog(l) - if ret.Sent? then ret.n else 0
    ensures FlushCompletes(l, ret) == if Backlog(Flush(l, ret)) == 0 then l.conn.sendComplete else None
    ensures Flush(l, ret).conn.sendComplete == if Backlog(Flush(l, ret)) == 0 then None else l.conn.sendComplete
  {
    hide Conserved;
  }

  /** Whatever was to be completed before, the completion that then comes is that of the last message. */
  lemma LastMessageCompletes(l: Link, msg: seq<Byte>, cb: Option<Completion>, ret: SendResult, maxRead: nat, max: nat)
    requires Possible(ret, |msg|) && LinkOk(l, maxRead, max) && l.conn.status == Connected
    requires SendOutcome(l, |msg|, ret, max) == Buffered
    ensures var r := SendOn(l, msg, cb, ret, max);
            FlushCompletes(r, Sent(Backlog(r))) == cb && Backlog(Flush(r, Sent(Backlog(r)))) == 0
  {
    SendKeepsLink(l, msg, cb, ret, maxRead, max);
    hide Conserved;
    var r := SendOn(l, msg, cb, ret, max);
    assert Backlog(r) == |r.conn.writeBuffer| > 0;
    CompletesExactly(r, Sent(Backlog(r)), maxRead, max);
  }

  // ---------- the receive loop ----------

  function AllData(arrivals: seq<Arrival>): (s: seq<Byte>) {
    if arrivals == [] then []
    else (if arrivals[0].Data? then arrivals[0].bytes else []) + AllData(arrivals[1..])
  }

  /** Data that the loop may take: before each recv what is announced fits below the limit. */
  ghost predicate Fits(waiting: nat, arrivals: seq<Arrival>, maxRead: nat) {
    forall i :: 0 <= i < |arrivals| ==>
      && arrivals[i].Data?
      && (maxRead > 0 ==> waiting + |AllData(arrivals[..i])| + ToRead(arrivals[i]) <= maxRead)
  }

  lemma FitsOn(waiting: nat, arrivals: seq<Arrival>, maxRead: nat)
    requires arrivals != [] && Fits(waiting, arrivals, maxRead)
    ensures arrivals[0].Data? && (maxRead > 0 ==> waiting + ToRead(arrivals[0]) <= maxRead)
    ensures Fits(waiting + |arrivals[0].bytes|, arrivals[1..], maxRead)
  {
    assert AllData(arrivals[..0]) == [];
    forall i | 0 <= i < |arrivals[1..]|
      ensures arrivals[1..][i].Data?
      ensures maxRead > 0 ==> waiting + |arrivals[0].bytes| + |AllData(arrivals[1..][..i])|
                                + ToRead(arrivals[1..][i]) <= maxRead
    {
      assert arrivals[1..][i] == arrivals[i + 1] && arrivals[..i + 1][1..] == arrivals[1..][..i];
    }
  }

  /** The loop takes all the data up to the first arrival that is something else or does not fit, in order, and this
      arrival alone decides how it ends: end of file and a full buffer close, nothing to read waits, an error breaks. */
  lemma {:induction false} ReadsInOrder(buffer: seq<Byte>, front: seq<Arrival>, last: Arrival, rest: seq<Arrival>,
                                        maxRead: nat)
    requires Fits(|buffer|, front, maxRead)
    requires !Fits(|buffer| + |AllData(front)|, [last], maxRead)
    ensures Received(buffer, front + [last] + rest, maxRead) == AllData(front)
    ensures LoopEnd(buffer, front + [last] + rest, maxRead)
            == if maxRead > 0 && |buffer| + |AllData(front)| + ToRead(last) > maxRead then Closed
               else match last
                    case Data(_, _) => Again
                    case NoData(_) => Again
                    case EndOfFile(_) => Closed
                    case RecvFailed(_, e) => Broken(e)
    decreases |front|
  {
    var all := front + [last] + rest;
    if front == [] {
      assert all[0] == last;
      LastStops(|buffer|, last, maxRead);
    } else {
      FitsOn(|buffer|, front, maxRead);
      assert all[0] == front[0] && all[1..] == front[1..] + [last] + rest;
      ReadsInOrder(buffer + front[0].bytes, front[1..], last, rest, maxRead);
    }
  }

  lemma LastStops(waiting: nat, last: Arrival, maxRead: nat)
    requires !Fits(waiting, [last], maxRead)
    ensures !last.Data? || (maxRead > 0 && waiting + ToRead(last) > maxRead)
  {
    assert [last][..0] == [] && AllData([]) == [];
  }

  /** When all the data fits and nothing else arrives, all of it is taken. */
  lemma {:induction false} ReadsAll(buffer: seq<Byte>, arrivals: seq<Arrival>, maxRead: nat)
    requires Fits(|buffer|, arrivals, maxRead)
    ensures Received(buffer, arrivals, maxRead) == AllData(arrivals) && LoopEnd(buffer, arrivals, maxRead) == Again
    decreases |arrivals|
  {
    if arrivals != [] {
      FitsOn(|buffer|, arrivals, maxRead);
      ReadsAll(buffer + arrivals[0].bytes, arrivals[1..], maxRead);
    }
  }

  // ---------- runs ----------

  /** A connection comes up exactly by the write event of its connect, without a socket error. */
  lemma ConnectsExactly(s: Service, e: Event, id: SocketId)
    requires Inv(s) && Enabled(s, e) && id in s.connections && s.connections[id].status != Connected
    ensures id in Apply(s, e).connections && Apply(s, e).connections[id].status == Connected <==>
            e == AsyncConnectWrite(id, 0)
  {
    hide LinkOk, LinksOk, Inverse, TimersFit, Received, LoopEnd, SendOn;
  }

  /** The error that an event carries for a connection. */
  function Cause(s: Service, e: Event, id: SocketId): (error: Option<int>)
    requires id in s.connections
  {
    match e
    case AsyncConnectWrite(i, socketError) => if i == id && socketError != 0 then Some(socketError) else None
    case Timer(t) =>
      if t in s.timers && s.timers[t] == ConnectTimer && t in s.timerToSocket && s.timerToSocket[t] == id
      then Some(ETIMEDOUT) else None
    case Read(i, arrivals) =>
      var end := LoopEnd(s.connections[id].readBuffer, arrivals, s.maxRead);
      if i == id && end.Broken? then Some(end.errno) else None
    case Write(i, ret) => if i == id && ret.Failed? then Some(ret.errno) else None
    case Error(i, socketError, errno) => if i != id then None else Some(if socketError == 0 then errno else socketError)
    case _ => None
  }

  ghost predicate NamesCause(s: Service, e: Event, id: SocketId)
    requires Inv(s) && Enabled(s, e) && id in s.connections && id in Apply(s, e).connections
  {
    var c, r, cause := s.connections[id], Apply(s, e).connections[id], Cause(s, e, id);
    && (cause.Some? ==> r.status == PendingError && r.error == cause.value)
    && (cause.None? ==> r.error == c.error && (r.status == PendingError ==> c.status == PendingError))
  }

  /** Apart from sendMessage (RefusedExactly), a connection fails exactly by an event that carries an error for it,
      with just that error; any other event leaves its error alone. */
  lemma ErrorsNameTheirCause(s: Service, e: Event, id: SocketId)
    requires Inv(s) && Enabled(s, e) && id in s.connections && id in Apply(s, e).connections && !e.Send?
    ensures NamesCause(s, e, id)
  {
    hide LinkOk, LinksOk, TimersFit, Received, LoopEnd, SendOn, NamesCause, Inverse, ReadOn, Flush;
    match e
    case Timer(t) => TimerNamesCause(s, t, id);
    case Read(i, arrivals) => ReadNamesCause(s, i, arrivals, id);
    case Write(i, ret) => WriteNamesCause(s, i, ret, id);
    case AsyncConnectWrite(i, error) => ConnectNamesCause(s, i, error, id);
    case _ => OtherNamesCause(s, e, id);
  }

  lemma TimerNamesCause(s: Service, t: TimerId, id: SocketId)
    requires Inv(s) && t in s.timers && id in s.connections && id in Apply(s, Timer(t)).connections
    ensures NamesCause(s, Timer(t), id)
  {
    hide LinkOk, LinksOk, TimersFit;
  }

  lemma ReadNamesCause(s: Service, i: SocketId, arrivals: seq<Arrival>, id: SocketId)
    requires Inv(s) && Enabled(s, Read(i, arrivals)) && id in s.connections
    requires id in Apply(s, Read(i, arrivals)).connections
    ensures NamesCause(s, Read(i, arrivals), id)
  {
    hide LinkOk, LinksOk, TimersFit, Received, LoopEnd, Inverse;
  }

  lemma WriteNamesCause(s: Service, i: SocketId, ret: SendResult, id: SocketId)
    requires Inv(s) && Enabled(s, Write(i, ret)) && id in s.connections && id in Apply(s, Write(i, ret)).connections
    ensures NamesCause(s, Write(i, ret), id)
  {
    hide LinkOk, LinksOk, TimersFit, Inverse;
  }

  lemma ConnectNamesCause(s: Service, i: SocketId, error: int, id: SocketId)
    requires Inv(s) && Enabled(s, AsyncConnectWrite(i, error)) && id in s.connections
    requires id in Apply(s, AsyncConnectWrite(i, error)).connections
    ensures NamesCause(s, AsyncConnectWrite(i, error), id)
  {
    hide LinkOk, LinksOk, TimersFit, Inverse;
  }

  lemma OtherNamesCause(s: Service, e: Event, id: SocketId)
    requires Inv(s) && Enabled(s, e) && id in s.connections && id in Apply(s, e).connections
    requires !e.Send? && !e.Timer? && !e.Read? && !e.Write? && !e.AsyncConnectWrite?
    ensures NamesCause(s, e, id)
  {
    hide LinkOk, LinksOk, TimersFit, Inverse, Received, LoopEnd, ReadOn, Flush, SendOn, FireTimer;
  }

  /** The event is no failure of the connection: the kernel reports no error for it, the peer does not close it, and
      neither does the application. */
  predicate Spares(e: Event, id: SocketId) {
    match e
    case Read(i, arrivals) => i == id ==> forall a :: a in arrivals ==> !a.RecvFailed?
    case PeerClose(i) => i != id
    case Write(i, ret) => i == id ==> !ret.Failed?
    case Error(i, _, _) => i != id
    case Send(i, _, _, ret, _) => i == id ==> !ret.Failed?
    case Close(i) => i != id
    case _ => true
  }

  predicate AllSpare(events: seq<Event>, id: SocketId) { forall e :: e in events ==> Spares(e, id) }

  /** The messages sent on a connection, one after the other. */
  function Messages(events: seq<Event>, id: SocketId): (s: seq<Byte>) {
    if events == [] then []
    else (if events[0].Send? && events[0].id == id then events[0].msg else []) + Messages(events[1..], id)
  }

  predicate IsUp(s: Service, id: SocketId) { id in s.connections && s.connections[id].status == Connected }

  /** Every sendMessage of the run on the connection is accepted. */
  ghost predicate AllAccepted(s: Service, events: seq<Event>, id: SocketId)
    requires Inv(s) && RunOk(s, events)
    decreases |events|
  {
    events == [] || (
      var e := events[0];
      && (e.Send? && e.id == id ==>
            IsUp(s, id) && !SendOutcome(At(s, id), |e.msg|, e.ret, s.maxWrite).Refused?)
      && (StepKeepsInv(s, e); AllAccepted(Apply(s, e), events[1..], id)))
  }

  lemma {:induction false} NotBroken(buffer: seq<Byte>, arrivals: seq<Arrival>, maxRead: nat)
    requires forall a :: a in arrivals ==> !a.RecvFailed?
    ensures !LoopEnd(buffer, arrivals, maxRead).Broken?
    decreases |arrivals|
  {
    if arrivals != [] && arrivals[0].Data? {
      NotBroken(buffer + arrivals[0].bytes, arrivals[1..], maxRead);
    }
  }

  /** The event is one of the four that change a connection that is up without ending it. */
  predicate Works(e: Event, id: SocketId) {
    match e
    case Read(i, _) => i == id
    case Consume(i, _) => i == id
    case Write(i, _) => i == id
    case Send(i, _, _, _, _) => i == id
    case _ => false
  }

  lemma OthersLeaveAlone(s: Service, e: Event, id: SocketId)
    requires Inv(s) && Enabled(s, e) && IsUp(s, id) && Spares(e, id) && !Works(e, id)
    ensures var r := Apply(s, e); id in r.connections && r.connections[id] == s.connections[id]
  {
    hide LinksOk, Inverse, TimersFit, Received, LoopEnd, SendOn, SendOutcome, Flush, ReadOn, LinkOk, Possible;
    if e.Timer? {
      TimersSpareConnected(s, e.t, id);
    } else if e.AsyncConnectWrite? && e.id == id {
      NotConnecting(s, id);
    }
  }

  lemma NotConnecting(s: Service, id: SocketId)
    requires Inv(s) && IsUp(s, id)
    ensures s.sockets[id].writeCb != OnAsyncConnectSocketWrite
  {
    assert LinkOk(At(s, id), s.maxRead, s.maxWrite);
  }

  lemma WorkKeepsUp(s: Service, e: Event, id: SocketId)
    requires Inv(s) && Enabled(s, e) && IsUp(s, id) && s.maxWrite == 0 && Spares(e, id) && Works(e, id)
    ensures var r := Apply(s, e);
            && IsUp(r, id)
            && r.connections[id].accepted == s.connections[id].accepted + if e.Send? then e.msg else []
    ensures e.Send? ==> !SendOutcome(At(s, id), |e.msg|, e.ret, s.maxWrite).Refused?
  {
    hide LinksOk, Inverse, TimersFit, Received, LoopEnd, LinkOk;
    var accepted := s.connections[id].accepted;
    assert accepted + [] == accepted;
    if e.Read? {
      NotBroken(s.connections[id].readBuffer, e.arrivals, s.maxRead);
    }
  }

  lemma ApplyKeepsLimits(s: Service, e: Event)
    requires Inv(s) && Enabled(s, e)
    ensures Apply(s, e).maxWrite == s.maxWrite && Apply(s, e).maxRead == s.maxRead
  {
    hide LinksOk, Inverse, TimersFit, Received, LoopEnd, LinkOk, SendOn, SendOutcome, Flush, ReadOn, Possible;
  }

  /** Over runs without a write limit and without a failure of the connection, every sendMessage is accepted, the
      connection stays up, and what it has accepted is all the messages in order. */
  lemma {:induction false} AllMessagesAccepted(s: Service, events: seq<Event>, id: SocketId)
    requires Inv(s) && RunOk(s, events) && IsUp(s, id) && s.maxWrite == 0 && AllSpare(events, id)
    ensures AllAccepted(s, events, id)
    ensures var r := Run(s, events);
            && IsUp(r, id) && r.maxWrite == 0
            && r.connections[id].accepted == s.connections[id].accepted + Messages(events, id)
    decreases |events|
  {
    hide Enabled, Agree, Inverse, TimersFit, LinksOk, Apply, SendOutcome;
    var before := s.connections[id].accepted;
    if events == [] {
      assert before + [] == before;
    } else {
      var e, rest := events[0], events[1..];
      assert e in events;
      StepKeepsInv(s, e);
      ApplyKeepsLimits(s, e);
      if Works(e, id) {
        WorkKeepsUp(s, e, id);
      } else {
        OthersLeaveAlone(s, e, id);
      }
      AllMessagesAccepted(Apply(s, e), rest, id);
      var own := if e.Send? && e.id == id then e.msg else [];
      assert before + own + Messages(rest, id) == before + (own + Messages(rest, id));
    }
  }

  /** From the moment it is accepted, a connection has sent, or holds in its write buffer, exactly the messages given to
      sendMessage, when each direct send takes all or nothing. */
  lemma MessagesGoOut(maxRead: nat, before: seq<Event>, id: SocketId, events: seq<Event>)
    requires RunOk(Initial(maxRead, 0), before + [Accept(id)] + events)
    requires AllSpare(events, id) && WholeSends(before + [Accept(id)] + events)
    ensures var r := Run(Initial(maxRead, 0), before + [Accept(id)] + events);
            && IsUp(r, id) && id in r.sockets
            && r.sockets[id].wire + r.connections[id].writeBuffer == Messages(events, id)
  {
    hide Agree, Inverse, TimersFit, LinksOk, Apply, Enabled, LinkOk, WholeSends, Messages, AllSpare;
    var s0, start := Initial(maxRead, 0), before + [Accept(id)];
    RunSplits(s0, start, events);
    RunSplits(s0, before, [Accept(id)]);
    var s1, s2 := Run(s0, before), Run(s0, start);
    AcceptOpens(s1, id);
    AllMessagesAccepted(s2, events, id);
    BytesConserved(maxRead, 0, start + events, id);
    assert [] + Messages(events, id) == Messages(events, id);
    RunKeepsInv(s0, start + events);
    UpHasSocket(Run(s0, start + events), id);
  }

  lemma UpHasSocket(s: Service, id: SocketId)
    requires Inv(s) && IsUp(s, id)
    ensures id in s.sockets
  {}

  lemma {:induction false} RunSplits(s: Service, first: seq<Event>, rest: seq<Event>)
    requires Inv(s) && RunOk(s, first + rest)
    ensures RunOk(s, first) && Inv(Run(s, first)) && RunOk(Run(s, first), rest)
    ensures Run(s, first + rest) == Run(Run(s, first), rest)
    ensures Run(s, first).maxWrite == s.maxWrite
    decreases |first|
  {
    hide Agree, Inverse, TimersFit, LinksOk, Apply, Enabled;
    if first == [] {
      assert first + rest == rest;
    } else {
      assert (first + rest)[0] == first[0] && (first + rest)[1..] == first[1..] + rest;
      StepKeepsInv(s, first[0]);
      ApplyKeepsLimits(s, first[0]);
      RunSplits(Apply(s, first[0]), first[1..], rest);
    }
  }

  lemma AcceptOpens(s: Service, id: SocketId)
    requires Inv(s) && RunOk(s, [Accept(id)])
    ensures var r := Run(s, [Accept(id)]); IsUp(r, id) && r.connections[id].accepted == []
  {
    hide Inverse, TimersFit, LinksOk;
    StepKeepsInv(s, Accept(id));
    assert [Accept(id)][1..] == [];
    assert Run(s, [Accept(id)]) == Run(Apply(s, Accept(id)), []);
  }
}
