/** Properties of whole runs of the WebSocket protocol: what one side ever sends, and what the other side makes of
    it however the bytes are cut. */
module WebSocketRuns {
  import opened Bytes
  import opened WebSocketFrame
  import opened WebSocketSpec

  // ---------- frames as the senders write them ----------

  datatype Frame = Data(key: seq<Byte>, payload: seq<Byte>) | Ping | Pong | Close

  predicate FrameOk(f: Frame) { f.Data? ==> |f.key| == 4 && |f.payload| < SIZE_LIMIT }

  function Opcode(f: Frame): (n: nat)
    ensures n < 16
  {
    match f
    case Data(_, _) => OP_BINARY
    case Ping => OP_PING
    case Pong => OP_PONG
    case Close => OP_CLOSE
  }

  function Payload(f: Frame): (s: seq<Byte>) { if f.Data? then f.payload else [] }

  function WireOf(isClient: bool, f: Frame): (s: seq<Byte>)
    requires FrameOk(f)
    ensures |s| >= 2
  {
    Wire(isClient, true, Opcode(f), if f.Data? then f.key else ZeroKey(), Payload(f))
  }

  predicate FramesOk(fs: seq<Frame>) { forall i :: 0 <= i < |fs| ==> FrameOk(fs[i]) }

  /** A close frame can only be the last one. */
  predicate CloseIsLast(fs: seq<Frame>) {
    forall i :: 0 <= i < |fs| - 1 ==> !fs[i].Close?
  }

  function Outputs(isClient: bool, fs: seq<Frame>): (out: seq<Output>)
    requires FramesOk(fs)
    ensures |out| == |fs|
  {
    seq(|fs|, i requires 0 <= i < |fs| => FrameBytes(WireOf(isClient, fs[i])))
  }

  function Payloads(fs: seq<Frame>): (ps: seq<seq<Byte>>) {
    if fs == [] then []
    else Payloads(fs[..|fs| - 1]) + if fs[|fs| - 1].Data? then [fs[|fs| - 1].payload] else []
  }

  // ---------- output traces ----------

  /** A call into the protocol object. */
  datatype Call =
    | CallSetHeader(key: seq<Byte>, value: seq<Byte>)
    | CallStartServer
    | CallStartClient(uri: seq<Byte>, random: seq<Byte>, host: seq<Byte>, order: seq<seq<Byte>>)
    | CallRecv(buffer: seq<Byte>, env: Env)
    | CallRetrieve
    | CallSend(mask: seq<Byte>, payload: seq<Byte>)
    | CallSendClose
    | CallSendPing

  predicate CallOk(st: State, c: Call) {
    match c
    case CallStartClient(_, random, host, order) =>
      forall k :: k in order ==> k in RequestHeaders(ClientHeaders(st.headers, random, host))
    case CallRecv(_, env) => EnvOk(st, env)
    case CallSend(mask, payload) => |mask| == 4 && |payload| < SIZE_LIMIT
    case _ => true
  }

  function Step(st: State, c: Call): (r: State)
    requires WellFormed(st) && CallOk(st, c)
    ensures WellFormed(r)
  {
    match c
    case CallSetHeader(key, value) => SetHandshakeHeader(st, key, value)
    case CallStartServer => StartAsServer(st)
    case CallStartClient(uri, random, host, order) => StartAsClient(st, uri, random, host, order)
    case CallRecv(buffer, env) => Recv(st, buffer, env).st
    case CallRetrieve => Retrieve(st).0
    case CallSend(mask, payload) => SendMessage(st, mask, payload)
    case CallSendClose => SendCloseFrame(st)
    case CallSendPing => SendPingFrame(st)
  }

  predicate RunOk(st: State, calls: seq<Call>)
    requires WellFormed(st)
    decreases |calls|
  {
    calls == [] || (CallOk(st, calls[0]) && RunOk(Step(st, calls[0]), calls[1..]))
  }

  function Run(st: State, calls: seq<Call>): (r: State)
    requires WellFormed(st) && RunOk(st, calls)
    ensures WellFormed(r)
    decreases |calls|
  {
    if calls == [] then st else Run(Step(st, calls[0]), calls[1..])
  }

  /** The message that a call makes the object send: sendMessage while connected and before the close frame. */
  function AcceptedBy(st: State, c: Call): (ms: seq<seq<Byte>>) {
    if c.CallSend? && MaySend(st) then [c.payload] else []
  }

  /** The messages accepted in a run. */
  function Accepted(st: State, calls: seq<Call>): (ms: seq<seq<Byte>>)
    requires WellFormed(st) && RunOk(st, calls)
    decreases |calls|
  {
    if calls == [] then [] else AcceptedBy(st, calls[0]) + Accepted(Step(st, calls[0]), calls[1..])
  }

  /** The frames that a call makes the object send, once it is connected and before its close frame: what the
      application asks for, and for what recvMessage reports, a pong for a ping and a close frame for a close. */
  function FramesBy(st: State, c: Call): (fs: seq<Frame>)
    requires WellFormed(st) && CallOk(st, c)
  {
    if !MaySend(st) then []
    else
      match c
      case CallSend(mask, payload) => [Data(mask, payload)]
      case CallSendPing => [Ping]
      case CallSendClose => [Close]
      case CallRecv(buffer, env) => ReplyTo(Recv(st, buffer, env).code)
      case _ => []
  }

  function ReplyTo(code: RetCode): (fs: seq<Frame>) {
    match code
    case PingFrame => [Pong]
    case PeerClosed => [Close]
    case _ => []
  }

  function AllFramesBy(st: State, calls: seq<Call>): (fs: seq<Frame>)
    requires WellFormed(st) && RunOk(st, calls)
    decreases |calls|
  {
    if calls == [] then [] else FramesBy(st, calls[0]) + AllFramesBy(Step(st, calls[0]), calls[1..])
  }

  predicate BeforeConnection(s: Status) {
    s.Detached? || s.WaitingHandshakeRequest? || s.WaitingHandshakeResponse?
  }

  /** The output so far is at most one handshake text followed by frames; there are frames only after the
      handshake; a close frame was sent exactly if it is the last frame. */
  ghost predicate Trace(st: State, shake: seq<Output>, fs: seq<Frame>) {
    && FramesOk(fs) && st.out == shake + Outputs(st.isClient, fs)
    && |shake| <= 1 && (shake != [] ==> shake[0].HandshakeText?)
    && (fs != [] ==> |shake| == 1)
    && CloseIsLast(fs) && (st.closeFrameSent <==> fs != [] && fs[|fs| - 1].Close?)
    && (BeforeConnection(st.status) ==> fs == [])
    && (st.status.Detached? || st.status.WaitingHandshakeRequest? ==> shake == [])
    && (st.status.WaitingHandshakeResponse? || st.status.Connected? || st.status.Finished? || st.status.Closed?
        ==> |shake| == 1)
  }

  lemma PayloadsAppend(fs: seq<Frame>, f: Frame)
    ensures Payloads(fs + [f]) == Payloads(fs) + if f.Data? then [f.payload] else []
  {
    assert (fs + [f])[..|fs|] == fs;
  }

  /** Sending one more frame. */
  lemma TraceEmit(st: State, shake: seq<Output>, fs: seq<Frame>, f: Frame)
    requires Trace(st, shake, fs) && FrameOk(f) && MaySend(st)
    ensures Payloads(fs + [f]) == Payloads(fs) + if f.Data? then [f.payload] else []
    ensures Trace(Emit(st, FrameBytes(WireOf(st.isClient, f))).(closeFrameSent := f.Close?), shake, fs + [f])
  {
    hide WireOf;
    PayloadsAppend(fs, f);
    assert Outputs(st.isClient, fs + [f]) == Outputs(st.isClient, fs) + [FrameBytes(WireOf(st.isClient, f))];
  }

  lemma ControlIsWire(isClient: bool)
    ensures ControlFrame(isClient, OP_CLOSE) == WireOf(isClient, Close)
    ensures ControlFrame(isClient, OP_PING) == WireOf(isClient, Ping)
    ensures ControlFrame(isClient, OP_PONG) == WireOf(isClient, Pong)
  {}

  lemma TraceHandshake(st: State, shake: seq<Output>, buf: seq<Byte>, env: Env) returns (shake': seq<Output>)
    requires WellFormed(st) && EnvOk(st, env) && Trace(st, shake, [])
    requires st.status.WaitingHandshakeRequest? || st.status.WaitingHandshakeResponse?
    ensures Trace(Recv(st, buf, env).st, shake', [])
  {
    hide ReadHandshakeRequest, ReadHandshakeResponse;
    assert Outputs(st.isClient, []) == [];
    shake' := Recv(st, buf, env).st.out;
    assert shake' + [] == shake';
  }

  /** What recvMessage returns for the outcome of a frame. */
  function ReportOf(o: Outcome): (code: RetCode) {
    if o.ret == 0 then WaitingMoreData else if o.ret == -1 then Error else if o.ret == 2 then o.code
    else if o.st.status.Finished? then MessageReady else PeerClosed
  }

  /** The answer that the opcode of a final frame calls for. */
  function AnswerTo(fin: bool, op: int): (fs: seq<Frame>) {
    if fin && op == OP_CLOSE then [Close] else if fin && op == OP_PING then [Pong] else []
  }

  lemma ReplyIsAnswer(st: State, fin: bool, opcode: nat, payload: seq<Byte>, rest: seq<Byte>)
    requires st.status.Connected?
    ensures ReplyTo(ReportOf(ApplyFrame(st, fin, opcode, payload, rest)))
            == AnswerTo(fin, if opcode == OP_CONTINUATION then st.lastOpCode else opcode)
  {
    hide ControlFrame;
  }

  lemma TraceApply(st: State, shake: seq<Output>, fs: seq<Frame>, fin: bool, opcode: nat, payload: seq<Byte>,
                   rest: seq<Byte>) returns (fs': seq<Frame>)
    requires Trace(st, shake, fs) && st.status.Connected?
    ensures Trace(ApplyFrame(st, fin, opcode, payload, rest).st, shake, fs') && Payloads(fs') == Payloads(fs)
    ensures fs' == fs + if MaySend(st) then ReplyTo(ReportOf(ApplyFrame(st, fin, opcode, payload, rest))) else []
  {
    hide Payloads, Wire, ControlFrame, WireOf, Outputs, ReplyTo, ReportOf;
    ControlIsWire(st.isClient);
    ReplyIsAnswer(st, fin, opcode, payload, rest);
    fs' := fs;
    var op := if opcode == OP_CONTINUATION then st.lastOpCode else opcode;
    if fin && MaySend(st) && op == OP_CLOSE {
      TraceEmit(st, shake, fs, Close);
      fs' := fs + [Close];
    } else if fin && MaySend(st) && op == OP_PING {
      TraceEmit(st, shake, fs, Pong);
      fs' := fs + [Pong];
    }
  }

  lemma TraceFrame(st: State, shake: seq<Output>, fs: seq<Frame>, buf: seq<Byte>, env: Env) returns (fs': seq<Frame>)
    requires WellFormed(st) && EnvOk(st, env) && Trace(st, shake, fs) && st.status.Connected?
    ensures Trace(Recv(st, buf, env).st, shake, fs') && Payloads(fs') == Payloads(fs)
    ensures fs' == fs + if MaySend(st) then ReplyTo(Recv(st, buf, env).code) else []
  {
    hide Payloads, ParseFrame, ApplyFrame;
    fs' := fs;
    var p := ParseFrame(st.isClient, buf);
    if p.Whole? {
      fs' := TraceApply(st, shake, fs, p.fin, p.opcode, p.payload, buf[p.size..]);
    }
  }

  lemma TraceStep(st: State, c: Call, shake: seq<Output>, fs: seq<Frame>)
    returns (shake': seq<Output>, fs': seq<Frame>)
    requires WellFormed(st) && CallOk(st, c) && Trace(st, shake, fs)
    ensures Trace(Step(st, c), shake', fs') && Payloads(fs') == Payloads(fs) + AcceptedBy(st, c)
    ensures fs' == fs + FramesBy(st, c)
  {
    hide Payloads, Trace, Recv, SendMessage, SendCloseFrame, SendPingFrame, StartAsClient, StartAsServer, Retrieve;
    shake', fs' := shake, fs;
    match c {
      case CallRecv(buffer, env) => shake', fs' := TraceRecv(st, shake, fs, buffer, env);
      case CallSend(_, _) => fs' := TraceSend(st, c, shake, fs);
      case CallSendClose => fs' := TraceSend(st, c, shake, fs);
      case CallSendPing => fs' := TraceSend(st, c, shake, fs);
      case _ => shake' := TraceOther(st, c, shake, fs);
    }
  }

  lemma TraceRecv(st: State, shake: seq<Output>, fs: seq<Frame>, buffer: seq<Byte>, env: Env)
    returns (shake': seq<Output>, fs': seq<Frame>)
    requires WellFormed(st) && EnvOk(st, env) && Trace(st, shake, fs)
    ensures Trace(Recv(st, buffer, env).st, shake', fs') && Payloads(fs') == Payloads(fs)
    ensures fs' == fs + if MaySend(st) then ReplyTo(Recv(st, buffer, env).code) else []
  {
    hide Payloads, ReadFrame, ReadHandshakeRequest, ReadHandshakeResponse, ReplyTo;
    shake', fs' := shake, fs;
    if st.status.Connected? {
      fs' := TraceFrame(st, shake, fs, buffer, env);
    } else if HasHandler(st.status) {
      shake' := TraceHandshake(st, shake, buffer, env);
    }
  }

  /** The calls that neither receive nor send a frame. */
  lemma TraceOther(st: State, c: Call, shake: seq<Output>, fs: seq<Frame>) returns (shake': seq<Output>)
    requires WellFormed(st) && CallOk(st, c) && Trace(st, shake, fs)
    requires c.CallSetHeader? || c.CallStartServer? || c.CallStartClient? || c.CallRetrieve?
    ensures Trace(Step(st, c), shake', fs)
  {
    hide RequestMessage, ClientHeaders, RequestHeaders;
    shake' := shake;
    if c.CallStartServer? {
      assert Outputs(st.isClient, fs) == if st.status.Detached? then Outputs(false, fs) else Outputs(st.isClient, fs);
    } else if c.CallStartClient? && st.status.Detached? {
      shake' := Step(st, c).out;
      assert shake' + Outputs(true, []) == shake';
    }
  }

  lemma TraceSend(st: State, c: Call, shake: seq<Output>, fs: seq<Frame>) returns (fs': seq<Frame>)
    requires WellFormed(st) && CallOk(st, c) && Trace(st, shake, fs)
    requires c.CallSend? || c.CallSendClose? || c.CallSendPing?
    ensures Trace(Step(st, c), shake, fs') && Payloads(fs') == Payloads(fs) + AcceptedBy(st, c)
    ensures fs' == fs + FramesBy(st, c)
  {
    hide Payloads;
    ControlIsWire(st.isClient);
    fs' := fs;
    if MaySend(st) {
      var f := match c case CallSend(mask, payload) => Data(mask, payload) case CallSendClose => Close case _ => Ping;
      TraceEmit(st, shake, fs, f);
      fs' := fs + [f];
    }
  }

  /** In every run of a fresh protocol object the output is a handshake text followed by frames of which at most
      the last is a close frame (section 5.5.1 of RFC 6455). */
  lemma {:induction false} RunTrace(st: State, calls: seq<Call>, shake: seq<Output>, fs: seq<Frame>)
    returns (shake': seq<Output>, fs': seq<Frame>)
    requires WellFormed(st) && RunOk(st, calls) && Trace(st, shake, fs)
    ensures Trace(Run(st, calls), shake', fs') && Payloads(fs') == Payloads(fs) + Accepted(st, calls)
    ensures fs' == fs + AllFramesBy(st, calls)
    decreases |calls|
  {
    hide Step, Trace, CallOk, AcceptedBy, Payloads, FramesBy;
    if calls == [] {
      shake', fs' := shake, fs;
    } else {
      shake', fs' := TraceStep(st, calls[0], shake, fs);
      shake', fs' := RunTrace(Step(st, calls[0]), calls[1..], shake', fs');
    }
  }

  lemma OutputTrace(calls: seq<Call>) returns (shake: seq<Output>, fs: seq<Frame>)
    requires RunOk(NEW_STATE, calls)
    ensures Trace(Run(NEW_STATE, calls), shake, fs) && Payloads(fs) == Accepted(NEW_STATE, calls)
    ensures fs == AllFramesBy(NEW_STATE, calls)
  {
    assert Trace(NEW_STATE, [], []);
    shake, fs := RunTrace(NEW_STATE, calls, [], []);
  }

  /** A closed or failed protocol object stays so and sends nothing more. */
  lemma {:induction false} ClosedAndErrorAbsorb(st: State, calls: seq<Call>)
    requires WellFormed(st) && RunOk(st, calls) && (st.status.Closed? || st.status.PendingError?)
    ensures Run(st, calls).status == st.status && Run(st, calls).out == st.out
    decreases |calls|
  {
    if calls != [] {
      assert Step(st, calls[0]).status == st.status && Step(st, calls[0]).out == st.out;
      hide Step, CallOk;
      ClosedAndErrorAbsorb(Step(st, calls[0]), calls[1..]);
    }
  }

  // ---------- delivery ----------

  function WireAll(isClient: bool, fs: seq<Frame>): (s: seq<Byte>)
    requires FramesOk(fs)
  {
    if fs == [] then [] else WireOf(isClient, fs[0]) + WireAll(isClient, fs[1..])
  }

  /** A receiver, its input buffer, the bytes still on their way, and the messages handed to the application. */
  datatype Net = Net(st: State, unread: seq<Byte>, onTheWay: seq<Byte>, retrieved: seq<seq<Byte>>)

  datatype NetOp =
    | Deliver(n: nat)
    | Receive(env: Env)
    | RetrieveMessage
    | SendData(mask: seq<Byte>, payload: seq<Byte>)
    | SendPing
    | SendClose

  predicate NetOpOk(net: Net, op: NetOp) {
    match op
    case Deliver(n) => n <= |net.onTheWay|
    case Receive(env) => EnvOk(net.st, env)
    case SendData(mask, payload) => |mask| == 4 && |payload| < SIZE_LIMIT
    case _ => true
  }

  function NetStep(net: Net, op: NetOp): (r: Net)
    requires WellFormed(net.st) && NetOpOk(net, op)
    ensures WellFormed(r.st)
  {
    match op
    case Deliver(n) => net.(unread := net.unread + net.onTheWay[..n], onTheWay := net.onTheWay[n..])
    case Receive(env) =>
      var r := Recv(net.st, net.unread, env);
      net.(st := r.st, unread := r.rest)
    case RetrieveMessage =>
      var (st, m) := Retrieve(net.st);
      net.(st := st, retrieved := if m.Some? then net.retrieved + [m.value] else net.retrieved)
    case SendData(mask, payload) => net.(st := SendMessage(net.st, mask, payload))
    case SendPing => net.(st := SendPingFrame(net.st))
    case SendClose => net.(st := SendCloseFrame(net.st))
  }

  /** After the first k frames have been consumed. */
  predicate Consumed(net: Net, fs: seq<Frame>, k: nat) {
    && FramesOk(fs) && CloseIsLast(fs) && k <= |fs| && WellFormed(net.st)
    && net.unread + net.onTheWay == WireAll(!net.st.isClient, fs[k..])
    && match net.st.status
       case Connected =>
         net.st.message == [] && net.retrieved == Payloads(fs[..k]) && (k > 0 ==> !fs[k - 1].Close?)
       case Finished => net.retrieved + [net.st.message] == Payloads(fs[..k]) && k > 0 && fs[k - 1].Data?
       case Closed => net.retrieved == Payloads(fs[..k]) && k > 0 && fs[k - 1].Close?
       case _ => false
  }

  /** What readFrame does on a stream of written frames: nothing while the first is cut, else it takes it whole. */
  lemma ReadWritten(isClient: bool, fs: seq<Frame>, unread: seq<Byte>, more: seq<Byte>)
    requires FramesOk(fs) && unread + more == WireAll(!isClient, fs)
    ensures var p := ParseFrame(isClient, unread);
            p.Incomplete? ||
            (&& fs != [] && p == Whole(true, Opcode(fs[0]), Payload(fs[0]), |WireOf(!isClient, fs[0])|)
             && unread[p.size..] + more == WireAll(!isClient, fs[1..]))
    ensures more == [] && fs != [] ==> !ParseFrame(isClient, unread).Incomplete?
  {
    hide ParseFrame, Wire;
    if fs == [] {
      assert unread == [];
      EmptyIsIncomplete(isClient);
    } else {
      var f := fs[0];
      var key := if f.Data? then f.key else ZeroKey();
      var w, tail := WireOf(!isClient, f), WireAll(!isClient, fs[1..]);
      if |unread| < |w| {
        assert unread == (w + tail)[..|unread|] == w[..|unread|];
        assert |more| == |w + tail| - |unread| > 0;
        ParseCutWire(!isClient, true, Opcode(f), key, Payload(f), unread, w[|unread|..]);
      } else {
        var rest := unread[|w|..];
        assert unread[..|w|] == (w + tail)[..|w|] == w;
        assert unread == w + rest;
        ParseWire(!isClient, true, Opcode(f), key, Payload(f), rest);
        assert rest + more == (unread + more)[|w|..] == (w + tail)[|w|..] == tail;
      }
    }
  }

  lemma EmptyIsIncomplete(isClient: bool)
    ensures ParseFrame(isClient, []).Incomplete?
  {}

  lemma PayloadsStep(fs: seq<Frame>, k: nat)
    requires k < |fs|
    ensures Payloads(fs[..k + 1]) == Payloads(fs[..k]) + if fs[k].Data? then [fs[k].payload] else []
    ensures fs[k..][0] == fs[k] && fs[k..][1..] == fs[k + 1..]
  {
    assert fs[..k + 1][..k] == fs[..k];
  }

  /** What recvMessage reports for a written frame. */
  function ReportFor(f: Frame): (code: RetCode) {
    match f
    case Data(_, _) => MessageReady
    case Ping => PingFrame
    case Pong => PongFrame
    case Close => PeerClosed
  }

  /** One recvMessage of a connected receiver. */
  lemma ReceiveConsumes(net: Net, fs: seq<Frame>, k: nat, env: Env) returns (k': nat)
    requires Consumed(net, fs, k) && net.st.status.Connected? && EnvOk(net.st, env)
    ensures k <= k' <= k + 1 && Consumed(NetStep(net, Receive(env)), fs, k')
    ensures Recv(net.st, net.unread, env).code.WaitingMoreData? <==> k' == k
    ensures k' == k + 1 ==> k < |fs| && Recv(net.st, net.unread, env).code == ReportFor(fs[k])
    ensures !Recv(net.st, net.unread, env).code.Error?
    ensures net.onTheWay == [] && k < |fs| ==> k' == k + 1
  {
    hide ParseFrame, WireOf, WireAll, ControlFrame, Payloads;
    var isClient := net.st.isClient;
    assert FramesOk(fs[k..]);
    ReadWritten(isClient, fs[k..], net.unread, net.onTheWay);
    var p := ParseFrame(isClient, net.unread);
    k' := k;
    if p.Whole? {
      k' := k + 1;
      PayloadsStep(fs, k);
      var f := fs[k];
      assert net.st.message + Payload(f) == Payload(f);
    } else if k == |fs| {
      assert fs[k..] == [];
    }
  }

  lemma NetStepConsumes(net: Net, op: NetOp, fs: seq<Frame>, k: nat) returns (k': nat)
    requires Consumed(net, fs, k) && NetOpOk(net, op)
    ensures k <= k' && Consumed(NetStep(net, op), fs, k') && (!op.Receive? ==> k' == k)
  {
    hide Wire, WireAll, ControlFrame, Payloads, ReadFrame, ReadHandshakeRequest, ReadHandshakeResponse;
    k' := k;
    match op {
      case Deliver(n) =>
        assert net.onTheWay == net.onTheWay[..n] + net.onTheWay[n..];
      case Receive(env) =>
        if net.st.status.Connected? {
          k' := ReceiveConsumes(net, fs, k, env);
        }
      case RetrieveMessage =>
      case SendData(_, _) =>
      case SendPing =>
      case SendClose =>
    }
  }

  predicate NetRunOk(net: Net, ops: seq<NetOp>)
    requires WellFormed(net.st)
    decreases |ops|
  {
    ops == [] || (NetOpOk(net, ops[0]) && NetRunOk(NetStep(net, ops[0]), ops[1..]))
  }

  function NetRun(net: Net, ops: seq<NetOp>): (r: Net)
    requires WellFormed(net.st) && NetRunOk(net, ops)
    ensures WellFormed(r.st)
    decreases |ops|
  {
    if ops == [] then net else NetRun(NetStep(net, ops[0]), ops[1..])
  }

  lemma {:induction false} NetRunConsumes(net: Net, ops: seq<NetOp>, fs: seq<Frame>, k: nat) returns (k': nat)
    requires Consumed(net, fs, k) && NetRunOk(net, ops)
    ensures k <= k' && Consumed(NetRun(net, ops), fs, k')
    decreases |ops|
  {
    hide NetStep, Consumed, NetOpOk;
    assert WellFormed(net.st) by { ConsumedIsWellFormed(net, fs, k); }
    if ops == [] {
      k' := k;
    } else {
      k' := NetStepConsumes(net, ops[0], fs, k);
      k' := NetRunConsumes(NetStep(net, ops[0]), ops[1..], fs, k');
    }
  }

  lemma ConsumedIsWellFormed(net: Net, fs: seq<Frame>, k: nat)
    requires Consumed(net, fs, k)
    ensures WellFormed(net.st)
  {}

  lemma {:induction false} PayloadsPrefix(fs: seq<Frame>, k: nat)
    requires k <= |fs|
    ensures Payloads(fs[..k]) <= Payloads(fs)
    decreases |fs| - k
  {
    if k == |fs| {
      assert fs[..k] == fs;
    } else {
      PayloadsStep(fs, k);
      PayloadsPrefix(fs, k + 1);
    }
  }

  /** What a finished schedule means for the messages sent: the receiver has not failed and has handed out a prefix
      of them; it has handed out all of them once everything has arrived and recvMessage asks for more. */
  ghost predicate Delivered(r: Net, sent: seq<seq<Byte>>) {
    && WellFormed(r.st) && !r.st.status.PendingError? && r.retrieved <= sent
    && (r.st.status.Finished? ==> r.retrieved + [r.st.message] <= sent)
    && (HasHandler(r.st.status) ==> forall env :: EnvOk(r.st, env) ==> ReceivesWell(r, env, sent))
  }

  predicate ReceivesWell(r: Net, env: Env, sent: seq<seq<Byte>>)
    requires WellFormed(r.st) && EnvOk(r.st, env)
  {
    var code := Recv(r.st, r.unread, env).code;
    && !code.Error?
    && (code.WaitingMoreData? && r.onTheWay == [] ==> r.st.status.Connected? && r.unread == [] && r.retrieved == sent)
  }

  lemma ConsumedIsDelivered(r: Net, fs: seq<Frame>, k: nat)
    requires Consumed(r, fs, k)
    ensures Delivered(r, Payloads(fs))
  {
    hide WireAll, Payloads, Recv, EnvOk;
    PayloadsPrefix(fs, k);
    forall env | HasHandler(r.st.status) && EnvOk(r.st, env) ensures ReceivesWell(r, env, Payloads(fs)) {
      var k' := ReceiveConsumes(r, fs, k, env);
      assert fs[..|fs|] == fs && fs[|fs|..] == [];
      NothingLeft(!r.st.isClient);
    }
  }

  lemma NothingLeft(isClient: bool)
    ensures WireAll(isClient, []) == []
  {}

  /** A receiver that has just connected; frames may already have arrived behind the handshake. */
  predicate Start(net: Net, fs: seq<Frame>) {
    && FramesOk(fs) && CloseIsLast(fs) && WellFormed(net.st)
    && net.st.status.Connected? && net.st.message == [] && net.retrieved == []
    && net.unread + net.onTheWay == WireAll(!net.st.isClient, fs)
  }

  /** End-to-end delivery: whatever one side sends after the handshake, and however it is cut and interleaved with
      the receiver's calls, the receiver never fails, stops only between frames, and has handed out a prefix of
      the messages sent, byte for byte. When all bytes have arrived and recvMessage still asks for more, it has
      handed out all of them. */
  lemma EndToEndDelivery(net: Net, ops: seq<NetOp>, fs: seq<Frame>) returns (k: nat)
    requires Start(net, fs) && NetRunOk(net, ops)
    ensures var r := NetRun(net, ops);
            && k <= |fs| && r.unread + r.onTheWay == WireAll(!r.st.isClient, fs[k..])
            && (r.st.status.Closed? ==> k > 0 && fs[k - 1].Close?)
            && Delivered(r, Payloads(fs))
  {
    assert fs[0..] == fs && fs[..0] == [];
    k := NetRunConsumes(net, ops, fs, 0);
    hide Delivered;
    ConsumedIsDelivered(NetRun(net, ops), fs, k);
  }

  // ---------- sender and receiver together ----------

  /** The bytes of the output callback calls, in order. */
  function AllBytes(out: seq<Output>): (s: seq<Byte>) {
    if out == [] then [] else out[0].bytes + AllBytes(out[1..])
  }

  lemma {:induction false} OutputBytes(isClient: bool, fs: seq<Frame>)
    requires FramesOk(fs)
    ensures AllBytes(Outputs(isClient, fs)) == WireAll(isClient, fs)
    decreases |fs|
  {
    hide WireOf;
    if fs != [] {
      assert Outputs(isClient, fs)[1..] == Outputs(isClient, fs[1..]);
      OutputBytes(isClient, fs[1..]);
    }
  }

  /** Any run of a fresh sender against any schedule of a connected receiver of the other side: the receiver hands
      out the messages that sendMessage accepted. Some bytes may have arrived before the receiver connected. */
  lemma SentIsReceived(calls: seq<Call>, net: Net, ops: seq<NetOp>)
    requires RunOk(NEW_STATE, calls)
    requires WellFormed(net.st) && NetRunOk(net, ops)
    requires net.st.status.Connected? && net.st.message == [] && net.retrieved == []
    requires net.st.isClient == !Run(NEW_STATE, calls).isClient
    requires |Run(NEW_STATE, calls).out| >= 1
    requires net.unread + net.onTheWay == AllBytes(Run(NEW_STATE, calls).out[1..])
    ensures Delivered(NetRun(net, ops), Accepted(NEW_STATE, calls))
  {
    var shake, fs := OutputTrace(calls);
    hide WireOf, WireAll, Payloads, Recv, NetRun, Accepted, Delivered;
    var sender := Run(NEW_STATE, calls);
    assert sender.out[1..] == Outputs(sender.isClient, fs);
    OutputBytes(sender.isClient, fs);
    var k := EndToEndDelivery(net, ops, fs);
  }

  // ---------- fragmentation (section 5.4 of RFC 6455) ----------

  /** Frames between the first and the last fragment of a message. */
  datatype Piece = Fragment(key: seq<Byte>, bytes: seq<Byte>) | Control(ping: bool, key: seq<Byte>, bytes: seq<Byte>)

  /** A received fragment or ping or pong, as readFrame applies it. */
  function ApplyPiece(st: State, p: Piece): (r: State) {
    match p
    case Fragment(_, bytes) => ApplyFrame(st, false, OP_CONTINUATION, bytes, []).st
    case Control(ping, _, bytes) => ApplyFrame(st, true, if ping then OP_PING else OP_PONG, bytes, []).st
  }

  function ApplyPieces(st: State, ps: seq<Piece>): (r: State)
    decreases |ps|
  {
    if ps == [] then st else ApplyPieces(ApplyPiece(st, ps[0]), ps[1..])
  }

  /** A whole fragmented message: first fragment, the frames between, last fragment. */
  function ApplyFragmented(st: State, opcode: nat, first: seq<Byte>, ps: seq<Piece>, last: seq<Byte>): (o: Outcome) {
    ApplyFrame(ApplyPieces(ApplyFrame(st, false, opcode, first, []).st, ps), true, OP_CONTINUATION, last, [])
  }

  /** All fragment bytes. */
  function Fragments(ps: seq<Piece>): (s: seq<Byte>) {
    if ps == [] then [] else (if ps[0].Fragment? then ps[0].bytes else []) + Fragments(ps[1..])
  }

  /** What is left of the collected bytes: a control frame clears the message buffer. */
  function Surviving(collected: seq<Byte>, ps: seq<Piece>): (s: seq<Byte>)
    decreases |ps|
  {
    if ps == [] then collected
    else if ps[0].Fragment? then Surviving(collected + ps[0].bytes, ps[1..])
    else Surviving([], ps[1..])
  }

  lemma {:induction false} PiecesApplied(st: State, ps: seq<Piece>)
    requires st.status.Connected?
    ensures var r := ApplyPieces(st, ps);
            && r.status.Connected? && r.lastOpCode == st.lastOpCode
            && r.message == Surviving(st.message, ps)
    decreases |ps|
  {
    hide ControlFrame;
    if ps != [] {
      PiecesApplied(ApplyPiece(st, ps[0]), ps[1..]);
    }
  }

  /** No control frame arrives once fragment bytes have been collected. */
  predicate Undisturbed(collected: seq<Byte>, ps: seq<Piece>)
    decreases |ps|
  {
    ps == [] ||
    if ps[0].Fragment? then Undisturbed(collected + ps[0].bytes, ps[1..])
    else collected == [] && Undisturbed([], ps[1..])
  }

  lemma {:induction false} SurvivingLength(collected: seq<Byte>, ps: seq<Piece>)
    ensures |Surviving(collected, ps)| <= |collected| + |Fragments(ps)|
    ensures Undisturbed(collected, ps) ==> Surviving(collected, ps) == collected + Fragments(ps)
    ensures !Undisturbed(collected, ps) ==> |Surviving(collected, ps)| < |collected| + |Fragments(ps)|
    decreases |ps|
  {
    if ps != [] {
      if ps[0].Fragment? {
        SurvivingLength(collected + ps[0].bytes, ps[1..]);
        assert collected + ps[0].bytes + Fragments(ps[1..]) == collected + (ps[0].bytes + Fragments(ps[1..]));
      } else {
        SurvivingLength([], ps[1..]);
        assert [] + Fragments(ps[1..]) == Fragments(ps[1..]);
      }
    } else {
      assert collected + [] == collected;
    }
  }

  /** A fragmented message is delivered as the concatenation of its fragments exactly when no control frame
      arrives after a fragment byte. */
  lemma FragmentedDelivery(st: State, opcode: nat, first: seq<Byte>, ps: seq<Piece>, last: seq<Byte>)
    requires st.status.Connected? && st.message == [] && (opcode == OP_TEXT || opcode == OP_BINARY)
    ensures var o := ApplyFragmented(st, opcode, first, ps, last);
            && o.ret == 1 && o.st.status.Finished?
            && o.st.message == Surviving(first, ps) + last
            && (o.st.message == first + Fragments(ps) + last <==> Undisturbed(first, ps))
  {
    var st1 := ApplyFrame(st, false, opcode, first, []).st;
    assert [] + first == first;
    PiecesApplied(st1, ps);
    SurvivingLength(first, ps);
  }

  /** A ping between two fragments of a text loses the first one. */
  lemma PingLosesFragment(st: State)
    requires st.status.Connected? && st.message == []
    ensures ApplyFragmented(st, OP_TEXT, [72, 101], [Control(true, ZeroKey(), [])], [108, 111]).st.message == [108, 111]
  {
    FragmentedDelivery(st, OP_TEXT, [72, 101], [Control(true, ZeroKey(), [])], [108, 111]);
    assert [Control(true, ZeroKey(), [])][1..] == [];
    assert Surviving([72, 101], [Control(true, ZeroKey(), [])]) == [];
  }

  predicate PieceOk(p: Piece) { |p.key| == 4 && |p.bytes| < SIZE_LIMIT }

  function PieceWire(isClient: bool, p: Piece): (s: seq<Byte>)
    requires PieceOk(p)
  {
    match p
    case Fragment(key, bytes) => Wire(isClient, false, OP_CONTINUATION, key, bytes)
    case Control(ping, key, bytes) => Wire(isClient, true, if ping then OP_PING else OP_PONG, key, bytes)
  }

  function PieceWires(isClient: bool, ps: seq<Piece>): (s: seq<Byte>)
    requires forall p :: p in ps ==> PieceOk(p)
  {
    if ps == [] then [] else PieceWire(isClient, ps[0]) + PieceWires(isClient, ps[1..])
  }

  /** recvMessage n times in a row. */
  function RecvTimes(st: State, buf: seq<Byte>, env: Env, n: nat): (r: Received)
    requires WellFormed(st) && EnvOk(st, env)
    decreases n
  {
    if n == 0 then Received(Error, st, buf)
    else
      var r := Recv(st, buf, env);
      if n == 1 then r else RecvTimes(r.st, r.rest, env, n - 1)
  }

  /** On the wire: recvMessage takes exactly one frame of the other side, whatever follows it. */
  lemma RecvOne(st: State, env: Env, fin: bool, opcode: nat, key: seq<Byte>, payload: seq<Byte>, rest: seq<Byte>)
    requires WellFormed(st) && EnvOk(st, env) && st.status.Connected?
    requires opcode < 16 && |key| == 4 && |payload| < SIZE_LIMIT
    ensures var o := ApplyFrame(st, fin, opcode, payload, rest);
            var r := Recv(st, Wire(!st.isClient, fin, opcode, key, payload) + rest, env);
            && r.rest == rest
            && r.st == (if o.ret == -1 then o.st.(status := PendingError) else o.st)
            && (o.ret == 1 && o.st.status.Finished? ==> r.code.MessageReady?)
  {
    hide ParseFrame, Wire, ControlFrame;
    ParseWire(!st.isClient, fin, opcode, key, payload, rest);
    var w := Wire(!st.isClient, fin, opcode, key, payload);
    assert (w + rest)[|w|..] == rest;
  }

  lemma {:induction false} PiecesOverWire(st: State, env: Env, ps: seq<Piece>, rest: seq<Byte>)
    requires WellFormed(st) && EnvOk(st, env) && st.status.Connected?
    requires forall p :: p in ps ==> PieceOk(p)
    ensures var r := RecvTimes(st, PieceWires(!st.isClient, ps) + rest, env, |ps|);
            r.st == ApplyPieces(st, ps) && r.rest == rest
    decreases |ps|
  {
    hide Recv, Wire, ControlFrame, WellFormed;
    if ps == [] {
      assert PieceWires(!st.isClient, ps) + rest == rest;
    } else {
      var p := ps[0];
      assert PieceOk(p);
      var tail := PieceWires(!st.isClient, ps[1..]) + rest;
      assert PieceWires(!st.isClient, ps) + rest == PieceWire(!st.isClient, p) + tail;
      var fin := p.Control?;
      var opcode := if p.Fragment? then OP_CONTINUATION else if p.ping then OP_PING else OP_PONG;
      RecvOne(st, env, fin, opcode, p.key, p.bytes, tail);
      PiecesOverWire(ApplyPiece(st, p), env, ps[1..], rest);
    }
  }

  /** The same over the wire: one recvMessage per frame delivers the fragmented message. */
  lemma FragmentedOverWire(st: State, env: Env, opcode: nat, k1: seq<Byte>, first: seq<Byte>, ps: seq<Piece>,
                           k2: seq<Byte>, last: seq<Byte>, rest: seq<Byte>)
    requires WellFormed(st) && EnvOk(st, env)
    requires st.status.Connected? && st.message == [] && (opcode == OP_TEXT || opcode == OP_BINARY)
    requires PieceOk(Fragment(k1, first)) && PieceOk(Fragment(k2, last)) && forall p :: p in ps ==> PieceOk(p)
    ensures var end := Wire(!st.isClient, true, OP_CONTINUATION, k2, last) + rest;
            var start := Wire(!st.isClient, false, opcode, k1, first);
            var r1 := Recv(st, start + (PieceWires(!st.isClient, ps) + end), env);
            EnvOk(r1.st, env) &&
            var r2 := RecvTimes(r1.st, r1.rest, env, |ps|);
            WellFormed(r2.st) && EnvOk(r2.st, env) &&
            var r3 := Recv(r2.st, r2.rest, env);
            && r3.code.MessageReady? && r3.rest == rest
            && (r3.st.message == first + Fragments(ps) + last <==> Undisturbed(first, ps))
  {
    var end := Wire(!st.isClient, true, OP_CONTINUATION, k2, last) + rest;
    RecvOne(st, env, false, opcode, k1, first, PieceWires(!st.isClient, ps) + end);
    var st1 := ApplyFrame(st, false, opcode, first, []).st;
    PiecesOverWire(st1, env, ps, end);
    var st2 := ApplyPieces(st1, ps);
    PiecesApplied(st1, ps);
    PiecesKeep(st1, ps);
    RecvOne(st2, env, true, OP_CONTINUATION, k2, last, rest);
    FragmentedDelivery(st, opcode, first, ps, last);
    hide Recv, Wire, RecvTimes, PieceWires, ApplyPieces, Fragments, Undisturbed;
  }

  lemma {:induction false} PiecesKeep(st: State, ps: seq<Piece>)
    requires WellFormed(st)
    ensures var r := ApplyPieces(st, ps);
            WellFormed(r) && r.headers == st.headers && r.isClient == st.isClient
    decreases |ps|
  {
    hide ControlFrame, WellFormed;
    if ps != [] {
      PiecesKeep(ApplyPiece(st, ps[0]), ps[1..]);
    }
  }
}
