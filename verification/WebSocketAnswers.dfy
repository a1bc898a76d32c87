/** What one side of a WebSocket connection sends in answer to the other: a pong for every ping and a close frame for
    a close frame (sections 5.5.1 to 5.5.3 of RFC 6455). */
module WebSocketAnswers {
  import opened Bytes
  import opened WebSocketFrame
  import opened WebSocketSpec
  import opened WebSocketRuns

  // ---------- one frame ----------

  /** The output after an answer, which is sent only before the side's own close frame. */
  function Answered(st: State, f: Frame): (out: seq<Output>)
    requires FrameOk(f)
  {
    st.out + if st.closeFrameSent then [] else [FrameBytes(WireOf(st.isClient, f))]
  }

  /** A whole frame of the peer at the front of the input of a connected side: a ping is reported and answered with
      one pong, a close with one close frame, data and pongs with nothing; exactly the frame is consumed. */
  lemma FrameOfPeer(st: State, env: Env, opcode: nat, key: seq<Byte>, payload: seq<Byte>, rest: seq<Byte>)
    requires WellFormed(st) && EnvOk(st, env) && st.status.Connected?
    requires opcode < 16 && |key| == 4 && |payload| < SIZE_LIMIT
    ensures var r := Recv(st, Wire(!st.isClient, true, opcode, key, payload) + rest, env);
            && (opcode == OP_PING ==> r == Received(PingFrame, st.(message := [], out := Answered(st, Pong)), rest))
            && (opcode == OP_PONG ==> r == Received(PongFrame, st.(message := []), rest))
            && (opcode == OP_CLOSE ==>
                  r == Received(PeerClosed, st.(status := Closed, message := [], closeFrameSent := true,
                                                out := Answered(st, Close)), rest))
            && (opcode == OP_TEXT || opcode == OP_BINARY ==>
                  r == Received(MessageReady, st.(status := Finished, message := st.message + payload), rest))
  {
    hide ParseFrame, Wire, ControlFrame, WireOf;
    var w := Wire(!st.isClient, true, opcode, key, payload);
    ParseWire(!st.isClient, true, opcode, key, payload, rest);
    ControlIsWire(st.isClient);
    assert (w + rest)[|w|..] == rest;
    assert st.out + [] == st.out;
  }

  /** Whatever the bytes are, the output of a connected side grows exactly by the answer to what is reported. */
  lemma OutputFollowsReport(st: State, buf: seq<Byte>, env: Env)
    requires WellFormed(st) && EnvOk(st, env) && st.status.Connected?
    ensures var r := Recv(st, buf, env);
            && r.st.out == st.out + Outputs(st.isClient, if MaySend(st) then ReplyTo(r.code) else [])
            && (r.st.closeFrameSent <==> st.closeFrameSent || r.code.PeerClosed?)
            && (r.code.PeerClosed? <==> r.st.status.Closed?)
  {
    hide ParseFrame, ApplyFrame, Outputs;
    assert st.out + Outputs(st.isClient, []) == st.out;
    var p := ParseFrame(st.isClient, buf);
    if p.Whole? {
      ApplyAnswers(st, p.fin, p.opcode, p.payload, buf[p.size..]);
    }
  }

  lemma ApplyAnswers(st: State, fin: bool, opcode: nat, payload: seq<Byte>, rest: seq<Byte>)
    requires st.status.Connected?
    ensures var o := ApplyFrame(st, fin, opcode, payload, rest);
            && o.st.out == st.out + Outputs(st.isClient, if MaySend(st) then ReplyTo(ReportOf(o)) else [])
            && (o.st.closeFrameSent <==> st.closeFrameSent || ReportOf(o).PeerClosed?)
            && (ReportOf(o).PeerClosed? <==> o.st.status.Closed?)
            && (o.ret == 1 ==> o.st.status.Finished? || o.st.status.Closed?)
  {
    hide ControlFrame, WireOf, Outputs;
    ControlIsWire(st.isClient);
    OneOutput(st.isClient, Pong);
    OneOutput(st.isClient, Close);
    assert st.out + Outputs(st.isClient, []) == st.out;
  }

  /** A ping of one side comes back to it as a pong. */
  lemma PingComesBack(a: State, b: State, envA: Env, envB: Env, restA: seq<Byte>, restB: seq<Byte>)
    requires WellFormed(a) && EnvOk(a, envA) && a.status.Connected? && MaySend(a)
    requires WellFormed(b) && EnvOk(b, envB) && b.status.Connected? && MaySend(b)
    requires a.isClient == !b.isClient
    ensures var sent := SendPingFrame(a);
            && |sent.out| == |a.out| + 1
            && var heard := Recv(b, sent.out[|a.out|].bytes + restB, envB);
               && heard.code.PingFrame? && heard.rest == restB && |heard.st.out| == |b.out| + 1
               && var back := Recv(sent, heard.st.out[|b.out|].bytes + restA, envA);
                  back.code.PongFrame? && back.rest == restA && back.st.out == sent.out
  {
    hide Wire, Recv;
    FrameOfPeer(b, envB, OP_PING, ZeroKey(), [], restB);
    FrameOfPeer(SendPingFrame(a), envA, OP_PONG, ZeroKey(), [], restA);
  }

  // ---------- one side over any run of calls ----------

  /** How many frames of the list are f. */
  function Count(fs: seq<Frame>, f: Frame): (n: nat) {
    if fs == [] then 0 else Count(fs[..|fs| - 1], f) + if fs[|fs| - 1] == f then 1 else 0
  }

  lemma {:induction false} CountAppend(a: seq<Frame>, b: seq<Frame>, f: Frame)
    ensures Count(a + b, f) == Count(a, f) + Count(b, f)
    decreases |b|
  {
    if b == [] {
      assert a + b == a;
    } else {
      var n := |b| - 1;
      assert (a + b)[..|a + b| - 1] == a + b[..n] && (a + b)[|a + b| - 1] == b[n];
      CountAppend(a, b[..n], f);
    }
  }

  /** The pings that recvMessage reports before the side's own close frame. */
  function PingsHeard(st: State, calls: seq<Call>): (n: nat)
    requires WellFormed(st) && RunOk(st, calls)
    decreases |calls|
  {
    if calls == [] then 0
    else
      var c := calls[0];
      (if c.CallRecv? && !st.closeFrameSent && Recv(st, c.buffer, c.env).code.PingFrame? then 1 else 0)
      + PingsHeard(Step(st, c), calls[1..])
  }

  lemma PingIsFromConnected(st: State, buf: seq<Byte>, env: Env)
    requires WellFormed(st) && EnvOk(st, env) && Recv(st, buf, env).code.PingFrame?
    ensures st.status.Connected?
  {
    hide ReadFrame;
  }

  lemma OnePong(st: State, c: Call)
    requires WellFormed(st) && CallOk(st, c)
    ensures Count(FramesBy(st, c), Pong)
            == if c.CallRecv? && !st.closeFrameSent && Recv(st, c.buffer, c.env).code.PingFrame? then 1 else 0
  {
    hide Recv, EnvOk;
    if c.CallRecv? && Recv(st, c.buffer, c.env).code.PingFrame? {
      PingIsFromConnected(st, c.buffer, c.env);
    }
    assert forall f :: Count([f], Pong) == Count([], Pong) + if f == Pong then 1 else 0 by {
      forall f ensures Count([f], Pong) == Count([], Pong) + if f == Pong then 1 else 0 {
        assert [f][..0] == [];
      }
    }
  }

  lemma {:induction false} PongsOfRun(st: State, calls: seq<Call>)
    requires WellFormed(st) && RunOk(st, calls)
    ensures Count(AllFramesBy(st, calls), Pong) == PingsHeard(st, calls)
    decreases |calls|
  {
    hide Step, CallOk, FramesBy, Recv;
    if calls != [] {
      OnePong(st, calls[0]);
      PongsOfRun(Step(st, calls[0]), calls[1..]);
      CountAppend(FramesBy(st, calls[0]), AllFramesBy(Step(st, calls[0]), calls[1..]), Pong);
    }
  }

  /** In every run of a fresh protocol object the pongs among the frames of the output number the pings it has
      reported before its own close frame. */
  lemma PongsAnswerPings(calls: seq<Call>) returns (shake: seq<Output>, fs: seq<Frame>)
    requires RunOk(NEW_STATE, calls)
    ensures Trace(Run(NEW_STATE, calls), shake, fs) && Count(fs, Pong) == PingsHeard(NEW_STATE, calls)
  {
    hide Trace, Run, AllFramesBy, PingsHeard;
    shake, fs := OutputTrace(calls);
    PongsOfRun(NEW_STATE, calls);
  }

  // ---------- both sides over any schedule ----------

  /** After the first k frames of the peer have been consumed, `own` is what this side has sent since `base`: a pong
      for every ping and a close frame for a close among them, besides what the application sent. */
  ghost predicate Replied(net: Net, base: seq<Output>, own: seq<Frame>, fs: seq<Frame>, k: nat) {
    && Consumed(net, fs, k) && FramesOk(own)
    && net.st.out == base + Outputs(net.st.isClient, own)
    && Count(own, Pong) == Count(fs[..k], Ping) && Count(own, Close) == Count(fs[..k], Close)
    && (net.st.closeFrameSent ==> net.st.status.Closed?)
  }

  lemma OneFrame(fs: seq<Frame>, f: Frame, g: Frame)
    ensures Count(fs + [f], g) == Count(fs, g) + if f == g then 1 else 0
  {
    assert (fs + [f])[..|fs|] == fs;
  }

  lemma MoreOutputs(isClient: bool, a: seq<Frame>, b: seq<Frame>)
    requires FramesOk(a) && FramesOk(b)
    ensures FramesOk(a + b) && Outputs(isClient, a + b) == Outputs(isClient, a) + Outputs(isClient, b)
  {
    hide WireOf;
  }

  lemma ReceiveReplies(net: Net, base: seq<Output>, own: seq<Frame>, fs: seq<Frame>, k: nat, env: Env)
    returns (k': nat, own': seq<Frame>)
    requires Replied(net, base, own, fs, k) && net.st.status.Connected? && EnvOk(net.st, env)
    ensures k <= k' && Replied(NetStep(net, Receive(env)), base, own', fs, k')
  {
    hide Recv, WireOf, WireAll, Payloads, Outputs, Count;
    k' := ReceiveConsumes(net, fs, k, env);
    OutputFollowsReport(net.st, net.unread, env);
    var code := Recv(net.st, net.unread, env).code;
    own' := own + ReplyTo(code);
    MoreOutputs(net.st.isClient, own, ReplyTo(code));
    assert base + (Outputs(net.st.isClient, own) + Outputs(net.st.isClient, ReplyTo(code)))
        == base + Outputs(net.st.isClient, own');
    if ReplyTo(code) == [] {
      assert own' == own;
    } else {
      var f := ReplyTo(code)[0];
      assert [f] == ReplyTo(code);
      OneFrame(own, f, Pong);
      OneFrame(own, f, Close);
    }
    if k' == k + 1 {
      assert fs[..k + 1] == fs[..k] + [fs[k]];
      OneFrame(fs[..k], fs[k], Ping);
      OneFrame(fs[..k], fs[k], Close);
    }
  }

  lemma SendReplies(net: Net, op: NetOp, base: seq<Output>, own: seq<Frame>, fs: seq<Frame>, k: nat)
    returns (own': seq<Frame>)
    requires Replied(net, base, own, fs, k) && NetOpOk(net, op) && (op.SendData? || op.SendPing?)
    requires Consumed(NetStep(net, op), fs, k)
    ensures Replied(NetStep(net, op), base, own', fs, k)
  {
    hide WireOf, WireAll, Payloads, Outputs, Count, Consumed;
    own' := own;
    if MaySend(net.st) {
      var f := if op.SendData? then Data(op.mask, op.payload) else Ping;
      own' := own + [f];
      ControlIsWire(net.st.isClient);
      MoreOutputs(net.st.isClient, own, [f]);
      OneOutput(net.st.isClient, f);
      OneFrame(own, f, Pong);
      OneFrame(own, f, Close);
      var out := Outputs(net.st.isClient, own);
      assert base + (out + Outputs(net.st.isClient, [f])) == base + out + Outputs(net.st.isClient, [f]);
      if f.Data? {
        OneWire(net.st.isClient, f);
      }
    }
  }

  lemma OneOutput(isClient: bool, f: Frame)
    requires FrameOk(f)
    ensures FramesOk([f]) && Outputs(isClient, [f]) == [FrameBytes(WireOf(isClient, f))]
  {
    hide WireOf;
  }

  lemma OneWire(isClient: bool, f: Frame)
    requires f.Data? && FrameOk(f)
    ensures WireOf(isClient, f) == Wire(isClient, true, OP_BINARY, f.key, f.payload)
  {}

  lemma {:induction false} RunReplies(net: Net, ops: seq<NetOp>, base: seq<Output>, own: seq<Frame>, fs: seq<Frame>,
                                      k: nat) returns (k': nat, own': seq<Frame>)
    requires Replied(net, base, own, fs, k) && NetRunOk(net, ops)
    requires forall op :: op in ops ==> !op.SendClose?
    ensures k <= k' && Replied(NetRun(net, ops), base, own', fs, k')
    decreases |ops|
  {
    hide NetStep, Replied, NetOpOk, Consumed;
    assert WellFormed(net.st) by { RepliedIsConsumed(net, base, own, fs, k); }
    k', own' := k, own;
    if ops != [] {
      assert ops[0] in ops;
      k', own' := StepReplies(net, ops[0], base, own, fs, k);
      k', own' := RunReplies(NetStep(net, ops[0]), ops[1..], base, own', fs, k');
    }
  }

  lemma RepliedIsConsumed(net: Net, base: seq<Output>, own: seq<Frame>, fs: seq<Frame>, k: nat)
    requires Replied(net, base, own, fs, k)
    ensures Consumed(net, fs, k) && WellFormed(net.st)
  {}

  lemma StepReplies(net: Net, op: NetOp, base: seq<Output>, own: seq<Frame>, fs: seq<Frame>, k: nat)
    returns (k': nat, own': seq<Frame>)
    requires Replied(net, base, own, fs, k) && NetOpOk(net, op) && !op.SendClose?
    ensures k <= k' && Replied(NetStep(net, op), base, own', fs, k')
  {
    hide Wire, WireAll, Payloads, Outputs, Count, WireOf, EnvOk;
    k', own' := k, own;
    if op.Receive? {
      if net.st.status.Connected? {
        k', own' := ReceiveReplies(net, base, own, fs, k, op.env);
      }
    } else {
      k' := NetStepConsumes(net, op, fs, k);
      if op.SendData? || op.SendPing? {
        own' := SendReplies(net, op, base, own, fs, k);
      }
    }
  }

  /** Whatever the peer sends after the handshake, and however it is cut and interleaved with this side's calls: until
      the application sends a close frame itself, the side has sent exactly one pong for every ping that it consumed,
      and a close frame exactly if it consumed one. */
  lemma PingsAreAnswered(net: Net, ops: seq<NetOp>, fs: seq<Frame>) returns (k: nat, own: seq<Frame>)
    requires Start(net, fs) && NetRunOk(net, ops) && !net.st.closeFrameSent
    requires forall op :: op in ops ==> !op.SendClose?
    ensures var r := NetRun(net, ops);
            && k <= |fs| && r.unread + r.onTheWay == WireAll(!r.st.isClient, fs[k..])
            && FramesOk(own) && r.st.out == net.st.out + Outputs(r.st.isClient, own)
            && Count(own, Pong) == Count(fs[..k], Ping) && Count(own, Close) == Count(fs[..k], Close)
  {
    assert fs[0..] == fs && fs[..0] == [];
    assert net.st.out + Outputs(net.st.isClient, []) == net.st.out;
    k, own := RunReplies(net, ops, net.st.out, [], fs, 0);
  }
}
