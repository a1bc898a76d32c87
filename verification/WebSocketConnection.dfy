/** Whole WebSocket connections, from the first byte of the handshake on: the opening text and the frames behind it
    may be cut and delivered in any way. */
module WebSocketConnection {
  import opened Bytes
  import opened StringUtil
  import opened HttpMessages
  import opened Options
  import opened HttpRoundTrip
  import opened WebSocketSpec
  import opened WebSocketRuns
  import opened WebSocketHandshake
  import WebSocketFrame
  import H = HttpParser
  import HttpWriter

  // ---------- the handshake message ----------

  /** The receiver waits for a handshake message, and this one is acceptable to it. */
  predicate Accepts(st: State, m: Message) {
    match st.status
    case WaitingHandshakeRequest => m.kind.Request? && RequestValid(m.headers)
    case WaitingHandshakeResponse =>
      m.kind.Response? && ResponseValid(m.kind.statusCode, m.headers, GetHeader(st.headers, KeyName()))
    case _ => false
  }

  /** The text with which a server answers such a message. */
  function Answer(st: State, m: Message, env: Env): (o: Output)
    requires EnvOk(st, env)
  {
    HandshakeText(HttpWriter.Render(ResponseMessage(st.headers, GetHeader(m.headers, KeyName()), env.date), env.order))
  }

  function Opened(st: State, m: Message, env: Env): (r: State)
    requires EnvOk(st, env)
  {
    var out := if st.status.WaitingHandshakeRequest? then st.out + [Answer(st, m, env)] else st.out;
    st.(status := Connected, http := H.INITIAL_STATE, out := out)
  }

  /** recvMessage when the parser has the whole message, and when it still waits. */
  lemma HandshakeReceived(st: State, m: Message, buf: seq<Byte>, rest: seq<Byte>, env: Env)
    requires WellFormed(st) && EnvOk(st, env) && Accepts(st, m)
    requires H.Recv(st.http, buf, env.stale) == H.Received(H.MessageReady, H.State(H.Finished, Some(m), None), rest)
    ensures Recv(st, buf, env) == Received(ConnectionEstablished, Opened(st, m, env), rest)
  {
    hide H.Recv, RequestValid, ResponseValid, HttpWriter.Render, ResponseMessage, ResponseKeys, BadRequest;
  }

  lemma HandshakeWaits(st: State, buf: seq<Byte>, env: Env)
    requires WellFormed(st) && EnvOk(st, env)
    requires st.status.WaitingHandshakeRequest? || st.status.WaitingHandshakeResponse?
    requires H.Recv(st.http, buf, env.stale).code.WaitingMoreData?
    ensures var r := H.Recv(st.http, buf, env.stale);
            Recv(st, buf, env) == Received(WaitingMoreData, st.(http := r.st), r.rest)
  {
    hide H.Recv, RequestValid, ResponseValid, HttpWriter.Render, ResponseMessage, ResponseKeys, BadRequest;
  }

  // ---------- before the connection ----------

  /** The receiver has read part of the handshake message m; the rest of it and the frames fs are still to come. */
  ghost predicate Opening(net: Net, m: Message, order: seq<seq<Byte>>, fs: seq<Frame>, stage: nat) {
    && stage <= 2 && FramesOk(fs) && CloseIsLast(fs) && Good(m) && Enumerates(order, m.headers) && WellFormed(net.st)
    && Accepts(net.st, m) && net.st.http == StageState(m, stage) && net.st.message == [] && net.retrieved == []
    && net.unread + net.onTheWay == StageText(m, order, WireAll(!net.st.isClient, fs), stage)
  }

  /** One recvMessage: more of the message, or the connection, with nothing behind the message consumed. */
  lemma OpeningReceives(net: Net, m: Message, order: seq<seq<Byte>>, fs: seq<Frame>, stage: nat, env: Env)
      returns (next: nat)
    requires Opening(net, m, order, fs, stage) && EnvOk(net.st, env)
    ensures var r, code := NetStep(net, Receive(env)), Recv(net.st, net.unread, env).code;
            if code.WaitingMoreData? then
              net.onTheWay != [] && Opening(r, m, order, fs, next) && r.st == net.st.(http := r.st.http)
            else
              code.ConnectionEstablished? && r.st == Opened(net.st, m, env) && Start(r, fs)
  {
    hide Good, Enumerates, RequestValid, ResponseValid, StageState, StageText, WireAll, Answer, EnvOk, Recv, H.Recv,
      H.WellFormed;
    var wire := WireAll(!net.st.isClient, fs);
    assert |env.stale| == 2 by { StaleBytes(net.st, env); }
    next := StageDecides(m, order, wire, stage, net.unread, net.onTheWay, env.stale);
    var h := H.Recv(net.st.http, net.unread, env.stale);
    if h.code.WaitingMoreData? {
      HandshakeWaits(net.st, net.unread, env);
    } else {
      HandshakeReceived(net.st, m, net.unread, h.rest, env);
    }
  }

  lemma StaleBytes(st: State, env: Env)
    requires EnvOk(st, env)
    ensures |env.stale| == 2
  {}

  /** Any other step of the network or of the application changes nothing that matters. */
  lemma OpeningStays(net: Net, op: NetOp, m: Message, order: seq<seq<Byte>>, fs: seq<Frame>, stage: nat)
    requires Opening(net, m, order, fs, stage) && NetOpOk(net, op) && !op.Receive?
    ensures Opening(NetStep(net, op), m, order, fs, stage) && NetStep(net, op).st == net.st
  {
    hide Good, Enumerates, RequestValid, ResponseValid, StageState, StageText, WireAll, H.WellFormed;
    if op.Deliver? {
      assert net.onTheWay == net.onTheWay[..op.n] + net.onTheWay[op.n..];
    }
  }

  lemma FrameAppends(st: State, buf: seq<Byte>)
    requires st.status.Connected?
    ensures st.out <= ReadFrame(st, buf).st.out
    ensures ReadFrame(st, buf).st.status in {Connected, Finished, Closed}
  {
    hide WebSocketFrame.ParseFrame, ControlFrame;
  }

  lemma StepAppends(net: Net, op: NetOp)
    requires WellFormed(net.st) && NetOpOk(net, op) && net.st.status in {Connected, Finished, Closed, PendingError}
    ensures net.st.out <= NetStep(net, op).st.out
    ensures NetStep(net, op).st.status in {Connected, Finished, Closed, PendingError}
  {
    hide ReadFrame, ReadHandshakeRequest, ReadHandshakeResponse, ControlFrame, WebSocketFrame.Wire;
    if op.Receive? && net.st.status.Connected? {
      FrameAppends(net.st, net.unread);
    }
  }

  lemma {:induction false} RunAppends(net: Net, ops: seq<NetOp>)
    requires WellFormed(net.st) && NetRunOk(net, ops) && net.st.status in {Connected, Finished, Closed, PendingError}
    ensures net.st.out <= NetRun(net, ops).st.out
    decreases |ops|
  {
    hide NetStep, NetOpOk;
    if ops != [] {
      StepAppends(net, ops[0]);
      RunAppends(NetStep(net, ops[0]), ops[1..]);
    }
  }

  /** A whole schedule, from any point of the handshake: the receiver is still in the handshake, or it has connected
      in one of the calls, having answered if it is a server, and has consumed the first k frames. */
  lemma {:induction false} OpeningRun(net: Net, ops: seq<NetOp>, m: Message, order: seq<seq<Byte>>, fs: seq<Frame>,
                                      stage: nat) returns (connected: bool, k: nat, env: Env)
    requires Opening(net, m, order, fs, stage) && NetRunOk(net, ops)
    ensures var r := NetRun(net, ops);
            if connected then
              && Consumed(r, fs, k) && Receive(env) in ops && EnvOk(net.st, env)
              && Opened(net.st, m, env).out <= r.st.out
            else Opening(r, m, order, fs, k) && r.st == net.st.(http := r.st.http)
    decreases |ops|
  {
    hide Opening, NetStep, Consumed, Opened, Start, EnvOk, WireAll;
    assert WellFormed(net.st) by { OpeningIsWellFormed(net, m, order, fs, stage); }
    connected, k, env := false, stage, Env([], [], []);
    if ops != [] {
      var op, next := ops[0], NetStep(net, ops[0]);
      if op.Receive? && !Recv(net.st, net.unread, op.env).code.WaitingMoreData? {
        var s := OpeningReceives(net, m, order, fs, stage, op.env);
        connected, env := true, op.env;
        StartIsConsumed(next, fs);
        k := NetRunConsumes(next, ops[1..], fs, 0);
        OpenedStatus(net.st, m, env);
        RunAppends(next, ops[1..]);
      } else {
        var s := stage;
        if op.Receive? {
          s := OpeningReceives(net, m, order, fs, stage, op.env);
        } else {
          OpeningStays(net, op, m, order, fs, stage);
        }
        connected, k, env := OpeningRun(next, ops[1..], m, order, fs, s);
        if connected {
          SameOpened(net.st, next.st, m, env);
        }
      }
    }
  }

  lemma OpeningIsWellFormed(net: Net, m: Message, order: seq<seq<Byte>>, fs: seq<Frame>, stage: nat)
    requires Opening(net, m, order, fs, stage)
    ensures WellFormed(net.st)
  {}

  lemma StartIsConsumed(net: Net, fs: seq<Frame>)
    requires Start(net, fs)
    ensures Consumed(net, fs, 0)
  {
    assert fs[0..] == fs && fs[..0] == [];
  }

  lemma OpenedStatus(st: State, m: Message, env: Env)
    requires EnvOk(st, env)
    ensures Opened(st, m, env).status == Connected
  {}

  lemma SameOpened(st: State, next: State, m: Message, env: Env)
    requires next == st.(http := next.http) && EnvOk(next, env)
    ensures EnvOk(st, env) && Opened(next, m, env).out == Opened(st, m, env).out
  {}

  // ---------- delivery over whole connections ----------

  lemma OpeningIsDelivered(r: Net, m: Message, order: seq<seq<Byte>>, fs: seq<Frame>, stage: nat)
    requires Opening(r, m, order, fs, stage)
    ensures Delivered(r, Payloads(fs))
  {
    hide Payloads, Recv, EnvOk, Good, Enumerates, RequestValid, ResponseValid, StageState, StageText, WireAll, Opened,
      NetStep;
    forall env | HasHandler(r.st.status) && EnvOk(r.st, env) ensures ReceivesWell(r, env, Payloads(fs)) {
      var next := OpeningReceives(r, m, order, fs, stage, env);
    }
  }

  /** The receiver at the very start of its connection: in the handshake, nothing read, and the whole output of the
      other side to come. */
  ghost predicate Fresh(net: Net, m: Message, order: seq<seq<Byte>>, out: seq<Output>) {
    && Good(m) && Enumerates(order, m.headers) && Accepts(net.st, m) && net.st.http == H.INITIAL_STATE
    && net.st.message == [] && net.retrieved == []
    && out != [] && out[0] == HandshakeText(HttpWriter.Render(m, order))
    && net.unread + net.onTheWay == AllBytes(out)
  }

  lemma FreshIsOpening(net: Net, m: Message, order: seq<seq<Byte>>, out: seq<Output>, fs: seq<Frame>)
    requires Fresh(net, m, order, out) && FramesOk(fs) && CloseIsLast(fs) && out[1..] == Outputs(!net.st.isClient, fs)
    ensures Opening(net, m, order, fs, 0)
  {
    hide WireOf, Good, Enumerates, Accepts, HttpWriter.Render, Outputs;
    OutputBytes(!net.st.isClient, fs);
  }

  /** A whole connection in one direction. The sender is any run of a protocol object that began with a handshake
      message acceptable to the receiver; the receiver gets the bytes of that run in any pieces, from the first on,
      in any schedule of its own calls. It never fails, hands out the messages that sendMessage accepted, in order,
      and has handed out all of them when everything has arrived and it still waits. */
  lemma {:induction false} ConnectionDelivers(calls: seq<Call>, net: Net, ops: seq<NetOp>, m: Message,
                                              order: seq<seq<Byte>>)
      returns (connected: bool, env: Env)
    requires RunOk(NEW_STATE, calls) && WellFormed(net.st) && NetRunOk(net, ops)
    requires net.st.isClient == !Run(NEW_STATE, calls).isClient
    requires Fresh(net, m, order, Run(NEW_STATE, calls).out)
    ensures var r := NetRun(net, ops);
            && Delivered(r, Accepted(NEW_STATE, calls))
            && (connected <==> r.st.status != net.st.status)
            && (connected ==> Receive(env) in ops && EnvOk(net.st, env) && Opened(net.st, m, env).out <= r.st.out)
  {
    var shake, fs := OutputTrace(calls);
    var sender := Run(NEW_STATE, calls);
    assert sender.out[1..] == Outputs(sender.isClient, fs) by { TraceTail(sender, shake, fs); }
    hide WireOf, Payloads, Run, NetRun, Accepted, Delivered, Fresh, Opened, EnvOk, Trace, Outputs;
    FreshIsOpening(net, m, order, sender.out, fs);
    var k;
    connected, k, env := OpeningRun(net, ops, m, order, fs, 0);
    assert Accepts(net.st, m) by { FreshAccepts(net, m, order, sender.out); }
    if connected {
      ConsumedIsDelivered(NetRun(net, ops), fs, k);
    } else {
      OpeningIsDelivered(NetRun(net, ops), m, order, fs, k);
    }
  }

  lemma FreshAccepts(net: Net, m: Message, order: seq<seq<Byte>>, out: seq<Output>)
    requires Fresh(net, m, order, out)
    ensures Accepts(net.st, m) && out != []
  {}

  lemma TraceTail(st: State, shake: seq<Output>, fs: seq<Frame>)
    requires Trace(st, shake, fs) && st.out != [] && st.out[0].HandshakeText?
    ensures FramesOk(fs) && CloseIsLast(fs) && st.out[1..] == Outputs(st.isClient, fs)
  {
    hide WireOf;
    assert fs == [] ==> |Outputs(st.isClient, fs)| == 0;
  }

  // ---------- the handshake in pieces ----------

  /** What the first two lines of a connection leave behind: a client and a server that may meet. */
  ghost predicate Sides(client: State, server: State, own: Headers, uri: seq<Byte>, order: seq<seq<Byte>>) {
    && client.status.WaitingHandshakeResponse? && client.isClient && client.http == H.INITIAL_STATE
    && client.message == [] && client.headers == own
    && server.status.WaitingHandshakeRequest? && !server.isClient && server.http == H.INITIAL_STATE
    && server.message == [] && server.out == []
    && OwnOk(own, VersionName()) && HasHeader(own, HostName()) && HasHeader(own, KeyName())
    && |GetHeader(own, KeyName())| == 24 && Plain(uri) && SPACE !in uri && Enumerates(order, RequestHeaders(own))
    && OwnOk(server.headers, AcceptName())
  }

  /** startAsClient and startAsServer lead there. */
  lemma StartMakesSides(clientOwn: Headers, serverOwn: Headers, uri: seq<Byte>, random: seq<Byte>, host: seq<Byte>,
                        order: seq<seq<Byte>>, serverEnv: Env, clientEnv: Env)
    requires MayMeet(clientOwn, serverOwn, uri, random, host, order, serverEnv, clientEnv)
    ensures var client := StartAsClient(NEW_STATE.(headers := clientOwn), uri, random, host, order);
            var server := StartAsServer(NEW_STATE.(headers := serverOwn));
            var own := ClientHeaders(clientOwn, random, host);
            && Sides(client, server, own, uri, order)
            && client.out == [HandshakeText(HttpWriter.Render(RequestMessage(own, uri), order))]
  {
    hide OwnOk, Enumerates, ClientHeaders, RequestHeaders, ResponseHeaders, HttpWriter.Render, ResponseKeys, Plain,
      GoodValue, HasHeader, GetHeader, EnvOk;
    ClientHeadersOk(clientOwn, random, host);
    ListsKeys(order, RequestHeaders(ClientHeaders(clientOwn, random, host)));
  }

  lemma ListsKeys(order: seq<seq<Byte>>, h: Headers)
    requires Enumerates(order, h)
    ensures forall k :: k in order ==> k in h
  {}

  lemma SameHeaders(st: State, other: State, env: Env)
    requires EnvOk(st, env) && other.headers == st.headers
    ensures EnvOk(other, env)
  {}

  /** A handshake text in one piece. */
  lemma WholeTextConnects(st: State, m: Message, order: seq<seq<Byte>>, env: Env, rest: seq<Byte>)
    requires st.http == H.INITIAL_STATE && EnvOk(st, env) && Accepts(st, m) && Good(m) && Enumerates(order, m.headers)
    ensures Recv(st, HttpWriter.Render(m, order) + rest, env)
            == Received(ConnectionEstablished, Opened(st, m, env), rest)
  {
    hide Good, HttpWriter.Render, Accepts, Opened, Recv;
    RoundTrip(m, order, rest, env.stale);
    HandshakeReceived(st, m, HttpWriter.Render(m, order) + rest, rest, env);
  }

  /** startAsClient on one side and startAsServer on the other: the request opens the server, the server's answer
      opens the client, and what follows the texts stays in the input buffers. */
  lemma HandshakeConnects(clientOwn: Headers, serverOwn: Headers, uri: seq<Byte>, random: seq<Byte>, host: seq<Byte>,
                          order: seq<seq<Byte>>, serverEnv: Env, clientEnv: Env, rest1: seq<Byte>, rest2: seq<Byte>)
    requires MayMeet(clientOwn, serverOwn, uri, random, host, order, serverEnv, clientEnv)
    ensures var client := StartAsClient(NEW_STATE.(headers := clientOwn), uri, random, host, order);
            var server := StartAsServer(NEW_STATE.(headers := serverOwn));
            && |client.out| == 1
            && WellFormed(server) && EnvOk(server, serverEnv)
            && var s := Recv(server, client.out[0].bytes + rest1, serverEnv);
            && s.code.ConnectionEstablished? && s.st.status.Connected? && s.rest == rest1 && |s.st.out| == 1
            && WellFormed(client) && EnvOk(client, clientEnv)
            && var c := Recv(client, s.st.out[0].bytes + rest2, clientEnv);
            && c.code.ConnectionEstablished? && c.st.status.Connected? && c.rest == rest2
            && c.st.isClient && !s.st.isClient && c.st.message == [] && s.st.message == []
  {
    hide OwnOk, Enumerates, ClientHeaders, RequestHeaders, ResponseHeaders, HttpWriter.Render, Recv, ResponseKeys,
      GoodValue, Plain, HasHeader, GetHeader, EnvOk, Good, RequestValid, ResponseValid;
    ListsKeys(order, RequestHeaders(ClientHeaders(clientOwn, random, host)));
    StartMakesSides(clientOwn, serverOwn, uri, random, host, order, serverEnv, clientEnv);
    var client := StartAsClient(NEW_STATE.(headers := clientOwn), uri, random, host, order);
    var server := StartAsServer(NEW_STATE.(headers := serverOwn));
    var own := client.headers;
    SameHeaders(NEW_STATE.(headers := serverOwn), server, serverEnv);
    SameHeaders(NEW_STATE.(headers := own), client, clientEnv);
    var request := RequestMessage(own, uri);
    RequestIsValid(own, uri);
    WholeTextConnects(server, request, order, serverEnv, rest1);
    var response := ResponseMessage(serverOwn, GetHeader(own, KeyName()), serverEnv.date);
    ResponseIsValid(serverOwn, GetHeader(own, KeyName()), serverEnv.date);
    WholeTextConnects(client, response, serverEnv.order, clientEnv, rest2);
  }

  /** The server's calls are given the current date and a walk over all its handshake headers. */
  ghost predicate DatedCalls(ops: seq<NetOp>, own: Headers, key: seq<Byte>) {
    forall env :: Receive(env) in ops ==>
      GoodValue(env.date) && Enumerates(env.order, ResponseHeaders(own, key, env.date))
  }

  /** A conversation: both sides from the handshake on, each receiving the whole output of any run of the other in
      any pieces and schedule, as long as that output begins with the other's handshake text. Both get every
      message in order, and the server's answer is the one that connects the client. */
  lemma {:induction false} BothSidesHear(client: State, server: State, own: Headers, uri: seq<Byte>,
                                         order: seq<seq<Byte>>,
                                         fromClient: seq<Call>, toServer: Net, serverOps: seq<NetOp>,
                                         fromServer: seq<Call>, toClient: Net, clientOps: seq<NetOp>)
    requires Sides(client, server, own, uri, order) && WellFormed(server) && WellFormed(client)
    requires RunOk(NEW_STATE, fromClient) && Run(NEW_STATE, fromClient).isClient
    requires var out := Run(NEW_STATE, fromClient).out;
             && out != [] && out[0] == HandshakeText(HttpWriter.Render(RequestMessage(own, uri), order))
             && toServer.unread + toServer.onTheWay == AllBytes(out)
    requires toServer.st == server && toServer.retrieved == [] && NetRunOk(toServer, serverOps)
    requires DatedCalls(serverOps, server.headers, GetHeader(own, KeyName()))
    requires RunOk(NEW_STATE, fromServer) && !Run(NEW_STATE, fromServer).isClient
    requires toClient.st == client && toClient.retrieved == [] && NetRunOk(toClient, clientOps)
    requires toClient.unread + toClient.onTheWay == AllBytes(Run(NEW_STATE, fromServer).out)
    ensures Delivered(NetRun(toServer, serverOps), Accepted(NEW_STATE, fromClient))
    ensures var s := NetRun(toServer, serverOps).st;
            !s.status.WaitingHandshakeRequest? ==> s.out != []
    ensures var s, answers := NetRun(toServer, serverOps).st, Run(NEW_STATE, fromServer).out;
            !s.status.WaitingHandshakeRequest? && answers != [] && answers[0] == s.out[0] ==>
              Delivered(NetRun(toClient, clientOps), Accepted(NEW_STATE, fromServer))
  {
    hide Good, RequestValid, ResponseValid, HttpWriter.Render, Run, NetRun, Accepted, Delivered, OwnOk, Enumerates,
      RequestHeaders, ResponseHeaders, ResponseKeys, GoodValue, Plain, GetHeader, HasHeader, EnvOk, Recv;
    RequestIsValid(own, uri);
    var request := RequestMessage(own, uri);
    var connected, env := ConnectionDelivers(fromClient, toServer, serverOps, request, order);
    if connected {
      var key := GetHeader(own, KeyName());
      assert GoodValue(env.date) && Enumerates(env.order, ResponseHeaders(server.headers, key, env.date));
      ResponseIsValid(server.headers, key, env.date);
      var response := ResponseMessage(server.headers, key, env.date);
      var s := NetRun(toServer, serverOps).st;
      ListsKeys(env.order, response.headers);
      assert Answer(server, request, env) == HandshakeText(HttpWriter.Render(response, env.order));
      assert s.out[0] == Answer(server, request, env);
      if Run(NEW_STATE, fromServer).out != [] && Run(NEW_STATE, fromServer).out[0] == s.out[0] {
        var c, e := ConnectionDelivers(fromServer, toClient, clientOps, response, env.order);
      }
    }
  }

  /** Such connections exist: a fresh client's start and a fresh server make one. */
  lemma ConnectionBegins(uri: seq<Byte>, random: seq<Byte>, host: seq<Byte>, date: seq<Byte>, stale: seq<Byte>)
      returns (calls: seq<Call>, net: Net, m: Message, order: seq<seq<Byte>>)
    requires |random| == 16 && GoodValue(host) && Plain(uri) && SPACE !in uri && GoodValue(date) && |stale| == 2
    ensures RunOk(NEW_STATE, calls) && WellFormed(net.st) && net.st.isClient == !Run(NEW_STATE, calls).isClient
    ensures Fresh(net, m, order, Run(NEW_STATE, calls).out)
  {
    hide GoodValue, Plain, OwnOk, Enumerates, ClientHeaders, RequestHeaders, ResponseHeaders, ResponseKeys, HasHeader,
      GetHeader, Good, RequestValid, HttpWriter.Render, AllBytes;
    var serverEnv: Env, clientEnv: Env;
    order, serverEnv, clientEnv := PlainSidesMayMeet(uri, random, host, date, stale);
    StartMakesSides(map[], map[], uri, random, host, order, serverEnv, clientEnv);
    var own := ClientHeaders(map[], random, host);
    ListsKeys(order, RequestHeaders(own));
    RequestIsValid(own, uri);
    calls := [CallStartClient(uri, random, host, order)];
    m := RequestMessage(own, uri);
    var client := StartAsClient(NEW_STATE, uri, random, host, order);
    assert Step(NEW_STATE, calls[0]) == client && Run(client, []) == client;
    net := Net(StartAsServer(NEW_STATE), [], AllBytes(client.out), []);
    assert net.unread + net.onTheWay == net.onTheWay;
  }
}
