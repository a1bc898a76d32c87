/** The state machine of src/brickred/protocol/web_socket_protocol.cc as functions on its fields. */
module WebSocketSpec {
  import opened Bytes
  import opened StringUtil
  import opened HttpMessages
  import opened Options
  import opened WebSocketFrame
  import H = HttpParser
  import HttpWriter
  import ShaSpec
  import Base64

  datatype Status =
    | Detached | WaitingHandshakeRequest | WaitingHandshakeResponse | Connected | Finished | Closed | PendingError

  datatype RetCode =
    | Error | WaitingMoreData | ConnectionEstablished | MessageReady | PeerClosed | PingFrame | PongFrame

  /** One call of the output callback. */
  datatype Output = HandshakeText(bytes: seq<Byte>) | FrameBytes(bytes: seq<Byte>)

  /** The fields of WebSocketProtocol::Impl, with everything passed to the output callback so far. */
  datatype State = State(
    status: Status,
    isClient: bool,
    closeFrameSent: bool,
    lastOpCode: int,
    message: seq<Byte>,
    http: H.State,
    headers: Headers,
    out: seq<Output>)

  /** What a call takes from its surroundings: stale bytes behind the input buffer (see HttpParser), the order in
      which std::map walks the handshake headers, and the text of the current date. */
  datatype Env = Env(stale: seq<Byte>, order: seq<seq<Byte>>, date: seq<Byte>)

  const NEW_STATE := State(Detached, false, false, -1, [], H.INITIAL_STATE, map[], [])

  // ---------- handshake (section 4 of RFC 6455) ----------

  function Guid(): seq<Byte> { Ascii("258EAFA5-E914-47DA-95CA-C5AB0DC85B11") }

  function KeyName(): seq<Byte> { Ascii("Sec-WebSocket-Key") }

  function AcceptName(): seq<Byte> { Ascii("Sec-WebSocket-Accept") }

  function AcceptValue(key: seq<Byte>): (v: seq<Byte>) {
    Base64.Encode(ShaSpec.Hash(ShaSpec.Sha1, key + Guid()))
  }

  /** Headers set one after the other on top of others. */
  function Overlay(base: Headers, own: Headers): (r: Headers)
    ensures r.Keys == base.Keys + own.Keys
  {
    map k | k in base.Keys + own.Keys ::
      if k !in own then base[k] else if k in base then Header(base[k].key, own[k].value) else own[k]
  }

  function UpgradeHeaders(): (h: Headers) {
    SetHeader(SetHeader(map[], Ascii("Upgrade"), Ascii("websocket")), Ascii("Connection"), Ascii("Upgrade"))
  }

  function RequestHeaders(own: Headers): (h: Headers) {
    Overlay(SetHeader(UpgradeHeaders(), Ascii("Sec-WebSocket-Version"), Ascii("13")), own)
  }

  function ResponseHeaders(own: Headers, key: seq<Byte>, date: seq<Byte>): (h: Headers)
    ensures h.Keys == ResponseKeys(own)
  {
    var h := Overlay(SetHeader(UpgradeHeaders(), AcceptName(), AcceptValue(key)), own);
    if HasHeader(h, Ascii("Date")) then SetHeader(h, Ascii("Date"), date) else h
  }

  function ResponseKeys(own: Headers): (s: set<seq<Byte>>) {
    UpgradeHeaders().Keys + {Lower(AcceptName())} + own.Keys
  }

  function RequestMessage(own: Headers, uri: seq<Byte>): (m: Message) {
    Message(Request(Get, uri), Http11, RequestHeaders(own), [])
  }

  function ResponseMessage(own: Headers, key: seq<Byte>, date: seq<Byte>): (m: Message) {
    Message(Response(101, Ascii("Switching Protocols")), Http11, ResponseHeaders(own, key, date), [])
  }

  /** The handshake headers of a client, with a key and a host supplied when missing. */
  function ClientHeaders(own: Headers, random: seq<Byte>, host: seq<Byte>): (h: Headers) {
    var h := if HasHeader(own, KeyName()) then own else SetHeader(own, KeyName(), Base64.Encode(random));
    if HasHeader(h, Ascii("Host")) then h else SetHeader(h, Ascii("Host"), host)
  }

  predicate RequestValid(h: Headers) {
    && HasHeader(h, Ascii("Host"))
    && HeaderContain(h, Ascii("Upgrade"), Ascii("websocket"))
    && HeaderContain(h, Ascii("Connection"), Ascii("Upgrade"))
    && |GetHeader(h, KeyName())| == 24
    && HeaderEqual(h, Ascii("Sec-WebSocket-Version"), Ascii("13"))
  }

  predicate ResponseValid(code: int, h: Headers, key: seq<Byte>) {
    && code == 101
    && HeaderContain(h, Ascii("Upgrade"), Ascii("websocket"))
    && HeaderContain(h, Ascii("Connection"), Ascii("Upgrade"))
    && HeaderEqual(h, AcceptName(), AcceptValue(key))
  }

  function BadRequest(): (s: seq<Byte>) {
    Ascii("HTTP/1.1 400 Bad Request") + CRLF + CRLF
  }

  function Emit(st: State, o: Output): (r: State) { st.(out := st.out + [o]) }

  /** Result of a status handler: -1 error, 0 wait for data, 1 go on, 2 return `code`. */
  datatype Outcome = Outcome(ret: int, st: State, rest: seq<Byte>, code: RetCode)

  predicate WellFormed(st: State) { H.WellFormed(st.http) }

  predicate EnvOk(st: State, env: Env) {
    |env.stale| == 2 && forall k :: k in env.order ==> k in ResponseKeys(st.headers)
  }

  function ReadHandshakeRequest(st: State, buf: seq<Byte>, env: Env): (o: Outcome)
    requires WellFormed(st) && EnvOk(st, env)
    ensures WellFormed(o.st) && o.ret in {-1, 0, 2}
    ensures o.ret == 2 ==> o.st.status.Connected? && o.code.ConnectionEstablished?
    ensures o.ret != 2 ==> o.st.status == st.status
    ensures o.st.isClient == st.isClient && o.st.closeFrameSent == st.closeFrameSent && o.st.headers == st.headers
    ensures o.st.message == st.message && o.st.lastOpCode == st.lastOpCode
    ensures if o.ret == 0 then o.st.out == st.out else exists t :: o.st.out == st.out + [HandshakeText(t)]
  {
    var r := H.Recv(st.http, buf, env.stale);
    var st' := st.(http := r.st);
    if r.code.WaitingMoreData? then Outcome(0, st', r.rest, Error)
    else if r.code.Error? || !r.st.message.value.kind.Request? then
      Outcome(-1, Emit(st', HandshakeText(BadRequest())), r.rest, Error)
    else
      var m := r.st.message.value;
      var st'' := st.(http := H.INITIAL_STATE);
      if !RequestValid(m.headers) then Outcome(-1, Emit(st'', HandshakeText(BadRequest())), r.rest, Error)
      else
        var response := ResponseMessage(st.headers, GetHeader(m.headers, KeyName()), env.date);
        Outcome(2, Emit(st'', HandshakeText(HttpWriter.Render(response, env.order))).(status := Connected), r.rest,
                ConnectionEstablished)
  }

  function ReadHandshakeResponse(st: State, buf: seq<Byte>, env: Env): (o: Outcome)
    requires WellFormed(st) && |env.stale| == 2
    ensures WellFormed(o.st) && o.ret in {-1, 0, 2}
    ensures o.ret == 2 ==> o.st.status.Connected? && o.code.ConnectionEstablished?
    ensures o.st == st.(status := o.st.status, http := o.st.http)
    ensures o.ret != 2 ==> o.st.status == st.status
  {
    var r := H.Recv(st.http, buf, env.stale);
    var st' := st.(http := r.st);
    if r.code.WaitingMoreData? then Outcome(0, st', r.rest, Error)
    else if r.code.Error? || !r.st.message.value.kind.Response? then Outcome(-1, st', r.rest, Error)
    else
      var m := r.st.message.value;
      var st'' := st.(http := H.INITIAL_STATE);
      if !ResponseValid(m.kind.statusCode, m.headers, GetHeader(st.headers, KeyName())) then
        Outcome(-1, st'', r.rest, Error)
      else Outcome(2, st''.(status := Connected), r.rest, ConnectionEstablished)
  }

  // ---------- frames ----------

  function ZeroKey(): (k: seq<Byte>)
    ensures |k| == 4
  {
    [0, 0, 0, 0]
  }

  /** A close, ping or pong frame of one side: no payload, and the all-zero key of a client. */
  function ControlFrame(isClient: bool, opcode: nat): (s: seq<Byte>)
    requires opcode < 16
  {
    Wire(isClient, true, opcode, ZeroKey(), [])
  }

  predicate MaySend(st: State) { st.status.Connected? && !st.closeFrameSent }

  function SendCloseFrame(st: State): (r: State) {
    if MaySend(st) then Emit(st, FrameBytes(ControlFrame(st.isClient, OP_CLOSE))).(closeFrameSent := true) else st
  }

  function SendPingFrame(st: State): (r: State) {
    if MaySend(st) then Emit(st, FrameBytes(ControlFrame(st.isClient, OP_PING))) else st
  }

  function SendPongFrame(st: State): (r: State) {
    if MaySend(st) then Emit(st, FrameBytes(ControlFrame(st.isClient, OP_PONG))) else st
  }

  /** sendMessage with the four random bytes of a client's mask key. */
  function SendMessage(st: State, key: seq<Byte>, payload: seq<Byte>): (r: State)
    requires |key| == 4 && |payload| < SIZE_LIMIT
  {
    if MaySend(st) then Emit(st, FrameBytes(Wire(st.isClient, true, OP_BINARY, key, payload))) else st
  }

  /** The last part of readFrame: the opcode of a final frame, or of its first fragment. */
  function FinishFrame(st: State, op: int, rest: seq<Byte>): (o: Outcome)
    ensures o.rest == rest && o.ret in {-1, 0, 1, 2} && (WellFormed(st) ==> WellFormed(o.st))
    ensures o.st.http == st.http && o.st.isClient == st.isClient && o.st.headers == st.headers
  {
    if op == OP_TEXT || op == OP_BINARY then Outcome(1, st.(status := Finished), rest, Error)
    else if op == OP_CLOSE then Outcome(1, SendCloseFrame(st).(status := Closed, message := []), rest, Error)
    else if op == OP_PING then Outcome(2, SendPongFrame(st.(message := [])), rest, PingFrame)
    else if op == OP_PONG then Outcome(2, st.(message := []), rest, PongFrame)
    else Outcome(-1, st, rest, Error)
  }

  /** readFrame after a whole frame has been consumed. */
  function ApplyFrame(st: State, fin: bool, opcode: nat, payload: seq<Byte>, rest: seq<Byte>): (o: Outcome)
    ensures o.rest == rest && o.ret in {-1, 0, 1, 2} && (WellFormed(st) ==> WellFormed(o.st))
    ensures o.st.http == st.http && o.st.isClient == st.isClient && o.st.headers == st.headers
  {
    var st1 := st.(message := st.message + payload);
    if !fin then
      Outcome(0, if opcode != OP_CONTINUATION then st1.(lastOpCode := opcode) else st1, rest, Error)
    else if opcode != OP_CONTINUATION then FinishFrame(st1, opcode, rest)
    else FinishFrame(st1.(lastOpCode := -1), st1.lastOpCode, rest)
  }

  function ReadFrame(st: State, buf: seq<Byte>): (o: Outcome)
    ensures WellFormed(st) ==> WellFormed(o.st)
    ensures o.st.http == st.http && o.st.isClient == st.isClient && o.st.headers == st.headers
    ensures o.ret in {-1, 0, 1, 2}
  {
    match ParseFrame(st.isClient, buf)
    case Incomplete => Outcome(0, st, buf, Error)
    case Malformed => Outcome(-1, st, buf, Error)
    case Whole(fin, opcode, payload, size) => ApplyFrame(st, fin, opcode, payload, buf[size..])
  }

  // ---------- the calls ----------

  datatype Received = Received(code: RetCode, st: State, rest: seq<Byte>)

  predicate HasHandler(s: Status) {
    s.WaitingHandshakeRequest? || s.WaitingHandshakeResponse? || s.Connected?
  }

  /** The status table. */
  function Handle(st: State, buf: seq<Byte>, env: Env): (o: Outcome)
    requires WellFormed(st) && EnvOk(st, env) && HasHandler(st.status)
    ensures WellFormed(o.st) && o.ret in {-1, 0, 1, 2}
    ensures o.st.headers == st.headers && o.st.isClient == st.isClient
  {
    if st.status.WaitingHandshakeRequest? then ReadHandshakeRequest(st, buf, env)
    else if st.status.WaitingHandshakeResponse? then ReadHandshakeResponse(st, buf, env)
    else ReadFrame(st, buf)
  }

  /** recvMessage: every handler makes the status loop return after one round. */
  function Recv(st: State, buf: seq<Byte>, env: Env): (r: Received)
    requires WellFormed(st) && EnvOk(st, env)
    ensures WellFormed(r.st)
    ensures r.st.headers == st.headers && r.st.isClient == st.isClient
  {
    if !HasHandler(st.status) then Received(Error, st, buf)
    else
      var o := Handle(st, buf, env);
      if o.ret == 0 then Received(WaitingMoreData, o.st, o.rest)
      else if o.ret == -1 then Received(Error, o.st.(status := PendingError), o.rest)
      else if o.ret == 2 then Received(o.code, o.st, o.rest)
      else Received(if o.st.status.Finished? then MessageReady else PeerClosed, o.st, o.rest)
  }

  /** retrieveMessage. */
  function Retrieve(st: State): (r: (State, Option<seq<Byte>>)) {
    if st.status.Finished? then (st.(status := Connected, message := []), Some(st.message)) else (st, None)
  }

  function StartAsServer(st: State): (r: State) {
    if st.status.Detached? then st.(status := WaitingHandshakeRequest, isClient := false) else st
  }

  /** startAsClient with sixteen random bytes, the peer's address text, and the order of the header walk. */
  function StartAsClient(st: State, uri: seq<Byte>, random: seq<Byte>, host: seq<Byte>, order: seq<seq<Byte>>)
      : (r: State)
    requires forall k :: k in order ==> k in RequestHeaders(ClientHeaders(st.headers, random, host))
  {
    if st.status.Detached? then
      var own := ClientHeaders(st.headers, random, host);
      Emit(st, HandshakeText(HttpWriter.Render(RequestMessage(own, uri), order)))
      .(status := WaitingHandshakeResponse, isClient := true, headers := own)
    else st
  }

  function SetHandshakeHeader(st: State, key: seq<Byte>, value: seq<Byte>): (r: State) {
    st.(headers := SetHeader(st.headers, key, value))
  }
}
