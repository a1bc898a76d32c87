/** The object of src/brickred/protocol/web_socket_protocol.cc: its methods update the fields, the message buffer
    and the input buffer in place, and are proved to compute the functions of WebSocketSpec. */
module WebSocketProtocols {
  import opened Bytes
  import opened Buffers
  import opened HttpMessages
  import opened Options
  import opened WebSocketFrame
  import opened WebSocketSpec
  import H = HttpParser
  import HttpWriter
  import HttpProtocols

  /** The default DynamicBuffer. */
  const FRESH_BUFFER := Layout(1024, 0, 0, 1024)

  class WebSocketProtocol {
    var status: Status
    var isClient: bool
    var closeFrameSent: bool
    var lastOpCode: int
    var retCode: RetCode
    var headers: Headers
    const message: DynamicBuffer
    const http: HttpProtocols.HttpProtocol
    // What the output callback has been called with.
    var output: seq<Output>

    function View(): State
      requires message.Valid()
      reads this, message, message.data, http
    {
      State(status, isClient, closeFrameSent, lastOpCode, message.Contents(), http.View(), headers, output)
    }

    ghost predicate Valid()
      reads this, message, http
    {
      message.Valid() && http.Valid()
    }

    constructor ()
      ensures Valid() && View() == NEW_STATE
      ensures fresh(message) && fresh(message.data) && fresh(http)
    {
      status, isClient, closeFrameSent, lastOpCode, retCode := Detached, false, false, -1, RetCode.Error;
      headers, output := map[], [];
      message := new DynamicBuffer(1024, 1024);
      http := new HttpProtocols.HttpProtocol();
    }

    // ---------- senders ----------

    /** sendMessage; `key` stands for four calls of the random generator. */
    method SendMessage(buffer: seq<Byte>, key: seq<Byte>)
      requires Valid() && |key| == 4 && |buffer| < SIZE_LIMIT - 8192
      modifies this`output
      ensures View() == WebSocketSpec.SendMessage(old(View()), key, buffer)
    {
      if status != Connected {
        return;
      }
      if closeFrameSent {
        return;
      }
      var frame := BuildFrame(isClient, buffer, key);
      output := output + [FrameBytes(frame)];
    }

    /** The frame is built in a buffer of its own. */
    static method BuildFrame(isClient: bool, buffer: seq<Byte>, key: seq<Byte>) returns (frame: seq<Byte>)
      requires |key| == 4 && |buffer| < SIZE_LIMIT - 8192
      ensures frame == Wire(isClient, true, OP_BINARY, key, buffer)
    {
      hide LengthField, Mask;
      var m := new DynamicBuffer(1024, 1024);
      m.Append([0x82]);
      BuildLength(m, isClient, |buffer|);
      ghost var head := m.Contents();
      assert head == [0x82] + LengthField(isClient, |buffer|);
      if isClient {
        m.Append(key);
        m.AppendMasked(key, buffer);
        assert head + key + Mask(key, buffer) == head + (key + Mask(key, buffer));
      } else {
        m.Append(buffer);
      }
      frame := m.Contents();
    }

    /** The mask flag and the payload length. */
    static method BuildLength(m: DynamicBuffer, isClient: bool, size: nat)
      requires m.Valid() && m.expandSize == 1024 && m.ReadableBytes() == 1 && size < SIZE_LIMIT
      modifies m, m.data
      ensures m.Valid() && m.expandSize == 1024 && (m.data == old(m.data) || fresh(m.data))
      ensures m.Contents() == old(m.Contents()) + LengthField(isClient, size)
    {
      hide ToBigEndian;
      ghost var first := m.Contents();
      var mask := if isClient then 0x80 else 0;
      if size < 126 {
        m.Append([mask + size]);
      } else if size < 65535 {
        m.Append([mask + 126]);
        m.WriteInt16(size);
        assert first + [mask + 126] + ToBigEndian(size, 2) == first + ([mask + 126] + ToBigEndian(size, 2));
      } else {
        m.Append([mask + 127]);
        m.WriteInt64(size);
        assert first + [mask + 127] + ToBigEndian(size, 8) == first + ([mask + 127] + ToBigEndian(size, 8));
      }
    }

    method SendControl(opcode: Byte)
      requires Valid() && opcode < 16
      modifies this`output
      ensures View() == Emit(old(View()), FrameBytes(ControlFrame(isClient, opcode)))
    {
      ControlFrameBytes(opcode);
      var frame := if isClient then [0x80 + opcode, 0x80, 0, 0, 0, 0] else [0x80 + opcode, 0];
      output := output + [FrameBytes(frame)];
    }

    method SendCloseFrame()
      requires Valid()
      modifies this`output, this`closeFrameSent
      ensures View() == WebSocketSpec.SendCloseFrame(old(View()))
    {
      hide ControlFrame;
      if status != Connected || closeFrameSent {
        return;
      }
      closeFrameSent := true;
      SendControl(OP_CLOSE);
    }

    method SendPingFrame()
      requires Valid()
      modifies this`output
      ensures View() == WebSocketSpec.SendPingFrame(old(View()))
    {
      hide ControlFrame;
      if status != Connected || closeFrameSent {
        return;
      }
      SendControl(OP_PING);
    }

    method SendPongFrame()
      requires Valid()
      modifies this`output
      ensures View() == WebSocketSpec.SendPongFrame(old(View()))
    {
      hide ControlFrame;
      if status != Connected || closeFrameSent {
        return;
      }
      SendControl(OP_PONG);
    }

    // ---------- frames ----------

    /** Room for one more payload without overflowing 64 bits. */
    ghost predicate Fits(buffer: DynamicBuffer)
      requires Valid() && buffer.Valid()
      reads this, message, http, buffer
    {
      message.expandSize > 0 && message.ReadableBytes() + buffer.ReadableBytes() + 2 * message.expandSize < SIZE_LIMIT
    }

    /** The length field at the front of the buffer, through the big-endian peeks. */
    method PeekLength(buffer: DynamicBuffer) returns (n: int, header: nat)
      requires buffer.Valid() && buffer.ReadableBytes() >= 2
      ensures (n, header) == ReadLength(buffer.Contents())
    {
      hide BigEndian;
      var b := buffer.Contents();
      n, header := b[1] % 128, 2;
      if n == 126 {
        var ok, v := buffer.PeekInt16(2);
        if !ok {
          return -1, 0;
        }
        if v < 126 {
          return -2, 0;
        }
        return v, 4;
      } else if n == 127 {
        var ok, v := buffer.PeekInt64(2);
        if !ok {
          return -1, 0;
        }
        if v < 0xffff {
          return -2, 0;
        }
        return v, 10;
      }
    }

    /** The checks of readFrame: 0 when bytes are missing, -1 for a malformed frame, else where its payload lies. */
    method LocatePayload(buffer: DynamicBuffer) returns (found: int, start: nat, n: nat, masked: bool)
      requires buffer.Valid()
      ensures var b := buffer.Contents();
              match ParseFrame(isClient, b)
              case Incomplete => found == 0
              case Malformed => found == -1
              case Whole(fin, opcode, payload, size) =>
                && found == 1 && start + n == size && 2 <= start && (masked ==> start >= 6)
                && fin == (b[0] >= 128) && opcode == b[0] % 16
                && payload == if masked then Mask(b[start - 4..start], b[start..size]) else b[start..size]
    {
      hide ReadLength, Mask;
      found, start, n, masked := 0, 0, 0, false;
      if buffer.ReadableBytes() < 2 {
        return;
      }
      var b := buffer.Contents();
      if b[0] / 16 % 8 != 0 {
        found := -1;
        return;
      }
      var length, header := PeekLength(buffer);
      if length == -1 {
        return;
      } else if length < 0 {
        found := -1;
        return;
      }
      masked := b[1] >= 128;
      if masked && isClient {
        found := -1;
        return;
      }
      if masked && |b| < header + 4 {
        return;
      }
      start, n := if masked then header + 4 else header, length;
      if |b| < start + n {
        return;
      }
      found := 1;
    }

    method ReadFrame(buffer: DynamicBuffer) returns (ret: int)
      requires Valid() && buffer.Valid() && Fits(buffer) && buffer != message && buffer.data != message.data
      requires status.Connected?
      modifies this, message`data, message`readIndex, message`writeIndex, message.data,
               buffer`readIndex, buffer`writeIndex
      ensures Valid() && buffer.Valid()
      ensures message.data == old(message.data) || fresh(message.data)
      ensures var o := WebSocketSpec.ReadFrame(old(View()), old(buffer.Contents()));
              && ret == o.ret && View() == o.st && buffer.Contents() == o.rest
              && (ret == 2 ==> retCode == o.code)
    {
      hide ParseFrame, Mask, ApplyFrame;
      var b := buffer.Contents();
      var found, start, n, masked := LocatePayload(buffer);
      if found != 1 {
        return found;
      }
      var size := start + n;
      var fin, op, bytes := b[0] >= 128, b[0] % 16, b[start..size];
      ghost var before, payload, rest := View(), ParseFrame(isClient, b).payload, b[size..];
      assert WebSocketSpec.ReadFrame(before, b) == ApplyFrame(before, fin, op, payload, rest);
      hide WebSocketSpec.ReadFrame;
      TakePayload(bytes, masked, if masked then b[start - 4..start] else [0, 0, 0, 0]);
      assert View() == before.(message := before.message + payload);
      buffer.Read(size);
      ret := ProcessFrame(fin, op, before, payload, rest);
    }

    /** Appends a payload to the message buffer, unmasking it there. */
    method TakePayload(payload: seq<Byte>, masked: bool, key: seq<Byte>)
      requires Valid() && |key| == 4
      requires message.expandSize > 0 && message.ReadableBytes() + |payload| + 2 * message.expandSize < SIZE_LIMIT
      modifies message`data, message`readIndex, message`writeIndex, message.data
      ensures Valid() && (message.data == old(message.data) || fresh(message.data))
      ensures message.Contents() == old(message.Contents()) + if masked then Mask(key, payload) else payload
    {
      hide Mask;
      if |payload| > 0 {
        if masked {
          message.AppendMasked(key, payload);
        } else {
          message.Append(payload);
        }
      } else {
        MaskEmpty(key, payload);
      }
    }

    /** The second half of readFrame: what a consumed frame does. */
    method ProcessFrame(fin: bool, op: nat, ghost before: State, ghost payload: seq<Byte>, ghost rest: seq<Byte>)
      returns (ret: int)
      requires Valid() && status.Connected?
      requires View() == before.(message := before.message + payload)
      modifies this`status, this`closeFrameSent, this`lastOpCode, this`retCode, this`output,
               message`readIndex, message`writeIndex
      ensures Valid()
      ensures var o := ApplyFrame(before, fin, op, payload, rest);
              ret == o.ret && View() == o.st && (ret == 2 ==> retCode == o.code)
    {
      if !fin {
        if op != OP_CONTINUATION {
          lastOpCode := op;
        }
        return 0;
      }
      var opcode: int := op;
      if op == OP_CONTINUATION {
        opcode := lastOpCode;
        lastOpCode := -1;
      }
      ret := ProcessFinal(opcode, rest);
    }

    /** The opcode of a final frame, that of its first fragment for a continuation. */
    method ProcessFinal(opcode: int, ghost rest: seq<Byte>) returns (ret: int)
      requires Valid() && status.Connected?
      modifies this`status, this`closeFrameSent, this`retCode, this`output, message`readIndex, message`writeIndex
      ensures Valid()
      ensures var o := FinishFrame(old(View()), opcode, rest);
              ret == o.ret && View() == o.st && (ret == 2 ==> retCode == o.code)
    {
      hide ControlFrame;
      if opcode == OP_TEXT || opcode == OP_BINARY {
        status := Finished;
        return 1;
      } else if opcode == OP_CLOSE {
        SendCloseFrame();
        status := Closed;
        message.Clear();
        return 1;
      } else if opcode == OP_PING {
        message.Clear();
        SendPongFrame();
        retCode := PingFrame;
        return 2;
      } else if opcode == OP_PONG {
        message.Clear();
        retCode := PongFrame;
        return 2;
      } else {
        return -1;
      }
    }

    // ---------- handshake ----------

    ghost predicate HandshakeFits(env: Env)
      reads this
    {
      && (forall k :: k in env.order ==> k in ResponseKeys(headers))
      && forall key: seq<Byte> :: |key| == 24 ==>
           HttpWriter.SizesFit(FRESH_BUFFER, ResponseMessage(headers, key, env.date), env.order)
    }

    /** HttpProtocol::sendMessage: an empty body is never cut off. */
    method SendHttp(m: Message, order: seq<seq<Byte>>)
      requires Valid() && m.body == []
      requires forall k :: k in order ==> k in m.headers
      requires HttpWriter.CodeFits(m) && HttpWriter.SizesFit(FRESH_BUFFER, m, order)
      modifies this`output
      ensures View() == Emit(old(View()), HandshakeText(HttpWriter.Render(m, order)))
    {
      hide HttpWriter.Render;
      var buffer := new DynamicBuffer(1024, 1024);
      HttpWriter.WriteMessage(m, order, buffer);
      assert [] + HttpWriter.Render(m, order) == HttpWriter.Render(m, order);
      output := output + [HandshakeText(buffer.Contents())];
    }

    method ReadHandshakeRequest(buffer: DynamicBuffer, env: Env) returns (ret: int)
      requires Valid() && buffer.Valid() && buffer != message && buffer.data != message.data
      requires EnvOk(View(), env) && HandshakeFits(env)
      modifies this, http, buffer`readIndex, buffer`writeIndex
      ensures Valid() && buffer.Valid()
      ensures var o := WebSocketSpec.ReadHandshakeRequest(old(View()), old(buffer.Contents()), env);
              && ret == o.ret && View() == o.st && buffer.Contents() == o.rest
              && (ret == 2 ==> retCode == o.code)
    {
      hide H.Recv, RequestValid, ResponseMessage, HttpWriter.Render, BadRequest, ResponseKeys;
      var code := http.RecvMessage(buffer, env.stale);
      if code == H.WaitingMoreData {
        return 0;
      } else if code == H.Error {
        output := output + [HandshakeText(BadRequest())];
        return -1;
      }
      var request := http.Retrieve(true);
      if request == None {
        output := output + [HandshakeText(BadRequest())];
        return -1;
      }
      if !RequestValid(request.value.headers) {
        output := output + [HandshakeText(BadRequest())];
        return -1;
      }
      RequestKey(request.value.headers);
      Answer(GetHeader(request.value.headers, KeyName()), env);
      return 2;
    }

    /** The response to a valid request with this key. */
    method Answer(key: seq<Byte>, env: Env)
      requires Valid() && HandshakeFits(env) && |key| == 24
      modifies this`output, this`status, this`retCode
      ensures Valid() && retCode == ConnectionEstablished
      ensures var response := ResponseMessage(headers, key, env.date);
              View() == Emit(old(View()), HandshakeText(HttpWriter.Render(response, env.order))).(status := Connected)
    {
      hide ResponseMessage, HttpWriter.Render, HttpWriter.SizesFit, HttpWriter.CodeFits, ResponseKeys;
      ResponseShape(headers, key, env.date);
      SendHttp(ResponseMessage(headers, key, env.date), env.order);
      status, retCode := Connected, ConnectionEstablished;
    }

    method ReadHandshakeResponse(buffer: DynamicBuffer, env: Env) returns (ret: int)
      requires Valid() && buffer.Valid() && buffer != message && buffer.data != message.data
      requires |env.stale| == 2
      modifies this, http, buffer`readIndex, buffer`writeIndex
      ensures Valid() && buffer.Valid()
      ensures var o := WebSocketSpec.ReadHandshakeResponse(old(View()), old(buffer.Contents()), env);
              && ret == o.ret && View() == o.st && buffer.Contents() == o.rest
              && (ret == 2 ==> retCode == o.code)
    {
      hide H.Recv, ResponseValid;
      var code := http.RecvMessage(buffer, env.stale);
      if code == H.WaitingMoreData {
        return 0;
      } else if code == H.Error {
        return -1;
      }
      var response := http.Retrieve(false);
      if response == None {
        return -1;
      }
      if !ResponseValid(response.value.kind.statusCode, response.value.headers, GetHeader(headers, KeyName())) {
        return -1;
      }
      status, retCode := Connected, ConnectionEstablished;
      return 2;
    }

    // ---------- the calls ----------

    /** The handler of the current status. */
    method Handle(buffer: DynamicBuffer, env: Env) returns (ret: int)
      requires Valid() && buffer.Valid() && Fits(buffer) && buffer != message && buffer.data != message.data
      requires EnvOk(View(), env) && HandshakeFits(env) && HasHandler(status)
      modifies this, http, message`data, message`readIndex, message`writeIndex, message.data,
               buffer`readIndex, buffer`writeIndex
      ensures Valid() && buffer.Valid()
      ensures var o := WebSocketSpec.Handle(old(View()), old(buffer.Contents()), env);
              && ret == o.ret && View() == o.st && buffer.Contents() == o.rest
              && (ret == 2 ==> retCode == o.code)
    {
      hide WebSocketSpec.ReadFrame, WebSocketSpec.ReadHandshakeRequest, WebSocketSpec.ReadHandshakeResponse;
      hide HttpWriter.SizesFit, ResponseMessage, ResponseKeys;
      if status.WaitingHandshakeRequest? {
        ret := ReadHandshakeRequest(buffer, env);
      } else if status.WaitingHandshakeResponse? {
        ret := ReadHandshakeResponse(buffer, env);
      } else {
        ret := ReadFrame(buffer);
      }
    }

    /** recvMessage. */
    method RecvMessage(buffer: DynamicBuffer, env: Env) returns (code: RetCode)
      requires Valid() && buffer.Valid() && Fits(buffer) && buffer != message && buffer.data != message.data
      requires EnvOk(View(), env) && HandshakeFits(env)
      modifies this, http, message`data, message`readIndex, message`writeIndex, message.data,
               buffer`readIndex, buffer`writeIndex
      ensures Valid() && buffer.Valid()
      ensures Received(code, View(), buffer.Contents()) == Recv(old(View()), old(buffer.Contents()), env)
    {
      hide WebSocketSpec.Handle, HttpWriter.SizesFit, ResponseMessage, ResponseKeys;
      if !HasHandler(status) {
        return RetCode.Error;
      }
      var ret := Handle(buffer, env);
      if ret == 0 {
        return WaitingMoreData;
      } else if ret == -1 {
        status := PendingError;
        return RetCode.Error;
      } else if ret == 2 {
        return retCode;
      }
      return if status == Finished then MessageReady else PeerClosed;
    }

    /** retrieveMessage: swaps the message into the caller's buffer. */
    method RetrieveMessage(target: DynamicBuffer) returns (ok: bool)
      requires Valid() && target.Valid() && target != message
      modifies this`status, message, target
      ensures Valid() && target.Valid()
      ensures View() == Retrieve(old(View())).0 && ok == Retrieve(old(View())).1.Some?
      ensures ok ==> target.Contents() == Retrieve(old(View())).1.value && message.expandSize == old(target.expandSize)
      ensures !ok ==> target.Contents() == old(target.Contents())
    {
      if status != Finished {
        return false;
      }
      target.Swap(message);
      message.Clear();
      status := Connected;
      return true;
    }

    method StartAsServer() returns (ok: bool)
      requires Valid()
      modifies this`status, this`isClient
      ensures View() == WebSocketSpec.StartAsServer(old(View())) && ok == old(status).Detached?
    {
      if status != Detached {
        return false;
      }
      status, isClient := WaitingHandshakeRequest, false;
      return true;
    }

    /** startAsClient. */
    method StartAsClient(uri: seq<Byte>, random: seq<Byte>, host: seq<Byte>, order: seq<seq<Byte>>) returns (ok: bool)
      requires Valid()
      requires forall k :: k in order ==> k in RequestHeaders(ClientHeaders(headers, random, host))
      requires HttpWriter.SizesFit(FRESH_BUFFER, RequestMessage(ClientHeaders(headers, random, host), uri), order)
      modifies this
      ensures Valid()
      ensures View() == WebSocketSpec.StartAsClient(old(View()), uri, random, host, order)
      ensures ok == old(status).Detached?
    {
      hide ClientHeaders, RequestHeaders, HttpWriter.Render;
      if status != Detached {
        return false;
      }
      status, isClient := WaitingHandshakeResponse, true;
      headers := ClientHeaders(headers, random, host);
      SendHttp(RequestMessage(headers, uri), order);
      return true;
    }
  }

  lemma ControlFrameBytes(opcode: Byte)
    requires opcode < 16
    ensures ControlFrame(true, opcode) == [0x80 + opcode, 0x80, 0, 0, 0, 0]
    ensures ControlFrame(false, opcode) == [0x80 + opcode, 0]
  {}

  lemma MaskEmpty(key: seq<Byte>, s: seq<Byte>)
    requires |key| == 4 && s == []
    ensures Mask(key, s) == []
  {}

  lemma RequestKey(h: Headers)
    requires RequestValid(h)
    ensures |GetHeader(h, KeyName())| == 24
  {}

  lemma ResponseShape(own: Headers, key: seq<Byte>, date: seq<Byte>)
    ensures var m := ResponseMessage(own, key, date);
            m.body == [] && m.headers.Keys == ResponseKeys(own) && HttpWriter.CodeFits(m)
  {}
}
