/** Which handshakes the two sides of src/brickred/protocol/web_socket_protocol.cc accept (section 4 of RFC 6455), for
    every HTTP message that arrives. */
module WebSocketAccept {
  import opened Bytes
  import opened StringUtil
  import opened HttpMessages
  import opened Options
  import opened HttpRoundTrip
  import opened WebSocketSpec
  import H = HttpParser
  import HttpWriter
  import ShaSpec
  import Base64

  /** Some part of the header's value is the text, without regard to case. */
  ghost predicate Mentions(h: Headers, name: seq<Byte>, text: seq<Byte>) {
    exists i :: MatchNoCase(GetHeader(h, name), text, i)
  }

  /** Section 4.2.1 of RFC 6455, as far as the server checks it. */
  ghost predicate GoodRequest(m: Message) {
    && m.kind.Request?
    && Lower(Ascii("Host")) in m.headers
    && Mentions(m.headers, Ascii("Upgrade"), Ascii("websocket"))
    && Mentions(m.headers, Ascii("Connection"), Ascii("Upgrade"))
    && |GetHeader(m.headers, Ascii("Sec-WebSocket-Key"))| == 24
    && EqualNoCase(GetHeader(m.headers, Ascii("Sec-WebSocket-Version")), Ascii("13"))
  }

  /** Section 4.1 of RFC 6455, as far as the client checks it; the accept value is compared without regard to case. */
  ghost predicate GoodResponse(m: Message, accept: seq<Byte>) {
    && m.kind.Response? && m.kind.statusCode == 101
    && Mentions(m.headers, Ascii("Upgrade"), Ascii("websocket"))
    && Mentions(m.headers, Ascii("Connection"), Ascii("Upgrade"))
    && EqualNoCase(GetHeader(m.headers, Ascii("Sec-WebSocket-Accept")), accept)
  }

  /** The GUID of section 1.3 of RFC 6455. */
  function AcceptGuid(): (s: seq<Byte>) { Ascii("258EAFA5-E914-47DA-95CA-C5AB0DC85B11") }

  /** The accept value is the Base64 text, of 28 characters, of the SHA-1 digest of the key and the GUID. */
  lemma AcceptIsDigest(key: seq<Byte>)
    ensures |AcceptValue(key)| == 28
    ensures Base64.Decode(AcceptValue(key)) == Some(ShaSpec.Hash(ShaSpec.Sha1, key + AcceptGuid()))
  {
    hide ShaSpec.Hash, Base64.Encode, Base64.Decode, Ascii;
    var digest := ShaSpec.Hash(ShaSpec.Sha1, key + AcceptGuid());
    Base64.DecodeEncode(digest);
    Base64.EncodeAlphabet(digest);
  }

  lemma RequestValidExactly(m: Message)
    requires m.kind.Request?
    ensures RequestValid(m.headers) <==> GoodRequest(m)
  {
    HeaderContainIgnoresCase(m.headers, Ascii("Upgrade"), Ascii("websocket"));
    HeaderContainIgnoresCase(m.headers, Ascii("Connection"), Ascii("Upgrade"));
    hide HeaderContain, MatchNoCase, EqualNoCase, GetHeader;
  }

  lemma ResponseValidExactly(m: Message, key: seq<Byte>)
    requires m.kind.Response?
    ensures ResponseValid(m.kind.statusCode, m.headers, key) <==> GoodResponse(m, AcceptValue(key))
  {
    HeaderContainIgnoresCase(m.headers, Ascii("Upgrade"), Ascii("websocket"));
    HeaderContainIgnoresCase(m.headers, Ascii("Connection"), Ascii("Upgrade"));
    hide HeaderContain, MatchNoCase, EqualNoCase, GetHeader, AcceptValue;
  }

  function Refusal(): (s: seq<Byte>) { Ascii("HTTP/1.1 400 Bad Request") + [13, 10, 13, 10] }

  function KeyOf(h: Headers): (s: seq<Byte>) { GetHeader(h, Ascii("Sec-WebSocket-Key")) }

  lemma BadRequestText()
    ensures BadRequest() == Refusal()
  {
    assert CRLF + CRLF == [13, 10, 13, 10];
    hide Ascii;
    assert Ascii("HTTP/1.1 400 Bad Request") + CRLF + CRLF == Ascii("HTTP/1.1 400 Bad Request") + (CRLF + CRLF);
  }

  lemma KeyIsNamed(h: Headers)
    ensures KeyOf(h) == GetHeader(h, KeyName())
  {}

  lemma EnumeratesKeys(order: seq<seq<Byte>>, h: Headers)
    requires Enumerates(order, h)
    ensures forall k :: k in order ==> k in h
  {}

  lemma GoodIsRequest(m: Message)
    ensures GoodRequest(m) ==> m.kind.Request?
  {}

  lemma GoodIsResponse(m: Message, accept: seq<Byte>)
    ensures GoodResponse(m, accept) ==> m.kind.Response?
  {}

  /** What recvMessage makes of a handshake once the HTTP parser has delivered the message. */
  lemma RequestIsJudged(st: State, buf: seq<Byte>, env: Env, m: Message, rest: seq<Byte>)
    requires WellFormed(st) && EnvOk(st, env) && st.status.WaitingHandshakeRequest?
    requires H.Recv(st.http, buf, env.stale) == H.Received(H.MessageReady, H.State(H.Finished, Some(m), None), rest)
    ensures var r, ok := Recv(st, buf, env), m.kind.Request? && RequestValid(m.headers);
            var text := if ok then HttpWriter.Render(ResponseMessage(st.headers, KeyOf(m.headers), env.date), env.order)
                        else BadRequest();
            && r.rest == rest && r.st.out == st.out + [HandshakeText(text)]
            && r.code == (if ok then ConnectionEstablished else Error)
            && r.st.status == if ok then Connected else PendingError
  {
    hide H.Recv, RequestValid, ResponseHeaders, ResponseKeys, HttpWriter.Render, GetHeader;
    KeyIsNamed(m.headers);
  }

  lemma ResponseIsJudged(st: State, buf: seq<Byte>, env: Env, m: Message, rest: seq<Byte>)
    requires WellFormed(st) && EnvOk(st, env) && st.status.WaitingHandshakeResponse?
    requires H.Recv(st.http, buf, env.stale) == H.Received(H.MessageReady, H.State(H.Finished, Some(m), None), rest)
    ensures var r := Recv(st, buf, env);
            var key := KeyOf(st.headers);
            var ok := m.kind.Response? && ResponseValid(m.kind.statusCode, m.headers, key);
            && r.rest == rest && r.st.out == st.out
            && r.code == (if ok then ConnectionEstablished else Error)
            && r.st.status == if ok then Connected else PendingError
  {
    hide H.Recv, ResponseValid, ResponseKeys, GetHeader;
    KeyIsNamed(st.headers);
  }

  /** Any message that a waiting server receives: it connects exactly for a good request and then answers with one
      text; everything else is refused with one 400 response, and the server fails. */
  lemma ServerAccepts(st: State, m: Message, order: seq<seq<Byte>>, env: Env, rest: seq<Byte>)
    requires WellFormed(st) && EnvOk(st, env) && st.status.WaitingHandshakeRequest? && st.http == H.INITIAL_STATE
    requires Good(m) && Enumerates(order, m.headers)
    ensures var r := Recv(st, HttpWriter.Render(m, order) + rest, env);
            var answer := ResponseMessage(st.headers, KeyOf(m.headers), env.date);
            && r.rest == rest
            && (if GoodRequest(m) then
                  && r.code.ConnectionEstablished? && r.st.status.Connected?
                  && r.st.out == st.out + [HandshakeText(HttpWriter.Render(answer, env.order))]
                else
                  && r.code.Error? && r.st.status.PendingError?
                  && r.st.out == st.out + [HandshakeText(Refusal())])
  {
    hide Good, Enumerates, HttpWriter.Render, RequestValid, GoodRequest, KeyOf, Recv, BadRequest, Refusal,
      ResponseHeaders, ResponseKeys;
    EnumeratesKeys(order, m.headers);
    KeyIsNamed(m.headers);
    GoodIsRequest(m);
    RoundTrip(m, order, rest, env.stale);
    RequestIsJudged(st, HttpWriter.Render(m, order) + rest, env, m, rest);
    BadRequestText();
    if m.kind.Request? {
      RequestValidExactly(m);
    }
  }

  /** Any message that a waiting client receives: it connects exactly for a good response to its own key; it never
      answers. */
  lemma ClientAccepts(st: State, m: Message, order: seq<seq<Byte>>, env: Env, rest: seq<Byte>)
    requires WellFormed(st) && EnvOk(st, env) && st.status.WaitingHandshakeResponse? && st.http == H.INITIAL_STATE
    requires Good(m) && Enumerates(order, m.headers)
    ensures var r := Recv(st, HttpWriter.Render(m, order) + rest, env);
            var accept := AcceptValue(KeyOf(st.headers));
            && r.rest == rest && r.st.out == st.out
            && (if GoodResponse(m, accept) then r.code.ConnectionEstablished? && r.st.status.Connected?
                else r.code.Error? && r.st.status.PendingError?)
  {
    hide Good, Enumerates, HttpWriter.Render, ResponseValid, GoodResponse, KeyOf, AcceptValue, Recv, ResponseKeys;
    EnumeratesKeys(order, m.headers);
    KeyIsNamed(st.headers);
    GoodIsResponse(m, AcceptValue(KeyOf(st.headers)));
    RoundTrip(m, order, rest, env.stale);
    ResponseIsJudged(st, HttpWriter.Render(m, order) + rest, env, m, rest);
    if m.kind.Response? {
      ResponseValidExactly(m, KeyOf(st.headers));
    }
  }
}
