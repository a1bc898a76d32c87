/** The opening handshake of section 4 of RFC 6455, end to end: a client and a server of this library, each given
    what the other wrote, both end up connected and leave the following bytes unread. */
module WebSocketHandshake {
  import opened Bytes
  import opened StringUtil
  import opened HttpMessages
  import opened Options
  import opened HttpRoundTrip
  import opened WebSocketSpec
  import H = HttpParser
  import HttpWriter
  import ShaSpec
  import Base64

  // ---------- texts that survive HTTP ----------

  predicate GoodName(s: seq<Byte>) { Plain(s) && COLON !in s && Trimmed(s) }
  predicate GoodValue(s: seq<Byte>) { Plain(s) && Trimmed(s) }
  predicate AllGood(h: Headers) { forall k :: k in h ==> GoodHeader(k, h[k]) }

  /** Printable ASCII without blanks, colons and control characters. */
  predicate Visible(s: seq<Byte>) { forall b :: b in s ==> 33 <= b < 127 && b != COLON }

  predicate VisibleText(s: string) { forall i :: 0 <= i < |s| ==> 33 as char <= s[i] < 127 as char && s[i] != ':' }

  lemma VisibleIsGood(s: seq<Byte>)
    requires Visible(s)
    ensures GoodName(s) && GoodValue(s)
  {
    if s != [] { assert s[0] in s && s[|s| - 1] in s; }
  }

  lemma VisibleAscii(s: string)
    requires VisibleText(s)
    ensures (forall i :: 0 <= i < |s| ==> s[i] < 128 as char) && GoodName(Ascii(s)) && GoodValue(Ascii(s))
  {
    var a := Ascii(s);
    forall b | b in a ensures 33 <= b < 127 && b != COLON {
      var i :| 0 <= i < |a| && a[i] == b;
      assert a[i] == s[i] as int;
      assert s[i] != ':';
    }
    VisibleIsGood(a);
  }

  lemma Base64IsGood(s: seq<Byte>)
    ensures GoodValue(Base64.Encode(s)) && |Base64.Encode(s)| == (|s| + 2) / 3 * 4
  {
    Base64.EncodeAlphabet(s);
    VisibleIsGood(Base64.Encode(s));
  }

  lemma SetGood(h: Headers, key: seq<Byte>, value: seq<Byte>)
    requires AllGood(h) && GoodName(key) && GoodValue(value)
    ensures AllGood(SetHeader(h, key, value))
  {}

  lemma OverlayGood(base: Headers, own: Headers)
    requires AllGood(base) && AllGood(own)
    ensures AllGood(Overlay(base, own))
  {}

  // ---------- the names ----------

  function UpgradeName(): (s: seq<Byte>) { Ascii("Upgrade") }
  function ConnectionName(): (s: seq<Byte>) { Ascii("Connection") }
  function WebSocketText(): (s: seq<Byte>) { Ascii("websocket") }
  function VersionName(): (s: seq<Byte>) { Ascii("Sec-WebSocket-Version") }
  function VersionText(): (s: seq<Byte>) { Ascii("13") }
  function HostName(): (s: seq<Byte>) { Ascii("Host") }
  function DateName(): (s: seq<Byte>) { Ascii("Date") }
  function LengthName(): (s: seq<Byte>) { Ascii("Content-Length") }
  function EncodingName(): (s: seq<Byte>) { Ascii("Transfer-Encoding") }

  lemma NamesAreGood()
    ensures GoodName(UpgradeName()) && GoodValue(UpgradeName()) && GoodName(ConnectionName())
    ensures GoodValue(WebSocketText()) && GoodName(VersionName()) && GoodValue(VersionText())
    ensures GoodName(KeyName()) && GoodName(AcceptName()) && GoodName(HostName()) && GoodName(DateName())
  {
    hide GoodName, GoodValue;
    ShortNames();
    VisibleAscii("Sec-WebSocket-Version");
    VisibleAscii("Sec-WebSocket-Key");
    VisibleAscii("Sec-WebSocket-Accept");
  }

  lemma ShortNames()
    ensures GoodName(UpgradeName()) && GoodValue(UpgradeName()) && GoodName(ConnectionName())
    ensures GoodValue(WebSocketText()) && GoodValue(VersionText()) && GoodName(HostName()) && GoodName(DateName())
  {
    hide GoodName, GoodValue;
    VisibleAscii("Upgrade"); VisibleAscii("Connection"); VisibleAscii("websocket"); VisibleAscii("13");
    VisibleAscii("Host"); VisibleAscii("Date");
  }

  /** The lower-cased names are different keys: their lengths differ, or a letter does. */
  lemma NamesDiffer()
    ensures |Lower(UpgradeName())| == 7 && |Lower(ConnectionName())| == 10
    ensures |Lower(VersionName())| == 21 && |Lower(KeyName())| == 17 && |Lower(AcceptName())| == 20
    ensures |Lower(HostName())| == 4 && |Lower(DateName())| == 4
    ensures |Lower(LengthName())| == 14 && |Lower(EncodingName())| == 17
    ensures Lower(KeyName()) != Lower(EncodingName()) && Lower(HostName()) != Lower(DateName())
  {
    assert Lower(KeyName())[0] == 115;
    assert Lower(EncodingName())[0] == 116;
    assert Lower(HostName())[0] == 104;
    assert Lower(DateName())[0] == 100;
  }

  // ---------- lookups ----------

  lemma SetThenGet(h: Headers, key: seq<Byte>, value: seq<Byte>)
    ensures GetHeader(SetHeader(h, key, value), key) == value && HasHeader(SetHeader(h, key, value), key)
  {}

  lemma SetThenGetOther(h: Headers, key: seq<Byte>, value: seq<Byte>, other: seq<Byte>)
    requires Lower(other) != Lower(key)
    ensures GetHeader(SetHeader(h, key, value), other) == GetHeader(h, other)
    ensures HasHeader(SetHeader(h, key, value), other) == HasHeader(h, other)
  {}

  lemma OverlayGet(base: Headers, own: Headers, key: seq<Byte>)
    ensures GetHeader(Overlay(base, own), key) ==
            if HasHeader(own, key) then GetHeader(own, key) else GetHeader(base, key)
    ensures HasHeader(Overlay(base, own), key) == (HasHeader(base, key) || HasHeader(own, key))
  {}

  lemma ContainsItself(h: Headers, key: seq<Byte>, value: seq<Byte>)
    requires GetHeader(h, key) == value && value != []
    ensures HeaderContain(h, key, value)
  {
    var u := Upper(value);
    assert u[0..|u|] == u;
    FindIs(u, u, 0);
  }

  /** Headers the application may set: good, not those of the handshake itself, and none that announce a body. */
  predicate OwnOk(own: Headers, taken: seq<Byte>) {
    && AllGood(own)
    && !HasHeader(own, UpgradeName()) && !HasHeader(own, ConnectionName()) && !HasHeader(own, taken)
    && !HasHeader(own, LengthName()) && !HasHeader(own, EncodingName())
  }

  lemma UnframedIsFramed(m: Message)
    requires m.body == []
    requires !HasHeader(m.headers, LengthName()) && !HasHeader(m.headers, EncodingName())
    ensures Framed(m)
  {
    assert GetHeader(m.headers, LengthName()) == [];
    assert Upper([]) == [];
    assert |Upper(Ascii("chunked"))| == 7;
    FindIsFirst([], Upper(Ascii("chunked")));
  }

  lemma UpgradePart()
    ensures var h := UpgradeHeaders();
            && AllGood(h)
            && GetHeader(h, UpgradeName()) == WebSocketText()
            && GetHeader(h, ConnectionName()) == UpgradeName()
            && HasHeader(h, UpgradeName()) && HasHeader(h, ConnectionName())
            && h.Keys == {Lower(UpgradeName()), Lower(ConnectionName())}
  {
    NamesAreGood();
    NamesDiffer();
    hide GoodName, GoodValue, AllGood, SetHeader, HasHeader, GetHeader, Lower, Ascii;
    assert AllGood(map[]) by { AllGoodEmpty(); }
    SetHeaderKeys(map[], UpgradeName(), WebSocketText());
    SetHeaderKeys(SetHeader(map[], UpgradeName(), WebSocketText()), ConnectionName(), UpgradeName());
    var h1 := SetHeader(map[], UpgradeName(), WebSocketText());
    SetGood(map[], UpgradeName(), WebSocketText());
    SetGood(h1, ConnectionName(), UpgradeName());
    SetThenGet(map[], UpgradeName(), WebSocketText());
    SetThenGet(h1, ConnectionName(), UpgradeName());
    SetThenGetOther(h1, ConnectionName(), UpgradeName(), UpgradeName());
  }

  lemma SetHeaderKeys(h: Headers, key: seq<Byte>, value: seq<Byte>)
    ensures SetHeader(h, key, value).Keys == h.Keys + {Lower(key)}
  {}

  lemma AllGoodEmpty()
    ensures AllGood(map[])
  {}

  // ---------- the request ----------

  /** A header of another name keeps the application's headers acceptable. */
  lemma AddOwn(own: Headers, key: seq<Byte>, value: seq<Byte>)
    requires OwnOk(own, VersionName()) && GoodName(key) && GoodValue(value)
    requires Lower(key) !in {Lower(UpgradeName()), Lower(ConnectionName()), Lower(VersionName()),
                             Lower(LengthName()), Lower(EncodingName())}
    ensures OwnOk(SetHeader(own, key, value), VersionName())
  {
    hide GoodName, GoodValue, AllGood, SetHeader;
    SetGood(own, key, value);
  }

  lemma ClientHeadersOk(own: Headers, random: seq<Byte>, host: seq<Byte>)
    requires OwnOk(own, VersionName()) && |random| == 16 && GoodValue(host)
    requires HasHeader(own, KeyName()) ==> |GetHeader(own, KeyName())| == 24
    ensures var h := ClientHeaders(own, random, host);
            && OwnOk(h, VersionName()) && HasHeader(h, HostName()) && HasHeader(h, KeyName())
            && |GetHeader(h, KeyName())| == 24
  {
    hide GoodName, GoodValue, OwnOk, Base64.Encode, SetHeader, HasHeader, GetHeader, Ascii, Lower;
    NamesAreGood();
    NamesDiffer();
    Base64IsGood(random);
    var h := own;
    if !HasHeader(own, KeyName()) {
      h := SetHeader(own, KeyName(), Base64.Encode(random));
      AddOwn(own, KeyName(), Base64.Encode(random));
      SetThenGet(own, KeyName(), Base64.Encode(random));
    }
    if !HasHeader(h, HostName()) {
      AddOwn(h, HostName(), host);
      SetThenGet(h, HostName(), host);
      SetThenGetOther(h, HostName(), host, KeyName());
    }
  }

  /** What the server finds in the request of a client. */
  lemma RequestIsValid(own: Headers, uri: seq<Byte>)
    requires OwnOk(own, VersionName()) && HasHeader(own, HostName()) && HasHeader(own, KeyName())
    requires |GetHeader(own, KeyName())| == 24 && Plain(uri) && SPACE !in uri
    ensures var m := RequestMessage(own, uri);
            Good(m) && RequestValid(m.headers) && GetHeader(m.headers, KeyName()) == GetHeader(own, KeyName())
  {
    NamesAreGood();
    NamesDiffer();
    UpgradePart();
    hide GoodName, GoodValue, AllGood, SetHeader, HasHeader, GetHeader, UpgradeHeaders, Framed, HeaderContain, Overlay,
      Ascii, Lower;
    var version := VersionName();
    var base := SetHeader(UpgradeHeaders(), version, VersionText());
    SetGood(UpgradeHeaders(), version, VersionText());
    SetThenGet(UpgradeHeaders(), version, VersionText());
    SetThenGetOther(UpgradeHeaders(), version, VersionText(), UpgradeName());
    SetThenGetOther(UpgradeHeaders(), version, VersionText(), ConnectionName());
    NoBodyHeaders(version, VersionText());
    var h := Overlay(base, own);
    OverlayGood(base, own);
    OverlayGet(base, own, UpgradeName());
    OverlayGet(base, own, ConnectionName());
    OverlayGet(base, own, version);
    OverlayGet(base, own, HostName());
    OverlayGet(base, own, KeyName());
    OverlayGet(base, own, LengthName());
    OverlayGet(base, own, EncodingName());
    ContainsItself(h, UpgradeName(), WebSocketText());
    ContainsItself(h, ConnectionName(), UpgradeName());
    UnframedIsFramed(RequestMessage(own, uri));
    GoodFromAllGood(RequestMessage(own, uri));
  }

  lemma NoBodyHeaders(name: seq<Byte>, value: seq<Byte>)
    requires |name| in {20, 21}
    ensures var h := SetHeader(UpgradeHeaders(), name, value);
            !HasHeader(h, LengthName()) && !HasHeader(h, EncodingName())
  {
    hide UpgradeHeaders, SetHeader, GetHeader, Lower, Ascii, AllGood;
    NamesDiffer();
    UpgradePart();
    SetHeaderKeys(UpgradeHeaders(), name, value);
    assert |Lower(name)| == |name|;
  }

  lemma GoodFromAllGood(m: Message)
    requires !m.version.UnknownVersion? && GoodKind(m.kind) && AllGood(m.headers) && m.body == [] && Framed(m)
    ensures Good(m)
  {}

  // ---------- the response ----------

  lemma ReasonIsPlain()
    ensures Plain(Ascii("Switching Protocols"))
  {
    VisibleAscii("Switching"); VisibleAscii("Protocols");
    assert Ascii("Switching Protocols") == Ascii("Switching") + [32] + Ascii("Protocols");
  }

  lemma ResponseIsValid(own: Headers, key: seq<Byte>, date: seq<Byte>)
    requires OwnOk(own, AcceptName()) && GoodValue(date)
    ensures var m := ResponseMessage(own, key, date);
            Good(m) && ResponseValid(101, m.headers, key)
  {
    NamesAreGood();
    NamesDiffer();
    UpgradePart();
    ReasonIsPlain();
    Base64IsGood(ShaSpec.Hash(ShaSpec.Sha1, key + Guid()));
    hide GoodName, GoodValue, AllGood, SetHeader, HasHeader, GetHeader, UpgradeHeaders, Framed, HeaderContain, Overlay,
      Base64.Encode, ShaSpec.Hash, Ascii, Lower;
    var accept := AcceptValue(key);
    var base := SetHeader(UpgradeHeaders(), AcceptName(), accept);
    SetGood(UpgradeHeaders(), AcceptName(), accept);
    SetThenGet(UpgradeHeaders(), AcceptName(), accept);
    SetThenGetOther(UpgradeHeaders(), AcceptName(), accept, UpgradeName());
    SetThenGetOther(UpgradeHeaders(), AcceptName(), accept, ConnectionName());
    NoBodyHeaders(AcceptName(), accept);
    var h := Overlay(base, own);
    OverlayGood(base, own);
    OverlayGet(base, own, UpgradeName());
    OverlayGet(base, own, ConnectionName());
    OverlayGet(base, own, AcceptName());
    OverlayGet(base, own, LengthName());
    OverlayGet(base, own, EncodingName());
    SetGood(h, DateName(), date);
    SetThenGetOther(h, DateName(), date, UpgradeName());
    SetThenGetOther(h, DateName(), date, ConnectionName());
    SetThenGetOther(h, DateName(), date, AcceptName());
    SetThenGetOther(h, DateName(), date, LengthName());
    SetThenGetOther(h, DateName(), date, EncodingName());
    var m := ResponseMessage(own, key, date);
    ContainsItself(m.headers, UpgradeName(), WebSocketText());
    ContainsItself(m.headers, ConnectionName(), UpgradeName());
    UnframedIsFramed(m);
    GoodFromAllGood(m);
  }

  // ---------- agreement ----------

  /** The two sides of a handshake: their own headers are acceptable, and the orders list the header maps. */
  ghost predicate MayMeet(clientOwn: Headers, serverOwn: Headers, uri: seq<Byte>, random: seq<Byte>, host: seq<Byte>,
                          order: seq<seq<Byte>>, serverEnv: Env, clientEnv: Env)
  {
    && OwnOk(clientOwn, VersionName()) && OwnOk(serverOwn, AcceptName())
    && |random| == 16 && GoodValue(host) && Plain(uri) && SPACE !in uri && GoodValue(serverEnv.date)
    && (HasHeader(clientOwn, KeyName()) ==> |GetHeader(clientOwn, KeyName())| == 24)
    && var own := ClientHeaders(clientOwn, random, host);
       && Enumerates(order, RequestHeaders(own))
       && Enumerates(serverEnv.order, ResponseHeaders(serverOwn, GetHeader(own, KeyName()), serverEnv.date))
       && EnvOk(NEW_STATE.(headers := serverOwn), serverEnv) && EnvOk(NEW_STATE.(headers := own), clientEnv)
  }

  /** Every header map can be listed. */
  lemma {:induction false} Enumeration(h: Headers) returns (order: seq<seq<Byte>>)
    ensures Enumerates(order, h)
    decreases |h|
  {
    if h == map[] {
      order := [];
    } else {
      var k :| k in h;
      var rest := Enumeration(h - {k});
      order := [k] + rest;
    }
  }

  /** Without headers of their own, any client and server may meet. */
  lemma PlainSidesMayMeet(uri: seq<Byte>, random: seq<Byte>, host: seq<Byte>, date: seq<Byte>, stale: seq<Byte>)
      returns (order: seq<seq<Byte>>, serverEnv: Env, clientEnv: Env)
    requires |random| == 16 && GoodValue(host) && Plain(uri) && SPACE !in uri && GoodValue(date) && |stale| == 2
    ensures MayMeet(map[], map[], uri, random, host, order, serverEnv, clientEnv)
  {
    hide GoodValue, RequestHeaders, ResponseHeaders, ResponseKeys, ClientHeaders;
    var own := ClientHeaders(map[], random, host);
    order := Enumeration(RequestHeaders(own));
    var answer := Enumeration(ResponseHeaders(map[], GetHeader(own, KeyName()), date));
    serverEnv, clientEnv := Env(stale, answer, date), Env(stale, [], date);
  }
}
