/** Model of src/brickred/protocol/http_message.cc, http_request.cc and http_response.cc. */
module HttpMessages {
  import opened Bytes
  import opened StringUtil

  datatype Version = UnknownVersion | Http10 | Http11
  datatype Method = UnknownMethod | Get | Post

  /** What distinguishes a request from a response. */
  datatype Kind = Request(verb: Method, uri: seq<Byte>) | Response(statusCode: int, reason: seq<Byte>)

  datatype Header = Header(key: seq<Byte>, value: seq<Byte>)

  // The std::map ordered by CaseInsensitiveLess: lower-cased key to the entry as first inserted.
  type Headers = map<seq<Byte>, Header>

  datatype Message = Message(kind: Kind, version: Version, headers: Headers, body: seq<Byte>)

  function SetHeader(h: Headers, key: seq<Byte>, value: seq<Byte>): (r: Headers)
    ensures r.Keys == h.Keys + {Lower(key)}
  {
    var k := Lower(key);
    if k in h then h[k := Header(h[k].key, value)] else h[k := Header(key, value)]
  }

  function RemoveHeader(h: Headers, key: seq<Byte>): (r: Headers) { h - {Lower(key)} }

  predicate HasHeader(h: Headers, key: seq<Byte>) { Lower(key) in h }

  function GetHeader(h: Headers, key: seq<Byte>): (v: seq<Byte>) {
    if HasHeader(h, key) then h[Lower(key)].value else []
  }

  predicate HeaderEqual(h: Headers, key: seq<Byte>, value: seq<Byte>) {
    EqualNoCase(GetHeader(h, key), value)
  }

  predicate HeaderContain(h: Headers, key: seq<Byte>, value: seq<Byte>) {
    value == [] || Find(Upper(GetHeader(h, key)), Upper(value)) >= 0
  }

  /** A match without regard to case. */
  predicate MatchNoCase(s: seq<Byte>, key: seq<Byte>, i: int) {
    0 <= i && i + |key| <= |s| && EqualNoCase(s[i..i + |key|], key)
  }

  /** That toLower maps with toupper makes no difference: the test is for containment without regard to case. */
  lemma HeaderContainIgnoresCase(h: Headers, key: seq<Byte>, value: seq<Byte>)
    ensures HeaderContain(h, key, value) <==> exists i :: MatchNoCase(GetHeader(h, key), value, i)
  {
    var text := GetHeader(h, key);
    FindIsFirst(Upper(text), Upper(value));
    forall i ensures MatchNoCase(text, value, i) <==> MatchAt(Upper(text), Upper(value), i) {
      if 0 <= i && i + |value| <= |text| {
        SameFolding(text[i..i + |value|], value);
        assert Upper(text[i..i + |value|]) == Upper(text)[i..i + |value|];
      }
    }
    assert value == [] ==> MatchNoCase(text, value, 0);
    assert value != [] ==> Upper(value) != [];
  }

  function VersionFromText(s: seq<Byte>): (v: Version) {
    if s == Ascii("HTTP/1.1") then Http11 else if s == Ascii("HTTP/1.0") then Http10 else UnknownVersion
  }

  function VersionText(v: Version): (s: seq<Byte>) {
    match v
    case Http11 => Ascii("HTTP/1.1")
    case Http10 => Ascii("HTTP/1.0")
    case UnknownVersion => Ascii("UNKNOWN")
  }

  function MethodFromText(s: seq<Byte>): (m: Method) {
    if s == Ascii("GET") then Get else if s == Ascii("POST") then Post else UnknownMethod
  }

  function MethodText(m: Method): (s: seq<Byte>) {
    match m
    case Get => Ascii("GET")
    case Post => Ascii("POST")
    case UnknownMethod => Ascii("UNKNOWN")
  }
}
