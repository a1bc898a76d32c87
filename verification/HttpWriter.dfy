/** Model of HttpProtocol::writeMessage of src/brickred/protocol/http_protocol.cc, and the proof that the parser
    reads back what it writes. */
module HttpWriter {
  import opened Bytes
  import opened StringUtil
  import opened Buffers
  import opened HttpMessages

  // ---------- the text of a message ----------

  /** printf %d. */
  function IntText(n: int): (s: seq<Byte>) {
    if n < 0 then [45] + ToDecimal(-n) else ToDecimal(n)
  }

  function StartLine(m: Message): (s: seq<Byte>) {
    match m.kind
    case Request(verb, uri) => MethodText(verb) + [SPACE] + CStr(uri) + [SPACE] + VersionText(m.version)
    case Response(code, reason) => VersionText(m.version) + [SPACE] + IntText(code) + [SPACE] + CStr(reason)
  }

  function HeaderLine(h: Header): (s: seq<Byte>)
    ensures 2 <= |s| <= |h.key| + |h.value| + 2
  {
    CStr(h.key) + [COLON, SPACE] + CStr(h.value)
  }

  /** Header lines in the order in which the map is walked. */
  function HeaderText(h: Headers, order: seq<seq<Byte>>): (s: seq<Byte>)
    requires forall k :: k in order ==> k in h
  {
    if order == [] then [] else HeaderLine(h[order[0]]) + CRLF + HeaderText(h, order[1..])
  }

  function Head(m: Message, order: seq<seq<Byte>>): (s: seq<Byte>)
    requires forall k :: k in order ==> k in m.headers
  {
    StartLine(m) + CRLF + HeaderText(m.headers, order) + CRLF
  }

  function Render(m: Message, order: seq<seq<Byte>>): (s: seq<Byte>)
    requires forall k :: k in order ==> k in m.headers
  {
    Head(m, order) + CStr(m.body)
  }

  // ---------- the room the writer finds ----------

  predicate IsInt32(n: int) { -0x8000_0000 <= n < 0x8000_0000 }

  predicate CodeFits(m: Message) { m.kind.Response? ==> IsInt32(m.kind.statusCode) }

  function StartLineReserve(m: Message): (n: nat) {
    64 + match m.kind
         case Request(_, uri) => |uri|
         case Response(_, reason) => |reason|
  }

  function HeaderReserve(h: Header): (n: nat) { 32 + |h.key| + |h.value| }

  lemma {:induction false} DecimalLength(n: nat, k: nat)
    requires 1 <= k && n < Pow10(k)
    ensures |ToDecimal(n)| <= k
  {
    if n >= 10 {
      DecimalLength(n / 10, k - 1);
    }
  }

  function Pow10(k: nat): (p: nat) { if k == 0 then 1 else 10 * Pow10(k - 1) }

  lemma StartLineFits(m: Message)
    requires CodeFits(m)
    ensures |StartLine(m)| + 2 + 28 <= StartLineReserve(m)
  {
    if m.kind.Response? {
      var n := m.kind.statusCode;
      assert Pow10(5) == 100000;
      assert Pow10(10) == 100000 * Pow10(5);
      DecimalLength(if n < 0 then -n else n, 10);
    }
  }

  /** The sizes after the header lines. */
  function AfterHeaders(l: Layout, h: Headers, order: seq<seq<Byte>>): (r: Layout)
    requires forall k :: k in order ==> k in h
    decreases |order|
  {
    if order == [] || !l.Ok() then l
    else
      var e := h[order[0]];
      AfterHeaders(l.Reserved(HeaderReserve(e)).Filled(|HeaderLine(e)| + 2), h, order[1..])
  }

  /** The sizes when the body is about to be written. */
  function BeforeBody(l: Layout, m: Message, order: seq<seq<Byte>>): (r: Layout)
    requires forall k :: k in order ==> k in m.headers
  {
    if !l.Ok() then l
    else AfterHeaders(l.Reserved(StartLineReserve(m)).Filled(|StartLine(m)| + 2), m.headers, order).Filled(2)
  }

  /** The only way writeMessage loses a byte: the body exactly fills the room that is left. */
  predicate BodyFillsRoom(l: Layout, m: Message, order: seq<seq<Byte>>)
    requires forall k :: k in order ==> k in m.headers
  {
    m.body != [] && 0 !in m.body && BeforeBody(l, m, order).Room() == |m.body|
  }

  /** Total size that must not overflow 64 bits. */
  predicate SizesFit(l: Layout, m: Message, order: seq<seq<Byte>>)
    requires forall k :: k in order ==> k in m.headers
  {
    l.Readable() + StartLineReserve(m) + TotalReserve(m.headers, order) + 2 + |m.body| + 2 * l.expand < SIZE_LIMIT
  }

  function TotalReserve(h: Headers, order: seq<seq<Byte>>): (n: nat)
    requires forall k :: k in order ==> k in h
  {
    if order == [] then 0 else HeaderReserve(h[order[0]]) + TotalReserve(h, order[1..])
  }

  /** One snprintf of writeMessage with room reserved for more than the text: nothing is cut off. */
  method PrintLine(text: seq<Byte>, reserve: nat, buffer: DynamicBuffer)
    requires buffer.Valid() && buffer.expandSize > 0
    requires |text| + 28 <= reserve
    requires buffer.ReadableBytes() + reserve + 2 * buffer.expandSize < SIZE_LIMIT
    modifies buffer, buffer.data
    ensures buffer.Valid() && buffer.expandSize == old(buffer.expandSize)
    ensures buffer.data == old(buffer.data) || fresh(buffer.data)
    ensures buffer.Contents() == old(buffer.Contents()) + text
    ensures buffer.Sizes() == old(buffer.Sizes()).Reserved(reserve).Filled(|text|)
    ensures buffer.WritableBytes() >= 28
  {
    ReservedRoom(buffer.Sizes(), reserve);
    buffer.ReserveWritableBytes(reserve);
    buffer.Print(text);
  }

  lemma HeaderTextStep(h: Headers, order: seq<seq<Byte>>, written: seq<Byte>)
    requires order != [] && forall k :: k in order ==> k in h
    ensures written + HeaderText(h, order)
            == written + (HeaderLine(h[order[0]]) + CRLF) + HeaderText(h, order[1..])
  {
    Associative(written, HeaderLine(h[order[0]]) + CRLF, HeaderText(h, order[1..]));
  }

  lemma Associative(a: seq<Byte>, b: seq<Byte>, c: seq<Byte>)
    ensures a + (b + c) == (a + b) + c
  {}

  /** The header loop of writeMessage: at least 28 spare bytes are left after every line. */
  method WriteHeaders(h: Headers, order: seq<seq<Byte>>, buffer: DynamicBuffer)
    requires buffer.Valid() && buffer.expandSize > 0 && buffer.WritableBytes() >= 28
    requires forall k :: k in order ==> k in h
    requires buffer.ReadableBytes() + TotalReserve(h, order) + 2 * buffer.expandSize < SIZE_LIMIT
    modifies buffer, buffer.data
    ensures buffer.Valid() && buffer.expandSize == old(buffer.expandSize) && buffer.WritableBytes() >= 28
    ensures buffer.data == old(buffer.data) || fresh(buffer.data)
    ensures buffer.Contents() == old(buffer.Contents()) + HeaderText(h, order)
    ensures buffer.Sizes() == AfterHeaders(old(buffer.Sizes()), h, order)
    ensures buffer.ReadableBytes() <= old(buffer.ReadableBytes()) + TotalReserve(h, order)
  {
    hide Layout.Reserved, HeaderLine;
    ghost var l0, c0 := buffer.Sizes(), buffer.Contents();
    var i := 0;
    assert order[0..] == order;
    while i < |order|
      invariant 0 <= i <= |order|
      invariant buffer.Valid() && buffer.expandSize == old(buffer.expandSize)
      invariant buffer.data == old(buffer.data) || fresh(buffer.data)
      invariant buffer.WritableBytes() >= 28
      invariant AfterHeaders(buffer.Sizes(), h, order[i..]) == AfterHeaders(l0, h, order)
      invariant buffer.Contents() + HeaderText(h, order[i..]) == c0 + HeaderText(h, order)
      invariant buffer.ReadableBytes() + TotalReserve(h, order[i..]) <= l0.Readable() + TotalReserve(h, order)
    {
      var e := h[order[i]];
      assert order[i..][0] == order[i] && order[i..][1..] == order[i + 1..];
      HeaderTextStep(h, order[i..], buffer.Contents());
      PrintLine(HeaderLine(e) + CRLF, HeaderReserve(e), buffer);
      i := i + 1;
    }
  }

  /** writeMessage. `order` is the order in which std::map enumerates the headers. */
  method WriteMessage(m: Message, order: seq<seq<Byte>>, buffer: DynamicBuffer)
    requires buffer.Valid() && buffer.expandSize > 0
    requires forall k :: k in order ==> k in m.headers
    requires CodeFits(m) && SizesFit(buffer.Sizes(), m, order)
    modifies buffer, buffer.data
    ensures buffer.Valid()
    ensures buffer.data == old(buffer.data) || fresh(buffer.data)
    ensures buffer.Contents() == old(buffer.Contents()) + Render(m, order)
            <==> !BodyFillsRoom(old(buffer.Sizes()), m, order)
  {
    hide Layout.Reserved, HeaderText, TotalReserve, AfterHeaders, StartLine, StartLineReserve;
    ghost var l0, c0 := buffer.Sizes(), buffer.Contents();
    StartLineFits(m);
    PrintLine(StartLine(m) + CRLF, StartLineReserve(m), buffer);
    WriteHeaders(m.headers, order, buffer);
    buffer.ReserveWritableBytes(2);
    buffer.Print(CRLF);
    assert buffer.Contents() == c0 + Head(m, order);
    assert buffer.Sizes() == BeforeBody(l0, m, order);

    PrintBody(m.body, buffer);
    Associative(c0, Head(m, order), CStr(m.body));
  }

  /** The last snprintf of writeMessage, the only one that can lose a byte. */
  method PrintBody(body: seq<Byte>, buffer: DynamicBuffer)
    requires buffer.Valid() && buffer.expandSize > 0
    requires buffer.ReadableBytes() + |body| + 2 * buffer.expandSize < SIZE_LIMIT
    modifies buffer, buffer.data
    ensures buffer.Valid()
    ensures buffer.data == old(buffer.data) || fresh(buffer.data)
    ensures buffer.Contents() == old(buffer.Contents()) + CStr(body)
            <==> !(body != [] && 0 !in body && old(buffer.Sizes()).Room() == |body|)
  {
    ReservedRoom(buffer.Sizes(), |body|);
    hide Layout.Reserved;
    buffer.ReserveWritableBytes(|body|);
    ghost var room, c := buffer.WritableBytes(), buffer.Contents();
    buffer.Print(CStr(body));
    PrintedExactly(room, body);
    AppendInjective(c, Printed(room, CStr(body)), CStr(body));
  }

  /** Printing a body is exact unless the body has no NUL and exactly fills the room. */
  lemma PrintedExactly(room: nat, body: seq<Byte>)
    requires |body| <= room
    ensures Printed(room, CStr(body)) == CStr(body) <==> !(body != [] && 0 !in body && room == |body|)
  {
    var text := CStr(body);
    if 0 in body {
      assert |text| < |body|;
    } else if body != [] && room == |body| {
      assert Printed(room, text)[|text| - 1] == 0;
      assert text[|text| - 1] in body;
    }
  }

  lemma AppendInjective(a: seq<Byte>, b: seq<Byte>, c: seq<Byte>)
    ensures a + b == a + c <==> b == c
  {
    if a + b == a + c {
      assert b == (a + b)[|a|..] && c == (a + c)[|a|..];
    }
  }
}
