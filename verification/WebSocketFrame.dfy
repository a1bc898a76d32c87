/** The framing of src/brickred/protocol/web_socket_protocol.cc: what readFrame sees at the front of its input, and
    the frames that the senders write (section 5.2 of RFC 6455). */
module WebSocketFrame {
  import opened Bytes

  // Sections 5.5 and 11.8 of RFC 6455.
  const OP_CONTINUATION := 0
  const OP_TEXT := 1
  const OP_BINARY := 2
  const OP_CLOSE := 8
  const OP_PING := 9
  const OP_PONG := 10

  // ---------- reading ----------

  datatype Parse = Incomplete | Malformed | Whole(fin: bool, opcode: nat, payload: seq<Byte>, size: nat)

  /** The payload length: -1 when its bytes are missing, -2 when it is not minimally encoded; and the number
      of bytes up to its end. */
  function ReadLength(b: seq<Byte>): (r: (int, nat))
    requires |b| >= 2
    ensures r.0 >= 0 ==> 2 <= r.1 <= |b| && r.0 < SIZE_LIMIT
  {
    var n := b[1] % 128;
    if n == 126 then
      if |b| < 4 then (-1, 0)
      else
        Wide(b[2..4]);
        var v := BigEndian(b[2..4]);
        if v < 126 then (-2, 0) else (v, 4)
    else if n == 127 then
      if |b| < 10 then (-1, 0)
      else
        Wide(b[2..10]);
        var v := BigEndian(b[2..10]);
        if v < 0xffff then (-2, 0) else (v, 10)
    else (n, 2)
  }

  lemma Wide(s: seq<Byte>)
    requires |s| == 2 || |s| == 8
    ensures BigEndian(s) < SIZE_LIMIT
  {
    ToBigEndianRoundTrip(s);
    Powers();
  }

  lemma Powers()
    ensures Pow256(2) == 0x1_0000 && Pow256(8) == SIZE_LIMIT
  {
    assert Pow256(4) == 0x1_0000_0000;
    assert Pow256(6) == 0x1_0000 * Pow256(4);
  }

  /** readFrame up to the point where the frame is consumed. A client refuses masked frames. */
  function ParseFrame(isClient: bool, b: seq<Byte>): (p: Parse)
    ensures p.Whole? ==> 2 <= p.size <= |b| && p.opcode < 16
  {
    if |b| < 2 then Incomplete
    else if b[0] / 16 % 8 != 0 then Malformed
    else
      var (n, header) := ReadLength(b);
      if n == -1 then Incomplete
      else if n < 0 then Malformed
      else
        var masked := b[1] >= 128;
        if masked && isClient then Malformed
        else if masked && |b| < header + 4 then Incomplete
        else
          var start := if masked then header + 4 else header;
          if |b| < start + n then Incomplete
          else
            var body := b[start..start + n];
            Whole(b[0] >= 128, b[0] % 16, if masked then Mask(b[header..header + 4], body) else body, start + n)
  }

  lemma LengthStable(a: seq<Byte>, b: seq<Byte>)
    requires |a| >= 2 && ReadLength(a).0 != -1
    ensures ReadLength(a + b) == ReadLength(a)
  {
    hide BigEndian;
    var s := a + b;
    if |a| >= 4 { assert s[2..4] == a[2..4]; }
    if |a| >= 10 { assert s[2..10] == a[2..10]; }
  }

  /** A decision about a frame is not changed by bytes that arrive later. */
  lemma ParseStable(isClient: bool, a: seq<Byte>, b: seq<Byte>)
    requires !ParseFrame(isClient, a).Incomplete?
    ensures ParseFrame(isClient, a + b) == ParseFrame(isClient, a)
  {
    hide Mask, ReadLength;
    var s := a + b;
    var (n, header) := ReadLength(a);
    if n != -1 {
      LengthStable(a, b);
    }
    if n >= 0 {
      var start := if a[1] >= 128 then header + 4 else header;
      if start <= |a| {
        assert s[header..start] == a[header..start];
        if start + n <= |a| { assert s[start..start + n] == a[start..start + n]; }
      }
    }
  }

  // ---------- writing ----------

  /** The length field; the mask bit is set by clients. */
  function LengthField(isClient: bool, n: nat): (s: seq<Byte>)
    requires n < SIZE_LIMIT
    ensures |s| in {1, 3, 9}
  {
    var bit := if isClient then 128 else 0;
    if n < 126 then [bit + n]
    else if n < 65535 then [bit + 126] + ToBigEndian(n, 2)
    else [bit + 127] + ToBigEndian(n, 8)
  }

  /** A frame with all reserved bits clear. Clients mask with the key. */
  function Wire(isClient: bool, fin: bool, opcode: nat, key: seq<Byte>, payload: seq<Byte>): (s: seq<Byte>)
    requires opcode < 16 && |key| == 4 && |payload| < SIZE_LIMIT
    ensures |s| >= 2
  {
    [(if fin then 128 else 0) + opcode] + LengthField(isClient, |payload|)
    + if isClient then key + Mask(key, payload) else payload
  }

  /** What the reader makes of the length field of a frame. */
  lemma LengthRoundTrip(isClient: bool, first: Byte, n: nat, rest: seq<Byte>)
    requires n < SIZE_LIMIT
    ensures var b := [first] + LengthField(isClient, n) + rest;
            && |b| >= 2 && b[0] == first && (b[1] >= 128 <==> isClient)
            && ReadLength(b) == (n, 1 + |LengthField(isClient, n)|)
  {
    hide BigEndian, ToBigEndian;
    Powers();
    var field := LengthField(isClient, n);
    var b := [first] + field + rest;
    if 126 <= n < 65535 {
      BigEndianRoundTrip(n, 2);
      assert b[2..4] == ToBigEndian(n, 2);
    } else if n >= 65535 {
      BigEndianRoundTrip(n, 8);
      assert b[2..10] == ToBigEndian(n, 8);
    }
  }

  /** Where the parts of a written frame lie. */
  lemma WireParts(isClient: bool, fin: bool, opcode: nat, key: seq<Byte>, payload: seq<Byte>, rest: seq<Byte>)
    requires opcode < 16 && |key| == 4 && |payload| < SIZE_LIMIT
    ensures var w := Wire(isClient, fin, opcode, key, payload);
            var b := w + rest;
            var header := 1 + |LengthField(isClient, |payload|)|;
            var start := if isClient then header + 4 else header;
            && b[0] == (if fin then 128 else 0) + opcode && (b[1] >= 128 <==> isClient)
            && ReadLength(b) == (|payload|, header)
            && |w| == start + |payload|
            && (isClient ==> b[header..header + 4] == key)
            && b[start..start + |payload|] == if isClient then Mask(key, payload) else payload
  {
    hide LengthField, Mask, ReadLength;
    var first: Byte := (if fin then 128 else 0) + opcode;
    var field := LengthField(isClient, |payload|);
    var b := Wire(isClient, fin, opcode, key, payload) + rest;
    var pre := [first] + field;
    if isClient {
      var masked := Mask(key, payload);
      assert b == pre + (key + masked + rest) && b == pre + key + (masked + rest) && b == (pre + key) + masked + rest;
      LengthRoundTrip(isClient, first, |payload|, key + masked + rest);
      SliceAt(pre, key, masked + rest);
      SliceAt(pre + key, masked, rest);
    } else {
      assert b == pre + (payload + rest) && b == pre + payload + rest;
      LengthRoundTrip(isClient, first, |payload|, payload + rest);
      SliceAt(pre, payload, rest);
    }
  }

  /** A frame of one side, followed by anything, is read back by the other side, payload unmasked. */
  lemma ParseWire(isClient: bool, fin: bool, opcode: nat, key: seq<Byte>, payload: seq<Byte>, rest: seq<Byte>)
    requires opcode < 16 && |key| == 4 && |payload| < SIZE_LIMIT
    ensures var w := Wire(isClient, fin, opcode, key, payload);
            ParseFrame(!isClient, w + rest) == Whole(fin, opcode, payload, |w|)
  {
    hide LengthField, Mask, ReadLength, Wire;
    WireParts(isClient, fin, opcode, key, payload, rest);
    MaskTwice(key, payload);
  }

  /** A cut frame is never taken for a whole or a malformed one. */
  lemma ParseCutWire(isClient: bool, fin: bool, opcode: nat, key: seq<Byte>, payload: seq<Byte>,
                     a: seq<Byte>, b: seq<Byte>)
    requires opcode < 16 && |key| == 4 && |payload| < SIZE_LIMIT
    requires a + b == Wire(isClient, fin, opcode, key, payload) && b != []
    ensures ParseFrame(!isClient, a).Incomplete?
  {
    hide ParseFrame;
    var w := Wire(isClient, fin, opcode, key, payload);
    assert w + [] == w && |a| < |w|;
    ParseWire(isClient, fin, opcode, key, payload, []);
    if !ParseFrame(!isClient, a).Incomplete? {
      ParseStable(!isClient, a, b);
    }
  }

  // ---------- the shortest form ----------

  /** The size of the shortest length field for n, which section 5.2 of RFC 6455 asks for. */
  function ShortestSize(n: nat): (k: nat) { if n < 126 then 1 else if n < 0x1_0000 then 3 else 9 }

  /** The sender writes the shortest form for every length but 65535. */
  lemma WritesShortest(isClient: bool, n: nat)
    requires n < SIZE_LIMIT
    ensures |LengthField(isClient, n)| == ShortestSize(n) <==> n != 65535
    ensures |LengthField(isClient, 65535)| == 9
  {}

  /** The value and the size of a length field, whether it is the shortest or not. */
  function FieldValue(b: seq<Byte>): (r: (int, nat))
    ensures r.0 >= 0
    requires |b| >= 10
  {
    var n := b[1] % 128;
    if n == 126 then (BigEndian(b[2..4]), 3) else if n == 127 then (BigEndian(b[2..10]), 9) else (n, 1)
  }

  /** The reader refuses every field that is not the shortest for its value, except the 64-bit form of 65535. */
  lemma ReadsShortest(b: seq<Byte>)
    requires |b| >= 10
    ensures var (v, size) := FieldValue(b);
            ReadLength(b) == if size == ShortestSize(v) || (v == 65535 && size == 9) then (v, size + 1) else (-2, 0)
  {
    hide BigEndian;
    TwoBytes(b[2..4]);
  }

  lemma TwoBytes(s: seq<Byte>)
    requires |s| == 2
    ensures BigEndian(s) < 0x1_0000
  {
    ToBigEndianRoundTrip(s);
    Powers();
  }

  /** Examples of section 5.7 of RFC 6455: "Hello" in one text frame, and "Hel" and "lo" in two. */
  lemma SampleFrames()
    ensures Wire(false, true, OP_TEXT, [0, 0, 0, 0], [0x48, 0x65, 0x6c, 0x6c, 0x6f])
            == [0x81, 0x05, 0x48, 0x65, 0x6c, 0x6c, 0x6f]
    ensures Wire(false, false, OP_TEXT, [0, 0, 0, 0], [0x48, 0x65, 0x6c]) == [0x01, 0x03, 0x48, 0x65, 0x6c]
    ensures Wire(false, true, OP_CONTINUATION, [0, 0, 0, 0], [0x6c, 0x6f]) == [0x80, 0x02, 0x6c, 0x6f]
  {}

  /** Control frames without a payload, and the length fields of the 256-byte and the 64-kilobyte example. */
  lemma SampleControls()
    ensures Wire(false, true, OP_CLOSE, [0, 0, 0, 0], []) == [0x88, 0]
    ensures Wire(false, true, OP_PING, [0, 0, 0, 0], []) == [0x89, 0]
    ensures Wire(false, true, OP_PONG, [0, 0, 0, 0], []) == [0x8a, 0]
    ensures LengthField(false, 256) == [0x7e, 1, 0]
    ensures LengthField(false, 65536) == [0x7f, 0, 0, 0, 0, 0, 1, 0, 0]
  {
    assert ToBigEndian(65536, 8) == ToBigEndian(256, 7) + [0];
    assert ToBigEndian(256, 7) == ToBigEndian(1, 6) + [0];
    assert ToBigEndian(1, 6) == ToBigEndian(0, 5) + [1];
    assert ToBigEndian(0, 5) == [0, 0, 0, 0, 0];
  }

  /** The masked "Hello" of the same section. */
  lemma SampleMasked()
    ensures Wire(true, true, OP_TEXT, [0x37, 0xfa, 0x21, 0x3d], [0x48, 0x65, 0x6c, 0x6c, 0x6f])
            == [0x81, 0x85, 0x37, 0xfa, 0x21, 0x3d, 0x7f, 0x9f, 0x4d, 0x51, 0x58]
  {
    SampleXor0();
    SampleXor1();
    SampleXor2();
    SampleXor3();
    SampleXor4();
    hide Xor;
    var hello: seq<Byte> := [0x48, 0x65, 0x6c, 0x6c, 0x6f];
    assert Mask([0x37, 0xfa, 0x21, 0x3d], hello) == [0x7f, 0x9f, 0x4d, 0x51, 0x58];
  }

  /** So the reader takes the examples for what they are. */
  lemma ReadsSamples()
    ensures var hello: seq<Byte> := [0x48, 0x65, 0x6c, 0x6c, 0x6f];
            && ParseFrame(true, [0x81, 0x05, 0x48, 0x65, 0x6c, 0x6c, 0x6f]) == Whole(true, OP_TEXT, hello, 7)
            && ParseFrame(false, [0x81, 0x85, 0x37, 0xfa, 0x21, 0x3d, 0x7f, 0x9f, 0x4d, 0x51, 0x58])
               == Whole(true, OP_TEXT, hello, 11)
    ensures ParseFrame(true, [0x01, 0x03, 0x48, 0x65, 0x6c]) == Whole(false, OP_TEXT, [0x48, 0x65, 0x6c], 5)
    ensures ParseFrame(true, [0x80, 0x02, 0x6c, 0x6f]) == Whole(true, OP_CONTINUATION, [0x6c, 0x6f], 4)
  {
    SampleFrames();
    SampleMasked();
    hide ParseFrame, Wire;
    ReadsWire(false, true, OP_TEXT, [0, 0, 0, 0], [0x48, 0x65, 0x6c, 0x6c, 0x6f]);
    ReadsWire(true, true, OP_TEXT, [0x37, 0xfa, 0x21, 0x3d], [0x48, 0x65, 0x6c, 0x6c, 0x6f]);
    ReadsWire(false, false, OP_TEXT, [0, 0, 0, 0], [0x48, 0x65, 0x6c]);
    ReadsWire(false, true, OP_CONTINUATION, [0, 0, 0, 0], [0x6c, 0x6f]);
  }

  lemma ReadsWire(isClient: bool, fin: bool, opcode: nat, key: seq<Byte>, payload: seq<Byte>)
    requires opcode < 16 && |key| == 4 && |payload| < SIZE_LIMIT
    ensures var w := Wire(isClient, fin, opcode, key, payload);
            ParseFrame(!isClient, w) == Whole(fin, opcode, payload, |w|)
  {
    ParseWire(isClient, fin, opcode, key, payload, []);
    hide ParseFrame, Wire;
    var w := Wire(isClient, fin, opcode, key, payload);
    assert w + [] == w;
  }

  lemma SampleXor0()
    ensures Xor(0x48, 0x37) == 0x7f
  {
    assert XorBits(2, 1, 3) == 3 && XorBits(9, 6, 5) == 15;
    assert XorBits(36, 27, 7) == 63;
  }

  lemma SampleXor1()
    ensures Xor(0x65, 0xfa) == 0x9f
  {
    assert XorBits(3, 7, 3) == 4 && XorBits(12, 31, 5) == 19;
    assert XorBits(50, 125, 7) == 79;
  }

  lemma SampleXor2()
    ensures Xor(0x6c, 0x21) == 0x4d
  {
    assert XorBits(3, 1, 3) == 2 && XorBits(13, 4, 5) == 9;
    assert XorBits(54, 16, 7) == 38;
  }

  lemma SampleXor3()
    ensures Xor(0x6c, 0x3d) == 0x51
  {
    assert XorBits(3, 1, 3) == 2 && XorBits(13, 7, 5) == 10;
    assert XorBits(54, 30, 7) == 40;
  }

  lemma SampleXor4()
    ensures Xor(0x6f, 0x37) == 0x58
  {
    assert XorBits(3, 1, 3) == 2 && XorBits(13, 6, 5) == 11;
    assert XorBits(55, 27, 7) == 44;
  }
}
