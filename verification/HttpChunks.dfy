/** What a chunked body is: an encoder after section 7.1 of RFC 9112, and the proof that the parser delivers
    the encoded pieces in order, however the stream is cut. */
module HttpChunks {
  import opened Bytes
  import opened StringUtil
  import opened HttpMessages
  import opened Options
  import opened HttpParser
  import opened HttpWriter
  import opened HttpRoundTrip

  // ---------- sizes in hexadecimal ----------

  function HexDigit(d: nat, upper: bool): (b: Byte)
    requires d < 16
    ensures HexValue(b) == d && (d != 0 ==> b != 48)
  {
    if d < 10 then 48 + d else if upper then 55 + d else 87 + d
  }

  /** The shortest hexadecimal text of a number. */
  function HexText(n: nat, upper: bool): (s: seq<Byte>)
    ensures |s| >= 1 && forall b :: b in s ==> HexValue(b) >= 0
    ensures n != 0 ==> s[0] != 48
  {
    if n < 16 then [HexDigit(n, upper)] else HexText(n / 16, upper) + [HexDigit(n % 16, upper)]
  }

  lemma {:induction false} HexAppend(s: seq<Byte>, d: Byte, acc: nat)
    requires forall b :: b in s ==> HexValue(b) >= 0
    requires HexValue(d) >= 0
    ensures HexDigits(s + [d], acc) == HexDigits(s, acc) * 16 + HexValue(d)
    decreases |s|
  {
    hide HexValue;
    if s == [] {
      assert s + [d] == [d];
      assert HexDigits([d][1..], acc * 16 + HexValue(d)) == acc * 16 + HexValue(d);
    } else {
      assert (s + [d])[1..] == s[1..] + [d];
      assert s[0] in s;
      HexAppend(s[1..], d, acc * 16 + HexValue(s[0]));
    }
  }

  lemma {:induction false} HexTextDigits(n: nat, upper: bool)
    ensures HexDigits(HexText(n, upper), 0) == n
  {
    if n < 16 {
      var s := [HexDigit(n, upper)];
      assert s[1..] == [];
      assert HexDigits(s, 0) == HexDigits([], HexValue(s[0]));
    } else {
      HexTextDigits(n / 16, upper);
      HexAppend(HexText(n / 16, upper), HexDigit(n % 16, upper), 0);
    }
  }

  /** The digits end where the extension begins. */
  lemma {:induction false} HexStops(s: seq<Byte>, extension: seq<Byte>, acc: nat)
    requires forall b :: b in s ==> HexValue(b) >= 0
    requires extension == [] || HexValue(extension[0]) < 0
    ensures HexDigits(s + extension, acc) == HexDigits(s, acc)
    decreases |s|
  {
    hide HexValue;
    if s == [] {
      assert s + extension == extension;
    } else {
      assert (s + extension)[1..] == s[1..] + extension;
      assert s[0] in s;
      HexStops(s[1..], extension, acc * 16 + HexValue(s[0]));
    }
  }

  lemma {:induction false} CStrKeepsFront(a: seq<Byte>, b: seq<Byte>)
    requires 0 !in a
    ensures CStr(a + b) == a + CStr(b)
    decreases |a|
  {
    hide CStr;
    if a == [] {
      Unprefixed(b, CStr(b));
    } else {
      var first, front := a[0], a[1..];
      assert first in a && 0 !in front;
      CStrStep(first, front + b);
      CStrKeepsFront(front, b);
      Regroup(first, front, b);
      Regroup(first, front, CStr(b));
      assert a == [first] + front;
    }
  }

  lemma Unprefixed(s: seq<Byte>, t: seq<Byte>)
    ensures [] + s == s && [] + t == t
  {}

  lemma Regroup(first: Byte, front: seq<Byte>, s: seq<Byte>)
    ensures [first] + (front + s) == [first] + front + s
  {}

  lemma CStrStep(first: Byte, s: seq<Byte>)
    requires first != 0
    ensures CStr([first] + s) == [first] + CStr(s)
  {
    assert ([first] + s)[1..] == s;
  }

  /** What may stand behind the digits of a size line: nothing, or an extension after a semicolon. */
  predicate Extension(s: seq<Byte>) { s == [] || (s[0] == 59 && CR !in s) }

  /** Every size below 2^32 is read back, in either letter case and with any extension behind it. */
  lemma ScanHexText(n: nat, upper: bool, extension: seq<Byte>)
    requires n < 0x1_0000_0000 && Extension(extension)
    ensures ScanHex(HexText(n, upper) + extension) == n
  {
    hide HexText, HexDigits, CStr;
    var s, tail := HexText(n, upper), CStr(extension);
    assert 0 !in s && HexValue(s[0]) >= 0 by { assert s[0] in s; }
    CStrKeepsFront(s, extension);
    assert tail == [] || tail[0] == 59;
    HexStops(s, tail, 0);
    HexTextDigits(n, upper);
    var text := s + tail;
    assert text[0] == s[0];
    assert SkipSpace(text) == text;
    if |text| >= 2 && text[0] == 48 { ZeroIsOneDigit(n, upper); assert text[1] == tail[0]; }
  }

  lemma ZeroIsOneDigit(n: nat, upper: bool)
    requires HexText(n, upper)[0] == 48
    ensures |HexText(n, upper)| == 1
  {}

  // ---------- the encoder ----------

  /** A piece of a body and the free choices of its sender. */
  datatype Piece = Piece(data: seq<Byte>, upper: bool, extension: seq<Byte>)

  predicate GoodPiece(p: Piece) { 0 < |p.data| < 0x1_0000_0000 && Extension(p.extension) }

  function SizeLine(p: Piece): (s: seq<Byte>) { HexText(|p.data|, p.upper) + p.extension }

  function PieceWire(p: Piece): (s: seq<Byte>) { SizeLine(p) + CRLF + p.data + CRLF }

  const LAST_CHUNK: seq<Byte> := [48, CR, LF]

  function BodyWire(pieces: seq<Piece>): (s: seq<Byte>) {
    if pieces == [] then LAST_CHUNK + CRLF else PieceWire(pieces[0]) + BodyWire(pieces[1..])
  }

  /** The body that the pieces make up. */
  function Body(pieces: seq<Piece>): (s: seq<Byte>) {
    if pieces == [] then [] else pieces[0].data + Body(pieces[1..])
  }

  // ---------- one piece ----------

  lemma SizeLineIsRead(p: Piece)
    requires GoodPiece(p)
    ensures CR !in SizeLine(p) && ScanHex(SizeLine(p)) == |p.data|
  {
    hide HexText, ScanHex;
    ScanHexText(|p.data|, p.upper, p.extension);
    assert CR !in HexText(|p.data|, p.upper);
  }

  /** Where the parts of a piece lie in the buffer. */
  lemma PieceParts(line: seq<Byte>, data: seq<Byte>, rest: seq<Byte>, stale: seq<Byte>)
    ensures var buf := line + CRLF + data + CRLF + rest;
            && buf[..|line|] == line
            && buf[|line| + 2..|line| + 2 + |data|] == data
            && (buf + stale)[|line| + 2 + |data|..|line| + 2 + |data| + 2] == CRLF
            && buf[|line| + |data| + 4..] == rest
  {
    var buf := line + CRLF + data + CRLF + rest;
    assert buf + stale == line + CRLF + data + CRLF + (rest + stale);
    SliceAt(line + CRLF + data, CRLF, rest + stale);
    assert buf == line + CRLF + data + (CRLF + rest);
    SliceAt(line + CRLF, data, CRLF + rest);
  }

  lemma PieceIsFound(line: seq<Byte>, data: seq<Byte>, rest: seq<Byte>)
    requires CR !in line
    ensures Find(line + CRLF + data + CRLF + rest, CRLF) == |line|
  {
    assert line + CRLF + data + CRLF + rest == line + CRLF + (data + CRLF + rest);
    FindAfter(line, CRLF, data + CRLF + rest);
  }

  lemma PieceIsRead(p: Piece, rest: seq<Byte>, stale: seq<Byte>)
    requires GoodPiece(p) && |stale| == 2
    ensures NextChunk(PieceWire(p) + rest, stale) == DataChunk(p.data, |PieceWire(p)|)
    ensures (PieceWire(p) + rest)[|PieceWire(p)|..] == rest
  {
    hide SizeLine, ScanHex, Find;
    var line, buf := SizeLine(p), PieceWire(p) + rest;
    SizeLineIsRead(p);
    PieceParts(line, p.data, rest, stale);
    PieceIsFound(line, p.data, rest);
    assert Find(buf, CRLF) == |line|;
    assert |PieceWire(p)| == |line| + |p.data| + 4;
  }

  lemma LastChunkIsRead(rest: seq<Byte>, stale: seq<Byte>)
    requires |stale| == 2
    ensures NextChunk(LAST_CHUNK + CRLF + rest, stale) == LastChunk(3)
    ensures (LAST_CHUNK + CRLF + rest)[3..] == CRLF + rest
  {
    hide ScanHex, Find;
    var zero: seq<Byte>, buf := [48], LAST_CHUNK + CRLF + rest;
    ZeroLineIsRead();
    PieceParts(zero, [], rest, stale);
    assert buf == zero + CRLF + [] + CRLF + rest;
    assert buf == zero + CRLF + (CRLF + rest);
    FindAfter(zero, CRLF, CRLF + rest);
  }

  lemma ZeroLineIsRead()
    ensures ScanHex([48]) == 0
  {
    ScanHexText(0, false, []);
    assert HexText(0, false) + [] == [48];
  }

  // ---------- a whole body ----------

  lemma {:induction false} BodyIsRead(st: State, pieces: seq<Piece>, rest: seq<Byte>, stale: seq<Byte>)
    requires st.message.Some? && st.chunks.Some? && |stale| == 2
    requires forall p :: p in pieces ==> GoodPiece(p)
    ensures var o := ReadChunks(st, BodyWire(pieces) + rest, stale);
            && o.ret == 1 && o.rest == CRLF + rest && o.st.status.ReadingHeader?
            && o.st.message == Some(Dechunked(st.message.value, st.chunks.value + Body(pieces)))
    decreases |pieces|
  {
    hide NextChunk, Dechunked, PieceWire, GoodPiece;
    if pieces == [] {
      assert st.chunks.value + [] == st.chunks.value;
      LastChunkIsRead(rest, stale);
    } else {
      var p, tail := pieces[0], BodyWire(pieces[1..]) + rest;
      assert BodyWire(pieces) + rest == PieceWire(p) + tail;
      PieceIsRead(p, tail, stale);
      var st' := st.(chunks := Some(st.chunks.value + p.data));
      BodyIsRead(st', pieces[1..], rest, stale);
      assert st'.chunks.value + Body(pieces[1..]) == st.chunks.value + Body(pieces);
    }
  }

  function Collected(st: State): (s: seq<Byte>) { if st.chunks.Some? then st.chunks.value else [] }

  /** The message that a chunked body completes: the body follows what was collected, Content-Length is its
      length, Transfer-Encoding is gone, and everything else is as it was. */
  ghost predicate Completes(m: Message, body: seq<Byte>, m': Message) {
    var length, encoding := Lower(Ascii("Content-Length")), Lower(Ascii("Transfer-Encoding"));
    && m'.kind == m.kind && m'.version == m.version && m'.body == body
    && GetHeader(m'.headers, Ascii("Content-Length")) == ToDecimal(|body|)
    && !HasHeader(m'.headers, Ascii("Transfer-Encoding"))
    && forall k :: k != length && k != encoding ==>
         (k in m'.headers <==> k in m.headers) && (k in m.headers ==> m'.headers[k] == m.headers[k])
  }

  lemma DechunkedCompletes(m: Message, body: seq<Byte>)
    ensures Completes(m, body, Dechunked(m, body))
  {
    assert |Lower(Ascii("Content-Length"))| != |Lower(Ascii("Transfer-Encoding"))|;
  }

  /** A parser that waits for a chunked body. */
  predicate AwaitsChunks(st: State) {
    st.status.ReadingBody? && st.message.Some? && ContentLength(st) <= 0 && IsChunked(st)
  }

  /** The outcome of a chunked body: the message is complete and exactly `rest` is left. */
  ghost predicate Delivered(st: State, body: seq<Byte>, rest: seq<Byte>, r: Received) {
    && st.message.Some? && r.code.MessageReady? && r.rest == rest
    && r.st.status.Finished? && r.st.message.Some?
    && Completes(st.message.value, Collected(st) + body, r.st.message.value)
  }

  lemma ChunkedBody(st: State, pieces: seq<Piece>, rest: seq<Byte>, stale: seq<Byte>)
    requires AwaitsChunks(st) && |stale| == 2
    requires forall p :: p in pieces ==> GoodPiece(p)
    ensures Delivered(st, Body(pieces), rest, Recv(st, BodyWire(pieces) + rest, stale))
  {
    hide ReadChunks, Dechunked, ContentLength, IsChunked, BodyWire, Completes, GoodPiece;
    var buf, st1 := BodyWire(pieces) + rest, WithChunkBuffer(st);
    BodyIsRead(st1, pieces, rest, stale);
    var o := ReadBody(st, buf, stale);
    assert o == ReadChunks(st1, buf, stale);
    assert (CRLF + rest)[..2] == CRLF && (CRLF + rest)[2..] == rest;
    assert Recv(st, buf, stale) == Recv(o.st, o.rest, stale);
    DechunkedCompletes(st.message.value, st1.chunks.value + Body(pieces));
  }

  /** What may follow the last size line: the blank line and nothing else. Trailer fields, which section 7.1.2
      of RFC 9112 allows there, are refused. */
  lemma NoTrailers(st: State, after: seq<Byte>, stale: seq<Byte>)
    requires AwaitsChunks(st) && |stale| == 2 && |after| >= 2
    ensures Recv(st, LAST_CHUNK + after, stale).code == if after[..2] == CRLF then MessageReady else Error
  {
    hide Find, ScanHex, Dechunked, ContentLength, IsChunked;
    var zero: seq<Byte>, buf, st1 := [48], LAST_CHUNK + after, WithChunkBuffer(st);
    assert buf == zero + CRLF + after;
    FindAfter(zero, CRLF, after);
    ZeroLineIsRead();
    assert buf[..1] == zero;
    assert (buf + stale)[3..5] == after[..2];
    assert buf[3..] == after;
    if after[..2] == CRLF {
      assert NextChunk(buf, stale) == LastChunk(3);
      var o := ReadBody(st, buf, stale);
      assert o == ReadChunks(st1, buf, stale);
      assert Recv(st, buf, stale) == Recv(o.st, after, stale);
    } else {
      assert NextChunk(buf, stale) == BadChunk;
      assert ReadBody(st, buf, stale) == ReadChunks(st1, buf, stale);
    }
  }

  // ---------- cut into deliveries ----------

  /** A proper part of a piece is waited for. */
  lemma PartOfPiece(p: Piece, a: seq<Byte>, b: seq<Byte>, rest: seq<Byte>, stale: seq<Byte>)
    requires GoodPiece(p) && |stale| == 2
    requires a + b == PieceWire(p) + rest && |a| < |PieceWire(p)|
    ensures NextChunk(a, stale).NoChunk? && !LastChunkCut(a)
  {
    hide SizeLine, ScanHex, Find;
    var line := SizeLine(p);
    SizeLineIsRead(p);
    var i := Find(a, CRLF);
    if i >= 0 {
      FindStable(a, b, CRLF);
      assert a + b == line + CRLF + (p.data + CRLF + rest);
      FindAfter(line, CRLF, p.data + CRLF + rest);
      assert a[..i] == (a + b)[..i] == line;
    }
  }

  /** The front of the last chunk is waited for, unless the cut falls into its closing line break. */
  lemma PartOfLastChunk(a: seq<Byte>, b: seq<Byte>, rest: seq<Byte>, stale: seq<Byte>)
    requires |stale| == 2 && a + b == LAST_CHUNK + CRLF + rest && |a| < 3
    ensures NextChunk(a, stale).NoChunk? && !LastChunkCut(a)
  {
    hide Find, ScanHex;
    FindIsFirst(a, CRLF);
    forall i ensures !MatchAt(a, CRLF, i) {
      if 0 <= i && i + 2 <= |a| { assert a[i..i + 2][1] == (a + b)[i + 1]; }
    }
  }

  /** A front part of a chunked body that does not end in its last line break: the loop waits, and has taken
      the first `k` pieces. */
  lemma {:induction false} PartOfBody(st: State, pieces: seq<Piece>, a: seq<Byte>, b: seq<Byte>, rest: seq<Byte>,
                                      stale: seq<Byte>)
    returns (k: nat)
    requires st.message.Some? && st.chunks.Some? && |stale| == 2
    requires forall p :: p in pieces ==> GoodPiece(p)
    requires a + b == BodyWire(pieces) + rest && |b| > |rest| + 2
    ensures !ShortZeroChunk(a) && k <= |pieces|
    ensures var o := ReadChunks(st, a, stale);
            && o.ret == 0 && o.rest + b == BodyWire(pieces[k..]) + rest
            && o.st == st.(chunks := Some(st.chunks.value + Body(pieces[..k])))
    decreases |pieces|
  {
    hide NextChunk, LastChunkCut, PieceWire, GoodPiece;
    k := 0;
    assert pieces[0..] == pieces && pieces[..0] == [] && st.chunks.value + [] == st.chunks.value;
    if pieces == [] {
      PartOfLastChunk(a, b, rest, stale);
      PartOfLastChunk(a, b, rest, [0, 0]);
    } else {
      var p, tail := pieces[0], BodyWire(pieces[1..]) + rest;
      assert BodyWire(pieces) + rest == PieceWire(p) + tail;
      if |a| < |PieceWire(p)| {
        PartOfPiece(p, a, b, tail, stale);
        PartOfPiece(p, a, b, tail, [0, 0]);
      } else {
        k := PartBehindPiece(st, pieces, a, b, rest, stale);
      }
    }
  }

  lemma {:induction false} PartBehindPiece(st: State, pieces: seq<Piece>, a: seq<Byte>, b: seq<Byte>,
                                           rest: seq<Byte>, stale: seq<Byte>)
    returns (k: nat)
    requires st.message.Some? && st.chunks.Some? && |stale| == 2
    requires forall p :: p in pieces ==> GoodPiece(p)
    requires a + b == BodyWire(pieces) + rest && |b| > |rest| + 2
    requires pieces != [] && |a| >= |PieceWire(pieces[0])|
    ensures !ShortZeroChunk(a) && k <= |pieces|
    ensures var o := ReadChunks(st, a, stale);
            && o.ret == 0 && o.rest + b == BodyWire(pieces[k..]) + rest
            && o.st == st.(chunks := Some(st.chunks.value + Body(pieces[..k])))
    decreases |pieces|, 0
  {
    hide NextChunk, LastChunkCut, PieceWire, GoodPiece, ShortZeroChunk;
    var p, tail := pieces[0], BodyWire(pieces[1..]) + rest;
    var a' := a[|PieceWire(p)|..];
    assert BodyWire(pieces) + rest == PieceWire(p) + tail;
    BehindFront(a, b, PieceWire(p), tail);
    PieceIsRead(p, a', stale);
    var st' := st.(chunks := Some(st.chunks.value + p.data));
    var j := PartOfBody(st', pieces[1..], a', b, rest, stale);
    k := j + 1;
    NotCutYet(a, a', p);
    assert pieces[1..][j..] == pieces[k..];
    BodyGrows(st.chunks.value, pieces, j);
    assert ReadChunks(st, a, stale) == ReadChunks(st', a', stale);
  }

  lemma BehindFront(a: seq<Byte>, b: seq<Byte>, front: seq<Byte>, tail: seq<Byte>)
    requires a + b == front + tail && |a| >= |front|
    ensures a == front + a[|front|..] && a[|front|..] + b == tail
  {
    assert a[..|front|] == (a + b)[..|front|] == front;
    assert a[|front|..] + b == (a + b)[|front|..] == tail;
  }

  lemma NotCutYet(a: seq<Byte>, a': seq<Byte>, p: Piece)
    requires GoodPiece(p) && a == PieceWire(p) + a' && !ShortZeroChunk(a')
    ensures !ShortZeroChunk(a)
  {
    hide NextChunk, LastChunkCut, PieceWire, GoodPiece;
    PieceIsRead(p, a', [0, 0]);
    NotLastCut(a);
  }

  lemma BodyGrows(collected: seq<Byte>, pieces: seq<Piece>, j: nat)
    requires pieces != [] && j <= |pieces[1..]|
    ensures collected + pieces[0].data + Body(pieces[1..][..j]) == collected + Body(pieces[..j + 1])
  {
    assert pieces[..j + 1][1..] == pieces[1..][..j];
  }

  lemma NotLastCut(a: seq<Byte>)
    requires NextChunk(a, [0, 0]).DataChunk?
    ensures !LastChunkCut(a)
  {}

  /** No delivery but the last ends inside the closing line break of the body, that is with one or two bytes of
      the body still to come. */
  predicate SparesLastBreak(ds: seq<Delivery>, rest: seq<Byte>) {
    forall k :: 0 < k < |ds| ==> var left := |AllBytes(ds[k..])|; left != |rest| + 1 && left != |rest| + 2
  }

  /** A whole body in the buffer is not cut. */
  lemma {:induction false} WholeBodyUncut(pieces: seq<Piece>, rest: seq<Byte>)
    requires forall p :: p in pieces ==> GoodPiece(p)
    ensures !ShortZeroChunk(BodyWire(pieces) + rest)
    decreases |pieces|
  {
    hide NextChunk, LastChunkCut, PieceWire, GoodPiece;
    if pieces == [] {
      LastChunkIsRead(rest, [0, 0]);
      LastBreakIsThere(rest);
    } else {
      var tail := BodyWire(pieces[1..]) + rest;
      assert BodyWire(pieces) + rest == PieceWire(pieces[0]) + tail;
      PieceIsRead(pieces[0], tail, [0, 0]);
      NotLastCut(PieceWire(pieces[0]) + tail);
      WholeBodyUncut(pieces[1..], rest);
    }
  }

  lemma LastBreakIsThere(rest: seq<Byte>)
    ensures !LastChunkCut(LAST_CHUNK + CRLF + rest)
  {
    hide ScanHex, Find;
    var buf := LAST_CHUNK + CRLF + rest;
    assert buf == [48] + CRLF + (CRLF + rest);
    FindAfter([48], CRLF, CRLF + rest);
    assert |buf[1 + 2..]| >= 2;
  }

  /** The cuts of such a delivery are harmless. */
  lemma {:induction false} BodyCutsHarmless(st: State, unread: seq<Byte>, pieces: seq<Piece>, rest: seq<Byte>,
                                            ds: seq<Delivery>)
    requires AwaitsChunks(st) && ds != []
    requires forall p :: p in pieces ==> GoodPiece(p)
    requires forall d :: d in ds ==> |d.stale| == 2
    requires unread + AllBytes(ds) == BodyWire(pieces) + rest && SparesLastBreak(ds, rest)
    ensures HarmlessCuts(st, unread, ds)
    decreases |ds|
  {
    hide ReadChunks, ShortZeroChunk, ContentLength, IsChunked, GoodPiece, BodyWire;
    if |ds| > 1 {
      var a, b, st1 := unread + ds[0].bytes, AllBytes(ds[1..]), WithChunkBuffer(st);
      assert unread + AllBytes(ds) == a + b;
      if |b| > |rest| + 2 {
        var k := PartOfBody(st1, pieces, a, b, rest, ds[0].stale);
        var o := ReadBody(st, a, ds[0].stale);
        assert o == ReadChunks(st1, a, ds[0].stale);
        assert SparesLastBreak(ds[1..], rest) by {
          forall j | 0 < j < |ds[1..]| ensures ds[1..][j..] == ds[j + 1..] {}
        }
        assert ContentLength(o.st) == ContentLength(st) && IsChunked(o.st) == IsChunked(st) by {
          SameFraming(st, o.st);
        }
        BodyCutsHarmless(o.st, o.rest, pieces[k..], rest, ds[1..]);
      } else {
        WholeFront(a, b, BodyWire(pieces), rest);
        var front := rest[..|rest| - |b|];
        WholeBodyUncut(pieces, front);
        ChunkedBody(st, pieces, front, ds[0].stale);
      }
    }
  }

  lemma SameFraming(st: State, st': State)
    requires st.message.Some? && st'.message == st.message
    ensures ContentLength(st') == ContentLength(st) && IsChunked(st') == IsChunked(st)
  {}

  lemma WholeFront(a: seq<Byte>, b: seq<Byte>, wire: seq<Byte>, rest: seq<Byte>)
    requires a + b == wire + rest && |b| <= |rest|
    ensures a == wire + rest[..|rest| - |b|]
  {
    assert a == (a + b)[..|a|];
  }

  /** A chunked body that arrives in any number of deliveries, none of which ends inside its last line break,
      is delivered as the pieces in order. */
  lemma ChunkedSurvivesCuts(st: State, pieces: seq<Piece>, rest: seq<Byte>, ds: seq<Delivery>)
    requires AwaitsChunks(st) && ds != []
    requires forall p :: p in pieces ==> GoodPiece(p)
    requires forall d :: d in ds ==> |d.stale| == 2
    requires AllBytes(ds) == BodyWire(pieces) + rest && SparesLastBreak(ds, rest)
    ensures HarmlessCuts(st, [], ds) && Delivered(st, Body(pieces), rest, Deliver(st, [], ds))
  {
    hide ContentLength, IsChunked, BodyWire, GoodPiece, Delivered;
    assert [] + AllBytes(ds) == AllBytes(ds);
    BodyCutsHarmless(st, [], pieces, rest, ds);
    assert ds[|ds| - 1] in ds;
    DeliveryIndependence(st, [], ds);
    ChunkedBody(st, pieces, rest, ds[|ds| - 1].stale);
  }

  // ---------- from the start line on ----------

  /** The headers announce a chunked body, and no length hides it. */
  predicate AnnouncesChunks(m: Message) {
    && Atoi(GetHeader(m.headers, Ascii("Content-Length"))) <= 0
    && HeaderContain(m.headers, Ascii("Transfer-Encoding"), Ascii("chunked"))
  }

  lemma AnnouncedByHeader(m: Message)
    requires AnnouncesChunks(m)
    ensures m.headers != map[]
  {
    var value := GetHeader(m.headers, Ascii("Transfer-Encoding"));
    assert value != [];
  }

  /** A fresh parser, given a written head, the encoded pieces and anything behind them, returns the message
      with the pieces as its body and leaves what follows unread. */
  lemma ChunkedMessage(m: Message, order: seq<seq<Byte>>, pieces: seq<Piece>, rest: seq<Byte>, stale: seq<Byte>)
    requires GoodHead(m) && Enumerates(order, m.headers) && AnnouncesChunks(m) && |stale| == 2
    requires forall p :: p in pieces ==> GoodPiece(p)
    ensures var r := Recv(INITIAL_STATE, Head(m, order) + BodyWire(pieces) + rest, stale);
            && r.code.MessageReady? && r.rest == rest && r.st.message.Some?
            && Completes(m.(body := []), Body(pieces), r.st.message.value)
  {
    hide ReadStartLine, ReadHeader, ReadBody, GoodHead, BodyWire, Completes, GoodPiece, HeaderText, StartLine,
         AnnouncesChunks, ContentLength, IsChunked, CutsZeroChunk;
    var first := Message(m.kind, m.version, map[], []);
    var st := State(ReadingBody, Some(first.(headers := m.headers)), None);
    var body := BodyWire(pieces) + rest;
    AnnouncedByHeader(m);
    HeadIsRead(m, first, order, body);
    ChunksAwaited(m, st);
    ChunkedBody(st, pieces, rest, stale);
    assert [] + Body(pieces) == Body(pieces);
    assert Head(m, order) + BodyWire(pieces) + rest == Head(m, order) + body;
    var tail := HeaderText(m.headers, order) + CRLF + body;
    OneStep(INITIAL_STATE, Head(m, order) + body, stale, Outcome(1, State(ReadingHeader, Some(first), None), tail));
    OneStep(State(ReadingHeader, Some(first), None), tail, stale, Outcome(1, st, body));
  }

  lemma ChunksAwaited(m: Message, st: State)
    requires AnnouncesChunks(m) && st == State(ReadingBody, Some(m.(body := [])), None)
    ensures AwaitsChunks(st)
  {}

  lemma HeadIsRead(m: Message, first: Message, order: seq<seq<Byte>>, body: seq<Byte>)
    requires GoodHead(m) && Enumerates(order, m.headers) && m.headers != map[]
    requires first == Message(m.kind, m.version, map[], [])
    ensures var tail := HeaderText(m.headers, order) + CRLF + body;
            && ReadStartLine(INITIAL_STATE, Head(m, order) + body)
               == Outcome(1, State(ReadingHeader, Some(first), None), tail)
            && ReadHeader(State(ReadingHeader, Some(first), None), tail)
               == Outcome(1, State(ReadingBody, Some(first.(headers := m.headers)), None), body)
  {
    hide StartLine, HeaderText, ReadHeader, ReadStartLine, GoodHeader, GoodKind, ParseStartLine;
    var k :| k in m.headers;
    assert k in order;
    StartLineParses(m);
    LineIsRead(StartLine(m), first, HeaderText(m.headers, order) + CRLF + body);
    assert Head(m, order) + body == StartLine(m) + CRLF + (HeaderText(m.headers, order) + CRLF + body);
    HeaderBlockParses(m, first, order, body);
  }

  lemma LineIsRead(line: seq<Byte>, first: Message, tail: seq<Byte>)
    requires ParseStartLine(line) == Some(first) && CR !in line
    ensures ReadStartLine(INITIAL_STATE, line + CRLF + tail)
            == Outcome(1, State(ReadingHeader, Some(first), None), tail)
  {
    hide Find, ParseStartLine;
    FindAfter(line, CRLF, tail);
    assert (line + CRLF + tail)[..|line|] == line && (line + CRLF + tail)[|line| + 2..] == tail;
  }
}
