/** Model of the receiving half of src/brickred/protocol/http_protocol.cc as functions on the unread bytes,
    and the proof that parsing does not depend on where the stream is cut. */
module HttpParser {
  import opened Bytes
  import opened StringUtil
  import opened HttpMessages
  import opened Options

  datatype Status = ReadingStartLine | ReadingHeader | ReadingBody | Finished | PendingError
  datatype RetCode = Error | WaitingMoreData | MessageReady

  /** The fields of HttpProtocol::Impl; None stands for a NULL pointer. */
  datatype State = State(status: Status, message: Option<Message>, chunks: Option<seq<Byte>>)

  /** Result of a status handler: -1 error, 0 wait for data, 1 go on. */
  datatype Outcome = Outcome(ret: int, st: State, rest: seq<Byte>)

  datatype Received = Received(code: RetCode, st: State, rest: seq<Byte>)

  const INITIAL_STATE := State(ReadingStartLine, None, None)
  const CRLFCRLF: seq<Byte> := [CR, LF, CR, LF]

  predicate Reading(s: Status) { s.ReadingStartLine? || s.ReadingHeader? || s.ReadingBody? }

  /** A message exists from the header phase on. */
  predicate WellFormed(st: State) {
    st.status.ReadingHeader? || st.status.ReadingBody? || st.status.Finished? ==> st.message.Some?
  }

  // ---------- start line ----------

  function ParseStartLine(line: seq<Byte>): (r: Option<Message>) {
    var parts := SplitBy(line, [SPACE], 3);
    if |parts| != 3 then None
    else if MatchAt(parts[0], Ascii("HTTP"), 0) then
      var version := VersionFromText(parts[0]);
      var code := Atoi(parts[1]);
      if version.UnknownVersion? || code < 0 then None
      else Some(Message(Response(code, parts[2]), version, map[], []))
    else
      var verb := MethodFromText(parts[0]);
      var version := VersionFromText(parts[2]);
      if verb.UnknownMethod? || version.UnknownVersion? then None
      else Some(Message(Request(verb, parts[1]), version, map[], []))
  }

  function ReadStartLine(st: State, buf: seq<Byte>): (o: Outcome)
    ensures -1 <= o.ret <= 1
    ensures o.ret == 1 ==> |o.rest| < |buf| && o.st.status.ReadingHeader? && o.st.message.Some?
    ensures o.ret != 1 ==> o.st == st
  {
    var i := Find(buf, CRLF);
    if i < 0 then Outcome(0, st, buf)
    else match ParseStartLine(buf[..i])
      case None => Outcome(-1, st, buf)
      case Some(m) => Outcome(1, st.(status := ReadingHeader, message := Some(m)), buf[i + 2..])
  }

  // ---------- headers ----------

  /** Stores the header lines in order; stops at the first line without a colon. */
  function StoreHeaders(h: Headers, lines: seq<seq<Byte>>): (r: (Headers, bool))
    decreases |lines|
  {
    if lines == [] then (h, true)
    else
      var line := lines[0];
      var colon := Find(line, [COLON]);
      if colon < 0 then (h, false)
      else StoreHeaders(SetHeader(h, Trim(line[..colon]), Trim(CStr(line[colon + 1..]))), lines[1..])
  }

  function ReadHeader(st: State, buf: seq<Byte>): (o: Outcome)
    requires st.message.Some?
    ensures -1 <= o.ret <= 1
    ensures o.ret == 1 ==> |o.rest| < |buf|
    ensures o.st.message.Some? && (o.ret == 0 ==> o.st == st && o.rest == buf)
    ensures o.ret != 1 ==> o.st.status == st.status
    ensures o.ret == 1 ==> o.st.status.ReadingBody? || o.st.status.Finished?
  {
    if |buf| < 2 then Outcome(0, st, buf)
    else if buf[..2] == CRLF then Outcome(1, st.(status := Finished), buf[2..])
    else
      var i := Find(buf, CRLFCRLF);
      if i < 0 then Outcome(0, st, buf)
      else
        var m := st.message.value;
        var (headers, ok) := StoreHeaders(m.headers, SplitBy(buf[..i], CRLF, -1));
        var st' := st.(message := Some(m.(headers := headers)));
        if ok then Outcome(1, st'.(status := ReadingBody), buf[i + 4..]) else Outcome(-1, st', buf)
  }

  // ---------- body ----------

  /** The message once its last chunk has been read. */
  function Dechunked(m: Message, body: seq<Byte>): (r: Message) {
    m.(body := body,
       headers := RemoveHeader(SetHeader(m.headers, Ascii("Content-Length"), ToDecimal(|body|)),
                               Ascii("Transfer-Encoding")))
  }

  /** What the chunk loop sees at the front of the buffer; `size` counts the bytes it consumes. */
  datatype Chunk = NoChunk | BadChunk | DataChunk(data: seq<Byte>, size: nat) | LastChunk(size: nat)

  /** One round of the chunk loop. `stale` is what memory holds in the two bytes after the readable ones:
      for a chunk of size zero the code compares two bytes that it has not checked to be readable. */
  function NextChunk(buf: seq<Byte>, stale: seq<Byte>): (c: Chunk)
    requires |stale| == 2
    ensures c.DataChunk? || c.LastChunk? ==> 2 <= c.size <= |buf|
  {
    var i := Find(buf, CRLF);
    if i < 0 then NoChunk
    else
      var n := ScanHex(buf[..i]);
      if n < 0 then BadChunk
      else
        var total := if n == 0 then i + 2 else i + 2 + n + 2;
        if |buf| < total then NoChunk
        else if (buf + stale)[i + 2 + n..i + 2 + n + 2] != CRLF then BadChunk
        else if n == 0 then LastChunk(total)
        else DataChunk(buf[i + 2..i + 2 + n], total)
  }

  function ReadChunks(st: State, buf: seq<Byte>, stale: seq<Byte>): (o: Outcome)
    requires st.message.Some? && st.chunks.Some? && |stale| == 2
    ensures -1 <= o.ret <= 1
    ensures o.ret == 1 ==> |o.rest| < |buf| && o.st.status.ReadingHeader?
    ensures o.ret != 1 ==> o.st.status == st.status && o.st.message == st.message
    ensures o.st.message.Some? && o.st.chunks.Some?
    decreases |buf|
  {
    match NextChunk(buf, stale)
    case NoChunk => Outcome(0, st, buf)
    case BadChunk => Outcome(-1, st, buf)
    case DataChunk(data, size) => ReadChunks(st.(chunks := Some(st.chunks.value + data)), buf[size..], stale)
    case LastChunk(size) =>
      Outcome(1, st.(status := ReadingHeader, message := Some(Dechunked(st.message.value, st.chunks.value))),
              buf[size..])
  }

  function ContentLength(st: State): (n: int)
    requires st.message.Some?
  {
    Atoi(GetHeader(st.message.value.headers, Ascii("Content-Length")))
  }

  predicate IsChunked(st: State)
    requires st.message.Some?
  {
    HeaderContain(st.message.value.headers, Ascii("Transfer-Encoding"), Ascii("chunked"))
  }

  /** State on entry to the chunk loop: the chunk buffer exists. */
  function WithChunkBuffer(st: State): (r: State) {
    if st.chunks.None? then st.(chunks := Some([])) else st
  }

  function ReadBody(st: State, buf: seq<Byte>, stale: seq<Byte>): (o: Outcome)
    requires st.message.Some? && |stale| == 2
    ensures -1 <= o.ret <= 1
    ensures o.ret == 1 ==> |o.rest| <= |buf| && (o.st.status.ReadingHeader? || o.st.status.Finished?)
    ensures o.ret == 1 && o.st.status.ReadingHeader? ==> |o.rest| < |buf|
    ensures o.ret != 1 ==> o.st.status == st.status
    ensures o.st.message.Some?
  {
    var n := ContentLength(st);
    if n > 0 then
      if |buf| < n then Outcome(0, st, buf)
      else
        Outcome(1, st.(status := Finished, message := Some(st.message.value.(body := buf[..n]))), buf[n..])
    else if IsChunked(st) then ReadChunks(WithChunkBuffer(st), buf, stale)
    else Outcome(1, st.(status := Finished), buf)
  }

  // ---------- the status loop ----------

  function Handle(st: State, buf: seq<Byte>, stale: seq<Byte>): (o: Outcome)
    requires WellFormed(st) && |stale| == 2
    requires Reading(st.status)
    ensures o.ret == 1 ==> |o.rest| < |buf| || o.st.status.Finished?
    ensures -1 <= o.ret <= 1
    ensures WellFormed(o.st)
    ensures o.ret == 1 ==> Reading(o.st.status) || o.st.status.Finished?
    ensures o.ret != 1 ==> o.st.status == st.status
  {
    if st.status.ReadingStartLine? then ReadStartLine(st, buf)
    else if st.status.ReadingHeader? then ReadHeader(st, buf)
    else ReadBody(st, buf, stale)
  }

  /** recvMessage. */
  function Recv(st: State, buf: seq<Byte>, stale: seq<Byte>): (r: Received)
    requires WellFormed(st) && |stale| == 2
    ensures WellFormed(r.st)
    ensures r.code.MessageReady? ==> r.st.status.Finished?
    ensures r.code.WaitingMoreData? ==> Reading(r.st.status)
    decreases |buf|
  {
    if !Reading(st.status) then Received(Error, st, buf)
    else
      var o := Handle(st, buf, stale);
      if o.ret == 0 then Received(WaitingMoreData, o.st, o.rest)
      else if o.ret == -1 then Received(Error, o.st.(status := PendingError), o.rest)
      else if o.st.status.Finished? then Received(MessageReady, o.st, o.rest)
      else Recv(o.st, o.rest, stale)
  }

  // ---------- independence from delivery cuts ----------

  /** The first chunk has size zero and its closing line break has not arrived in full. */
  predicate LastChunkCut(buf: seq<Byte>) {
    var i := Find(buf, CRLF);
    i >= 0 && ScanHex(buf[..i]) == 0 && (buf[i + 2..] == [] || buf[i + 2..] == [CR])
  }

  /** The chunk loop on these bytes reaches such a chunk. */
  predicate ShortZeroChunk(buf: seq<Byte>)
    decreases |buf|
  {
    LastChunkCut(buf) ||
    var c := NextChunk(buf, [0, 0]);
    c.DataChunk? && ShortZeroChunk(buf[c.size..])
  }

  /** recvMessage on these bytes reaches such a chunk. */
  predicate CutsZeroChunk(st: State, buf: seq<Byte>)
    requires WellFormed(st)
    decreases |buf|
  {
    match st.status
    case ReadingStartLine =>
      var o := ReadStartLine(st, buf);
      o.ret == 1 && CutsZeroChunk(o.st, o.rest)
    case ReadingHeader =>
      var o := ReadHeader(st, buf);
      o.ret == 1 && CutsZeroChunk(o.st, o.rest)
    case ReadingBody =>
      ContentLength(st) <= 0 && IsChunked(st) && ShortZeroChunk(buf)
    case _ => false
  }

  /** Later bytes do not change a decided step. */
  predicate Stable(o: Outcome, o': Outcome, b: seq<Byte>) {
    o.ret != 0 ==> o' == Outcome(o.ret, o.st, o.rest + b)
  }

  lemma StartLineStable(st: State, a: seq<Byte>, b: seq<Byte>)
    ensures Stable(ReadStartLine(st, a), ReadStartLine(st, a + b), b)
    ensures ReadStartLine(st, a).ret == 0 ==> ReadStartLine(st, a) == Outcome(0, st, a)
  {
    var i := Find(a, CRLF);
    if i >= 0 {
      FindStable(a, b, CRLF);
      assert (a + b)[..i] == a[..i] && (a + b)[i + 2..] == a[i + 2..] + b;
    }
  }

  lemma HeaderStable(st: State, a: seq<Byte>, b: seq<Byte>)
    requires st.message.Some?
    ensures Stable(ReadHeader(st, a), ReadHeader(st, a + b), b)
  {
    if |a| >= 2 {
      assert (a + b)[..2] == a[..2];
      if a[..2] == CRLF {
        assert (a + b)[2..] == a[2..] + b;
      } else {
        var i := Find(a, CRLFCRLF);
        if i >= 0 {
          FindStable(a, b, CRLFCRLF);
          assert (a + b)[..i] == a[..i] && (a + b)[i + 4..] == a[i + 4..] + b;
        }
      }
    }
  }

  lemma SliceOfPrefix(a: seq<Byte>, b: seq<Byte>, p: nat, q: nat)
    requires p <= q <= |a|
    ensures (a + b)[p..q] == a[p..q]
  {}

  /** Unless the last line break is cut, what the chunk loop decides on `a` does not depend on stale
      memory or on later bytes. */
  lemma NextChunkStable(a: seq<Byte>, b: seq<Byte>, s1: seq<Byte>, s2: seq<Byte>)
    requires |s1| == |s2| == 2 && !LastChunkCut(a)
    ensures !NextChunk(a, s1).NoChunk? ==> NextChunk(a + b, s2) == NextChunk(a, s1)
  {
    hide Find, ScanHex;
    var i := Find(a, CRLF);
    if i >= 0 {
      FindStable(a, b, CRLF);
      FindIsFirst(a, CRLF);
      assert (a + b)[..i] == a[..i];
      var n := ScanHex(a[..i]);
      if n == 0 {
        ZeroChunkTest(a, b, i, s1, s2);
      } else if n > 0 && |a| >= i + n + 4 {
        var p := i + 2 + n;
        assert a + b + s2 == a + (b + s2);
        SliceOfPrefix(a, s1, p, p + 2);
        SliceOfPrefix(a, b + s2, p, p + 2);
        SliceOfPrefix(a, b, i + 2, p);
      }
    }
  }

  lemma ZeroChunkTest(a: seq<Byte>, b: seq<Byte>, i: nat, s1: seq<Byte>, s2: seq<Byte>)
    requires |s1| == |s2| == 2 && i + 2 <= |a|
    requires !(a[i + 2..] == [] || a[i + 2..] == [CR])
    ensures ((a + s1)[i + 2..i + 4] == CRLF) == ((a + b + s2)[i + 2..i + 4] == CRLF)
  {
    assert a[i + 2..] != [];
    assert (a + s1)[i + 2..i + 4][0] == a[i + 2] == (a + b + s2)[i + 2..i + 4][0];
    if |a| == i + 3 {
      assert a[i + 2..] == [a[i + 2]];
    } else {
      assert (a + s1)[i + 2..i + 4] == a[i + 2..i + 4] == (a + b + s2)[i + 2..i + 4];
    }
  }

  /** The chunk loop, resumed after a cut, ends where the uncut loop ends. */
  lemma {:induction false} ChunksCut(st: State, a: seq<Byte>, b: seq<Byte>, s1: seq<Byte>, s2: seq<Byte>)
    requires st.message.Some? && st.chunks.Some? && |s1| == |s2| == 2
    requires !ShortZeroChunk(a)
    ensures Stable(ReadChunks(st, a, s1), ReadChunks(st, a + b, s2), b)
    ensures var o := ReadChunks(st, a, s1);
            o.ret == 0 ==> ReadChunks(st, a + b, s2) == ReadChunks(o.st, o.rest + b, s2)
    decreases |a|
  {
    NextChunkStable(a, b, s1, s2);
    var c := NextChunk(a, s1);
    if c.DataChunk? {
      assert (a + b)[c.size..] == a[c.size..] + b;
      assert a + [] == a;
      NextChunkStable(a, [], s1, [0, 0]);
      ChunksCut(st.(chunks := Some(st.chunks.value + c.data)), a[c.size..], b, s1, s2);
    } else if c.LastChunk? {
      assert (a + b)[c.size..] == a[c.size..] + b;
    }
  }

  lemma BodyCut(st: State, a: seq<Byte>, b: seq<Byte>, s1: seq<Byte>, s2: seq<Byte>)
    requires st.message.Some? && st.status.ReadingBody? && |s1| == |s2| == 2
    requires !CutsZeroChunk(st, a)
    ensures Stable(ReadBody(st, a, s1), ReadBody(st, a + b, s2), b)
    ensures var o := ReadBody(st, a, s1);
            o.ret == 0 ==> ReadBody(st, a + b, s2) == ReadBody(o.st, o.rest + b, s2)
  {
    hide ReadChunks, HeaderContain, Atoi;
    var n := ContentLength(st);
    if n > 0 {
      if n <= |a| {
        assert (a + b)[..n] == a[..n] && (a + b)[n..] == a[n..] + b;
      }
    } else if IsChunked(st) {
      ChunksCut(WithChunkBuffer(st), a, b, s1, s2);
    }
  }

  /** What a cut between `a` and `b` must not change: a decision taken on `a` stands, and a wait resumed
      with `b` ends as if everything had arrived at once. */
  predicate CutHarmless(st: State, a: seq<Byte>, b: seq<Byte>, s1: seq<Byte>, s2: seq<Byte>)
    requires WellFormed(st) && |s1| == |s2| == 2
  {
    var first := Recv(st, a, s1);
    var whole := Recv(st, a + b, s2);
    if first.code.WaitingMoreData? then whole == Recv(first.st, first.rest + b, s2)
    else whole == Received(first.code, first.st, first.rest + b)
  }

  lemma {:induction false} RecvCut(st: State, a: seq<Byte>, b: seq<Byte>, s1: seq<Byte>, s2: seq<Byte>)
    requires WellFormed(st) && |s1| == |s2| == 2
    requires !CutsZeroChunk(st, a)
    ensures CutHarmless(st, a, b, s1, s2)
    decreases |a|
  {
    match st.status {
      case ReadingStartLine =>
        StartLineStable(st, a, b);
        var o := ReadStartLine(st, a);
        if o.ret == 1 { RecvCut(o.st, o.rest, b, s1, s2); }
      case ReadingHeader =>
        HeaderStable(st, a, b);
        var o := ReadHeader(st, a);
        if o.ret == 1 && !o.st.status.Finished? { RecvCut(o.st, o.rest, b, s1, s2); }
      case ReadingBody =>
        BodyCut(st, a, b, s1, s2);
        var o := ReadBody(st, a, s1);
        if o.ret == 1 && !o.st.status.Finished? {
          AfterZeroChunk(st, a, s1);
          RecvCut(o.st, o.rest, b, s1, s2);
        }
      case Finished =>
      case PendingError =>
    }
  }

  /** After a chunked body the blank line follows at once, so no second body is read. */
  lemma AfterZeroChunk(st: State, a: seq<Byte>, s: seq<Byte>)
    requires st.message.Some? && st.status.ReadingBody? && |s| == 2
    requires !CutsZeroChunk(st, a)
    requires var o := ReadBody(st, a, s); o.ret == 1 && o.st.status.ReadingHeader?
    ensures var o := ReadBody(st, a, s); |o.rest| >= 2 && o.rest[..2] == CRLF && !CutsZeroChunk(o.st, o.rest)
  {
    ChunksThenBlank(WithChunkBuffer(st), a, s);
    var o := ReadBody(st, a, s);
    assert ReadHeader(o.st, o.rest).st.status.Finished?;
  }

  lemma LastChunkThenBlank(a: seq<Byte>, s: seq<Byte>)
    requires |s| == 2 && !LastChunkCut(a) && NextChunk(a, s).LastChunk?
    ensures var rest := a[NextChunk(a, s).size..]; |rest| >= 2 && rest[..2] == CRLF
  {
    var i := Find(a, CRLF);
    assert (a + s)[i + 2..i + 4][0] == CR;
    assert a[i + 2..][..2] == (a + s)[i + 2..i + 4];
  }

  lemma {:induction false} ChunksThenBlank(st: State, a: seq<Byte>, s: seq<Byte>)
    requires st.message.Some? && st.chunks.Some? && |s| == 2
    requires !ShortZeroChunk(a) && ReadChunks(st, a, s).ret == 1
    ensures var o := ReadChunks(st, a, s); |o.rest| >= 2 && o.rest[..2] == CRLF
    decreases |a|
  {
    var c := NextChunk(a, s);
    if c.LastChunk? {
      LastChunkThenBlank(a, s);
    } else {
      assert a + [] == a;
      NextChunkStable(a, [], s, [0, 0]);
      ChunksThenBlank(st.(chunks := Some(st.chunks.value + c.data)), a[c.size..], s);
    }
  }

  // ---------- the condition is exact ----------

  /** With other bytes in stale memory, a cut last chunk is refused, although the bytes that complete its
      line break would have made it acceptable. */
  lemma LastChunkCutHurts(a: seq<Byte>) returns (b: seq<Byte>)
    requires LastChunkCut(a)
    ensures NextChunk(a, [0, 0]).BadChunk?
    ensures var c := NextChunk(a + b, [0, 0]); c.LastChunk? && (a + b)[c.size..] == CRLF
  {
    hide ScanHex, Find;
    var i := Find(a, CRLF);
    b := if a[i + 2..] == [] then CRLF else [LF];
    FindStable(a, b, CRLF);
    assert (a + b)[..i] == a[..i];
    assert (a + b)[i + 2..] == a[i + 2..] + b == CRLF;
    FindIsFirst(a, CRLF);
    CutPair(a, b, i + 2);
  }

  /** The two bytes after the size line, without and with the rest of the line break. */
  lemma CutPair(a: seq<Byte>, b: seq<Byte>, p: nat)
    requires p <= |a| && (a[p..] == [] || a[p..] == [CR]) && b == if a[p..] == [] then CRLF else [LF]
    ensures (a + b + [0, 0])[p..p + 2] == CRLF && (a + [0, 0])[p..p + 2] != CRLF
  {
    assert (a + [0, 0])[p..p + 2][1] == 0;
    assert a[p..] == [CR] ==> a[p] == CR;
  }

  lemma {:induction false} ChunkCutHurts(st: State, a: seq<Byte>) returns (b: seq<Byte>)
    requires st.message.Some? && st.chunks.Some? && ShortZeroChunk(a)
    ensures ReadChunks(st, a, [0, 0]).ret == -1
    ensures var o := ReadChunks(st, a + b, [0, 0]); o.ret == 1 && o.rest == CRLF
    decreases |a|
  {
    hide NextChunk, LastChunkCut, Dechunked;
    if LastChunkCut(a) {
      b := LastChunkCutHurts(a);
    } else {
      var c := NextChunk(a, [0, 0]);
      var st' := st.(chunks := Some(st.chunks.value + c.data));
      b := ChunkCutHurts(st', a[c.size..]);
      assert ReadChunks(st, a, [0, 0]) == ReadChunks(st', a[c.size..], [0, 0]);
      NextChunkStable(a, b, [0, 0], [0, 0]);
      assert (a + b)[c.size..] == a[c.size..] + b;
      assert ReadChunks(st, a + b, [0, 0]) == ReadChunks(st', a[c.size..] + b, [0, 0]);
    }
  }

  lemma {:induction false} ZeroChunkCutHurts(st: State, a: seq<Byte>) returns (b: seq<Byte>)
    requires WellFormed(st) && CutsZeroChunk(st, a)
    ensures Recv(st, a, [0, 0]).code.Error?
    ensures Recv(st, a + b, [0, 0]).code.MessageReady?
    decreases |a|
  {
    match st.status {
      case ReadingStartLine =>
        var o := ReadStartLine(st, a);
        b := ZeroChunkCutHurts(o.st, o.rest);
        StartLineStable(st, a, b);
      case ReadingHeader =>
        var o := ReadHeader(st, a);
        b := ZeroChunkCutHurts(o.st, o.rest);
        HeaderStable(st, a, b);
      case ReadingBody =>
        b := ChunkCutHurts(WithChunkBuffer(st), a);
        var o := ReadBody(st, a + b, [0, 0]);
        assert ReadHeader(o.st, o.rest).ret == 1;
        assert Recv(o.st, o.rest, [0, 0]).code.MessageReady?;
    }
  }

  /** Cutting the stream after `a` never matters, whatever follows and whatever stale memory holds,
      exactly when the cut does not split the line break behind a zero chunk. */
  lemma CutIndependenceIsExact(st: State, a: seq<Byte>)
    requires WellFormed(st)
    ensures (forall b, s1, s2 :: |s1| == |s2| == 2 ==> CutHarmless(st, a, b, s1, s2)) <==> !CutsZeroChunk(st, a)
  {
    if CutsZeroChunk(st, a) {
      var b := ZeroChunkCutHurts(st, a);
      assert !CutHarmless(st, a, b, [0, 0], [0, 0]);
    } else {
      forall b, s1, s2 | |s1| == |s2| == 2 ensures CutHarmless(st, a, b, s1, s2) {
        RecvCut(st, a, b, s1, s2);
      }
    }
  }

  /** Such a cut exists in every chunked body: right after a size line of 0. */
  lemma ZeroChunkCanBeCut(st: State)
    requires WellFormed(st) && st.status.ReadingBody? && ContentLength(st) <= 0 && IsChunked(st)
    ensures CutsZeroChunk(st, [48, CR, LF])
  {
    var buf: seq<Byte> := [48, CR, LF];
    assert buf == [48] + CRLF + [];
    FindAfter([48], CRLF, []);
    assert buf[..1] == [48] && CStr([48]) == [48];
    assert HexDigits([48], 0) == HexDigits([], 0) == 0;
    hide Find, ContentLength, IsChunked;
    assert ScanHex([48]) == 0;
    assert LastChunkCut(buf);
  }

  // ---------- whole deliveries ----------

  /** Bytes appended to the input buffer, and the stale memory behind them when recvMessage runs. */
  datatype Delivery = Delivery(bytes: seq<Byte>, stale: seq<Byte>)

  function AllBytes(ds: seq<Delivery>): (s: seq<Byte>) {
    if ds == [] then [] else ds[0].bytes + AllBytes(ds[1..])
  }

  /** recvMessage after every delivery for as long as it asks for more. */
  function Deliver(st: State, unread: seq<Byte>, ds: seq<Delivery>): (r: Received)
    requires WellFormed(st) && ds != []
    requires forall d :: d in ds ==> |d.stale| == 2
    decreases |ds|
  {
    var r := Recv(st, unread + ds[0].bytes, ds[0].stale);
    if |ds| == 1 then r
    else if r.code.WaitingMoreData? then Deliver(r.st, r.rest, ds[1..])
    else Received(r.code, r.st, r.rest + AllBytes(ds[1..]))
  }

  /** No delivery but the last ends inside the line break behind a zero chunk. */
  predicate HarmlessCuts(st: State, unread: seq<Byte>, ds: seq<Delivery>)
    requires WellFormed(st)
    requires forall d :: d in ds ==> |d.stale| == 2
    decreases |ds|
  {
    |ds| > 1 ==>
      !CutsZeroChunk(st, unread + ds[0].bytes) &&
      var r := Recv(st, unread + ds[0].bytes, ds[0].stale);
      (r.code.WaitingMoreData? ==> HarmlessCuts(r.st, r.rest, ds[1..]))
  }

  /** However a stream is cut into deliveries, the result is that of one delivery of everything. */
  lemma {:induction false} DeliveryIndependence(st: State, unread: seq<Byte>, ds: seq<Delivery>)
    requires WellFormed(st) && ds != []
    requires forall d :: d in ds ==> |d.stale| == 2
    requires HarmlessCuts(st, unread, ds)
    ensures Deliver(st, unread, ds) == Recv(st, unread + AllBytes(ds), ds[|ds| - 1].stale)
    decreases |ds|
  {
    hide Recv, CutsZeroChunk;
    var a := unread + ds[0].bytes;
    if |ds| == 1 {
      assert AllBytes(ds[1..]) == [];
      assert unread + AllBytes(ds) == a;
    } else {
      var b := AllBytes(ds[1..]);
      assert unread + AllBytes(ds) == a + b;
      assert ds[|ds| - 1] in ds;
      RecvCut(st, a, b, ds[0].stale, ds[|ds| - 1].stale);
      var r := Recv(st, a, ds[0].stale);
      if r.code.WaitingMoreData? {
        DeliveryIndependence(r.st, r.rest, ds[1..]);
      }
    }
  }
}
