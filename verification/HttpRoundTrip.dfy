/** Parsing what writeMessage writes gives the message back and leaves the following bytes alone. */
module HttpRoundTrip {
  import opened Bytes
  import opened StringUtil
  import opened HttpMessages
  import opened Options
  import opened HttpParser
  import opened HttpWriter
  import opened Buffers

  /** Text that survives being a field of a line: no CR, LF or NUL. */
  predicate Plain(s: seq<Byte>) { CR !in s && LF !in s && 0 !in s }

  predicate GoodHeader(k: seq<Byte>, h: Header) {
    && Lower(h.key) == k
    && Plain(h.key) && COLON !in h.key && Trimmed(h.key)
    && Plain(h.value) && Trimmed(h.value)
  }

  predicate GoodKind(k: Kind) {
    match k
    case Request(verb, uri) => !verb.UnknownMethod? && Plain(uri) && SPACE !in uri
    case Response(code, reason) => 0 <= code < 0x8000_0000 && Plain(reason)
  }

  /** The framing headers describe the body: a Content-Length for a body, and for an empty one nothing that
      announces bytes. */
  predicate Framed(m: Message) {
    var n := Atoi(GetHeader(m.headers, Ascii("Content-Length")));
    if m.body != [] then n == |m.body|
    else n <= 0 && !HeaderContain(m.headers, Ascii("Transfer-Encoding"), Ascii("chunked"))
  }

  /** The start line and the headers of a message can be written and read back. */
  predicate GoodHead(m: Message) {
    && !m.version.UnknownVersion? && GoodKind(m.kind)
    && forall k :: k in m.headers ==> GoodHeader(k, m.headers[k])
  }

  predicate Good(m: Message) { GoodHead(m) && 0 !in m.body && Framed(m) }

  /** A walk over the map: every key once. */
  predicate Enumerates(order: seq<seq<Byte>>, h: Headers) {
    && (forall k :: k in order ==> k in h)
    && (forall k :: k in h ==> k in order)
    && forall i, j :: 0 <= i < j < |order| ==> order[i] != order[j]
  }

  // ---------- start line ----------

  lemma ThreeParts(a: seq<Byte>, b: seq<Byte>, c: seq<Byte>)
    requires SPACE !in a && SPACE !in b
    ensures SplitBy(a + [SPACE] + b + [SPACE] + c, [SPACE], 3) == [a, b, c]
  {
    hide Find;
    var tail := b + [SPACE] + c;
    var s := a + [SPACE] + b + [SPACE] + c;
    assert s == a + [SPACE] + tail;
    FindAfter(a, [SPACE], tail);
    assert s[..|a|] == a && s[|a| + 1..] == tail;
    FindAfter(b, [SPACE], c);
    assert tail[..|b|] == b && tail[|b| + 1..] == c;
    assert SplitBy(c, [SPACE], 1) == [c];
    assert SplitBy(tail, [SPACE], 2) == [b] + [c];
  }

  lemma KnownTexts(v: Version, verb: Method)
    requires !v.UnknownVersion? && !verb.UnknownMethod?
    ensures VersionFromText(VersionText(v)) == v && MethodFromText(MethodText(verb)) == verb
    ensures MatchAt(VersionText(v), Ascii("HTTP"), 0) && !MatchAt(MethodText(verb), Ascii("HTTP"), 0)
    ensures Plain(VersionText(v)) && Plain(MethodText(verb))
    ensures SPACE !in VersionText(v) && SPACE !in MethodText(verb)
  {
    assert VersionText(v)[..4] == Ascii("HTTP");
    assert VersionText(v)[7] == if v.Http11? then 49 else 48;
    assert MethodText(verb)[0] == if verb.Get? then 71 else 80;
    assert Ascii("HTTP")[0] == 72;
  }

  lemma DecimalIsPlain(n: nat)
    ensures Plain(ToDecimal(n)) && SPACE !in ToDecimal(n)
  {}

  lemma StartLineParses(m: Message)
    requires !m.version.UnknownVersion? && GoodKind(m.kind)
    ensures ParseStartLine(StartLine(m)) == Some(Message(m.kind, m.version, map[], []))
    ensures CR !in StartLine(m)
  {
    match m.kind {
      case Request(verb, uri) =>
        KnownTexts(m.version, verb);
        hide MethodText, VersionText, MethodFromText, VersionFromText, SplitBy;
        ThreeParts(MethodText(verb), uri, VersionText(m.version));
      case Response(code, reason) =>
        KnownTexts(m.version, Get);
        DecimalIsPlain(code);
        AtoiDecimal(code);
        hide MethodText, VersionText, MethodFromText, VersionFromText, SplitBy, ToDecimal, Atoi;
        ThreeParts(VersionText(m.version), ToDecimal(code), reason);
    }
  }

  /** What the start lines look like. */
  lemma StartLineText(m: Message)
    requires !m.version.UnknownVersion? && GoodKind(m.kind)
    ensures var version := Ascii(if m.version.Http11? then "HTTP/1.1" else "HTTP/1.0");
            StartLine(m) ==
            match m.kind
            case Request(verb, uri) => Ascii(if verb.Get? then "GET " else "POST ") + uri + [32] + version
            case Response(code, reason) => version + [32] + ToDecimal(code) + [32] + reason
  {
    assert Ascii("GET ") == Ascii("GET") + [32] && Ascii("POST ") == Ascii("POST") + [32];
  }

  // ---------- header block ----------

  function HeaderLines(h: Headers, order: seq<seq<Byte>>): (lines: seq<seq<Byte>>)
    requires forall k :: k in order ==> k in h
    ensures |lines| == |order|
  {
    seq(|order|, i requires 0 <= i < |order| => HeaderLine(h[order[i]]))
  }

  /** The written header block is the joined lines and a double line break. */
  lemma {:induction false} HeaderBlock(h: Headers, order: seq<seq<Byte>>)
    requires order != [] && forall k :: k in order ==> k in h
    ensures HeaderText(h, order) + CRLF == Join(HeaderLines(h, order), CRLF) + CRLFCRLF
    decreases |order|
  {
    hide HeaderLine;
    var line := HeaderLine(h[order[0]]);
    assert CRLFCRLF == CRLF + CRLF;
    if |order| == 1 {
      assert HeaderText(h, order[1..]) == [];
      assert HeaderText(h, order) == line + CRLF;
      assert (line + CRLF) + CRLF == line + (CRLF + CRLF);
    } else {
      HeaderBlock(h, order[1..]);
      assert HeaderLines(h, order)[1..] == HeaderLines(h, order[1..]);
      var rest := Join(HeaderLines(h, order[1..]), CRLF);
      assert (line + CRLF + HeaderText(h, order[1..])) + CRLF == line + CRLF + (HeaderText(h, order[1..]) + CRLF);
      assert line + CRLF + (rest + CRLFCRLF) == (line + CRLF + rest) + CRLFCRLF;
    }
  }

  /** Bytes in front of which the keyword cannot start only shift the match. */
  lemma FindShift(prefix: seq<Byte>, s: seq<Byte>, key: seq<Byte>)
    requires Find(s, key) >= 0
    requires forall j :: 0 <= j < |prefix| ==> !MatchAt(prefix + s, key, j)
    ensures Find(prefix + s, key) == |prefix| + Find(s, key)
  {
    FindIsFirst(s, key);
    var n := |prefix|;
    forall j | n <= j <= n + Find(s, key) ensures MatchAt(prefix + s, key, j) == MatchAt(s, key, j - n) {
      if j + |key| <= n + |s| {
        assert (prefix + s)[j..j + |key|] == s[j - n..j - n + |key|];
      }
    }
    forall j | 0 <= j < n + Find(s, key) ensures !MatchAt(prefix + s, key, j) {
      if j >= n {
        assert !MatchAt(s, key, j - n);
      }
    }
    FindIs(prefix + s, key, n + Find(s, key));
  }

  /** A line followed by something that is not a line break hides no double line break. */
  lemma NoDoubleBreak(line: seq<Byte>, s: seq<Byte>, j: nat)
    requires CR !in line && s != [] && s[0] != CR
    requires j < |line + CRLF|
    ensures !MatchAt(line + CRLF + s, CRLFCRLF, j)
  {
    var t := line + CRLF + s;
    if j + 4 <= |t| {
      var w := t[j..j + 4];
      assert w[0] == t[j] && w[2] == t[j + 2];
      assert j < |line| ==> t[j] in line;
      assert j == |line| ==> t[j + 2] == s[0];
      assert j == |line| + 1 ==> t[j] == LF;
    }
  }

  lemma {:induction false} JoinedBlockEnds(lines: seq<seq<Byte>>, rest: seq<Byte>)
    requires |lines| >= 1 && forall l :: l in lines ==> l != [] && CR !in l
    ensures Find(Join(lines, CRLF) + CRLFCRLF + rest, CRLFCRLF) == |Join(lines, CRLF)|
    ensures Join(lines, CRLF) != [] && Join(lines, CRLF)[0] != CR
    decreases |lines|
  {
    hide Find;
    var line := lines[0];
    assert line in lines && line[0] in line;
    assert forall l :: l in lines[1..] ==> l in lines;
    if |lines| == 1 {
      FindAfter(line, CRLFCRLF, rest);
    } else {
      var tail := Join(lines[1..], CRLF);
      JoinedBlockEnds(lines[1..], rest);
      var s := tail + CRLFCRLF + rest;
      forall j | 0 <= j < |line + CRLF| ensures !MatchAt(line + CRLF + s, CRLFCRLF, j) {
        NoDoubleBreak(line, s, j);
      }
      FindShift(line + CRLF, s, CRLFCRLF);
      assert line + CRLF + s == (line + CRLF + tail) + CRLFCRLF + rest;
    }
  }

  lemma LTrimmed(s: seq<Byte>)
    requires s == [] || !IsBlank(s[0])
    ensures LTrim(s) == s && LTrim([SPACE] + s) == s
  {
    assert ([SPACE] + s)[1..] == s;
  }

  lemma TrimIsIdentity(s: seq<Byte>)
    requires Trimmed(s)
    ensures Trim(s) == s && Trim([SPACE] + s) == s
  {
    LTrimmed(s);
  }

  /** A written header line is read back as its key and value. */
  lemma HeaderLineParses(k: seq<Byte>, h: Header)
    requires GoodHeader(k, h)
    ensures var line := HeaderLine(h); var colon := Find(line, [COLON]);
            && colon == |h.key|
            && Trim(line[..colon]) == h.key
            && Trim(CStr(line[colon + 1..])) == h.value
            && CR !in line
  {
    hide Find, Trim, CStr;
    var line := HeaderLine(h);
    assert line == h.key + [COLON] + ([SPACE] + h.value);
    FindAfter(h.key, [COLON], [SPACE] + h.value);
    assert line[..|h.key|] == h.key;
    assert line[|h.key| + 1..] == [SPACE] + h.value;
    assert 0 !in [SPACE] + h.value;
    TrimIsIdentity(h.key);
    TrimIsIdentity(h.value);
  }

  /** Entries copied in order. */
  function Copied(into: Headers, from: Headers, order: seq<seq<Byte>>): (r: Headers)
    requires forall k :: k in order ==> k in from
    decreases |order|
  {
    if order == [] then into else Copied(into[order[0] := from[order[0]]], from, order[1..])
  }

  lemma {:induction false} CopiedEntries(into: Headers, from: Headers, order: seq<seq<Byte>>)
    requires forall k :: k in order ==> k in from
    ensures var r := Copied(into, from, order);
            && (forall k :: k in r <==> k in into || k in order)
            && (forall k :: k in order ==> r[k] == from[k])
            && (forall k :: k in into && k !in order ==> r[k] == into[k])
    decreases |order|
  {
    if order != [] {
      CopiedEntries(into[order[0] := from[order[0]]], from, order[1..]);
      assert order == [order[0]] + order[1..];
    }
  }

  lemma NewHeaderIsSet(into: Headers, k: seq<Byte>, h: Header)
    requires GoodHeader(k, h) && k !in into
    ensures SetHeader(into, h.key, h.value) == into[k := h]
  {}

  lemma {:induction false} StoredHeaders(into: Headers, from: Headers, order: seq<seq<Byte>>)
    requires forall k :: k in order ==> k in from && GoodHeader(k, from[k])
    requires forall k :: k in order ==> k !in into
    requires forall i, j :: 0 <= i < j < |order| ==> order[i] != order[j]
    ensures StoreHeaders(into, HeaderLines(from, order)) == (Copied(into, from, order), true)
    decreases |order|
  {
    hide Find, Trim, CStr, SetHeader, HeaderLine, GoodHeader;
    if order != [] {
      var k := order[0];
      var lines := HeaderLines(from, order);
      HeaderLineParses(k, from[k]);
      assert lines[1..] == HeaderLines(from, order[1..]);
      NewHeaderIsSet(into, k, from[k]);
      assert forall k' :: k' in order[1..] ==> k' in order && k' != k;
      StoredHeaders(into[k := from[k]], from, order[1..]);
    }
  }

  /** Where readHeader cuts the written block, and into which lines. */
  lemma HeaderBlockSplits(lines: seq<seq<Byte>>, rest: seq<Byte>)
    requires |lines| >= 1 && forall l :: l in lines ==> l != [] && CR !in l
    ensures var buf := Join(lines, CRLF) + CRLFCRLF + rest; var i := Find(buf, CRLFCRLF);
            && i >= 0 && |buf| >= 2 && buf[..2] != CRLF
            && SplitBy(buf[..i], CRLF, -1) == lines && buf[i + 4..] == rest
  {
    hide Find, SplitBy, Join;
    JoinedBlockEnds(lines, rest);
    var joined := Join(lines, CRLF);
    var buf := joined + CRLFCRLF + rest;
    assert buf[..|joined|] == joined && buf[|joined| + 4..] == rest;
    assert buf[..2][0] == joined[0];
    SplitJoin(lines, CRLF, -1);
  }

  lemma LinesAreWhole(h: Headers, order: seq<seq<Byte>>)
    requires forall k :: k in order ==> k in h && GoodHeader(k, h[k])
    ensures forall l :: l in HeaderLines(h, order) ==> l != [] && CR !in l
  {
    var lines := HeaderLines(h, order);
    forall i | 0 <= i < |lines| ensures lines[i] != [] && CR !in lines[i] {
      HeaderLineParses(order[i], h[order[i]]);
    }
  }

  lemma AllStored(m: Message, order: seq<seq<Byte>>)
    requires GoodHead(m) && Enumerates(order, m.headers)
    ensures StoreHeaders(map[], HeaderLines(m.headers, order)) == (m.headers, true)
    ensures forall l :: l in HeaderLines(m.headers, order) ==> l != [] && CR !in l
  {
    hide GoodHeader, Framed, GoodKind, HeaderLine, HeaderLines, StoreHeaders, Copied;
    LinesAreWhole(m.headers, order);
    StoredHeaders(map[], m.headers, order);
    CopiedEntries(map[], m.headers, order);
    assert Copied(map[], m.headers, order) == m.headers;
  }

  lemma HeaderBlockParses(m: Message, first: Message, order: seq<seq<Byte>>, rest: seq<Byte>)
    requires GoodHead(m) && Enumerates(order, m.headers) && order != []
    requires first == Message(m.kind, m.version, map[], [])
    ensures ReadHeader(State(ReadingHeader, Some(first), None), HeaderText(m.headers, order) + CRLF + rest)
            == Outcome(1, State(ReadingBody, Some(first.(headers := m.headers)), None), rest)
  {
    hide Find, SplitBy, StoreHeaders, GoodHead, HeaderText, Join, HeaderLines;
    HeaderBlock(m.headers, order);
    AllStored(m, order);
    HeaderBlockSplits(HeaderLines(m.headers, order), rest);
  }

  // ---------- the whole message ----------

  lemma BodyParses(m: Message, rest: seq<Byte>, stale: seq<Byte>)
    requires Good(m) && |stale| == 2
    ensures ReadBody(State(ReadingBody, Some(m.(body := [])), None), m.body + rest, stale)
            == Outcome(1, State(Finished, Some(m), None), rest)
  {
    assert (m.body + rest)[..|m.body|] == m.body && (m.body + rest)[|m.body|..] == rest;
    if m.body == [] { assert m.body + rest == rest; }
  }

  lemma EmptyHeadersEmptyBody(m: Message)
    requires Good(m) && m.headers == map[]
    ensures m.body == []
  {
    assert GetHeader(m.headers, Ascii("Content-Length")) == [];
  }

  /** Round trip: a fresh parser, given the written message followed by anything, returns that message and
      leaves what follows unread. */
  lemma RoundTrip(m: Message, order: seq<seq<Byte>>, rest: seq<Byte>, stale: seq<Byte>)
    requires Good(m) && Enumerates(order, m.headers) && |stale| == 2
    ensures Recv(INITIAL_STATE, Render(m, order) + rest, stale)
            == Received(MessageReady, State(Finished, Some(m), None), rest)
  {
    AfterStartLine(m, order, rest, stale);
    StartLineStage(m, order, rest);
    hide ReadStartLine, ReadHeader, ReadBody, Recv, Good, Render, CutsZeroChunk;
    OneStep(INITIAL_STATE, Render(m, order) + rest, stale, ReadStartLine(INITIAL_STATE, Render(m, order) + rest));
  }

  lemma Regroup(a: seq<Byte>, b: seq<Byte>, c: seq<Byte>, d: seq<Byte>, e: seq<Byte>, f: seq<Byte>)
    ensures a + b + c + d + e + f == a + b + (c + d + (e + f))
  {}

  lemma AfterStartLine(m: Message, order: seq<seq<Byte>>, rest: seq<Byte>, stale: seq<Byte>)
    requires Good(m) && Enumerates(order, m.headers) && |stale| == 2
    ensures var first := Message(m.kind, m.version, map[], []);
            Recv(State(ReadingHeader, Some(first), None), HeaderText(m.headers, order) + CRLF + (m.body + rest), stale)
            == Received(MessageReady, State(Finished, Some(m), None), rest)
  {
    hide GoodHead, GoodKind, Framed, HeaderText, ReadHeader, ReadBody, Recv;
    var first := Message(m.kind, m.version, map[], []);
    var tail := HeaderText(m.headers, order) + CRLF + (m.body + rest);
    if order == [] {
      assert m.headers == map[];
      NoHeaders(m, order, rest, stale);
    } else {
      HeaderBlockParses(m, first, order, m.body + rest);
      var st2 := State(ReadingBody, Some(first.(headers := m.headers)), None);
      OneStep(State(ReadingHeader, Some(first), None), tail, stale, Outcome(1, st2, m.body + rest));
      BodyIsReceived(m, rest, stale);
    }
  }

  lemma NoHeaders(m: Message, order: seq<seq<Byte>>, rest: seq<Byte>, stale: seq<Byte>)
    requires Good(m) && m.headers == map[] && order == [] && |stale| == 2
    ensures var first := Message(m.kind, m.version, map[], []);
            Recv(State(ReadingHeader, Some(first), None), HeaderText(m.headers, order) + CRLF + (m.body + rest), stale)
            == Received(MessageReady, State(Finished, Some(m), None), rest)
  {
    hide Find, Good;
    EmptyHeadersEmptyBody(m);
    var tail := HeaderText(m.headers, order) + CRLF + (m.body + rest);
    assert tail == CRLF + rest && tail[..2] == CRLF && tail[2..] == rest;
  }

  lemma BodyIsReceived(m: Message, rest: seq<Byte>, stale: seq<Byte>)
    requires Good(m) && |stale| == 2
    ensures Recv(State(ReadingBody, Some(m.(body := [])), None), m.body + rest, stale)
            == Received(MessageReady, State(Finished, Some(m), None), rest)
  {
    hide Good, ReadBody;
    BodyParses(m, rest, stale);
  }

  // ---------- the written message, cut anywhere ----------

  /** The parser's state before the start line, the headers and the body of a message. */
  function StageState(m: Message, stage: nat): (st: State)
    ensures WellFormed(st)
  {
    var first := Message(m.kind, m.version, map[], []);
    if stage == 0 then INITIAL_STATE
    else if stage == 1 then State(ReadingHeader, Some(first), None)
    else State(ReadingBody, Some(first.(headers := m.headers)), None)
  }

  /** The bytes that are then still to come. */
  function StageText(m: Message, order: seq<seq<Byte>>, rest: seq<Byte>, stage: nat): (s: seq<Byte>)
    requires Enumerates(order, m.headers)
  {
    if stage == 0 then Render(m, order) + rest
    else if stage == 1 then HeaderText(m.headers, order) + CRLF + (m.body + rest)
    else m.body + rest
  }

  /** The stages of the parser, as in RoundTrip. */
  lemma StartLineStage(m: Message, order: seq<seq<Byte>>, rest: seq<Byte>)
    requires Good(m) && Enumerates(order, m.headers)
    ensures ReadStartLine(INITIAL_STATE, StageText(m, order, rest, 0))
            == Outcome(1, StageState(m, 1), StageText(m, order, rest, 1))
  {
    var line := StartLine(m);
    StartLineParses(m);
    hide StartLine, ParseStartLine, HeaderText, Good, Find;
    var tail := StageText(m, order, rest, 1);
    Regroup(line, CRLF, HeaderText(m.headers, order), CRLF, m.body, rest);
    FindAfter(line, CRLF, tail);
    assert (line + CRLF + tail)[..|line|] == line && (line + CRLF + tail)[|line| + 2..] == tail;
  }

  lemma HeaderStage(m: Message, order: seq<seq<Byte>>, rest: seq<Byte>)
    requires Good(m) && Enumerates(order, m.headers)
    ensures var o := ReadHeader(StageState(m, 1), StageText(m, order, rest, 1));
            o.ret == 1 && (o.st.status.Finished? || o == Outcome(1, StageState(m, 2), StageText(m, order, rest, 2)))
  {
    if order == [] {
      hide Find;
      EmptyHeadersEmptyBody(m);
      assert HeaderText(m.headers, order) + CRLF + (m.body + rest) == CRLF + rest;
      assert (CRLF + rest)[..2] == CRLF;
    } else {
      HeaderBlockParses(m, Message(m.kind, m.version, map[], []), order, m.body + rest);
    }
  }

  /** A prefix of what is to come never ends in a zero chunk, and a wait stays on the path. */
  lemma {:induction false} StageCut(m: Message, order: seq<seq<Byte>>, rest: seq<Byte>, stage: nat,
                                    a: seq<Byte>, b: seq<Byte>, stale: seq<Byte>) returns (next: nat)
    requires Good(m) && Enumerates(order, m.headers) && |stale| == 2 && stage <= 2
    requires a + b == StageText(m, order, rest, stage)
    ensures !CutsZeroChunk(StageState(m, stage), a) && next <= 2
    ensures var r := Recv(StageState(m, stage), a, stale);
            r.code.WaitingMoreData? ==> r.st == StageState(m, next) && r.rest + b == StageText(m, order, rest, next)
    decreases 2 - stage
  {
    hide ReadStartLine, ReadHeader, ReadBody, Good, StageText, StageState, CutsZeroChunk, Recv;
    next := stage;
    var st := StageState(m, stage);
    if stage == 2 {
      BodyStage(m, a, stale);
    } else {
      var o := StageStep(m, order, rest, stage, a, b);
      OneStep(st, a, stale, o);
      if o.ret == 1 && !o.st.status.Finished? {
        next := StageCut(m, order, rest, stage + 1, o.rest, b, stale);
      }
    }
  }

  lemma BodyStage(m: Message, a: seq<Byte>, stale: seq<Byte>)
    requires Good(m) && |stale| == 2
    ensures !CutsZeroChunk(StageState(m, 2), a)
    ensures var r := Recv(StageState(m, 2), a, stale);
            r.code.WaitingMoreData? ==> r.st == StageState(m, 2) && r.rest == a
  {
    hide ReadChunks, ShortZeroChunk, GoodHeader, GoodKind;
  }

  /** One step of the first two stages on a prefix. */
  lemma StageStep(m: Message, order: seq<seq<Byte>>, rest: seq<Byte>, stage: nat, a: seq<Byte>, b: seq<Byte>)
      returns (o: Outcome)
    requires Good(m) && Enumerates(order, m.headers) && stage < 2
    requires a + b == StageText(m, order, rest, stage)
    ensures StageState(m, stage).status == if stage == 0 then ReadingStartLine else ReadingHeader
    ensures o == if stage == 0 then ReadStartLine(StageState(m, 0), a) else ReadHeader(StageState(m, 1), a)
    ensures o.ret == 0 ==> o == Outcome(0, StageState(m, stage), a)
    ensures o.ret == 0 || o.ret == 1
    ensures o.ret == 1 && !o.st.status.Finished? ==>
              o.st == StageState(m, stage + 1) && o.rest + b == StageText(m, order, rest, stage + 1)
  {
    hide ReadStartLine, ReadHeader, Good, StageText;
    var st := StageState(m, stage);
    if stage == 0 {
      o := ReadStartLine(st, a);
      StartLineStage(m, order, rest);
      StartLineStable(st, a, b);
    } else {
      o := ReadHeader(st, a);
      HeaderStage(m, order, rest);
      HeaderStable(st, a, b);
    }
  }

  /** recvMessage and the cut test take such a step. */
  lemma OneStep(st: State, a: seq<Byte>, stale: seq<Byte>, o: Outcome)
    requires WellFormed(st) && |stale| == 2 && (st.status.ReadingStartLine? || st.status.ReadingHeader?)
    requires o == if st.status.ReadingStartLine? then ReadStartLine(st, a) else ReadHeader(st, a)
    ensures WellFormed(o.st)
    ensures o.ret == 0 ==> Recv(st, a, stale) == Received(WaitingMoreData, o.st, o.rest) && !CutsZeroChunk(st, a)
    ensures o.ret == 1 && o.st.status.Finished? ==>
              !Recv(st, a, stale).code.WaitingMoreData? && !CutsZeroChunk(st, a)
    ensures o.ret == 1 && !o.st.status.Finished? ==>
              Recv(st, a, stale) == Recv(o.st, o.rest, stale) && CutsZeroChunk(st, a) == CutsZeroChunk(o.st, o.rest)
  {
    hide ReadStartLine, ReadHeader, ReadBody, ShortZeroChunk;
  }

  /** With everything to come at hand, each stage leads to the message. */
  lemma StageWhole(m: Message, order: seq<seq<Byte>>, rest: seq<Byte>, stage: nat, stale: seq<Byte>)
    requires Good(m) && Enumerates(order, m.headers) && |stale| == 2 && stage <= 2
    ensures Recv(StageState(m, stage), StageText(m, order, rest, stage), stale)
            == Received(MessageReady, State(Finished, Some(m), None), rest)
  {
    hide Good, ReadBody, Render, HeaderText;
    if stage == 0 {
      RoundTrip(m, order, rest, stale);
    } else if stage == 1 {
      AfterStartLine(m, order, rest, stale);
    } else {
      BodyParses(m, rest, stale);
      assert m.(body := []) == Message(m.kind, m.version, map[], []).(headers := m.headers);
    }
  }

  /** One recvMessage on a prefix of what is to come: it waits at some stage, or it has the message and leaves
      exactly what follows it; it waits only while something is missing. */
  lemma StageDecides(m: Message, order: seq<seq<Byte>>, rest: seq<Byte>, stage: nat,
                     a: seq<Byte>, b: seq<Byte>, stale: seq<Byte>) returns (next: nat)
    requires Good(m) && Enumerates(order, m.headers) && |stale| == 2 && stage <= 2
    requires a + b == StageText(m, order, rest, stage)
    ensures next <= 2
    ensures var r := Recv(StageState(m, stage), a, stale);
            if r.code.WaitingMoreData? then
              b != [] && r.st == StageState(m, next) && r.rest + b == StageText(m, order, rest, next)
            else
              r == Received(MessageReady, State(Finished, Some(m), None), r.rest) && r.rest + b == rest
  {
    hide Good, Recv, StageState, StageText, CutsZeroChunk, Enumerates;
    next := StageCut(m, order, rest, stage, a, b, stale);
    StageWhole(m, order, rest, stage, stale);
    RecvCut(StageState(m, stage), a, b, stale, stale);
    if b == [] {
      assert a + b == a;
    }
  }

  lemma {:induction false} StageDelivery(m: Message, order: seq<seq<Byte>>, rest: seq<Byte>, stage: nat,
                                         unread: seq<Byte>, ds: seq<Delivery>)
    requires Good(m) && Enumerates(order, m.headers) && stage <= 2 && ds != []
    requires forall d :: d in ds ==> |d.stale| == 2
    requires unread + AllBytes(ds) == StageText(m, order, rest, stage)
    ensures HarmlessCuts(StageState(m, stage), unread, ds)
    decreases |ds|
  {
    hide Recv, CutsZeroChunk, StageState, StageText, Good, Enumerates;
    if |ds| > 1 {
      var a, b := unread + ds[0].bytes, AllBytes(ds[1..]);
      assert a + b == unread + AllBytes(ds);
      var next := StageCut(m, order, rest, stage, a, b, ds[0].stale);
      var r := Recv(StageState(m, stage), a, ds[0].stale);
      if r.code.WaitingMoreData? {
        StageDelivery(m, order, rest, next, r.rest, ds[1..]);
      }
    }
  }

  /** A written message, delivered in any pieces, arrives. */
  lemma WrittenSurvivesCuts(m: Message, order: seq<seq<Byte>>, rest: seq<Byte>, ds: seq<Delivery>)
    requires Good(m) && Enumerates(order, m.headers) && ds != []
    requires forall d :: d in ds ==> |d.stale| == 2
    requires AllBytes(ds) == Render(m, order) + rest
    ensures Deliver(INITIAL_STATE, [], ds) == Received(MessageReady, State(Finished, Some(m), None), rest)
  {
    hide Recv, HarmlessCuts, Deliver, Good, Enumerates, Render;
    assert [] + AllBytes(ds) == AllBytes(ds);
    StageDelivery(m, order, rest, 0, [], ds);
    DeliveryIndependence(INITIAL_STATE, [], ds);
    assert ds[|ds| - 1] in ds;
    RoundTrip(m, order, rest, ds[|ds| - 1].stale);
  }

  // ---------- a message that is not written whole ----------

  /** A request of 1024 bytes, all told: 40 before the body and 984 of it. */
  function FullRequest(): (m: Message) {
    var h := Header(Ascii("Content-Length"), ToDecimal(984));
    Message(Request(Post, [47]), Http11, map[Lower(h.key) := h], seq(984, i => 120))
  }

  function FullOrder(): (order: seq<seq<Byte>>) { [Lower(Ascii("Content-Length"))] }

  lemma FullRequestParts()
    ensures var m, k := FullRequest(), Lower(Ascii("Content-Length"));
            && FullOrder() == [k] && m.headers.Keys == {k}
            && m.headers[k] == Header(Ascii("Content-Length"), ToDecimal(984))
            && m.kind == Request(Post, [47]) && m.version == Http11
            && |m.body| == 984 && 0 !in m.body
  {
    hide Ascii, Lower, ToDecimal;
  }

  lemma ThreeDigits()
    ensures |ToDecimal(984)| == 3 && Plain(ToDecimal(984)) && Trimmed(ToDecimal(984))
  {
    DecimalIsPlain(984);
    assert |ToDecimal(98)| == |ToDecimal(9)| + 1 && |ToDecimal(984)| == |ToDecimal(98)| + 1;
  }

  lemma LengthNameIsGood()
    ensures var name := Ascii("Content-Length"); Plain(name) && COLON !in name && Trimmed(name)
  {
    assert Ascii("Content-Length")[0] == 67 && Ascii("Content-Length")[13] == 104;
  }

  lemma FullRequestIsGood()
    ensures Good(FullRequest()) && Enumerates(FullOrder(), FullRequest().headers)
  {
    hide FullRequest, FullOrder, Atoi, Find, ToDecimal, Ascii, Lower, Plain, Trimmed;
    FullRequestParts();
    ThreeDigits();
    LengthNameIsGood();
    AtoiDecimal(984);
    var m := FullRequest();
    assert GetHeader(m.headers, Ascii("Content-Length")) == ToDecimal(984);
    assert Framed(m);
    assert Plain([47]) && SPACE !in [47] by { SlashIsPlain(); }
  }

  lemma SlashIsPlain()
    ensures Plain([47]) && SPACE !in [47]
  {}

  /** A well-formed message that sendMessage, which starts with an empty default buffer, does not write whole. */
  lemma FullRequestFillsRoom()
    ensures Good(FullRequest()) && Enumerates(FullOrder(), FullRequest().headers)
    ensures BodyFillsRoom(Layout(1024, 0, 0, 1024), FullRequest(), FullOrder())
  {
    hide FullRequest, FullOrder, Good, Enumerates, HeaderLine, HeaderReserve, StartLine, StartLineReserve, ToDecimal,
      Lower, Ascii, BeforeBody;
    FullRequestIsGood();
    FullRequestParts();
    var m, k := FullRequest(), Lower(Ascii("Content-Length"));
    FullStartLine(m);
    FullLine(m.headers[k]);
    FullHead(m, k);
  }

  lemma FullHead(m: Message, k: seq<Byte>)
    requires k in m.headers && |StartLine(m)| == 15 && StartLineReserve(m) == 65
    requires |HeaderLine(m.headers[k])| == 19 && HeaderReserve(m.headers[k]) == 49
    ensures BeforeBody(Layout(1024, 0, 0, 1024), m, [k]).Room() == 984
  {
    hide HeaderLine, HeaderReserve, StartLine, StartLineReserve, NewCapacity;
    var l := Layout(1024, 0, 0, 1024);
    var l1, l2 := Layout(1024, 0, 17, 1024), Layout(1024, 0, 38, 1024);
    assert AfterHeaders(l2, m.headers, []) == l2;
    assert [k][1..] == [];
    assert AfterHeaders(l1, m.headers, [k]) == l2;
  }

  lemma FullStartLine(m: Message)
    requires m.kind == Request(Post, [47]) && m.version == Http11
    ensures |StartLine(m)| == 15 && StartLineReserve(m) == 65
  {
    assert |CStr([47])| == 1;
  }

  lemma FullLine(h: Header)
    requires h == Header(Ascii("Content-Length"), ToDecimal(984))
    ensures |HeaderLine(h)| == 19 && HeaderReserve(h) == 49
  {
    ThreeDigits();
    LengthNameIsGood();
    hide Ascii, ToDecimal, Trimmed;
  }
}
