/** The receiving object of src/brickred/protocol/http_protocol.cc: its handlers update the parser fields and
    the input buffer in place, and are proved to compute the functions of HttpParser. */
module HttpProtocols {
  import opened Bytes
  import opened StringUtil
  import opened Buffers
  import opened HttpMessages
  import opened Options
  import opened HttpParser

  class HttpProtocol {
    var status: Status
    var message: Option<Message>
    var chunkBuffer: Option<seq<Byte>>

    function View(): (st: State)
      reads this
    {
      State(status, message, chunkBuffer)
    }

    ghost predicate Valid()
      reads this
    {
      WellFormed(View())
    }

    constructor ()
      ensures Valid() && View() == INITIAL_STATE
    {
      status, message, chunkBuffer := Status.ReadingStartLine, None, None;
    }

    method Reset()
      modifies this
      ensures Valid() && View() == INITIAL_STATE
    {
      status, message, chunkBuffer := Status.ReadingStartLine, None, None;
    }

    method ReadStartLine(buffer: DynamicBuffer) returns (ret: int)
      requires Valid() && buffer.Valid()
      modifies this, buffer`readIndex, buffer`writeIndex
      ensures buffer.Valid()
      ensures Outcome(ret, View(), buffer.Contents()) == HttpParser.ReadStartLine(old(View()), old(buffer.Contents()))
    {
      var text := buffer.Contents();
      var crlf := Find(text, CRLF);
      if crlf < 0 {
        return 0;
      }
      var parts := Split(text[..crlf], [SPACE], 3);
      if |parts| != 3 {
        return -1;
      }
      var m: Message;
      if MatchAt(parts[0], Ascii("HTTP"), 0) {
        var version := VersionFromText(parts[0]);
        if version == UnknownVersion {
          return -1;
        }
        var statusCode := Atoi(parts[1]);
        if statusCode < 0 {
          return -1;
        }
        m := Message(Response(statusCode, parts[2]), version, map[], []);
      } else {
        var verb := MethodFromText(parts[0]);
        if verb == UnknownMethod {
          return -1;
        }
        var version := VersionFromText(parts[2]);
        if version == UnknownVersion {
          return -1;
        }
        m := Message(Request(verb, parts[1]), version, map[], []);
      }
      buffer.Read(crlf + 2);
      message, status := Some(m), ReadingHeader;
      return 1;
    }

    /** The header loop of readHeader; headers stored before a malformed line stay. */
    method StoreLines(lines: seq<seq<Byte>>) returns (ok: bool)
      requires message.Some?
      modifies this`message
      ensures message == Some(old(message.value).(headers := StoreHeaders(old(message.value.headers), lines).0))
      ensures ok == StoreHeaders(old(message.value.headers), lines).1
    {
      hide Find, Trim, CStr, SetHeader;
      ghost var first := message.value;
      var i := 0;
      while i < |lines|
        invariant 0 <= i <= |lines|
        invariant message.Some? && message.value == first.(headers := message.value.headers)
        invariant StoreHeaders(message.value.headers, lines[i..]) == StoreHeaders(first.headers, lines)
      {
        var line := lines[i];
        assert lines[i..][0] == line && lines[i..][1..] == lines[i + 1..];
        var colon := Find(line, [COLON]);
        if colon < 0 {
          return false;
        }
        var headers := SetHeader(message.value.headers, Trim(line[..colon]), Trim(CStr(line[colon + 1..])));
        message := Some(message.value.(headers := headers));
        i := i + 1;
      }
      return true;
    }

    method ReadHeader(buffer: DynamicBuffer) returns (ret: int)
      requires message.Some? && buffer.Valid()
      modifies this, buffer`readIndex, buffer`writeIndex
      ensures buffer.Valid()
      ensures Outcome(ret, View(), buffer.Contents()) == HttpParser.ReadHeader(old(View()), old(buffer.Contents()))
    {
      var text := buffer.Contents();
      if |text| < 2 {
        return 0;
      }
      if text[..2] == CRLF {
        buffer.Read(2);
        status := Finished;
        return 1;
      }
      var doubleCrlf := Find(text, CRLFCRLF);
      if doubleCrlf < 0 {
        return 0;
      }
      var lines := Split(text[..doubleCrlf], CRLF, -1);
      var ok := StoreLines(lines);
      if !ok {
        return -1;
      }
      buffer.Read(doubleCrlf + 4);
      status := ReadingBody;
      return 1;
    }

    method ReadBody(buffer: DynamicBuffer, stale: seq<Byte>) returns (ret: int)
      requires message.Some? && buffer.Valid() && |stale| == 2
      modifies this, buffer`readIndex, buffer`writeIndex
      ensures buffer.Valid()
      ensures Outcome(ret, View(), buffer.Contents()) == HttpParser.ReadBody(old(View()), old(buffer.Contents()), stale)
    {
      var contentLength := Atoi(GetHeader(message.value.headers, Ascii("Content-Length")));
      if contentLength > 0 {
        if buffer.ReadableBytes() < contentLength {
          return 0;
        }
        message := Some(message.value.(body := buffer.Contents()[..contentLength]));
        buffer.Read(contentLength);
        status := Finished;
        return 1;
      }
      if HeaderContain(message.value.headers, Ascii("Transfer-Encoding"), Ascii("chunked")) {
        if chunkBuffer == None {
          chunkBuffer := Some([]);
        }
        ret := ReadChunks(buffer, stale);
        return;
      }
      status := Finished;
      return 1;
    }

    method ReadChunks(buffer: DynamicBuffer, stale: seq<Byte>) returns (ret: int)
      requires message.Some? && chunkBuffer.Some? && buffer.Valid() && |stale| == 2
      modifies this, buffer`readIndex, buffer`writeIndex
      ensures buffer.Valid()
      ensures Outcome(ret, View(), buffer.Contents())
              == HttpParser.ReadChunks(old(View()), old(buffer.Contents()), stale)
    {
      hide NextChunk, Dechunked;
      ghost var goal := HttpParser.ReadChunks(View(), buffer.Contents(), stale);
      while true
        invariant message.Some? && chunkBuffer.Some? && buffer.Valid()
        invariant HttpParser.ReadChunks(View(), buffer.Contents(), stale) == goal
        decreases buffer.ReadableBytes()
      {
        match NextChunk(buffer.Contents(), stale) {
          case NoChunk => return 0;
          case BadChunk => return -1;
          case DataChunk(data, size) =>
            chunkBuffer := Some(chunkBuffer.value + data);
            buffer.Read(size);
          case LastChunk(size) =>
            buffer.Read(size);
            message := Some(Dechunked(message.value, chunkBuffer.value));
            status := ReadingHeader;
            return 1;
        }
      }
    }

    method RecvMessage(buffer: DynamicBuffer, stale: seq<Byte>) returns (code: RetCode)
      requires Valid() && buffer.Valid() && |stale| == 2
      modifies this, buffer`readIndex, buffer`writeIndex
      ensures Valid() && buffer.Valid()
      ensures Received(code, View(), buffer.Contents()) == Recv(old(View()), old(buffer.Contents()), stale)
    {
      hide HttpParser.ReadStartLine, HttpParser.ReadHeader, HttpParser.ReadBody;
      ghost var goal := Recv(View(), buffer.Contents(), stale);
      while true
        invariant Valid() && buffer.Valid()
        invariant Recv(View(), buffer.Contents(), stale) == goal
        decreases buffer.ReadableBytes()
      {
        var ret: int;
        match status {
          case ReadingStartLine => ret := ReadStartLine(buffer);
          case ReadingHeader => ret := ReadHeader(buffer);
          case ReadingBody => ret := ReadBody(buffer, stale);
          case _ => return Error;
        }
        if ret == 0 {
          return WaitingMoreData;
        } else if ret == -1 {
          status := PendingError;
          return Error;
        }
        if status == Finished {
          return MessageReady;
        }
      }
    }

    /** retrieveRequest and retrieveResponse: hands out a finished message of the wanted kind. */
    method Retrieve(wantRequest: bool) returns (m: Option<Message>)
      requires Valid()
      modifies this
      ensures Valid()
      ensures m.Some? <==> old(status.Finished? && message.value.kind.Request? == wantRequest)
      ensures m.Some? ==> m == old(message) && View() == INITIAL_STATE
      ensures m.None? ==> View() == old(View())
    {
      if status != Finished || message == None || message.value.kind.Request? != wantRequest {
        return None;
      }
      m := message;
      Reset();
    }
  }
}
