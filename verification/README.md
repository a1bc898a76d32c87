# Verification of the brickred core library

brickred is a C++ library for game servers: a reactor with timers and TCP connections, incremental HTTP and WebSocket
parsers over a growable buffer, thread hand-off queues, an asynchronous log sink, a random generator, hashes and
codecs. This project models the parts whose correctness is hardest to see and proves it for every input, every cutting
of the input stream and every interleaving.

`dafny verify dfyconfig.toml` checks everything. Each source file has its own modules. Where the source updates an
object in place there is a class whose methods are proved to compute a function of the old state; the properties of
whole runs are lemmas about those functions.

| files | source | main results |
|---|---|---|
| `DynamicBuffer`, `Bytes` | dynamic_buffer | growth under 64-bit wrap-around, contents kept by every operation |
| `StringUtil`, `Http*` | string_util, http_protocol | independence from delivery cuts, exactly when; write/parse round trip over any cuts; what a chunked body is |
| `WebSocket*` | web_socket_protocol | whole connections from the handshake on, over any cuts; every ping answered, close safety, fragmentation |
| `ConcurrentQueue`, `MessageQueue` | concurrent_queue, message_queue | FIFO, bound, no lost wakeup, no stranded item |
| `LogAsyncSpec`, `LogAsyncRuns`, `LogAsyncSink` | log_async_sink, object_pool | one owner per buffer, ordered and complete delivery before destruction |
| `Timestamp`, `HeapSpec`, `TimerSpec`, `TimerLife`, `TimerHeap` | timestamp, timer_heap | structure, order and its exact loss, when each firing comes after addTimer, exactly when a check ends |
| `TcpSpec`, `TcpRuns`, `TcpSends`, `TcpService` | tcp_service | map agreement, byte conservation and its exact loss, exactly when a message is refused, no error lost |
| `IOService`, `IORuns` | io_service, io_device | exactly when an event reaches its own device, exactly which callbacks a round owes |
| `RandomSpec`, `Random` | random | in-place generation equals the recurrence, the state never degenerates |
| `ShaSpec`, `ShaAnswers`, `ShaBlocks`, `Sha` | codec/sha1, codec/sha256 | streaming equals FIPS 180-4, whose constants are the published roots |
| `Base64`, `Url` | codec/base64, codec/url | round trips, alphabets, buffer sizes |

Some intended properties hold only under a condition. For each of them the condition is proved to be exact, or a lemma
gives the failing input:

- A last HTTP chunk whose closing line break is cut is judged by bytes that have not arrived
  (http_protocol.cc:276-286): `CutIndependenceIsExact`, `ZeroChunkCutHurts`; every chunked body has such a cut:
  `ZeroChunkCanBeCut`.
- Trailer fields behind the last chunk, which section 7.1.2 of RFC 9112 allows and the comment at
  http_protocol.cc:305 announces, are refused: `NoTrailers`.
- A body that fills the writable room exactly loses its last byte to the terminator of `snprintf`
  (http_protocol.cc:458); lines before it always have room to spare: `WriteMessage`. A well-formed request that
  sendMessage damages so: `FullRequestFillsRoom`.
- A ping or pong between two fragments makes readFrame clear the fragments collected so far: `FragmentedDelivery`,
  `PingLosesFragment`.
- minHeapErase only sifts down, so that removing a timer from the middle can lose the heap order: `EraseOrders`,
  `EraseCanLoseOrder`.
- getTimeout truncates the timeout to int, so that some timeouts from 2^31 ms give a negative interval or none:
  `TimeoutNeedsInt`. The rounds of checkTimeout are bounded exactly if no due timer is endless with such an interval,
  or with a timeout of 0: `EndsExactly`. All firings of a check are in the order of time exactly if no due timer goes
  back: `CheckTimeout`.
- sendMessage copies from the start of the message after a partial direct send (tcp_service.cc:778):
  `DirectSendExactly`, `PartialSendHappens`, `OffsetConserves`. An empty message completes at once although earlier
  bytes still wait: `DirectCompletionMeansAllSent`. A buffered message replaces the completion callback of an earlier
  one: `LastMessageCompletes`.
- addSocketTimer breaks the inverse maps exactly for a socket that still has a timer: `AddSocketTimerExactly`.
- An event reaches its own device exactly if epoll has not refused to remove that device: `NoStaleDispatch`. A run in
  which it reaches the device's successor: `FailedRemovalIsStale`.
- The marks of removed devices end with each round, but those set before the loop last until the end of the first
  batch, so that a device detached and attached again before the loop misses its first event: `EveryRoundIsServed`,
  `MarkedBeforeLoop`.
- A payload of 65535 bytes is sent with the 64-bit length form, although section 5.2 of RFC 6455 asks for the shortest
  form. It is the only length for which the sender does so, and the only field that is not the shortest which the
  reader accepts: `WritesShortest`, `ReadsShortest`.
- toLower maps with toupper (string_util.cc:102-108), which the header tests do not notice:
  `HeaderContainIgnoresCase`.
- Adding a negative interval to a timestamp can leave a negative nanosecond field: `PlusNegative`.

## Model

| member | source | states |
|---|---|---|
| Buffers.NewCapacityBounds | src/brickred/dynamic_buffer.cc:70-85 | with a positive expand step and no overflow of the requested size, the new capacity exceeds readable + size by at most two steps, also when size - free bytes wraps around |
| Buffers.ReserveCanShrink | src/brickred/dynamic_buffer.cc:70-92 | a concrete buffer that the wrapping branch shrinks |
| Buffers.ReservedRoom | src/brickred/dynamic_buffer.cc:70-92 | reserving leaves an exact fit only where there was one before |
| Buffers.DynamicBuffer.Swap | src/brickred/dynamic_buffer.cc:18-24 | the two buffers exchange storage, indices and contents |
| Buffers.DynamicBuffer.Read | src/brickred/dynamic_buffer.cc:56-63 | drops at most what is readable from the front; an emptied buffer rewinds |
| Buffers.DynamicBuffer.Write | src/brickred/dynamic_buffer.cc:65-68 | makes the stored bytes readable, at most what is writable |
| Buffers.DynamicBuffer.ReserveWritableBytes | src/brickred/dynamic_buffer.cc:70-92 | afterwards size bytes are writable, the readable content is unchanged and the slack is below two steps |
| Buffers.DynamicBuffer.Clear | src/brickred/dynamic_buffer.cc:94-98 | empties and rewinds |
| Buffers.DynamicBuffer.PeekInt16 | src/brickred/dynamic_buffer.cc:148-159 | the big-endian value at the offset, refused when it is not wholly readable |
| Buffers.DynamicBuffer.PeekInt64 | src/brickred/dynamic_buffer.cc:212-229 | the same for eight bytes |
| Buffers.DynamicBuffer.WriteInt16 | src/brickred/dynamic_buffer.cc:339-346 | appends the big-endian form and changes nothing before it |
| Buffers.DynamicBuffer.WriteInt64 | src/brickred/dynamic_buffer.cc:359-372 | the same for eight bytes |
| Bytes.BigEndianRoundTrip | src/brickred/dynamic_buffer.cc:148-372 | reading back a written integer gives the integer |
| Bytes.MostSignificantFirst | src/brickred/dynamic_buffer.cc:148-372 | the first byte on the wire is the most significant |
| Bytes.MaskTwice | src/brickred/protocol/web_socket_protocol.cc:437-442 | unmasking undoes masking |
| Buffers.DynamicBuffer.MaskStored | src/brickred/protocol/web_socket_protocol.cc:557-566 | the masking loop XORs exactly the stored payload with the cycled key |
| StringUtil.FindIsFirst | src/brickred/string_util.cc:181-195 | find returns the first match, and -1 only when there is none or the keyword is empty |
| StringUtil.FindStable | src/brickred/string_util.cc:181-195 | more input never moves a match that has been found |
| StringUtil.Split | src/brickred/string_util.cc:39-67 | the parts joined by the separator are the string again, for every split limit; an empty separator gives no parts |
| StringUtil.SplitJoin | src/brickred/string_util.cc:39-67 | splitting a joined list gives back the list when no part contains the separator's first byte |
| StringUtil.CaseInsensitiveLess | src/brickred/string_util.cc:224-242 | the comparison loop decides the lexicographic order of lower-cased bytes |
| StringUtil.SameKeyIffEqualNoCase | src/brickred/string_util.cc:224-242 | two header keys are the same map key exactly when they are equal without regard to case |
| StringUtil.LessNoCaseTransitive | src/brickred/string_util.cc:224-242 | the order is transitive, as a map needs |
| StringUtil.AtoiDecimal | src/brickred/protocol/http_protocol.cc:239-251 | a printed Content-Length is scanned back as the same number if and only if it is an int |
| HttpMessages.HeaderContainIgnoresCase | src/brickred/protocol/http_message.cc:54-59 | the containment test on upper-cased texts is containment without regard to case |
| HttpParser.RecvCut | src/brickred/protocol/http_protocol.cc:94-315 | cutting the input changes neither status, message nor leftover bytes, unless the cut falls into the line break of a last chunk |
| HttpParser.CutIndependenceIsExact | src/brickred/protocol/http_protocol.cc:94-315 | a cut is harmless for every continuation and every stale memory if and only if it does not fall there |
| HttpParser.ZeroChunkCutHurts | src/brickred/protocol/http_protocol.cc:276-297 | for every such cut, a continuation that would have completed the message, and stale bytes with which it is refused |
| HttpParser.ZeroChunkCanBeCut | src/brickred/protocol/http_protocol.cc:276-286 | such a cut exists in every chunked body |
| HttpParser.DeliveryIndependence | src/brickred/protocol/http_protocol.cc:94-315 | any number of deliveries ends as if everything had arrived at once |
| HttpParser.ChunksCut | src/brickred/protocol/http_protocol.cc:262-315 | the chunk loop resumed after a cut ends where the uncut loop ends |
| HttpChunks.ScanHexText | src/brickred/protocol/http_protocol.cc:275-279 | every chunk size below 2^32 is read back from its hexadecimal text, in either letter case and with any extension behind it |
| HttpChunks.ChunkedBody | src/brickred/protocol/http_protocol.cc:255-310 | any list of encoded pieces is delivered as their concatenation in order, with Content-Length its length, Transfer-Encoding gone, other headers unchanged and exactly the following bytes left |
| HttpChunks.ChunkedSurvivesCuts | src/brickred/protocol/http_protocol.cc:94-315 | the same in any number of deliveries, unless one ends with one or two bytes of the body still to come |
| HttpChunks.ChunkedMessage | src/brickred/protocol/http_protocol.cc:94-315 | the same from the start line on, for every written head that announces chunks |
| HttpChunks.NoTrailers | src/brickred/protocol/http_protocol.cc:285-310 | behind the last size line the message is complete if and only if a blank line follows |
| HttpProtocols.HttpProtocol.ReadStartLine | src/brickred/protocol/http_protocol.cc:121-193 | the handler in place computes the start-line function, in all its error cases |
| HttpProtocols.HttpProtocol.ReadHeader | src/brickred/protocol/http_protocol.cc:195-234 | the same for the header block |
| HttpProtocols.HttpProtocol.ReadBody | src/brickred/protocol/http_protocol.cc:236-315 | the same for length and chunked bodies |
| HttpProtocols.HttpProtocol.RecvMessage | src/brickred/protocol/http_protocol.cc:94-119 | the status loop in place computes the function about which cut independence is proved |
| HttpProtocols.HttpProtocol.Retrieve | src/brickred/protocol/http_protocol.cc:317-351 | a finished message of the wanted kind is handed out once and the parser is as new; otherwise nothing changes |
| HttpWriter.WriteHeaders | src/brickred/protocol/http_protocol.cc:442-451 | every header line is printed in full, and 28 bytes stay writable |
| HttpWriter.PrintedExactly | src/brickred/protocol/http_protocol.cc:456-460 | a body printed into the room is whole exactly unless it fills the room and has no zero byte |
| HttpWriter.WriteMessage | src/brickred/protocol/http_protocol.cc:407-461 | the written bytes are the rendering of the message if and only if the body does not fill the remaining room exactly |
| HttpRoundTrip.FullRequestFillsRoom | src/brickred/protocol/http_protocol.cc:353-361 | a well-formed request of 1024 bytes whose last byte is lost in the default buffer |
| HttpRoundTrip.StartLineParses | src/brickred/protocol/http_protocol.cc:121-193 | a written start line is read back as the same kind, version and empty message |
| HttpRoundTrip.StartLineText | src/brickred/protocol/http_protocol.cc:412-437 | the written start lines, character by character |
| HttpRoundTrip.RoundTrip | src/brickred/protocol/http_protocol.cc:94-251 | parsing a written well-formed request or response gives the same message and leaves the following bytes |
| HttpRoundTrip.WrittenSurvivesCuts | src/brickred/protocol/http_protocol.cc:94-461 | the same when the bytes are delivered in any pieces |
| WebSocketFrame.ParseStable | src/brickred/protocol/web_socket_protocol.cc:359-437 | later bytes never change a frame that has been recognised or refused |
| WebSocketFrame.ParseWire | src/brickred/protocol/web_socket_protocol.cc:359-447 | every frame a peer writes, of any length form, masked or not, is read back whole and nothing behind it |
| WebSocketFrame.ParseCutWire | src/brickred/protocol/web_socket_protocol.cc:359-437 | a proper prefix of a frame is always waited for |
| WebSocketFrame.WritesShortest | src/brickred/protocol/web_socket_protocol.cc:532-544 | the sender writes the shortest length field for a length if and only if it is not 65535 |
| WebSocketFrame.ReadsShortest | src/brickred/protocol/web_socket_protocol.cc:371-406 | the reader accepts a length field if and only if it is the shortest for its value or the 64-bit form of 65535 |
| WebSocketFrame.ReadsSamples | src/brickred/protocol/web_socket_protocol.cc:359-447 | the reader takes the plain, the masked and the fragmented example of section 5.7 of RFC 6455 for what they are |
| WebSocketFrame.SampleControls | src/brickred/protocol/web_socket_protocol.cc:573-639 | the bytes of the three control frames, and of the two longer length fields |
| WebSocketRuns.OutputTrace | src/brickred/protocol/web_socket_protocol.cc:80-89 | in every run nothing but the handshake comes before the connection, and then only whole frames with at most one close frame, at the end; the frames are exactly those that the application asked for and, before the close frame, a pong for each reported ping and a close for a reported close |
| WebSocketRuns.ClosedAndErrorAbsorb | src/brickred/protocol/web_socket_protocol.cc:178-208 | closed and error states are never left, and nothing is sent from them |
| WebSocketRuns.TraceStep | src/brickred/protocol/web_socket_protocol.cc:513-639 | every call of the object keeps that shape of the output |
| WebSocketAnswers.FrameOfPeer | src/brickred/protocol/web_socket_protocol.cc:449-497 | from the bytes: a ping is reported and answered by one pong, a close by one close frame, unless a close frame was sent; data and pongs by nothing; exactly the frame is consumed |
| WebSocketAnswers.OutputFollowsReport | src/brickred/protocol/web_socket_protocol.cc:178-497 | for any bytes, the output grows exactly by the answer to what recvMessage returns |
| WebSocketAnswers.PingComesBack | src/brickred/protocol/web_socket_protocol.cc:485-639 | a ping of one side reaches it again as a pong |
| WebSocketAnswers.PongsAnswerPings | src/brickred/protocol/web_socket_protocol.cc:178-639 | in every run the pongs sent number the pings reported before the own close frame |
| WebSocketAnswers.PingsAreAnswered | src/brickred/protocol/web_socket_protocol.cc:178-639 | over any cutting and schedule, one pong per ping consumed and one close frame per close frame consumed |
| WebSocketAccept.AcceptIsDigest | src/brickred/protocol/web_socket_protocol.cc:246-273 | the accept value is the Base64 text of the SHA-1 digest of the key followed by the GUID |
| WebSocketAccept.ServerAccepts | src/brickred/protocol/web_socket_protocol.cc:210-303 | a server connects for an HTTP message if and only if it is a request with the fields of section 4.2.1 of RFC 6455; any other gets one 400 response |
| WebSocketAccept.ClientAccepts | src/brickred/protocol/web_socket_protocol.cc:305-357 | a client connects if and only if the response has status 101, the upgrade fields and the accept value of its key |
| WebSocketRuns.EndToEndDelivery | src/brickred/protocol/web_socket_protocol.cc:178-511 | for every cutting and interleaving of deliveries, receives and retrievals, with any part already arrived, the receiver consumes whole frames, never errors, has retrieved a prefix of the payloads, and has them all when it waits and nothing is on the way |
| WebSocketRuns.SentIsReceived | src/brickred/protocol/web_socket_protocol.cc:178-639 | the same, completeness included, for the messages that sendMessage accepted in any run of the sending object |
| WebSocketConnection.ConnectionDelivers | src/brickred/protocol/web_socket_protocol.cc:116-571 | the same from the first byte of the handshake on: opening text and frames may be cut anywhere; the receiver connects without consuming any frame byte and answers the message it accepted |
| WebSocketConnection.BothSidesHear | src/brickred/protocol/web_socket_protocol.cc:116-571 | client and server each get every message of the other, over any deliveries and schedules, and the server's own answer is what connects the client |
| WebSocketConnection.ConnectionBegins | src/brickred/protocol/web_socket_protocol.cc:116-176 | such connections exist: the start of any fresh client and a fresh server make one |
| WebSocketRuns.FragmentedDelivery | src/brickred/protocol/web_socket_protocol.cc:449-497 | a fragmented message is the concatenation of its unmasked fragments if and only if no ping or pong discards a collected byte |
| WebSocketRuns.PingLosesFragment | src/brickred/protocol/web_socket_protocol.cc:485-497 | the ping of section 5.4 of RFC 6455 between two fragments loses the first |
| WebSocketRuns.FragmentedOverWire | src/brickred/protocol/web_socket_protocol.cc:178-497 | the same from the bytes on the wire |
| WebSocketProtocols.WebSocketProtocol.LocatePayload | src/brickred/protocol/web_socket_protocol.cc:359-437 | the checks and length forms in place find the payload that the frame function describes |
| WebSocketProtocols.WebSocketProtocol.ReadFrame | src/brickred/protocol/web_socket_protocol.cc:359-497 | readFrame in place computes the frame function of the state |
| WebSocketProtocols.WebSocketProtocol.ReadHandshakeRequest | src/brickred/protocol/web_socket_protocol.cc:275-303 | a valid request is answered and connects, anything else gets the error response |
| WebSocketProtocols.WebSocketProtocol.ReadHandshakeResponse | src/brickred/protocol/web_socket_protocol.cc:333-357 | only a response with the accept value of the own key connects |
| WebSocketProtocols.WebSocketProtocol.RecvMessage | src/brickred/protocol/web_socket_protocol.cc:178-208 | the status loop in place computes the function about which the run theorems are proved |
| WebSocketProtocols.WebSocketProtocol.RetrieveMessage | src/brickred/protocol/web_socket_protocol.cc:499-511 | a finished message moves out whole and the object is connected again |
| WebSocketProtocols.WebSocketProtocol.SendMessage | src/brickred/protocol/web_socket_protocol.cc:513-571 | emits one whole data frame when connected and no close was sent, otherwise nothing |
| WebSocketProtocols.WebSocketProtocol.SendCloseFrame | src/brickred/protocol/web_socket_protocol.cc:573-595 | emits at most one close frame |
| WebSocketProtocols.WebSocketProtocol.SendPingFrame | src/brickred/protocol/web_socket_protocol.cc:597-617 | emits a ping only before the close frame |
| WebSocketProtocols.WebSocketProtocol.SendPongFrame | src/brickred/protocol/web_socket_protocol.cc:619-639 | the same for a pong |
| WebSocketHandshake.PlainSidesMayMeet | src/brickred/protocol/web_socket_protocol.cc:116-176 | any client and server without headers of their own satisfy the conditions of the next row, for some enumeration of their header maps |
| WebSocketConnection.HandshakeConnects | src/brickred/protocol/web_socket_protocol.cc:116-357 | in one piece each, a client's request opens a server and the server's answer opens the client, with any acceptable extra headers; following bytes stay unread |
| ConcurrentQueues.StepKeepsInv | src/brickred/concurrent_queue.h:54-98 | every critical section, wait, notification and spurious wakeup keeps order, bound and wakeups |
| ConcurrentQueues.AllRuns | src/brickred/concurrent_queue.h:54-98 | over all interleavings pops are a prefix of pushes, a bound is kept, a sleeping popper means at least as many awake poppers as items, a sleeping pusher at least as many awake pushers as free slots |
| ConcurrentQueues.SomeoneIsAwake | src/brickred/concurrent_queue.h:54-85 | no thread sleeps while it alone could go on, and poppers and pushers never all sleep |
| ConcurrentQueues.AwakeCanStep | src/brickred/concurrent_queue.h:54-85 | an awake popper can take the next item, an awake pusher can place its own |
| ConcurrentQueues.ConcurrentQueue.Push | src/brickred/concurrent_queue.h:54-62 | the first attempt appends or goes to sleep, and is a step of the protocol |
| ConcurrentQueues.ConcurrentQueue.PushResume | src/brickred/concurrent_queue.h:54-62 | the same for the attempt after a wakeup |
| ConcurrentQueues.ConcurrentQueue.PushIfNotFull | src/brickred/concurrent_queue.h:64-73 | appends unless the queue is full, and never sleeps |
| ConcurrentQueues.ConcurrentQueue.Pop | src/brickred/concurrent_queue.h:75-85 | takes the first item or goes to sleep |
| ConcurrentQueues.ConcurrentQueue.PopResume | src/brickred/concurrent_queue.h:75-85 | the same after a wakeup |
| ConcurrentQueues.ConcurrentQueue.PopIfNotEmpty | src/brickred/concurrent_queue.h:87-98 | takes the first item if there is one, and never sleeps |
| MessageQueues.NeverStrands | src/brickred/message_queue.h:56-86 | in every reachable state an item in the queue is announced by the pipe, by a pusher about to write, or by a reader that is not waiting; items arrive in order |
| MessageQueues.DeliversAll | src/brickred/message_queue.h:56-86 | from every reachable state the pending writes and the reader alone deliver everything |
| MessageQueues.MessageQueue.ReadPipe | src/brickred/message_queue.h:79-86 | one read of the drain loop takes up to 1024 bytes, and reports 0 exactly on an empty pipe |
| MessageQueues.MessageQueue.PipeReadCallback | src/brickred/message_queue.h:79-86 | with pushers interfering before each of its steps, it ends with the queue empty and everything received that was pushed until then |
| LogAsyncSpec.StepKeepsInv | src/brickred/log_async_sink.cc:40-85 | every step of logging threads, log thread and destructor keeps ownership, contents and order |
| LogAsyncRuns.AllRuns | src/brickred/log_async_sink.cc:40-85 | over all interleavings each buffer is held exactly once, pooled buffers are empty, the adapted sink has received the queued messages in order, and on deletion all those queued before the NULL |
| LogAsyncRuns.LoggerIsAwake | src/brickred/log_async_sink.cc:64-73 | with the NULL queued the log thread is not asleep, because the queue loses no wakeup |
| LogAsyncRuns.DestructorEnds | src/brickred/log_async_sink.cc:40-46 | the log thread alone can then write everything queued before the NULL and let the destructor finish |
| LogAsyncSinks.ObjectPool.GetObject | src/brickred/object_pool.h:22-30 | hands out the last pooled object, and a new one only when there is none |
| LogAsyncSinks.ObjectPool.ReturnObject | src/brickred/object_pool.h:32-35 | adds the object at the end |
| LogAsyncSinks.LogAsyncSink.GetBuffer | src/brickred/log_async_sink.cc:50-54 | the locked part of log() is a step of the protocol and keeps its invariant |
| LogAsyncSinks.LogAsyncSink.FillBuffer | src/brickred/log_async_sink.cc:56-58 | the same for the copy into the buffer |
| LogAsyncSinks.LogAsyncSink.PushBuffer | src/brickred/log_async_sink.cc:60-61 | the same for each attempt to push the buffer |
| LogAsyncSinks.LogAsyncSink.PopBuffer | src/brickred/log_async_sink.cc:67-73 | the same for each attempt to pop; NULL ends the log thread |
| LogAsyncSinks.LogAsyncSink.WriteBuffer | src/brickred/log_async_sink.cc:75-76 | the same for the call of the adapted sink |
| LogAsyncSinks.LogAsyncSink.ClearBuffer | src/brickred/log_async_sink.cc:77-77 | the same for emptying the buffer |
| LogAsyncSinks.LogAsyncSink.GiveBack | src/brickred/log_async_sink.cc:79-83 | the same for the return to the pool |
| LogAsyncSinks.LogAsyncSink.PushNullPointer | src/brickred/log_async_sink.cc:42-42 | the same for the destructor's push |
| LogAsyncSinks.LogAsyncSink.DeleteAdaptedSink | src/brickred/log_async_sink.cc:43-45 | at the deletion the adapted sink has received everything queued before the NULL |
| Timestamps.LessIsNanos | src/brickred/timestamp.cc:38-44 | operator< is the order of nanoseconds |
| Timestamps.MillisecondLessIsMillis | src/brickred/timestamp.cc:54-60 | millisecondLess is the order of whole milliseconds, which the nanosecond order refines |
| Timestamps.PlusAdds | src/brickred/timestamp.cc:26-52 | adding a non-negative interval adds its nanoseconds and stays normalised |
| Timestamps.PlusMoves | src/brickred/timestamp.cc:26-52 | adding any interval is exact in nanoseconds and moves the time in its direction under operator< |
| Timestamps.NotAfterMillis | src/brickred/timestamp.cc:38-60 | operator< never contradicts millisecondLess, whatever the nanosecond field |
| Timestamps.PlusNegative | src/brickred/timestamp.cc:26-36 | a negative interval stays normalised exactly when it does not borrow from the seconds |
| Timestamps.DistanceIsMillis | src/brickred/timestamp.cc:77-92 | the distance is the difference of whole milliseconds, in either order |
| HeapSpec.InsertContents | src/brickred/timer_heap.cc:217-240 | inserting adds exactly the one entry |
| HeapSpec.EraseContents | src/brickred/timer_heap.cc:242-277 | erasing removes exactly the entry at the position |
| HeapSpec.InsertOrders | src/brickred/timer_heap.cc:217-240 | inserting keeps the heap order |
| HeapSpec.EraseOrders | src/brickred/timer_heap.cc:242-277 | erasing keeps the heap order if and only if the last entry may stand below the hole's parent |
| HeapSpec.EraseCanLoseOrder | src/brickred/timer_heap.cc:242-277 | a heap of six timers in which it may not |
| HeapSpec.RootIsEarliest | src/brickred/timer_heap.cc:279-285 | the root of an ordered heap is the earliest entry |
| TimerHeaps.TimerHeap.MinHeapInsert | src/brickred/timer_heap.cc:217-240 | the sift-up loop on timers and back-pointers performs the insertion, every heap position right |
| TimerHeaps.TimerHeap.MinHeapErase | src/brickred/timer_heap.cc:242-277 | the sift-down loop performs the erasure, every heap position right |
| TimerHeaps.TimerHeap.AddTimer | src/brickred/timer_heap.cc:130-157 | map and heap gain the same one timer with the next id, or -1 and nothing changes; the order is kept |
| TimerHeaps.TimerHeap.RemoveTimer | src/brickred/timer_heap.cc:159-174 | map and heap lose exactly that timer; the order is kept exactly under the condition above |
| TimerHeaps.TimerHeap.MinHeapTop | src/brickred/timer_heap.cc:279-285 | NULL exactly without timers, otherwise the earliest timer of an ordered heap |
| TimerHeaps.TimerHeap.GetNextTimeoutMillisecond | src/brickred/timer_heap.cc:116-128 | -1 without timers, otherwise the least wait after which some timer is due, if and only if the earliest is overdue or its time is normalised |
| TimerHeaps.TimerHeap.FireTop | src/brickred/timer_heap.cc:188-205 | one round deletes the root or puts it back for its next time, and keeps structure and order |
| TimerHeaps.TimerHeap.CheckTimeout | src/brickred/timer_heap.cc:176-210 | without a timer on which the rounds never end it terminates, fires for each timer exactly its due times, leaves no due timer and of each timer what remains; all firings are in the order of time if and only if no due timer goes back |
| TimerSpecs.EndsExactly | src/brickred/timer_heap.cc:176-210 | the rounds of a check are bounded if and only if no due timer is endless with an interval that is not positive |
| TimerSpecs.KeepsGoing | src/brickred/timer_heap.cc:176-210 | with such a timer every number of rounds on the earliest timer is possible |
| TimerSpecs.DueTimesExactly | src/brickred/timer_heap.cc:176-210 | the k-th firing is k intervals after the first, all firings are due, and a timer is deleted exactly when its count is used up |
| TimerSpecs.CheckingEarlyIsHarmless | src/brickred/timer_heap.cc:176-210 | checking earlier and again later fires what checking later alone fires |
| TimerSpecs.FiresItsCount | src/brickred/timer_heap.cc:194-205 | over any run of checks a counted timer fires at most its count, and exactly its count if and only if some check does not come before its latest time |
| TimerSpecs.LastTimeIsLast | src/brickred/timer_heap.cc:194-205 | the latest time is count - 1 intervals after the first, or the first for a negative interval |
| TimerSpecs.RoundShrinks | src/brickred/timer_heap.cc:176-210 | each round shrinks the finite set of firings still to come |
| TimerSpecs.RoundKeepsProgress | src/brickred/timer_heap.cc:176-210 | what has fired and what is still due stay the whole schedule, in order |
| TimerSpecs.WaitIsLeast | src/brickred/timer_heap.cc:116-128 | the distance to the earliest timer is the least sufficient wait if and only if that timer is overdue or normalised |
| TimerLives.LifeCount | src/brickred/timer_heap.cc:176-210 | over any run of checks the k-th firing happens if and only if the count allows it and some check reaches its time, k timeouts after the first |
| TimerLives.AddedTimerFires | src/brickred/timer_heap.cc:130-210 | a timer added at a time fires for the k-th time at that time plus k timeouts, exactly if its count allows it and some check gets there |
| TimerLives.ChecksMakeLife | src/brickred/timer_heap.cc:176-210 | over any run of checks of the whole heap each timer fires at just these times |
| TimerSpecs.TimeoutNeedsInt | src/brickred/timer_heap.cc:45-45 | a repeating timer is put back exactly its timeout later if and only if the timeout is below 2^31; 2^31 puts it back earlier, 2^32 to the same time |
| TcpSpec.SendKeepsLink | src/brickred/tcp_service.cc:737-792 | sendMessage keeps limits, the write callback's meaning, and conservation unless a partly sent message is buffered |
| TcpSpec.FlushKeepsLink | src/brickred/tcp_service.cc:540-575 | onSocketWrite keeps the same for every result of the kernel |
| TcpSpec.DirectSendExactly | src/brickred/tcp_service.cc:745-792 | bytes are conserved for all messages of a size if and only if the message is not buffered after a partial direct send |
| TcpSpec.PartialSendHappens | src/brickred/tcp_service.cc:745-784 | every message of two bytes or more that fits the limit can meet the failing case |
| TcpSpec.OffsetConserves | src/brickred/tcp_service.cc:776-779 | copying from where the direct send stopped would conserve them for every result |
| TcpSpec.CompletionMeansAllSent | src/brickred/tcp_service.cc:563-574 | a completion callback of onSocketWrite comes only when all accepted bytes have left |
| TcpSpec.DirectCompletionMeansAllSent | src/brickred/tcp_service.cc:785-789 | so does the immediate completion, except exactly for an empty message behind waiting bytes |
| TcpSpec.ReceiveLimit | src/brickred/tcp_service.cc:487-519 | the receive loop never exceeds the read buffer's limit |
| TcpSpec.ReadKeepsLink | src/brickred/tcp_service.cc:470-519 | what was consumed followed by the read buffer is what the kernel delivered |
| TcpSends.RefusedExactly | src/brickred/tcp_service.cc:737-792 | a message is refused if and only if the kernel failed with nothing waiting, or part of it is left unsent and all that would wait exceeds the limit; then the error says which, else the whole message is accepted |
| TcpSends.CompletesExactly | src/brickred/tcp_service.cc:551-574 | the completion comes with the write that sends the last accepted byte, and with no other |
| TcpSends.LastMessageCompletes | src/brickred/tcp_service.cc:780-784 | the completion that comes is that of the last buffered message |
| TcpSends.ReadsInOrder | src/brickred/tcp_service.cc:484-519 | the receive loop takes all data in order up to the first arrival that is none or does not fit, which alone decides the end: end of file and a full buffer close |
| TcpSends.ReadsAll | src/brickred/tcp_service.cc:484-519 | when all data fits all of it is taken |
| TcpSends.ConnectsExactly | src/brickred/tcp_service.cc:408-438 | of all events only the write event of the connect, without a socket error, makes a connection connected |
| TcpSends.ErrorsNameTheirCause | src/brickred/tcp_service.cc:408-597 | a connection fails exactly by an event that carries an error for it, with that error |
| TcpSends.AllMessagesAccepted | src/brickred/tcp_service.cc:737-792 | over runs without a write limit and without a failure of the connection every message is accepted, the connection stays connected, and what it accepted is all messages in order |
| TcpSends.MessagesGoOut | src/brickred/tcp_service.cc:268-792 | from its acceptance on, wire and write buffer of such a connection hold exactly these messages, with all-or-nothing direct sends |
| TcpRuns.AddSocketTimerExactly | src/brickred/tcp_service.cc:354-360 | the timer maps stay inverse if and only if the socket had no timer |
| TcpRuns.StepKeepsInv | src/brickred/tcp_service.cc:243-888 | every event and call keeps the agreement of the maps, the timers' meaning and each connection's bytes |
| TcpRuns.MapsAgree | src/brickred/tcp_service.cc:243-888 | after every run connection and context keys are socket keys, the timer maps are mutual inverses, and a connected connection has no timer |
| TcpRuns.BytesConserved | src/brickred/tcp_service.cc:470-792 | after every run with all-or-nothing direct sends, wire and write buffer are the accepted messages, waiting bytes have their write callback, limits are kept |
| TcpRuns.TimersSpareConnected | src/brickred/tcp_service.cc:440-468 | no timer touches a connected connection; a connect timeout never closes an established one |
| TcpRuns.ErrorsAreReported | src/brickred/tcp_service.cc:754-774 | an error not yet reported has a running timer that reports it |
| TcpRuns.ClosedStaysClosed | src/brickred/tcp_service.cc:835-858 | whatever timers it leaves behind, a closed socket never reappears in a map |
| TcpServices.TcpConnection.Receive | src/brickred/tcp_service.cc:484-519 | the loop in place receives exactly what the specification of the loop says and ends as it says |
| TcpServices.TcpConnection.Send | src/brickred/tcp_service.cc:745-791 | the branches in place compute the send function of connection and socket |
| TcpServices.TcpConnection.Drain | src/brickred/tcp_service.cc:551-574 | onSocketWrite in place computes the flush function and its completion |
| TcpServices.TcpService.BuildListenSocket | src/brickred/tcp_service.cc:243-266 | adds the socket, or -1 and nothing changes when the id is in use |
| TcpServices.TcpService.BuildConnectedSocket | src/brickred/tcp_service.cc:268-306 | adds a socket and a connected connection that points at it |
| TcpServices.TcpService.BuildAsyncConnectSocket | src/brickred/tcp_service.cc:308-352 | adds a connecting pair and its timeout timer |
| TcpServices.TcpService.AddSocketTimer | src/brickred/tcp_service.cc:354-360 | enters the timer in both maps |
| TcpServices.TcpService.RemoveSocketTimer | src/brickred/tcp_service.cc:362-374 | removes and stops the socket's timer if it has one |
| TcpServices.TcpService.OnAsyncConnectSocketWrite | src/brickred/tcp_service.cc:408-438 | drops the timer, then connects or reports the error |
| TcpServices.TcpService.OnAsyncConnectTimeout | src/brickred/tcp_service.cc:440-468 | clears both maps, and closes and reports only a pair that still exists |
| TcpServices.TcpService.OnSocketRead | src/brickred/tcp_service.cc:470-523 | receives into that connection only; data is announced unless recv failed |
| TcpServices.TcpService.PeerClosed | src/brickred/tcp_service.cc:526-537 | marks the connection only if the receive callback has not closed it |
| TcpServices.TcpService.OnSocketWrite | src/brickred/tcp_service.cc:540-575 | flushes that connection only and returns the completion that is due |
| TcpServices.TcpService.OnSocketError | src/brickred/tcp_service.cc:577-597 | reports the socket's error on its connection, nothing for a listening socket |
| TcpServices.TcpService.SendMessage | src/brickred/tcp_service.cc:715-792 | false without a connected connection or on refusal, which starts the timer; other connections are untouched |
| TcpServices.TcpService.OnSendMessageError | src/brickred/tcp_service.cc:794-820 | clears both maps and reports only for a pair that still exists |
| TcpServices.TcpService.CloseSocket | src/brickred/tcp_service.cc:835-858 | the id leaves three maps, its timers stay |
| TcpServices.TcpService.SetContext | src/brickred/tcp_service.cc:871-888 | sets the context of an existing socket only |
| IOServices.NoStaleDispatch | src/brickred/io_service.cc:158-222 | over the whole loop and for all callbacks, an event reaches the very device it was for, still attached, if and only if epoll has not refused to remove that device |
| IOServices.FailedRemovalIsStale | src/brickred/io_service.cc:111-126 | a run in which a refused removal sends an event to the new device at the address |
| IOServices.EveryEventIsCalled | src/brickred/io_service.cc:179-208 | every ready kind of every event is dispatched unless its address is marked as removed |
| IORuns.EveryRoundIsServed | src/brickred/io_service.cc:158-222 | the callbacks of each round are, in order, one for every ready kind of every event, except exactly where a callback of the same round had removed the address before |
| IORuns.EveryReadyKindIsCalled | src/brickred/io_service.cc:158-222 | a ready kind is called in its round unless the callbacks of that very round removed the address |
| IORuns.MarkedBeforeLoop | src/brickred/io_service.cc:111-217 | a device detached and attached again before the loop misses its first event and gets its second |
| IOServices.IOService.RemoveIODevice | src/brickred/io_service.cc:111-126 | the address is marked exactly when the device was attached and epoll removed it |
| IOServices.IOService.DoEvents | src/brickred/io_service.cc:179-208 | the loop with its three checks and continues dispatches what the simple fold over the ready kinds dispatches |
| IOServices.IOService.Loop | src/brickred/io_service.cc:158-222 | the rounds in place compute the function about which the theorems are proved |
| RandomSpec.TemperBijection | src/brickred/random.cc:171-175 | tempering has an inverse on both sides |
| RandomSpec.BlankForever | src/brickred/random.cc:145-167 | the 19937 bits of state are all zero after k words if and only if they were at the start |
| RandomSpec.OutputsNeverDieOut | src/brickred/random.cc:145-178 | otherwise every 624 consecutive outputs contain one that is not zero |
| RandomSpec.SeedIsNotBlank | src/brickred/random.cc:97-104 | no seed gives the all-zero state |
| RandomSpec.KeyIsNotBlank | src/brickred/random.cc:141-142 | no key gives the all-zero state |
| RandomSpec.KnownSeedWords | src/brickred/random.cc:97-104 | the first words of the seed 5489 |
| RandomSpec.KnownOutputs | src/brickred/random.cc:145-178 | from the words of this seed, the first outputs of mt19937 |
| RandomSpec.KnownMixes | src/brickred/random.cc:112-140 | numbers of both mixing loops for the reference key |
| Randoms.Random.Seed | src/brickred/random.cc:97-104 | the state is the seed recurrence and nothing has been drawn |
| Randoms.Random.SeedByKey | src/brickred/random.cc:106-143 | the two wrapping loops write the words of one recurrence in which each mixes the word before it with the word it replaces |
| Randoms.Random.NextInt | src/brickred/random.cc:145-178 | the k-th output is the tempering of word k + 624 of the recurrence, across batches |
| Randoms.Random.NextBatch | src/brickred/random.cc:152-167 | the two split loops and the last word replace a batch by the next one |
| ShaSpec.PadZerosIsLeast | src/brickred/codec/sha1.cc:116-137 | the padding is the least that section 5.1.1 of FIPS 180-4 allows |
| ShaSpec.PadIsBlocks | src/brickred/codec/sha1.cc:116-137 | the padded message is a whole number of blocks |
| ShaAnswers.CubeRootsFrom0 | src/brickred/codec/sha256.cc:35-52 | the first eight round constants are the cube roots of the first primes; the lemmas from 8 to 56 say so of the rest |
| ShaAnswers.InitialRoots | src/brickred/codec/sha256.cc:20-31 | the initial values are the square roots of the first eight primes |
| ShaAnswers.RoundConstants1 | src/brickred/codec/sha1.cc:48-72 | the constants of the four phases are the roots of 2, 3, 5 and 10 |
| ShaAnswers.KnownDigest1 | src/brickred/codec/sha1.cc:30-81 | the last round and the digest of the message abc; KnownRound1At0 and the others say so of one round of each phase |
| ShaAnswers.KnownDigest256 | src/brickred/codec/sha256.cc:54-106 | the same for SHA-256 |
| ShaBlocks.Sha1ProcessBlock | src/brickred/codec/sha1.cc:30-81 | schedule and four phases compute the SHA-1 compression of section 6.1.2 |
| ShaBlocks.Sha256ProcessBlock | src/brickred/codec/sha256.cc:33-111 | schedule and rounds compute the SHA-256 compression of section 6.2.2 |
| Sha.BlocksStep | src/brickred/codec/sha256.cc:113-144 | one more block of input is one more compression |
| Sha.Context.Update | src/brickred/codec/sha1.cc:83-114 | after any updates the state is the fold of the block function over the full blocks of everything given, and its tail |
| Sha.Context.Digest | src/brickred/codec/sha1.cc:116-138 | the digest is the hash of the padded message, in both padding branches and within the 64-byte pad |
| Sha.HashPieces | src/brickred/codec/sha256.cc:113-168 | hashing in any pieces is hashing the whole |
| Sha.HashBinary | src/brickred/codec/sha256.cc:198-213 | the one-call form equals the specification |
| Base64.DecodeEncode | src/brickred/codec/base64.cc:23-133 | decoding undoes encoding for every byte string |
| Base64.EncodeAlphabet | src/brickred/codec/base64.cc:9-70 | the output has four characters per three bytes, all in the alphabet or padding |
| Base64.TableIsAlphabet | src/brickred/codec/base64.cc:9-11 | the alphabet in its order |
| Base64.EncodesVectors | src/brickred/codec/base64.cc:23-70 | test vectors of section 10 of RFC 4648 for each length of the last group |
| Base64.Base64Encode | src/brickred/codec/base64.cc:23-70 | writes the encoding and its length, -1 exactly when the output is too small |
| Base64.Base64Decode | src/brickred/codec/base64.cc:88-133 | writes the decoding and its length, -1 exactly on a bad input or a too small output |
| Base64.EncodeString | src/brickred/codec/base64.cc:77-86 | the buffer of max(5, 2n) is always enough |
| Base64.DecodeString | src/brickred/codec/base64.cc:140-149 | the wrapper's buffer is always enough; a bad input gives the empty string |
| Url.DecodeEncode | src/brickred/codec/url.cc:86-162 | decoding undoes encoding for every byte string |
| Url.EncodeAlphabet | src/brickred/codec/url.cc:12-35 | the output has unreserved characters and percent signs only, and at most three bytes per byte |
| Url.TripletIsHex | src/brickred/codec/url.cc:10-35 | which characters stay, and that all others become a percent sign and two upper-case digits, high digit first |
| Url.UrlEncode | src/brickred/codec/url.cc:86-111 | writes the encoding and its length, -1 exactly when the output is too small |
| Url.UrlDecode | src/brickred/codec/url.cc:129-162 | writes the decoding and its length, -1 exactly on a bad input or a too small output |
| Url.EncodeString | src/brickred/codec/url.cc:118-127 | the buffer of max(1, 3n) is always enough |
| Url.DecodeString | src/brickred/codec/url.cc:169-178 | the wrapper's buffer is always enough; a bad input gives the empty string |

## Left out

- Sockets, epoll, pipes, threads, mutexes, condition variables and clocks are not modelled themselves; their results
  are parameters or the steps of a state machine.
- Liveness under a fair scheduler: the progress lemmas give a finishing run, not that every run finishes.
- The logging core, file and stderr sinks, socket addresses, the function and pointer templates.
- Random numbers as doubles and in ranges (random.cc:180-200), which depend on floating point.
- Hexadecimal digests, and split without an explicit length, toString, replace and Hash of string_util.
- The widths of 8 and 32 bits of the peek, read and write integers of dynamic_buffer, which repeat the others.
- atoi and sscanf overflow as in the C library of Linux, where the C standard leaves it undefined.
- HttpRoundTrip.RoundTrip: the order in which the header map is enumerated is a parameter, any order that lists every
  key once. The output callback is taken to be set.
- HttpParser.RecvCut: the bytes that the chunk test reads behind the input are a parameter of two arbitrary bytes.
- HttpProtocols.HttpProtocol.RecvMessage: the chunk buffer is held as its contents.
- WebSocketProtocols.WebSocketProtocol.SendMessage: the mask key is its four-byte value; the source keeps a pointer
  into the buffer across the reservation at web_socket_protocol.cc:558. A message sent while a received one has not
  been retrieved is dropped without a sign, as in the code.
- WebSocketConnection.BothSidesHear: the two runs of calls are given; that each side's calls include the receives of
  its own schedule is not demanded, and any runs will do.
- WebSocketRuns.EndToEndDelivery: the sender's frames are data, ping, pong and close frames as the object sends
  them; fragmented messages, which the object never sends, are covered by FragmentedOverWire.
- WebSocketConnection.HandshakeConnects: the accept value is compared without regard to case, as in the code, where
  section 4.1 of RFC 6455 asks for equality.
- LogAsyncSinks.LogAsyncSink.FillBuffer: buffers are addresses with contents; the buffer operations themselves are
  those proved for DynamicBuffer.
- TcpServices.TcpConnection.Send: the read and write buffers are held as their contents, in the same way, and their
  byte limits do not overflow size_t. A later buffered message replaces the completion callback of an earlier one, as
  in the code (tcp_service.cc:781).
- The accept loop of onListenSocketRead and an asyncConnect that completes at once are BuildConnectedSocket events.
- TcpRuns.MapsAgree: socket ids and timer ids are fresh when given out; the source's allocators repeat an id after
  2^31 and 2^63 calls. broadcastMessage is a sequence of sendMessage calls and has no event of its own.
- TcpRuns.BytesConserved: holds without its condition on direct sends once the copy starts at the right offset
  (OffsetConserves).
- TimerHeaps.TimerHeap.CheckTimeout: callbacks leave the heap alone, and the heap is ordered at the start. The timers
  on which the rounds never end are those of EndsExactly.
- Buffers.DynamicBuffer.PeekInt16: an offset for which the check wraps around and passes is excluded, since the source
  then reads outside the buffer; likewise for PeekInt64.
- IOServices.IOService.Loop: the wait time passed to epoll_wait and the timer heap itself are not part of the loop's
  state; timers are a script of actions.
