# NetworkLib: a verified model

This project models the core of NetworkLib, a C++ reactor library with an
asynchronous logger, and proves what its layers keep, alone and put together.

- **The byte-stream stack.** `Buffer.dfy` (a growing, compacting store over an
  array), `Connection.dfy` and `ConnectionLife.dfy` (partial writes, write interest,
  states, teardown),
  `EventLoop.dfy` (the task queue and its eventfd), `Outbound.dfy` (sends from
  many threads), `Http2Frames.dfy` and `Http2Session.dfy` (frames, streams),
  `Hpack.dfy`, `Grpc.dfy`, `TcpFraming.dfy` and `TcpClient.dfy`,
  `WebSocket.dfy`, `WebSocketHandler.dfy` and `WebSocketReads.dfy`,
  `HttpText.dfy`, `Http.dfy` and `HttpRequests.dfy`. `EndToEnd.dfy`, `SharedSession.dfy` and
  `ManySenders.dfy` join them, from threads' calls to the peer's streams and
  messages.
- **The logger.** `AsyncLogger.dfy` (producers, overflow policies, worker,
  shutdown as interleaved steps), `FileSink.dfy` (rotation against the whole
  history) and `LoggedFiles.dfy` (the two together). `LoggerAccounts.dfy` accounts for every
  entry and shows that the worker and Shutdown get done.
- **Rate limits.** `TokenBucket.dfy` and `FixedWindow.dfy`.
- **Common ground.** `Bytes.dfy` (byte orders, delivery in chunks) and `Bits.dfy`.

An object whose methods change its fields is a class, and each method's contract
equates the new state with a specification function of the old one; the theorems
are lemmas about those functions, over every run, interleaving or chunking. The
kernel is a script: `write` and `read` give the answers of an arbitrary list, so
a statement about every list is one about every kernel. A receiver's steps are
compared with one delivery of all bytes (`ChunkBlind`), which covers every way the
network can cut them. Concurrency is modelled as one step per critical section,
unlocked flag read or system call, in any order.

Where the code differs from its comments or from what one would expect of it, the
model follows the code, and the difference is a theorem:

- `BufferPool::Acquire` promises at least the requested size and hands out stores of
  size 0 (`Memory.BufferPool.Acquire`); `Memory.Buffer` works with them.
- `Connection::Shutdown` with output waiting never half-closes (`Connections.HalfClosedIff`).
- A session call is two sends. Session calls of several threads arrive when they are
  back to back (`EndToEnd.AllThatWasSentArrives`); of two interleaved data calls both
  arrive only if what is sent between the first one's header and payload commutes with
  that payload (`SharedSession.RaceArrivesIff`). TCP messages are one send each and need no such care
  (`ManySenders.MessagesFromManyThreads`).
- Frame payloads from 2^24 bytes, gRPC payloads and HPACK strings from 2^32 bytes are
  truncated in their length fields (the three `ReadsBackIff` lemmas).
- A gRPC message in several data frames is not received (`Grpc.SplitMessageArrivesIff`).
- A thread that sends and then runs the loop has its later sends overtake the queued
  ones (`Outbound.StartRunKeepsOrderIff`).
- The TCP client, unlike the server, is sensitive to chunking once it meets an oversize
  length (`TcpClients.CutMattersIff`).
- The WebSocket writer puts 64-bit lengths in the wrong byte order
  (`WebSocket.WriterReadsBackIff`), and the handler is out of step after a read that
  ends past the second byte of a frame (`WebSocketReads.EverythingArrivesIff`).
- An HTTP request is handled again with every read after the one that completes it
  (`Http.HandledOnceIff`).
- What a server reads in the same event as the peer's close, or after its own Shutdown,
  is never handed to the protocol (`Connections.ServerDispatchesIff`,
  `Connections.NothingDispatchedOnceClosed`, `Connections.NothingDispatchedPastShutdown`).
- A printed HTTP request with a body of 2^31 bytes or more makes the parser throw
  (`Http.RequestRoundTrip`).
- A log entry can be accepted after Shutdown's drain and never be written
  (`AsyncLoggers.ShutdownDeliversEverythingIff`, `AsyncLoggers.StragglerIsLost`).
- `rate_limit_per_ip`, described as requests per second, is not one above 1: up to twice
  the limit less one is admitted in a second (`FixedWindows.EnforcesRateIff`), and twice
  the limit only in the first second of the clock.
- With `max_backups` below 1 the sink still keeps one backup (`FileSinks.Slots`).

## Model

| member | source | states |
|---|---|---|
| EndToEnd.AllThatWasSentArrives | lib_network/src/protocols/http2/session.cc:15-112 | Session calls of any number of threads, made back to back and by the loop's thread only while nothing is queued, through `Connection::Send`, the loop's queue and any pattern of partial writes, read by a peer in any chunks: once the queue and the output buffer are empty and the wire is read to its end, the peer knows exactly the streams used, holds on each the data sent on it in order, and has called back once per data call in send order |
| EndToEnd.OnlyWhatWasSentArrives | lib_network/src/protocols/http2/session.cc:15-64 | At every earlier moment of every such run the preface has not been refused and what is delivered is a prefix of what was sent, per stream and per callback |
| EndToEnd.WireSpellsCalls | lib_network/src/connection.cc:345-389 | When sends are carried out in call order, the wire is a prefix of the concatenated calls, and all of it once nothing waits |
| EndToEnd.OneSenderIsUnderway | lib_network/src/event/event_loop.cc:156-192 | One sending thread, the loop's own included, meets that condition by itself if it did not start the loop with sends of its own waiting |
| EndToEnd.MessagesReachThePeer | lib_network/src/protocols/grpc/grpc_handler.cc:15-58 | A gRPC exchange of messages, headers and stream ends over the same runs: the peer's stream handler is given exactly the messages written, each on its stream, in order |
| SharedSession.RaceArrivesIff | lib_network/src/protocols/http2/session.cc:66-112 | Two threads' session calls a and b, a's header first, in every order that keeps each thread's own: with both data on streams, the peer delivers what was sent if and only if what is sent between a's header and a's payload (nothing, b's header, or all of b) commutes with a's payload; with only b data, if and only if b's frame is found, but for its flags, behind the length of a's payload; with b no data, if and only if a's data is intact and what is found behind it is no data either |
| SharedSession.RaceOverAnyRun | lib_network/src/connection.cc:345-389 | The same for two data calls over any run that ends with those calls made and nothing waiting, whatever the kernel and the network do |
| SharedSession.EveryOrderIsARace | lib_network/src/protocols/http2/session.cc:86-111 | Those are all the orders: any that keeps each thread's own is one of them |
| SharedSession.FirstDeliveryIntactIff | lib_network/src/protocols/http2/session.cc:86-89 | In each of these orders the first delivery is a's data if and only if that data is the beginning of what is sent between its header and itself, and itself again |
| SharedSession.SharedSessionRace | lib_network/src/protocols/http2/session.cc:86-111 | For any two calls, the first with a nonempty payload below 2^24 bytes, and each of these orders there is such a run: the loop's thread calls nothing, each of the two makes exactly the sends of its calls, all are on the wire, which spells the two calls under the same condition; and however it is read, exactly these deliveries follow |
| Outbound.CallKeepsCallOrderIff | lib_network/src/connection.cc:352-360 | A call keeps the order of all calls, whatever it sends, if and only if it is not the loop's thread's or nothing is queued |
| Outbound.RunKeepsCallOrder | lib_network/src/event/event_loop.cc:156-192 | So over a run with only such calls, carried out ++ swapped out ++ pending is the order of all calls |
| Outbound.OtherThreadsAreQuiet | lib_network/src/event/event_loop.cc:156-192 | As is every run in which the thread that runs the loop makes no calls |
| SharedSession.CallsReachTheWire | lib_network/src/event/event_loop.cc:164-192 | Any calls made before the loop starts are carried out by one pass of it, in order, and with a kernel that takes them whole are the wire |
| Http2Frames.FrameParser.Parse | lib_network/src/protocols/http2/frame_parser.cc:11-54 | The object's two-state parser computes `ParseOne` of its state and buffer: frame, new state and leftover |
| Http2Frames.HeaderRoundTrip | lib_network/src/protocols/http2/frame_parser.cc:19-32 | A header written in the layout of section 4.1 of RFC 9113 reads back with the length modulo 2^24 and the id modulo 2^31, whatever the reserved bit |
| Http2Frames.HeaderWritesBack | lib_network/src/protocols/http2/frame_parser.cc:19-32 | Any nine bytes are the written form of the header read from them, given their reserved bit |
| Http2Frames.ParseOneShrinks | lib_network/src/protocols/http2/frame_parser.cc:37-51 | Every delivered frame lowers a measure over readable bytes and parser state, even one without payload; a call that delivers none changes nothing when repeated |
| Http2Frames.ParseOneAppend | lib_network/src/protocols/http2/frame_parser.cc:11-54 | One call of Parse is indifferent to bytes behind the frame it delivers, and resumes exactly where it stopped if it delivers none |
| Http2Frames.ParseAllAppend | lib_network/src/protocols/http2/session.cc:34-37 | For any bytes and any cut, the parse loop over the parts yields the frames, state and leftover of the loop over the whole |
| Http2Frames.ParseAllConserves | lib_network/src/protocols/http2/frame_parser.cc:11-54 | Frames written out again, the absorbed header and the leftover spell the input, for some choice of the reserved bits |
| Http2Frames.FrameRoundTrip | lib_network/src/protocols/http2/frame_parser.cc:11-54 | A frame with a truthful length below 2^24 is read back, leaving exactly the bytes after it |
| Http2Sessions.MultiplexDemultiplex | lib_network/src/protocols/http2/session.cc:15-112 | The preface and any interleaving of data and header calls, in any chunking over any number of `OnData` calls: the stream map's domain is exactly the ids used, each stream holds its data in order, the callback saw the data calls in send order, and nothing is left over |
| Http2Sessions.DeliveriesArePrefixes | lib_network/src/protocols/http2/session.cc:15-64 | After any prefix of those bytes, what was delivered is a prefix of what will be |
| Http2Sessions.RejectedIff | lib_network/src/protocols/http2/session.cc:18-32 | Over any chunks, a session is refused, knowing and having delivered nothing, if and only if as many bytes as the preface has have arrived and they are not the preface |
| Http2Sessions.PrefaceDecides | lib_network/src/protocols/http2/session.cc:18-37 | Too few bytes wait, the preface starts the framing behind it, anything else refuses |
| Http2Sessions.WrittenSize | lib_network/src/protocols/http2/session.cc:86-111 | A call writes nine bytes and its payload, but for a header block whose size is a multiple of 2^32, of which only the header is sent |
| Http2Sessions.SentHeaderTells | lib_network/src/protocols/http2/session.cc:72-95 | A sent frame tells its reader its type, its stream, whether it ends the stream and, for headers, that they are complete, with no other flag set |
| Http2Sessions.SessionIsChunkBlind | lib_network/src/protocols/http2/session.cc:15-38 | For any bytes, valid or not, from any session state, the cut between two reads makes no difference |
| Http2Sessions.OnDataOnlyAdds | lib_network/src/protocols/http2/session.cc:15-64 | No read ever takes back a delivery, a stream or a byte of a stream |
| Http2Sessions.SentFrameReadsBackIff | lib_network/src/protocols/http2/session.cc:66-112 | A sent frame is read back as sent if and only if its payload is below 2^24 bytes |
| Http2Sessions.SentFramesReadBack | lib_network/src/protocols/http2/session.cc:66-112 | The parse loop on a run of sent frames yields exactly those frames and nothing else |
| Http2Sessions.DemuxKnows | lib_network/src/protocols/http2/session.cc:40-64 | Over any received frames, whoever wrote them: the streams known afterwards are those known before and the nonzero ids of the frames |
| Http2Sessions.DemuxSorts | lib_network/src/protocols/http2/session.cc:51-64 | Over any received frames each stream gains the payloads of its own data frames, in order, and nothing else |
| Http2Sessions.DemuxCallsBack | lib_network/src/protocols/http2/session.cc:55-61 | Over any received frames there is one callback for each data frame on a nonzero id, in order |
| Http2Sessions.SessionObject.HandleInput | lib_network/src/protocols/http2/session.cc:15-38 | The object's OnData on the connection's input buffer is the specification's step; a wrong preface closes the connection |
| Http2Sessions.SessionObject.PumpFrames | lib_network/src/protocols/http2/session.cc:34-37 | The frame loop dispatches every frame in the buffer, in order, and stops |
| Http2Sessions.SessionObject.Dispatch | lib_network/src/protocols/http2/session.cc:40-64 | Stream lookup or creation, append and callback |
| Http2Sessions.SessionObject.SendStreamData | lib_network/src/protocols/http2/session.cc:66-90 | Extends the connection's outbound stream by exactly the frame's bytes |
| Http2Sessions.SessionObject.SendHeaders | lib_network/src/protocols/http2/session.cc:92-112 | The same for a header block, including the 32-bit length that decides whether a payload is sent |
| Grpc.MessagesSurviveTheStack | lib_network/src/protocols/grpc/grpc_handler.cc:26-58 | Among any data and header calls on any streams, multiplexed, cut anywhere and demultiplexed: every data call that carries a message is decoded as that message on its stream with no byte left, and an empty one (the end of a stream) as nothing |
| Grpc.ExchangeDecodes | lib_network/src/protocols/grpc/grpc_handler.cc:15-58 | Of an exchange of messages, headers and stream ends, the handler is given exactly the messages, in order |
| Grpc.MessageReadsBackIff | lib_network/src/protocols/grpc/grpc_codec.cc:9-46 | A message decodes to itself if and only if its payload is below 2^32 bytes |
| Grpc.MessageRoundTrip | lib_network/src/protocols/grpc/grpc_codec.cc:9-46 | And leaves exactly the bytes that follow it |
| Grpc.AnyFlagDecodes | lib_network/src/protocols/grpc/grpc_codec.cc:32-45 | Any nonzero flag byte means compressed |
| Grpc.PartialMessageWaits | lib_network/src/protocols/grpc/grpc_codec.cc:27-41 | Any strict prefix of a message decodes to nothing and consumes nothing |
| Grpc.SplitMessageArrivesIff | lib_network/src/protocols/grpc/grpc_handler.cc:45-58 | The callback decodes each frame alone: of a message sent in any number of pieces the stream's buffer ends up holding all, and the handler is given the message if and only if one piece is the whole of it |
| Grpc.DecodeFrom | lib_network/src/protocols/grpc/grpc_codec.cc:27-46 | The decoder on a buffer takes a whole message or nothing |
| Hpack.HeadersRoundTrip | lib_network/src/protocols/http2/hpack.cc:42-81 | An RFC 7541 decoder with the whole static table reads every encoded header list back, in order |
| Hpack.FieldRoundTrip | lib_network/src/protocols/http2/hpack.cc:45-79 | Each field's code reads back with any bytes after it |
| Hpack.FieldIsCompact | lib_network/src/protocols/http2/hpack.cc:46-66 | The three indexed fields take one byte, and the two indexed names no string |
| Hpack.StringReadsBackIff | lib_network/src/protocols/http2/hpack.cc:34-40 | A string literal reads back if and only if its length fits the 32-bit parameter |
| Hpack.StringRoundTrip | lib_network/src/protocols/http2/hpack.cc:34-40 | With any bytes after it |
| Hpack.IntRoundTrip | lib_network/src/protocols/http2/hpack.cc:19-32 | A prefix integer reads back, whatever flag bits share its first byte and whatever follows |
| Hpack.IntTakesAtMostSixBytes | lib_network/src/protocols/http2/hpack.cc:19-32 | A 32-bit integer takes at most six bytes for any prefix |
| Hpack.HpackEncoder.PutInteger | lib_network/src/protocols/http2/hpack.cc:19-32 | ORing into the last byte and pushing yields the code and leaves all earlier bytes alone |
| Hpack.HpackEncoder.PutString | lib_network/src/protocols/http2/hpack.cc:34-40 | Appends the string literal |
| Hpack.HpackEncoder.PutField | lib_network/src/protocols/http2/hpack.cc:45-79 | Appends the field's representation |
| Hpack.EncodeFields | lib_network/src/protocols/http2/hpack.cc:42-81 | The loop over the headers computes the block the round trip is about |
| Connections.StreamIsWhatWasSent | lib_network/src/connection.cc:219-389 | Over every run of handlers and every pattern of partial, blocked or failing writes, bytes on the wire followed by bytes still buffered are all bytes sent, in order |
| Connections.StepExtendsStream | lib_network/src/connection.cc:171-402 | Each handler extends that stream by what it was asked to send and by nothing else, including the append, write, retrieve fast path |
| Connections.NothingIsStranded | lib_network/src/connection.cc:383-388 | Once registered with write interest or with nothing to write, no run leaves output waiting on a live connection without write interest |
| Connections.RegistrationDecides | lib_network/src/event/event_loop.cc:55-72 | And registration establishes that if and only if it asks for write interest or nothing waits |
| Connections.TeardownOnce | lib_network/src/connection.cc:308-343 | Over every run the socket is closed at most once, the disconnect callback fires exactly as often, and the connect callback at most once per Connect |
| ConnectionLife.DisconnectedMeansTornDown | lib_network/src/connection.cc:308-330 | Over every run from a live connection on: while it is not disconnected it is open and nothing was called back, and once it is, its descriptor has been unregistered and closed and the disconnect callback called, each exactly once |
| ConnectionLife.StepGoes | lib_network/src/connection.cc:39-402 | Which state every event leads to from every state, as a table over the kernel's answers: failed writes, failed or ended reads and failed connects close, blocked ones do not; and what each tells the connect callback |
| ConnectionLife.ToldTheVerdicts | lib_network/src/connection.cc:100-104 | Over every run the connect callback has been told exactly those verdicts, in order |
| ConnectionLife.OnlyShutdownHalfCloses | lib_network/src/connection.cc:395-402 | Exactly a Shutdown of a connected connection with nothing waiting half-closes, and only a registration registers |
| ConnectionLife.SendWritesThrough | lib_network/src/connection.cc:363-381 | A send writes at once exactly on a connected connection with nothing waiting, as far as the kernel takes it |
| ConnectionLife.WireIsFinalOnceClosed | lib_network/src/connection.cc:308-326 | From a close on no run puts anything on the wire |
| ConnectionLife.UnreadCount | lib_network/src/connection.cc:191-196 | The input grows by what is received and shrinks by what is retrieved |
| Connections.RunKeepsInv | lib_network/src/connection.cc:39-402 | The invariant behind the two, kept over every run |
| Connections.HalfClosedIff | lib_network/src/connection.cc:395-402 | Shutdown half-closes the socket if and only if nothing is waiting at the call; no later flush makes up for it |
| Connections.ReceivedIsWhatArrived | lib_network/src/connection.cc:171-217 | Over every run, with anything retrieved and any handlers run between two reads: what was received is the data of the kernel's answers so far, in order, and what has not been retrieved is the end of it |
| Connections.ReadEventDelivers | lib_network/src/connection.cc:191-215 | One read event, whatever its callbacks do short of reading themselves, takes in the chunks before the first answer that is not data, in order: all of them unless a callback closed the connection |
| Connections.ReadDelivers | lib_network/src/event/reactor.cc:109-110 | A server's read event, which has no callback, adds exactly those chunks to the input |
| Connections.ServerDispatchesIff | lib_network/src/event/reactor.cc:109-113 | What a server's read event took in is handed to the protocol if and only if the connection was connected before and the kernel blocked before it reported an end or a failure |
| Connections.NothingDispatchedOnceClosed | lib_network/src/event/reactor.cc:109-113 | Otherwise it never is: from a close on no run dispatches anything |
| Connections.NothingDispatchedPastShutdown | lib_network/src/event/reactor.cc:109-113 | Nor, from a Shutdown on, does any run that does not connect again |
| Connections.ReadWithIsRun | lib_network/src/connection.cc:191-196 | A read event with any callbacks is a run of events, so what holds over every run holds with them |
| Connections.WriteWithIsRun | lib_network/src/connection.cc:259-262 | And so is a write event with any connect callback |
| Connections.WriteEventEmptiesIff | lib_network/src/connection.cc:283-305 | A write event empties the output buffer if and only if the kernel takes as much as waits before it blocks or fails; then all of it is on the wire and write interest is off |
| Connections.Connection.SendBytes | lib_network/src/connection.cc:345-389 | Send on the loop thread, on real buffers, is the specification's step |
| Connections.Connection.Write | lib_network/src/connection.cc:163-169 | The kernel takes some prefix or nothing |
| Connections.Connection.FlushOutput | lib_network/src/connection.cc:283-301 | The write loop, until empty, blocked or failed |
| Connections.Connection.HandleWriteEvent | lib_network/src/connection.cc:219-306 | Completion of a pending connect, what its callback does, flush, and dropping write interest when empty |
| Connections.Connection.FinishConnecting | lib_network/src/connection.cc:223-262 | The check of a pending connect |
| Connections.Connection.ReadChunk | lib_network/src/connection.cc:191-214 | One turn of the read loop, up to the callback |
| Connections.Connection.HandleReadEvent | lib_network/src/connection.cc:191-215 | The read loop, with what the message callback does after each chunk |
| Connections.Connection.Play | lib_network/src/connection.cc:39-402 | Any run of handlers on the object is the run of their specifications |
| Connections.Connection.HandleClose | lib_network/src/connection.cc:308-330 | Close, guarded by the state |
| Connections.Connection.HandleError | lib_network/src/connection.cc:332-343 | Error, reporting a pending connect as failed |
| Connections.Connection.ShutdownWrites | lib_network/src/connection.cc:395-402 | Shutdown |
| Connections.Connection.ConnectTo | lib_network/src/connection.cc:65-121 | The three outcomes of connect(2), and a closed descriptor |
| Connections.Connection.ModifyFd | lib_network/src/event/event_loop.cc:74-92 | Interest changes only for a registered descriptor; a failure is ignored |
| Connections.Connection.AddFd | lib_network/src/event/event_loop.cc:55-72 | Registration, refused for a closed or a registered descriptor |
| EventLoops.HandOffIsFifo | lib_network/src/event/event_loop.cc:164-192 | Over every interleaving of producers and the loop, executed ++ swapped out ++ pending is the push order |
| EventLoops.NoLostWakeup | lib_network/src/event/event_loop.cc:164-189 | Pending nonempty implies the eventfd is readable, or a producer is between push and write, or the loop between read and swap, with the counter's saturation modelled |
| EventLoops.QuietLoopWakes | lib_network/src/event/event_loop.cc:178-192 | Hence a polling loop with quiet producers finds its eventfd readable and then takes everything pending |
| EventLoops.NothingIsStuck | lib_network/src/event/event_loop.cc:103-192 | At every moment of every run of a live loop, its own steps and the wakes still owed to it suffice to run everything queued |
| EventLoops.QueuedTasksGetRun | lib_network/src/event/event_loop.cc:103-192 | The continuation that does it, from any state satisfying the invariant |
| EventLoops.LiveUntilStopped | lib_network/src/event/event_loop.cc:118-147 | A live loop stays live over every run until it is stopped or its poller fails |
| EventLoops.StartedIsLive | lib_network/src/event/event_loop.cc:103-118 | And is live once started |
| EventLoops.StopEndsTheLoop | lib_network/src/event/event_loop.cc:150-154 | From every state of a live loop, once it is stopped its own steps lead out of Run |
| EventLoops.CounterIsBounded | lib_network/src/event/event_loop.cc:172-176 | Over every run the eventfd stays within its maximum |
| EventLoops.EventLoop.RunInLoop | lib_network/src/event/event_loop.cc:156-162 | The loop's own thread may run the task at once; any other queues it; before Run that is everyone |
| EventLoops.EventLoop.StartLoop | lib_network/src/event/event_loop.cc:103-114 | Run makes its caller the loop's thread, whoever called before |
| EventLoops.EventLoop.StopLoop | lib_network/src/event/event_loop.cc:150-154 | Stop clears the running flag and wakes the loop |
| EventLoops.EventLoop.HandleRead | lib_network/src/event/event_loop.cc:178-192 | With no producer in between, everything pending is run, in order |
| EventLoops.NextKeepsInv | lib_network/src/event/event_loop.cc:150-192 | The invariant behind them, step by step |
| EventLoops.EventLoop.QueueInLoop | lib_network/src/event/event_loop.cc:164-169 | The critical section |
| EventLoops.EventLoop.WakeUp | lib_network/src/event/event_loop.cc:172-176 | The eventfd write, which fails at the counter's maximum |
| EventLoops.EventLoop.DrainWakeups | lib_network/src/event/event_loop.cc:178-181 | The eventfd read |
| EventLoops.EventLoop.SwapTasks | lib_network/src/event/event_loop.cc:183-187 | The swap under the mutex |
| EventLoops.EventLoop.RunTasks | lib_network/src/event/event_loop.cc:189-192 | The task loop runs every swapped-out task once, in order |
| Outbound.EverySendOnceInOrder | lib_network/src/connection.cc:345-389 | Sends from any threads over every interleaving, the start of the loop included: wire ++ output is the concatenation of the sends carried out, none is dropped or doubled, and every thread's are carried out or queued in the order made, if it did not start the loop with sends of its own waiting |
| Outbound.StartRunKeepsOrderIff | lib_network/src/event/event_loop.cc:103-110 | A thread about to run the loop keeps the order of its next send if and only if nothing of its own is waiting: from Run on its sends overtake the queue |
| Outbound.StepConserves | lib_network/src/event/event_loop.cc:156-192 | Each step of threads, loop and connection keeps every send, once |
| Outbound.StepKeepsOrder | lib_network/src/event/event_loop.cc:156-192 | And each thread's order |
| Outbound.SendsAreContiguous | lib_network/src/connection.cc:359-360 | Over every run, the i-th send carried out is one unbroken stretch of wire and output buffer, where the sends before it end |
| Memory.Buffer.Append | lib_network/src/memory/buffer.cc:84-88 | Extends the contents; the store stays within the larger of its initial size and twice the peak contents (part of `Valid`) |
| Memory.Buffer.Retrieve | lib_network/src/memory/buffer.cc:70-77 | Drops a prefix; emptying rewinds both indices |
| Memory.Buffer.RetrieveAll | lib_network/src/memory/buffer.cc:79-82 | Empties |
| Memory.Buffer.EnsureWritableBytes | lib_network/src/memory/buffer.cc:94-99 | Room for the request, contents unchanged |
| Memory.Buffer.MakeSpace | lib_network/src/memory/buffer.cc:114-127 | Grow or compact, contents unchanged, space bound kept |
| Memory.Buffer.Compact | lib_network/src/memory/buffer.cc:121-125 | The overlapping move to the left keeps the contents |
| Memory.Buffer.Resize | lib_network/src/memory/buffer.cc:116-119 | Growing keeps contents and indices |
| Memory.Buffer.FindCRLF | lib_network/src/memory/buffer.cc:101-104 | Finds the first line end |
| Memory.CrlfAt | lib_network/src/memory/buffer.cc:101-104 | At a carriage return and line feed with none before it, or at the end |
| Memory.Buffer.constructor | lib_network/src/memory/buffer.cc:12-15 | Empty contents over whatever store the pool gives, size 0 included |
| Memory.BufferPool.Acquire | lib_network/src/memory/buffer_pool.cc:8-24 | Pops the newest pooled vector; a large enough one comes back with size 0, a small one is lost |
| Memory.BufferPool.Release | lib_network/src/memory/buffer_pool.cc:26-31 | Pools up to the limit |
| TcpFraming.DecodesTheAdmitted | lib_network/src/protocols/tcp/tcp_handler.cc:73-134 | Payloads within the cap, any chunking, any limiter: exactly the admitted payloads in order, holding exactly the started frame that follows |
| TcpFraming.OversizeStopsDispatch | lib_network/src/protocols/tcp/tcp_handler.cc:81-85 | The messages before an oversize length are handled and nothing after it ever is |
| TcpFraming.HandlerIsChunkBlind | lib_network/src/protocols/tcp/tcp_handler.cc:73-134 | For any bytes and limiter, cuts make no difference |
| TcpFraming.LeftoverIsPartial | lib_network/src/protocols/tcp/tcp_handler.cc:87-133 | What an open handler keeps is the start of one frame |
| TcpFraming.TcpHandler.HandleInput | lib_network/src/protocols/tcp/tcp_handler.cc:51-135 | The handler on the connection's buffer; an oversize length closes the connection |
| TcpFraming.TcpHandler.DispatchAll | lib_network/src/protocols/tcp/tcp_handler.cc:73-134 | Its loop |
| TcpFraming.TcpHandler.DispatchOne | lib_network/src/protocols/tcp/tcp_handler.cc:87-130 | One complete message, admitted or dropped, is consumed whole |
| TcpClients.CutMattersIff | lib_network/include/network/core/client/protocols/tcp_protocol.h:25-56 | The client clears its buffer on an oversize length and goes on, so a cut between reads is harmless if and only if no oversize length comes before it, or nothing or another oversize length comes right after |
| TcpClients.ClientReceivesAll | lib_network/include/network/core/client/protocols/tcp_protocol.h:25-56 | Responses within the cap all arrive in order under any chunking |
| TcpClients.ReceiveIsUnlimitedDrain | lib_network/include/network/core/client/protocols/tcp_protocol.h:27-55 | Client and server loop agree up to an oversize length |
| TcpClients.TcpClient.HandleInput | lib_network/include/network/core/client/protocols/tcp_protocol.h:25-56 | The client's loop on its connection's buffer |
| TcpClients.TcpClient.SendMessage | lib_network/include/network/core/client/protocols/tcp_protocol.h:16-23 | The client sends length prefix and payload as one send |
| ManySenders.MessagesFromManyThreads | lib_network/src/connection.cc:345-389 | Messages from any number of threads over every interleaving, partial writes, teardown, any limiter and any cuts: the handler stays open and has decoded a prefix of the admitted payloads in the order carried out, and all of them once the output buffer is empty and the wire read to its end |
| ManySenders.PrefixDecodesPrefix | lib_network/src/protocols/tcp/tcp_handler.cc:73-134 | After any part of a run of frames, in any cuts, a prefix of the admitted payloads is decoded and the handler is open |
| WebSocket.ParseResumes | lib_network/src/protocols/websocket/frame_parser.cc:23-121 | From any state and for any cut, a call without a frame has put into the state exactly what it absorbed: continuing with only the other bytes gives what one call on everything gives |
| WebSocket.RfcFrameParses | lib_network/src/protocols/websocket/frame_parser.cc:23-121 | Every frame of section 5.2 of RFC 6455, masked or not, in all three length forms, is parsed and exactly consumed |
| WebSocket.LengthRefusedIff | lib_network/src/protocols/websocket/frame_parser.cc:63-79 | A 64-bit length is refused if and only if it is over the limit of 2^30 |
| WebSocket.ReservedBitsIgnored | lib_network/src/protocols/websocket/frame_parser.cc:36-39 | The three reserved bits make no difference |
| WebSocket.UnmaskInvertsMask | lib_network/src/protocols/websocket/frame_parser.cc:104-109 | Unmasking inverts masking for every key |
| WebSocket.UnmaskInPlace | lib_network/src/protocols/websocket/frame_parser.cc:104-109 | The in-place loop unmasks |
| WebSocket.Be64ToHost | lib_network/src/protocols/websocket/frame_parser.cc:12-18 | The shift-and-or loop reads big-endian |
| WebSocket.BeRoundTrip | lib_network/src/protocols/websocket/frame_parser.cc:12-18 | And inverts big-endian writing at any width |
| WebSocket.WriterReadsBackIff | lib_network/src/protocols/websocket/websocket_handler.cc:50-71 | The parser recovers what the writer wrote if and only if it is below 65536 bytes |
| WebSocket.ShortFramesReadBack | lib_network/src/protocols/websocket/websocket_handler.cc:50-71 | Below 65536 bytes the payload is recovered and exactly the frame consumed, whatever follows |
| WebSocket.ShortFramesAreStandard | lib_network/src/protocols/websocket/websocket_handler.cc:50-71 | There the writer writes the frame of section 5.2 |
| WebSocket.LongFramesAreRefused | lib_network/src/protocols/websocket/websocket_handler.cc:64-69 | From 65536 bytes to 2^32 the parser yields no frame, whatever follows |
| WebSocket.SwappedLength | lib_network/src/protocols/websocket/websocket_handler.cc:66-68 | Because the length is written least significant byte first and read as something else or over the limit |
| WebSocket.WriteFrame | lib_network/src/protocols/websocket/websocket_handler.cc:50-71 | The writer's branches and its byte loop |
| WebSocket.FrameParser.ParseFrame | lib_network/src/protocols/websocket/frame_parser.cc:23-121 | The four-stage object is the specification's parser |
| WebSocketReads.EverythingArrivesIff | lib_network/src/protocols/websocket/websocket_handler.cc:119-160 | Any frames in any reads, of which those before the last frame end at a frame boundary or one byte past it: all frames are received and the handler is in step if and only if every read ends so; the handler presents absorbed bytes again, and nothing read later makes up for it |
| WebSocketReads.SafeReadsArrive | lib_network/src/protocols/websocket/websocket_handler.cc:119-160 | Any frames in any number of such reads are all received, in order, and in step |
| WebSocketReads.CloseFrameEnds | lib_network/src/protocols/websocket/websocket_handler.cc:153-156 | A close frame is received after the frames before it, and nothing behind it ever is |
| WebSocketReads.HarmlessIff | lib_network/src/protocols/websocket/websocket_handler.cc:119-160 | For any frames and reads: at every moment the handler does, whatever follows, what it would do had all come at once, if and only if every read so far ended at a frame boundary or one byte past it |
| WebSocketReads.UnsafeReadsCanAgree | lib_network/src/protocols/websocket/websocket_handler.cc:119-160 | After any other read in an earlier frame the bytes can happen to be such that all frames are received nevertheless |
| WebSocketHandlers.SplitFrameArrivesIff | lib_network/src/protocols/websocket/websocket_handler.cc:119-160 | One frame in two reads is received, and the handler back in step, if and only if the first read carried fewer than its two header bytes |
| WebSocketHandlers.WholeFramesArrive | lib_network/src/protocols/websocket/websocket_handler.cc:122-160 | Frames that arrive whole are all received, in order |
| WebSocketHandlers.LoopOnlyAdds | lib_network/src/protocols/websocket/websocket_handler.cc:122-160 | The loop never takes back a frame, and without a frame it consumes nothing |
| WebSocketHandlers.FrameCost | lib_network/src/protocols/websocket/frame_parser.cc:54-118 | What a frame costs besides its payload, from each state past the header |
| WebSocketHandlers.WebSocketHandler.HandleInput | lib_network/src/protocols/websocket/websocket_handler.cc:119-160 | The loop on the connection's buffer |
| Http.RequestRoundTrip | lib_network/include/network/core/client/protocols/http_protocol.h:16-44 | Printed request, any chunking: same method, path, version, header lines and body, leaving exactly the following bytes, for bodies up to 2^31 - 1; for every larger body the parser ends in an exception |
| HttpRequests.RequestReads | lib_network/src/protocols/http/http_handler.cc:118-172 | Any request, in any cuts: any words on the first line (missing ones empty, further ones ignored), header lines with any byte behind the colon, without a colon (skipped) or ending at it (an exception), any Content-Length (no number an exception, a negative one never complete, else that many bytes of body) or none (no body), leaving exactly what follows |
| HttpRequests.RequestWithoutLength | lib_network/src/protocols/http/http_handler.cc:139-146 | A request without a Content-Length is complete at its blank line, with its words, its header fields and no body |
| HttpRequests.FirstLineReads | lib_network/src/protocols/http/http_handler.cc:123-127 | The first line's words |
| HttpRequests.HeaderReads | lib_network/src/protocols/http/http_handler.cc:147-153 | One header line of each kind |
| HttpRequests.StoiOfSigned | lib_network/src/protocols/http/http_handler.cc:161-161 | stoi of a number with leading space, a sign and anything behind it, up to what an int holds |
| HttpRequests.StoiOfNothing | lib_network/src/protocols/http/http_handler.cc:161-161 | And of no number: an exception |
| Http.MetadataArrives | lib_network/include/network/core/client/protocols/http_protocol.h:31-36 | Every metadata entry with an unrepeated key distinct from the names printed after it arrives |
| Http.FieldReadsBackIff | lib_network/src/protocols/http/http_handler.cc:134-156 | A header survives if and only if its key has no colon, neither part a line end, and the value does not end in a carriage return |
| Http.RequestResumes | lib_network/src/protocols/http/http_handler.cc:118-172 | From any context and for any cut of any bytes, a call that asks for more is continued as if everything had come at once, and one that finished or threw would have done so anyway |
| Http.ConversationIsChunkBlind | lib_network/src/protocols/http/http_handler.cc:118-172 | So chunking makes no difference to what is read, malformed input and exceptions included |
| Http.HandledOnceIff | lib_network/src/protocols/http/http_handler.cc:73-116 | It does to how often it is handled: a printed request is handled once for each read that ends with it or after, and exactly once if and only if no read comes after the one that completes it |
| Http.PrintRequest | lib_network/include/network/core/client/protocols/http_protocol.h:16-44 | The printer's loop |
| Http.HttpContext.ParseRequestFrom | lib_network/src/protocols/http/http_handler.cc:118-172 | The parser on context and buffer |
| Http.HttpContext.ParseHeaderLines | lib_network/src/protocols/http/http_handler.cc:133-158 | Its header loop |
| Http.HttpContext.TakeBody | lib_network/src/protocols/http/http_handler.cc:160-169 | Its body state, with stoi's failures and a negative length that never completes |
| HttpText.StoiOfDecimal | lib_network/src/protocols/http/http_handler.cc:161-161 | Printing a size and reading it with stoi: the number up to INT_MAX, an exception above |
| HttpText.ReadsWord | lib_network/src/protocols/http/http_handler.cc:126-126 | Stream extraction of a word followed by space or the end |
| AsyncLoggers.NothingLostOrDoubled | lib_logger/src/async_logger.cc:84-225 | In every reachable state of every interleaving, under all policies: accepted is removed ++ queue; removed and not evicted is delivered ++ batch in flight; between batches every sink was offered the same sequence, namely that one |
| LoggerAccounts.EveryEntryAccountedFor | lib_logger/src/async_logger.cc:84-153 | Conservation of what entered, over every run, shutdown included: each entry whose producer saw the logger running has been, as often as it entered, accepted, discarded as the newest, given up after a timed wait, turned away from a wait by a shutdown, or is still with a producer; the newest are discarded only under DISCARD_NEWEST, the oldest evicted only under DISCARD_OLDEST, and waits and their timeouts happen only under BLOCK |
| LoggerAccounts.RunningTurnsNobodyAway | lib_logger/src/async_logger.cc:84-153 | Until Shutdown is asked for, those entries are exactly the ones of all calls made, and none is turned away |
| LoggerAccounts.NothingDroppedWithinCapacity | lib_logger/src/async_logger.cc:122-153 | Under every policy, as long as no more entries have entered than the queue has places, none is dropped, turned away or made to wait |
| LoggerAccounts.WorkerTakesTheFront | lib_logger/src/async_logger.cc:178-196 | The worker takes the front of a nonempty queue, 32 entries or all there are |
| LoggerAccounts.QueuedEntriesGetDelivered | lib_logger/src/async_logger.cc:51-225 | At every moment of every run the worker, Shutdown and a producer past its wait can finish by themselves: after some continuation of only their steps nothing is queued, or Shutdown has returned, and every sink has been offered all that was taken |
| AsyncLoggers.QueueBoundedDropsCounted | lib_logger/src/async_logger.cc:93-153 | The queue never exceeds its configured size, and the dropped count is exactly evictions plus rejected-newest plus timeouts |
| AsyncLoggers.ShutdownDeliversEverything | lib_logger/src/async_logger.cc:51-82 | Once Shutdown returned, the queue is empty if and only if nothing was accepted after its drain; and if no producer was past its check of the running flag then (other than in a wait), all accepted and not evicted entries were offered to all sinks |
| AsyncLoggers.ShutdownDeliversEverythingIff | lib_logger/src/async_logger.cc:51-91 | That hypothesis is exact: once no producer is left between check and push, everything accepted was evicted or offered if and only if none was there when the drain ran, for every policy, queue size and number of sinks |
| AsyncLoggers.NothingOfferedAfterShutdown | lib_logger/src/async_logger.cc:51-82 | From any state in which Shutdown has returned, no continuation offers a sink anything more |
| AsyncLoggers.StragglerIsLost | lib_logger/src/async_logger.cc:84-91 | Under every policy, with any queue size of at least 1 and any sinks, there is a run whose entry is accepted and never offered, however the run goes on |
| LoggedFiles.FilesEndTheLines | lib_logger/src/async_logger.cc:210-225 | A file sink of the logger, at every moment of every interleaving, wherever rotations fail: its files are the end of the old log and the lines of the first of the accepted, not evicted entries, in order |
| LoggedFiles.FilesHoldAllLines | lib_logger/src/async_logger.cc:51-82 | After a shutdown with a quiet drain, from no files and with no more rotations than slots: exactly the lines of all accepted, not evicted entries |
| AsyncLoggers.NextKeepsInv | lib_logger/src/async_logger.cc:51-225 | The invariant, step by step |
| AsyncLoggers.AsyncLogger.TryEnqueue | lib_logger/src/async_logger.cc:122-153 | The critical section under each policy, up to where it waits |
| AsyncLoggers.AsyncLogger.Collect | lib_logger/src/async_logger.cc:190-195 | The pop loops of the worker (32 entries) and of the drain (no limit) take the front of the queue in order |
| AsyncLoggers.AsyncLogger.ProcessBatch | lib_logger/src/async_logger.cc:210-225 | Every sink is offered the whole batch in order, and the processed count grows by it |
| TokenBuckets.GrantsBounded | lib_network/src/resilience/token_bucket.cc:12-34 | Grants from any call to any later one total at most capacity + rate x (elapsed + 1 microsecond) |
| TokenBuckets.SpacedCallsAdmitted | lib_network/src/resilience/token_bucket.cc:12-34 | The lower side: calls that keep a distance of whole microseconds and ask for no more than the rate gives in it, nor than the capacity, are all admitted, over every such run and however few tokens there were |
| TokenBuckets.AdmittedIff | lib_network/src/resilience/token_bucket.cc:12-21 | A call is admitted if and only if tokens and credit, as far as they fit, cover its amount |
| TokenBuckets.RefusedForLack | lib_network/src/resilience/token_bucket.cc:16-20 | A refused call leaves fewer tokens than it asked for; a full bucket admits exactly the amounts up to its capacity |
| TokenBuckets.ConsumeBalances | lib_network/src/resilience/token_bucket.cc:12-34 | Tokens left and granted are tokens before and credit, as far as they fit |
| TokenBuckets.TruncationLosesLessThanHalf | lib_network/src/resilience/token_bucket.cc:23-34 | The uncapped credit over a run lies between half of what the rate promises for the time refilled and all of it, strictly above half once a refill has happened |
| TokenBuckets.TokensStayInRange | lib_network/src/resilience/token_bucket.cc:12-34 | Tokens stay between 0 and the capacity over every run |
| TokenBuckets.ConsumeKeepsValidIff | lib_network/src/resilience/token_bucket.cc:12-21 | One call keeps that range if and only if its amount is no further below zero than the room the refill leaves |
| TokenBuckets.CreditBounds | lib_network/src/resilience/token_bucket.cc:23-34 | One refill credits at most what the time is worth, more than half of it when it happens, and happens if and only if the rate is positive and a whole microsecond has passed |
| TokenBuckets.TokenBucket.RefillAt | lib_network/src/resilience/token_bucket.cc:23-34 | The object's refill |
| TokenBuckets.TokenBucket.ConsumeAt | lib_network/src/resilience/token_bucket.cc:12-21 | The object's call |
| FixedWindows.EnforcesRateIff | lib_network/src/security/ddos_protection.cc:19-36 | Past the clock's first second, every run admits at most the limit in every half-open second if and only if the limit is at most 1 |
| FixedWindows.AtMostTwiceTheLimitLessOne | lib_network/src/security/ddos_protection.cc:19-36 | There at most twice the limit less one is admitted for one address in any half-open second, because the request that opens a window counts in it |
| FixedWindows.TwiceTheLimitLessOneHappens | lib_network/src/security/ddos_protection.cc:19-36 | And that many are, for every limit and at every time |
| FixedWindows.AtMostTwiceTheLimit | lib_network/src/security/ddos_protection.cc:19-36 | Over every run with a clock that does not go back, its first second included, at most twice the limit is admitted for one address in any half-open second |
| FixedWindows.TwiceTheLimitAtTheEpoch | lib_network/src/security/ddos_protection.cc:22-28 | Which is reached only with the window that the map creates at the clock's epoch, for an address first seen in the first second |
| FixedWindows.OthersDoNotMatter | lib_network/src/security/ddos_protection.cc:19-36 | An address gets the verdicts it would have got alone |
| FixedWindows.PoliteCallsAdmitted | lib_network/src/security/ddos_protection.cc:19-36 | An address that makes no more calls than the limit in any half-open second has all of them admitted, over every run |
| FixedWindows.AdmittedAfterASecond | lib_network/src/security/ddos_protection.cc:24-35 | Over every run, a call is admitted whenever the address had none admitted in the second before it, however many were refused |
| FixedWindows.DdosProtection.AllowRequest | lib_network/src/security/ddos_protection.cc:19-36 | The object's call, including the entry created at the clock's epoch |
| FileSinks.FilesAreASuffixOfHistory | lib_logger/src/sinks/file_sink.cc:18-78 | Whatever files there were, whatever is written and wherever a rotation's file operations fail, the backups oldest to newest and then the current file are a suffix of all that was ever in the log |
| FileSinks.NothingLostYet | lib_logger/src/sinks/file_sink.cc:49-78 | From no files, it is all of it until there were more rotations than slots |
| FileSinks.BackupSizes | lib_logger/src/sinks/file_sink.cc:20-28 | From no files, every backup holds at least the rotation size, and less than that plus one line if no due rotation failed |
| FileSinks.BackupsKept | lib_logger/src/sinks/file_sink.cc:49-78 | From no files, if no due rotation failed, the backups are exactly those numbered 1 to the smaller of rotations and slots, and the log holds at least that many times the rotation size |
| FileSinks.CurrentStaysSmall | lib_logger/src/sinks/file_sink.cc:20-28 | With no rotation size nothing ever rotates; with one, if no due rotation failed, the current file stays below it and one line |
| FileSinks.RotationGoesThrough | lib_logger/src/sinks/file_sink.cc:49-77 | A rotation goes through whenever its file operations can, which are at most one more than the slots |
| FileSinks.RotationFailsCleanly | lib_logger/src/sinks/file_sink.cc:53-76 | One whose first operation fails changes no file |
| FileSinks.RotateKeepsSuffix | lib_logger/src/sinks/file_sink.cc:49-77 | One rotation, complete or cut short anywhere, keeps the log except for the last slot's content |
| FileSinks.ShiftKeepsLog | lib_logger/src/sinks/file_sink.cc:62-69 | The rename loop keeps the concatenation and frees slot 1 |
| FileSinks.FileSink.WriteLine | lib_logger/src/sinks/file_sink.cc:18-29 | The object's write |
| FileSinks.FileSink.RotateFiles | lib_logger/src/sinks/file_sink.cc:49-78 | Rotation and reopening |
| FileSinks.FileSink.RenameAll | lib_logger/src/sinks/file_sink.cc:53-76 | The removal and the rename loop, stopping where an operation fails |
| Bytes.FeedIsOneDelivery | lib_network/src/connection.cc:191-196 | A receiver indifferent to one cut ends, for every chunking, where one delivery would have left it |

## Left out

- Sockets, epoll, eventfd and files themselves: modelled by scripts of answers, a counter and a map from names to contents.
- TLS: `SSL_read`, `SSL_write`, the handshaking state and `SetSsl`; only the plain socket path is modelled.
- Connection's rate limiter: no code sets it.
- Connections.Connection.HandleError: the connect callback that reports a failure is taken not to call back before the close that follows it; all other callbacks may do anything, as events of the run.
- An `epoll_ctl` that fails on a registered descriptor.
- Connections.HalfClosedIff: assumes no further Connect on the same object, which would make a new shutdown possible.
- Buffer: move construction and assignment, the destructor's return of the store, and appending a buffer's own bytes to itself.
- HTTP/2 streams' own buffers are kept as the bytes appended to them; control frames are ignored by the code, and so here.
- SharedSession.RaceArrivesIff: two session calls after the preface, a being the one whose header goes first. Of longer conversations only back-to-back calls are treated (`EndToEnd.AllThatWasSentArrives`).
- Hpack.HeadersRoundTrip: decodes no Huffman strings and no dynamic table, which the encoder never produces; strings from 2^32 bytes are covered by `Hpack.StringReadsBackIff`.
- Protobuf: payloads are the serialized bytes; what a parsed envelope makes a handler answer, and the responses it sends, are left out, as is TCP raw mode.
- RPC framing: the TCP framing again, without the cap.
- WebSocket upgrade handshake, the limiter's close, and one handler shared by several connections (its upgrade flag and parser are per handler).
- HTTP responses, the chunked writer, the client's response reader, and requests after the first on a connection (the context is never reset, so later bytes stay in the buffer). Http.HandledOnceIff counts handlings as long as the handler leaves the connection connected.
- HTTP metadata is taken as a list in printing order; its order and distinct keys come from a protobuf map, which is not part of this model.
- AsyncLoggers: changing the overflow policy while running, sinks that throw, flushing and clearing sinks, and DISCARD_OLDEST with a queue size of 0, where the code pops an empty queue, which is undefined.
- AsyncLoggers.ShutdownDeliversEverythingIff: for a queue size of at least 1; with 0 no entry is ever accepted.
- WebSocketReads.EverythingArrivesIff: supposes that the reads before the last frame end safely; `WebSocketReads.UnsafeReadsCanAgree` shows that otherwise the outcome depends on the bytes, and `WebSocketReads.HarmlessIff` is the condition without that supposition.
- Producers blocked in the logger's queue: whether they ever wake is not claimed (Shutdown notifies only the worker).
- FileSinks: log formatting, and opening the log file when opening fails.
- FileSinks.BackupSizes: states the upper bound for runs in which every due rotation went through, because a failed rotation lets the current file grow on.
- TokenBuckets.GrantsBounded: over exact reals, so not the rounding of doubles, and for amounts that are not negative (see `TokenBuckets.ConsumeKeepsValidIff`).
- The per-address connection counts of the request limiter, which never fall.
- Reactor registry, circuit breaker, object pool, log manager, tracing, metrics, order manager, configuration strings: they would add only easy members.
