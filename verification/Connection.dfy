/** lib_network/src/connection.cc on a plain socket: outbound buffering, write
    interest and teardown. The kernel's answers to write(2) and read(2) are a
    script the connection plays through, so a statement about every script is a
    statement about every kernel; an exhausted script answers "would block". */
module Connections {
  import opened Bytes
  import opened Memory

  datatype State = Connecting | Connected | Disconnecting | Disconnected

  type Positive = n: int | 0 < n witness 1

  /** Took(n) is a write that accepts n bytes, or all of them if fewer are offered. */
  datatype WriteAnswer = Took(n: Positive) | WriteBlocks | WriteFails

  /** Got([]) is the end of the stream. */
  datatype ReadAnswer = Got(data: bytes) | ReadBlocks | ReadFails

  datatype ConnectAnswer = Immediate | InProgress | Refused

  datatype Conn = Conn(
    state: State,
    open: bool,                  // fd_ >= 0
    registered: Option<bool>,    // the event loop's handler for fd_: is EPOLLOUT wanted?
    input: bytes,
    received: bytes,             // bytes the kernel has delivered
    output: bytes,
    wire: bytes,                 // bytes the kernel has accepted
    writeScript: seq<WriteAnswer>,
    readScript: seq<ReadAnswer>,
    halfClosed: bool,            // shutdown(fd_, SHUT_WR) was called
    attempts: nat,               // calls of Connect
    notified: seq<bool>,         // arguments of the connect callback
    closes: nat,                 // calls of close(fd_)
    disconnects: nat             // calls of the disconnect callback
  )

  /** A client's connection before Connect, or an accepted one (SetConnected). */
  function Fresh(accepted: bool, writeScript: seq<WriteAnswer>, readScript: seq<ReadAnswer>): Conn {
    Conn(if accepted then Connected else Disconnected, true, None, [], [], [], [], writeScript, readScript,
         false, 0, [], 0, 0)
  }

  // ---- The event loop's view of the descriptor ----

  /** EventLoop::AddFd: refused for a closed or an already registered descriptor. */
  function Register(c: Conn, write: bool): Conn {
    if c.open && c.registered.None? then c.(registered := Some(write)) else c
  }

  /** EventLoop::ModifyFd: fails, and is ignored, if the descriptor is not registered. */
  function Modify(c: Conn, write: bool): Conn {
    if c.registered.Some? then c.(registered := Some(write)) else c
  }

  // ---- Handlers ----

  function Close(c: Conn): Conn {
    if c.state.Disconnected? then c
    else c.(state := Disconnected, registered := None, open := false,
            closes := if c.open then c.closes + 1 else c.closes,
            disconnects := c.disconnects + 1)
  }

  function Error(c: Conn): Conn {
    if c.state.Disconnected? then c
    else Close(if c.state.Connecting? then c.(notified := c.notified + [false]) else c)
  }

  function NextWrite(writeScript: seq<WriteAnswer>): WriteAnswer {
    if writeScript == [] then WriteBlocks else writeScript[0]
  }

  function NextRead(readScript: seq<ReadAnswer>): ReadAnswer {
    if readScript == [] then ReadBlocks else readScript[0]
  }

  function Rest<T>(s: seq<T>): seq<T> { if s == [] then [] else s[1..] }

  /** Offers the first `len` bytes of the output buffer to the kernel once. */
  function WriteOnce(c: Conn, len: nat): Conn
    requires len <= |c.output|
  {
    var answer := NextWrite(c.writeScript);
    var k := if answer.Took? then Min(answer.n, len) else 0;
    c.(writeScript := Rest(c.writeScript), wire := c.wire + c.output[..k], output := c.output[k..])
  }

  /** Connection::Send on the loop thread. */
  function Send(c: Conn, data: bytes): Conn {
    var queued := c.(output := c.output + data);
    var tried := if c.state.Connected? && |queued.output| == |data| then WriteOnce(queued, |data|) else queued;
    if tried.output != [] then Modify(tried, true) else tried
  }

  function Flush(c: Conn): Conn
    decreases |c.output|
  {
    if c.output == [] || c.state.Disconnected? then c
    else match NextWrite(c.writeScript)
      case Took(_) => Flush(WriteOnce(c, |c.output|))
      case WriteBlocks => WriteOnce(c, |c.output|)
      case WriteFails => Error(WriteOnce(c, |c.output|))
  }

  /** HandleWrite's check whether a pending connect went through. */
  function FinishConnect(c: Conn, socketError: bool): Conn {
    if !c.state.Connecting? then c
    else if socketError then Error(c)
    else c.(state := Connected, notified := c.notified + [true])
  }

  /** The rest of it; on a closed connection nothing. */
  function FlushOut(c: Conn): Conn {
    var flushed := Flush(c);
    if flushed.output == [] && !flushed.state.Disconnected? then Modify(flushed, false) else flushed
  }

  /** HandleWrite with a connect callback that leaves the connection alone. */
  function HandleWrite(c: Conn, socketError: bool): Conn { FlushOut(FinishConnect(c, socketError)) }

  /** One turn of HandleRead's loop, up to the message callback. */
  function ReadOnce(c: Conn): Conn {
    if c.state.Disconnected? then c
    else
      var next := c.(readScript := Rest(c.readScript));
      match NextRead(c.readScript)
      case Got(data) =>
        if data == [] then Close(next) else next.(input := c.input + data, received := c.received + data)
      case ReadBlocks => next
      case ReadFails => Error(next)
  }

  /** The turn takes data in, and the loop goes on. */
  predicate ReadsOn(c: Conn) {
    !c.state.Disconnected? && NextRead(c.readScript).Got? && NextRead(c.readScript).data != []
  }

  /** HandleRead with a message callback that leaves the connection alone. */
  function HandleRead(c: Conn): Conn
    decreases |c.readScript|
  {
    if ReadsOn(c) then HandleRead(ReadOnce(c)) else ReadOnce(c)
  }

  /** A protocol retrieves from the input buffer. */
  function Consume(c: Conn, n: nat): Conn { c.(input := c.input[Min(n, |c.input|)..]) }

  function Shutdown(c: Conn): Conn {
    if c.state.Connected? then c.(state := Disconnecting, halfClosed := c.halfClosed || c.output == []) else c
  }

  /** connect(2) on a closed descriptor fails whatever the kernel would answer. */
  function Connect(c: Conn, answer: ConnectAnswer): Conn {
    var tried := c.(attempts := c.attempts + 1);
    if !c.open then tried
    else match answer
      case Immediate => tried.(state := Connected, notified := c.notified + [true])
      case InProgress => tried.(state := Connecting)
      case Refused => tried
  }

  // ---- Runs ----

  datatype Event =
    | DoSend(data: bytes)
    | DoWrite(socketError: bool)
    | DoFinishConnect(socketError: bool)
    | DoFlush
    | DoRead
    | DoReadOnce
    | DoConsume(n: nat)
    | DoClose
    | DoError
    | DoShutdown
    | DoConnect(answer: ConnectAnswer)
    | DoRegister(write: bool)

  function Step(c: Conn, e: Event): Conn {
    match e
    case DoSend(data) => Send(c, data)
    case DoWrite(socketError) => HandleWrite(c, socketError)
    case DoFinishConnect(socketError) => FinishConnect(c, socketError)
    case DoFlush => FlushOut(c)
    case DoRead => HandleRead(c)
    case DoReadOnce => ReadOnce(c)
    case DoConsume(n) => Consume(c, n)
    case DoClose => Close(c)
    case DoError => Error(c)
    case DoShutdown => Shutdown(c)
    case DoConnect(answer) => Connect(c, answer)
    case DoRegister(write) => Register(c, write)
  }

  function Run(c: Conn, events: seq<Event>): Conn
    decreases |events|
  {
    if events == [] then c else Run(Step(c, events[0]), events[1..])
  }

  function SentBy(e: Event): bytes { if e.DoSend? then e.data else [] }

  function Sent(events: seq<Event>): bytes {
    if events == [] then [] else SentBy(events[0]) + Sent(events[1..])
  }

  /** Everything handed to Send so far: what the kernel took and what still waits. */
  function Stream(c: Conn): bytes { c.wire + c.output }

  lemma WriteOnceKeepsStream(c: Conn, len: nat)
    requires len <= |c.output|
    ensures Stream(WriteOnce(c, len)) == Stream(c)
  {
    var answer := NextWrite(c.writeScript);
    var k := if answer.Took? then Min(answer.n, len) else 0;
    assert c.output[..k] + c.output[k..] == c.output;
  }

  lemma {:induction false} FlushKeepsStream(c: Conn)
    ensures Stream(Flush(c)) == Stream(c)
    decreases |c.output|
  {
    if c.output != [] && !c.state.Disconnected? {
      WriteOnceKeepsStream(c, |c.output|);
      if NextWrite(c.writeScript).Took? {
        FlushKeepsStream(WriteOnce(c, |c.output|));
      }
    }
  }

  lemma ReadOnceKeepsOutput(c: Conn)
    ensures Stream(ReadOnce(c)) == Stream(c) && ReadOnce(c).output == c.output
  {
  }

  lemma {:induction false} ReadKeepsOutput(c: Conn)
    ensures Stream(HandleRead(c)) == Stream(c) && HandleRead(c).output == c.output
    decreases |c.readScript|
  {
    ReadOnceKeepsOutput(c);
    if ReadsOn(c) {
      ReadKeepsOutput(ReadOnce(c));
    }
  }

  /** The chunks one HandleRead takes in: those before the first answer that is not data. */
  function Arrivals(script: seq<ReadAnswer>): seq<bytes> {
    if script != [] && script[0].Got? && script[0].data != [] then [script[0].data] + Arrivals(script[1..]) else []
  }

  lemma {:induction false} ReadDelivers(c: Conn)
    requires !c.state.Disconnected?
    ensures HandleRead(c).input == c.input + Flatten(Arrivals(c.readScript))
    decreases |c.readScript|
  {
    if ReadsOn(c) {
      var chunk, rest := NextRead(c.readScript).data, Rest(c.readScript);
      ReadDelivers(ReadOnce(c));
      assert Arrivals(c.readScript) == [chunk] + Arrivals(rest);
      hide Arrivals, HandleRead;
      assert c.input + chunk + Flatten(Arrivals(rest)) == c.input + (chunk + Flatten(Arrivals(rest)));
    }
  }

  lemma SendExtendsStream(c: Conn, data: bytes)
    ensures Stream(Send(c, data)) == Stream(c) + data
  {
    var queued := c.(output := c.output + data);
    assert c.wire + (c.output + data) == c.wire + c.output + data;
    if c.state.Connected? && |queued.output| == |data| {
      WriteOnceKeepsStream(queued, |data|);
    }
    hide WriteOnce;
  }

  lemma FlushOutKeepsStream(c: Conn)
    ensures Stream(FlushOut(c)) == Stream(c)
  {
    FlushKeepsStream(c);
    hide Flush;
  }

  lemma FinishConnectKeepsStream(c: Conn, socketError: bool)
    ensures Stream(FinishConnect(c, socketError)) == Stream(c)
  {
  }

  lemma StepExtendsStream(c: Conn, e: Event)
    ensures Stream(Step(c, e)) == Stream(c) + SentBy(e)
  {
    hide Send, FinishConnect, FlushOut, HandleRead;
    assert Stream(c) + [] == Stream(c);
    match e
    case DoSend(data) => SendExtendsStream(c, data);
    case DoWrite(socketError) =>
      FinishConnectKeepsStream(c, socketError);
      FlushOutKeepsStream(FinishConnect(c, socketError));
    case DoFinishConnect(socketError) => FinishConnectKeepsStream(c, socketError);
    case DoFlush => FlushOutKeepsStream(c);
    case DoRead => ReadKeepsOutput(c);
    case DoReadOnce => ReadOnceKeepsOutput(c);
    case _ =>
  }

  /** Outbound integrity: however sends, partial writes, blocked writes, failures
      and every other handler interleave, the bytes on the wire followed by the
      bytes still buffered are exactly the bytes sent, in order. */
  lemma {:induction false} StreamIsWhatWasSent(c: Conn, events: seq<Event>)
    ensures Stream(Run(c, events)) == Stream(c) + Sent(events)
    decreases |events|
  {
    hide Step, Stream, SentBy;
    if events == [] {
      assert Stream(c) + [] == Stream(c);
    } else {
      var head, rest := SentBy(events[0]), Sent(events[1..]);
      StepExtendsStream(c, events[0]);
      StreamIsWhatWasSent(Step(c, events[0]), events[1..]);
      assert (Stream(c) + head) + rest == Stream(c) + (head + rest);
    }
  }

  /** What holds of every connection from its creation on. */
  ghost predicate Inv(c: Conn) {
    && (!c.open ==> c.state.Disconnected? && c.registered.None?)
    && c.closes == (if c.open then 0 else 1)
    && c.disconnects == c.closes
    && |c.notified| + (if c.state.Connecting? then 1 else 0) <= c.attempts
  }

  /** Once the descriptor is watched: waiting output keeps write interest on. */
  ghost predicate WillFlush(c: Conn) {
    c.open ==> c.registered.Some? && (c.output != [] ==> c.registered.value)
  }

  lemma {:induction false} FlushKeepsInv(c: Conn)
    requires Inv(c)
    ensures Inv(Flush(c))
    ensures WillFlush(c) ==> WillFlush(Flush(c))
    decreases |c.output|
  {
    if c.output != [] && !c.state.Disconnected? && NextWrite(c.writeScript).Took? {
      FlushKeepsInv(WriteOnce(c, |c.output|));
    }
  }

  lemma {:induction false} ReadKeepsInv(c: Conn)
    requires Inv(c)
    ensures Inv(HandleRead(c))
    ensures WillFlush(c) ==> WillFlush(HandleRead(c))
    decreases |c.readScript|
  {
    if ReadsOn(c) {
      ReadKeepsInv(ReadOnce(c));
    }
  }

  lemma FlushOutKeepsInv(c: Conn)
    requires Inv(c)
    ensures Inv(FlushOut(c))
    ensures WillFlush(c) ==> WillFlush(FlushOut(c))
  {
    FlushKeepsInv(c);
    hide Flush;
  }

  lemma FinishConnectKeepsInv(c: Conn, socketError: bool)
    requires Inv(c)
    ensures Inv(FinishConnect(c, socketError))
    ensures WillFlush(c) ==> WillFlush(FinishConnect(c, socketError))
  {
  }

  lemma StepKeepsInv(c: Conn, e: Event)
    requires Inv(c)
    ensures Inv(Step(c, e))
    ensures WillFlush(c) ==> WillFlush(Step(c, e))
  {
    hide FlushOut, FinishConnect, HandleRead;
    match e
    case DoWrite(socketError) =>
      FinishConnectKeepsInv(c, socketError);
      FlushOutKeepsInv(FinishConnect(c, socketError));
    case DoFinishConnect(socketError) =>
      FinishConnectKeepsInv(c, socketError);
    case DoFlush =>
      FlushOutKeepsInv(c);
    case DoRead =>
      ReadKeepsInv(c);
    case _ =>
  }

  lemma {:induction false} RunKeepsInv(c: Conn, events: seq<Event>)
    requires Inv(c)
    ensures Inv(Run(c, events))
    ensures WillFlush(c) ==> WillFlush(Run(c, events))
    decreases |events|
  {
    hide Step, Inv, WillFlush;
    if events == [] {
    } else {
      StepKeepsInv(c, events[0]);
      RunKeepsInv(Step(c, events[0]), events[1..]);
    }
  }

  function Attempts(events: seq<Event>): nat {
    if events == [] then 0 else (if events[0].DoConnect? then 1 else 0) + Attempts(events[1..])
  }

  lemma {:induction false} AttemptsCounted(c: Conn, events: seq<Event>)
    ensures Run(c, events).attempts == c.attempts + Attempts(events)
    decreases |events|
  {
    hide Step;
    if events == [] {
    } else {
      StepCountsAttempts(c, events[0]);
      AttemptsCounted(Step(c, events[0]), events[1..]);
    }
  }

  lemma StepCountsAttempts(c: Conn, e: Event)
    ensures Step(c, e).attempts == c.attempts + if e.DoConnect? then 1 else 0
  {
    hide FlushOut, HandleRead;
    FlushOutKeepsAttempts(if e.DoWrite? then FinishConnect(c, e.socketError) else c);
    ReadKeepsAttempts(c);
  }

  lemma FlushOutKeepsAttempts(c: Conn)
    ensures FlushOut(c).attempts == c.attempts
  {
    FlushKeepsAttempts(c);
    hide Flush;
  }

  lemma {:induction false} FlushKeepsAttempts(c: Conn)
    ensures Flush(c).attempts == c.attempts
    decreases |c.output|
  {
    if c.output != [] && !c.state.Disconnected? && NextWrite(c.writeScript).Took? {
      FlushKeepsAttempts(WriteOnce(c, |c.output|));
    }
  }

  lemma {:induction false} ReadKeepsAttempts(c: Conn)
    ensures HandleRead(c).attempts == c.attempts
    decreases |c.readScript|
  {
    if ReadsOn(c) {
      ReadKeepsAttempts(ReadOnce(c));
    }
  }

  /** Teardown happens once: over any run the socket is closed at most once, the
      disconnect callback fires exactly as often, and the connect callback fires
      at most once per call of Connect. */
  lemma TeardownOnce(accepted: bool, writeScript: seq<WriteAnswer>, readScript: seq<ReadAnswer>, events: seq<Event>)
    ensures
      var c := Run(Fresh(accepted, writeScript, readScript), events);
      && c.closes <= 1
      && c.disconnects == c.closes
      && |c.notified| <= Attempts(events)
      && (c.closes == 1 ==> c.state.Disconnected? && c.registered.None?)
  {
    RunKeepsInv(Fresh(accepted, writeScript, readScript), events);
    AttemptsCounted(Fresh(accepted, writeScript, readScript), events);
  }

  /** Registration is what makes flushing safe or not: the descriptor must be
      registered with write interest or with nothing yet to write. */
  lemma RegistrationDecides(c: Conn, write: bool)
    requires Inv(c) && c.open && c.registered.None?
    ensures WillFlush(Register(c, write)) <==> write || c.output == []
  {
  }

  /** From a sound registration on, no run of handlers leaves output waiting on a
      live connection without write interest. */
  lemma NothingIsStranded(c: Conn, write: bool, events: seq<Event>)
    requires Inv(c) && c.open && c.registered.None?
    requires write || c.output == []
    ensures
      var d := Run(Register(c, write), events);
      !d.state.Disconnected? && d.output != [] ==> d.registered == Some(true)
  {
    RunKeepsInv(Register(c, write), events);
  }

  // ---- Inbound ----

  function Delivered(script: seq<ReadAnswer>): bytes {
    if script == [] then [] else (if script[0].Got? then script[0].data else []) + Delivered(script[1..])
  }

  lemma {:induction false} DeliveredAppend(a: seq<ReadAnswer>, b: seq<ReadAnswer>)
    ensures Delivered(a + b) == Delivered(a) + Delivered(b)
  {
    if a == [] {
      assert a + b == b;
    } else {
      var head := if a[0].Got? then a[0].data else [];
      assert (a + b)[0] == a[0] && (a + b)[1..] == a[1..] + b;
      DeliveredAppend(a[1..], b);
      hide Delivered;
      assert head + (Delivered(a[1..]) + Delivered(b)) == head + Delivered(a[1..]) + Delivered(b);
    }
  }

  /** From c to d the kernel's answers up to d's were used up, and their data received. */
  ghost predicate Receives(c: Conn, d: Conn) {
    var k := |c.readScript| - |d.readScript|;
    && 0 <= k && d.readScript == c.readScript[k..]
    && d.received == c.received + Delivered(c.readScript[..k])
  }

  /** What a protocol has not retrieved yet is the end of what was received. */
  ghost predicate Unread(c: Conn) {
    |c.input| <= |c.received| && c.received[|c.received| - |c.input|..] == c.input
  }

  lemma ReceivesTrans(c: Conn, d: Conn, e: Conn)
    requires Receives(c, d) && Receives(d, e)
    ensures Receives(c, e)
  {
    var k, m := |c.readScript| - |d.readScript|, |d.readScript| - |e.readScript|;
    DeliveredAppend(c.readScript[..k], d.readScript[..m]);
    hide Delivered;
    assert c.readScript[..k] + d.readScript[..m] == c.readScript[..k + m];
    assert d.readScript[m..] == c.readScript[k + m..];
  }

  lemma ReceivesNothing(c: Conn, d: Conn)
    requires d.readScript == c.readScript && d.received == c.received
    ensures Receives(c, d)
  {
    assert c.readScript[..0] == [] && c.readScript[0..] == c.readScript;
    assert c.received + [] == c.received;
  }

  /** The data of one turn. */
  function Chunk(c: Conn): bytes {
    if !c.state.Disconnected? && NextRead(c.readScript).Got? then NextRead(c.readScript).data else []
  }

  lemma ReadOnceAdds(c: Conn)
    ensures ReadOnce(c).readScript == if c.state.Disconnected? then c.readScript else Rest(c.readScript)
    ensures ReadOnce(c).received == c.received + Chunk(c) && ReadOnce(c).input == c.input + Chunk(c)
  {
    assert c.received + [] == c.received && c.input + [] == c.input;
  }

  lemma ReadOnceReceives(c: Conn)
    ensures Receives(c, ReadOnce(c))
    ensures Unread(c) ==> Unread(ReadOnce(c))
  {
    ReadOnceAdds(c);
    if Unread(c) {
      UnreadGrows(c.received, c.input, Chunk(c));
    }
    hide ReadOnce;
    if c.state.Disconnected? || c.readScript == [] {
      assert c.received + [] == c.received;
      ReceivesNothing(c, ReadOnce(c));
    } else {
      OneDelivered(c.readScript, Chunk(c));
      hide Delivered, Chunk;
    }
  }

  lemma OneDelivered(script: seq<ReadAnswer>, data: bytes)
    requires script != [] && data == if script[0].Got? then script[0].data else []
    ensures Delivered(script[..1]) == data && script[1..] == Rest(script)
  {
    assert script[..1][1..] == [];
    assert data + [] == data;
  }

  lemma UnreadGrows(received: bytes, input: bytes, data: bytes)
    requires |input| <= |received| && received[|received| - |input|..] == input
    ensures (received + data)[|received + data| - |input + data|..] == input + data
  {
  }

  lemma {:induction false} ReadReceives(c: Conn)
    ensures Receives(c, HandleRead(c))
    ensures Unread(c) ==> Unread(HandleRead(c))
    decreases |c.readScript|
  {
    hide Receives, Unread;
    ReadOnceReceives(c);
    if ReadsOn(c) {
      ReadReceives(ReadOnce(c));
      ReceivesTrans(c, ReadOnce(c), HandleRead(ReadOnce(c)));
    }
  }

  lemma {:induction false} FlushKeepsInput(c: Conn)
    ensures Flush(c).readScript == c.readScript && Flush(c).received == c.received && Flush(c).input == c.input
    decreases |c.output|
  {
    if c.output != [] && !c.state.Disconnected? && NextWrite(c.writeScript).Took? {
      FlushKeepsInput(WriteOnce(c, |c.output|));
    }
  }

  /** Whether the event reads from the kernel. */
  predicate Reads(e: Event) { e.DoRead? || e.DoReadOnce? }

  lemma FlushOutKeepsInput(c: Conn)
    ensures
      var d := FlushOut(c);
      d.readScript == c.readScript && d.received == c.received && d.input == c.input
  {
    FlushKeepsInput(c);
    hide Flush;
  }

  lemma OutboundKeepsInput(c: Conn, e: Event)
    requires !Reads(e)
    ensures Step(c, e).readScript == c.readScript && Step(c, e).received == c.received
    ensures !e.DoConsume? ==> Step(c, e).input == c.input
  {
    hide FlushOut;
    FlushOutKeepsInput(if e.DoWrite? then FinishConnect(c, e.socketError) else c);
  }

  lemma StepReceives(c: Conn, e: Event)
    ensures Receives(c, Step(c, e))
    ensures Unread(c) ==> Unread(Step(c, e))
  {
    hide HandleRead, HandleWrite, FlushOut, FinishConnect, Send, ReadOnce, Receives;
    match e
    case DoRead => ReadReceives(c);
    case DoReadOnce => ReadOnceReceives(c);
    case DoConsume(n) => ReceivesNothing(c, Consume(c, n));
    case _ =>
      OutboundKeepsInput(c, e);
      ReceivesNothing(c, Step(c, e));
  }

  /** Inbound integrity: over every run, what was received is the data of the kernel's
      answers so far, in order, and what has not been retrieved yet is the end of it,
      whatever the protocols retrieve and the message callbacks do between two reads. */
  lemma {:induction false} ReceivedIsWhatArrived(c: Conn, events: seq<Event>)
    ensures Receives(c, Run(c, events))
    ensures Unread(c) ==> Unread(Run(c, events))
    decreases |events|
  {
    hide Step, Receives, Unread;
    if events == [] {
      ReceivesNothing(c, c);
    } else {
      StepReceives(c, events[0]);
      ReceivedIsWhatArrived(Step(c, events[0]), events[1..]);
      ReceivesTrans(c, Step(c, events[0]), Run(c, events));
    }
  }

  // ---- Progress ----

  /** What the kernel takes before it first blocks or fails. */
  function Takes(script: seq<WriteAnswer>): nat {
    if script != [] && script[0].Took? then script[0].n + Takes(script[1..]) else 0
  }

  lemma {:induction false} FlushEmptiesIff(c: Conn)
    requires !c.state.Disconnected?
    ensures Flush(c).output == [] <==> |c.output| <= Takes(c.writeScript)
    ensures Flush(c).output == [] ==> Flush(c).state == c.state && Flush(c).registered == c.registered
    decreases |c.output|
  {
    if c.output != [] && NextWrite(c.writeScript).Took? {
      FlushEmptiesIff(WriteOnce(c, |c.output|));
    }
  }

  /** A write event empties the output buffer if and only if the kernel takes as much
      as is waiting before it blocks or fails; the bytes are then on the wire, and the
      descriptor is no longer watched for writing. */
  lemma WriteEventEmptiesIff(c: Conn)
    requires !c.state.Disconnected? && c.registered.Some?
    ensures
      var d := HandleWrite(c, false);
      && (d.output == [] <==> |c.output| <= Takes(c.writeScript))
      && (d.output == [] ==> d.registered == Some(false) && d.wire == c.wire + c.output)
  {
    var up := FinishConnect(c, false);
    FlushEmptiesIff(up);
    FlushKeepsStream(up);
    hide Flush;
    assert Flush(up).wire + [] == Flush(up).wire;
  }

  // ---- Callbacks ----

  /** HandleWrite with a connect callback that does `reaction` when the connect went through. */
  function WriteWith(c: Conn, socketError: bool, reaction: seq<Event>): Conn {
    var up := FinishConnect(c, socketError);
    FlushOut(if c.state.Connecting? && !socketError then Run(up, reaction) else up)
  }

  /** HandleRead with a message callback that does reactions[k] after the k-th chunk, and
      nothing after those. */
  function ReadWith(c: Conn, reactions: seq<seq<Event>>): Conn
    decreases |reactions|
  {
    if !ReadsOn(c) || reactions == [] then HandleRead(c)
    else ReadWith(Run(ReadOnce(c), reactions[0]), reactions[1..])
  }

  lemma ReadWithStep(c: Conn, reactions: seq<seq<Event>>)
    ensures
      ReadWith(c, reactions) ==
      if !ReadsOn(c) then ReadOnce(c)
      else if reactions == [] then ReadWith(ReadOnce(c), [])
      else ReadWith(Run(ReadOnce(c), reactions[0]), reactions[1..])
  {
    hide Run, ReadOnce;
  }

  lemma {:induction false} RunAppend(c: Conn, a: seq<Event>, b: seq<Event>)
    ensures Run(c, a + b) == Run(Run(c, a), b)
    decreases |a|
  {
    hide Step;
    if a == [] {
      assert a + b == b;
    } else {
      assert (a + b)[0] == a[0] && (a + b)[1..] == a[1..] + b;
      RunAppend(Step(c, a[0]), a[1..], b);
    }
  }

  lemma RunOne(c: Conn, e: Event)
    ensures Run(c, [e]) == Step(c, e)
  {
    assert [e][1..] == [];
  }

  /** A write event with any callback is a run of events. */
  lemma WriteWithIsRun(c: Conn, socketError: bool, reaction: seq<Event>) returns (events: seq<Event>)
    ensures WriteWith(c, socketError, reaction) == Run(c, events)
  {
    var first := DoFinishConnect(socketError);
    var middle := if c.state.Connecting? && !socketError then reaction else [];
    events := [first] + (middle + [DoFlush]);
    RunAppend(c, [first], middle + [DoFlush]);
    RunOne(c, first);
    RunAppend(FinishConnect(c, socketError), middle, [DoFlush]);
    RunOne(Run(FinishConnect(c, socketError), middle), DoFlush);
  }

  /** And so is a read event: what holds over every run holds with callbacks. */
  lemma {:induction false} ReadWithIsRun(c: Conn, reactions: seq<seq<Event>>) returns (events: seq<Event>)
    ensures ReadWith(c, reactions) == Run(c, events)
    decreases |reactions|
  {
    hide Step;
    if !ReadsOn(c) || reactions == [] {
      events := [DoRead];
      RunOne(c, DoRead);
      StepIsRead(c);
    } else {
      var next := Run(ReadOnce(c), reactions[0]);
      var rest := ReadWithIsRun(next, reactions[1..]);
      events := [DoReadOnce] + (reactions[0] + rest);
      RunAppend(c, [DoReadOnce], reactions[0] + rest);
      RunOne(c, DoReadOnce);
      StepIsRead(c);
      RunAppend(ReadOnce(c), reactions[0], rest);
    }
  }

  lemma StepIsRead(c: Conn)
    ensures Step(c, DoRead) == HandleRead(c) && Step(c, DoReadOnce) == ReadOnce(c)
  {
  }

  // ---- What a read event hands on ----

  ghost predicate ReadNothing(events: seq<Event>) { forall e <- events :: !Reads(e) }

  lemma {:induction false} RunKeepsReads(c: Conn, events: seq<Event>)
    requires ReadNothing(events)
    ensures Run(c, events).readScript == c.readScript && Run(c, events).received == c.received
    decreases |events|
  {
    hide Step, Reads;
    if events == [] {
    } else {
      assert events[0] in events;
      OutboundKeepsInput(c, events[0]);
      RunKeepsReads(Step(c, events[0]), events[1..]);
    }
  }

  /** How many chunks the event takes in. */
  function Turns(c: Conn, reactions: seq<seq<Event>>): nat
    decreases |reactions|
  {
    if !ReadsOn(c) then 0
    else if reactions == [] then |Arrivals(c.readScript)|
    else 1 + Turns(Run(ReadOnce(c), reactions[0]), reactions[1..])
  }

  lemma {:induction false} ReadReceivesAll(c: Conn)
    requires !c.state.Disconnected?
    ensures HandleRead(c).received == c.received + Flatten(Arrivals(c.readScript))
    decreases |c.readScript|
  {
    if ReadsOn(c) {
      var chunk, rest := NextRead(c.readScript).data, Rest(c.readScript);
      ReadReceivesAll(ReadOnce(c));
      assert Arrivals(c.readScript) == [chunk] + Arrivals(rest);
      hide Arrivals, HandleRead;
      Assoc(c.received, chunk, Flatten(Arrivals(rest)));
    }
  }

  /** A read event, whatever its callbacks do short of reading themselves, takes in the
      chunks before the first answer that is not data, in order: all of them, unless a
      callback has closed the connection. */
  lemma {:induction false} ReadEventDelivers(c: Conn, reactions: seq<seq<Event>>)
    requires forall r <- reactions :: ReadNothing(r)
    ensures
      var d, chunks, k := ReadWith(c, reactions), Arrivals(c.readScript), Turns(c, reactions);
      && k <= |chunks| && d.received == c.received + Flatten(chunks[..k])
      && (k < |chunks| ==> d.state.Disconnected?)
    decreases |reactions|
  {
    hide Run, ReadNothing;
    var chunks := Arrivals(c.readScript);
    if !ReadsOn(c) {
      NothingRead(c);
      assert chunks[..0] == [] && c.received + [] == c.received;
    } else if reactions == [] {
      ReadReceivesAll(c);
      assert chunks[..|chunks|] == chunks;
    } else {
      var chunk, rest := chunks[0], chunks[1..];
      var next := Run(ReadOnce(c), reactions[0]);
      assert reactions[0] in reactions;
      RunKeepsReads(ReadOnce(c), reactions[0]);
      assert Arrivals(next.readScript) == rest && chunk == NextRead(c.readScript).data;
      ReadEventDelivers(next, reactions[1..]);
      var k := Turns(next, reactions[1..]);
      TakenChunks(c.received, chunks, k);
    }
  }

  lemma TakenChunks(received: bytes, chunks: seq<bytes>, k: nat)
    requires k < |chunks|
    ensures received + chunks[0] + Flatten(chunks[1..][..k]) == received + Flatten(chunks[..k + 1])
  {
    assert chunks[..k + 1][1..] == chunks[1..][..k];
    Assoc(received, chunks[0], Flatten(chunks[1..][..k]));
  }

  lemma NothingRead(c: Conn)
    requires !ReadsOn(c)
    ensures HandleRead(c).received == c.received
    ensures Arrivals(c.readScript) != [] ==> HandleRead(c).state.Disconnected?
  {
  }

  /** The first answer that is not data is neither the end of the stream nor a failure. */
  predicate BlocksFirst(script: seq<ReadAnswer>) {
    script == [] || script[0].ReadBlocks? || (script[0].Got? && script[0].data != [] && BlocksFirst(script[1..]))
  }

  /** The server has no message callback: it calls the protocol once, after the whole
      read event, if the connection is connected then. */
  predicate ServerDispatches(c: Conn) { HandleRead(c).state.Connected? }

  /** So what a read event took in is handed on if and only if the connection was
      connected before and the kernel blocked before it reported an end or a failure. */
  lemma {:induction false} ServerDispatchesIff(c: Conn)
    ensures ServerDispatches(c) <==> c.state.Connected? && BlocksFirst(c.readScript)
    decreases |c.readScript|
  {
    if ReadsOn(c) {
      ServerDispatchesIff(ReadOnce(c));
    }
  }

  lemma FlushOutNeverOpens(c: Conn)
    requires Inv(c) && !c.open
    ensures FlushOut(c) == c
  {
  }

  lemma StepNeverOpens(c: Conn, e: Event)
    requires Inv(c) && !c.open
    ensures !Step(c, e).open
  {
    hide FlushOut;
    FlushOutNeverOpens(c);
  }

  /** Otherwise the data is never handed on: from a close on, over every run, no read
      event dispatches anything. */
  lemma {:induction false} NothingDispatchedOnceClosed(c: Conn, events: seq<Event>)
    requires Inv(c) && !c.open
    ensures !Run(c, events).open && !ServerDispatches(Run(c, events))
    decreases |events|
  {
    hide Step;
    if events == [] {
    } else {
      StepKeepsInv(c, events[0]);
      StepNeverOpens(c, events[0]);
      NothingDispatchedOnceClosed(Step(c, events[0]), events[1..]);
    }
  }

  // ---- Half-close ----

  /** Past Shutdown, and with no further Connect, the state only moves to closed and
      nothing half-closes the socket any more. */
  ghost predicate Leaving(c: Conn, halfClosed: bool) {
    (c.state.Disconnecting? || c.state.Disconnected?) && c.halfClosed == halfClosed
  }

  lemma {:induction false} FlushKeepsLeaving(c: Conn, halfClosed: bool)
    requires Leaving(c, halfClosed)
    ensures Leaving(Flush(c), halfClosed)
    decreases |c.output|
  {
    if c.output != [] && !c.state.Disconnected? && NextWrite(c.writeScript).Took? {
      FlushKeepsLeaving(WriteOnce(c, |c.output|), halfClosed);
    }
  }

  lemma {:induction false} ReadKeepsLeaving(c: Conn, halfClosed: bool)
    requires Leaving(c, halfClosed)
    ensures Leaving(HandleRead(c), halfClosed)
    decreases |c.readScript|
  {
    if ReadsOn(c) {
      ReadKeepsLeaving(ReadOnce(c), halfClosed);
    }
  }

  lemma StepKeepsLeaving(c: Conn, e: Event, halfClosed: bool)
    requires Leaving(c, halfClosed) && !e.DoConnect?
    ensures Leaving(Step(c, e), halfClosed)
  {
    FlushKeepsLeaving(c, halfClosed);
    ReadKeepsLeaving(c, halfClosed);
    assert FinishConnect(c, false) == c && FinishConnect(c, true) == c;
    hide Flush, HandleRead, FinishConnect;
  }

  lemma {:induction false} RunKeepsLeaving(c: Conn, events: seq<Event>, halfClosed: bool)
    requires Leaving(c, halfClosed) && Attempts(events) == 0
    ensures Leaving(Run(c, events), halfClosed)
    decreases |events|
  {
    hide Step, Leaving;
    if events == [] {
    } else {
      StepKeepsLeaving(c, events[0], halfClosed);
      RunKeepsLeaving(Step(c, events[0]), events[1..], halfClosed);
    }
  }

  /** From Shutdown on, whether or not the connection has closed yet, no read event of a
      connection that is not connected again hands anything to the protocol. */
  lemma NothingDispatchedPastShutdown(c: Conn, events: seq<Event>)
    requires c.state.Disconnecting? || c.state.Disconnected?
    requires Attempts(events) == 0
    ensures !ServerDispatches(Run(c, events))
  {
    RunKeepsLeaving(c, events, c.halfClosed);
    ServerDispatchesIff(Run(c, events));
  }

  /** Shutdown half-closes at once or never: with output still waiting it leaves the
      half-close to nobody, however much of the output is flushed afterwards. */
  lemma HalfClosedIff(c: Conn, events: seq<Event>)
    requires c.state.Connected? && !c.halfClosed && Attempts(events) == 0
    ensures Run(Shutdown(c), events).halfClosed <==> c.output == []
  {
    RunKeepsLeaving(Shutdown(c), events, c.output == []);
  }

  // ---- The object ----

  class Connection {
    var state: State
    var open: bool
    var registered: Option<bool>
    const input: Buffer
    ghost var received: bytes
    const output: Buffer
    var wire: bytes
    var writeScript: seq<WriteAnswer>
    var readScript: seq<ReadAnswer>
    var halfClosed: bool
    var attempts: nat
    var notified: seq<bool>
    var closes: nat
    var disconnects: nat

    ghost function Repr(): set<object>
      reads this, input, output
    {
      {this, input, output, input.store, output.store}
    }

    ghost predicate Valid()
      reads this, input, output, input.store, output.store
    {
      input != output && input.store != output.store && input.Valid() && output.Valid()
    }

    ghost function View(): Conn
      requires Valid()
      reads this, input, output, input.store, output.store
    {
      Conn(state, open, registered, input.Contents(), received, output.Contents(), wire, writeScript, readScript,
           halfClosed, attempts, notified, closes, disconnects)
    }

    constructor (pool: BufferPool, accepted: bool, writeScript: seq<WriteAnswer>, readScript: seq<ReadAnswer>)
      requires pool.Valid()
      modifies pool
      ensures pool.Valid() && Valid() && fresh(Repr())
      ensures View() == Fresh(accepted, writeScript, readScript)
    {
      var i := new Buffer(pool, 1024);
      var o := new Buffer(pool, 1024);
      input, output := i, o;
      state := if accepted then Connected else Disconnected;
      open, registered, received, wire := true, None, [], [];
      this.writeScript, this.readScript := writeScript, readScript;
      halfClosed, attempts, notified, closes, disconnects := false, 0, [], 0, 0;
    }

    method ModifyFd(write: bool)
      requires Valid()
      modifies `registered
      ensures Valid() && View() == Modify(old(View()), write)
    {
      if registered.Some? {
        registered := Some(write);
      }
    }

    method HandleClose()
      requires Valid()
      modifies this
      ensures Valid() && View() == Close(old(View()))
    {
      if state.Disconnected? {
        return;
      }
      state := Disconnected;
      registered := None;
      if open {
        closes := closes + 1;
        open := false;
      }
      disconnects := disconnects + 1;
    }

    method HandleError()
      requires Valid()
      modifies this
      ensures Valid() && View() == Error(old(View()))
    {
      if state.Disconnected? {
        return;
      }
      if state.Connecting? {
        notified := notified + [false];
      }
      HandleClose();
    }

    /** write(2): accepts a prefix of `data`, or nothing. */
    method Write(data: bytes) returns (answer: WriteAnswer, written: nat)
      requires Valid()
      modifies `writeScript, `wire
      ensures Valid()
      ensures answer == NextWrite(old(writeScript)) && writeScript == Rest(old(writeScript))
      ensures written == if answer.Took? then Min(answer.n, |data|) else 0
      ensures wire == old(wire) + data[..written]
      ensures View() == old(View()).(writeScript := writeScript, wire := wire)
    {
      if writeScript == [] {
        return WriteBlocks, 0;
      }
      answer := writeScript[0];
      writeScript := writeScript[1..];
      written := if answer.Took? then Min(answer.n, |data|) else 0;
      wire := wire + data[..written];
    }

    /** Appends first, then writes straight from `data` if nothing was waiting. */
    method SendBytes(data: bytes)
      requires Valid()
      modifies this, output, output.store
      ensures Valid() && View() == Send(old(View()), data)
      ensures output.store == old(output.store) || fresh(output.store)
      ensures input.store == old(input.store)
    {
      output.Append(data);
      if state.Connected? {
        if output.ReadableBytes() == |data| {
          assert output.Contents() == data;
          WriteThrough(data);
        }
      }
      if output.ReadableBytes() > 0 {
        ModifyFd(true);
      }
    }

    /** Writes `data`, which the output buffer holds too, and retrieves what was taken. */
    method WriteThrough(data: bytes)
      requires Valid() && output.Contents() == data
      modifies this, output`reader, output`writer
      ensures Valid() && View() == WriteOnce(old(View()), |data|)
    {
      var answer, written := Write(data);
      if written > 0 {
        output.Retrieve(written);
      }
    }

    /** AddFd, refused for a closed or an already registered descriptor. */
    method AddFd(write: bool)
      requires Valid()
      modifies `registered
      ensures Valid() && View() == Register(old(View()), write)
    {
      if open && registered.None? {
        registered := Some(write);
      }
    }

    /** HandleWrite; `reaction` is what its connect callback does. */
    method HandleWriteEvent(socketError: bool, reaction: seq<Event>)
      requires Valid()
      modifies this, input, output, input.store, output.store
      ensures Valid() && View() == WriteWith(old(View()), socketError, reaction)
    {
      hide FinishConnect, FlushOut, Run;
      var completed := FinishConnecting(socketError);
      if completed {
        Play(reaction);
      }
      FlushEvent();
    }

    method FinishConnecting(socketError: bool) returns (completed: bool)
      requires Valid()
      modifies this
      ensures Valid() && View() == FinishConnect(old(View()), socketError)
      ensures completed == (old(state).Connecting? && !socketError)
    {
      completed := false;
      if state.Connecting? {
        if socketError {
          HandleError();
        } else {
          state := Connected;
          notified := notified + [true];
          completed := true;
        }
      }
    }

    method FlushEvent()
      requires Valid()
      modifies this, output
      ensures Valid() && View() == FlushOut(old(View()))
      ensures input.store == old(input.store) && output.store == old(output.store)
    {
      FlushOutput();
      if output.ReadableBytes() == 0 && !state.Disconnected? {
        ModifyFd(false);
      }
    }

    /** HandleWrite's write loop. */
    method FlushOutput()
      requires Valid()
      modifies this, output
      ensures Valid() && View() == Flush(old(View()))
      ensures input.store == old(input.store) && output.store == old(output.store)
    {
      ghost var target := Flush(View());
      while output.ReadableBytes() > 0 && !state.Disconnected?
        invariant Valid() && Flush(View()) == target
        invariant input.store == old(input.store) && output.store == old(output.store)
        decreases output.ReadableBytes()
      {
        var answer, written := Write(output.Peek());
        if written > 0 {
          output.Retrieve(written);
        } else if answer.WriteBlocks? {
          break;
        } else {
          HandleError();
          break;
        }
      }
    }

    /** HandleRead; reactions[k] is what the message callback does after the k-th chunk. */
    method HandleReadEvent(reactions: seq<seq<Event>>)
      requires Valid()
      modifies this, input, output, input.store, output.store
      ensures Valid() && View() == ReadWith(old(View()), reactions)
    {
      hide ReadOnce, Run;
      ghost var target := ReadWith(View(), reactions);
      var more, k := true, 0;
      while more
        invariant Valid() && k <= |reactions|
        invariant (if more then ReadWith(View(), reactions[k..]) else View()) == target
        invariant input.store == old(input.store) || fresh(input.store)
        invariant output.store == old(output.store) || fresh(output.store)
        decreases more, |reactions| - k, |readScript|
      {
        ghost var c := View();
        more := ReadChunk();
        ReadWithStep(c, reactions[k..]);
        if more && k < |reactions| {
          assert reactions[k..][1..] == reactions[k + 1..];
          Play(reactions[k]);
          k := k + 1;
        }
      }
    }

    /** Any run of handlers on the object is the run of their specifications. */
    method Play(events: seq<Event>)
      requires Valid()
      modifies this, input, output, input.store, output.store
      ensures Valid() && View() == Run(old(View()), events)
      ensures input.store == old(input.store) || fresh(input.store)
      ensures output.store == old(output.store) || fresh(output.store)
    {
      hide Step;
      ghost var target := Run(View(), events);
      for k := 0 to |events|
        invariant Valid() && Run(View(), events[k..]) == target
        invariant input.store == old(input.store) || fresh(input.store)
        invariant output.store == old(output.store) || fresh(output.store)
      {
        assert events[k..][1..] == events[k + 1..];
        Perform(events[k]);
      }
    }

    method Perform(e: Event)
      requires Valid()
      modifies this, input, output, input.store, output.store
      ensures Valid() && View() == Step(old(View()), e)
      ensures input.store == old(input.store) || fresh(input.store)
      ensures output.store == old(output.store) || fresh(output.store)
    {
      hide Send, FinishConnect, FlushOut, HandleRead, ReadOnce, Close, Error, Shutdown, Connect, Register;
      match e {
        case DoSend(data) =>
          SendBytes(data);
        case DoWrite(socketError) =>
          var _ := FinishConnecting(socketError);
          FlushEvent();
        case DoFinishConnect(socketError) =>
          var _ := FinishConnecting(socketError);
        case DoFlush =>
          FlushEvent();
        case DoRead =>
          ReadAll();
        case DoReadOnce =>
          var _ := ReadChunk();
        case DoConsume(n) =>
          input.Retrieve(Min(n, input.ReadableBytes()));
        case DoClose =>
          HandleClose();
        case DoError =>
          HandleError();
        case DoShutdown =>
          ShutdownWrites();
        case DoConnect(answer) =>
          ConnectTo(answer);
        case DoRegister(write) =>
          AddFd(write);
      }
    }

    /** The read loop when the callback does nothing. */
    method ReadAll()
      requires Valid()
      modifies this, input, input.store
      ensures Valid() && View() == HandleRead(old(View()))
      ensures input.store == old(input.store) || fresh(input.store)
      ensures output.store == old(output.store)
    {
      hide ReadOnce;
      ghost var target := HandleRead(View());
      var more := true;
      while more
        invariant Valid()
        invariant if more then HandleRead(View()) == target else View() == target
        invariant input.store == old(input.store) || fresh(input.store)
        invariant output.store == old(output.store)
        decreases more, |readScript|
      {
        more := ReadChunk();
      }
    }

    /** One turn of the read loop; false ends it. */
    method ReadChunk() returns (more: bool)
      requires Valid()
      modifies this, input, input.store
      ensures Valid() && View() == ReadOnce(old(View()))
      ensures more == ReadsOn(old(View())) && (more ==> |readScript| < |old(readScript)|)
      ensures input.store == old(input.store) || fresh(input.store)
      ensures output.store == old(output.store)
    {
      if state.Disconnected? || readScript == [] {
        return false;
      }
      var answer := readScript[0];
      readScript := readScript[1..];
      match answer {
        case Got(data) =>
          if data != [] {
            input.Append(data);
            received := received + data;
            return true;
          }
          HandleClose();
        case ReadBlocks =>
        case ReadFails =>
          HandleError();
      }
      return false;
    }

    method ShutdownWrites()
      requires Valid()
      modifies `state, `halfClosed
      ensures Valid() && View() == Shutdown(old(View()))
    {
      if state.Connected? {
        state := Disconnecting;
        if output.ReadableBytes() == 0 {
          halfClosed := true;
        }
      }
    }

    method ConnectTo(answer: ConnectAnswer)
      requires Valid()
      modifies this
      ensures Valid() && View() == Connect(old(View()), answer)
    {
      attempts := attempts + 1;
      if !open || answer.Refused? {
        return;
      }
      if answer.InProgress? {
        state := Connecting;
      } else {
        state := Connected;
        notified := notified + [true];
      }
    }
  }
}
