/** A connection from connect to close (lib_network/src/connection.cc): which state every
    event leads to, what the connect callback is told, what a close takes down with it,
    and when bytes reach the wire. Stated by tables over the kernel's answers. */
module ConnectionLife {
  import opened Bytes
  import opened Connections

  // ---- A close is a whole one ----

  /** Disconnected and closed are one from the first connection attempt on. */
  ghost predicate Whole(c: Conn) { Inv(c) && (c.state.Disconnected? ==> !c.open) }

  lemma {:induction false} FlushKeepsWhole(c: Conn)
    requires Whole(c)
    ensures Whole(Flush(c))
    decreases |c.output|
  {
    if c.output != [] && !c.state.Disconnected? && NextWrite(c.writeScript).Took? {
      FlushKeepsWhole(WriteOnce(c, |c.output|));
    }
  }

  lemma {:induction false} ReadKeepsWhole(c: Conn)
    requires Whole(c)
    ensures Whole(HandleRead(c))
    decreases |c.readScript|
  {
    if ReadsOn(c) {
      ReadKeepsWhole(ReadOnce(c));
    }
  }

  lemma FlushOutKeepsWhole(c: Conn)
    requires Whole(c)
    ensures Whole(FlushOut(c))
  {
    FlushKeepsWhole(c);
    hide Flush;
  }

  lemma FinishConnectKeepsWhole(c: Conn, socketError: bool)
    requires Whole(c)
    ensures Whole(FinishConnect(c, socketError))
  {
  }

  lemma StepKeepsWhole(c: Conn, e: Event)
    requires Whole(c)
    ensures Whole(Step(c, e))
  {
    hide FlushOut, FinishConnect, HandleRead;
    match e
    case DoWrite(socketError) =>
      FinishConnectKeepsWhole(c, socketError);
      FlushOutKeepsWhole(FinishConnect(c, socketError));
    case DoFinishConnect(socketError) => FinishConnectKeepsWhole(c, socketError);
    case DoFlush => FlushOutKeepsWhole(c);
    case DoRead => ReadKeepsWhole(c);
    case _ =>
  }

  lemma {:induction false} RunKeepsWhole(c: Conn, events: seq<Event>)
    requires Whole(c)
    ensures Whole(Run(c, events))
    decreases |events|
  {
    hide Step, Whole;
    if events == [] {
    } else {
      StepKeepsWhole(c, events[0]);
      RunKeepsWhole(Step(c, events[0]), events[1..]);
    }
  }

  /** Over every run from a live connection on: as long as it is not disconnected it is
      open and nothing has been called back, and when it is, its descriptor has been
      unregistered and closed and the disconnect callback called, each exactly once. */
  lemma DisconnectedMeansTornDown(c: Conn, events: seq<Event>)
    requires Inv(c) && !c.state.Disconnected?
    ensures
      var d := Run(c, events);
      if d.state.Disconnected? then !d.open && d.registered.None? && d.closes == 1 && d.disconnects == 1
      else d.open && d.closes == 0 && d.disconnects == 0
  {
    RunKeepsWhole(c, events);
  }

  // ---- The state every event leads to ----

  /** The kernel fails a write before it blocks. */
  predicate WriteFailsFirst(script: seq<WriteAnswer>) {
    script != [] && (script[0].WriteFails? || (script[0].Took? && WriteFailsFirst(script[1..])))
  }

  /** A flush runs into that failure before the output is written. */
  predicate FlushFails(c: Conn) { |c.output| > Takes(c.writeScript) && WriteFailsFirst(c.writeScript) }

  lemma {:induction false} FlushGoes(c: Conn)
    ensures Flush(c).state == if FlushFails(c) then Disconnected else c.state
    ensures Flush(c).notified == c.notified + if c.state.Connecting? && FlushFails(c) then [false] else []
    decreases |c.output|
  {
    assert c.notified + [] == c.notified;
    if c.output != [] && !c.state.Disconnected? && NextWrite(c.writeScript).Took? {
      FlushGoes(WriteOnce(c, |c.output|));
    }
  }

  /** The kernel fails a read before it blocks or ends the stream. */
  predicate ReadFailsFirst(script: seq<ReadAnswer>) {
    script != [] && (script[0].ReadFails? || (script[0].Got? && script[0].data != [] && ReadFailsFirst(script[1..])))
  }

  lemma {:induction false} ReadGoes(c: Conn)
    ensures HandleRead(c).state == if BlocksFirst(c.readScript) then c.state else Disconnected
    ensures HandleRead(c).notified == c.notified + if c.state.Connecting? && ReadFailsFirst(c.readScript) then [false] else []
    decreases |c.readScript|
  {
    assert c.notified + [] == c.notified;
    if ReadsOn(c) {
      ReadGoes(ReadOnce(c));
    }
  }

  /** The table of states. */
  function StateAfter(c: Conn, e: Event): State {
    match e
    case DoWrite(socketError) =>
      if c.state.Connecting? && socketError then Disconnected
      else if FlushFails(c) then Disconnected
      else if c.state.Connecting? then Connected
      else c.state
    case DoFinishConnect(socketError) =>
      if !c.state.Connecting? then c.state else if socketError then Disconnected else Connected
    case DoFlush => if FlushFails(c) then Disconnected else c.state
    case DoRead => if BlocksFirst(c.readScript) then c.state else Disconnected
    case DoReadOnce =>
      if NextRead(c.readScript) == Got([]) || NextRead(c.readScript).ReadFails? then Disconnected else c.state
    case DoClose => Disconnected
    case DoError => Disconnected
    case DoShutdown => if c.state.Connected? then Disconnecting else c.state
    case DoConnect(answer) =>
      if !c.open || answer.Refused? then c.state else if answer.InProgress? then Connecting else Connected
    case _ => c.state
  }

  /** What the connect callback is told. */
  function Verdict(c: Conn, e: Event): seq<bool> {
    match e
    case DoWrite(socketError) => if c.state.Connecting? then [!socketError] else []
    case DoFinishConnect(socketError) => if c.state.Connecting? then [!socketError] else []
    case DoFlush => if c.state.Connecting? && FlushFails(c) then [false] else []
    case DoRead => if c.state.Connecting? && ReadFailsFirst(c.readScript) then [false] else []
    case DoReadOnce => if c.state.Connecting? && NextRead(c.readScript).ReadFails? then [false] else []
    case DoError => if c.state.Connecting? then [false] else []
    case DoConnect(answer) => if c.open && answer.Immediate? then [true] else []
    case _ => []
  }

  /** Every event in every state of every connection leads where the tables say: a failed
      write, a failed or ended read and a failed pending connect close the connection, a
      blocked one does not; and success is reported exactly for a connect that went
      through, failure exactly for a pending one that an error ended. */
  lemma StepGoes(c: Conn, e: Event)
    ensures Step(c, e).state == StateAfter(c, e)
    ensures Step(c, e).notified == c.notified + Verdict(c, e)
  {
    hide FlushFails, BlocksFirst, ReadFailsFirst;
    assert c.notified + [] == c.notified;
    match e
    case DoWrite(socketError) => WriteGoes(c, socketError);
    case DoFlush =>
      FlushGoes(c);
      hide Flush;
    case DoRead =>
      ReadGoes(c);
      hide HandleRead;
    case _ =>
  }

  lemma WriteGoes(c: Conn, socketError: bool)
    ensures HandleWrite(c, socketError).state == StateAfter(c, DoWrite(socketError))
    ensures HandleWrite(c, socketError).notified == c.notified + Verdict(c, DoWrite(socketError))
  {
    var up := FinishConnect(c, socketError);
    FlushGoes(up);
    assert c.notified + [] == c.notified;
    if up.state.Disconnected? {
      hide FlushFails;
      assert up.notified + [] == up.notified;
    } else {
      assert FlushFails(up) <==> FlushFails(c);
      hide Flush, FlushFails;
      assert up.notified + [] == up.notified;
    }
  }

  function Verdicts(c: Conn, events: seq<Event>): seq<bool>
    decreases |events|
  {
    if events == [] then [] else Verdict(c, events[0]) + Verdicts(Step(c, events[0]), events[1..])
  }

  /** So over every run the callback has been told exactly those verdicts, in order. */
  lemma {:induction false} ToldTheVerdicts(c: Conn, events: seq<Event>)
    ensures Run(c, events).notified == c.notified + Verdicts(c, events)
    decreases |events|
  {
    hide Step, Verdict;
    if events == [] {
      assert c.notified + [] == c.notified;
    } else {
      StepGoes(c, events[0]);
      ToldTheVerdicts(Step(c, events[0]), events[1..]);
      Assoc(c.notified, Verdict(c, events[0]), Verdicts(Step(c, events[0]), events[1..]));
    }
  }

  // ---- When bytes reach the wire ----

  predicate Writes(e: Event) { e.DoSend? || e.DoWrite? || e.DoFlush? }

  lemma {:induction false} ReadKeepsWire(c: Conn)
    ensures HandleRead(c).wire == c.wire
    decreases |c.readScript|
  {
    if ReadsOn(c) {
      ReadKeepsWire(ReadOnce(c));
    }
  }

  /** Sends reach the wire at once only on a connected connection with nothing waiting,
      and then as far as the kernel takes them; otherwise they wait. */
  lemma SendWritesThrough(c: Conn, data: bytes)
    ensures
      var answer := NextWrite(c.writeScript);
      Send(c, data).wire == c.wire +
        if c.state.Connected? && c.output == [] && answer.Took? then data[..Min(answer.n, |data|)] else []
  {
    assert c.wire + [] == c.wire;
    assert [] + data == data;
    assert data[..0] == [];
  }

  /** Nothing but a send or a write event puts bytes on the wire, and on a closed
      connection nothing does. */
  lemma OnlyWritesReachTheWire(c: Conn, e: Event)
    requires !Writes(e) || (Inv(c) && !c.open)
    ensures Step(c, e).wire == c.wire
  {
    ReadKeepsWire(c);
    hide HandleRead;
  }

  lemma {:induction false} WireIsFinalOnceClosed(c: Conn, events: seq<Event>)
    requires Inv(c) && !c.open
    ensures Run(c, events).wire == c.wire
    decreases |events|
  {
    hide Step, Inv;
    if events == [] {
    } else {
      OnlyWritesReachTheWire(c, events[0]);
      StepKeepsInv(c, events[0]);
      StepNeverOpens(c, events[0]);
      WireIsFinalOnceClosed(Step(c, events[0]), events[1..]);
    }
  }

  // ---- What only one event does ----

  lemma {:induction false} FlushKeepsHalfClosed(c: Conn)
    ensures Flush(c).halfClosed == c.halfClosed && (c.registered.None? ==> Flush(c).registered.None?)
    decreases |c.output|
  {
    if c.output != [] && !c.state.Disconnected? && NextWrite(c.writeScript).Took? {
      FlushKeepsHalfClosed(WriteOnce(c, |c.output|));
    }
  }

  lemma {:induction false} ReadKeepsHalfClosed(c: Conn)
    ensures HandleRead(c).halfClosed == c.halfClosed && (c.registered.None? ==> HandleRead(c).registered.None?)
    decreases |c.readScript|
  {
    if ReadsOn(c) {
      ReadKeepsHalfClosed(ReadOnce(c));
    }
  }

  /** Only a Shutdown of a connected connection with nothing waiting half-closes, and only
      a registration registers. */
  lemma OnlyShutdownHalfCloses(c: Conn, e: Event)
    ensures Step(c, e).halfClosed <==> c.halfClosed || (e.DoShutdown? && c.state.Connected? && c.output == [])
    ensures c.registered.None? && !e.DoRegister? ==> Step(c, e).registered.None?
  {
    FlushKeepsHalfClosed(if e.DoWrite? then FinishConnect(c, e.socketError) else c);
    ReadKeepsHalfClosed(c);
    hide Flush, HandleRead;
  }

  /** The input grows by what is received and shrinks by what is retrieved. */
  lemma UnreadCount(c: Conn, e: Event)
    requires Unread(c)
    ensures
      var d := Step(c, e);
      |d.input| == |c.input| + (|d.received| - |c.received|) - if e.DoConsume? then Min(e.n, |c.input|) else 0
  {
    hide FlushOut;
    match e
    case DoRead => ReadGrows(c);
    case DoReadOnce => ReadOnceAdds(c);
    case DoConsume(n) =>
    case _ => OutboundKeepsInput(c, e);
  }

  lemma {:induction false} ReadGrows(c: Conn)
    ensures |HandleRead(c).input| - |c.input| == |HandleRead(c).received| - |c.received|
    decreases |c.readScript|
  {
    ReadOnceAdds(c);
    if ReadsOn(c) {
      ReadGrows(ReadOnce(c));
    }
  }
}
