/** TcpClientProtocol::OnDataReceived in
    lib_network/include/network/core/client/protocols/tcp_protocol.h: the client's
    side of the length-prefix framing, which on an oversize length throws away what
    it has and goes on. */
module TcpClients {
  import opened Bytes
  import T = TcpFraming
  import C = Connections

  datatype Client = Client(buf: bytes, received: seq<bytes>)

  function Receive(buf: bytes, received: seq<bytes>): Client
    decreases |buf|
  {
    if |buf| < 4 then Client(buf, received)
    else
      var n := T.Length(buf);
      if n > T.CAP then Client([], received)
      else if |buf| < 4 + n then Client(buf, received)
      else Receive(buf[4 + n..], received + [buf[4..4 + n]])
  }

  /** OnDataReceived, with the chunk just read at the end of the input buffer. */
  function OnData(c: Client, chunk: bytes): Client { Receive(c.buf + chunk, c.received) }

  predicate Oversize(buf: bytes) { |buf| >= 4 && T.Length(buf) > T.CAP }

  /** Following the length prefixes from frame to frame runs into an oversize one. */
  predicate MeetsOversize(buf: bytes)
    decreases |buf|
  {
    |buf| >= 4 &&
    var n := T.Length(buf);
    n > T.CAP || (4 + n <= |buf| && MeetsOversize(buf[4 + n..]))
  }

  lemma {:induction false} ReceiveAppend(a: bytes, b: bytes, received: seq<bytes>)
    requires !MeetsOversize(a)
    ensures OnData(Receive(a, received), b) == Receive(a + b, received)
    ensures MeetsOversize(Receive(a, received).buf + b) <==> MeetsOversize(a + b)
    decreases |a|
  {
    hide T.Length;
    if |a| >= 4 {
      SameLength(a, b);
      var n := T.Length(a);
      if 4 + n <= |a| {
        assert (a + b)[4 + n..] == a[4 + n..] + b;
        assert (a + b)[4..4 + n] == a[4..4 + n];
        ReceiveAppend(a[4 + n..], b, received + [a[4..4 + n]]);
      }
    }
  }

  lemma SameLength(a: bytes, b: bytes)
    requires |a| >= 4
    ensures T.Length(a + b) == T.Length(a)
  {
    assert (a + b)[..4] == a[..4];
  }

  /** From an oversize length on, everything in the buffer is dropped. */
  lemma {:induction false} OversizeDropsRest(a: bytes, b: bytes, received: seq<bytes>)
    requires MeetsOversize(a)
    ensures Receive(a + b, received) == Receive(a, received) && Receive(a, received).buf == []
    decreases |a|
  {
    hide T.Length;
    SameLength(a, b);
    var n := T.Length(a);
    if n <= T.CAP {
      assert (a + b)[4 + n..] == a[4 + n..] + b;
      assert (a + b)[4..4 + n] == a[4..4 + n];
      OversizeDropsRest(a[4 + n..], b, received + [a[4..4 + n]]);
    }
  }

  lemma {:induction false} ReceiveOnlyAdds(buf: bytes, received: seq<bytes>)
    ensures received <= Receive(buf, received).received
    decreases |buf|
  {
    hide T.Length;
    if |buf| >= 4 {
      var n := T.Length(buf);
      if n <= T.CAP && 4 + n <= |buf| {
        ReceiveOnlyAdds(buf[4 + n..], received + [buf[4..4 + n]]);
      }
    }
  }

  lemma DroppedIff(b: bytes, received: seq<bytes>)
    ensures Receive(b, received) == Client([], received) <==> b == [] || Oversize(b)
  {
    hide T.Length;
    if |b| >= 4 && T.Length(b) <= T.CAP && 4 + T.Length(b) <= |b| {
      var n := T.Length(b);
      ReceiveOnlyAdds(b[4 + n..], received + [b[4..4 + n]]);
    }
  }

  lemma CutAfterOversize(x: bytes, b: bytes, received: seq<bytes>)
    requires MeetsOversize(x)
    ensures OnData(Receive(x, received), b) == Receive(x + b, received) <==> b == [] || Oversize(b)
  {
    OversizeDropsRest(x, b, received);
    var cleared := Receive(x, received);
    DroppedIff(b, cleared.received);
    hide Receive, MeetsOversize, Oversize;
    assert OnData(cleared, b) == Receive(b, cleared.received) by {
      assert [] + b == b;
    }
    assert cleared == Client([], cleared.received);
  }

  /** A cut between two reads makes no difference exactly when the bytes before it
      meet no oversize length, or those after it amount to nothing: unlike the
      handler on the server, which closes, a client that has cleared its buffer
      takes whatever comes next for the start of a frame. */
  lemma CutMattersIff(c: Client, a: bytes, b: bytes)
    ensures OnData(OnData(c, a), b) == OnData(c, a + b) <==> !MeetsOversize(c.buf + a) || b == [] || Oversize(b)
  {
    hide OnData, Receive, MeetsOversize, Oversize;
    var x := c.buf + a;
    OnDataIsReceive(c, a, b);
    if MeetsOversize(x) {
      CutAfterOversize(x, b, c.received);
    } else {
      ReceiveAppend(x, b, c.received);
    }
  }

  lemma OnDataIsReceive(c: Client, a: bytes, b: bytes)
    ensures OnData(c, a) == Receive(c.buf + a, c.received)
    ensures OnData(c, a + b) == Receive(c.buf + a + b, c.received)
  {
    hide Receive;
    assert c.buf + (a + b) == c.buf + a + b;
  }

  /** So any chunking of bytes without an oversize length has the effect of one read. */
  lemma {:induction false} ReadsAreOneRead(c: Client, chunks: seq<bytes>)
    requires !MeetsOversize(c.buf + Flatten(chunks))
    requires chunks != []
    ensures Feed(OnData, c, chunks) == OnData(c, Flatten(chunks))
    decreases |chunks|
  {
    hide Receive, MeetsOversize;
    var a, rest := chunks[0], Flatten(chunks[1..]);
    assert c.buf + Flatten(chunks) == (c.buf + a) + rest;
    NoOversizeBefore(c.buf + a, rest);
    ReceiveAppend(c.buf + a, rest, c.received);
    if |chunks| == 1 {
      assert chunks[1..] == [] && Flatten(chunks) == a;
    } else {
      ReadsAreOneRead(OnData(c, a), chunks[1..]);
    }
  }

  lemma {:induction false} NoOversizeBefore(a: bytes, b: bytes)
    requires !MeetsOversize(a + b)
    ensures !MeetsOversize(a)
    decreases |a|
  {
    hide T.Length;
    if |a| >= 4 {
      SameLength(a, b);
      var n := T.Length(a);
      if 4 + n <= |a| {
        assert (a + b)[4 + n..] == a[4 + n..] + b;
        NoOversizeBefore(a[4 + n..], b);
      }
    }
  }

  // ---- Against the framing, and against the server's loop ----

  const ADMIT_ALL: T.Limiter := (_: nat) => true

  /** Up to an oversize length, the client's loop is the handler's with nothing limited. */
  lemma {:induction false} ReceiveIsUnlimitedDrain(buf: bytes, received: seq<bytes>, seen: nat)
    ensures
      var h := T.Drain(ADMIT_ALL, buf, seen, received);
      && (h.Shut? <==> MeetsOversize(buf))
      && Receive(buf, received) == Client(if h.Shut? then [] else h.buf, h.decoded)
    decreases |buf|
  {
    hide T.Length;
    if |buf| >= 4 {
      var n := T.Length(buf);
      if n <= T.CAP && 4 + n <= |buf| {
        ReceiveIsUnlimitedDrain(buf[4 + n..], received + [buf[4..4 + n]], seen + 1);
      }
    }
  }

  lemma {:induction false} AllAreAdmitted(payloads: seq<bytes>, from: nat)
    ensures T.Admitted(ADMIT_ALL, payloads, from) == payloads
    decreases |payloads|
  {
    if payloads == [] {
    } else {
      AllAreAdmitted(payloads[1..], from + 1);
    }
  }

  /** Responses within the cap all arrive, in order, however the network cuts them,
      and the started frame that follows them waits. */
  lemma ClientReceivesAll(payloads: seq<bytes>, tail: bytes, chunks: seq<bytes>)
    requires T.WithinCap(payloads) && T.StrictPrefixOfFrame(tail)
    requires chunks != [] && Flatten(chunks) == T.Frames(payloads) + tail
    ensures Feed(OnData, Client([], []), chunks) == Client(tail, payloads)
  {
    hide *;
    hide T.Drain, T.Frames, T.WithinCap, T.StrictPrefixOfFrame, T.Admitted;
    var all := T.Frames(payloads) + tail;
    assert [] + all == all && [] + payloads == payloads;
    T.DrainFrames(ADMIT_ALL, payloads, tail, 0, []);
    AllAreAdmitted(payloads, 0);
    T.StrictPrefixWaits(ADMIT_ALL, tail, |payloads|, payloads);
    ReceiveIsUnlimitedDrain(all, [], 0);
    ReadsAreOneRead(Client([], []), chunks);
    OnDataFresh(all);
  }

  lemma OnDataFresh(all: bytes)
    ensures OnData(Client([], []), all) == Receive(all, [])
  {
    assert [] + all == all;
  }

  // ---- The object ----

  class TcpClient {
    const connection: C.Connection
    var received: seq<bytes>

    constructor (connection: C.Connection)
      ensures this.connection == connection && received == []
    {
      this.connection := connection;
      received := [];
    }

    /** The whole frame goes out as one send. */
    method SendMessage(payload: bytes)
      requires connection.Valid()
      modifies connection, connection.output, connection.output.store
      ensures connection.Valid() && connection.View() == C.Send(old(connection.View()), T.Frame(payload))
    {
      var frame := Be32(|payload|);
      frame := frame + payload;
      connection.SendBytes(frame);
    }

    method HandleInput()
      requires connection.Valid()
      modifies this, connection.input`reader, connection.input`writer
      ensures connection.Valid() && connection.View() == old(connection.View()).(input := connection.input.Contents())
      ensures Client(connection.input.Contents(), received) == Receive(old(connection.input.Contents()), old(received))
    {
      hide T.Length;
      var buf := connection.input;
      ghost var target := Receive(buf.Contents(), received);
      while buf.ReadableBytes() >= 4
        invariant connection.Valid() && Receive(buf.Contents(), received) == target
        invariant connection.View() == old(connection.View()).(input := buf.Contents())
        decreases buf.ReadableBytes()
      {
        var length := T.Length(buf.Peek());
        if length > T.CAP {
          buf.RetrieveAll();
          return;
        }
        if buf.ReadableBytes() < 4 + length {
          return;
        }
        TakeOne(length);
      }
    }

    method TakeOne(length: nat)
      requires connection.Valid() && |connection.input.Contents()| >= 4 + length
      modifies this, connection.input`reader, connection.input`writer
      ensures connection.Valid() && connection.View() == old(connection.View()).(input := connection.input.Contents())
      ensures connection.input.Contents() == old(connection.input.Contents())[4 + length..]
      ensures received == old(received) + [old(connection.input.Contents())[4..4 + length]]
    {
      var buf := connection.input;
      ghost var before := buf.Contents();
      assert before[4..][..length] == before[4..4 + length] && before[4..][length..] == before[4 + length..];
      buf.Retrieve(4);
      var data := buf.Peek()[..length];
      buf.Retrieve(length);
      received := received + [data];
    }
  }
}
