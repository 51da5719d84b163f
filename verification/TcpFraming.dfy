/** lib_network/src/protocols/tcp/tcp_handler.cc: length-prefixed messages with a
    size cap and a rate limiter, against the client's framing in
    lib_network/include/network/core/client/protocols/tcp_protocol.h. */
module TcpFraming {
  import opened Bytes
  import C = Connections

  const CAP := 100 * 1024 * 1024

  /** The limiter's verdict on the i-th complete message: any answers at all. */
  type Limiter = nat -> bool

  /** An oversize length closes the connection for good. */
  datatype Handler =
    | Open(buf: bytes, seen: nat, decoded: seq<bytes>)
    | Shut(seen: nat, decoded: seq<bytes>)

  const FRESH := Open([], 0, [])

  function Length(buf: bytes): nat
    requires |buf| >= 4
  {
    FromBe32(buf[..4])
  }

  function Drain(limiter: Limiter, buf: bytes, seen: nat, decoded: seq<bytes>): Handler
    decreases |buf|
  {
    if |buf| < 4 then Open(buf, seen, decoded)
    else
      var n := Length(buf);
      if n > CAP then Shut(seen, decoded)
      else if |buf| < 4 + n then Open(buf, seen, decoded)
      else Drain(limiter, buf[4 + n..], seen + 1, if limiter(seen) then decoded + [buf[4..4 + n]] else decoded)
  }

  /** OnMessage, with the chunk just read at the end of the input buffer. */
  function OnMessage(limiter: Limiter): (Handler, bytes) -> Handler {
    (h: Handler, chunk: bytes) => if h.Open? then Drain(limiter, h.buf + chunk, h.seen, h.decoded) else h
  }

  lemma {:induction false} DrainAppend(limiter: Limiter, a: bytes, b: bytes, seen: nat, decoded: seq<bytes>)
    ensures OnMessage(limiter)(Drain(limiter, a, seen, decoded), b) == Drain(limiter, a + b, seen, decoded)
    decreases |a|
  {
    if |a| >= 4 {
      assert (a + b)[..4] == a[..4];
      var n := Length(a);
      if n <= CAP && 4 + n <= |a| {
        assert (a + b)[4 + n..] == a[4 + n..] + b;
        assert (a + b)[4..4 + n] == a[4..4 + n];
        DrainAppend(limiter, a[4 + n..], b, seen + 1, if limiter(seen) then decoded + [a[4..4 + n]] else decoded);
      }
    }
  }

  /** For any bytes and any limiter, how the network cuts the bytes does not matter. */
  lemma HandlerIsChunkBlind(limiter: Limiter)
    ensures ChunkBlind(OnMessage(limiter))
  {
    var deliver := OnMessage(limiter);
    forall h: Handler, a: bytes, b: bytes
      ensures deliver(deliver(h, a), b) == deliver(h, a + b)
    {
      if h.Open? {
        assert h.buf + (a + b) == (h.buf + a) + b;
        DrainAppend(limiter, h.buf + a, b, h.seen, h.decoded);
      }
    }
  }

  lemma ChunksDrainAsOne(limiter: Limiter, chunks: seq<bytes>)
    requires chunks != []
    ensures Feed(OnMessage(limiter), FRESH, chunks) == Drain(limiter, Flatten(chunks), 0, [])
  {
    HandlerIsChunkBlind(limiter);
    FeedIsOneDelivery(OnMessage(limiter), FRESH, chunks);
    hide Drain, Flatten;
    assert [] + Flatten(chunks) == Flatten(chunks);
  }

  // ---- The client's side ----

  /** TcpClientProtocol::Send and TcpStreamContext::Write. */
  function Frame(payload: bytes): bytes { Be32(|payload|) + payload }

  function Frames(payloads: seq<bytes>): bytes {
    if payloads == [] then [] else Frame(payloads[0]) + Frames(payloads[1..])
  }

  ghost predicate WithinCap(payloads: seq<bytes>) {
    forall i :: 0 <= i < |payloads| ==> |payloads[i]| <= CAP
  }

  /** The payloads the limiter lets through, the first of them being message `from`. */
  function Admitted(limiter: Limiter, payloads: seq<bytes>, from: nat): seq<bytes> {
    if payloads == [] then []
    else (if limiter(from) then [payloads[0]] else []) + Admitted(limiter, payloads[1..], from + 1)
  }

  lemma LengthReadsBack(n: nat, rest: bytes)
    requires n < 0x1_0000_0000
    ensures Length(Be32(n) + rest) == n
  {
    Be32RoundTrip(n);
    assert (Be32(n) + rest)[..4] == Be32(n);
  }

  lemma DrainFrame(limiter: Limiter, p: bytes, rest: bytes, seen: nat, decoded: seq<bytes>)
    requires |p| <= CAP
    ensures Drain(limiter, Frame(p) + rest, seen, decoded)
         == Drain(limiter, rest, seen + 1, decoded + if limiter(seen) then [p] else [])
  {
    hide Be32, Length;
    LengthReadsBack(|p|, p + rest);
    var buf := Frame(p) + rest;
    assert buf == Be32(|p|) + (p + rest);
    assert buf[4..4 + |p|] == p && buf[4 + |p|..] == rest;
    assert decoded + [] == decoded;
  }

  lemma {:induction false} DrainFrames(limiter: Limiter, payloads: seq<bytes>, rest: bytes, seen: nat, decoded: seq<bytes>)
    requires WithinCap(payloads)
    ensures Drain(limiter, Frames(payloads) + rest, seen, decoded)
         == Drain(limiter, rest, seen + |payloads|, decoded + Admitted(limiter, payloads, seen))
    decreases |payloads|
  {
    hide Drain, Frame;
    if payloads == [] {
      assert Frames(payloads) + rest == rest && decoded + [] == decoded;
    } else {
      var p, more := payloads[0], Frames(payloads[1..]) + rest;
      var head, others := if limiter(seen) then [p] else [], Admitted(limiter, payloads[1..], seen + 1);
      calc {
        Drain(limiter, Frames(payloads) + rest, seen, decoded);
        { assert Frames(payloads) + rest == Frame(p) + more; }
        Drain(limiter, Frame(p) + more, seen, decoded);
        { DrainFrame(limiter, p, more, seen, decoded); }
        Drain(limiter, more, seen + 1, decoded + head);
        { DrainFrames(limiter, payloads[1..], rest, seen + 1, decoded + head); }
        Drain(limiter, rest, seen + 1 + |payloads[1..]|, decoded + head + others);
        { assert decoded + head + others == decoded + (head + others); }
        Drain(limiter, rest, seen + |payloads|, decoded + Admitted(limiter, payloads, seen));
      }
    }
  }

  /** The start of a frame still missing at least one byte. */
  ghost predicate StrictPrefixOfFrame(tail: bytes) {
    exists p: bytes :: |p| <= CAP && tail < Frame(p)
  }

  lemma StrictPrefixWaits(limiter: Limiter, tail: bytes, seen: nat, decoded: seq<bytes>)
    requires StrictPrefixOfFrame(tail)
    ensures Drain(limiter, tail, seen, decoded) == Open(tail, seen, decoded)
  {
    hide Be32;
    var p: bytes :| |p| <= CAP && tail < Frame(p);
    if |tail| >= 4 {
      LengthReadsBack(|p|, []);
      assert tail[..4] == Frame(p)[..4] == (Be32(|p|) + [])[..4];
      assert Length(tail) == |p| by { hide FromBe32; }
      hide Length;
    }
  }

  /** In sync: payloads within the cap, framed by the client, cut anywhere, under
      any limiter. The handler has decoded exactly the admitted payloads in order
      and holds exactly the started frame that follows them. */
  lemma DecodesTheAdmitted(limiter: Limiter, payloads: seq<bytes>, tail: bytes, chunks: seq<bytes>)
    requires WithinCap(payloads)
    requires StrictPrefixOfFrame(tail)
    requires chunks != [] && Flatten(chunks) == Frames(payloads) + tail
    ensures Feed(OnMessage(limiter), FRESH, chunks) == Open(tail, |payloads|, Admitted(limiter, payloads, 0))
  {
    hide *;
    var admitted := Admitted(limiter, payloads, 0);
    calc {
      Feed(OnMessage(limiter), FRESH, chunks);
      { ChunksDrainAsOne(limiter, chunks); }
      Drain(limiter, Frames(payloads) + tail, 0, []);
      { DrainFrames(limiter, payloads, tail, 0, []); assert [] + admitted == admitted; }
      Drain(limiter, tail, |payloads|, admitted);
      { StrictPrefixWaits(limiter, tail, |payloads|, admitted); }
      Open(tail, |payloads|, admitted);
    }
  }

  lemma OversizeShuts(limiter: Limiter, n: nat, junk: bytes, seen: nat, decoded: seq<bytes>)
    requires CAP < n < 0x1_0000_0000
    ensures Drain(limiter, Be32(n) + junk, seen, decoded) == Shut(seen, decoded)
  {
    hide Be32, Length;
    LengthReadsBack(n, junk);
  }

  /** An oversize length stops dispatch where it stands: the messages before it
      were handled, and nothing after it ever is, however much arrives. */
  lemma OversizeStopsDispatch(limiter: Limiter, payloads: seq<bytes>, n: nat, junk: bytes, chunks: seq<bytes>)
    requires WithinCap(payloads)
    requires CAP < n < 0x1_0000_0000
    requires Flatten(chunks) == Frames(payloads) + (Be32(n) + junk)
    ensures Feed(OnMessage(limiter), FRESH, chunks) == Shut(|payloads|, Admitted(limiter, payloads, 0))
  {
    assert |Flatten(chunks)| > 0;
    hide *;
    var admitted := Admitted(limiter, payloads, 0);
    calc {
      Feed(OnMessage(limiter), FRESH, chunks);
      { ChunksDrainAsOne(limiter, chunks); }
      Drain(limiter, Frames(payloads) + (Be32(n) + junk), 0, []);
      { DrainFrames(limiter, payloads, Be32(n) + junk, 0, []); assert [] + admitted == admitted; }
      Drain(limiter, Be32(n) + junk, |payloads|, admitted);
      { OversizeShuts(limiter, n, junk, |payloads|, admitted); }
      Shut(|payloads|, admitted);
    }
  }

  /** Whatever arrives, what an open handler keeps is the start of one frame. */
  lemma {:induction false} LeftoverIsPartial(limiter: Limiter, buf: bytes, seen: nat, decoded: seq<bytes>)
    ensures
      var h := Drain(limiter, buf, seen, decoded);
      h.Open? ==> |h.buf| < 4 || (Length(h.buf) <= CAP && |h.buf| < 4 + Length(h.buf))
    decreases |buf|
  {
    if |buf| >= 4 {
      var n := Length(buf);
      if n <= CAP && 4 + n <= |buf| {
        LeftoverIsPartial(limiter, buf[4 + n..], seen + 1, if limiter(seen) then decoded + [buf[4..4 + n]] else decoded);
      }
    }
  }

  lemma DrainStep(limiter: Limiter, buf: bytes, seen: nat, decoded: seq<bytes>)
    requires |buf| >= 4 && Length(buf) <= CAP && 4 + Length(buf) <= |buf|
    ensures
      var n := Length(buf);
      Drain(limiter, buf, seen, decoded) ==
      Drain(limiter, buf[4 + n..], seen + 1, if limiter(seen) then decoded + [buf[4..4 + n]] else decoded)
  {
  }

  // ---- The object ----

  class TcpHandler {
    const connection: C.Connection
    const limiter: Limiter
    var seen: nat
    var decoded: seq<bytes>

    constructor (connection: C.Connection, limiter: Limiter)
      ensures this.connection == connection && this.limiter == limiter && seen == 0 && decoded == []
    {
      this.connection, this.limiter := connection, limiter;
      seen, decoded := 0, [];
    }

    /** Called on a live connection after a read. */
    method HandleInput()
      requires connection.Valid() && !connection.state.Disconnected?
      modifies this, connection, connection.input`reader, connection.input`writer
      ensures connection.Valid()
      ensures
        var h := Drain(limiter, old(connection.input.Contents()), old(seen), old(decoded));
        && seen == h.seen && decoded == h.decoded
        && (h.Open? ==> connection.input.Contents() == h.buf)
        && connection.View() == (if h.Shut? then C.Close(old(connection.View())) else old(connection.View()))
                                  .(input := connection.input.Contents())
    {
      var oversize := DispatchAll();
      if oversize {
        connection.HandleClose();
      }
    }

    /** OnMessage's framing loop, up to where an oversize length stops it. */
    method DispatchAll() returns (oversize: bool)
      requires connection.Valid()
      modifies this, connection.input`reader, connection.input`writer
      ensures connection.Valid() && connection.View() == old(connection.View()).(input := connection.input.Contents())
      ensures Drain(limiter, old(connection.input.Contents()), old(seen), old(decoded))
           == if oversize then Shut(seen, decoded) else Open(connection.input.Contents(), seen, decoded)
    {
      hide Length;
      var buf := connection.input;
      ghost var target := Drain(limiter, buf.Contents(), seen, decoded);
      while buf.ReadableBytes() >= 4
        invariant connection.Valid() && Drain(limiter, buf.Contents(), seen, decoded) == target
        invariant connection.View() == old(connection.View()).(input := buf.Contents())
        decreases buf.ReadableBytes()
      {
        var length := Length(buf.Peek());
        if length > CAP {
          return true;
        }
        if buf.ReadableBytes() < 4 + length {
          return false;
        }
        ghost var before, n, so := buf.Contents(), seen, decoded;
        DispatchOne(length);
        DrainStep(limiter, before, n, so);
      }
      return false;
    }

    method DispatchOne(length: nat)
      requires connection.Valid() && |connection.input.Contents()| >= 4 + length
      modifies this, connection.input`reader, connection.input`writer
      ensures connection.Valid() && connection.View() == old(connection.View()).(input := connection.input.Contents())
      ensures connection.input.Contents() == old(connection.input.Contents())[4 + length..]
      ensures seen == old(seen) + 1
      ensures decoded == if limiter(old(seen)) then old(decoded) + [old(connection.input.Contents())[4..4 + length]]
                         else old(decoded)
    {
      var buf := connection.input;
      ghost var before := buf.Contents();
      assert before[4..][..length] == before[4..4 + length] && before[4..][length..] == before[4 + length..];
      if limiter(seen) {
        buf.Retrieve(4);
        var data := buf.Peek()[..length];
        buf.Retrieve(length);
        decoded := decoded + [data];
      } else {
        buf.Retrieve(4 + length);
      }
      seen := seen + 1;
    }
  }
}
