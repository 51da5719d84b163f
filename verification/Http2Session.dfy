/** lib_network/src/protocols/http2/session.cc: the frame writer, the demultiplexer,
    and the end-to-end theorem between them. */
module Http2Sessions {
  import opened Bytes
  import opened Http2Frames
  import Hpack
  import C = Connections

  const PREFACE_LENGTH := 24

  /** kClientPreface. */
  function Preface(): (b: bytes)
    ensures |b| == PREFACE_LENGTH
  {
    Ascii("PRI * HTTP/2.0\r\n\r\nSM\r\n\r\n")
  }

  /** A stream's data buffer, as the bytes appended to it (Memory.Buffer keeps exactly those). */
  type Streams = map<nat, bytes>

  type Deliveries = seq<(nat, bytes)>   // calls of on_stream_data_

  datatype Demux = Demux(streams: Streams, delivered: Deliveries)

  /** An invalid preface closes the connection for good. */
  datatype Session =
    | AwaitingPreface(buf: bytes, demux: Demux)
    | Framing(parser: ParserState, buf: bytes, demux: Demux)
    | Rejected(demux: Demux)

  const FRESH := AwaitingPreface([], Demux(map[], []))

  // ---- Receiving ----

  function HandleFrame(d: Demux, f: Frame): Demux {
    if f.header.id == 0 then d
    else
      var known := if f.header.id in d.streams then d.streams else d.streams[f.header.id := []];
      if f.header.kind == DATA then
        Demux(known[f.header.id := known[f.header.id] + f.payload], d.delivered + [(f.header.id, f.payload)])
      else
        d.(streams := known)
  }

  function HandleAll(d: Demux, frames: seq<Frame>): Demux
    decreases |frames|
  {
    if frames == [] then d else HandleAll(HandleFrame(d, frames[0]), frames[1..])
  }

  lemma {:induction false} HandleAllAppend(d: Demux, a: seq<Frame>, b: seq<Frame>)
    ensures HandleAll(d, a + b) == HandleAll(HandleAll(d, a), b)
    decreases |a|
  {
    if a == [] {
      assert a + b == b;
    } else {
      assert (a + b)[1..] == a[1..] + b;
      HandleAllAppend(HandleFrame(d, a[0]), a[1..], b);
    }
  }

  function Frames(st: ParserState, buf: bytes, d: Demux): Session {
    var p := ParseAll(st, buf);
    Framing(p.state, p.rest, HandleAll(d, p.frames))
  }

  /** OnData, with the chunk just read at the end of the input buffer. */
  function OnData(s: Session, chunk: bytes): Session {
    match s
    case Rejected(_) => s
    case AwaitingPreface(held, demux) =>
      var buf := held + chunk;
      if |buf| < PREFACE_LENGTH then AwaitingPreface(buf, demux)
      else if buf[..PREFACE_LENGTH] == Preface() then Frames(ReadingHeader, buf[PREFACE_LENGTH..], demux)
      else Rejected(demux)
    case Framing(parser, held, demux) => Frames(parser, held + chunk, demux)
  }

  lemma FramesAppend(st: ParserState, a: bytes, b: bytes, d: Demux)
    ensures OnData(Frames(st, a, d), b) == Frames(st, a + b, d)
  {
    ParseAllAppend(st, a, b);
    var first := ParseAll(st, a);
    HandleAllAppend(d, first.frames, ParseAll(first.state, first.rest + b).frames);
  }

  lemma OnDataAppend(s: Session, a: bytes, b: bytes)
    ensures OnData(OnData(s, a), b) == OnData(s, a + b)
  {
    match s
    case Rejected(_) =>
    case Framing(parser, held, demux) =>
      assert held + (a + b) == (held + a) + b;
      FramesAppend(parser, held + a, b, demux);
    case AwaitingPreface(held, demux) =>
      assert held + (a + b) == (held + a) + b;
      if |held + a| >= PREFACE_LENGTH {
        assert (held + a + b)[..PREFACE_LENGTH] == (held + a)[..PREFACE_LENGTH];
        assert (held + a + b)[PREFACE_LENGTH..] == (held + a)[PREFACE_LENGTH..] + b;
        FramesAppend(ReadingHeader, (held + a)[PREFACE_LENGTH..], b, demux);
      }
  }

  /** For any bytes at all, valid or not, the session a run of OnData calls ends
      in does not depend on where the network cut the bytes. */
  lemma SessionIsChunkBlind()
    ensures ChunkBlind(OnData)
  {
    forall s: Session, a: bytes, b: bytes
      ensures OnData(OnData(s, a), b) == OnData(s, a + b)
    {
      OnDataAppend(s, a, b);
    }
  }

  /** What the first bytes decide, over any chunks: too few of them wait, the preface
      starts the framing, and anything else closes the session for good, with nothing
      known and nothing delivered. */
  lemma PrefaceDecides(chunks: seq<bytes>)
    ensures
      var s, all := Feed(OnData, FRESH, chunks), Flatten(chunks);
      s == if |all| < PREFACE_LENGTH then AwaitingPreface(all, FRESH.demux)
           else if all[..PREFACE_LENGTH] == Preface() then Frames(ReadingHeader, all[PREFACE_LENGTH..], FRESH.demux)
           else Rejected(FRESH.demux)
  {
    hide Frames, Preface;
    if chunks == [] {
    } else {
      ChunksAsOne(chunks);
      assert [] + Flatten(chunks) == Flatten(chunks);
    }
  }

  lemma ChunksAsOne(chunks: seq<bytes>)
    requires chunks != []
    ensures Feed(OnData, FRESH, chunks) == OnData(FRESH, Flatten(chunks))
  {
    SessionIsChunkBlind();
    hide OnData;
    FeedIsOneDelivery(OnData, FRESH, chunks);
  }

  /** So a session is refused if and only if at least as many bytes as the preface has
      have arrived and they are not the preface. */
  lemma RejectedIff(chunks: seq<bytes>)
    ensures
      var all := Flatten(chunks);
      Feed(OnData, FRESH, chunks) == Rejected(Demux(map[], []))
      <==> |all| >= PREFACE_LENGTH && all[..PREFACE_LENGTH] != Preface()
  {
    PrefaceDecides(chunks);
    hide OnData, Preface;
  }

  // ---- Sending ----

  datatype Sending =
    | StreamData(id: nat, data: bytes, endStream: bool)
    | StreamHeaders(id: nat, fields: seq<Hpack.Field>, endStream: bool)

  function Payload(op: Sending): bytes {
    match op
    case StreamData(_, data, _) => data
    case StreamHeaders(_, fields, _) => Hpack.Encode(fields)
  }

  /** The frame a call means to send: ids travel in 31 bits. */
  function FrameOf(op: Sending): Frame {
    var flags: byte := match op
      case StreamData(_, _, end) => if end then 0x1 else 0x0
      case StreamHeaders(_, _, end) => if end then 0x5 else 0x4;
    Frame(Header(|Payload(op)|, if op.StreamData? then DATA else HEADERS, flags, op.id % ID_SPACE), Payload(op))
  }

  /** SendHeaders asks its 32-bit length, not the block, whether there is a payload to send. */
  function Body(op: Sending): bytes {
    if op.StreamHeaders? && |Payload(op)| % Hpack.WORD == 0 then [] else Payload(op)
  }

  /** The bytes a call writes. */
  function Written(op: Sending): bytes { HeaderBytes(FrameOf(op).header, false) + Body(op) }

  function TwoSends(c: C.Conn, header: bytes, payload: bytes): C.Conn {
    if payload == [] then C.Send(c, header) else C.Send(C.Send(c, header), payload)
  }

  /** A session call on a connection, made by the loop's thread. */
  function SendCall(c: C.Conn, op: Sending): C.Conn {
    TwoSends(c, HeaderBytes(FrameOf(op).header, false), Body(op))
  }

  function WrittenAll(ops: seq<Sending>): bytes {
    if ops == [] then [] else Written(ops[0]) + WrittenAll(ops[1..])
  }

  /** A sent frame reads back exactly when its payload fits the 24-bit length. */
  lemma SentFrameReadsBackIff(op: Sending)
    ensures ParseOne(ReadingHeader, Written(op)).frame == Some(FrameOf(op)) <==> |Payload(op)| < LENGTH_SPACE
  {
    var f := FrameOf(op);
    if |Payload(op)| < LENGTH_SPACE {
      WrittenIsFrame(op);
      FrameRoundTrip(f, false, []);
      assert FrameBytes(f, false) + [] == FrameBytes(f, false);
    } else {
      HeaderRoundTrip(f.header, false);
      hide HeaderBytes, ReadHeader;
      assert Written(op)[..9] == HeaderBytes(f.header, false);
    }
  }

  lemma WrittenIsFrame(op: Sending)
    requires |Payload(op)| < LENGTH_SPACE
    ensures Written(op) == FrameBytes(FrameOf(op), false)
  {
    hide HeaderBytes, Hpack.Encode;
  }

  /** What a call puts on the wire, in bytes: header and payload, but for a header block of
      a size that the 32-bit length takes for nothing, of which only the header goes out. */
  lemma WrittenSize(op: Sending)
    ensures
      var lost := op.StreamHeaders? && |Payload(op)| % 0x1_0000_0000 == 0;
      |Written(op)| == 9 + if lost then 0 else |Payload(op)|
  {
    hide HeaderBytes, Payload;
  }

  const END_STREAM := 0x1
  const END_HEADERS := 0x4

  /** What a reader is told of a call besides its payload: its type, its stream, whether it
      ends the stream, and for headers that they are complete (sections 6.1 and 6.2 of RFC 9113). */
  lemma SentHeaderTells(op: Sending, rest: bytes)
    requires |Payload(op)| < LENGTH_SPACE
    ensures
      var one := ParseOne(ReadingHeader, Written(op) + rest);
      && one.frame.Some? && one.frame.value.payload == Payload(op) && one.rest == rest
      && var h := one.frame.value.header;
         && h.length == |Payload(op)| && h.id == op.id % ID_SPACE
         && h.kind == (if op.StreamData? then DATA else HEADERS)
         && h.flags == (if op.endStream then END_STREAM else 0) + if op.StreamHeaders? then END_HEADERS else 0
  {
    WrittenIsFrame(op);
    FrameRoundTrip(FrameOf(op), false, rest);
    hide ParseOne, FrameBytes, Written, Hpack.Encode;
  }

  function FramesOf(ops: seq<Sending>): seq<Frame> {
    if ops == [] then [] else [FrameOf(ops[0])] + FramesOf(ops[1..])
  }

  lemma {:induction false} SentFramesReadBack(ops: seq<Sending>)
    requires forall op <- ops :: |Payload(op)| < LENGTH_SPACE
    ensures ParseAll(ReadingHeader, WrittenAll(ops)) == Parsed(FramesOf(ops), ReadingHeader, [])
  {
    hide FrameBytes, ParseOne, FrameOf;
    if ops == [] {
      NothingParses();
    } else {
      SentFrameFirst(ops[0], WrittenAll(ops[1..]));
      SentFramesReadBack(ops[1..]);
    }
  }

  lemma NothingParses()
    ensures ParseAll(ReadingHeader, []) == Parsed([], ReadingHeader, [])
  {
  }

  lemma SentFrameFirst(op: Sending, rest: bytes)
    requires |Payload(op)| < LENGTH_SPACE
    ensures ParseOne(ReadingHeader, Written(op) + rest) == ParseResult(Some(FrameOf(op)), ReadingHeader, rest)
  {
    WrittenIsFrame(op);
    FrameRoundTrip(FrameOf(op), false, rest);
    hide *;
  }

  // ---- What any frames do to the streams ----

  function Held(streams: Streams, id: nat): bytes { if id in streams then streams[id] else [] }

  function IdsIn(frames: seq<Frame>): set<nat> {
    set f <- frames | f.header.id != 0 :: f.header.id
  }

  function DataIn(frames: seq<Frame>, id: nat): bytes {
    if frames == [] then [] else DataFor(frames[0], id) + DataIn(frames[1..], id)
  }

  function DataFor(f: Frame, id: nat): bytes {
    if f.header.kind == DATA && f.header.id == id then f.payload else []
  }

  function CallsIn(frames: seq<Frame>): Deliveries {
    if frames == [] then [] else CallFor(frames[0]) + CallsIn(frames[1..])
  }

  function CallFor(f: Frame): Deliveries {
    if f.header.kind == DATA && f.header.id != 0 then [(f.header.id, f.payload)] else []
  }

  /** Any frame on a nonzero id makes its stream known, and nothing else does. */
  lemma {:induction false} DemuxKnows(d: Demux, frames: seq<Frame>)
    ensures HandleAll(d, frames).streams.Keys == d.streams.Keys + IdsIn(frames)
    decreases |frames|
  {
    if frames == [] {
    } else {
      var f := frames[0];
      DemuxKnows(HandleFrame(d, f), frames[1..]);
      assert frames == [f] + frames[1..];
      assert IdsIn(frames) == (if f.header.id != 0 then {f.header.id} else {}) + IdsIn(frames[1..]);
      assert HandleFrame(d, f).streams.Keys == d.streams.Keys + if f.header.id != 0 then {f.header.id} else {};
    }
  }

  lemma FrameSorts(d: Demux, f: Frame, id: nat)
    requires id != 0
    ensures Held(HandleFrame(d, f).streams, id) == Held(d.streams, id) + DataFor(f, id)
  {
    if f.header.id != 0 {
      var known := if f.header.id in d.streams then d.streams else d.streams[f.header.id := []];
      assert Held(known, id) == Held(d.streams, id);
    }
  }

  /** Each stream receives the data of its own frames, in order, and no other. */
  lemma {:induction false} DemuxSorts(d: Demux, frames: seq<Frame>, id: nat)
    requires id != 0
    ensures Held(HandleAll(d, frames).streams, id) == Held(d.streams, id) + DataIn(frames, id)
    decreases |frames|
  {
    hide HandleFrame, DataFor, Held;
    if frames == [] {
      assert Held(d.streams, id) + [] == Held(d.streams, id);
    } else {
      FrameSorts(d, frames[0], id);
      DemuxSorts(HandleFrame(d, frames[0]), frames[1..], id);
      var head := DataFor(frames[0], id);
      assert (Held(d.streams, id) + head) + DataIn(frames[1..], id) == Held(d.streams, id) + (head + DataIn(frames[1..], id));
    }
  }

  /** One callback for each data frame on a nonzero id, in order. */
  lemma {:induction false} DemuxCallsBack(d: Demux, frames: seq<Frame>)
    ensures HandleAll(d, frames).delivered == d.delivered + CallsIn(frames)
    decreases |frames|
  {
    hide CallFor;
    if frames == [] {
      assert d.delivered + [] == d.delivered;
    } else {
      FrameCallsBack(d, frames[0]);
      hide HandleFrame;
      DemuxCallsBack(HandleFrame(d, frames[0]), frames[1..]);
      assert (d.delivered + CallFor(frames[0])) + CallsIn(frames[1..]) == d.delivered + (CallFor(frames[0]) + CallsIn(frames[1..]));
    }
  }

  lemma FrameCallsBack(d: Demux, f: Frame)
    ensures HandleFrame(d, f).delivered == d.delivered + CallFor(f)
  {
  }

  // ---- What should arrive, said without frames ----

  /** Everything sent as data on one stream, in order. */
  function DataOn(ops: seq<Sending>, id: nat): bytes {
    if ops == [] then [] else DataOf(ops[0], id) + DataOn(ops[1..], id)
  }

  function DataOf(op: Sending, id: nat): bytes {
    if op.StreamData? && op.id % ID_SPACE == id then op.data else []
  }

  function UsedIds(ops: seq<Sending>): set<nat> {
    set op <- ops | op.id % ID_SPACE != 0 :: op.id % ID_SPACE
  }

  function DataCalls(ops: seq<Sending>): Deliveries {
    if ops == [] then [] else CallOf(ops[0]) + DataCalls(ops[1..])
  }

  function CallOf(op: Sending): Deliveries {
    if op.StreamData? && op.id % ID_SPACE != 0 then [(op.id % ID_SPACE, op.data)] else []
  }

  /** The frames of the calls say the same. */
  lemma SentFrameMeans(op: Sending, id: nat)
    ensures FrameOf(op).header.id == op.id % ID_SPACE
    ensures DataFor(FrameOf(op), id) == DataOf(op, id) && CallFor(FrameOf(op)) == CallOf(op)
  {
  }

  lemma {:induction false} SentFramesMean(ops: seq<Sending>, id: nat)
    ensures IdsIn(FramesOf(ops)) == UsedIds(ops)
    ensures DataIn(FramesOf(ops), id) == DataOn(ops, id) && CallsIn(FramesOf(ops)) == DataCalls(ops)
  {
    hide FrameOf, DataFor, DataOf, CallFor, CallOf;
    if ops == [] {
    } else {
      SentFrameMeans(ops[0], id);
      SentFramesMean(ops[1..], id);
      var f, head := FrameOf(ops[0]), ops[0].id % ID_SPACE;
      var own := if head != 0 then {head} else {};
      assert FramesOf(ops) == [f] + FramesOf(ops[1..]) && ops == [ops[0]] + ops[1..];
      assert UsedIds(ops) == own + UsedIds(ops[1..]);
      assert IdsIn(FramesOf(ops)) == own + IdsIn(FramesOf(ops[1..]));
    }
  }

  lemma WholeConversation(ops: seq<Sending>)
    requires forall op <- ops :: |Payload(op)| < LENGTH_SPACE
    ensures OnData(FRESH, Preface() + WrittenAll(ops)) == Framing(ReadingHeader, [], HandleAll(FRESH.demux, FramesOf(ops)))
  {
    hide Preface, WrittenAll, FramesOf, ParseAll, HandleAll;
    var all := [] + (Preface() + WrittenAll(ops));
    assert |all| >= PREFACE_LENGTH && all[..PREFACE_LENGTH] == Preface() && all[PREFACE_LENGTH..] == WrittenAll(ops);
    SentFramesReadBack(ops);
  }

  /** End to end: whatever calls of SendStreamData and SendHeaders follow the
      preface, however their bytes are cut into OnData calls, the receiver knows
      exactly the streams used, holds on each the data sent on it in order, and has
      called back once per data call, in the order sent, with nothing left over. */
  lemma MultiplexDemultiplex(ops: seq<Sending>, chunks: seq<bytes>)
    requires forall op <- ops :: |Payload(op)| < LENGTH_SPACE
    requires Flatten(chunks) == Preface() + WrittenAll(ops)
    ensures
      var s := Feed(OnData, FRESH, chunks);
      && s.Framing? && s.parser == ReadingHeader && s.buf == []
      && s.demux.streams.Keys == UsedIds(ops)
      && (forall id :: id in UsedIds(ops) ==> s.demux.streams[id] == DataOn(ops, id))
      && s.demux.delivered == DataCalls(ops)
  {
    hide WrittenAll, FramesOf, HandleAll, OnData, DataOn, DataCalls, Payload;
    SessionIsChunkBlind();
    assert |Flatten(chunks)| > 0;
    FeedIsOneDelivery(OnData, FRESH, chunks);
    WholeConversation(ops);
    var frames := FramesOf(ops);
    DemuxKnows(FRESH.demux, frames);
    DemuxCallsBack(FRESH.demux, frames);
    SentFramesMean(ops, 0);
    var streams := HandleAll(FRESH.demux, frames).streams;
    assert {} + UsedIds(ops) == UsedIds(ops) && [] + DataCalls(ops) == DataCalls(ops);
    forall id | id in UsedIds(ops)
      ensures streams[id] == DataOn(ops, id)
    {
      DemuxSorts(FRESH.demux, frames, id);
      SentFramesMean(ops, id);
      assert streams[id] == Held(streams, id);
    }
  }

  lemma {:induction false} HandleAllOnlyAdds(d: Demux, frames: seq<Frame>)
    ensures
      var e := HandleAll(d, frames);
      && d.delivered <= e.delivered
      && d.streams.Keys <= e.streams.Keys
      && forall id :: id in d.streams ==> d.streams[id] <= e.streams[id]
    decreases |frames|
  {
    if frames == [] {
    } else {
      var d1 := HandleFrame(d, frames[0]);
      HandleAllOnlyAdds(d1, frames[1..]);
      assert d.delivered <= d1.delivered;
      forall id | id in d.streams
        ensures d.streams[id] <= HandleAll(d, frames).streams[id]
      {
        assert d.streams[id] <= d1.streams[id];
      }
    }
  }

  lemma OnDataOnlyAdds(s: Session, chunk: bytes)
    ensures
      var t := OnData(s, chunk);
      && s.demux.delivered <= t.demux.delivered
      && s.demux.streams.Keys <= t.demux.streams.Keys
      && forall id :: id in s.demux.streams ==> s.demux.streams[id] <= t.demux.streams[id]
  {
    if s.Framing? {
      HandleAllOnlyAdds(s.demux, ParseAll(s.parser, s.buf + chunk).frames);
    } else if s.AwaitingPreface? && |s.buf + chunk| >= PREFACE_LENGTH {
      HandleAllOnlyAdds(s.demux, ParseAll(ReadingHeader, (s.buf + chunk)[PREFACE_LENGTH..]).frames);
    }
  }

  /** And at every moment before that: once any prefix of those bytes has arrived,
      what has been delivered is a prefix of what will be. */
  lemma DeliveriesArePrefixes(ops: seq<Sending>, arrived: seq<bytes>, missing: bytes)
    requires forall op <- ops :: |Payload(op)| < LENGTH_SPACE
    requires Flatten(arrived) + missing == Preface() + WrittenAll(ops)
    ensures
      var s := Feed(OnData, FRESH, arrived);
      && !s.Rejected?
      && s.demux.delivered <= DataCalls(ops)
      && s.demux.streams.Keys <= UsedIds(ops)
      && forall id :: id in s.demux.streams ==> s.demux.streams[id] <= DataOn(ops, id)
  {
    FlattenSnoc(arrived, missing);
    MultiplexDemultiplex(ops, arrived + [missing]);
    FeedSnoc(OnData, FRESH, arrived, missing);
    OnDataOnlyAdds(Feed(OnData, FRESH, arrived), missing);
  }

  // ---- The object ----

  class SessionObject {
    const connection: C.Connection
    const parser: FrameParser
    var prefaceReceived: bool
    var streams: Streams
    var delivered: Deliveries

    ghost predicate Valid()
      reads this, parser, connection, connection.input, connection.output, connection.input.store, connection.output.store
    {
      connection.Valid() && (!prefaceReceived ==> parser.State().ReadingHeader?)
    }

    /** A connection closed with its preface refused is the rejected session. */
    ghost function View(): Session
      requires Valid()
      reads this, parser, connection, connection.input, connection.output, connection.input.store, connection.output.store
    {
      var demux := Demux(streams, delivered);
      if prefaceReceived then Framing(parser.State(), connection.input.Contents(), demux)
      else if connection.state.Disconnected? then Rejected(demux)
      else AwaitingPreface(connection.input.Contents(), demux)
    }

    constructor (connection: C.Connection)
      requires connection.Valid()
      ensures Valid() && this.connection == connection && fresh(parser)
      ensures !prefaceReceived && streams == map[] && delivered == [] && parser.State() == ReadingHeader
    {
      this.connection := connection;
      parser := new FrameParser();
      prefaceReceived, streams, delivered := false, map[], [];
    }

    /** OnData, called after a read on a connection not already closed: the result
        is the session that receives an empty further chunk. */
    method HandleInput()
      requires Valid() && (connection.state.Disconnected? ==> prefaceReceived)
      modifies this, parser, connection, connection.input`reader, connection.input`writer
      ensures Valid()
      ensures View() == OnData(old(View()), [])
      ensures View().Rejected? ==> connection.state.Disconnected?
      ensures connection.View() == (if View().Rejected? then C.Close(old(connection.View())) else old(connection.View()))
                                     .(input := connection.input.Contents())
    {
      var buf := connection.input;
      assert buf.Contents() + [] == buf.Contents();
      if !prefaceReceived {
        if buf.ReadableBytes() < PREFACE_LENGTH {
          return;
        }
        if buf.Peek()[..PREFACE_LENGTH] != Preface() {
          connection.HandleClose();
          return;
        }
        buf.Retrieve(PREFACE_LENGTH);
        prefaceReceived := true;
      }
      PumpFrames();
    }

    /** OnData's parse loop. */
    method PumpFrames()
      requires Valid() && prefaceReceived
      modifies `streams, `delivered, parser, connection.input`reader, connection.input`writer
      ensures Valid() && prefaceReceived
      ensures View() == Frames(old(parser.State()), old(connection.input.Contents()), Demux(old(streams), old(delivered)))
      ensures connection.View() == old(connection.View()).(input := connection.input.Contents())
    {
      hide ParseOne, HandleFrame;
      var buf := connection.input;
      ghost var target := ParseAll(parser.State(), buf.Contents());
      ghost var demux := HandleAll(Demux(streams, delivered), target.frames);
      var more := true;
      while more
        invariant Valid() && prefaceReceived
        invariant connection.View() == old(connection.View()).(input := buf.Contents())
        invariant
          var p := ParseAll(parser.State(), buf.Contents());
          && p.state == target.state && p.rest == target.rest
          && HandleAll(Demux(streams, delivered), p.frames) == demux
          && (!more ==> p == Parsed([], parser.State(), buf.Contents()))
        decreases more, Measure(parser.State(), buf.Contents())
      {
        ParseOneShrinks(parser.State(), buf.Contents());
        var frame := parser.Parse(buf);
        more := frame.Some?;
        if more {
          Dispatch(frame.value);
        }
      }
    }

    method Dispatch(f: Frame)
      modifies `streams, `delivered
      ensures Demux(streams, delivered) == HandleFrame(Demux(old(streams), old(delivered)), f)
    {
      if f.header.id > 0 {
        if f.header.id !in streams {
          streams := streams[f.header.id := []];
        }
        if f.header.kind == DATA {
          streams := streams[f.header.id := streams[f.header.id] + f.payload];
          delivered := delivered + [(f.header.id, f.payload)];
        }
      }
    }

    /** Header and payload go to the connection as two sends. */
    method SendStreamData(id: nat, data: bytes, endStream: bool)
      requires Valid()
      modifies connection, connection.output, connection.output.store
      ensures Valid()
      ensures connection.View() == SendCall(old(connection.View()), StreamData(id, data, endStream))
      ensures C.Stream(connection.View()) == C.Stream(old(connection.View())) + Written(StreamData(id, data, endStream))
    {
      var header := HeaderBytes(Header(|data|, DATA, if endStream then 0x1 else 0x0, id % ID_SPACE), false);
      SendFrame(header, data);
    }

    method SendHeaders(id: nat, fields: seq<Hpack.Field>, endStream: bool)
      requires Valid()
      modifies connection, connection.output, connection.output.store
      ensures Valid()
      ensures connection.View() == SendCall(old(connection.View()), StreamHeaders(id, fields, endStream))
      ensures C.Stream(connection.View()) == C.Stream(old(connection.View())) + Written(StreamHeaders(id, fields, endStream))
    {
      var block := Hpack.EncodeFields(fields);
      var header := HeaderBytes(Header(|block|, HEADERS, if endStream then 0x5 else 0x4, id % ID_SPACE), false);
      SendFrame(header, if |block| % Hpack.WORD > 0 then block else []);
    }

    method SendFrame(header: bytes, payload: bytes)
      requires Valid()
      modifies connection, connection.output, connection.output.store
      ensures Valid()
      ensures connection.View() == TwoSends(old(connection.View()), header, payload)
      ensures C.Stream(connection.View()) == C.Stream(old(connection.View())) + (header + payload)
    {
      hide C.Send;
      C.StepExtendsStream(connection.View(), C.DoSend(header));
      connection.SendBytes(header);
      if payload != [] {
        C.StepExtendsStream(connection.View(), C.DoSend(payload));
        connection.SendBytes(payload);
      }
    }
  }
}
