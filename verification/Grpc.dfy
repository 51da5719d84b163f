/** lib_network/src/protocols/grpc/grpc_codec.cc: length-prefixed messages, alone and
    carried as HTTP/2 data. */
module Grpc {
  import opened Bytes
  import opened Memory
  import H = Http2Sessions
  import F = Http2Frames
  import Hpack

  const HEADER_SIZE := 5
  const WORD := 0x1_0000_0000

  datatype Message = Message(payload: bytes, compressed: bool)

  function Encode(m: Message): bytes {
    [if m.compressed then 1 else 0] + Be32(|m.payload|) + m.payload
  }

  datatype Decoded = Decoded(message: Option<Message>, rest: bytes)

  /** Either a whole message off the front, or nothing consumed. */
  function DecodeOne(buf: bytes): Decoded {
    if |buf| < HEADER_SIZE then Decoded(None, buf)
    else
      var length := FromBe32(buf[1..HEADER_SIZE]);
      if |buf| < HEADER_SIZE + length then Decoded(None, buf)
      else Decoded(Some(Message(buf[HEADER_SIZE..HEADER_SIZE + length], buf[0] != 0)), buf[HEADER_SIZE + length..])
  }

  lemma LengthField(m: Message, rest: bytes)
    ensures
      var buf := Encode(m) + rest;
      && |buf| >= HEADER_SIZE && (buf[0] != 0 <==> m.compressed)
      && FromBe32(buf[1..HEADER_SIZE]) == |m.payload| % WORD
      && buf[HEADER_SIZE..] == m.payload + rest
  {
    Be32RoundTrip(|m.payload|);
    assert (Encode(m) + rest)[1..HEADER_SIZE] == Be32(|m.payload|);
  }

  /** A message reads back, leaving exactly the bytes after it. */
  lemma MessageRoundTrip(m: Message, rest: bytes)
    requires |m.payload| < WORD
    ensures DecodeOne(Encode(m) + rest) == Decoded(Some(m), rest)
  {
    LengthField(m, rest);
    hide Encode, Be32, FromBe32;
    var buf, n := Encode(m) + rest, |m.payload|;
    assert buf[HEADER_SIZE..HEADER_SIZE + n] == buf[HEADER_SIZE..][..n] == m.payload;
    assert buf[HEADER_SIZE + n..] == buf[HEADER_SIZE..][n..] == rest;
  }

  /** Whatever its flag byte, any but zero meaning compressed. */
  lemma AnyFlagDecodes(flag: byte, payload: bytes, rest: bytes)
    requires |payload| < WORD
    ensures DecodeOne([flag] + Be32(|payload|) + payload + rest) == Decoded(Some(Message(payload, flag != 0)), rest)
  {
    hide Be32, FromBe32;
    var buf, n := [flag] + Be32(|payload|) + payload + rest, |payload|;
    Be32RoundTrip(n);
    assert buf[1..HEADER_SIZE] == Be32(n);
    assert buf[HEADER_SIZE..] == payload + rest;
    assert buf[HEADER_SIZE..HEADER_SIZE + n] == buf[HEADER_SIZE..][..n] == payload;
    assert buf[HEADER_SIZE + n..] == buf[HEADER_SIZE..][n..] == rest;
  }

  /** A message reads back exactly when its length fits the 32-bit length field. */
  lemma MessageReadsBackIff(m: Message)
    ensures DecodeOne(Encode(m)) == Decoded(Some(m), []) <==> |m.payload| < WORD
  {
    LengthField(m, []);
    assert Encode(m) + [] == Encode(m);
    if |m.payload| < WORD {
      MessageRoundTrip(m, []);
    }
  }

  /** Cutting a message short never yields a wrong one: the decoder waits. */
  lemma PartialMessageWaits(m: Message, cut: nat)
    requires |m.payload| < WORD && cut < |Encode(m)|
    ensures DecodeOne(Encode(m)[..cut]) == Decoded(None, Encode(m)[..cut])
  {
    LengthField(m, []);
    assert Encode(m) + [] == Encode(m);
    if cut >= HEADER_SIZE {
      assert Encode(m)[..cut][1..HEADER_SIZE] == Encode(m)[1..HEADER_SIZE];
    }
  }

  // ---- Over HTTP/2 ----

  /** What the data callback makes of each frame by itself. */
  function Received(deliveries: H.Deliveries): seq<(nat, Decoded)> {
    seq(|deliveries|, i requires 0 <= i < |deliveries| => (deliveries[i].0, DecodeOne(deliveries[i].1)))
  }

  lemma {:induction false} DataCallsFit(ops: seq<H.Sending>)
    requires forall op <- ops :: |H.Payload(op)| < F.LENGTH_SPACE
    ensures forall call <- H.DataCalls(ops) :: |call.1| < F.LENGTH_SPACE
  {
    if ops == [] {
    } else {
      DataCallsFit(ops[1..]);
      assert ops[0] in ops;
      assert ops[0].StreamData? ==> H.Payload(ops[0]) == ops[0].data;
    }
  }

  /** Among any calls of SendStreamData and SendHeaders, cut anywhere by the network: a
      data call that carries a message is decoded as that message on its stream, with
      nothing left over, and an empty one, such as the end of a stream, as nothing. */
  lemma MessagesSurviveTheStack(ops: seq<H.Sending>, chunks: seq<bytes>)
    requires forall op <- ops :: |H.Payload(op)| < F.LENGTH_SPACE
    requires Flatten(chunks) == H.Preface() + H.WrittenAll(ops)
    ensures
      var calls, received := H.DataCalls(ops), Received(Feed(H.OnData, H.FRESH, chunks).demux.delivered);
      && |received| == |calls|
      && (forall j, m :: 0 <= j < |calls| && calls[j].1 == Encode(m) ==> received[j] == (calls[j].0, Decoded(Some(m), [])))
      && (forall j :: 0 <= j < |calls| && calls[j].1 == [] ==> received[j] == (calls[j].0, Decoded(None, [])))
  {
    H.MultiplexDemultiplex(ops, chunks);
    DataCallsFit(ops);
    CallsDecode(H.DataCalls(ops));
    hide *;
  }

  lemma CallsDecode(calls: H.Deliveries)
    requires forall call <- calls :: |call.1| < F.LENGTH_SPACE
    ensures |Received(calls)| == |calls|
    ensures forall j, m :: 0 <= j < |calls| && calls[j].1 == Encode(m) ==> Received(calls)[j] == (calls[j].0, Decoded(Some(m), []))
    ensures forall j :: 0 <= j < |calls| && calls[j].1 == [] ==> Received(calls)[j] == (calls[j].0, Decoded(None, []))
  {
    forall j, m | 0 <= j < |calls| && calls[j].1 == Encode(m)
      ensures Received(calls)[j] == (calls[j].0, Decoded(Some(m), []))
    {
      assert calls[j] in calls;
      MessageReadsBackIff(m);
    }
  }

  /** A gRPC exchange: what GrpcStreamContext writes, and headers on any streams. */
  datatype Call =
    | Write(stream: nat, message: Message)
    | Headers(stream: nat, fields: seq<Hpack.Field>, endStream: bool)
    | Close(stream: nat)

  function AsSending(call: Call): H.Sending {
    match call
    case Write(stream, message) => H.StreamData(stream, Encode(message), false)
    case Headers(stream, fields, endStream) => H.StreamHeaders(stream, fields, endStream)
    case Close(stream) => H.StreamData(stream, [], true)
  }

  function Exchange(calls: seq<Call>): seq<H.Sending> {
    if calls == [] then [] else [AsSending(calls[0])] + Exchange(calls[1..])
  }

  type Messages = seq<(nat, Message)>

  /** The messages written, each with the stream it arrives on. */
  function MessagesWritten(calls: seq<Call>): Messages {
    if calls == [] then [] else WrittenBy(calls[0]) + MessagesWritten(calls[1..])
  }

  function WrittenBy(call: Call): Messages {
    if call.Write? && call.stream % F.ID_SPACE != 0 then [(call.stream % F.ID_SPACE, call.message)] else []
  }

  /** The messages the stream handler is given. */
  function MessagesIn(deliveries: H.Deliveries): Messages {
    if deliveries == [] then [] else MessageIn(deliveries[0]) + MessagesIn(deliveries[1..])
  }

  function MessageIn(delivery: (nat, bytes)): Messages {
    var message := DecodeOne(delivery.1).message;
    if message.Some? then [(delivery.0, message.value)] else []
  }

  lemma CallDecodes(call: Call)
    requires |H.Payload(AsSending(call))| < F.LENGTH_SPACE
    ensures MessagesIn(H.CallOf(AsSending(call))) == WrittenBy(call)
  {
    match call
    case Write(stream, message) =>
      MessageReadsBackIff(message);
      hide DecodeOne, Encode;
    case _ =>
  }

  lemma {:induction false} MessagesInAppend(a: H.Deliveries, b: H.Deliveries)
    ensures MessagesIn(a + b) == MessagesIn(a) + MessagesIn(b)
  {
    hide MessageIn;
    if a == [] {
      assert a + b == b;
    } else {
      assert (a + b)[0] == a[0] && (a + b)[1..] == a[1..] + b;
      MessagesInAppend(a[1..], b);
      assert MessageIn(a[0]) + (MessagesIn(a[1..]) + MessagesIn(b)) == MessageIn(a[0]) + MessagesIn(a[1..]) + MessagesIn(b);
    }
  }

  /** What the frames of an exchange carry to the handler is exactly the messages written. */
  lemma {:induction false} ExchangeDecodes(calls: seq<Call>)
    requires forall op <- Exchange(calls) :: |H.Payload(op)| < F.LENGTH_SPACE
    ensures MessagesIn(H.DataCalls(Exchange(calls))) == MessagesWritten(calls)
  {
    hide AsSending, H.CallOf, WrittenBy, MessageIn;
    if calls == [] {
    } else {
      var op, more := AsSending(calls[0]), Exchange(calls[1..]);
      assert Exchange(calls) == [op] + more && op in Exchange(calls);
      CallDecodes(calls[0]);
      ExchangeDecodes(calls[1..]);
      MessagesInAppend(H.CallOf(op), H.DataCalls(more));
    }
  }

  // ---- A message in pieces ----

  function Pieces(stream: nat, pieces: seq<bytes>): seq<H.Sending> {
    if pieces == [] then [] else [H.StreamData(stream, pieces[0], false)] + Pieces(stream, pieces[1..])
  }

  lemma {:induction false} PiecesAreCalls(stream: nat, pieces: seq<bytes>)
    requires stream % F.ID_SPACE != 0
    ensures
      var ops, id := Pieces(stream, pieces), stream % F.ID_SPACE;
      && H.DataOn(ops, id) == Flatten(pieces)
      && H.UsedIds(ops) == (if pieces == [] then {} else {id})
      && |H.DataCalls(ops)| == |pieces|
      && forall i :: 0 <= i < |pieces| ==> H.DataCalls(ops)[i] == (id, pieces[i])
  {
    if pieces == [] {
    } else {
      var op, more, id := H.StreamData(stream, pieces[0], false), Pieces(stream, pieces[1..]), stream % F.ID_SPACE;
      PiecesAreCalls(stream, pieces[1..]);
      assert Pieces(stream, pieces) == [op] + more;
      assert H.UsedIds([op] + more) == {id} + H.UsedIds(more);
      assert H.DataCalls([op] + more) == [(id, pieces[0])] + H.DataCalls(more);
    }
  }

  lemma {:induction false} PiecesFit(stream: nat, pieces: seq<bytes>, n: nat)
    requires |Flatten(pieces)| <= n
    ensures forall op <- Pieces(stream, pieces) :: |H.Payload(op)| <= n
  {
    if pieces == [] {
    } else {
      PiecesFit(stream, pieces[1..], n);
    }
  }

  lemma {:induction false} WholePiece(pieces: seq<bytes>, i: nat)
    requires i < |pieces|
    ensures |pieces[i]| <= |Flatten(pieces)|
    ensures |pieces[i]| == |Flatten(pieces)| ==> pieces[i] == Flatten(pieces)
  {
    if i == 0 {
      assert |Flatten(pieces[1..])| == 0 ==> Flatten(pieces) == pieces[0] + [];
    } else {
      WholePiece(pieces[1..], i - 1);
      assert |pieces[0]| == 0 ==> Flatten(pieces) == [] + Flatten(pieces[1..]);
    }
  }

  /** Decoding takes at least a message's own size. */
  lemma PieceDecodesIff(pieces: seq<bytes>, m: Message, i: nat)
    requires i < |pieces| && Flatten(pieces) == Encode(m) && |m.payload| < WORD
    ensures DecodeOne(pieces[i]).message == Some(m) <==> pieces[i] == Encode(m)
  {
    WholePiece(pieces, i);
    MessageReadsBackIff(m);
    hide Flatten, FromBe32, Be32;
    assert DecodeOne(pieces[i]).message == Some(m) ==> |pieces[i]| >= |Encode(m)|;
  }

  /** The callback decodes each frame by itself: of a message sent in any number of
      pieces, whatever the network cuts, the stream's buffer ends up holding all, and
      the handler is given the message if and only if one piece is the whole of it. */
  lemma SplitMessageArrivesIff(stream: nat, m: Message, pieces: seq<bytes>, chunks: seq<bytes>)
    requires stream % F.ID_SPACE != 0 && |Encode(m)| < F.LENGTH_SPACE && Flatten(pieces) == Encode(m)
    requires Flatten(chunks) == H.Preface() + H.WrittenAll(Pieces(stream, pieces))
    ensures
      var demux := Feed(H.OnData, H.FRESH, chunks).demux;
      && demux.streams == map[stream % F.ID_SPACE := Encode(m)]
      && ((exists r <- Received(demux.delivered) :: r.1.message == Some(m)) <==> Encode(m) in pieces)
  {
    assert pieces != [];
    PiecesArrive(stream, pieces, chunks);
    SomePieceDecodesIff(Feed(H.OnData, H.FRESH, chunks).demux.delivered, pieces, m);
    hide *;
  }

  lemma PiecesArrive(stream: nat, pieces: seq<bytes>, chunks: seq<bytes>)
    requires stream % F.ID_SPACE != 0 && pieces != [] && |Flatten(pieces)| < F.LENGTH_SPACE
    requires Flatten(chunks) == H.Preface() + H.WrittenAll(Pieces(stream, pieces))
    ensures
      var demux, id := Feed(H.OnData, H.FRESH, chunks).demux, stream % F.ID_SPACE;
      && demux.streams == map[id := Flatten(pieces)]
      && |demux.delivered| == |pieces|
      && forall i :: 0 <= i < |pieces| ==> demux.delivered[i] == (id, pieces[i])
  {
    PiecesFit(stream, pieces, |Flatten(pieces)|);
    PiecesAreCalls(stream, pieces);
    H.MultiplexDemultiplex(Pieces(stream, pieces), chunks);
    hide H.OnData, H.WrittenAll, H.Preface, H.DataOn, H.UsedIds, H.DataCalls, Pieces, Feed, Flatten;
  }

  lemma SomePieceDecodesIff(deliveries: H.Deliveries, pieces: seq<bytes>, m: Message)
    requires |deliveries| == |pieces| && forall i :: 0 <= i < |pieces| ==> deliveries[i].1 == pieces[i]
    requires Flatten(pieces) == Encode(m) && |m.payload| < WORD
    ensures (exists r <- Received(deliveries) :: r.1.message == Some(m)) <==> Encode(m) in pieces
  {
    hide Encode, Flatten, DecodeOne;
    var received := Received(deliveries);
    forall i | 0 <= i < |pieces|
      ensures received[i].1.message == Some(m) <==> pieces[i] == Encode(m)
    {
      PieceDecodesIff(pieces, m, i);
    }
    if Encode(m) in pieces {
      var i :| 0 <= i < |pieces| && pieces[i] == Encode(m);
      assert received[i] in received;
    }
  }

  // ---- The codec on a buffer ----

  method DecodeFrom(buf: Buffer) returns (message: Option<Message>)
    requires buf.Valid()
    modifies buf`reader, buf`writer
    ensures buf.Valid()
    ensures Decoded(message, buf.Contents()) == DecodeOne(old(buf.Contents()))
  {
    if buf.ReadableBytes() < HEADER_SIZE {
      return None;
    }
    var data := buf.Peek();
    var length := FromBe32(data[1..HEADER_SIZE]);
    if buf.ReadableBytes() < HEADER_SIZE + length {
      return None;
    }
    message := Some(Message(data[HEADER_SIZE..HEADER_SIZE + length], data[0] != 0));
    buf.Retrieve(HEADER_SIZE + length);
  }
}
