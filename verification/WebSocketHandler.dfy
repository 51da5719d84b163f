/** lib_network/src/protocols/websocket/websocket_handler.cc, after the upgrade: the
    loop that feeds the input buffer to the frame parser, one connection per handler. */
module WebSocketHandlers {
  import opened Bytes
  import opened Memory
  import opened WebSocket

  /** `frames` are the frames parsed so far; a close frame ends the connection. */
  datatype Handler = Handler(parser: State, buf: bytes, frames: seq<Frame>, closed: bool)

  const UPGRADED := Handler(AtHeader, [], [], false)

  /** When Parse delivers no frame the loop stops without consuming anything, even
      though the parser has moved on. */
  function Loop(parser: State, buf: bytes, frames: seq<Frame>): Handler
    decreases |buf|, Rank(AtHeader) - Rank(parser)
  {
    if buf == [] then Handler(parser, buf, frames, false)
    else
      var r := Parse(parser, buf);
      if r.frame.None? then Handler(r.state, buf, frames, false)
      else if r.frame.value.head.opcode == CLOSE then
        Handler(AtHeader, buf[r.absorbed..], frames + [r.frame.value], true)
      else
        FrameTakesBytes(parser, buf);
        Loop(AtHeader, buf[r.absorbed..], frames + [r.frame.value])
  }

  function OnMessage(h: Handler, chunk: bytes): Handler {
    if h.closed then h else Loop(h.parser, h.buf + chunk, h.frames)
  }

  /** What a frame costs besides its payload, from a state past the header. */
  function Overhead(st: State): nat {
    match st
    case AtHeader => 2
    case AtLength(head, wide) => (if wide then 8 else 2) + if head.masked then 4 else 0
    case AtMaskKey(_, _) => 4
    case AtPayload(_, _, _) => 0
  }

  lemma {:induction false} FrameCost(st: State, buf: bytes)
    requires !st.AtHeader?
    ensures
      var r := Parse(st, buf);
      r.frame.Some? ==> r.absorbed == Overhead(st) + |r.frame.value.payload|
    decreases Rank(st)
  {
    match st
    case AtLength(head, wide) =>
      var n := if wide then 8 else 2;
      if |buf| >= n {
        FrameCost(AfterLength(head, FromBe(buf[..n])), buf[n..]);
      }
    case AtMaskKey(head, length) =>
      if |buf| >= 4 {
        FrameCost(AtPayload(head, length, buf[..4]), buf[4..]);
      }
    case AtPayload(_, _, _) =>
  }

  lemma FrameTakesBytes(st: State, buf: bytes)
    ensures Parse(st, buf).frame.Some? && st.AtHeader? ==> Parse(st, buf).absorbed > 0
  {
  }

  lemma {:induction false} LoopOnlyAdds(parser: State, buf: bytes, frames: seq<Frame>)
    ensures
      var h := Loop(parser, buf, frames);
      frames <= h.frames && (h.frames == frames ==> h.buf == buf)
    decreases |buf|, Rank(AtHeader) - Rank(parser)
  {
    if buf == [] {
    } else {
      var r := Parse(parser, buf);
      if r.frame.Some? && r.frame.value.head.opcode != CLOSE {
        FrameTakesBytes(parser, buf);
        LoopOnlyAdds(AtHeader, buf[r.absorbed..], frames + [r.frame.value]);
      }
    }
  }

  ghost predicate Sendable(f: Frame) {
    f.head.opcode < 16 && f.head.opcode != CLOSE && |f.payload| <= MAX_PAYLOAD
  }

  type Key = k: bytes | |k| == 4 witness [0, 0, 0, 0]

  datatype Keyed = Keyed(frame: Frame, key: Key)

  function Wire(sent: seq<Keyed>): bytes {
    if sent == [] then []
    else RfcFrame(sent[0].frame.head, sent[0].key, sent[0].frame.payload) + Wire(sent[1..])
  }

  function FramesOf(sent: seq<Keyed>): seq<Frame> {
    if sent == [] then [] else [sent[0].frame] + FramesOf(sent[1..])
  }

  /** Frames that arrive whole are all parsed, in order, with nothing left. */
  lemma {:induction false} WholeFramesArrive(sent: seq<Keyed>, frames: seq<Frame>)
    requires forall k <- sent :: Sendable(k.frame)
    ensures Loop(AtHeader, Wire(sent), frames) == Handler(AtHeader, [], frames + FramesOf(sent), false)
    decreases |sent|
  {
    hide Parse, RfcFrame;
    if sent == [] {
      assert frames + [] == frames;
    } else {
      var f, more := sent[0].frame, Wire(sent[1..]);
      var w := RfcFrame(f.head, sent[0].key, f.payload);
      RfcFrameParses(f.head, sent[0].key, f.payload, more);
      RfcFrameNonempty(f.head, sent[0].key, f.payload);
      assert (w + more)[|w|..] == more;
      WholeFramesArrive(sent[1..], frames + [f]);
      assert frames + [f] + FramesOf(sent[1..]) == frames + FramesOf(sent);
    }
  }

  lemma RfcFrameNonempty(head: Head, key: bytes, payload: bytes)
    requires |key| == 4
    ensures RfcFrame(head, key, payload) != []
  {
  }

  /** The first of two reads: no frame yet, and the bytes stay in the buffer. */
  lemma FirstPart(f: Frame, key: bytes, cut: nat)
    requires Sendable(f) && |key| == 4
    requires 0 < cut < |RfcFrame(f.head, key, f.payload)|
    ensures
      var w := RfcFrame(f.head, key, f.payload);
      var r := Parse(AtHeader, w[..cut]);
      && OnMessage(UPGRADED, w[..cut]) == Handler(r.state, w[..cut], [], false)
      && (cut < 2 ==> r.state == AtHeader)
      && (cut >= 2 ==> r.absorbed >= 2 && !r.state.AtHeader?)
      && Shift(r.absorbed, Parse(r.state, w[r.absorbed..])) == Result(Some(f), AtHeader, |w|)
  {
    hide RfcFrame, Parse, Loop;
    var w := RfcFrame(f.head, key, f.payload);
    var r := Parse(AtHeader, w[..cut]);
    RfcFrameParses(f.head, key, f.payload, []);
    assert w + [] == w && w[..cut] + w[cut..] == w && [] + w[..cut] == w[..cut];
    ParseResumes(AtHeader, w[..cut], w[cut..]);
    HeaderProgress(w[..cut]);
    assert w[..cut][r.absorbed..] + w[cut..] == w[r.absorbed..];
    LoopStep(AtHeader, w[..cut], []);
  }

  lemma HeaderProgress(data: bytes)
    ensures
      var r := Parse(AtHeader, data);
      && (|data| < 2 ==> r == Result(None, AtHeader, 0))
      && (|data| >= 2 && r.frame.None? ==> r.absorbed >= 2 && !r.state.AtHeader?)
  {
    if |data| >= 2 {
      StaysPastHeader(AfterHeader(data[0], data[1]), data[2..]);
    }
  }

  lemma {:induction false} StaysPastHeader(st: State, data: bytes)
    requires !st.AtHeader?
    ensures Parse(st, data).frame.None? ==> !Parse(st, data).state.AtHeader?
    decreases Rank(st)
  {
    match st
    case AtLength(head, wide) =>
      var n := if wide then 8 else 2;
      if |data| >= n {
        StaysPastHeader(AfterLength(head, FromBe(data[..n])), data[n..]);
      }
    case AtMaskKey(head, length) =>
      if |data| >= 4 {
        StaysPastHeader(AtPayload(head, length, data[..4]), data[4..]);
      }
    case AtPayload(_, _, _) =>
  }

  /** The parser resumes, but the handler presents the absorbed bytes again. A frame
      that arrives in two reads is therefore received, and the handler back in step,
      exactly when the first read carried less than its two header bytes. After any
      later cut the handler is out of step, even where the bytes happen to be such that
      the frame it parses is the one that was sent. */
  lemma SplitFrameArrivesIff(f: Frame, key: bytes, cut: nat)
    requires Sendable(f) && |key| == 4
    requires 0 < cut < |RfcFrame(f.head, key, f.payload)|
    ensures
      var w := RfcFrame(f.head, key, f.payload);
      OnMessage(OnMessage(UPGRADED, w[..cut]), w[cut..]) == Handler(AtHeader, [], [f], false) <==> cut < 2
  {
    if cut < 2 {
      EarlyCutArrives(f, key, cut);
    } else {
      LateCutLeavesStep(f, key, cut);
    }
  }

  lemma EarlyCutArrives(f: Frame, key: bytes, cut: nat)
    requires Sendable(f) && |key| == 4
    requires 0 < cut < |RfcFrame(f.head, key, f.payload)| && cut < 2
    ensures
      var w := RfcFrame(f.head, key, f.payload);
      OnMessage(OnMessage(UPGRADED, w[..cut]), w[cut..]) == Handler(AtHeader, [], [f], false)
  {
    var w := RfcFrame(f.head, key, f.payload);
    FirstPart(f, key, cut);
    HeaderProgress(w[..cut]);
    hide RfcFrame, Parse, Loop;
    assert w[..cut] + w[cut..] == w && w[0..] == w && w[|w|..] == [];
    LoopStep(AtHeader, w, []);
    LoopIdle([f]);
  }

  lemma LateCutLeavesStep(f: Frame, key: bytes, cut: nat)
    requires Sendable(f) && |key| == 4
    requires 2 <= cut < |RfcFrame(f.head, key, f.payload)|
    ensures
      var w := RfcFrame(f.head, key, f.payload);
      OnMessage(OnMessage(UPGRADED, w[..cut]), w[cut..]) != Handler(AtHeader, [], [f], false)
  {
    var w := RfcFrame(f.head, key, f.payload);
    FirstPart(f, key, cut);
    hide RfcFrame, Parse, Loop;
    var r := Parse(AtHeader, w[..cut]);
    assert w[..cut] + w[cut..] == w;
    SecondReadIsOutOfStep(r.state, w, w[r.absorbed..], f);
  }

  lemma LoopIdle(frames: seq<Frame>)
    ensures Loop(AtHeader, [], frames) == Handler(AtHeader, [], frames, false)
  {
  }

  lemma SecondReadIsOutOfStep(st: State, w: bytes, x: bytes, f: Frame)
    requires !st.AtHeader? && |x| < |w| && f.head.opcode != CLOSE
    requires Parse(st, x) == Result(Some(f), AtHeader, |x|)
    ensures Loop(st, w, []) != Handler(AtHeader, [], [f], false)
  {
    FrameCost(st, x);
    FrameCost(st, w);
    LoopStep(st, w, []);
    hide Parse, Loop;
    assert forall g: Frame :: [] + [g] == [g];
    var r := Parse(st, w);
    if r.frame.Some? && r.frame.value.head.opcode != CLOSE {
      var first, rest := r.frame.value, w[r.absorbed..];
      LoopOnlyAdds(AtHeader, rest, [first]);
      if first == f {
        assert rest != [];
      } else {
        assert Loop(AtHeader, rest, [first]).frames[0] != f;
      }
    }
  }

  lemma LoopStep(st: State, buf: bytes, frames: seq<Frame>)
    requires buf != []
    ensures
      var r := Parse(st, buf);
      Loop(st, buf, frames) ==
      if r.frame.None? then Handler(r.state, buf, frames, false)
      else if r.frame.value.head.opcode == CLOSE then Handler(AtHeader, buf[r.absorbed..], frames + [r.frame.value], true)
      else Loop(AtHeader, buf[r.absorbed..], frames + [r.frame.value])
  {
    hide Parse;
  }

  // ---- The object ----

  class WebSocketHandler {
    const parser: FrameParser
    const buf: Buffer
    var frames: seq<Frame>
    var closed: bool

    ghost predicate Valid()
      reads this, parser, buf, buf.store
    {
      parser.Valid() && buf.Valid()
    }

    ghost function View(): Handler
      requires Valid()
      reads this, parser, buf, buf.store
    {
      Handler(parser.State(), buf.Contents(), frames, closed)
    }

    constructor (buf: Buffer)
      requires buf.Valid()
      ensures Valid() && this.buf == buf && fresh(parser)
      ensures View() == UPGRADED.(buf := buf.Contents())
    {
      this.buf := buf;
      parser := new FrameParser();
      frames, closed := [], false;
    }

    method HandleInput()
      requires Valid() && !closed
      modifies this, parser, buf`reader, buf`writer
      ensures Valid() && View() == Loop(old(parser.State()), old(buf.Contents()), old(frames))
    {
      hide Parse;
      ghost var target := Loop(parser.State(), buf.Contents(), frames);
      while buf.ReadableBytes() > 0
        invariant Valid() && !closed
        invariant Loop(parser.State(), buf.Contents(), frames) == target
        decreases buf.ReadableBytes(), Rank(AtHeader) - Rank(parser.State())
      {
        FrameTakesBytes(parser.State(), buf.Contents());
        ghost var before := buf.Contents();
        var frame, consumed, absorbed := parser.ParseFrame(buf.Peek());
        if frame.None? {
          return;
        }
        buf.Retrieve(consumed);
        frames := frames + [frame.value];
        if frame.value.head.opcode == CLOSE {
          closed := true;
          return;
        }
      }
    }
  }
}
