/** The handler of lib_network/src/protocols/websocket/websocket_handler.cc:119-160 over
    whole conversations: any frames, in any number of reads. */
module WebSocketReads {
  import opened Bytes
  import opened Bits
  import opened WebSocket
  import opened WebSocketHandlers

  function Spelled(k: Keyed): (w: bytes)
    ensures |w| >= 2
  {
    RfcFrame(k.frame.head, k.key, k.frame.payload)
  }

  ghost predicate AllSendable(sent: seq<Keyed>) { forall k <- sent :: Sendable(k.frame) }

  // ---- Reads that end between frames, or one byte past ----

  /** n bytes of the frames end at a frame boundary or one byte past it. */
  predicate Safe(sent: seq<Keyed>, n: nat) {
    if sent == [] then n == 0
    else if n < |Spelled(sent[0])| then n < 2
    else Safe(sent[1..], n - |Spelled(sent[0])|)
  }

  /** Where the j-th read ends. */
  function End(chunks: seq<bytes>, j: nat): nat
    requires j <= |chunks|
  {
    |Flatten(chunks[..j])|
  }

  ghost predicate SafeReads(sent: seq<Keyed>, chunks: seq<bytes>) {
    forall j :: 0 <= j <= |chunks| ==> Safe(sent, End(chunks, j))
  }

  lemma FrameFirst(k: Keyed, more: bytes, frames: seq<Frame>)
    requires Sendable(k.frame)
    ensures Loop(AtHeader, Spelled(k) + more, frames) == Loop(AtHeader, more, frames + [k.frame])
  {
    var w := Spelled(k);
    RfcFrameParses(k.frame.head, k.key, k.frame.payload, more);
    LoopStep(AtHeader, w + more, frames);
    hide Parse, Loop, RfcFrame;
    assert (w + more)[|w|..] == more;
  }

  lemma ShortReadWaits(buf: bytes, frames: seq<Frame>)
    requires |buf| < 2
    ensures Loop(AtHeader, buf, frames) == Handler(AtHeader, buf, frames, false)
  {
  }

  /** After a safe read it makes no difference that it ended there, whatever follows. */
  lemma {:induction false} SafeReadIsHarmless(sent: seq<Keyed>, n: nat, frames: seq<Frame>, more: bytes)
    requires AllSendable(sent) && n <= |Wire(sent)| && Safe(sent, n)
    ensures OnMessage(Loop(AtHeader, Wire(sent)[..n], frames), more) == Loop(AtHeader, Wire(sent)[..n] + more, frames)
    decreases |sent|
  {
    hide Loop, RfcFrame, Sendable;
    var buf := Wire(sent)[..n];
    if sent == [] || n < |Spelled(sent[0])| {
      ShortReadWaits(buf, frames);
    } else {
      var k, rest := sent[0], Wire(sent[1..])[..n - |Spelled(sent[0])|];
      assert buf == Spelled(k) + rest && buf + more == Spelled(k) + (rest + more);
      FrameFirst(k, rest, frames);
      FrameFirst(k, rest + more, frames);
      SafeReadIsHarmless(sent[1..], n - |Spelled(k)|, frames + [k.frame], more);
    }
  }

  lemma LastEnd(chunks: seq<bytes>)
    requires chunks != []
    ensures
      var init, last := chunks[..|chunks| - 1], chunks[|chunks| - 1];
      && Flatten(chunks) == Flatten(init) + last
      && forall j :: 0 <= j <= |init| ==> End(init, j) == End(chunks, j)
  {
    var init, last := chunks[..|chunks| - 1], chunks[|chunks| - 1];
    FlattenSnoc(init, last);
    assert init + [last] == chunks;
    forall j | 0 <= j <= |init|
      ensures End(init, j) == End(chunks, j)
    {
      assert init[..j] == chunks[..j];
    }
  }

  /** Reads that all end safely, but for the last, have the effect of one. */
  lemma {:induction false} ReadsAreOneRead(sent: seq<Keyed>, chunks: seq<bytes>)
    requires AllSendable(sent) && Flatten(chunks) <= Wire(sent)
    requires forall j :: 0 <= j < |chunks| ==> Safe(sent, End(chunks, j))
    ensures Feed(OnMessage, UPGRADED, chunks) == Loop(AtHeader, Flatten(chunks), [])
    decreases |chunks|
  {
    hide AllSendable, Safe, Wire, OnMessage;
    if chunks == [] {
      ShortReadWaits([], []);
    } else {
      var init, last := chunks[..|chunks| - 1], chunks[|chunks| - 1];
      LastEnd(chunks);
      ReadsAreOneRead(sent, init);
      assert init[..|init|] == init && init + [last] == chunks;
      FeedSnoc(OnMessage, UPGRADED, init, last);
      assert Safe(sent, End(chunks, |init|));
      var n := |Flatten(init)|;
      assert Wire(sent)[..n] == Flatten(init);
      SafeReadIsHarmless(sent, n, [], last);
    }
  }

  /** Any frames, in any number of reads: if every read ends at a frame boundary or one
      byte past it, all frames are received, in order, and the handler is in step. */
  lemma SafeReadsArrive(sent: seq<Keyed>, chunks: seq<bytes>)
    requires AllSendable(sent) && Flatten(chunks) == Wire(sent) && SafeReads(sent, chunks)
    ensures Feed(OnMessage, UPGRADED, chunks) == Handler(AtHeader, [], FramesOf(sent), false)
  {
    ReadsAreOneRead(sent, chunks);
    WholeFramesArrive(sent, []);
    assert [] + FramesOf(sent) == FramesOf(sent);
  }

  /** A close frame ends the conversation: it is received after the frames before it, and
      nothing behind it ever is, whatever is read then. */
  lemma CloseFrameEnds(sent: seq<Keyed>, close: Keyed, behind: bytes, chunks: seq<bytes>)
    requires AllSendable(sent) && close.frame.head.opcode == CLOSE && |close.frame.payload| <= MAX_PAYLOAD
    ensures
      Feed(OnMessage, OnMessage(UPGRADED, Wire(sent) + (Spelled(close) + behind)), chunks)
      == Handler(AtHeader, behind, FramesOf(sent) + [close.frame], true)
  {
    FramesThenMore(sent, Spelled(close) + behind, []);
    CloseLast(close, behind, FramesOf(sent));
    var all := Wire(sent) + (Spelled(close) + behind);
    assert [] + all == all && [] + FramesOf(sent) == FramesOf(sent);
    ClosedStays(Handler(AtHeader, behind, FramesOf(sent) + [close.frame], true), chunks);
  }

  lemma {:induction false} FramesThenMore(sent: seq<Keyed>, more: bytes, frames: seq<Frame>)
    requires AllSendable(sent)
    ensures Loop(AtHeader, Wire(sent) + more, frames) == Loop(AtHeader, more, frames + FramesOf(sent))
    decreases |sent|
  {
    hide Loop, RfcFrame, Sendable;
    if sent == [] {
      assert [] + more == more && frames + [] == frames;
    } else {
      var k := sent[0];
      Assoc(Spelled(k), Wire(sent[1..]), more);
      FrameFirst(k, Wire(sent[1..]) + more, frames);
      FramesThenMore(sent[1..], more, frames + [k.frame]);
      Assoc(frames, [k.frame], FramesOf(sent[1..]));
    }
  }

  lemma CloseLast(close: Keyed, behind: bytes, frames: seq<Frame>)
    requires close.frame.head.opcode == CLOSE && |close.frame.payload| <= MAX_PAYLOAD
    ensures Loop(AtHeader, Spelled(close) + behind, frames) == Handler(AtHeader, behind, frames + [close.frame], true)
  {
    var w := Spelled(close);
    RfcFrameParses(close.frame.head, close.key, close.frame.payload, behind);
    LoopStep(AtHeader, w + behind, frames);
    hide Parse, Loop, RfcFrame;
    assert (w + behind)[|w|..] == behind;
  }

  lemma {:induction false} ClosedStays(h: Handler, chunks: seq<bytes>)
    requires h.closed
    ensures Feed(OnMessage, h, chunks) == h
    decreases |chunks|
  {
    if chunks == [] {
    } else {
      ClosedStays(h, chunks[1..]);
    }
  }

  // ---- The first read that does not ---

  /** An unsafe end is inside some frame, past its header. */
  lemma {:induction false} UnsafeIsInside(sent: seq<Keyed>, n: nat, frames: seq<Frame>) returns (i: nat, cut: nat)
    requires AllSendable(sent) && n <= |Wire(sent)| && !Safe(sent, n)
    ensures i < |sent| && 2 <= cut < |Spelled(sent[i])| && n == |Wire(sent[..i])| + cut
    ensures Wire(sent)[..n] == Wire(sent[..i]) + Spelled(sent[i])[..cut]
    ensures forall more :: Loop(AtHeader, Wire(sent)[..n] + more, frames)
                        == Loop(AtHeader, Spelled(sent[i])[..cut] + more, frames + FramesOf(sent[..i]))
    decreases |sent|
  {
    hide Loop, RfcFrame, Sendable;
    var k, rest := sent[0], Wire(sent[1..]);
    if n < |Spelled(k)| {
      i, cut := 0, n;
      assert sent[..0] == [] && frames + [] == frames;
      assert Wire(sent)[..n] == Spelled(k)[..n] == [] + Spelled(k)[..n];
    } else {
      var m := n - |Spelled(k)|;
      var i', c := UnsafeIsInside(sent[1..], m, frames + [k.frame]);
      i, cut := i' + 1, c;
      var before, part := sent[1..][..i'], Spelled(sent[i])[..cut];
      assert sent[..i] == [k] + before && sent[..i][1..] == before;
      assert Wire(sent[..i]) == Spelled(k) + Wire(before);
      assert Wire(sent)[..n] == Spelled(k) + rest[..m];
      assert Spelled(k) + (Wire(before) + part) == (Spelled(k) + Wire(before)) + part;
      assert FramesOf(sent[..i]) == [k.frame] + FramesOf(before);
      assert frames + [k.frame] + FramesOf(before) == frames + FramesOf(sent[..i]);
      forall more
        ensures Loop(AtHeader, Wire(sent)[..n] + more, frames) == Loop(AtHeader, part + more, frames + FramesOf(sent[..i]))
      {
        assert Wire(sent)[..n] + more == Spelled(k) + (rest[..m] + more);
        FrameFirst(k, rest[..m] + more, frames);
      }
    }
  }

  /** There the handler keeps the bytes, while the parser is past them: the state takes
      fewer bytes for the frame than the handler is going to present. */
  lemma InsideIsAhead(k: Keyed, cut: nat, frames: seq<Frame>)
    requires Sendable(k.frame) && 2 <= cut < |Spelled(k)|
    ensures
      var h := Loop(AtHeader, Spelled(k)[..cut], frames);
      && h.buf == Spelled(k)[..cut] && h.frames == frames && !h.closed && !h.parser.AtHeader?
      && Overhead(h.parser) + |k.frame.payload| < |Spelled(k)|
  {
    var w := Spelled(k);
    FirstPart(k.frame, k.key, cut);
    LoopStep(AtHeader, w[..cut], frames);
    LoopStep(AtHeader, w[..cut], []);
    assert [] + w[..cut] == w[..cut];
    var r := Parse(AtHeader, w[..cut]);
    FrameCost(r.state, w[r.absorbed..]);
    hide Parse, Loop, RfcFrame;
  }

  lemma {:induction false} OverheadFalls(st: State, data: bytes)
    requires !st.AtHeader?
    ensures Parse(st, data).frame.None? ==> Overhead(Parse(st, data).state) <= Overhead(st)
    decreases Rank(st)
  {
    match st
    case AtLength(head, wide) =>
      var n := if wide then 8 else 2;
      if |data| >= n {
        OverheadFalls(AfterLength(head, FromBe(data[..n])), data[n..]);
      }
    case AtMaskKey(head, length) =>
      if |data| >= 4 {
        OverheadFalls(AtPayload(head, length, data[..4]), data[4..]);
      }
    case AtPayload(_, _, _) =>
  }

  /** After `done`, the frame f of `size` bytes is under way and `pos` of its bytes have
      been read. The handler has closed; or it has not parsed a frame yet, and for f
      would take fewer bytes than f's; or it has parsed some frame, and if that is f, it
      took fewer. */
  ghost predicate OutOfStep(h: Handler, done: seq<Frame>, f: Frame, size: nat, pos: nat) {
    || h.closed
    || (h.frames == done && |h.buf| == pos > 0 && !h.parser.AtHeader? && Overhead(h.parser) + |f.payload| < size)
    || (done < h.frames && (h.frames == done + [f] ==> pos - |h.buf| < size))
  }

  lemma OutOfStepBeforeFrame(h: Handler, done: seq<Frame>, f: Frame, size: nat, pos: nat, chunk: bytes)
    requires !h.closed && h.frames == done && f.head.opcode != CLOSE
    requires |h.buf| == pos > 0 && !h.parser.AtHeader? && Overhead(h.parser) + |f.payload| < size
    ensures OutOfStep(OnMessage(h, chunk), done, f, size, pos + |chunk|)
  {
    var buf := h.buf + chunk;
    var r := Parse(h.parser, buf);
    LoopStep(h.parser, buf, done);
    StaysPastHeader(h.parser, buf);
    OverheadFalls(h.parser, buf);
    FrameCost(h.parser, buf);
    hide Parse, Loop;
    if r.frame.Some? && r.frame.value.head.opcode != CLOSE {
      LoopOnlyAdds(AtHeader, buf[r.absorbed..], done + [r.frame.value]);
      assert (done + [r.frame.value])[|done|] == r.frame.value && (done + [f])[|done|] == f;
    }
  }

  lemma OutOfStepStays(h: Handler, done: seq<Frame>, f: Frame, size: nat, pos: nat, chunk: bytes)
    requires OutOfStep(h, done, f, size, pos) && f.head.opcode != CLOSE
    ensures OutOfStep(OnMessage(h, chunk), done, f, size, pos + |chunk|)
  {
    if h.closed {
    } else if h.frames == done {
      OutOfStepBeforeFrame(h, done, f, size, pos, chunk);
    } else {
      LoopOnlyAdds(h.parser, h.buf + chunk, h.frames);
      hide Loop;
      var frames := OnMessage(h, chunk).frames;
      assert done < frames;
      if frames == done + [f] {
        assert |h.frames| == |done| + 1 && h.frames == frames;
      }
    }
  }

  lemma {:induction false} NeverBackInStep(h: Handler, done: seq<Frame>, f: Frame, size: nat, pos: nat, chunks: seq<bytes>)
    requires OutOfStep(h, done, f, size, pos) && f.head.opcode != CLOSE && pos + |Flatten(chunks)| == size
    ensures Feed(OnMessage, h, chunks) != Handler(AtHeader, [], done + [f], false)
    decreases |chunks|
  {
    if chunks == [] {
    } else {
      OutOfStepStays(h, done, f, size, pos, chunks[0]);
      hide OnMessage, OutOfStep;
      NeverBackInStep(OnMessage(h, chunks[0]), done, f, size, pos + |chunks[0]|, chunks[1..]);
    }
  }

  // ---- Which reads are harmless ----

  /** Whatever comes next, the handler does what it would do had all come at once. */
  ghost predicate Harmless(chunks: seq<bytes>) {
    forall more :: OnMessage(Feed(OnMessage, UPGRADED, chunks), more) == OnMessage(UPGRADED, Flatten(chunks) + more)
  }

  lemma SafeIsHarmless(sent: seq<Keyed>, chunks: seq<bytes>)
    requires AllSendable(sent) && Flatten(chunks) <= Wire(sent)
    requires SafeReads(sent, chunks)
    ensures Harmless(chunks)
  {
    ReadsAreOneRead(sent, chunks);
    hide Loop, Wire, Safe, Feed;
    var all := Flatten(chunks);
    assert chunks[..|chunks|] == chunks;
    assert Safe(sent, End(chunks, |chunks|));
    assert Wire(sent)[..|all|] == all;
    forall more
      ensures OnMessage(Feed(OnMessage, UPGRADED, chunks), more) == OnMessage(UPGRADED, all + more)
    {
      SafeReadIsHarmless(sent, |all|, [], more);
      assert [] + (all + more) == all + more;
    }
  }

  lemma FirstUnsafeHarms(sent: seq<Keyed>, chunks: seq<bytes>)
    requires AllSendable(sent) && Flatten(chunks) <= Wire(sent)
    requires forall j :: 0 <= j < |chunks| ==> Safe(sent, End(chunks, j))
    requires !Safe(sent, End(chunks, |chunks|))
    ensures !Harmless(chunks)
  {
    assert chunks[..|chunks|] == chunks;
    var all := Flatten(chunks);
    assert Wire(sent)[..|all|] == all;
    ReadsAreOneRead(sent, chunks);
    var i, cut := UnsafeIsInside(sent, |all|, []);
    var k, part, more := sent[i], Spelled(sent[i])[..cut], Spelled(sent[i])[cut..];
    var done := [] + FramesOf(sent[..i]);
    assert k in sent && Sendable(k.frame);
    hide AllSendable, Sendable, Wire, Safe, Loop, RfcFrame, OnMessage, FramesOf, Feed, Flatten;
    assert all + [] == all && part + [] == part;
    assert Loop(AtHeader, all + [], []) == Loop(AtHeader, part + [], done);
    assert Loop(AtHeader, all + more, []) == Loop(AtHeader, part + more, done);
    InsideHarms(k, cut, done);
    OneRead(all + more);
  }

  lemma InsideHarms(k: Keyed, cut: nat, done: seq<Frame>)
    requires Sendable(k.frame) && 2 <= cut < |Spelled(k)|
    ensures
      var part, more := Spelled(k)[..cut], Spelled(k)[cut..];
      OnMessage(Loop(AtHeader, part, done), more) != Loop(AtHeader, part + more, done)
  {
    var part, more := Spelled(k)[..cut], Spelled(k)[cut..];
    InsideIsAhead(k, cut, done);
    TwoReads(Loop(AtHeader, part, done), done, k, more);
    FrameAlone(k, done);
    hide Loop, OnMessage, RfcFrame, Sendable;
    assert part + more == Spelled(k);
  }

  lemma FrameAlone(k: Keyed, frames: seq<Frame>)
    requires Sendable(k.frame)
    ensures Loop(AtHeader, Spelled(k), frames) == Handler(AtHeader, [], frames + [k.frame], false)
  {
    FrameFirst(k, [], frames);
    ShortReadWaits([], frames + [k.frame]);
    assert Spelled(k) + [] == Spelled(k);
  }

  lemma OneRead(all: bytes)
    ensures OnMessage(UPGRADED, all) == Loop(AtHeader, all, [])
  {
    assert [] + all == all;
  }

  lemma TwoReads(h: Handler, done: seq<Frame>, k: Keyed, more: bytes)
    requires Sendable(k.frame) && |more| <= |Spelled(k)|
    requires OutOfStep(h, done, k.frame, |Spelled(k)|, |Spelled(k)| - |more|)
    ensures OnMessage(h, more) != Handler(AtHeader, [], done + [k.frame], false)
  {
    assert [more][1..] == [] && Flatten([more]) == more + [];
    NeverBackInStep(h, done, k.frame, |Spelled(k)|, |Spelled(k)| - |more|, [more]);
  }

  /** The exact condition, for any frames in any reads: no read has made a difference,
      at any moment and whatever follows, if and only if every read so far ended at a
      frame boundary or one byte past it. */
  lemma HarmlessIff(sent: seq<Keyed>, chunks: seq<bytes>)
    requires AllSendable(sent) && Flatten(chunks) <= Wire(sent)
    ensures (forall j :: 0 <= j <= |chunks| ==> Harmless(chunks[..j])) <==> SafeReads(sent, chunks)
  {
    hide AllSendable, Safe, Wire, Harmless;
    if SafeReads(sent, chunks) {
      forall j | 0 <= j <= |chunks|
        ensures Harmless(chunks[..j])
      {
        PrefixEnds(chunks, j);
        SafeIsHarmless(sent, chunks[..j]);
      }
    } else {
      var j := FirstUnsafe(sent, chunks);
      PrefixEnds(chunks, j);
      FirstUnsafeHarms(sent, chunks[..j]);
    }
  }

  lemma PrefixEnds(chunks: seq<bytes>, j: nat)
    requires j <= |chunks|
    ensures Flatten(chunks[..j]) <= Flatten(chunks)
    ensures forall i :: 0 <= i <= j ==> End(chunks[..j], i) == End(chunks, i)
  {
    assert chunks == chunks[..j] + chunks[j..];
    FlattenAppend(chunks[..j], chunks[j..]);
    forall i | 0 <= i <= j
      ensures End(chunks[..j], i) == End(chunks, i)
    {
      assert chunks[..j][..i] == chunks[..i];
    }
  }

  lemma FirstUnsafe(sent: seq<Keyed>, chunks: seq<bytes>) returns (j: nat)
    requires !SafeReads(sent, chunks)
    ensures j <= |chunks| && !Safe(sent, End(chunks, j))
    ensures forall i :: 0 <= i < j ==> Safe(sent, End(chunks, i))
  {
    hide Safe;
    j := 0;
    while Safe(sent, End(chunks, j))
      invariant j <= |chunks| && forall i :: 0 <= i < j ==> Safe(sent, End(chunks, i))
      decreases |chunks| - j
    {
      assert j < |chunks|;
      j := j + 1;
    }
  }

  // ---- Whether everything arrives ----

  lemma {:induction false} UnsafeInLast(sent: seq<Keyed>, last: Keyed, n: nat, frames: seq<Frame>)
    requires AllSendable(sent) && |Wire(sent)| <= n <= |Wire(sent + [last])| && !Safe(sent + [last], n)
    ensures
      var cut := n - |Wire(sent)|;
      && 2 <= cut < |Spelled(last)| && |Wire(sent + [last])| == |Wire(sent)| + |Spelled(last)|
      && Loop(AtHeader, Wire(sent + [last])[..n], frames) == Loop(AtHeader, Spelled(last)[..cut], frames + FramesOf(sent))
    decreases |sent|
  {
    hide Loop, RfcFrame, Sendable;
    if sent == [] {
      assert sent + [last] == [last] && [last][1..] == [] && frames + [] == frames;
      assert Wire([last]) == Spelled(last) + [] == Spelled(last);
    } else {
      var k := sent[0];
      var all, m := sent[1..] + [last], n - |Spelled(k)|;
      assert (sent + [last])[0] == k && (sent + [last])[1..] == all;
      UnsafeInLast(sent[1..], last, m, frames + [k.frame]);
      assert Wire(sent + [last])[..n] == Spelled(k) + Wire(all)[..m];
      FrameFirst(k, Wire(all)[..m], frames);
      assert frames + [k.frame] + FramesOf(sent[1..]) == frames + FramesOf(sent);
    }
  }

  /** Any frames and any reads, of which those that end before the last frame begins end
      safely: everything is received, and the handler in step, if and only if every
      read ends safely. Nothing that is read later makes up for an unsafe one. */
  lemma EverythingArrivesIff(sent: seq<Keyed>, last: Keyed, chunks: seq<bytes>)
    requires AllSendable(sent + [last]) && Flatten(chunks) == Wire(sent + [last])
    requires forall j :: 0 <= j <= |chunks| && End(chunks, j) < |Wire(sent)| ==> Safe(sent + [last], End(chunks, j))
    ensures
      Feed(OnMessage, UPGRADED, chunks) == Handler(AtHeader, [], FramesOf(sent + [last]), false)
      <==> SafeReads(sent + [last], chunks)
  {
    hide Safe, Wire, FramesOf;
    if SafeReads(sent + [last], chunks) {
      SafeReadsArrive(sent + [last], chunks);
    } else {
      var j := FirstUnsafe(sent + [last], chunks);
      UnsafeReadLeavesStep(sent, last, chunks, j);
    }
  }

  lemma UnsafeReadLeavesStep(sent: seq<Keyed>, last: Keyed, chunks: seq<bytes>, j: nat)
    requires AllSendable(sent + [last]) && Flatten(chunks) == Wire(sent + [last])
    requires j <= |chunks| && End(chunks, j) >= |Wire(sent)| && !Safe(sent + [last], End(chunks, j))
    requires forall i :: 0 <= i < j ==> Safe(sent + [last], End(chunks, i))
    ensures Feed(OnMessage, UPGRADED, chunks) != Handler(AtHeader, [], FramesOf(sent + [last]), false)
  {
    hide AllSendable, Safe, Wire, FramesOf, Loop, RfcFrame, Feed, OutOfStep, OnMessage, Flatten, Spelled, End, Sendable;
    var n, done := End(chunks, j), FramesOf(sent);
    EndWithin(chunks, j);
    UnsafeIsAhead(sent, last, n);
    LastFrame(sent, last);
    RestNeverBack(sent + [last], chunks, j, done, last, n - |Wire(sent)|);
  }

  lemma EndWithin(chunks: seq<bytes>, j: nat)
    requires j <= |chunks|
    ensures End(chunks, j) <= |Flatten(chunks)|
  {
    PrefixEnds(chunks, j);
    hide Flatten;
  }

  lemma RestNeverBack(all: seq<Keyed>, chunks: seq<bytes>, j: nat, done: seq<Frame>, k: Keyed, pos: nat)
    requires AllSendable(all) && Flatten(chunks) == Wire(all) && Sendable(k.frame)
    requires j <= |chunks| && forall i :: 0 <= i < j ==> Safe(all, End(chunks, i))
    requires End(chunks, j) <= |Wire(all)| && pos + (|Wire(all)| - End(chunks, j)) == |Spelled(k)|
    requires OutOfStep(Loop(AtHeader, Wire(all)[..End(chunks, j)], []), done, k.frame, |Spelled(k)|, pos)
    ensures Feed(OnMessage, UPGRADED, chunks) != Handler(AtHeader, [], done + [k.frame], false)
  {
    var first, rest := chunks[..j], chunks[j..];
    PrefixEnds(chunks, j);
    ReadsAreOneRead(all, first);
    FlattenAppend(first, rest);
    FeedAppend(OnMessage, UPGRADED, first, rest);
    hide AllSendable, Safe, Wire, Loop, RfcFrame, Feed, OutOfStep, OnMessage, Flatten, Spelled;
    assert first + rest == chunks;
    assert Wire(all)[..End(chunks, j)] == Flatten(first);
    NeverBackInStep(Feed(OnMessage, UPGRADED, first), done, k.frame, |Spelled(k)|, pos, rest);
  }

  lemma SendableParts(sent: seq<Keyed>, last: Keyed)
    requires AllSendable(sent + [last])
    ensures AllSendable(sent) && Sendable(last.frame)
  {
    assert last in sent + [last] && forall k <- sent :: k in sent + [last];
    hide Sendable;
  }

  lemma UnsafeIsAhead(sent: seq<Keyed>, last: Keyed, n: nat)
    requires AllSendable(sent + [last]) && |Wire(sent)| <= n <= |Wire(sent + [last])| && !Safe(sent + [last], n)
    ensures Sendable(last.frame) && |Wire(sent + [last])| == |Wire(sent)| + |Spelled(last)|
    ensures
      OutOfStep(Loop(AtHeader, Wire(sent + [last])[..n], []), FramesOf(sent), last.frame, |Spelled(last)|, n - |Wire(sent)|)
  {
    SendableParts(sent, last);
    UnsafeInLast(sent, last, n, []);
    InsideIsAhead(last, n - |Wire(sent)|, FramesOf(sent));
    assert [] + FramesOf(sent) == FramesOf(sent);
    hide AllSendable, Safe, Wire, FramesOf, Loop, RfcFrame, Sendable;
  }

  lemma {:induction false} LastFrame(sent: seq<Keyed>, last: Keyed)
    ensures FramesOf(sent + [last]) == FramesOf(sent) + [last.frame]
  {
    if sent == [] {
      assert sent + [last] == [last] && FramesOf([last]) == [last.frame] + FramesOf([last][1..]);
    } else {
      assert (sent + [last])[1..] == sent[1..] + [last];
      LastFrame(sent[1..], last);
      assert [sent[0].frame] + (FramesOf(sent[1..]) + [last.frame]) == FramesOf(sent) + [last.frame];
    }
  }

  // ---- Why only the last frame ----

  const BINARY := Keyed(Frame(Head(true, 2, true), [0, 0]), [0, 126, 0x82, 0x82])
  const EMPTY := Keyed(Frame(Head(false, 0, false), []), [0, 0, 0, 0])

  /** After an unsafe read in an earlier frame the bytes can happen to be such that what
      the parser makes of them is what was sent: here the mask key is read two bytes
      early and the two bytes left over turn the next frame into a longer form of itself. */
  lemma UnsafeReadsCanAgree()
    ensures
      var sent, chunks := [BINARY, EMPTY], [[0x82, 0x82], [0, 126, 0x82, 0x82, 0, 126, 0, 0]];
      && AllSendable(sent) && Flatten(chunks) == Wire(sent) && !SafeReads(sent, chunks)
      && Feed(OnMessage, UPGRADED, chunks) == Handler(AtHeader, [], FramesOf(sent), false)
  {
    var a: bytes, b: bytes := [0x82, 0x82], [0, 126, 0x82, 0x82, 0, 126, 0, 0];
    var h := Handler(AtMaskKey(BINARY.frame.head, 2), a, [], false);
    AgreeingWire();
    AgreeingFirstRead(a);
    AgreeingSecondRead(h, b);
    UnsafeAtTwo();
    hide OnMessage, Wire, Spelled, Safe;
    TwoChunks(a, b);
    assert End([a, b], 1) == 2;
  }

  lemma TwoChunks(a: bytes, b: bytes)
    ensures Flatten([a, b]) == a + b && End([a, b], 1) == |a|
    ensures Feed(OnMessage, UPGRADED, [a, b]) == OnMessage(OnMessage(UPGRADED, a), b)
  {
    assert [a, b][1..] == [b] && [b][1..] == [] && [a, b][..1] == [a] && [a][1..] == [];
    FlattenSnoc([a], b);
    FlattenSnoc([], a);
    hide OnMessage, Flatten;
    assert [] + [a] == [a] && [a] + [b] == [a, b] && [] + a == a;
    var h := OnMessage(UPGRADED, a);
    assert Feed(OnMessage, h, [b]) == Feed(OnMessage, OnMessage(h, b), []);
    assert Feed(OnMessage, UPGRADED, [a, b]) == Feed(OnMessage, h, [b]);
  }

  lemma UnsafeAtTwo()
    ensures !Safe([BINARY, EMPTY], 2) && FramesOf([BINARY, EMPTY]) == [BINARY.frame, EMPTY.frame]
    ensures AllSendable([BINARY, EMPTY])
  {
    AgreeingWire();
    hide Spelled;
    assert [BINARY, EMPTY][1..] == [EMPTY] && [EMPTY][1..] == [];
    assert FramesOf([EMPTY]) == [EMPTY.frame] + FramesOf([]) == [EMPTY.frame];
    assert FramesOf([BINARY, EMPTY]) == [BINARY.frame] + FramesOf([EMPTY]);
  }

  lemma AgreeingWire()
    ensures Spelled(BINARY) == [0x82, 0x82, 0, 126, 0x82, 0x82, 0, 126] && Spelled(EMPTY) == [0, 0]
    ensures Wire([BINARY, EMPTY]) == [0x82, 0x82, 0, 126, 0x82, 0x82, 0, 126, 0, 0]
  {
    MaskedSpells(Head(true, 2, true), BINARY.key, [0, 0]);
    assert Spelled(EMPTY) == [0, 0];
    hide Spelled;
    assert [BINARY, EMPTY][1..] == [EMPTY] && [EMPTY][1..] == [];
    assert Wire([EMPTY]) == Spelled(EMPTY) + [] == [0, 0];
  }

  lemma MaskedSpells(head: Head, key: bytes, zeros: bytes)
    requires head == Head(true, 2, true) && |key| == 4 && zeros == [0, 0]
    ensures RfcFrame(head, key, zeros) == [0x82, 0x82] + (key + key[..2])
  {
    XorZero(key[0]);
    XorZero(key[1]);
    hide Xor;
    assert Unmask(zeros, key) == key[..2];
  }

  lemma AgreeingFirstRead(a: bytes)
    requires a == [0x82, 0x82]
    ensures OnMessage(UPGRADED, a) == Handler(AtMaskKey(BINARY.frame.head, 2), a, [], false)
  {
    assert [] + a == a && a[2..] == [];
  }

  lemma AgreeingSecondRead(h: Handler, b: bytes)
    requires h == Handler(AtMaskKey(BINARY.frame.head, 2), [0x82, 0x82], [], false)
    requires b == [0, 126, 0x82, 0x82, 0, 126, 0, 0]
    ensures OnMessage(h, b) == Handler(AtHeader, [], [BINARY.frame, EMPTY.frame], false)
  {
    var buf: bytes, rest: bytes := [0x82, 0x82, 0, 126, 0x82, 0x82, 0, 126, 0, 0], [0, 126, 0, 0];
    assert h.buf + b == buf && buf[6..] == rest;
    BinaryMisread(BINARY.frame.head, buf);
    EmptyInLongForm(rest);
    TwoFrames(h.parser, buf, 6, rest, BINARY.frame, EMPTY.frame);
    hide Parse, Loop;
  }

  lemma TwoFrames(st: State, buf: bytes, n: nat, rest: bytes, f: Frame, g: Frame)
    requires n < |buf| && buf[n..] == rest && f.head.opcode != CLOSE && g.head.opcode != CLOSE
    requires Parse(st, buf) == Result(Some(f), AtHeader, n) && Parse(AtHeader, rest) == Result(Some(g), AtHeader, |rest|)
    ensures Loop(st, buf, []) == Handler(AtHeader, [], [f, g], false)
  {
    LoopStep(st, buf, []);
    LoopStep(AtHeader, rest, [f]);
    ShortReadWaits([], [f, g]);
    hide Parse, Loop;
    assert rest[|rest|..] == [] && [] + [f] == [f] && [f] + [g] == [f, g];
  }

  lemma BinaryMisread(head: Head, buf: bytes)
    requires head.masked && buf == [0x82, 0x82, 0, 126, 0x82, 0x82, 0, 126, 0, 0]
    ensures Parse(AtMaskKey(head, 2), buf) == Result(Some(Frame(head, [0, 0])), AtHeader, 6)
  {
    var key: bytes, data := [0x82, 0x82, 0, 126], buf[4..];
    assert buf[..4] == key && data[..2] == [0x82, 0x82];
    MaskOnItself(key, data[..2]);
    hide Unmask;
    assert Parse(AtPayload(head, 2, key), data) == Result(Some(Frame(head, [0, 0])), AtHeader, 2);
  }

  lemma MaskOnItself(key: bytes, data: bytes)
    requires |key| == 4 && data == key[..2]
    ensures Unmask(data, key) == [0, 0]
  {
    XorZero(key[0]);
    XorTwice(0, key[0]);
    XorZero(key[1]);
    XorTwice(0, key[1]);
    hide Xor;
  }

  lemma EmptyInLongForm(rest: bytes)
    requires rest == [0, 126, 0, 0]
    ensures Parse(AtHeader, rest) == Result(Some(EMPTY.frame), AtHeader, 4)
  {
    assert AfterHeader(0, 126) == AtLength(EMPTY.frame.head, false);
    assert rest[2..] == [0, 0] && rest[2..][..2] == [0, 0] && rest[2..][2..] == [];
    assert FromBe([0, 0]) == 0 by {
      assert [0, 0][..1] == [0] && [0][..0] == [];
      assert FromBe([0]) == FromBe([]) * 256 + 0;
    }
    assert Parse(AtPayload(EMPTY.frame.head, 0, [0, 0, 0, 0]), []) == Result(Some(EMPTY.frame), AtHeader, 0);
  }
}
