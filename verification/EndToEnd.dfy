/** HTTP/2 frames all the way: from calls of a session's send functions on one
    machine, through Connection::Send, the event loop's queue and the kernel's
    partial writes, to the streams of the session that reads the wire. */
module EndToEnd {
  import opened Bytes
  import C = Connections
  import E = EventLoops
  import O = Outbound
  import H = Http2Sessions
  import F = Http2Frames
  import Grpc

  /** The calls of Send behind one session call: the frame header, and the payload if there is one. */
  function Parts(op: H.Sending): seq<bytes> {
    [F.HeaderBytes(H.FrameOf(op).header, false)] + if H.Body(op) == [] then [] else [H.Body(op)]
  }

  function PartsOf(ops: seq<H.Sending>): seq<bytes> {
    if ops == [] then [] else Parts(ops[0]) + PartsOf(ops[1..])
  }

  function Everything(ops: seq<H.Sending>): seq<bytes> { [H.Preface()] + PartsOf(ops) }

  lemma PartsSpellFrame(op: H.Sending)
    ensures Flatten(Parts(op)) == H.Written(op)
  {
    hide F.HeaderBytes, H.Body;
    var head, body := F.HeaderBytes(H.FrameOf(op).header, false), H.Body(op);
    FlattenSnoc([], head);
    assert [] + [head] == [head];
    if body != [] {
      FlattenSnoc([head], body);
    }
  }

  lemma {:induction false} PartsSpellFrames(ops: seq<H.Sending>)
    ensures Flatten(PartsOf(ops)) == H.WrittenAll(ops)
  {
    hide Parts, H.Written;
    if ops == [] {
    } else {
      PartsSpellFrame(ops[0]);
      PartsSpellFrames(ops[1..]);
      FlattenAppend(Parts(ops[0]), PartsOf(ops[1..]));
    }
  }

  lemma EverythingSpells(ops: seq<H.Sending>)
    ensures Flatten(Everything(ops)) == H.Preface() + H.WrittenAll(ops)
  {
    PartsSpellFrames(ops);
    hide PartsOf, H.WrittenAll, H.Preface;
    assert ([H.Preface()] + PartsOf(ops))[1..] == PartsOf(ops);
  }

  lemma FlattenPrefix(a: seq<bytes>, b: seq<bytes>)
    requires a <= b
    ensures Flatten(a) <= Flatten(b)
  {
    FlattenAppend(a, b[|a|..]);
    assert a + b[|a|..] == b;
  }

  // ---- The wire spells the calls ----

  lemma DataAppend(a: O.Calls, b: O.Calls)
    ensures O.Data(a + b) == O.Data(a) + O.Data(b)
  {
  }

  /** When sends are carried out in call order, what is on the wire is the beginning of
      what the calls spell, and all of it once nothing is queued and the output buffer is
      empty. */
  lemma WireSpellsCalls(s: O.System)
    requires s.conn.wire + s.conn.output == Flatten(O.Data(s.done))
    requires O.InCallOrder(s)
    ensures s.conn.wire <= Flatten(O.Data(s.calls))
    ensures O.Queued(s) == [] && s.conn.output == [] ==> s.conn.wire == Flatten(O.Data(s.calls))
  {
    var queued := O.Queued(s);
    DataAppend(s.done, queued);
    FlattenAppend(O.Data(s.done), O.Data(queued));
    hide O.Data, Flatten, O.Queued;
    var calls := Flatten(O.Data(s.calls));
    assert s.conn.wire + (s.conn.output + Flatten(O.Data(queued))) == calls;
    if queued == [] {
      assert s.done + queued == s.done;
    }
  }

  // ---- The whole way ----

  /** A run on a sending machine in which any number of threads make session calls back
      to back, so far some way through the preface and `ops`; the loop's thread calls
      only while nothing is queued. */
  ghost predicate Underway(begin: O.System, events: seq<O.Event>, ops: seq<H.Sending>)
    requires O.PossibleRun(begin, events)
  {
    O.Data(O.Run(begin, events).calls) <= Everything(ops) && O.Quiet(begin, events)
  }

  ghost predicate Finished(s: O.System, ops: seq<H.Sending>) {
    O.Data(s.calls) == Everything(ops) && O.Queued(s) == [] && s.conn.output == []
  }

  /** One thread's calls are back to back by themselves: it may be any thread, the
      loop's own included if it did not start the loop with sends of its own waiting. */
  lemma OneSenderIsUnderway(events: seq<O.Event>, accepted: bool, writeScript: seq<C.WriteAnswer>,
                            readScript: seq<C.ReadAnswer>, t: E.ThreadId, ops: seq<H.Sending>)
    requires O.PossibleRun(O.Begin(C.Fresh(accepted, writeScript, readScript)), events)
    requires
      var begin := O.Begin(C.Fresh(accepted, writeScript, readScript));
      var s := O.Run(begin, events);
      O.AllBy(s.calls, t) && O.Clean(begin, events, t) && O.Data(s.calls) <= Everything(ops)
    ensures Underway(O.Begin(C.Fresh(accepted, writeScript, readScript)), events, ops)
  {
    O.OneSenderIsQuiet(O.Begin(C.Fresh(accepted, writeScript, readScript)), events, t);
  }

  lemma BeginIsInOrder(accepted: bool, writeScript: seq<C.WriteAnswer>, readScript: seq<C.ReadAnswer>)
    ensures
      var begin := O.Begin(C.Fresh(accepted, writeScript, readScript));
      O.InCallOrder(begin) && O.Conserved(begin)
  {
  }

  lemma WireOfRun(events: seq<O.Event>, accepted: bool, writeScript: seq<C.WriteAnswer>,
                  readScript: seq<C.ReadAnswer>, ops: seq<H.Sending>)
    requires O.PossibleRun(O.Begin(C.Fresh(accepted, writeScript, readScript)), events)
    requires Underway(O.Begin(C.Fresh(accepted, writeScript, readScript)), events, ops)
    ensures
      var s := O.Run(O.Begin(C.Fresh(accepted, writeScript, readScript)), events);
      && s.conn.wire <= H.Preface() + H.WrittenAll(ops)
      && (Finished(s, ops) ==> s.conn.wire == H.Preface() + H.WrittenAll(ops))
  {
    var begin := O.Begin(C.Fresh(accepted, writeScript, readScript));
    var s := O.Run(begin, events);
    O.EverySendOnceInOrder(accepted, writeScript, readScript, events);
    BeginIsInOrder(accepted, writeScript, readScript);
    O.RunKeepsCallOrder(begin, events);
    hide O.Run, O.Data, O.InCallOrder, O.Queued, Everything, Flatten, H.WrittenAll, H.Preface, O.Begin;
    WireSpellsCalls(s);
    FlattenPrefix(O.Data(s.calls), Everything(ops));
    EverythingSpells(ops);
  }

  /** Whatever the threads, the loop, the kernel's partial writes and the network's
      cuts do: the receiver never refuses the preface, and what it has delivered is
      always a prefix of what was sent, stream by stream and call by call. */
  lemma OnlyWhatWasSentArrives(events: seq<O.Event>, accepted: bool, writeScript: seq<C.WriteAnswer>,
                               readScript: seq<C.ReadAnswer>, ops: seq<H.Sending>, arrived: seq<bytes>)
    requires O.PossibleRun(O.Begin(C.Fresh(accepted, writeScript, readScript)), events)
    requires Underway(O.Begin(C.Fresh(accepted, writeScript, readScript)), events, ops)
    requires forall op <- ops :: |H.Payload(op)| < F.LENGTH_SPACE
    requires Flatten(arrived) <= O.Run(O.Begin(C.Fresh(accepted, writeScript, readScript)), events).conn.wire
    ensures
      var r := Feed(H.OnData, H.FRESH, arrived);
      && !r.Rejected?
      && r.demux.delivered <= H.DataCalls(ops)
      && r.demux.streams.Keys <= H.UsedIds(ops)
      && forall id :: id in r.demux.streams ==> r.demux.streams[id] <= H.DataOn(ops, id)
  {
    hide O.Run, Underway, Finished, H.WrittenAll, H.Preface, Flatten, H.OnData, H.DataCalls, H.DataOn, H.UsedIds, H.Payload;
    WireOfRun(events, accepted, writeScript, readScript, ops);
    var all, have := H.Preface() + H.WrittenAll(ops), Flatten(arrived);
    assert have + all[|have|..] == all;
    H.DeliveriesArePrefixes(ops, arrived, all[|have|..]);
  }

  /** And once all calls are made and the queue and the output buffer are empty,
      reading the wire to its end delivers everything. */
  lemma AllThatWasSentArrives(events: seq<O.Event>, accepted: bool, writeScript: seq<C.WriteAnswer>,
                              readScript: seq<C.ReadAnswer>, ops: seq<H.Sending>, arrived: seq<bytes>)
    requires O.PossibleRun(O.Begin(C.Fresh(accepted, writeScript, readScript)), events)
    requires Underway(O.Begin(C.Fresh(accepted, writeScript, readScript)), events, ops)
    requires Finished(O.Run(O.Begin(C.Fresh(accepted, writeScript, readScript)), events), ops)
    requires forall op <- ops :: |H.Payload(op)| < F.LENGTH_SPACE
    requires Flatten(arrived) == O.Run(O.Begin(C.Fresh(accepted, writeScript, readScript)), events).conn.wire
    ensures
      var r := Feed(H.OnData, H.FRESH, arrived);
      && r.Framing? && r.parser == F.ReadingHeader && r.buf == []
      && r.demux.streams.Keys == H.UsedIds(ops)
      && (forall id :: id in H.UsedIds(ops) ==> r.demux.streams[id] == H.DataOn(ops, id))
      && r.demux.delivered == H.DataCalls(ops)
  {
    WireOfRun(events, accepted, writeScript, readScript, ops);
    H.MultiplexDemultiplex(ops, arrived);
  }

  /** A gRPC exchange of messages, headers and stream ends: the peer's stream handler is
      given exactly the messages written, each on its stream, in the order written. */
  lemma MessagesReachThePeer(events: seq<O.Event>, accepted: bool, writeScript: seq<C.WriteAnswer>,
                             readScript: seq<C.ReadAnswer>, calls: seq<Grpc.Call>, arrived: seq<bytes>)
    requires O.PossibleRun(O.Begin(C.Fresh(accepted, writeScript, readScript)), events)
    requires Underway(O.Begin(C.Fresh(accepted, writeScript, readScript)), events, Grpc.Exchange(calls))
    requires Finished(O.Run(O.Begin(C.Fresh(accepted, writeScript, readScript)), events), Grpc.Exchange(calls))
    requires forall op <- Grpc.Exchange(calls) :: |H.Payload(op)| < F.LENGTH_SPACE
    requires Flatten(arrived) == O.Run(O.Begin(C.Fresh(accepted, writeScript, readScript)), events).conn.wire
    ensures Grpc.MessagesIn(Feed(H.OnData, H.FRESH, arrived).demux.delivered) == Grpc.MessagesWritten(calls)
  {
    AllThatWasSentArrives(events, accepted, writeScript, readScript, Grpc.Exchange(calls), arrived);
    Grpc.ExchangeDecodes(calls);
    hide *;
  }
}
