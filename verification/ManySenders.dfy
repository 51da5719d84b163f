/** Length-prefixed messages from any number of threads to the handler that reads the
    wire: each message is one call of Connection::Send, so sharing a connection is safe. */
module ManySenders {
  import opened Bytes
  import C = Connections
  import O = Outbound
  import T = TcpFraming

  /** What TcpClientProtocol::Send hands to Send. */
  predicate IsFrame(work: bytes) {
    4 <= |work| <= 4 + T.CAP && work == T.Frame(work[4..])
  }

  function Payloads(tasks: O.Calls): seq<bytes>
    requires forall task <- tasks :: IsFrame(task.work)
  {
    if tasks == [] then [] else assert IsFrame(tasks[0].work); [tasks[0].work[4..]] + Payloads(tasks[1..])
  }

  lemma {:induction false} FramesSpell(tasks: O.Calls)
    requires forall task <- tasks :: IsFrame(task.work)
    ensures Flatten(O.Data(tasks)) == T.Frames(Payloads(tasks))
    ensures T.WithinCap(Payloads(tasks)) && |Payloads(tasks)| == |tasks|
  {
    hide T.Frame;
    if tasks == [] {
    } else {
      FramesSpell(tasks[1..]);
      assert O.Data(tasks)[1..] == O.Data(tasks[1..]);
      assert Payloads(tasks)[1..] == Payloads(tasks[1..]);
      assert IsFrame(tasks[0].work);
    }
  }

  lemma {:induction false} DrainOnlyAdds(limiter: T.Limiter, buf: bytes, seen: nat, decoded: seq<bytes>)
    ensures decoded <= T.Drain(limiter, buf, seen, decoded).decoded
    decreases |buf|
  {
    hide T.Length;
    if |buf| >= 4 {
      var n := T.Length(buf);
      if n <= T.CAP && 4 + n <= |buf| {
        DrainOnlyAdds(limiter, buf[4 + n..], seen + 1, if limiter(seen) then decoded + [buf[4..4 + n]] else decoded);
      }
    }
  }

  lemma OnMessageOnlyAdds(limiter: T.Limiter, h: T.Handler, chunk: bytes)
    ensures h.decoded <= T.OnMessage(limiter)(h, chunk).decoded
    ensures h.Shut? ==> T.OnMessage(limiter)(h, chunk) == h
  {
    if h.Open? {
      DrainOnlyAdds(limiter, h.buf + chunk, h.seen, h.decoded);
    }
  }

  lemma EmptyIsStart()
    ensures T.StrictPrefixOfFrame([])
  {
    assert [] < T.Frame([]);
  }

  /** A handler that has read some of a run of frames. */
  lemma PrefixDecodesPrefix(limiter: T.Limiter, payloads: seq<bytes>, arrived: seq<bytes>, missing: bytes)
    requires T.WithinCap(payloads) && Flatten(arrived) + missing == T.Frames(payloads)
    ensures
      var r := Feed(T.OnMessage(limiter), T.FRESH, arrived);
      && r.Open? && r.decoded <= T.Admitted(limiter, payloads, 0)
      && (missing == [] ==> r == T.Open([], |payloads|, T.Admitted(limiter, payloads, 0)))
  {
    EmptyIsStart();
    FlattenSnoc(arrived, missing);
    var all := arrived + [missing];
    var deliver := T.OnMessage(limiter);
    assert Flatten(all) == T.Frames(payloads) + [];
    T.DecodesTheAdmitted(limiter, payloads, [], all);
    FeedSnoc(deliver, T.FRESH, arrived, missing);
    OnMessageOnlyAdds(limiter, Feed(deliver, T.FRESH, arrived), missing);
    if missing == [] {
      NothingMissing(limiter, payloads, arrived);
    }
  }

  lemma NothingMissing(limiter: T.Limiter, payloads: seq<bytes>, arrived: seq<bytes>)
    requires T.WithinCap(payloads) && Flatten(arrived) == T.Frames(payloads)
    ensures
      Feed(T.OnMessage(limiter), T.FRESH, arrived) == T.Open([], |payloads|, T.Admitted(limiter, payloads, 0))
  {
    EmptyIsStart();
    hide T.StrictPrefixOfFrame, T.WithinCap, T.Frame;
    if arrived == [] {
      assert payloads == [] by {
        if payloads != [] { FrameNonempty(payloads[0]); }
      }
    } else {
      assert Flatten(arrived) == T.Frames(payloads) + [];
      T.DecodesTheAdmitted(limiter, payloads, [], arrived);
    }
  }

  lemma FrameNonempty(payload: bytes)
    ensures |T.Frame(payload)| >= 4
  {
  }

  lemma SystemDelivers(s: O.System, limiter: T.Limiter, arrived: seq<bytes>)
    requires s.conn.wire + s.conn.output == Flatten(O.Data(s.done))
    requires multiset(s.done) + multiset(O.Queued(s)) == multiset(s.calls)
    requires forall call <- s.calls :: IsFrame(call.work)
    requires Flatten(arrived) <= s.conn.wire
    ensures forall task <- s.done :: IsFrame(task.work)
    ensures
      var r := Feed(T.OnMessage(limiter), T.FRESH, arrived);
      && r.Open? && r.decoded <= T.Admitted(limiter, Payloads(s.done), 0)
      && (Flatten(arrived) == s.conn.wire && s.conn.output == [] ==>
            r == T.Open([], |s.done|, T.Admitted(limiter, Payloads(s.done), 0)))
  {
    hide T.Frames, T.Admitted, Payloads, IsFrame, O.Data, O.Queued, T.OnMessage, T.WithinCap, Flatten, Feed;
    forall task | task in s.done
      ensures IsFrame(task.work)
    {
      O.OnlyCalls(s, task);
    }
    FramesSpell(s.done);
    var have := Flatten(arrived);
    var missing := s.conn.wire[|have|..] + s.conn.output;
    assert have + missing == s.conn.wire + s.conn.output;
    PrefixDecodesPrefix(limiter, Payloads(s.done), arrived, missing);
  }

  /** Over every interleaving of any threads' sends, the loop, partial writes and
      teardown, under any limiter and any cuts: the handler stays open and has decoded
      a prefix of the admitted payloads, in the order the sends were carried out; and
      all of them once the output buffer is empty and the wire read to its end. */
  lemma MessagesFromManyThreads(events: seq<O.Event>, accepted: bool, writeScript: seq<C.WriteAnswer>,
                                readScript: seq<C.ReadAnswer>, limiter: T.Limiter, arrived: seq<bytes>)
    requires O.PossibleRun(O.Begin(C.Fresh(accepted, writeScript, readScript)), events)
    requires
      var s := O.Run(O.Begin(C.Fresh(accepted, writeScript, readScript)), events);
      (forall call <- s.calls :: IsFrame(call.work)) && Flatten(arrived) <= s.conn.wire
    ensures
      var s := O.Run(O.Begin(C.Fresh(accepted, writeScript, readScript)), events);
      var r := Feed(T.OnMessage(limiter), T.FRESH, arrived);
      && (forall task <- s.done :: IsFrame(task.work))
      && r.Open? && r.decoded <= T.Admitted(limiter, Payloads(s.done), 0)
      && (Flatten(arrived) == s.conn.wire && s.conn.output == [] ==>
            r == T.Open([], |s.done|, T.Admitted(limiter, Payloads(s.done), 0)))
  {
    O.EverySendOnceInOrder(accepted, writeScript, readScript, events);
    SystemDelivers(O.Run(O.Begin(C.Fresh(accepted, writeScript, readScript)), events), limiter, arrived);
    hide *;
  }
}
