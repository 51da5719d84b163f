/** Why session calls must be back to back: two threads that share an HTTP/2 session,
    whose calls are two sends each (lib_network/src/protocols/http2/session.cc:86-89). */
module SharedSession {
  import opened Bytes
  import C = Connections
  import E = EventLoops
  import O = Outbound
  import H = Http2Sessions
  import F = Http2Frames
  import EndToEnd
  import Hpack

  // ---- Runs, piece by piece ----

  lemma RunStep(s: O.System, e: O.Event, more: seq<O.Event>)
    requires O.Possible(s, e) && O.PossibleRun(O.Step(s, e), more)
    ensures O.PossibleRun(s, [e] + more) && O.Run(s, [e] + more) == O.Run(O.Step(s, e), more)
  {
    hide O.Possible, O.Step;
    assert ([e] + more)[1..] == more;
  }

  lemma {:induction false} RunAppend(s: O.System, a: seq<O.Event>, b: seq<O.Event>)
    requires O.PossibleRun(s, a) && O.PossibleRun(O.Run(s, a), b)
    ensures O.PossibleRun(s, a + b) && O.Run(s, a + b) == O.Run(O.Run(s, a), b)
    decreases |a|
  {
    hide O.Possible, O.Step;
    if a == [] {
      assert a + b == b;
    } else {
      RunAppend(O.Step(s, a[0]), a[1..], b);
      RunStep(s, a[0], a[1..] + b);
      assert a + b == [a[0]] + (a[1..] + b);
    }
  }

  function Calling(calls: O.Calls): seq<O.Event> {
    if calls == [] then [] else [O.CallSend(calls[0])] + Calling(calls[1..])
  }

  /** The same but for the calls made and the tasks pending. */
  ghost predicate CalledOnly(s: O.System, m: O.System, calls: O.Calls) {
    && m.conn == s.conn && m.done == s.done && m.calls == s.calls + calls
    && m.loop.pc == s.loop.pc && m.loop.thread == s.loop.thread && m.loop.tasks == s.loop.tasks
    && m.loop.pending == s.loop.pending + calls
    && (forall t :: m.loop.waking[t] >= s.loop.waking[t])
    && (calls != [] ==> m.loop.waking[calls[0].caller] > 0)
  }

  lemma CallQueues(s: O.System, call: E.Task<bytes>)
    requires s.loop.thread == None
    ensures O.Possible(s, O.CallSend(call)) && CalledOnly(s, O.Step(s, O.CallSend(call)), [call])
  {
  }

  lemma {:induction false} CallsQueue(s: O.System, calls: O.Calls)
    requires s.loop.thread == None
    ensures O.PossibleRun(s, Calling(calls)) && CalledOnly(s, O.Run(s, Calling(calls)), calls)
    decreases |calls|
  {
    if calls == [] {
      assert s.loop.pending + calls == s.loop.pending && s.calls + calls == s.calls;
    } else {
      hide O.Step, O.Possible, CalledOnly;
      var e, more := O.CallSend(calls[0]), Calling(calls[1..]);
      CallQueues(s, calls[0]);
      var next := O.Step(s, e);
      CalledKeepsThread(s, next, [calls[0]]);
      CallsQueue(next, calls[1..]);
      RunStep(s, e, more);
      CalledTrans(s, next, O.Run(next, more), calls);
    }
  }

  lemma CalledKeepsThread(s: O.System, m: O.System, calls: O.Calls)
    requires CalledOnly(s, m, calls)
    ensures m.loop.thread == s.loop.thread
  {
  }

  lemma CalledTrans(s: O.System, next: O.System, m: O.System, calls: O.Calls)
    requires calls != [] && CalledOnly(s, next, [calls[0]]) && CalledOnly(next, m, calls[1..])
    ensures CalledOnly(s, m, calls)
  {
    assert calls == [calls[0]] + calls[1..];
    Assoc(s.loop.pending, [calls[0]], calls[1..]);
    Assoc(s.calls, [calls[0]], calls[1..]);
    assert m.loop.waking[calls[0].caller] >= next.loop.waking[calls[0].caller];
  }

  /** Thread 0 starts the loop, is woken by a queued call, and takes the queue. */
  function Taking(waker: E.ThreadId): seq<O.Event> {
    [O.OfLoop(E.StartRun(0))] + ([O.OfLoop(E.Wake(waker))] + ([O.OfLoop(E.Drain)] + ([O.OfLoop(E.Swap)] + [])))
  }

  lemma LoopTakesAll(s: O.System, waker: E.ThreadId)
    requires s.loop.pc.Idle? && s.loop.waking[waker] > 0
    ensures O.PossibleRun(s, Taking(waker))
    ensures
      var m := O.Run(s, Taking(waker));
      && m.conn == s.conn && m.done == s.done && m.calls == s.calls
      && m.loop.pc.Executing? && m.loop.tasks == s.loop.pending && m.loop.pending == []
  {
    var e1, e2, e3, e4 := O.OfLoop(E.StartRun(0)), O.OfLoop(E.Wake(waker)), O.OfLoop(E.Drain), O.OfLoop(E.Swap);
    var s1 := O.Step(s, e1);
    var s2 := O.Step(s1, e2);
    var s3 := O.Step(s2, e3);
    var s4 := O.Step(s3, e4);
    assert s4.conn == s.conn && s4.done == s.done && s4.calls == s.calls;
    hide O.Step, O.Possible;
    assert O.PossibleRun(s4, []);
    RunStep(s3, e4, []);
    RunStep(s2, e3, [e4] + []);
    RunStep(s1, e2, [e3] + ([e4] + []));
    RunStep(s, e1, [e2] + ([e3] + ([e4] + [])));
  }

  /** A kernel that takes every send whole. */
  function Generous(tasks: O.Calls): seq<C.WriteAnswer> {
    if tasks == [] then [] else [C.Took(Max(1, |tasks[0].work|))] + Generous(tasks[1..])
  }

  function Executing(n: nat): seq<O.Event> {
    if n == 0 then [] else [O.OfLoop(E.Execute)] + Executing(n - 1)
  }

  lemma ExecutesOne(s: O.System)
    requires s.loop.pc.Executing? && s.loop.tasks != []
    requires s.conn.state.Connected? && s.conn.output == [] && s.conn.writeScript == Generous(s.loop.tasks)
    ensures O.Possible(s, O.OfLoop(E.Execute))
    ensures
      var m := O.Step(s, O.OfLoop(E.Execute));
      && m.calls == s.calls && m.done == s.done + [s.loop.tasks[0]]
      && m.loop.pc.Executing? && m.loop.tasks == s.loop.tasks[1..] && m.loop.pending == s.loop.pending
      && m.conn.state.Connected? && m.conn.output == [] && m.conn.writeScript == Generous(s.loop.tasks[1..])
      && m.conn.wire == s.conn.wire + s.loop.tasks[0].work
  {
    var data, rest := s.loop.tasks[0].work, Generous(s.loop.tasks[1..]);
    SendTakesAll(s.conn, data, rest);
    hide C.Send, Generous;
  }

  lemma SendTakesAll(c: C.Conn, data: bytes, rest: seq<C.WriteAnswer>)
    requires c.state.Connected? && c.output == [] && c.writeScript == [C.Took(Max(1, |data|))] + rest
    ensures
      var d := C.Send(c, data);
      d.state.Connected? && d.output == [] && d.writeScript == rest && d.wire == c.wire + data
  {
    assert [] + data == data && data[..|data|] == data;
  }

  /** The same but for `tasks`, carried out and on the wire. */
  ghost predicate CarriedOut(s: O.System, m: O.System, tasks: O.Calls) {
    && m.calls == s.calls && m.done == s.done + tasks && m.loop.pending == s.loop.pending
    && m.conn.output == [] && m.conn.wire == s.conn.wire + Flatten(O.Data(tasks))
  }

  lemma CarriedOutCons(s: O.System, next: O.System, m: O.System, tasks: O.Calls)
    requires tasks != [] && CarriedOut(next, m, tasks[1..])
    requires next.calls == s.calls && next.done == s.done + [tasks[0]] && next.loop.pending == s.loop.pending
    requires next.conn.wire == s.conn.wire + tasks[0].work
    ensures CarriedOut(s, m, tasks)
  {
    var work, others := tasks[0].work, Flatten(O.Data(tasks[1..]));
    assert O.Data(tasks) == [work] + O.Data(tasks[1..]);
    assert Flatten(O.Data(tasks)) == work + others;
    hide Flatten, O.Data;
    assert s.done + [tasks[0]] + tasks[1..] == s.done + tasks;
    assert s.conn.wire + work + others == s.conn.wire + (work + others);
  }

  lemma {:induction false} ExecutesAll(s: O.System)
    requires s.loop.pc.Executing?
    requires s.conn.state.Connected? && s.conn.output == [] && s.conn.writeScript == Generous(s.loop.tasks)
    ensures O.PossibleRun(s, Executing(|s.loop.tasks|))
    ensures
      var m := O.Run(s, Executing(|s.loop.tasks|));
      m.loop.tasks == [] && CarriedOut(s, m, s.loop.tasks)
    decreases |s.loop.tasks|
  {
    var tasks := s.loop.tasks;
    if tasks == [] {
      assert s.done + [] == s.done && s.conn.wire + [] == s.conn.wire;
    } else {
      hide O.Step, O.Possible, O.Run, O.PossibleRun, O.Data, Generous, CarriedOut;
      ExecutesOne(s);
      var e := O.OfLoop(E.Execute);
      var next := O.Step(s, e);
      ExecutesAll(next);
      RunStep(s, e, Executing(|tasks| - 1));
      CarriedOutCons(s, next, O.Run(next, Executing(|tasks| - 1)), tasks);
    }
  }

  /** Calls made before the loop starts, all carried out by it. */
  function AllTheWay(calls: O.Calls): seq<O.Event>
    requires calls != []
  {
    Calling(calls) + (Taking(calls[0].caller) + Executing(|calls|))
  }

  function Machine(calls: O.Calls): O.System { O.Begin(C.Fresh(true, Generous(calls), [])) }

  lemma CallsReachTheWire(calls: O.Calls)
    requires calls != []
    ensures O.PossibleRun(Machine(calls), AllTheWay(calls))
    ensures
      var s := O.Run(Machine(calls), AllTheWay(calls));
      && s.calls == calls && O.Queued(s) == [] && s.conn.output == []
      && s.conn.wire == Flatten(O.Data(calls))
  {
    var s0 := Machine(calls);
    CallsQueue(s0, calls);
    var s1 := O.Run(s0, Calling(calls));
    assert [] + calls == calls;
    LoopTakesAll(s1, calls[0].caller);
    var s2 := O.Run(s1, Taking(calls[0].caller));
    ExecutesAll(s2);
    hide O.PossibleRun, O.Run, Calling, Taking, Executing, Generous;
    RunAppend(s1, Taking(calls[0].caller), Executing(|calls|));
    RunAppend(s0, Calling(calls), Taking(calls[0].caller) + Executing(|calls|));
    assert [] + Flatten(O.Data(calls)) == Flatten(O.Data(calls));
  }

  /** None of these calls is made by the thread that runs the loop. */
  lemma AllTheWayIsQuiet(calls: O.Calls)
    requires calls != [] && forall call <- calls :: call.caller != 0
    ensures O.PossibleRun(Machine(calls), AllTheWay(calls)) && O.Quiet(Machine(calls), AllTheWay(calls))
  {
    hide Calling, Executing, Taking, O.PossibleRun, O.Quiet;
    CallsReachTheWire(calls);
    OnlyCallSends(calls);
    OnlyStartsZero(calls[0].caller);
    OnlyExecutes(|calls|);
    O.OtherThreadsAreQuiet(Machine(calls), AllTheWay(calls), 0);
  }

  lemma OnlyStartsZero(waker: E.ThreadId)
    ensures forall e <- Taking(waker) :: e.OfLoop? && (e.step.StartRun? ==> e.step.caller == 0)
  {
  }

  lemma {:induction false} OnlyCallSends(calls: O.Calls)
    ensures forall e <- Calling(calls) :: e.CallSend? && e.call in calls
  {
    if calls == [] {
    } else {
      OnlyCallSends(calls[1..]);
    }
  }

  lemma {:induction false} OnlyExecutes(n: nat)
    ensures forall e <- Executing(n) :: e == O.OfLoop(E.Execute)
  {
    if n == 0 {
    } else {
      OnlyExecutes(n - 1);
    }
  }

  // ---- The race ----

  function HeaderOf(op: H.Sending): (b: bytes)
    ensures |b| == 9
  {
    F.HeaderBytes(H.FrameOf(op).header, false)
  }

  function SendsBy(t: E.ThreadId, parts: seq<bytes>): O.Calls {
    if parts == [] then [] else [E.Task(t, parts[0])] + SendsBy(t, parts[1..])
  }

  lemma {:induction false} SendsData(t: E.ThreadId, parts: seq<bytes>)
    ensures O.Data(SendsBy(t, parts)) == parts && O.AllBy(SendsBy(t, parts), t)
  {
    if parts == [] {
    } else {
      SendsData(t, parts[1..]);
      EndToEnd.DataAppend([E.Task(t, parts[0])], SendsBy(t, parts[1..]));
      assert O.Data([E.Task(t, parts[0])]) == [parts[0]];
      hide O.Data;
      assert parts == [parts[0]] + parts[1..];
    }
  }

  lemma {:induction false} NothingByOthers(tasks: O.Calls, t: E.ThreadId, other: E.ThreadId)
    requires O.AllBy(tasks, t) && other != t
    ensures O.By(tasks, other) == []
  {
    if tasks == [] {
    } else {
      NothingByOthers(tasks[1..], t, other);
    }
  }

  lemma SendsAre(t: E.ThreadId, parts: seq<bytes>)
    ensures O.Data(SendsBy(t, parts)) == parts && O.AllBy(SendsBy(t, parts), t)
    ensures forall other: E.ThreadId :: other != t ==> O.By(SendsBy(t, parts), other) == []
    ensures O.By(SendsBy(t, parts), t) == SendsBy(t, parts)
  {
    hide O.By, O.Data, O.AllBy, SendsBy;
    SendsData(t, parts);
    O.ByAll(SendsBy(t, parts), t);
    forall other: E.ThreadId | other != t
      ensures O.By(SendsBy(t, parts), other) == []
    {
      NothingByOthers(SendsBy(t, parts), t, other);
    }
  }

  /** Thread 1 makes the preface and a's two sends, thread 2 b's one or two sends, of
      which k come between a's two: none of them, b's header alone, or all of b. */
  function Race(a: H.Sending, b: H.Sending, k: nat): O.Calls
    requires k <= |EndToEnd.Parts(b)|
  {
    var parts := EndToEnd.Parts(b);
    SendsBy(1, [H.Preface(), HeaderOf(a)]) + (SendsBy(2, parts[..k]) + (SendsBy(1, [H.Body(a)]) + SendsBy(2, parts[k..])))
  }

  /** What is sent between a's header and a's payload, and what after both. */
  function Between(b: H.Sending, k: nat): bytes
    requires k <= |EndToEnd.Parts(b)|
  {
    Flatten(EndToEnd.Parts(b)[..k])
  }

  function After(b: H.Sending, k: nat): bytes
    requires k <= |EndToEnd.Parts(b)|
  {
    Flatten(EndToEnd.Parts(b)[k..])
  }

  lemma BetweenAndAfter(b: H.Sending, k: nat)
    requires k <= |EndToEnd.Parts(b)|
    ensures Between(b, k) + After(b, k) == HeaderOf(b) + H.Body(b)
  {
    var parts := EndToEnd.Parts(b);
    FlattenAppend(parts[..k], parts[k..]);
    EndToEnd.PartsSpellFrame(b);
    WrittenIs(b);
    hide Flatten, EndToEnd.Parts, H.Written;
    assert parts[..k] + parts[k..] == parts;
  }

  ghost predicate OfTwo(tasks: O.Calls) { forall task <- tasks :: task.caller == 1 || task.caller == 2 }

  /** One task among others of another thread. */
  lemma {:induction false} OneAmongOthers(rest: O.Calls, x: E.Task<bytes>, others: O.Calls) returns (k: nat)
    requires O.By(rest, 1) == [x] && O.By(rest, 2) == others && OfTwo(rest)
    ensures k <= |others| && rest == others[..k] + ([x] + others[k..])
    decreases |rest|
  {
    NotNothing(rest, x);
    hide O.By;
    if rest[0].caller == 1 {
      OwnFirst(rest, x, others);
      k := 0;
      assert others[..0] + ([x] + others[0..]) == [x] + others;
    } else {
      OtherFirst(rest, x, others);
      hide OfTwo;
      var j := OneAmongOthers(rest[1..], x, others[1..]);
      k := j + 1;
      InsertAfter(rest[0], others[1..], x, j);
      assert others == [rest[0]] + others[1..] && rest == [rest[0]] + rest[1..];
    }
  }

  lemma NotNothing(rest: O.Calls, x: E.Task<bytes>)
    requires O.By(rest, 1) == [x] && OfTwo(rest)
    ensures rest != [] && (rest[0].caller == 1 || rest[0].caller == 2) && OfTwo(rest[1..])
  {
    assert rest != [];
    assert rest[0] in rest && forall task <- rest[1..] :: task in rest;
  }

  lemma OwnFirst(rest: O.Calls, x: E.Task<bytes>, others: O.Calls)
    requires rest != [] && rest[0].caller == 1 && O.By(rest, 1) == [x] && O.By(rest, 2) == others && OfTwo(rest[1..])
    ensures rest == [x] + others
  {
    ByHead(rest, 1);
    ByHead(rest, 2);
    hide O.By;
    HeadAndNoMore(rest[0], O.By(rest[1..], 1), x);
    NoneBy(rest[1..]);
    assert [] + O.By(rest[1..], 2) == O.By(rest[1..], 2);
  }

  lemma OtherFirst(rest: O.Calls, x: E.Task<bytes>, others: O.Calls)
    requires rest != [] && rest[0].caller == 2 && O.By(rest, 1) == [x] && O.By(rest, 2) == others
    ensures others != [] && others[0] == rest[0]
    ensures O.By(rest[1..], 1) == [x] && O.By(rest[1..], 2) == others[1..]
  {
    ByHead(rest, 1);
    ByHead(rest, 2);
    hide O.By;
    assert [] + O.By(rest[1..], 1) == O.By(rest[1..], 1);
  }

  lemma InsertAfter(first: E.Task<bytes>, others: O.Calls, x: E.Task<bytes>, j: nat)
    requires j <= |others|
    ensures
      var all := [first] + others;
      [first] + (others[..j] + ([x] + others[j..])) == all[..j + 1] + ([x] + all[j + 1..])
  {
  }

  lemma HeadAndNoMore(first: E.Task<bytes>, more: O.Calls, x: E.Task<bytes>)
    requires [first] + more == [x]
    ensures first == x && more == []
  {
    assert ([first] + more)[0] == first && |[first] + more| == 1 + |more|;
  }

  lemma ByHead(tasks: O.Calls, t: E.ThreadId)
    ensures
      O.By(tasks, t) ==
      if tasks == [] then [] else (if tasks[0].caller == t then [tasks[0]] else []) + O.By(tasks[1..], t)
  {
  }

  lemma {:induction false} NoneBy(more: O.Calls)
    requires O.By(more, 1) == [] && OfTwo(more)
    ensures O.By(more, 2) == more
  {
    if more == [] {
    } else {
      assert more[0] in more;
      NoneBy(more[1..]);
    }
  }

  /** These are all the ways the two threads' calls can fall once a's header is sent:
      any order that keeps each thread's own is the race for some k. */
  lemma EveryOrderIsARace(a: H.Sending, b: H.Sending, rest: O.Calls) returns (k: nat)
    requires OfTwo(rest)
    requires O.By(rest, 1) == SendsBy(1, [H.Body(a)]) && O.By(rest, 2) == SendsBy(2, EndToEnd.Parts(b))
    ensures k <= |EndToEnd.Parts(b)| && SendsBy(1, [H.Preface(), HeaderOf(a)]) + rest == Race(a, b, k)
  {
    var parts := EndToEnd.Parts(b);
    var others := SendsBy(2, parts);
    OneSend(1, H.Body(a));
    hide EndToEnd.Parts, H.Body, HeaderOf, H.Preface, O.By;
    k := OneAmongOthers(rest, E.Task(1, H.Body(a)), others);
    SendsSplit(2, parts, k);
  }

  lemma OneSend(t: E.ThreadId, part: bytes)
    ensures SendsBy(t, [part]) == [E.Task(t, part)]
  {
    assert [part][1..] == [];
  }

  lemma {:induction false} SendsSplit(t: E.ThreadId, parts: seq<bytes>, k: nat)
    requires k <= |SendsBy(t, parts)|
    ensures |SendsBy(t, parts)| == |parts|
    ensures SendsBy(t, parts)[..k] == SendsBy(t, parts[..k]) && SendsBy(t, parts)[k..] == SendsBy(t, parts[k..])
  {
    var sends := SendsBy(t, parts);
    if parts == [] {
    } else if k == 0 {
      SendsSplit(t, parts[1..], 0);
      assert parts[..0] == [] && parts[0..] == parts && sends[0..] == sends;
    } else {
      SendsSplit(t, parts[1..], k - 1);
      assert parts[..k] == [parts[0]] + parts[1..][..k - 1] && parts[k..] == parts[1..][k - 1..];
      assert sends[..k] == [E.Task(t, parts[0])] + SendsBy(t, parts[1..])[..k - 1];
    }
  }

  lemma RaceIsTwoSessions(a: H.Sending, b: H.Sending, k: nat)
    requires H.Body(a) != [] && k <= |EndToEnd.Parts(b)|
    ensures O.Data(O.By(Race(a, b, k), 1)) == [H.Preface()] + EndToEnd.Parts(a)
    ensures O.Data(O.By(Race(a, b, k), 2)) == EndToEnd.Parts(b)
  {
    hide HeaderOf, H.Body, H.Preface, O.By, O.Data, SendsBy, EndToEnd.Parts;
    var parts, pre, ha, pa := EndToEnd.Parts(b), H.Preface(), HeaderOf(a), H.Body(a);
    var opening, between, payload, after := SendsBy(1, [pre, ha]), SendsBy(2, parts[..k]), SendsBy(1, [pa]), SendsBy(2, parts[k..]);
    PartsAre(a);
    SendsAre(1, [pre, ha]);
    SendsAre(2, parts[..k]);
    SendsAre(1, [pa]);
    SendsAre(2, parts[k..]);
    FourBy(opening, between, payload, after, 1);
    FourBy(opening, between, payload, after, 2);
    EndToEnd.DataAppend(opening, payload);
    EndToEnd.DataAppend(between, after);
    assert opening + ([] + (payload + [])) == opening + payload;
    assert [] + (between + ([] + after)) == between + after;
    assert [pre, ha] + [pa] == [pre] + [ha, pa];
    assert parts[..k] + parts[k..] == parts;
  }

  lemma RaceIsByOthers(a: H.Sending, b: H.Sending, k: nat)
    requires k <= |EndToEnd.Parts(b)|
    ensures forall call <- Race(a, b, k) :: call.caller != 0
  {
    SendsAre(1, [H.Preface(), HeaderOf(a)]);
    SendsAre(2, EndToEnd.Parts(b)[..k]);
    SendsAre(1, [H.Body(a)]);
    SendsAre(2, EndToEnd.Parts(b)[k..]);
    hide HeaderOf, H.Body, H.Preface, O.By, O.Data, SendsBy, EndToEnd.Parts;
  }

  lemma FourBy(opening: O.Calls, between: O.Calls, payload: O.Calls, after: O.Calls, t: E.ThreadId)
    ensures
      O.By(opening + (between + (payload + after)), t) ==
      O.By(opening, t) + (O.By(between, t) + (O.By(payload, t) + O.By(after, t)))
  {
    O.ByAppend(payload, after, t);
    O.ByAppend(between, payload + after, t);
    O.ByAppend(opening, between + (payload + after), t);
    hide O.By;
  }

  lemma PartsAre(op: H.Sending)
    ensures EndToEnd.Parts(op) == [HeaderOf(op)] + if H.Body(op) == [] then [] else [H.Body(op)]
  {
  }

  lemma OnePart(part: bytes)
    ensures Flatten([part]) == part
  {
    FlattenSnoc([], part);
    assert [] + [part] == [part];
    assert Flatten([]) + part == part;
  }

  lemma RaceSpells(a: H.Sending, b: H.Sending, k: nat)
    requires k <= |EndToEnd.Parts(b)|
    ensures Flatten(O.Data(Race(a, b, k))) == H.Preface() + (HeaderOf(a) + Behind(a, b, k))
  {
    hide HeaderOf, H.Body, H.Preface, Flatten, EndToEnd.Parts;
    var pre, ha, pa, parts := H.Preface(), HeaderOf(a), H.Body(a), EndToEnd.Parts(b);
    var opening, between, payload, after := SendsBy(1, [pre, ha]), SendsBy(2, parts[..k]), SendsBy(1, [pa]), SendsBy(2, parts[k..]);
    SendsAre(1, [pre, ha]);
    SendsAre(2, parts[..k]);
    SendsAre(1, [pa]);
    SendsAre(2, parts[k..]);
    hide SendsBy;
    EndToEnd.DataAppend(payload, after);
    EndToEnd.DataAppend(between, payload + after);
    EndToEnd.DataAppend(opening, between + (payload + after));
    hide O.Data;
    FlattenAppend([pa], parts[k..]);
    FlattenAppend(parts[..k], [pa] + parts[k..]);
    FlattenAppend([pre, ha], parts[..k] + ([pa] + parts[k..]));
    OnePart(pa);
    OnePart(pre);
    FlattenSnoc([pre], ha);
    assert [pre] + [ha] == [pre, ha];
    Assoc(Between(b, k), pa, After(b, k));
    Assoc(pre, ha, Behind(a, b, k));
  }

  // ---- What is read of it ----

  /** Everything behind a's header. */
  function Behind(a: H.Sending, b: H.Sending, k: nat): bytes
    requires k <= |EndToEnd.Parts(b)|
  {
    Between(b, k) + H.Body(a) + After(b, k)
  }

  /** Everything behind what is read as a's payload: all of b, if all is well. */
  function Found(a: H.Sending, b: H.Sending, k: nat): bytes
    requires k <= |EndToEnd.Parts(b)|
  {
    (Between(b, k) + H.Body(a))[|H.Body(a)|..] + After(b, k)
  }

  lemma BehindSplits(a: H.Sending, b: H.Sending, k: nat)
    requires k <= |EndToEnd.Parts(b)|
    ensures
      var p, behind := H.Body(a), Behind(a, b, k);
      && |behind| >= |p| && behind[..|p|] + behind[|p|..] == behind && behind[|p|..] == Found(a, b, k)
      && |Found(a, b, k)| == 9 + |H.Body(b)|
      && (behind[..|p|] == p <==> p <= Between(b, k) + p)
  {
    hide HeaderOf, H.Body, Between, After, EndToEnd.Parts;
    BetweenAndAfter(b, k);
    SplitSum(Between(b, k), H.Body(a), After(b, k));
  }

  lemma SplitSum(m: bytes, p: bytes, t: bytes)
    ensures
      var sum := m + p + t;
      && sum[..|p|] + sum[|p|..] == sum && sum[|p|..] == (m + p)[|p|..] + t
      && |sum[|p|..]| == |m + t|
      && (sum[..|p|] == p <==> p <= m + p)
  {
    assert (m + p + t)[..|p|] == (m + p)[..|p|];
  }

  lemma ReadAsOne(arrived: seq<bytes>)
    requires Flatten(arrived) != []
    ensures Feed(H.OnData, H.FRESH, arrived) == H.OnData(H.FRESH, Flatten(arrived))
  {
    H.SessionIsChunkBlind();
    hide H.OnData;
    FeedIsOneDelivery(H.OnData, H.FRESH, arrived);
  }

  lemma PrefaceThenFrames(buf: bytes)
    ensures H.OnData(H.FRESH, H.Preface() + buf).demux.delivered == H.CallsIn(F.ParseAll(F.ReadingHeader, buf).frames)
  {
    hide H.Preface, F.ParseAll, H.CallsIn;
    var all := [] + (H.Preface() + buf);
    assert all[..H.PREFACE_LENGTH] == H.Preface() && all[H.PREFACE_LENGTH..] == buf;
    var frames := F.ParseAll(F.ReadingHeader, buf).frames;
    H.DemuxCallsBack(H.FRESH.demux, frames);
    assert [] + H.CallsIn(frames) == H.CallsIn(frames);
  }

  lemma FirstFrame(a: H.Sending, payload: bytes, rest: bytes)
    requires |payload| == |H.Payload(a)| < F.LENGTH_SPACE
    ensures
      H.CallsIn(F.ParseAll(F.ReadingHeader, HeaderOf(a) + (payload + rest)).frames) ==
      H.CallFor(F.Frame(H.FrameOf(a).header, payload)) + H.CallsIn(F.ParseAll(F.ReadingHeader, rest).frames)
  {
    hide F.HeaderBytes, F.ParseOne, F.ParseAll, H.CallFor, H.CallsIn, H.FrameOf, HeaderOf;
    SentHeaderIsSmall(a);
    var f := F.Frame(H.FrameOf(a).header, payload);
    Assoc(HeaderOf(a), payload, rest);
    F.FrameRoundTrip(f, false, rest);
    F.ParseAllStep(F.ReadingHeader, F.FrameBytes(f, false) + rest);
    CallsInCons(f, F.ParseAll(F.ReadingHeader, rest).frames);
  }

  lemma CallsInCons(f: F.Frame, more: seq<F.Frame>)
    ensures H.CallsIn([f] + more) == H.CallFor(f) + H.CallsIn(more)
  {
    hide H.CallFor;
    assert ([f] + more)[1..] == more;
  }

  lemma BodyFits(op: H.Sending)
    requires |H.Payload(op)| < F.LENGTH_SPACE
    ensures H.Body(op) == H.Payload(op) == H.FrameOf(op).payload
  {
    hide Hpack.Encode;
  }

  /** All that the peer delivers of the race: a frame with a's header and as many of the
      bytes behind it as a's payload has, and then whatever the bytes behind those read as. */
  lemma RaceDelivers(a: H.Sending, b: H.Sending, k: nat, arrived: seq<bytes>)
    requires |H.Payload(a)| < F.LENGTH_SPACE && k <= |EndToEnd.Parts(b)|
    requires Flatten(arrived) == Flatten(O.Data(Race(a, b, k)))
    ensures
      Feed(H.OnData, H.FRESH, arrived).demux.delivered ==
      H.CallFor(F.Frame(H.FrameOf(a).header, Behind(a, b, k)[..|H.Body(a)|]))
      + H.CallsIn(F.ParseAll(F.ReadingHeader, Found(a, b, k)).frames)
  {
    hide HeaderOf, Found, Behind, Race, O.Data, Flatten, Feed, H.OnData, H.CallsIn, H.CallFor, H.Body, H.Preface,
         F.ParseAll, H.FrameOf, H.Payload, EndToEnd.Parts;
    RaceSpells(a, b, k);
    BodyFits(a);
    BehindSplits(a, b, k);
    var n, behind := |H.Body(a)|, Behind(a, b, k);
    FirstFrame(a, behind[..n], behind[n..]);
    PrefaceThenFrames(HeaderOf(a) + behind);
    ReadAsOne(arrived);
  }

  // ---- When b is read behind it ----

  /** Same length, type and stream. */
  ghost predicate Agrees(h: F.Header, g: F.Header) { h.length == g.length && h.kind == g.kind && h.id == g.id }

  /** A payload delivered by the parse loop has cost its header too. */
  lemma {:induction false} CallsCost(buf: bytes)
    ensures forall call <- H.CallsIn(F.ParseAll(F.ReadingHeader, buf).frames) :: |call.1| + 9 <= |buf|
    decreases |buf|
  {
    var one := F.ParseOne(F.ReadingHeader, buf);
    if one.frame.None? {
    } else {
      FrameCosts(buf);
      CallsCost(one.rest);
      hide F.ParseOne;
      var f, more := one.frame.value, F.ParseAll(F.ReadingHeader, one.rest).frames;
      assert F.ParseAll(F.ReadingHeader, buf).frames == [f] + more;
      assert H.CallsIn([f] + more) == H.CallFor(f) + H.CallsIn(more);
    }
  }

  lemma FrameCosts(buf: bytes)
    requires F.ParseOne(F.ReadingHeader, buf).frame.Some?
    ensures
      var one := F.ParseOne(F.ReadingHeader, buf);
      one.state == F.ReadingHeader && |one.frame.value.payload| + 9 + |one.rest| == |buf|
  {
    hide F.ReadHeader;
  }

  /** Bytes of the size of a frame read as one delivery of its payload if and only if
      they are a header that agrees with its header, and that payload. */
  lemma DeliversIff(found: bytes, payload: bytes, id: nat)
    requires |found| == 9 + |payload| && id != 0
    ensures
      H.CallsIn(F.ParseAll(F.ReadingHeader, found).frames) == [(id, payload)]
      <==> found[9..] == payload && Agrees(F.ReadHeader(found[..9]), F.Header(|payload|, F.DATA, 0, id))
  {
    hide F.ReadHeader;
    var q, h := found[9..], F.ReadHeader(found[..9]);
    if h.length <= |q| {
      var f, rest := F.Frame(h, q[..h.length]), q[h.length..];
      var more := F.ParseAll(F.ReadingHeader, rest).frames;
      assert F.ParseAll(F.ReadingHeader, found).frames == [f] + more;
      CallsCost(rest);
      OneCallIff(f, more, payload, id);
      if h.length == |q| {
        assert rest == [] && q[..h.length] == q;
        H.NothingParses();
      }
    } else {
      assert F.ParseAll(F.ReadingHeader, found).frames == [];
    }
  }

  lemma OneCallIff(f: F.Frame, more: seq<F.Frame>, payload: bytes, id: nat)
    requires id != 0 && forall call <- H.CallsIn(more) :: |call.1| < |payload|
    ensures
      H.CallsIn([f] + more) == [(id, payload)]
      <==> f.header.kind == F.DATA && f.header.id == id && f.payload == payload && H.CallsIn(more) == []
  {
    var first, rest := H.CallFor(f), H.CallsIn(more);
    assert ([f] + more)[1..] == more;
    assert H.CallsIn([f] + more) == first + rest;
    hide H.CallsIn;
    if first == [] {
      assert first + rest == rest;
      assert (id, payload) !in rest && (id, payload) in [(id, payload)];
    } else {
      assert (first + rest)[0] == first[0];
      assert first + rest == [(id, payload)] ==> |rest| == 0;
    }
  }

  // ---- When the bytes found are b's header ----

  function Total(b: bytes): int {
    if b == [] then 0 else b[0] + Total(b[1..])
  }

  lemma {:induction false} TotalAppend(a: bytes, b: bytes)
    ensures Total(a + b) == Total(a) + Total(b)
  {
    if a == [] {
      assert a + b == b;
    } else {
      assert (a + b)[1..] == a[1..] + b;
      TotalAppend(a[1..], b);
    }
  }

  /** The reserved bit adds 128 to the bytes of an id. */
  lemma TotalOfId(id: nat)
    requires id < F.ID_SPACE
    ensures Total(Be32(id + F.ID_SPACE)) == Total(Be32(id)) + 128
  {
    var word := id + F.ID_SPACE;
    DivMod(id, 0x100_0000);
    ModUnique(word, 0x100_0000, id / 0x100_0000 + 128, id % 0x100_0000);
    SameLowBytes(id, word);
    hide Be24;
    var top: byte := id / 0x100_0000;
    assert Be32(id) == [top] + Be24(id) && Be32(word) == [top + 128] + Be24(id);
    assert Be32(id)[1..] == Be24(id) && Be32(word)[1..] == Be24(id);
  }

  lemma SameLowBytes(n: nat, m: nat)
    requires n % 0x100_0000 == m % 0x100_0000
    ensures Be24(n) == Be24(m)
  {
    Be24RoundTrip(n);
    Be24RoundTrip(m);
    hide Be24, FromBe24;
    SameBe24(Be24(n), Be24(m));
  }

  lemma SameBe24(a: bytes, b: bytes)
    requires |a| == |b| == 3 && FromBe24(a) == FromBe24(b)
    ensures a == b
  {
    Be24WritesBack(a);
    Be24WritesBack(b);
    hide Be24, FromBe24;
  }

  lemma TotalOfHeader(h: F.Header, reserved: bool)
    ensures
      Total(F.HeaderBytes(h, reserved)) ==
      Total(Be24(h.length)) + h.kind + h.flags + Total(Be32(h.id % F.ID_SPACE)) + if reserved then 128 else 0
  {
    var word := F.ReservedId(h.id, reserved);
    hide Be24, Be32;
    TotalAppend(Be24(h.length) + [h.kind, h.flags], Be32(word));
    TotalAppend(Be24(h.length), [h.kind, h.flags]);
    assert [h.kind, h.flags][1..] == [h.flags] && [h.flags][1..] == [];
    assert Total([h.flags]) == h.flags && Total([h.kind, h.flags]) == h.kind + Total([h.flags]);
    if reserved {
      TotalOfId(h.id % F.ID_SPACE);
    }
  }

  /** Bytes that agree with a sent header and add up to the same are that header: its
      flags are below 128, so no reserved bit can make up for them. */
  lemma SameTotalSameHeader(r: bytes, g: F.Header)
    requires |r| == 9 && g.flags < 128 && g.length < F.LENGTH_SPACE && g.id < F.ID_SPACE
    requires Agrees(F.ReadHeader(r), g) && Total(r) == Total(F.HeaderBytes(g, false))
    ensures r == F.HeaderBytes(g, false)
  {
    F.HeaderWritesBack(r);
    TotalOfHeader(F.ReadHeader(r), F.ReservedBit(r));
    TotalOfHeader(g, false);
    hide F.HeaderBytes, F.ReadHeader, F.ReservedBit;
  }

  lemma HeaderAgrees(op: H.Sending)
    requires |H.Payload(op)| < F.LENGTH_SPACE
    ensures F.ReadHeader(HeaderOf(op)) == H.FrameOf(op).header
  {
    hide F.HeaderBytes, F.ReadHeader, H.FrameOf, HeaderOf;
    SentHeaderIsSmall(op);
    SmallHeaderReadsBack(H.FrameOf(op).header);
  }

  lemma SmallHeaderReadsBack(g: F.Header)
    requires g.length < F.LENGTH_SPACE && g.id < F.ID_SPACE
    ensures F.ReadHeader(F.HeaderBytes(g, false)) == g
  {
    hide F.HeaderBytes, F.ReadHeader;
    F.HeaderRoundTrip(g, false);
  }

  /** In a sum that is itself again but for its last part, that part is the first. */
  lemma CommuteIff(h: bytes, p: bytes, r: bytes)
    requires |r| == |h| && r == (h + p)[|p|..]
    ensures h + p == p + h <==> p <= h + p && r == h
    ensures p <= h + p ==> Total(r) == Total(h)
  {
    if p <= h + p {
      assert h + p == p + r;
      TotalAppend(h, p);
      TotalAppend(p, r);
    }
    if h + p == p + h {
      assert (p + h)[..|p|] == p && (p + h)[|p|..] == h;
    }
  }

  lemma SentHeaderIsSmall(op: H.Sending)
    requires |H.Payload(op)| < F.LENGTH_SPACE
    ensures
      var g := H.FrameOf(op).header;
      g.flags < 128 && g.length == |H.Payload(op)| && g.id < F.ID_SPACE && HeaderOf(op) == F.HeaderBytes(g, false)
  {
    hide F.HeaderBytes;
  }

  /** b as it should be found. */
  ghost predicate FindsCall(a: H.Sending, b: H.Sending, k: nat)
    requires k <= |EndToEnd.Parts(b)|
  {
    BetweenAndAfter(b, k);
    |Found(a, b, k)| >= 9 && Found(a, b, k)[9..] == H.Body(b)
    && Agrees(F.ReadHeader(Found(a, b, k)[..9]), H.FrameOf(b).header)
  }

  /** If a's payload is intact, what is found has the same bytes as b's frame in another
      order; a header that agrees with b's leaves only one. */
  lemma CommutesIffFound(a: H.Sending, b: H.Sending, k: nat)
    requires |H.Payload(b)| < F.LENGTH_SPACE && k <= |EndToEnd.Parts(b)|
    ensures
      var m, p := Between(b, k), H.Body(a);
      m + p == p + m <==> p <= m + p && FindsCall(a, b, k)
  {
    var m, p, t := Between(b, k), H.Body(a), After(b, k);
    var x, found := (m + p)[|p|..], Found(a, b, k);
    BetweenAndAfter(b, k);
    CommuteIff(m, p, x);
    HeaderAgrees(b);
    SentHeaderIsSmall(b);
    TotalAppend(x, t);
    TotalAppend(m, t);
    TotalAppend(HeaderOf(b), H.Body(b));
    hide F.ReadHeader, F.HeaderBytes, H.Body, H.FrameOf, Total, HeaderOf, Between, After;
    if p <= m + p && FindsCall(a, b, k) {
      FoundIsFrame(found, HeaderOf(b), H.Body(b), H.FrameOf(b).header);
      assert x == (x + t)[..|x|] && m == (m + t)[..|m|];
    }
    if m + p == p + m {
      assert (HeaderOf(b) + H.Body(b))[..9] == HeaderOf(b) && (HeaderOf(b) + H.Body(b))[9..] == H.Body(b);
    }
  }

  lemma FoundIsFrame(found: bytes, header: bytes, payload: bytes, g: F.Header)
    requires |found| >= 9 && found[9..] == payload && Total(found) == Total(header) + Total(payload)
    requires g.flags < 128 && g.length < F.LENGTH_SPACE && g.id < F.ID_SPACE && header == F.HeaderBytes(g, false)
    requires Agrees(F.ReadHeader(found[..9]), g)
    ensures found == header + payload
  {
    hide F.HeaderBytes, F.ReadHeader, Total;
    assert found == found[..9] + found[9..];
    TotalAppend(found[..9], found[9..]);
    SameTotalSameHeader(found[..9], g);
  }

  // ---- The race and what becomes of it ----

  /** The wire of the race is that of the two session calls one after the other if and
      only if what is sent between a's header and a's payload commutes with a's payload. */
  lemma RaceSpellsCallsIff(a: H.Sending, b: H.Sending, k: nat)
    requires k <= |EndToEnd.Parts(b)|
    ensures
      Flatten(O.Data(Race(a, b, k))) == H.Preface() + H.WrittenAll([a, b])
      <==> Between(b, k) + H.Body(a) == H.Body(a) + Between(b, k)
  {
    RaceSpells(a, b, k);
    TwoWritten(a, b);
    BetweenAndAfter(b, k);
    hide HeaderOf, H.Body, H.Preface, H.WrittenAll, Race, Flatten, O.Data, Between, After, EndToEnd.Parts;
    var pre, ha, pa, m, t := H.Preface(), HeaderOf(a), H.Body(a), Between(b, k), After(b, k);
    Assoc(pa, m, t);
    Assoc(pa, HeaderOf(b), H.Body(b));
    CancelBoth(pre, ha, m + pa, pa + m, t);
  }

  lemma CancelBoth(pre: bytes, head: bytes, x: bytes, y: bytes, tail: bytes)
    requires |x| == |y|
    ensures pre + (head + (x + tail)) == pre + (head + (y + tail)) <==> x == y
  {
    var n := |pre| + |head|;
    assert (pre + (head + (x + tail)))[n..][..|x|] == x;
    assert (pre + (head + (y + tail)))[n..][..|y|] == y;
  }

  lemma TwoWritten(a: H.Sending, b: H.Sending)
    ensures H.WrittenAll([a, b]) == HeaderOf(a) + (H.Body(a) + HeaderOf(b) + H.Body(b))
  {
    hide H.Written, HeaderOf, H.Body;
    WrittenIs(a);
    WrittenIs(b);
    assert [a, b][1..] == [b] && [b][1..] == [];
    assert H.WrittenAll([b]) == H.Written(b) + [];
    assert H.WrittenAll([a, b]) == H.Written(a) + H.WrittenAll([b]);
  }

  lemma WrittenIs(op: H.Sending)
    ensures H.Written(op) == HeaderOf(op) + H.Body(op)
  {
    hide F.HeaderBytes, H.Body;
  }

  /** A session call is two sends, so two threads sharing a session can be interleaved
      between them. For every way they can there is a run in which the loop's thread makes
      no calls and each of two others exactly the sends of its session calls, all are
      carried out and all bytes are on the wire. The peer then delivers the bytes behind
      a's header, in a's length, for a's payload, and after that whatever the rest reads as. */
  lemma SharedSessionRace(a: H.Sending, b: H.Sending, k: nat)
    requires 0 < |H.Payload(a)| < F.LENGTH_SPACE && k <= |EndToEnd.Parts(b)|
    ensures
      var calls := Race(a, b, k);
      && calls != [] && O.PossibleRun(Machine(calls), AllTheWay(calls)) && O.Quiet(Machine(calls), AllTheWay(calls))
      && var s := O.Run(Machine(calls), AllTheWay(calls));
         && O.Data(O.By(s.calls, 1)) == [H.Preface()] + EndToEnd.Parts(a)
         && O.Data(O.By(s.calls, 2)) == EndToEnd.Parts(b)
         && O.Queued(s) == [] && s.conn.output == [] && s.conn.wire == Flatten(O.Data(calls))
         && (s.conn.wire == H.Preface() + H.WrittenAll([a, b])
             <==> Between(b, k) + H.Body(a) == H.Body(a) + Between(b, k))
         && forall arrived: seq<bytes> :: Flatten(arrived) == s.conn.wire ==>
              Feed(H.OnData, H.FRESH, arrived).demux.delivered ==
              H.CallFor(F.Frame(H.FrameOf(a).header, Behind(a, b, k)[..|H.Body(a)|]))
              + H.CallsIn(F.ParseAll(F.ReadingHeader, Found(a, b, k)).frames)
  {
    var calls := Race(a, b, k);
    BodyFits(a);
    assert H.Body(a) != [];
    OneSend(1, H.Body(a));
    assert calls != [];
    RaceIsTwoSessions(a, b, k);
    RaceIsByOthers(a, b, k);
    CallsReachTheWire(calls);
    RaceSpellsCallsIff(a, b, k);
    AllTheWayIsQuiet(calls);
    forall arrived: seq<bytes> | Flatten(arrived) == Flatten(O.Data(calls))
      ensures
        Feed(H.OnData, H.FRESH, arrived).demux.delivered ==
        H.CallFor(F.Frame(H.FrameOf(a).header, Behind(a, b, k)[..|H.Body(a)|]))
        + H.CallsIn(F.ParseAll(F.ReadingHeader, Found(a, b, k)).frames)
    {
      RaceDelivers(a, b, k, arrived);
    }
    hide *;
  }

  lemma TwoCalls(a: H.Sending, b: H.Sending)
    ensures H.DataCalls([a, b]) == H.CallOf(a) + H.CallOf(b)
  {
    assert [a, b][1..] == [b] && [b][1..] == [];
    hide H.CallOf;
    assert H.DataCalls([b]) == H.CallOf(b) + [] == H.CallOf(b);
  }

  /** What a's frame delivers: nothing if a is not data on a stream. */
  lemma FirstCall(a: H.Sending, payload: bytes)
    ensures H.CallFor(F.Frame(H.FrameOf(a).header, payload))
         == if H.CallOf(a) == [] then [] else [(a.id % F.ID_SPACE, payload)]
    ensures H.CallOf(a) != [] ==> a.StreamData? && H.CallOf(a) == [(a.id % F.ID_SPACE, H.Payload(a))]
  {
  }

  /** Of a first call that is data, the first delivery is the data sent exactly when the
      data is the beginning of what is sent between its header and itself, and itself again. */
  lemma FirstDeliveryIntactIff(a: H.Sending, b: H.Sending, k: nat, arrived: seq<bytes>)
    requires |H.Payload(a)| < F.LENGTH_SPACE && H.CallOf(a) != [] && k <= |EndToEnd.Parts(b)|
    requires Flatten(arrived) == Flatten(O.Data(Race(a, b, k)))
    ensures
      var d := Feed(H.OnData, H.FRESH, arrived).demux.delivered;
      && d != [] && d[0].0 == a.id % F.ID_SPACE
      && (d[0].1 == a.data <==> a.data <= Between(b, k) + a.data)
  {
    RaceDelivers(a, b, k, arrived);
    BodyFits(a);
    FirstCall(a, Behind(a, b, k)[..|a.data|]);
    BehindSplits(a, b, k);
    hide HeaderOf, Found, Behind, Between, H.OnData, F.ParseAll, H.CallsIn, H.CallFor, H.CallOf, H.FrameOf, Race, Flatten,
         Feed, EndToEnd.Parts;
  }

  /** Everything is delivered as it was sent exactly when the first call's data, if it is
      data, is intact, and what is found behind it delivers what the second call should. */
  lemma RaceArrivesIfBoth(a: H.Sending, b: H.Sending, k: nat, arrived: seq<bytes>)
    requires |H.Payload(a)| < F.LENGTH_SPACE && k <= |EndToEnd.Parts(b)|
    requires Flatten(arrived) == Flatten(O.Data(Race(a, b, k)))
    ensures
      Feed(H.OnData, H.FRESH, arrived).demux.delivered == H.DataCalls([a, b])
      <==> && (H.CallOf(a) != [] ==> H.Body(a) <= Between(b, k) + H.Body(a))
           && H.CallsIn(F.ParseAll(F.ReadingHeader, Found(a, b, k)).frames) == H.CallOf(b)
  {
    var p, behind := H.Body(a), Behind(a, b, k);
    RaceDelivers(a, b, k, arrived);
    BodyFits(a);
    TwoCalls(a, b);
    FirstCall(a, behind[..|p|]);
    BehindSplits(a, b, k);
    FirstThenRest(Feed(H.OnData, H.FRESH, arrived).demux.delivered, a.id % F.ID_SPACE, behind[..|p|], p,
                  H.CallsIn(F.ParseAll(F.ReadingHeader, Found(a, b, k)).frames), H.CallOf(b));
    hide HeaderOf, Found, Behind, Between, H.OnData, F.ParseAll, H.CallsIn, H.CallFor, H.CallOf, H.FrameOf, H.DataCalls,
         Race, Flatten, Feed, H.Body, H.Payload, EndToEnd.Parts;
  }

  /** The exact condition for the race to do no harm, however the two calls interleave.
      For two data calls: what is sent between a's header and a's payload commutes with
      a's payload. For a header call and then a data call: the data call's frame is found
      where the header call's payload is over, but for its flags. For a header call as b:
      a's data, if it is data, is intact, and what is found behind it is no data. */
  lemma RaceArrivesIff(a: H.Sending, b: H.Sending, k: nat, arrived: seq<bytes>)
    requires |H.Payload(a)| < F.LENGTH_SPACE && |H.Payload(b)| < F.LENGTH_SPACE && k <= |EndToEnd.Parts(b)|
    requires Flatten(arrived) == Flatten(O.Data(Race(a, b, k)))
    ensures
      var arrives := Feed(H.OnData, H.FRESH, arrived).demux.delivered == H.DataCalls([a, b]);
      var m, p := Between(b, k), H.Body(a);
      && (H.CallOf(a) != [] && H.CallOf(b) != [] ==> (arrives <==> m + p == p + m))
      && (H.CallOf(a) == [] && H.CallOf(b) != [] ==> (arrives <==> FindsCall(a, b, k)))
      && (H.CallOf(b) == [] ==>
            (arrives <==> && (H.CallOf(a) != [] ==> p <= m + p)
                          && H.CallsIn(F.ParseAll(F.ReadingHeader, Found(a, b, k)).frames) == []))
  {
    RaceArrivesIfBoth(a, b, k, arrived);
    if H.CallOf(b) != [] {
      BodyFits(b);
      FirstCall(b, []);
      CommutesIffFound(a, b, k);
      SentAsData(b);
      BehindSplits(a, b, k);
      DeliversIff(Found(a, b, k), H.Body(b), b.id % F.ID_SPACE);
    }
    hide HeaderOf, Found, Behind, Between, H.OnData, F.ParseAll, H.CallsIn, H.CallFor, H.CallOf, H.FrameOf, H.DataCalls,
         Race, Flatten, Feed, F.ReadHeader, H.Body, H.Payload, EndToEnd.Parts;
  }

  /** Over every run that ends with those calls made, all carried out in call order and
      nothing waiting: the wire, read in any chunks, is the race's, and the condition decides. */
  lemma RaceOverAnyRun(events: seq<O.Event>, accepted: bool, writeScript: seq<C.WriteAnswer>,
                       readScript: seq<C.ReadAnswer>, a: H.Sending, b: H.Sending, k: nat, arrived: seq<bytes>)
    requires O.PossibleRun(O.Begin(C.Fresh(accepted, writeScript, readScript)), events)
    requires O.Quiet(O.Begin(C.Fresh(accepted, writeScript, readScript)), events) && k <= |EndToEnd.Parts(b)|
    requires
      var s := O.Run(O.Begin(C.Fresh(accepted, writeScript, readScript)), events);
      s.calls == Race(a, b, k) && O.Queued(s) == [] && s.conn.output == [] && Flatten(arrived) == s.conn.wire
    requires |H.Payload(a)| < F.LENGTH_SPACE && |H.Payload(b)| < F.LENGTH_SPACE && H.CallOf(a) != [] && H.CallOf(b) != []
    ensures
      Feed(H.OnData, H.FRESH, arrived).demux.delivered == H.DataCalls([a, b])
      <==> Between(b, k) + H.Body(a) == H.Body(a) + Between(b, k)
  {
    hide O.Run, O.Quiet, O.PossibleRun, O.InCallOrder, O.Data, O.Queued, O.Begin, Race, Flatten, Feed, H.OnData,
         H.DataCalls, H.CallOf, H.Payload, H.Body, Between, EndToEnd.Parts;
    var begin := O.Begin(C.Fresh(accepted, writeScript, readScript));
    O.EverySendOnceInOrder(accepted, writeScript, readScript, events);
    EndToEnd.BeginIsInOrder(accepted, writeScript, readScript);
    O.RunKeepsCallOrder(begin, events);
    EndToEnd.WireSpellsCalls(O.Run(begin, events));
    RaceArrivesIff(a, b, k, arrived);
  }

  lemma SentAsData(b: H.Sending)
    requires H.CallOf(b) != []
    ensures b.id % F.ID_SPACE != 0
    ensures forall h: F.Header ::
      Agrees(h, H.FrameOf(b).header) <==> Agrees(h, F.Header(|H.Payload(b)|, F.DATA, 0, b.id % F.ID_SPACE))
  {
  }

  lemma FirstThenRest(d: H.Deliveries, id: nat, read: bytes, sent: bytes, rest: H.Deliveries, wanted: H.Deliveries)
    ensures d == [(id, read)] + rest ==> (d == [(id, sent)] + wanted <==> read == sent && rest == wanted)
    ensures d == [] + rest ==> (d == [] + wanted <==> rest == wanted)
  {
    if d == [(id, read)] + rest {
      assert d[0] == (id, read) && d[1..] == rest;
      assert ([(id, sent)] + wanted)[0] == (id, sent) && ([(id, sent)] + wanted)[1..] == wanted;
    } else if d == [] + rest {
      assert [] + wanted == wanted && [] + rest == rest;
    }
  }
}
