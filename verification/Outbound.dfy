/** Connection::Send called from any thread: the loop's thread sends at once, every
    other thread goes through the event loop's queue
    (lib_network/src/connection.cc:345-389, lib_network/src/event/event_loop.cc:103-196). */
module Outbound {
  import opened Bytes
  import C = Connections
  import opened EventLoops

  type Calls = seq<Task<bytes>>

  datatype System = System(
    loop: Loop<bytes>,
    conn: C.Conn,
    calls: Calls,                // calls of Send, in call order
    done: Calls                  // sends carried out, in order
  )

  datatype Event =
    | CallSend(call: Task<bytes>)
    | OfLoop(step: LoopEvent<bytes>)   // any loop step but Push, which only Send makes
    | OfConn(handler: C.Event)         // any handler but DoSend

  predicate Possible(s: System, e: Event) {
    match e
    case CallSend(_) => true
    case OfLoop(step) => !step.Push? && Enabled(s.loop, step)
    case OfConn(handler) => !handler.DoSend?
  }

  function CarryOut(s: System, call: Task<bytes>): System {
    s.(conn := C.Send(s.conn, call.work), done := s.done + [call])
  }

  function Step(s: System, e: Event): System
    requires Possible(s, e)
  {
    match e
    case CallSend(call) =>
      var called := s.(calls := s.calls + [call]);
      if s.loop.thread == Some(call.caller) then CarryOut(called, call)
      else called.(loop := Next(s.loop, Push(call)))
    case OfLoop(step) =>
      var moved := s.(loop := Next(s.loop, step));
      if step.Execute? then CarryOut(moved, s.loop.tasks[0]) else moved
    case OfConn(handler) => s.(conn := C.Step(s.conn, handler))
  }

  predicate PossibleRun(s: System, events: seq<Event>)
    decreases |events|
  {
    events != [] ==> Possible(s, events[0]) && PossibleRun(Step(s, events[0]), events[1..])
  }

  function Run(s: System, events: seq<Event>): System
    requires PossibleRun(s, events)
    decreases |events|
  {
    if events == [] then s else Run(Step(s, events[0]), events[1..])
  }

  /** Nobody is the loop's thread yet. */
  function Begin(conn: C.Conn): System {
    System(EventLoops.Start(), conn, [], [])
  }

  /** The calls one thread made, in order. */
  function By(tasks: Calls, t: ThreadId): Calls {
    if tasks == [] then [] else (if tasks[0].caller == t then [tasks[0]] else []) + By(tasks[1..], t)
  }

  lemma {:induction false} ByAppend(a: Calls, b: Calls, t: ThreadId)
    ensures By(a + b, t) == By(a, t) + By(b, t)
  {
    if a == [] {
      assert a + b == b;
    } else {
      var head := if a[0].caller == t then [a[0]] else [];
      assert (a + b)[0] == a[0] && (a + b)[1..] == a[1..] + b;
      calc {
        By(a + b, t);
        head + By(a[1..] + b, t);
        { ByAppend(a[1..], b, t); }
        head + (By(a[1..], t) + By(b, t));
        (head + By(a[1..], t)) + By(b, t);
        By(a, t) + By(b, t);
      }
    }
  }

  lemma BySnoc(tasks: Calls, call: Task<bytes>, t: ThreadId)
    ensures By(tasks + [call], t) == By(tasks, t) + if call.caller == t then [call] else []
  {
    ByAppend(tasks, [call], t);
  }

  function Data(tasks: Calls): seq<bytes> {
    seq(|tasks|, i requires 0 <= i < |tasks| => tasks[i].work)
  }

  // ---- Nothing is lost, doubled or torn ----

  /** Swapped out and pending. */
  function Queued(s: System): Calls { s.loop.tasks + s.loop.pending }

  ghost predicate Conserved(s: System) {
    && C.Stream(s.conn) == Flatten(Data(s.done))
    && multiset(s.done) + multiset(Queued(s)) == multiset(s.calls)
    && (!s.loop.pc.Executing? ==> s.loop.tasks == [])
  }

  lemma CarryOutExtends(s: System, call: Task<bytes>)
    requires C.Stream(s.conn) == Flatten(Data(s.done))
    ensures C.Stream(CarryOut(s, call).conn) == Flatten(Data(CarryOut(s, call).done))
  {
    C.StepExtendsStream(s.conn, C.DoSend(call.work));
    FlattenSnoc(Data(s.done), call.work);
    assert Data(s.done + [call]) == Data(s.done) + [call.work];
  }

  lemma CallConserves(s: System, call: Task<bytes>)
    requires Conserved(s)
    ensures Conserved(Step(s, CallSend(call)))
  {
    hide C.Send, C.Stream, Data, Flatten;
    CarryOutExtends(s, call);
    if s.loop.thread != Some(call.caller) {
      Assoc(s.loop.tasks, s.loop.pending, [call]);
    }
  }

  lemma NextTaskConserves(done: Calls, tasks: Calls, pending: Calls)
    requires tasks != []
    ensures multiset(done + [tasks[0]]) + multiset(tasks[1..] + pending) == multiset(done) + multiset(tasks + pending)
  {
    assert tasks + pending == [tasks[0]] + (tasks[1..] + pending);
  }

  lemma ExecuteConserves(s: System)
    requires Conserved(s) && Enabled(s.loop, Execute)
    ensures Conserved(Step(s, OfLoop(Execute)))
  {
    var first, moved := s.loop.tasks[0], s.(loop := Next(s.loop, Execute));
    assert moved.loop.tasks == s.loop.tasks[1..] && moved.loop.pending == s.loop.pending && moved.conn == s.conn;
    assert moved.loop.pc == s.loop.pc && moved.done == s.done && moved.calls == s.calls;
    CarryOutExtends(moved, first);
    NextTaskConserves(s.done, s.loop.tasks, s.loop.pending);
    hide C.Send, C.Stream, Data, Flatten, EventLoops.Next;
  }

  lemma LoopConserves(s: System, step: LoopEvent<bytes>)
    requires Conserved(s) && Possible(s, OfLoop(step)) && !step.Execute?
    ensures Conserved(Step(s, OfLoop(step)))
  {
    hide C.Send, C.Stream, Data, Flatten;
    if step.Swap? {
      assert s.loop.pending + [] == [] + s.loop.pending;
    }
  }

  lemma HandlerConserves(s: System, handler: C.Event)
    requires Conserved(s) && !handler.DoSend?
    ensures Conserved(Step(s, OfConn(handler)))
  {
    C.StepExtendsStream(s.conn, handler);
    assert C.Stream(s.conn) + [] == C.Stream(s.conn);
    hide C.Step, C.Stream, Data, Flatten;
  }

  lemma StepConserves(s: System, e: Event)
    requires Conserved(s) && Possible(s, e)
    ensures Conserved(Step(s, e))
  {
    match e
    case CallSend(call) =>
      CallConserves(s, call);
    case OfLoop(step) =>
      if step.Execute? {
        ExecuteConserves(s);
      } else {
        LoopConserves(s, step);
      }
    case OfConn(handler) =>
      HandlerConserves(s, handler);
  }

  /** Nothing is carried out or queued that was not called. */
  lemma OnlyCalls(s: System, task: Task<bytes>)
    requires multiset(s.done) + multiset(Queued(s)) == multiset(s.calls)
    ensures task in s.done || task in s.loop.tasks || task in s.loop.pending ==> task in s.calls
  {
    if task in s.done || task in Queued(s) {
      assert task in multiset(s.done) + multiset(Queued(s));
    }
  }

  // ---- Each thread's order ----

  /** A thread's calls are carried out, swapped out or pending in the order it made them. */
  ghost predicate InOrder(s: System, t: ThreadId) {
    By(s.done, t) + (By(s.loop.tasks, t) + By(s.loop.pending, t)) == By(s.calls, t)
  }

  ghost predicate Ordered(s: System, t: ThreadId) {
    && InOrder(s, t)
    && (s.loop.thread == Some(t) ==> By(s.loop.tasks, t) == By(s.loop.pending, t) == [])
    && (!s.loop.pc.Executing? ==> s.loop.tasks == [])
  }

  /** A thread that becomes the loop's has no send of its own waiting in the queue. */
  ghost predicate CleanStep(s: System, e: Event, t: ThreadId) {
    e == OfLoop(StartRun(t)) ==> By(s.loop.pending, t) == []
  }

  ghost predicate Clean(s: System, events: seq<Event>, t: ThreadId)
    requires PossibleRun(s, events)
    decreases |events|
  {
    events != [] ==> CleanStep(s, events[0], t) && Clean(Step(s, events[0]), events[1..], t)
  }

  lemma CallKeepsOrder(s: System, call: Task<bytes>, t: ThreadId)
    requires Ordered(s, t)
    ensures Ordered(Step(s, CallSend(call)), t)
  {
    BySnoc(s.calls, call, t);
    BySnoc(s.done, call, t);
    BySnoc(s.loop.pending, call, t);
    hide By, C.Send;
    var own := if call.caller == t then [call] else [];
    var done, tasks, pending := By(s.done, t), By(s.loop.tasks, t), By(s.loop.pending, t);
    assert done + (tasks + (pending + own)) == (done + (tasks + pending)) + own;
    if s.loop.thread == Some(t) {
      assert done + own + ([] + []) == done + ([] + []) + own;
    }
  }

  lemma NextTaskMoves(done: Calls, tasks: Calls, pending: Calls, t: ThreadId)
    requires tasks != []
    ensures By(done + [tasks[0]], t) + (By(tasks[1..], t) + By(pending, t)) == By(done, t) + (By(tasks, t) + By(pending, t))
    ensures By(tasks, t) == [] ==> By(tasks[1..], t) == []
  {
    var own := if tasks[0].caller == t then [tasks[0]] else [];
    BySnoc(done, tasks[0], t);
    assert By(tasks, t) == own + By(tasks[1..], t);
    hide By;
    var d, r, p := By(done, t), By(tasks[1..], t), By(pending, t);
    assert d + own + (r + p) == d + (own + r + p);
  }

  lemma LoopKeepsOrder(s: System, step: LoopEvent<bytes>, t: ThreadId)
    requires Ordered(s, t) && Possible(s, OfLoop(step)) && CleanStep(s, OfLoop(step), t)
    ensures Ordered(Step(s, OfLoop(step)), t)
  {
    assert By([], t) == [];
    if step.Execute? {
      NextTaskMoves(s.done, s.loop.tasks, s.loop.pending, t);
    }
    hide By, C.Send;
    if step.Swap? {
      var pending := By(s.loop.pending, t);
      assert [] + pending == pending + [];
    }
  }

  lemma StepKeepsOrder(s: System, e: Event, t: ThreadId)
    requires Ordered(s, t) && Possible(s, e) && CleanStep(s, e, t)
    ensures Ordered(Step(s, e), t)
  {
    match e
    case CallSend(call) => CallKeepsOrder(s, call, t);
    case OfLoop(step) => LoopKeepsOrder(s, step, t);
    case OfConn(_) => hide C.Step;
  }

  lemma {:induction false} RunConserves(s: System, events: seq<Event>)
    requires Conserved(s) && PossibleRun(s, events)
    ensures Conserved(Run(s, events))
    decreases |events|
  {
    hide Step, Possible, Conserved;
    if events == [] {
    } else {
      StepConserves(s, events[0]);
      RunConserves(Step(s, events[0]), events[1..]);
    }
  }

  lemma {:induction false} RunKeepsOrder(s: System, events: seq<Event>, t: ThreadId)
    requires Ordered(s, t) && PossibleRun(s, events) && Clean(s, events, t)
    ensures Ordered(Run(s, events), t)
    decreases |events|
  {
    hide Step, Possible, Ordered, CleanStep;
    if events == [] {
    } else {
      StepKeepsOrder(s, events[0], t);
      RunKeepsOrder(Step(s, events[0]), events[1..], t);
    }
  }

  /** Over every interleaving of sends from any threads, the loop, the kernel's
      partial writes and the teardown handlers: the wire followed by the output
      buffer is the concatenation of the sends carried out, whole; no send is dropped
      or doubled; and every thread's are carried out in the order it made them, if it
      did not start the loop with sends of its own waiting. */
  lemma EverySendOnceInOrder(accepted: bool, writeScript: seq<C.WriteAnswer>, readScript: seq<C.ReadAnswer>,
                             events: seq<Event>)
    requires PossibleRun(Begin(C.Fresh(accepted, writeScript, readScript)), events)
    ensures
      var begin := Begin(C.Fresh(accepted, writeScript, readScript));
      var s := Run(begin, events);
      && s.conn.wire + s.conn.output == Flatten(Data(s.done))
      && multiset(s.done) + multiset(Queued(s)) == multiset(s.calls)
      && (forall t: ThreadId :: Clean(begin, events, t) ==> InOrder(s, t))
      && (forall t: ThreadId :: Clean(begin, events, t) && s.loop.thread == Some(t) ==> By(s.done, t) == By(s.calls, t))
  {
    var begin := Begin(C.Fresh(accepted, writeScript, readScript));
    RunConserves(begin, events);
    hide Run, Clean;
    forall t: ThreadId | Clean(begin, events, t)
      ensures Ordered(Run(begin, events), t)
    {
      RunKeepsOrder(begin, events, t);
    }
  }

  /** That condition is exact: a thread about to run the loop keeps its order over its
      next send, whatever it sends, if and only if nothing of its own is waiting. */
  lemma StartRunKeepsOrderIff(s: System, t: ThreadId)
    requires Ordered(s, t) && Possible(s, OfLoop(StartRun(t)))
    ensures
      (forall work :: InOrder(SendAfterStart(s, t, work), t)) <==> By(s.loop.pending, t) == []
  {
    var waiting := By(s.loop.pending, t);
    forall work
      ensures InOrder(SendAfterStart(s, t, work), t) <==> [Task(t, work)] + waiting == waiting + [Task(t, work)]
    {
      SentAfterStart(s, t, work);
    }
    if waiting == [] {
    } else {
      var work := waiting[0].work + [0];
      assert ([Task(t, work)] + waiting)[0] != (waiting + [Task(t, work)])[0];
      assert !InOrder(SendAfterStart(s, t, work), t);
    }
  }

  function SendAfterStart(s: System, t: ThreadId, work: bytes): System
    requires Possible(s, OfLoop(StartRun(t)))
  {
    Step(Step(s, OfLoop(StartRun(t))), CallSend(Task(t, work)))
  }

  lemma SentAfterStart(s: System, t: ThreadId, work: bytes)
    requires Ordered(s, t) && Possible(s, OfLoop(StartRun(t)))
    ensures
      var call, waiting := Task(t, work), By(s.loop.pending, t);
      InOrder(SendAfterStart(s, t, work), t) <==> [call] + waiting == waiting + [call]
  {
    var call, done, waiting := Task(t, work), By(s.done, t), By(s.loop.pending, t);
    var sent := SendAfterStart(s, t, work);
    BySnoc(s.calls, call, t);
    BySnoc(s.done, call, t);
    assert By(sent.loop.tasks, t) == By(s.loop.tasks, t) == [];
    hide By, C.Send;
    assert [] + waiting == waiting;
    assert (done + [call]) + waiting == done + ([call] + waiting);
    assert (done + waiting) + [call] == done + (waiting + [call]);
    assert [call] + waiting == (done + ([call] + waiting))[|done|..];
    assert waiting + [call] == (done + (waiting + [call]))[|done|..];
  }

  // ---- The order of all calls ----

  /** Sends are carried out in the order of all calls, whoever made them. */
  ghost predicate InCallOrder(s: System) { s.calls == s.done + Queued(s) }

  /** The loop's thread calls only while nothing is queued; any other thread, any time. */
  predicate QuietStep(s: System, e: Event) {
    e.CallSend? && s.loop.thread == Some(e.call.caller) ==> Queued(s) == []
  }

  ghost predicate Quiet(s: System, events: seq<Event>)
    requires PossibleRun(s, events)
    decreases |events|
  {
    events != [] ==> QuietStep(s, events[0]) && Quiet(Step(s, events[0]), events[1..])
  }

  lemma CallKeepsCallOrder(s: System, call: Task<bytes>)
    requires InCallOrder(s) && QuietStep(s, CallSend(call))
    ensures InCallOrder(Step(s, CallSend(call)))
  {
    hide C.Send;
    if s.loop.thread == Some(call.caller) {
      assert s.done + [] + [call] == s.done + [call] + [];
    } else {
      assert s.done + (s.loop.tasks + s.loop.pending) + [call] == s.done + (s.loop.tasks + (s.loop.pending + [call]));
    }
  }

  lemma LoopKeepsCallOrder(s: System, step: LoopEvent<bytes>)
    requires InCallOrder(s) && Possible(s, OfLoop(step)) && (!s.loop.pc.Executing? ==> s.loop.tasks == [])
    ensures InCallOrder(Step(s, OfLoop(step)))
  {
    hide C.Send;
    var tasks, pending := s.loop.tasks, s.loop.pending;
    if step.Execute? {
      assert tasks + pending == [tasks[0]] + (tasks[1..] + pending);
      Assoc(s.done, [tasks[0]], tasks[1..] + pending);
    } else if step.Swap? {
      assert [] + pending == pending + [];
    }
  }

  lemma StepKeepsCallOrder(s: System, e: Event)
    requires InCallOrder(s) && Conserved(s) && Possible(s, e) && QuietStep(s, e)
    ensures InCallOrder(Step(s, e))
  {
    match e
    case CallSend(call) => CallKeepsCallOrder(s, call);
    case OfLoop(step) => LoopKeepsCallOrder(s, step);
    case OfConn(_) => hide C.Step;
  }

  lemma {:induction false} RunKeepsCallOrder(s: System, events: seq<Event>)
    requires InCallOrder(s) && Conserved(s) && PossibleRun(s, events) && Quiet(s, events)
    ensures InCallOrder(Run(s, events))
    decreases |events|
  {
    hide Step, Possible, InCallOrder, Conserved, QuietStep;
    if events == [] {
    } else {
      StepKeepsCallOrder(s, events[0]);
      StepConserves(s, events[0]);
      RunKeepsCallOrder(Step(s, events[0]), events[1..]);
    }
  }

  /** The condition is exact: a call keeps the order of all calls, whatever it sends, if
      and only if it is not the loop's thread's or nothing is queued. */
  lemma CallKeepsCallOrderIff(s: System, t: ThreadId)
    requires InCallOrder(s)
    ensures
      (forall work :: InCallOrder(Step(s, CallSend(Task(t, work))))) <==> s.loop.thread != Some(t) || Queued(s) == []
  {
    if s.loop.thread != Some(t) || Queued(s) == [] {
      forall work
        ensures InCallOrder(Step(s, CallSend(Task(t, work))))
      {
        CallKeepsCallOrder(s, Task(t, work));
      }
    } else {
      var call := Task(t, Queued(s)[0].work + [0]);
      hide C.Send;
      var n := |s.done|;
      assert (s.calls + [call])[n] == Queued(s)[0];
      assert (s.done + [call] + Queued(s))[n] == call;
      assert !InCallOrder(Step(s, CallSend(call)));
    }
  }

  /** If the loop is run by one thread and that thread makes no calls, any number of
      others may. */
  lemma {:induction false} OtherThreadsAreQuiet(s: System, events: seq<Event>, runner: ThreadId)
    requires PossibleRun(s, events) && (s.loop.thread == None || s.loop.thread == Some(runner))
    requires forall e <- events :: (e.CallSend? ==> e.call.caller != runner)
                                && (e.OfLoop? && e.step.StartRun? ==> e.step.caller == runner)
    ensures Quiet(s, events)
    decreases |events|
  {
    if events == [] {
    } else {
      assert events[0] in events && forall e <- events[1..] :: e in events;
      hide C.Step, C.Send;
      OtherThreadsAreQuiet(Step(s, events[0]), events[1..], runner);
    }
  }

  ghost predicate AllBy(tasks: Calls, t: ThreadId) { forall task <- tasks :: task.caller == t }

  lemma {:induction false} ByAll(tasks: Calls, t: ThreadId)
    requires AllBy(tasks, t)
    ensures By(tasks, t) == tasks
  {
    if tasks == [] {
    } else {
      ByAll(tasks[1..], t);
    }
  }

  lemma {:induction false} CallsGrow(s: System, events: seq<Event>)
    requires PossibleRun(s, events)
    ensures s.calls <= Run(s, events).calls
    decreases |events|
  {
    if events == [] {
    } else {
      StepGrows(s, events[0]);
      hide Step, Possible;
      CallsGrow(Step(s, events[0]), events[1..]);
    }
  }

  lemma StepGrows(s: System, e: Event)
    requires Possible(s, e)
    ensures s.calls <= Step(s, e).calls
  {
    hide C.Send, C.Step;
  }

  /** And so may one thread alone, the loop's own included, if it keeps its order. */
  lemma OneSenderIsQuietHere(s: System, e: Event, t: ThreadId)
    requires Conserved(s) && Ordered(s, t) && Possible(s, e) && AllBy(Step(s, e).calls, t)
    ensures QuietStep(s, e)
  {
    if e.CallSend? && s.loop.thread == Some(e.call.caller) {
      var calls := Step(s, e).calls;
      assert calls[|calls| - 1] == e.call && e.call.caller == t;
      forall task | task in Queued(s)
        ensures task.caller == t
      {
        OnlyCalls(s, task);
        assert task in calls;
      }
      ByAll(s.loop.tasks, t);
      ByAll(s.loop.pending, t);
    }
  }

  lemma {:induction false} OneSenderIsQuiet(s: System, events: seq<Event>, t: ThreadId)
    requires Conserved(s) && Ordered(s, t) && PossibleRun(s, events) && Clean(s, events, t)
    requires AllBy(Run(s, events).calls, t)
    ensures Quiet(s, events)
    decreases |events|
  {
    if events == [] {
    } else {
      var e, next := events[0], Step(s, events[0]);
      CallsGrow(next, events[1..]);
      assert AllBy(next.calls, t) by {
        assert forall task <- next.calls :: task in Run(next, events[1..]).calls;
      }
      StepConserves(s, e);
      StepKeepsOrder(s, e, t);
      OneSenderIsQuietHere(s, e, t);
      hide Step, Possible, Conserved, Ordered, CleanStep, QuietStep;
      OneSenderIsQuiet(next, events[1..], t);
    }
  }

  lemma PartsAreContiguous(parts: seq<bytes>, i: nat)
    requires i < |parts|
    ensures
      var start := |Flatten(parts[..i])|;
      && start + |parts[i]| <= |Flatten(parts)|
      && Flatten(parts)[start..start + |parts[i]|] == parts[i]
  {
    assert parts == parts[..i] + ([parts[i]] + parts[i + 1..]);
    FlattenAppend(parts[..i], [parts[i]] + parts[i + 1..]);
    assert Flatten([parts[i]] + parts[i + 1..]) == parts[i] + Flatten(parts[i + 1..]);
  }

  /** No send is split by another: over every run the i-th send carried out occupies one
      stretch of the wire and the output buffer, starting where the sends before it end. */
  lemma SendsAreContiguous(accepted: bool, writeScript: seq<C.WriteAnswer>, readScript: seq<C.ReadAnswer>,
                           events: seq<Event>, i: nat)
    requires PossibleRun(Begin(C.Fresh(accepted, writeScript, readScript)), events)
    requires i < |Run(Begin(C.Fresh(accepted, writeScript, readScript)), events).done|
    ensures
      var s := Run(Begin(C.Fresh(accepted, writeScript, readScript)), events);
      var stream, start, work := s.conn.wire + s.conn.output, |Flatten(Data(s.done[..i]))|, s.done[i].work;
      start + |work| <= |stream| && stream[start..start + |work|] == work
  {
    EverySendOnceInOrder(accepted, writeScript, readScript, events);
    var s := Run(Begin(C.Fresh(accepted, writeScript, readScript)), events);
    PartsAreContiguous(Data(s.done), i);
    assert Data(s.done)[..i] == Data(s.done[..i]);
    hide Run, Flatten;
  }
}
