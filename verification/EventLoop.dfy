/** lib_network/src/event/event_loop.cc: handing tasks to the loop thread. Any
    number of producers queue tasks under the mutex and then bump an eventfd; the
    loop thread drains the eventfd and then takes the whole queue. Each atomic
    section is one step, and the steps interleave freely. */
module EventLoops {
  import opened Bytes

  type ThreadId = nat

  /** write(2) on an eventfd fails once its counter holds this value. */
  const COUNTER_MAX := 0xFFFF_FFFF_FFFF_FFFE

  datatype Task<T> = Task(caller: ThreadId, work: T)

  /** Where the loop thread is in Run and HandleRead; Idle before the first Run. */
  datatype LoopPc = Idle | Polling | BeforeSwap | Executing | Exited

  datatype Loop<T> = Loop(
    pc: LoopPc,
    thread: Option<ThreadId>,    // thread_id_: nobody until Run sets it
    running: bool,
    counter: nat,                // the eventfd
    waking: multiset<ThreadId>,  // calls of QueueInLoop between push_back and WakeUp
    pending: seq<Task<T>>,       // pending_tasks_
    tasks: seq<Task<T>>,         // swapped out, not yet run
    pushed: seq<Task<T>>,        // every task ever queued, in push order
    executed: seq<Task<T>>       // every queued task ever run, in order
  )

  function Start<T>(): Loop<T> {
    Loop(Idle, None, false, 0, multiset{}, [], [], [], [])
  }

  datatype LoopEvent<T> =
    | Push(task: Task<T>)        // QueueInLoop's critical section
    | Wake(caller: ThreadId)     // QueueInLoop's WakeUp
    | StartRun(caller: ThreadId) // Run, up to its loop
    | Stop                       // Stop: clears running_ and wakes
    | Leave                      // Run's loop ends: running_ is false or the poller fails
    | Drain                      // HandleRead's read(2)
    | Swap                       // HandleRead's critical section
    | Execute                    // one turn of HandleRead's task loop
    | Finish                     // back to Run's loop condition

  function Bump(counter: nat): nat { if counter < COUNTER_MAX then counter + 1 else counter }

  predicate Enabled<T>(l: Loop<T>, e: LoopEvent<T>) {
    match e
    case Push(_) => true
    case Wake(caller) => l.waking[caller] > 0
    case StartRun(_) => l.pc.Idle? || l.pc.Exited?
    case Stop => true
    case Leave => l.pc.Polling?
    case Drain => l.pc.Polling? && l.counter > 0
    case Swap => l.pc.BeforeSwap?
    case Execute => l.pc.Executing? && l.tasks != []
    case Finish => l.pc.Executing? && l.tasks == []
  }

  function Next<T>(l: Loop<T>, e: LoopEvent<T>): Loop<T>
    requires Enabled(l, e)
  {
    match e
    case Push(task) =>
      l.(pending := l.pending + [task], pushed := l.pushed + [task], waking := l.waking + multiset{task.caller})
    case Wake(caller) => l.(counter := Bump(l.counter), waking := l.waking - multiset{caller})
    case StartRun(caller) => l.(pc := Polling, thread := Some(caller), running := true)
    case Stop => l.(running := false, counter := Bump(l.counter))
    case Leave => l.(pc := Exited)
    case Drain => l.(counter := 0, pc := BeforeSwap)
    case Swap => l.(tasks := l.pending, pending := [], pc := Executing)
    case Execute => l.(executed := l.executed + [l.tasks[0]], tasks := l.tasks[1..])
    case Finish => l.(pc := if l.running then Polling else Exited)
  }

  ghost predicate Inv<T>(l: Loop<T>) {
    && l.pushed == l.executed + l.tasks + l.pending
    && (!l.pc.Executing? ==> l.tasks == [])
    && (l.pending != [] ==> l.counter > 0 || l.waking != multiset{} || l.pc.BeforeSwap?)
  }

  lemma NextKeepsInv<T>(l: Loop<T>, e: LoopEvent<T>)
    requires Inv(l) && Enabled(l, e)
    ensures Inv(Next(l, e))
  {
    match e
    case Push(task) =>
      assert task.caller in Next(l, e).waking;
    case Execute =>
      assert l.tasks == [l.tasks[0]] + l.tasks[1..];
    case _ =>
  }

  /** A run: every event is enabled where it happens. */
  predicate Possible<T>(l: Loop<T>, events: seq<LoopEvent<T>>)
    decreases |events|
  {
    events != [] ==> Enabled(l, events[0]) && Possible(Next(l, events[0]), events[1..])
  }

  function Run<T>(l: Loop<T>, events: seq<LoopEvent<T>>): Loop<T>
    requires Possible(l, events)
    decreases |events|
  {
    if events == [] then l else Run(Next(l, events[0]), events[1..])
  }

  lemma {:induction false} RunKeepsInv<T>(l: Loop<T>, events: seq<LoopEvent<T>>)
    requires Inv(l) && Possible(l, events)
    ensures Inv(Run(l, events))
    decreases |events|
  {
    hide Next, Inv, Enabled;
    if events == [] {
    } else {
      NextKeepsInv(l, events[0]);
      RunKeepsInv(Next(l, events[0]), events[1..]);
    }
  }

  function PushedBy<T>(events: seq<LoopEvent<T>>): seq<Task<T>> {
    if events == [] then []
    else (if events[0].Push? then [events[0].task] else []) + PushedBy(events[1..])
  }

  lemma {:induction false} PushedIsWhatWasPushed<T>(l: Loop<T>, events: seq<LoopEvent<T>>)
    requires Possible(l, events)
    ensures Run(l, events).pushed == l.pushed + PushedBy(events)
    decreases |events|
  {
    if events == [] {
      assert l.pushed + [] == l.pushed;
    } else {
      NextPushes(l, events[0]);
      PushedIsWhatWasPushed(Next(l, events[0]), events[1..]);
      Assoc(l.pushed, if events[0].Push? then [events[0].task] else [], PushedBy(events[1..]));
      hide Next, Enabled;
    }
  }

  lemma NextPushes<T>(l: Loop<T>, e: LoopEvent<T>)
    requires Enabled(l, e)
    ensures Next(l, e).pushed == l.pushed + if e.Push? then [e.task] else []
  {
  }

  /** Queued tasks run first in, first out, each at most once and none invented:
      what has run, what is swapped out and what is pending make up the push order. */
  lemma HandOffIsFifo<T>(events: seq<LoopEvent<T>>)
    requires Possible(Start(), events)
    ensures
      var l := Run(Start(), events);
      l.executed + l.tasks + l.pending == PushedBy(events)
  {
    RunKeepsInv(Start(), events);
    PushedIsWhatWasPushed(Start(), events);
  }

  /** No lost wakeup: a pending task always has someone about to act on it. Either
      the eventfd is readable, or a producer still owes it a write, or the loop has
      drained it and is about to swap the queue. */
  lemma NoLostWakeup<T>(events: seq<LoopEvent<T>>)
    requires Possible(Start(), events)
    ensures
      var l := Run(Start(), events);
      l.pending != [] ==> l.counter > 0 || l.waking != multiset{} || l.pc.BeforeSwap?
  {
    RunKeepsInv(Start<T>(), events);
  }

  /** So once producers are quiet, a polling loop with work pending finds its
      eventfd readable, and draining and swapping takes everything pending. */
  lemma QuietLoopWakes<T>(events: seq<LoopEvent<T>>)
    requires Possible(Start(), events)
    requires var l := Run(Start(), events); l.pc.Polling? && l.waking == multiset{} && l.pending != []
    ensures
      var l := Run(Start(), events);
      && Enabled(l, Drain) && Enabled(Next(l, Drain), Swap)
      && Next(Next(l, Drain), Swap).tasks == l.pending
      && Next(Next(l, Drain), Swap).pending == []
  {
    RunKeepsInv(Start(), events);
  }

  /** The eventfd never passes its maximum, and a write that would fails. */
  lemma {:induction false} CounterIsBounded<T>(l: Loop<T>, events: seq<LoopEvent<T>>)
    requires l.counter <= COUNTER_MAX && Possible(l, events)
    ensures Run(l, events).counter <= COUNTER_MAX
    decreases |events|
  {
    if events == [] {
    } else {
      NextIsBounded(l, events[0]);
      hide Next, Enabled;
      CounterIsBounded(Next(l, events[0]), events[1..]);
    }
  }

  lemma NextIsBounded<T>(l: Loop<T>, e: LoopEvent<T>)
    requires l.counter <= COUNTER_MAX && Enabled(l, e)
    ensures Next(l, e).counter <= COUNTER_MAX
  {
  }

  // ---- Everything queued can run ----

  /** The loop's own steps and the eventfd writes producers still owe. */
  predicate Settling<T>(e: LoopEvent<T>) {
    e.Wake? || e.Drain? || e.Swap? || e.Execute? || e.Finish?
  }

  predicate Live<T>(l: Loop<T>) { l.running && (l.pc.Polling? || l.pc.BeforeSwap? || l.pc.Executing?) }

  function StepsToSwap<T>(l: Loop<T>): nat {
    match l.pc
    case Executing => 4
    case Polling => if l.counter == 0 then 3 else 2
    case _ => 1
  }

  /** What a live loop does next, or who must wake it. */
  lemma NextSettles<T>(l: Loop<T>) returns (e: LoopEvent<T>)
    requires Inv(l) && Live(l) && l.executed != l.pushed
    ensures Settling(e) && Enabled(l, e) && Live(Next(l, e)) && Next(l, e).pushed == l.pushed
    ensures
      var m := Next(l, e);
      || |m.pending| < |l.pending|
      || (|m.pending| == |l.pending| && |m.tasks| < |l.tasks|)
      || (|m.pending| == |l.pending| && |m.tasks| == |l.tasks| && StepsToSwap(m) < StepsToSwap(l))
  {
    assert l.tasks != [] || l.pending != [] by {
      assert l.executed + [] + [] == l.executed;
    }
    match l.pc
    case Executing => e := if l.tasks == [] then Finish else Execute;
    case BeforeSwap => e := Swap;
    case Polling =>
      if l.counter > 0 {
        e := Drain;
      } else {
        var t :| t in l.waking;
        e := Wake(t);
      }
  }

  /** In every state satisfying the invariant, a live loop and the wakes already owed
      to it suffice to run everything queued: there is always such a continuation. */
  lemma {:induction false} QueuedTasksGetRun<T>(l: Loop<T>) returns (more: seq<LoopEvent<T>>)
    requires Inv(l) && Live(l)
    ensures Possible(l, more) && Run(l, more).executed == l.pushed
    ensures forall e <- more :: Settling(e)
    decreases |l.pending|, |l.tasks|, StepsToSwap(l)
  {
    if l.executed == l.pushed {
      more := [];
    } else {
      var e := NextSettles(l);
      NextKeepsInv(l, e);
      var rest := QueuedTasksGetRun(Next(l, e));
      more := [e] + rest;
      hide Next, Enabled, Inv, Live;
      assert more[1..] == rest;
    }
  }

  /** Once started a loop is live until it is stopped or its poller fails. */
  lemma {:induction false} LiveUntilStopped<T>(l: Loop<T>, events: seq<LoopEvent<T>>)
    requires Live(l) && Possible(l, events) && forall e <- events :: !e.Stop? && !e.Leave?
    ensures Live(Run(l, events))
    decreases |events|
  {
    if events == [] {
    } else {
      assert events[0] in events && forall e <- events[1..] :: e in events;
      NextIsLive(l, events[0]);
      hide Next, Enabled, Live;
      LiveUntilStopped(Next(l, events[0]), events[1..]);
    }
  }

  lemma NextIsLive<T>(l: Loop<T>, e: LoopEvent<T>)
    requires Live(l) && Enabled(l, e) && !e.Stop? && !e.Leave?
    ensures Live(Next(l, e))
  {
  }

  lemma StartedIsLive<T>(l: Loop<T>, caller: ThreadId, events: seq<LoopEvent<T>>)
    requires Enabled(l, StartRun(caller)) && Possible(Next(l, StartRun(caller)), events)
    requires forall e <- events :: !e.Stop? && !e.Leave?
    ensures Live(Run(Next(l, StartRun(caller)), events))
  {
    LiveUntilStopped(Next(l, StartRun(caller)), events);
  }

  /** And a live loop that is stopped can always get out of Run: its own steps suffice. */
  lemma StopEndsTheLoop<T>(l: Loop<T>) returns (more: seq<LoopEvent<T>>)
    requires Inv(l) && Live(l)
    ensures Possible(Next(l, Stop), more) && Run(Next(l, Stop), more).pc.Exited?
    ensures forall e <- more :: Settling(e)
  {
    more := StoppedGetsOut(Next(l, Stop));
  }

  function StepsToExit<T>(l: Loop<T>): nat {
    match l.pc
    case Polling => 3
    case BeforeSwap => 2
    case Executing => 1
    case _ => 0
  }

  lemma {:induction false} StoppedGetsOut<T>(l: Loop<T>) returns (more: seq<LoopEvent<T>>)
    requires !l.running && !l.pc.Idle? && (l.pc.Polling? ==> l.counter > 0)
    ensures Possible(l, more) && Run(l, more).pc.Exited? && forall e <- more :: Settling(e)
    decreases StepsToExit(l), |l.tasks|
  {
    if l.pc.Exited? {
      more := [];
    } else {
      var e: LoopEvent<T> := match l.pc
        case Polling => Drain
        case BeforeSwap => Swap
        case _ => if l.tasks == [] then Finish else Execute;
      var rest := StoppedGetsOut(Next(l, e));
      more := [e] + rest;
      hide Next, Enabled;
      assert more[1..] == rest;
    }
  }

  /** In particular at every moment of every run. */
  lemma NothingIsStuck<T>(events: seq<LoopEvent<T>>)
    requires Possible(Start(), events) && Live(Run(Start(), events))
    ensures
      var l := Run(Start(), events);
      exists more :: Possible(l, more) && (forall e <- more :: Settling(e)) && Run(l, more).executed == PushedBy(events)
  {
    RunKeepsInv(Start(), events);
    PushedIsWhatWasPushed(Start(), events);
    var l := Run(Start(), events);
    var more := QueuedTasksGetRun(l);
    assert [] + PushedBy(events) == PushedBy(events);
  }

  // ---- The object ----

  class EventLoop<T> {
    var pc: LoopPc
    var threadId: Option<ThreadId>
    var running: bool
    var counter: nat
    var waking: multiset<ThreadId>
    var pendingTasks: seq<Task<T>>
    var tasks: seq<Task<T>>
    ghost var pushed: seq<Task<T>>
    var executed: seq<Task<T>>

    ghost function View(): Loop<T>
      reads this
    {
      Loop(pc, threadId, running, counter, waking, pendingTasks, tasks, pushed, executed)
    }

    constructor ()
      ensures View() == Start()
    {
      pc, threadId, running, counter, waking := Idle, None, false, 0, multiset{};
      pendingTasks, tasks, pushed, executed := [], [], [], [];
    }

    /** RunInLoop: the loop's own thread may run the task at once, any other queues it
        and then owes a wake. */
    method RunInLoop(task: Task<T>) returns (atOnce: bool)
      modifies this
      ensures atOnce <==> old(threadId) == Some(task.caller)
      ensures View() == if atOnce then old(View()) else Next(old(View()), Push(task))
    {
      atOnce := threadId == Some(task.caller);
      if !atOnce {
        QueueInLoop(task);
      }
    }

    method QueueInLoop(task: Task<T>)
      modifies this
      ensures View() == Next(old(View()), Push(task))
    {
      pendingTasks := pendingTasks + [task];
      pushed := pushed + [task];
      waking := waking + multiset{task.caller};
    }

    method WakeUp(caller: ThreadId)
      requires waking[caller] > 0
      modifies this
      ensures View() == Next(old(View()), Wake(caller))
    {
      if counter < COUNTER_MAX {
        counter := counter + 1;
      }
      waking := waking - multiset{caller};
    }

    /** Run, up to its loop. */
    method StartLoop(caller: ThreadId)
      requires pc.Idle? || pc.Exited?
      modifies this
      ensures View() == Next(old(View()), StartRun(caller))
    {
      threadId := Some(caller);
      running := true;
      pc := Polling;
    }

    method StopLoop()
      modifies this
      ensures View() == Next(old(View()), Stop)
    {
      running := false;
      if counter < COUNTER_MAX {
        counter := counter + 1;
      }
    }

    /** HandleRead when no producer comes between its three sections: everything
        pending is run, in order. */
    method HandleRead()
      requires pc.Polling? && counter > 0 && tasks == []
      modifies this
      ensures View() == old(View()).(executed := old(executed + pendingTasks), pending := [], counter := 0,
                                     pc := if running then Polling else Exited)
    {
      DrainWakeups();
      SwapTasks();
      RunTasks();
    }

    /** Its read(2), its critical section and its task loop are three methods, because
        producers run in between. */
    method DrainWakeups()
      requires pc.Polling? && counter > 0
      modifies this
      ensures View() == Next(old(View()), Drain)
    {
      counter := 0;
      pc := BeforeSwap;
    }

    method SwapTasks()
      requires pc.BeforeSwap?
      modifies this
      ensures View() == Next(old(View()), Swap)
    {
      tasks, pendingTasks := pendingTasks, [];
      pc := Executing;
    }

    method RunTasks()
      requires pc.Executing?
      modifies this
      ensures View() == old(View()).(executed := old(executed) + old(tasks), tasks := [],
                                     pc := if running then Polling else Exited)
    {
      while tasks != []
        invariant pc.Executing?
        invariant executed + tasks == old(executed) + old(tasks)
        invariant View() == old(View()).(executed := executed, tasks := tasks)
        decreases |tasks|
      {
        assert tasks == [tasks[0]] + tasks[1..];
        executed, tasks := executed + [tasks[0]], tasks[1..];
      }
      pc := if running then Polling else Exited;
    }
  }
}
