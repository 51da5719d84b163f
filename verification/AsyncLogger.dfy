/** lib_logger/src/async_logger.cc: producers, a bounded queue with three overflow
    policies, a batching worker and shutdown, as a state machine over the code's
    critical sections, unlocked reads of running_ and single sink writes. */
module AsyncLoggers {
  import opened Bytes

  datatype Entry = Entry(sequence: nat, text: bytes)

  datatype Policy = Block | DiscardOldest | DiscardNewest

  const BATCH_SIZE := 32

  // ---- The queue and its history ----

  /** An entry taken off the front of the queue: evicted, or taken for delivery. */
  datatype Removal = Removal(entry: Entry, evicted: bool)

  datatype Core = Core(
    policy: Policy,
    capacity: nat,               // async_queue_size
    queue: seq<Entry>,
    dropped: nat,                // dropped_count_
    accepted: seq<Entry>,        // every entry ever pushed, in push order
    removed: seq<Removal>,       // every entry ever popped, in pop order
    rejected: seq<Entry>,        // newest entries discarded
    timedOut: seq<Entry>         // entries whose wait was given up
  )

  function Push(c: Core, e: Entry): Core {
    c.(queue := c.queue + [e], accepted := c.accepted + [e])
  }

  function Evict(c: Core): Core
    requires c.queue != []
  {
    c.(queue := c.queue[1..], removed := c.removed + [Removal(c.queue[0], true)], dropped := c.dropped + 1)
  }

  function Reject(c: Core, e: Entry): Core { c.(dropped := c.dropped + 1, rejected := c.rejected + [e]) }

  function GiveUp(c: Core, e: Entry): Core { c.(dropped := c.dropped + 1, timedOut := c.timedOut + [e]) }

  function ForDelivery(entries: seq<Entry>): seq<Removal> {
    seq(|entries|, i requires 0 <= i < |entries| => Removal(entries[i], false))
  }

  function Take(c: Core, n: nat): Core
    requires n <= |c.queue|
  {
    c.(queue := c.queue[n..], removed := c.removed + ForDelivery(c.queue[..n]))
  }

  function Entries(removed: seq<Removal>): seq<Entry> {
    seq(|removed|, i requires 0 <= i < |removed| => removed[i].entry)
  }

  function Kept(removed: seq<Removal>): seq<Entry> {
    if removed == [] then []
    else (if removed[0].evicted then [] else [removed[0].entry]) + Kept(removed[1..])
  }

  function Evictions(removed: seq<Removal>): nat {
    if removed == [] then 0 else (if removed[0].evicted then 1 else 0) + Evictions(removed[1..])
  }

  lemma {:induction false} RemovalsAppend(a: seq<Removal>, b: seq<Removal>)
    ensures Kept(a + b) == Kept(a) + Kept(b)
    ensures Evictions(a + b) == Evictions(a) + Evictions(b)
  {
    if a == [] {
      assert a + b == b;
    } else {
      assert (a + b)[1..] == a[1..] + b;
      RemovalsAppend(a[1..], b);
    }
  }

  lemma {:induction false} DeliveryKeepsAll(entries: seq<Entry>)
    ensures Kept(ForDelivery(entries)) == entries && Evictions(ForDelivery(entries)) == 0
    ensures Entries(ForDelivery(entries)) == entries
  {
    if entries == [] {
    } else {
      assert ForDelivery(entries)[1..] == ForDelivery(entries[1..]);
      DeliveryKeepsAll(entries[1..]);
    }
  }

  predicate Full(c: Core) { |c.queue| >= c.capacity }

  datatype Attempt = Accepted | Refused | MustWait

  /** TryEnqueue under the lock, up to where it would wait. */
  function TryPush(c: Core, e: Entry): (Core, Attempt)
    requires WellConfigured(c.policy, c.capacity)
  {
    if !Full(c) then (Push(c, e), Accepted)
    else match c.policy
      case Block => (c, MustWait)
      case DiscardOldest => (Push(Evict(c), e), Accepted)
      case DiscardNewest => (Reject(c, e), Refused)
  }

  // ---- The protocol ----

  /** A producer inside Enqueue or EnqueueWithTimeout, short of the lock or in a wait. */
  datatype Producer =
    | Checked(entry: Entry, timed: bool)   // saw running_, has not got the lock
    | Waiting(entry: Entry, timed: bool)   // waiting for space, lock released

  datatype Worker = AtLoop | AboutToTake | WorkerWriting | Exited

  datatype Shutdown = NotAsked | Joining | ShutdownWriting | Returned

  /** ProcessBatch in progress: sinks before `sink` have the whole batch, `sink` has
      its first `done` entries. */
  datatype Writing = NotWriting | Writing(batch: seq<Entry>, sink: nat, done: nat)

  datatype Logger = Logger(
    core: Core,
    running: bool,
    entered: seq<Entry>,         // every entry whose producer saw running_ set
    producers: map<nat, Producer>,
    holding: Option<Entry>,      // a producer past its last check, holding the lock, about to push
    turnedAway: seq<Entry>,      // entries whose producer came out of a wait into a shutdown
    worker: Worker,
    shutdown: Shutdown,
    writing: Writing,
    offered: seq<seq<Entry>>,    // per sink, the entries it was asked to write
    delivered: seq<Entry>,       // entries of finished batches
    processed: nat,              // processed_count_
    quietDrain: bool,            // no producer was past its check of running_ when Shutdown drained the
                                 // queue, except in a wait, which can no longer end in a push
    drainMark: nat               // how many entries had been accepted by then
  )

  /** After Initialize. */
  function Start(policy: Policy, capacity: nat, sinks: nat): Logger {
    Logger(Core(policy, capacity, [], 0, [], [], [], []), true, [], map[], None, [], AtLoop, NotAsked, NotWriting,
           seq(sinks, _ => []), [], 0, false, 0)
  }

  /** Popping from an empty std::queue is undefined, so evicting needs room for one. */
  predicate WellConfigured(policy: Policy, capacity: nat) {
    policy.DiscardOldest? ==> capacity >= 1
  }

  datatype Event =
    | Enter(who: nat, entry: Entry, timed: bool)   // the unlocked check of running_
    | Acquire(who: nat)                            // lock, then TryEnqueue or the start of a wait
    | WakeUp(who: nat)                             // a wait ends with its predicate true
    | TimeOut(who: nat)                            // a timed wait ends with its predicate false
    | PushHeld                                     // the push after a wait
    | WorkerChecks                                 // while (running_)
    | WorkerTakes                                  // the worker's critical section
    | Offer | NextSink | EndBatch                  // ProcessBatch
    | AskShutdown                                  // running_.exchange(false)
    | DrainQueue                                   // join, then the final critical section

  predicate Enabled(l: Logger, e: Event) {
    match e
    case Enter(who, _, _) => who !in l.producers
    case Acquire(who) => l.holding.None? && who in l.producers && l.producers[who].Checked?
    case WakeUp(who) =>
      l.holding.None? && who in l.producers && l.producers[who].Waiting? && (!Full(l.core) || !l.running)
    case TimeOut(who) =>
      l.holding.None? && who in l.producers && l.producers[who].Waiting? && l.producers[who].timed
      && Full(l.core) && l.running
    case PushHeld => l.holding.Some?
    case WorkerChecks => l.worker.AtLoop?
    case WorkerTakes => l.holding.None? && l.worker.AboutToTake?
    case Offer => l.writing.Writing? && l.writing.sink < |l.offered| && l.writing.done < |l.writing.batch|
    case NextSink => l.writing.Writing? && l.writing.sink < |l.offered| && l.writing.done == |l.writing.batch|
    case EndBatch => l.writing.Writing? && l.writing.sink == |l.offered|
    case AskShutdown => true
    case DrainQueue => l.holding.None? && l.shutdown.Joining? && l.worker.Exited?
  }

  function Leave(l: Logger, who: nat): Logger { l.(producers := l.producers - {who}) }

  function TurnAway(l: Logger, who: nat): Logger
    requires who in l.producers
  {
    Leave(l, who).(turnedAway := l.turnedAway + [l.producers[who].entry])
  }

  function AcquireStep(l: Logger, who: nat): Logger
    requires WellConfigured(l.core.policy, l.core.capacity) && Enabled(l, Acquire(who))
  {
    var p := l.producers[who];
    var (core, attempt) := TryPush(l.core, p.entry);
    if !attempt.MustWait? then Leave(l, who).(core := core)
    else if l.running then l.(producers := l.producers[who := Waiting(p.entry, p.timed)])
    else TurnAway(l, who)
  }

  function BatchOf(c: Core): nat { Min(|c.queue|, BATCH_SIZE) }

  function WorkerTakesStep(l: Logger): Logger {
    if !l.running && l.core.queue == [] then l.(worker := Exited)
    else if l.core.queue == [] then l.(worker := AtLoop)
    else l.(core := Take(l.core, BatchOf(l.core)), worker := WorkerWriting,
            writing := Writing(l.core.queue[..BatchOf(l.core)], 0, 0))
  }

  function EndBatchStep(l: Logger): Logger
    requires Enabled(l, EndBatch)
  {
    l.(writing := NotWriting, delivered := l.delivered + l.writing.batch,
       processed := l.processed + |l.writing.batch|,
       worker := if l.worker.WorkerWriting? then AtLoop else l.worker,
       shutdown := if l.shutdown.ShutdownWriting? then Returned else l.shutdown)
  }

  function DrainStep(l: Logger): Logger {
    l.(core := Take(l.core, |l.core.queue|),
       shutdown := if l.core.queue == [] then Returned else ShutdownWriting,
       writing := if l.core.queue == [] then NotWriting else Writing(l.core.queue, 0, 0),
       quietDrain := forall who <- l.producers :: l.producers[who].Waiting?, drainMark := |l.core.accepted|)
  }

  function Next(l: Logger, e: Event): Logger
    requires WellConfigured(l.core.policy, l.core.capacity) && Enabled(l, e)
  {
    match e
    case Enter(who, entry, timed) =>
      if l.running then l.(entered := l.entered + [entry], producers := l.producers[who := Checked(entry, timed)]) else l
    case Acquire(who) => AcquireStep(l, who)
    case WakeUp(who) => if l.running then Leave(l, who).(holding := Some(l.producers[who].entry)) else TurnAway(l, who)
    case TimeOut(who) => Leave(l, who).(core := GiveUp(l.core, l.producers[who].entry))
    case PushHeld => l.(core := Push(l.core, l.holding.value), holding := None)
    case WorkerChecks => l.(worker := if l.running then AboutToTake else Exited)
    case WorkerTakes => WorkerTakesStep(l)
    case Offer =>
      var w := l.writing;
      l.(offered := l.offered[w.sink := l.offered[w.sink] + [w.batch[w.done]]], writing := w.(done := w.done + 1))
    case NextSink => l.(writing := l.writing.(sink := l.writing.sink + 1, done := 0))
    case EndBatch => EndBatchStep(l)
    case AskShutdown => if l.running then l.(running := false, shutdown := Joining) else l
    case DrainQueue => DrainStep(l)
  }

  // ---- Invariants ----

  function InFlight(w: Writing): seq<Entry> { if w.Writing? then w.batch else [] }

  /** What sink i has been given of the batch in progress. */
  function Share(w: Writing, i: nat): seq<Entry> {
    if w.NotWriting? || i > w.sink then []
    else if i < w.sink then w.batch
    else w.batch[..Min(w.done, |w.batch|)]
  }

  ghost predicate Conserved(c: Core, delivered: seq<Entry>, inFlight: seq<Entry>) {
    && c.accepted == Entries(c.removed) + c.queue
    && Kept(c.removed) == delivered + inFlight
    && c.dropped == Evictions(c.removed) + |c.rejected| + |c.timedOut|
  }

  ghost predicate Bounded(l: Logger) {
    && |l.core.queue| <= l.core.capacity
    && (l.holding.Some? ==> |l.core.queue| < l.core.capacity)
  }

  ghost predicate SinksAgree(l: Logger) {
    && l.processed == |l.delivered|
    && (l.writing.Writing? ==> l.writing.sink <= |l.offered| && l.writing.done <= |l.writing.batch|)
    && forall i :: 0 <= i < |l.offered| ==> l.offered[i] == l.delivered + Share(l.writing, i)
  }

  ghost predicate Ordered(l: Logger) {
    && (l.running <==> l.shutdown.NotAsked?)
    && (l.worker.Exited? ==> !l.running)
    && (l.shutdown.ShutdownWriting? || l.shutdown.Returned? ==> l.worker.Exited?)
    && (l.writing.Writing? <==> l.worker.WorkerWriting? || l.shutdown.ShutdownWriting?)
  }

  /** After the drain, only entries accepted since then can be in the queue. */
  ghost predicate Drained(l: Logger) {
    l.shutdown.ShutdownWriting? || l.shutdown.Returned? ==>
      && l.drainMark <= |l.core.accepted|
      && (l.core.queue == [] <==> |l.core.accepted| == l.drainMark)
      && (l.quietDrain ==> l.holding.None? && |l.core.accepted| == l.drainMark)
      && (l.quietDrain ==> forall who <- l.producers :: l.producers[who].Waiting?)
  }

  ghost predicate Inv(l: Logger) {
    && WellConfigured(l.core.policy, l.core.capacity)
    && Conserved(l.core, l.delivered, InFlight(l.writing))
    && Bounded(l) && SinksAgree(l) && Ordered(l) && Drained(l)
  }

  lemma PushConserves(c: Core, e: Entry, delivered: seq<Entry>, inFlight: seq<Entry>)
    requires Conserved(c, delivered, inFlight)
    ensures Conserved(Push(c, e), delivered, inFlight)
  {
    assert Entries(c.removed) + c.queue + [e] == Entries(c.removed) + (c.queue + [e]);
  }

  lemma EvictConserves(c: Core, delivered: seq<Entry>, inFlight: seq<Entry>)
    requires Conserved(c, delivered, inFlight) && c.queue != []
    ensures Conserved(Evict(c), delivered, inFlight)
  {
    RemovalsAppend(c.removed, [Removal(c.queue[0], true)]);
    assert Entries(Evict(c).removed) == Entries(c.removed) + [c.queue[0]];
    assert c.queue == [c.queue[0]] + c.queue[1..];
  }

  lemma TakeConserves(c: Core, n: nat, delivered: seq<Entry>)
    requires Conserved(c, delivered, []) && n <= |c.queue|
    ensures Conserved(Take(c, n), delivered, c.queue[..n])
  {
    RemovalsAppend(c.removed, ForDelivery(c.queue[..n]));
    DeliveryKeepsAll(c.queue[..n]);
    assert Entries(Take(c, n).removed) == Entries(c.removed) + c.queue[..n];
    assert c.queue == c.queue[..n] + c.queue[n..];
    assert delivered + [] == delivered;
  }

  lemma AcquireKeepsInv(l: Logger, who: nat)
    requires Inv(l) && Enabled(l, Acquire(who))
    ensures Inv(AcquireStep(l, who))
  {
    hide Conserved, Push, Evict;
    var e, inFlight := l.producers[who].entry, InFlight(l.writing);
    if !Full(l.core) {
      PushConserves(l.core, e, l.delivered, inFlight);
      PushShape(l.core, e);
    } else if l.core.policy.DiscardOldest? {
      EvictConserves(l.core, l.delivered, inFlight);
      PushConserves(Evict(l.core), e, l.delivered, inFlight);
      EvictShape(l.core);
      PushShape(Evict(l.core), e);
    } else if l.core.policy.DiscardNewest? {
      RejectConserves(l.core, e, l.delivered, inFlight);
    }
  }

  lemma PushShape(c: Core, e: Entry)
    ensures |Push(c, e).queue| == |c.queue| + 1 && |Push(c, e).accepted| == |c.accepted| + 1
    ensures Push(c, e).policy == c.policy && Push(c, e).capacity == c.capacity
  {
  }

  lemma EvictShape(c: Core)
    requires c.queue != []
    ensures |Evict(c).queue| == |c.queue| - 1 && Evict(c).accepted == c.accepted
    ensures Evict(c).policy == c.policy && Evict(c).capacity == c.capacity
  {
  }

  lemma RejectConserves(c: Core, e: Entry, delivered: seq<Entry>, inFlight: seq<Entry>)
    requires Conserved(c, delivered, inFlight)
    ensures Conserved(Reject(c, e), delivered, inFlight) && Conserved(GiveUp(c, e), delivered, inFlight)
  {
  }

  lemma WritingKeepsInv(l: Logger, e: Event)
    requires Inv(l) && Enabled(l, e) && (e.Offer? || e.NextSink? || e.EndBatch?)
    ensures Inv(Next(l, e))
  {
    hide Conserved;
    var w := l.writing;
    match e
    case Offer =>
      assert w.batch[..w.done] + [w.batch[w.done]] == w.batch[..w.done + 1];
      assert l.delivered + w.batch[..w.done] + [w.batch[w.done]] == l.delivered + w.batch[..w.done + 1];
    case NextSink =>
      assert w.batch[..w.done] == w.batch && w.batch[..0] == [];
    case EndBatch =>
      EndBatchConserves(l.core, l.delivered, w.batch);
      forall i | 0 <= i < |l.offered|
        ensures l.offered[i] == (l.delivered + w.batch) + []
      {
        assert Share(w, i) == w.batch;
      }
  }

  lemma EndBatchConserves(c: Core, delivered: seq<Entry>, batch: seq<Entry>)
    requires Conserved(c, delivered, batch)
    ensures Conserved(c, delivered + batch, [])
  {
    assert delivered + batch + [] == delivered + batch;
  }

  lemma TakingKeepsInv(l: Logger, e: Event)
    requires Inv(l) && Enabled(l, e) && (e.WorkerTakes? || e.DrainQueue?)
    ensures Inv(Next(l, e))
  {
    hide Conserved;
    assert l.writing.NotWriting?;
    var n := if e.WorkerTakes? then BatchOf(l.core) else |l.core.queue|;
    TakeConserves(l.core, n, l.delivered);
    assert l.core.queue[..|l.core.queue|] == l.core.queue;
    forall i | 0 <= i < |l.offered|
      ensures l.offered[i] == l.delivered + Share(Writing(l.core.queue[..n], 0, 0), i)
    {
      assert l.core.queue[..n][..0] == [];
    }
  }

  lemma NextKeepsInv(l: Logger, e: Event)
    requires Inv(l) && Enabled(l, e)
    ensures Inv(Next(l, e))
  {
    match e
    case Acquire(who) => AcquireKeepsInv(l, who);
    case TimeOut(who) => RejectConserves(l.core, l.producers[who].entry, l.delivered, InFlight(l.writing));
    case PushHeld => PushConserves(l.core, l.holding.value, l.delivered, InFlight(l.writing));
    case WorkerTakes => TakingKeepsInv(l, e);
    case DrainQueue => TakingKeepsInv(l, e);
    case Offer => WritingKeepsInv(l, e);
    case NextSink => WritingKeepsInv(l, e);
    case EndBatch => WritingKeepsInv(l, e);
    case _ =>
  }

  // ---- Runs ----

  lemma NextKeepsConfig(l: Logger, e: Event)
    requires WellConfigured(l.core.policy, l.core.capacity) && Enabled(l, e)
    ensures Next(l, e).core.policy == l.core.policy && Next(l, e).core.capacity == l.core.capacity
    ensures |Next(l, e).offered| == |l.offered|
  {
  }

  predicate Possible(l: Logger, events: seq<Event>)
    requires WellConfigured(l.core.policy, l.core.capacity)
    decreases |events|
  {
    events != [] ==>
      && Enabled(l, events[0])
      && (NextKeepsConfig(l, events[0]);
          Possible(Next(l, events[0]), events[1..]))
  }

  function Run(l: Logger, events: seq<Event>): Logger
    requires WellConfigured(l.core.policy, l.core.capacity) && Possible(l, events)
    decreases |events|
  {
    if events == [] then l
    else
      NextKeepsConfig(l, events[0]);
      Run(Next(l, events[0]), events[1..])
  }

  lemma {:induction false} RunKeepsInv(l: Logger, events: seq<Event>)
    requires Inv(l) && Possible(l, events)
    ensures Inv(Run(l, events))
    ensures Run(l, events).core.capacity == l.core.capacity && |Run(l, events).offered| == |l.offered|
    decreases |events|
  {
    hide Next, Inv;
    if events == [] {
    } else {
      InvConfig(l);
      NextKeepsInv(l, events[0]);
      NextKeepsConfig(l, events[0]);
      RunKeepsInv(Next(l, events[0]), events[1..]);
    }
  }

  lemma InvConfig(l: Logger)
    requires Inv(l)
    ensures WellConfigured(l.core.policy, l.core.capacity)
  {
  }

  lemma StartInv(policy: Policy, capacity: nat, sinks: nat)
    requires WellConfigured(policy, capacity)
    ensures Inv(Start(policy, capacity, sinks))
  {
  }

  /** Order and conservation, in every reachable state of every interleaving, under
      every policy: the accepted entries, in order, are those removed and then those
      queued; the removed entries that were not evicted are, in order, the ones
      delivered and then the batch in flight; between batches every sink has been
      offered exactly the delivered entries, and during one at most that batch more. */
  lemma NothingLostOrDoubled(policy: Policy, capacity: nat, sinks: nat, events: seq<Event>)
    requires WellConfigured(policy, capacity) && Possible(Start(policy, capacity, sinks), events)
    ensures
      var l := Run(Start(policy, capacity, sinks), events);
      && l.core.accepted == Entries(l.core.removed) + l.core.queue
      && Kept(l.core.removed) == l.delivered + InFlight(l.writing)
      && l.processed == |l.delivered|
      && |l.offered| == sinks
      && (forall i :: 0 <= i < sinks ==> l.offered[i] == l.delivered + Share(l.writing, i))
      && (l.writing.NotWriting? ==> forall i :: 0 <= i < sinks ==> l.offered[i] == Kept(l.core.removed))
  {
    StartInv(policy, capacity, sinks);
    RunKeepsInv(Start(policy, capacity, sinks), events);
  }

  /** The queue never outgrows its configured size, and the dropped count is exact:
      evictions, newest entries turned away, and waits that timed out. */
  lemma QueueBoundedDropsCounted(policy: Policy, capacity: nat, sinks: nat, events: seq<Event>)
    requires WellConfigured(policy, capacity) && Possible(Start(policy, capacity, sinks), events)
    ensures
      var l := Run(Start(policy, capacity, sinks), events);
      && |l.core.queue| <= capacity
      && l.core.dropped == Evictions(l.core.removed) + |l.core.rejected| + |l.core.timedOut|
  {
    StartInv(policy, capacity, sinks);
    RunKeepsInv(Start(policy, capacity, sinks), events);
  }

  /** When Shutdown has returned, the queue is empty exactly if nothing was accepted
      after its drain; and nothing can have been if no producer was between its check
      of running_ and its push at that moment (a wait ends without a push by then).
      Then every accepted entry that was not evicted has been offered to every sink,
      in order. */
  lemma ShutdownDeliversEverything(policy: Policy, capacity: nat, sinks: nat, events: seq<Event>)
    requires WellConfigured(policy, capacity) && Possible(Start(policy, capacity, sinks), events)
    requires Run(Start(policy, capacity, sinks), events).shutdown.Returned?
    ensures
      var l := Run(Start(policy, capacity, sinks), events);
      && (l.core.queue == [] <==> |l.core.accepted| == l.drainMark)
      && (l.quietDrain ==>
            && l.core.queue == []
            && l.core.accepted == Entries(l.core.removed)
            && |l.offered| == sinks
            && forall i :: 0 <= i < sinks ==> l.offered[i] == Kept(l.core.removed))
  {
    StartInv(policy, capacity, sinks);
    RunKeepsInv(Start(policy, capacity, sinks), events);
  }

  /** A drain that was not quiet leaves a producer still to push, or an entry pushed since. */
  ghost predicate Unquiet(l: Logger) {
    (l.shutdown.ShutdownWriting? || l.shutdown.Returned?) && !l.quietDrain && l.core.capacity >= 1 ==>
      (exists who <- l.producers :: l.producers[who].Checked?) || |l.core.accepted| > l.drainMark
  }

  lemma AcquireKeepsUnquiet(l: Logger, who: nat)
    requires Inv(l) && Unquiet(l) && Enabled(l, Acquire(who))
    ensures Unquiet(AcquireStep(l, who))
  {
    hide Conserved, SinksAgree;
    if l.shutdown.ShutdownWriting? || l.shutdown.Returned? {
      if l.core.queue == [] && l.core.capacity >= 1 {
        assert AcquireStep(l, who).core == Push(l.core, l.producers[who].entry);
      }
    }
  }

  lemma NextKeepsUnquiet(l: Logger, e: Event)
    requires Inv(l) && Unquiet(l) && Enabled(l, e)
    ensures Unquiet(Next(l, e))
  {
    hide Conserved, SinksAgree, AcquireStep;
    match e
    case Acquire(who) => AcquireKeepsUnquiet(l, who);
    case WakeUp(who) => OthersStay(l, who);
    case TimeOut(who) => OthersStay(l, who);
    case _ =>
  }

  lemma OthersStay(l: Logger, who: nat)
    requires who in l.producers && l.producers[who].Waiting?
    ensures (exists p <- l.producers :: l.producers[p].Checked?) ==>
            exists p <- Leave(l, who).producers :: Leave(l, who).producers[p].Checked?
  {
    if p :| p in l.producers && l.producers[p].Checked? {
      assert p in Leave(l, who).producers;
    }
  }

  lemma {:induction false} RunKeepsUnquiet(l: Logger, events: seq<Event>)
    requires Inv(l) && Unquiet(l) && Possible(l, events)
    ensures Unquiet(Run(l, events))
    decreases |events|
  {
    hide Next, Inv, Unquiet;
    InvConfig(l);
    if events == [] {
    } else {
      NextKeepsInv(l, events[0]);
      NextKeepsUnquiet(l, events[0]);
      NextKeepsConfig(l, events[0]);
      RunKeepsUnquiet(Next(l, events[0]), events[1..]);
    }
  }

  /** The hypothesis is exact: once Shutdown has returned and no producer is left
      between its check and its push, everything accepted was evicted or offered if and
      only if none was there when the drain ran. */
  lemma ShutdownDeliversEverythingIff(policy: Policy, capacity: nat, sinks: nat, events: seq<Event>)
    requires capacity >= 1 && Possible(Start(policy, capacity, sinks), events)
    requires
      var l := Run(Start(policy, capacity, sinks), events);
      l.shutdown.Returned? && forall who <- l.producers :: !l.producers[who].Checked?
    ensures
      var l := Run(Start(policy, capacity, sinks), events);
      && (l.core.queue == [] <==> l.quietDrain)
      && (l.core.accepted == Entries(l.core.removed) <==> l.quietDrain)
      && (forall i :: 0 <= i < sinks ==> i < |l.offered| && l.offered[i] == Kept(l.core.removed))
  {
    var start := Start(policy, capacity, sinks);
    StartInv(policy, capacity, sinks);
    RunKeepsInv(start, events);
    RunKeepsUnquiet(start, events);
    NothingLostOrDoubled(policy, capacity, sinks, events);
  }

  /** And Shutdown is final: from any state in which it has returned, whatever happens
      next, no sink is offered anything more. */
  lemma {:induction false} NothingOfferedAfterShutdown(l: Logger, events: seq<Event>)
    requires Inv(l) && l.shutdown.Returned? && Possible(l, events)
    ensures
      var m := Run(l, events);
      m.shutdown.Returned? && m.offered == l.offered && m.delivered == l.delivered && m.processed == l.processed
    decreases |events|
  {
    hide Conserved, Bounded, SinksAgree, Drained;
    if events == [] {
    } else {
      ReturnedStays(l, events[0]);
      NextKeepsInv(l, events[0]);
      NextKeepsConfig(l, events[0]);
      hide Next, Inv;
      NothingOfferedAfterShutdown(Next(l, events[0]), events[1..]);
    }
  }

  lemma ReturnedStays(l: Logger, e: Event)
    requires Inv(l) && l.shutdown.Returned? && Enabled(l, e)
    ensures
      var m := Next(l, e);
      m.shutdown.Returned? && m.offered == l.offered && m.delivered == l.delivered && m.processed == l.processed
  {
    hide Conserved, Bounded, SinksAgree, Drained;
  }

  lemma RunStep(l: Logger, e: Event, more: seq<Event>)
    requires WellConfigured(l.core.policy, l.core.capacity) && Enabled(l, e)
    requires (NextKeepsConfig(l, e); Possible(Next(l, e), more))
    ensures Possible(l, [e] + more) && Run(l, [e] + more) == (NextKeepsConfig(l, e); Run(Next(l, e), more))
  {
    hide Next, Enabled;
    assert ([e] + more)[1..] == more;
    NextKeepsConfig(l, e);
  }

  lemma EmptyDrain(l: Logger, who: nat)
    requires l.core.queue == l.core.accepted == [] && l.writing.NotWriting?
    requires who in l.producers && l.producers[who].Checked?
    ensures DrainStep(l) == l.(shutdown := Returned, quietDrain := false, drainMark := 0)
  {
    assert ForDelivery([]) == [];
    assert l.core.removed + [] == l.core.removed;
  }

  /** A producer that sees running_ just before Shutdown and takes the lock after the drain. */
  function Straggling(e: Entry): seq<Event> {
    [Enter(0, e, false)] + ([AskShutdown] + ([WorkerChecks] + ([DrainQueue] + ([Acquire(0)] + []))))
  }

  /** Such a run exists under every policy with any queue size of at least 1 and any
      sinks: its entry is accepted, and no sink is offered it however the run goes on. */
  lemma StragglerIsLost(policy: Policy, capacity: nat, sinks: nat, e: Entry)
    requires capacity >= 1
    ensures
      && Possible(Start(policy, capacity, sinks), Straggling(e))
      && var l := Run(Start(policy, capacity, sinks), Straggling(e));
         && Inv(l) && l.shutdown.Returned? && l.producers == map[]
         && l.core.accepted == l.core.queue == [e]
         && |l.offered| == sinks && (forall i :: 0 <= i < sinks ==> l.offered[i] == [])
         && (forall more :: Possible(l, more) ==> Run(l, more).offered == l.offered)
  {
    var l0 := Start(policy, capacity, sinks);
    var l1 := l0.(entered := [e], producers := map[0 := Checked(e, false)]);
    var l2 := l1.(running := false, shutdown := Joining);
    var l3 := l2.(worker := Exited);
    var l4 := l3.(shutdown := Returned, quietDrain := false, drainMark := 0);
    var l5 := l4.(producers := map[], core := Push(l4.core, e));
    assert Next(l0, Enter(0, e, false)) == l1 && Next(l1, AskShutdown) == l2 && Next(l2, WorkerChecks) == l3;
    EmptyDrain(l3, 0);
    assert Next(l3, DrainQueue) == l4;
    assert l4.producers - {0} == map[];
    assert Next(l4, Acquire(0)) == l5;
    assert l5.core.accepted == l5.core.queue == [e];
    StartInv(policy, capacity, sinks);
    hide Next, Inv;
    RunStep(l4, Acquire(0), []);
    RunStep(l3, DrainQueue, [Acquire(0)] + []);
    RunStep(l2, WorkerChecks, [DrainQueue] + ([Acquire(0)] + []));
    RunStep(l1, AskShutdown, [WorkerChecks] + ([DrainQueue] + ([Acquire(0)] + [])));
    RunStep(l0, Enter(0, e, false), [AskShutdown] + ([WorkerChecks] + ([DrainQueue] + ([Acquire(0)] + []))));
    RunKeepsInv(l0, Straggling(e));
    InvConfig(l5);
    forall more | Possible(l5, more)
      ensures Run(l5, more).offered == l5.offered
    {
      NothingOfferedAfterShutdown(l5, more);
    }
  }

  // ---- The object: the code inside the critical sections ----

  class AsyncLogger {
    const policy: Policy
    const capacity: nat
    var queue: seq<Entry>
    var dropped: nat
    ghost var accepted: seq<Entry>
    ghost var removed: seq<Removal>
    ghost var rejected: seq<Entry>
    ghost var timedOut: seq<Entry>
    var offered: seq<seq<Entry>>
    var processed: nat

    ghost function View(): Core
      reads this
    {
      Core(policy, capacity, queue, dropped, accepted, removed, rejected, timedOut)
    }

    constructor (policy: Policy, capacity: nat, sinks: nat)
      ensures View() == Start(policy, capacity, sinks).core
      ensures offered == Start(policy, capacity, sinks).offered && processed == 0
    {
      this.policy, this.capacity := policy, capacity;
      queue, dropped, accepted, removed, rejected, timedOut := [], 0, [], [], [], [];
      offered, processed := seq(sinks, _ => []), 0;
    }

    /** TryEnqueue under the lock, up to where it would wait. */
    method TryEnqueue(entry: Entry) returns (attempt: Attempt)
      requires WellConfigured(policy, capacity)
      modifies this
      ensures offered == old(offered) && processed == old(processed)
      ensures (View(), attempt) == TryPush(old(View()), entry)
    {
      if |queue| >= capacity {
        match policy {
          case Block =>
            return MustWait;
          case DiscardOldest =>
            removed := removed + [Removal(queue[0], true)];
            queue := queue[1..];
            dropped := dropped + 1;
          case DiscardNewest =>
            dropped := dropped + 1;
            rejected := rejected + [entry];
            return Refused;
        }
      }
      queue := queue + [entry];
      accepted := accepted + [entry];
      return Accepted;
    }

    /** Pops up to `limit` entries, one at a time: the worker's batch loop with
        BATCH_SIZE, Shutdown's drain loop with no limit. */
    method Collect(limit: nat) returns (batch: seq<Entry>)
      modifies this
      ensures batch == old(queue)[..Min(|old(queue)|, limit)]
      ensures View() == Take(old(View()), Min(|old(queue)|, limit))
      ensures offered == old(offered) && processed == old(processed)
    {
      batch := [];
      ghost var was, gone := queue, removed;
      while queue != [] && |batch| < limit
        invariant |batch| <= Min(|was|, limit) && batch == was[..|batch|] && queue == was[|batch|..]
        invariant View() == old(View()).(queue := queue, removed := gone + ForDelivery(batch))
        invariant offered == old(offered) && processed == old(processed)
        decreases |queue|
      {
        assert ForDelivery(batch + [queue[0]]) == ForDelivery(batch) + [Removal(queue[0], false)];
        removed := removed + [Removal(queue[0], false)];
        batch, queue := batch + [queue[0]], queue[1..];
      }
    }

    /** Every entry of the batch to every sink, sink by sink. */
    method ProcessBatch(batch: seq<Entry>)
      modifies `offered, `processed
      ensures |offered| == |old(offered)|
      ensures forall i :: 0 <= i < |offered| ==> offered[i] == old(offered)[i] + batch
      ensures processed == old(processed) + |batch|
    {
      for s := 0 to |offered|
        invariant |offered| == |old(offered)| && processed == old(processed)
        invariant forall i :: 0 <= i < |offered| ==> offered[i] == old(offered)[i] + if i < s then batch else []
      {
        for k := 0 to |batch|
          invariant |offered| == |old(offered)| && processed == old(processed)
          invariant forall i :: 0 <= i < |offered| && i != s ==>
            offered[i] == old(offered)[i] + if i < s then batch else []
          invariant offered[s] == old(offered)[s] + batch[..k]
        {
          offered := offered[s := offered[s] + [batch[k]]];
        }
        assert batch[..|batch|] == batch;
      }
      processed := processed + |batch|;
    }
  }
}
