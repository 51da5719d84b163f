/** What becomes of every entry of lib_logger/src/async_logger.cc:84-153 that got past
    its producer's check of running_, and that the worker and Shutdown get on with it
    (lib_logger/src/async_logger.cc:51-82 and 174-225). */
module LoggerAccounts {
  import opened Bytes
  import opened AsyncLoggers

  // ---- Every entry is accounted for ----

  /** The producers underway with x. */
  function Holders(producers: map<nat, Producer>, x: Entry): set<nat> {
    set who <- producers | producers[who].entry == x
  }

  lemma Arrives(producers: map<nat, Producer>, who: nat, p: Producer, x: Entry)
    requires who !in producers
    ensures |Holders(producers[who := p], x)| == |Holders(producers, x)| + if p.entry == x then 1 else 0
  {
    var more := producers[who := p];
    assert Holders(more, x) == Holders(producers, x) + if p.entry == x then {who} else {};
  }

  lemma Departs(producers: map<nat, Producer>, who: nat, x: Entry)
    requires who in producers
    ensures |Holders(producers - {who}, x)| == |Holders(producers, x)| - if producers[who].entry == x then 1 else 0
  {
    var own := if producers[who].entry == x then {who} else {};
    assert Holders(producers, x) == Holders(producers - {who}, x) + own;
  }

  lemma Stays(producers: map<nat, Producer>, who: nat, p: Producer, x: Entry)
    requires who in producers && producers[who].entry == p.entry
    ensures |Holders(producers[who := p], x)| == |Holders(producers, x)|
  {
    assert Holders(producers[who := p], x) == Holders(producers, x);
  }

  function Times(entries: seq<Entry>, x: Entry): nat { multiset(entries)[x] }

  lemma TimesSnoc(entries: seq<Entry>, e: Entry, x: Entry)
    ensures Times(entries + [e], x) == Times(entries, x) + if e == x then 1 else 0
  {
  }

  function Held(holding: Option<Entry>, x: Entry): nat { if holding == Some(x) then 1 else 0 }

  /** Where x has got to, as often as it entered. */
  function Tally(l: Logger, x: Entry): nat {
    Times(l.core.accepted, x) + Times(l.core.rejected, x) + Times(l.core.timedOut, x) + Times(l.turnedAway, x)
    + |Holders(l.producers, x)| + Held(l.holding, x)
  }

  function Total(l: Logger): nat {
    |l.core.accepted| + |l.core.rejected| + |l.core.timedOut| + |l.turnedAway| + |l.producers|
    + if l.holding.Some? then 1 else 0
  }

  /** Losses have their causes, and only under the policy that allows them. */
  ghost predicate Justified(l: Logger) {
    && (l.core.rejected != [] ==> l.core.policy.DiscardNewest?)
    && (l.core.timedOut != [] ==> l.core.policy.Block?)
    && (Evictions(l.core.removed) > 0 ==> l.core.policy.DiscardOldest?)
    && (l.running ==> l.turnedAway == [])
    && (forall who <- l.producers :: l.producers[who].Waiting? ==> l.core.policy.Block?)
  }

  /** Nobody has been turned away or made to wait before there were more entries than places. */
  ghost predicate Roomy(l: Logger) {
    l.core.dropped > 0 || l.turnedAway != [] || SomeoneWaits(l) ==> |l.entered| > l.core.capacity
  }

  ghost predicate SomeoneWaits(l: Logger) { exists who <- l.producers :: l.producers[who].Waiting? }

  ghost predicate Accounted(l: Logger) {
    && (forall x :: Times(l.entered, x) == Tally(l, x))
    && |l.entered| == Total(l)
    && Justified(l) && Roomy(l)
  }

  /** One producer's entry e moves from here to there. */
  lemma LeavesWith(l: Logger, who: nat, x: Entry)
    requires who in l.producers
    ensures |Holders(Leave(l, who).producers, x)| == |Holders(l.producers, x)| - if l.producers[who].entry == x then 1 else 0
    ensures |Leave(l, who).producers| == |l.producers| - 1
  {
    Departs(l.producers, who, x);
    assert l.producers == (l.producers - {who})[who := l.producers[who]];
  }

  lemma EvictionsSnoc(removed: seq<Removal>, r: Removal)
    ensures Evictions(removed + [r]) == Evictions(removed) + if r.evicted then 1 else 0
  {
    RemovalsAppend(removed, [r]);
    assert [r][1..] == [];
  }

  lemma PushTally(l: Logger, c: Core, who: nat, x: Entry)
    requires who in l.producers
    requires c.accepted == l.core.accepted && c.rejected == l.core.rejected && c.timedOut == l.core.timedOut
    ensures
      var m := Leave(l, who).(core := Push(c, l.producers[who].entry));
      Tally(m, x) == Tally(l, x) && Total(m) == Total(l)
  {
    hide Times, Holders;
    LeavesWith(l, who, x);
    TimesSnoc(c.accepted, l.producers[who].entry, x);
  }

  lemma RejectTally(l: Logger, who: nat, x: Entry)
    requires who in l.producers
    ensures
      var m := Leave(l, who).(core := Reject(l.core, l.producers[who].entry));
      Tally(m, x) == Tally(l, x) && Total(m) == Total(l)
  {
    hide Times, Holders;
    LeavesWith(l, who, x);
    TimesSnoc(l.core.rejected, l.producers[who].entry, x);
  }

  lemma WaitTally(l: Logger, who: nat, x: Entry)
    requires who in l.producers
    ensures
      var waits := l.(producers := l.producers[who := Waiting(l.producers[who].entry, l.producers[who].timed)]);
      Tally(waits, x) == Tally(l, x) && Total(waits) == Total(l)
    ensures Tally(TurnAway(l, who), x) == Tally(l, x) && Total(TurnAway(l, who)) == Total(l)
  {
    hide Times, Holders;
    var p := Waiting(l.producers[who].entry, l.producers[who].timed);
    Stays(l.producers, who, p, x);
    assert |l.producers[who := p]| == |l.producers|;
    LeavesWith(l, who, x);
    TimesSnoc(l.turnedAway, l.producers[who].entry, x);
  }

  lemma AcquireTally(l: Logger, who: nat, x: Entry)
    requires WellConfigured(l.core.policy, l.core.capacity) && Enabled(l, Acquire(who))
    ensures Tally(AcquireStep(l, who), x) == Tally(l, x) && Total(AcquireStep(l, who)) == Total(l)
    ensures AcquireStep(l, who).entered == l.entered
  {
    hide Tally, Total, Push, Reject;
    PushTally(l, l.core, who, x);
    if l.core.queue != [] {
      PushTally(l, Evict(l.core), who, x);
    }
    RejectTally(l, who, x);
    WaitTally(l, who, x);
  }

  lemma EnterTally(l: Logger, who: nat, p: Producer, x: Entry)
    requires who !in l.producers
    ensures
      var m := l.(entered := l.entered + [p.entry], producers := l.producers[who := p]);
      && Tally(m, x) - Tally(l, x) == Times(m.entered, x) - Times(l.entered, x)
      && Total(m) == Total(l) + 1
  {
    hide Times, Holders;
    Arrives(l.producers, who, p, x);
    TimesSnoc(l.entered, p.entry, x);
  }

  lemma WakeTally(l: Logger, who: nat, x: Entry)
    requires who in l.producers && l.holding.None?
    ensures
      var m := Leave(l, who).(holding := Some(l.producers[who].entry));
      Tally(m, x) == Tally(l, x) && Total(m) == Total(l)
  {
    hide Times, Holders;
    LeavesWith(l, who, x);
  }

  lemma TimeOutTally(l: Logger, who: nat, x: Entry)
    requires who in l.producers
    ensures
      var m := Leave(l, who).(core := GiveUp(l.core, l.producers[who].entry));
      Tally(m, x) == Tally(l, x) && Total(m) == Total(l)
  {
    hide Times, Holders;
    LeavesWith(l, who, x);
    TimesSnoc(l.core.timedOut, l.producers[who].entry, x);
  }

  lemma PushHeldTally(l: Logger, x: Entry)
    requires l.holding.Some?
    ensures
      var m := l.(core := Push(l.core, l.holding.value), holding := None);
      Tally(m, x) == Tally(l, x) && Total(m) == Total(l)
  {
    hide Times, Holders;
    TimesSnoc(l.core.accepted, l.holding.value, x);
  }

  /** All that the tally looks at. */
  ghost predicate SameEntries(l: Logger, m: Logger) {
    && m.core.accepted == l.core.accepted && m.core.rejected == l.core.rejected && m.core.timedOut == l.core.timedOut
    && m.turnedAway == l.turnedAway && m.producers == l.producers && m.holding == l.holding && m.entered == l.entered
  }

  predicate MovesEntries(e: Event) { e.Enter? || e.Acquire? || e.WakeUp? || e.TimeOut? || e.PushHeld? }

  lemma OthersMoveNothing(l: Logger, e: Event)
    requires WellConfigured(l.core.policy, l.core.capacity) && Enabled(l, e) && !MovesEntries(e)
    ensures SameEntries(l, Next(l, e))
  {
  }

  lemma NextTally(l: Logger, e: Event, x: Entry)
    requires WellConfigured(l.core.policy, l.core.capacity) && Enabled(l, e)
    ensures Tally(Next(l, e), x) - Tally(l, x) == Times(Next(l, e).entered, x) - Times(l.entered, x)
    ensures Total(Next(l, e)) - Total(l) == |Next(l, e).entered| - |l.entered|
  {
    match e
    case Enter(who, entry, timed) =>
      hide Times, Tally, Total;
      EnterTally(l, who, Checked(entry, timed), x);
    case Acquire(who) =>
      hide Times, Tally, Total, AcquireStep;
      AcquireTally(l, who, x);
    case WakeUp(who) =>
      hide Times, Tally, Total, TurnAway;
      WakeTally(l, who, x);
      WaitTally(l, who, x);
      assert TurnAway(l, who).entered == l.entered by { TurnedAwayEntered(l, who); }
    case TimeOut(who) =>
      hide Times, Tally, Total;
      TimeOutTally(l, who, x);
    case PushHeld =>
      hide Times, Tally, Total;
      PushHeldTally(l, x);
    case _ =>
      OthersMoveNothing(l, e);
      hide Next, Times;
  }

  lemma TurnedAwayEntered(l: Logger, who: nat)
    requires who in l.producers
    ensures TurnAway(l, who).entered == l.entered
  {
  }

  lemma TakingEvictsNothing(c: Core, n: nat)
    requires n <= |c.queue|
    ensures Evictions(Take(c, n).removed) == Evictions(c.removed)
  {
    RemovalsAppend(c.removed, ForDelivery(c.queue[..n]));
    DeliveryKeepsAll(c.queue[..n]);
  }

  lemma AcquireJustified(l: Logger, who: nat)
    requires Inv(l) && Justified(l) && Enabled(l, Acquire(who))
    ensures Justified(AcquireStep(l, who))
  {
    hide Conserved, SinksAgree, Ordered, Drained, Evictions;
    if l.core.queue != [] {
      EvictionsSnoc(l.core.removed, Removal(l.core.queue[0], true));
    }
  }

  lemma NextJustified(l: Logger, e: Event)
    requires Inv(l) && Justified(l) && Enabled(l, e)
    ensures Justified(Next(l, e))
  {
    hide Conserved, SinksAgree, Drained, Evictions, AcquireStep;
    match e
    case Acquire(who) => AcquireJustified(l, who);
    case WorkerTakes => TakingEvictsNothing(l.core, BatchOf(l.core));
    case DrainQueue => TakingEvictsNothing(l.core, |l.core.queue|);
    case _ =>
  }

  lemma AcquireRoomy(l: Logger, who: nat)
    requires Inv(l) && |l.entered| == Total(l) && Roomy(l) && Enabled(l, Acquire(who))
    ensures Roomy(AcquireStep(l, who))
  {
    FullMeansMany(l, who);
    OthersWait(l, who);
    hide Inv, Total;
  }

  lemma NextRoomy(l: Logger, e: Event)
    requires Inv(l) && |l.entered| == Total(l) && Roomy(l) && Enabled(l, e)
    ensures Roomy(Next(l, e))
  {
    InvConfig(l);
    match e
    case Enter(who, entry, timed) =>
      hide Inv, Total;
      if SomeoneWaits(Next(l, e)) {
        var p :| p in Next(l, e).producers && Next(l, e).producers[p].Waiting?;
        assert p in l.producers && l.producers[p].Waiting?;
      }
    case Acquire(who) =>
      AcquireRoomy(l, who);
      hide Inv, Total, AcquireStep, Roomy;
    case WakeUp(who) =>
      OthersWait(l, who);
      WaiterWaits(l, who);
      hide Inv, Total, SomeoneWaits;
    case TimeOut(who) =>
      OthersWait(l, who);
      WaiterWaits(l, who);
      hide Inv, Total, SomeoneWaits;
    case PushHeld =>
      hide Inv, Total;
    case _ =>
      OthersMoveNothing(l, e);
      DroppedStays(l, e);
      hide Inv, Total, Next;
  }

  lemma WaiterWaits(l: Logger, who: nat)
    requires who in l.producers && l.producers[who].Waiting?
    ensures SomeoneWaits(l)
  {
  }

  lemma DroppedStays(l: Logger, e: Event)
    requires WellConfigured(l.core.policy, l.core.capacity) && Enabled(l, e) && !MovesEntries(e)
    ensures Next(l, e).core.dropped == l.core.dropped && Next(l, e).core.capacity == l.core.capacity
  {
  }

  /** A full queue and the producer in front of it are more entries than places. */
  lemma FullMeansMany(l: Logger, who: nat)
    requires Inv(l) && |l.entered| == Total(l) && who in l.producers
    ensures Full(l.core) ==> |l.entered| > l.core.capacity
  {
    assert l.core.accepted == Entries(l.core.removed) + l.core.queue;
    assert l.producers == (l.producers - {who})[who := l.producers[who]];
    assert |l.producers| == |l.producers - {who}| + 1;
  }

  lemma OthersWait(l: Logger, who: nat)
    requires who in l.producers
    ensures SomeoneWaits(Leave(l, who)) ==> SomeoneWaits(l)
  {
    if p :| p in Leave(l, who).producers && Leave(l, who).producers[p].Waiting? {
      assert p in l.producers;
    }
  }

  lemma NextAccounted(l: Logger, e: Event)
    requires Inv(l) && Accounted(l) && Enabled(l, e)
    ensures Accounted(Next(l, e))
  {
    NextJustified(l, e);
    NextRoomy(l, e);
    var m := Next(l, e);
    hide Next, Inv, Justified, Roomy, Tally, Total, Times;
    InvConfig(l);
    forall x
      ensures Times(m.entered, x) == Tally(m, x)
    {
      NextTally(l, e, x);
    }
    NextTally(l, e, Entry(0, []));
  }

  lemma {:induction false} RunAccounted(l: Logger, events: seq<Event>)
    requires Inv(l) && Accounted(l) && Possible(l, events)
    ensures Accounted(Run(l, events))
    decreases |events|
  {
    hide Next, Inv, Accounted;
    InvConfig(l);
    if events == [] {
    } else {
      NextKeepsInv(l, events[0]);
      NextAccounted(l, events[0]);
      NextKeepsConfig(l, events[0]);
      RunAccounted(Next(l, events[0]), events[1..]);
    }
  }

  lemma StartAccounted(policy: Policy, capacity: nat, sinks: nat)
    ensures Accounted(Start(policy, capacity, sinks))
  {
    forall x
      ensures |Holders(map[], x)| == 0
    {
      assert Holders(map[], x) == {};
    }
  }

  function Entering(events: seq<Event>): seq<Entry> {
    if events == [] then [] else (if events[0].Enter? then [events[0].entry] else []) + Entering(events[1..])
  }

  lemma {:induction false} EnteredAreThose(l: Logger, events: seq<Event>)
    requires WellConfigured(l.core.policy, l.core.capacity) && Possible(l, events)
    requires l.running && forall e <- events :: !e.AskShutdown?
    ensures Run(l, events).entered == l.entered + Entering(events) && Run(l, events).running
    decreases |events|
  {
    if events == [] {
      assert l.entered + [] == l.entered;
    } else {
      var e, m := events[0], Next(l, events[0]);
      assert e in events && forall f <- events[1..] :: f in events;
      NextKeepsConfig(l, e);
      NextEntered(l, e);
      EnteredAreThose(m, events[1..]);
      Assoc(l.entered, if e.Enter? then [e.entry] else [], Entering(events[1..]));
    }
  }

  lemma NextEntered(l: Logger, e: Event)
    requires WellConfigured(l.core.policy, l.core.capacity) && Enabled(l, e) && l.running && !e.AskShutdown?
    ensures Next(l, e).entered == l.entered + (if e.Enter? then [e.entry] else []) && Next(l, e).running
  {
  }

  /** Conservation of what entered, over every run of every interleaving, shutdown
      included: each entry whose producer saw the logger running has been, as often as it
      entered, accepted, discarded as the newest, given up after a timed wait, turned away
      from a wait by a shutdown, or is still with a producer. Entries are discarded only
      under the policy that says so, and given up or waiting only under BLOCK. */
  lemma EveryEntryAccountedFor(policy: Policy, capacity: nat, sinks: nat, events: seq<Event>)
    requires WellConfigured(policy, capacity) && Possible(Start(policy, capacity, sinks), events)
    ensures
      var l := Run(Start(policy, capacity, sinks), events);
      && (forall x :: Times(l.entered, x) == Tally(l, x))
      && |l.entered| == Total(l)
      && (l.core.rejected != [] ==> policy.DiscardNewest?)
      && (l.core.timedOut != [] ==> policy.Block?)
      && (Evictions(l.core.removed) > 0 ==> policy.DiscardOldest?)
      && (forall who <- l.producers :: l.producers[who].Waiting? ==> policy.Block?)
  {
    StartInv(policy, capacity, sinks);
    StartAccounted(policy, capacity, sinks);
    RunAccounted(Start(policy, capacity, sinks), events);
    RunKeepsPolicy(Start(policy, capacity, sinks), events);
  }

  lemma {:induction false} RunKeepsPolicy(l: Logger, events: seq<Event>)
    requires WellConfigured(l.core.policy, l.core.capacity) && Possible(l, events)
    ensures Run(l, events).core.policy == l.core.policy && Run(l, events).core.capacity == l.core.capacity
    decreases |events|
  {
    if events == [] {
    } else {
      NextKeepsConfig(l, events[0]);
      hide Next;
      RunKeepsPolicy(Next(l, events[0]), events[1..]);
    }
  }

  /** Until Shutdown is asked for, those are exactly the entries of the calls made, and
      none of them is turned away. */
  lemma RunningTurnsNobodyAway(policy: Policy, capacity: nat, sinks: nat, events: seq<Event>)
    requires WellConfigured(policy, capacity) && Possible(Start(policy, capacity, sinks), events)
    requires forall e <- events :: !e.AskShutdown?
    ensures
      var l := Run(Start(policy, capacity, sinks), events);
      && l.entered == Entering(events) && l.turnedAway == []
      && |Entering(events)| == |l.core.accepted| + |l.core.rejected| + |l.core.timedOut| + |l.producers|
                               + if l.holding.Some? then 1 else 0
  {
    var start := Start(policy, capacity, sinks);
    StartInv(policy, capacity, sinks);
    StartAccounted(policy, capacity, sinks);
    RunAccounted(start, events);
    EnteredAreThose(start, events);
    assert [] + Entering(events) == Entering(events);
  }

  /** Under every policy, as long as no more entries have entered than the queue has
      places, none is dropped, turned away or made to wait. */
  lemma NothingDroppedWithinCapacity(policy: Policy, capacity: nat, sinks: nat, events: seq<Event>)
    requires WellConfigured(policy, capacity) && Possible(Start(policy, capacity, sinks), events)
    requires |Run(Start(policy, capacity, sinks), events).entered| <= capacity
    ensures
      var l := Run(Start(policy, capacity, sinks), events);
      && l.core.dropped == 0 && l.turnedAway == []
      && (forall who <- l.producers :: l.producers[who].Checked?)
  {
    var l := Run(Start(policy, capacity, sinks), events);
    StartInv(policy, capacity, sinks);
    StartAccounted(policy, capacity, sinks);
    RunAccounted(Start(policy, capacity, sinks), events);
    RunKeepsPolicy(Start(policy, capacity, sinks), events);
    NobodyWaits(l);
    hide *;
  }

  lemma NobodyWaits(l: Logger)
    requires !SomeoneWaits(l)
    ensures forall who <- l.producers :: l.producers[who].Checked?
  {
  }

  // ---- The worker and Shutdown get on with it ----

  /** What the worker takes: the front of the queue, 32 entries or all there are. */
  lemma WorkerTakesTheFront(l: Logger)
    requires Inv(l) && Enabled(l, WorkerTakes) && l.core.queue != []
    ensures
      var m := Next(l, WorkerTakes);
      && m.writing.Writing? && m.writing.batch + m.core.queue == l.core.queue
      && 0 < |m.writing.batch| <= 32 && (|m.writing.batch| == 32 || m.core.queue == [])
  {
    assert l.core.queue[..BatchOf(l.core)] + l.core.queue[BatchOf(l.core)..] == l.core.queue;
  }

  /** Steps of the worker, of Shutdown and of a producer about to push. */
  predicate Working(e: Event) {
    e.PushHeld? || e.WorkerChecks? || e.WorkerTakes? || e.Offer? || e.NextSink? || e.EndBatch? || e.DrainQueue?
  }

  /** Nothing is left to do for them. */
  ghost predicate Settled(l: Logger) {
    && l.holding.None? && l.writing.NotWriting?
    && if l.running then l.core.queue == [] else l.shutdown.Returned?
  }

  function Waiters(l: Logger): nat { |l.core.queue| + if l.holding.Some? then 2 else 0 }

  function Stage(l: Logger): nat {
    if l.writing.Writing? then 4
    else match l.worker
      case AtLoop => 3
      case AboutToTake => 2
      case _ => if l.shutdown.Joining? then 1 else 0
  }

  function SinksLeft(l: Logger): nat
    requires SinksAgree(l)
  {
    if l.writing.Writing? then |l.offered| - l.writing.sink else 0
  }

  function EntriesLeft(l: Logger): nat
    requires SinksAgree(l)
  {
    if l.writing.Writing? then |l.writing.batch| - l.writing.done else 0
  }

  ghost predicate Closer(m: Logger, l: Logger)
    requires SinksAgree(l) && SinksAgree(m)
  {
    || Waiters(m) < Waiters(l)
    || (Waiters(m) == Waiters(l) && Stage(m) < Stage(l))
    || (Waiters(m) == Waiters(l) && Stage(m) == Stage(l) && SinksLeft(m) < SinksLeft(l))
    || (Waiters(m) == Waiters(l) && Stage(m) == Stage(l) && SinksLeft(m) == SinksLeft(l) && EntriesLeft(m) < EntriesLeft(l))
  }

  function NextWork(l: Logger): Event {
    if l.holding.Some? then PushHeld
    else if l.writing.Writing? then
      if l.writing.sink == |l.offered| then EndBatch
      else if l.writing.done == |l.writing.batch| then NextSink
      else Offer
    else match l.worker
      case AtLoop => WorkerChecks
      case Exited => DrainQueue
      case _ => WorkerTakes
  }

  lemma NextWorkGetsCloser(l: Logger)
    requires Inv(l) && !Settled(l)
    ensures var e := NextWork(l); Working(e) && Enabled(l, e) && Inv(Next(l, e)) && Closer(Next(l, e), l)
    ensures Next(l, NextWork(l)).running == l.running
  {
    hide Conserved;
    NextKeepsInv(l, NextWork(l));
  }

  lemma {:induction false} WorkGetsDone(l: Logger) returns (more: seq<Event>)
    requires Inv(l)
    ensures WellConfigured(l.core.policy, l.core.capacity)
    ensures Possible(l, more) && (forall e <- more :: Working(e))
    ensures Settled(Run(l, more)) && Inv(Run(l, more)) && Run(l, more).running == l.running
    decreases Waiters(l), Stage(l), SinksLeft(l), EntriesLeft(l)
  {
    InvConfig(l);
    if Settled(l) {
      more := [];
    } else {
      var e := NextWork(l);
      NextWorkGetsCloser(l);
      NextKeepsConfig(l, e);
      var rest := WorkGetsDone(Next(l, e));
      more := [e] + rest;
      RunStep(l, e, rest);
    }
  }

  /** At every moment of every run of a logger that has not been shut down, the worker
      alone, with the push of a producer past its wait, can deliver all that is queued:
      there is always such a continuation, after which every sink has been offered
      every accepted entry that was not evicted. */
  lemma QueuedEntriesGetDelivered(policy: Policy, capacity: nat, sinks: nat, events: seq<Event>)
    requires WellConfigured(policy, capacity) && Possible(Start(policy, capacity, sinks), events)
    ensures WellConfigured(Run(Start(policy, capacity, sinks), events).core.policy, Run(Start(policy, capacity, sinks), events).core.capacity)
    ensures
      var l := Run(Start(policy, capacity, sinks), events);
      exists more :: Possible(l, more) && (forall e <- more :: Working(e)) && Delivered(Run(l, more), sinks, l.running)
  {
    StartInv(policy, capacity, sinks);
    RunKeepsInv(Start(policy, capacity, sinks), events);
    var l := Run(Start(policy, capacity, sinks), events);
    var more := WorkGetsDone(l);
    RunKeepsInv(l, more);
    SettledIsDelivered(Run(l, more), sinks);
  }

  /** If the logger was running nothing is queued any more, if not Shutdown has returned;
      and all that was taken has been offered to all sinks. */
  ghost predicate Delivered(m: Logger, sinks: nat, running: bool) {
    && (if running then m.core.queue == [] else m.shutdown.Returned?)
    && |m.offered| == sinks
    && forall i :: 0 <= i < sinks ==> m.offered[i] == Kept(m.core.removed)
  }

  lemma SettledIsDelivered(m: Logger, sinks: nat)
    requires Inv(m) && Settled(m) && |m.offered| == sinks
    ensures Delivered(m, sinks, m.running)
  {
    assert m.delivered + [] == m.delivered;
    assert forall i :: 0 <= i < sinks ==> Share(m.writing, i) == [];
  }
}
