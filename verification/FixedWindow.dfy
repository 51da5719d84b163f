/** lib_network/src/security/ddos_protection.cc: the per-address request limiter. */
module FixedWindows {
  import opened Bytes

  const SECOND := 1_000_000_000   // nanoseconds

  type Address = string

  /** An address's entry: requests admitted in its window, and when the window began. */
  datatype Window = Window(count: int, start: int)

  type Windows = map<Address, Window>

  datatype Call = Call(ip: Address, now: nat)

  /** std::map's operator[] creates a zero entry at the clock's epoch. */
  function WindowOf(ws: Windows, ip: Address): Window {
    if ip in ws then ws[ip] else Window(0, 0)
  }

  /** duration_cast to whole seconds. */
  function Current(w: Window, now: nat): Window {
    if now - w.start >= SECOND then Window(0, now) else w
  }

  function Allow(ws: Windows, limit: int, c: Call): (Windows, bool) {
    var w := Current(WindowOf(ws, c.ip), c.now);
    if w.count >= limit then (ws[c.ip := w], false) else (ws[c.ip := w.(count := w.count + 1)], true)
  }

  function Run(ws: Windows, limit: int, calls: seq<Call>): Windows
    decreases |calls|
  {
    if calls == [] then ws else Run(Allow(ws, limit, calls[0]).0, limit, calls[1..])
  }

  function Verdicts(ws: Windows, limit: int, calls: seq<Call>): (v: seq<bool>)
    ensures |v| == |calls|
    decreases |calls|
  {
    if calls == [] then []
    else [Allow(ws, limit, calls[0]).1] + Verdicts(Allow(ws, limit, calls[0]).0, limit, calls[1..])
  }

  /** The clock does not go back. */
  ghost predicate Timely(from: nat, calls: seq<Call>)
    decreases |calls|
  {
    calls != [] ==> from <= calls[0].now && Timely(calls[0].now, calls[1..])
  }

  // ---- Addresses do not interfere ----

  function Only(calls: seq<Call>, ip: Address): seq<Call> {
    if calls == [] then [] else (if calls[0].ip == ip then [calls[0]] else []) + Only(calls[1..], ip)
  }

  function VerdictsFor(calls: seq<Call>, verdicts: seq<bool>, ip: Address): seq<bool>
    requires |calls| == |verdicts|
  {
    if calls == [] then []
    else (if calls[0].ip == ip then [verdicts[0]] else []) + VerdictsFor(calls[1..], verdicts[1..], ip)
  }

  /** An address gets the verdicts it would have got alone. */
  lemma {:induction false} OthersDoNotMatter(ws: Windows, alone: Windows, limit: int, calls: seq<Call>, ip: Address)
    requires WindowOf(ws, ip) == WindowOf(alone, ip)
    ensures VerdictsFor(calls, Verdicts(ws, limit, calls), ip) == Verdicts(alone, limit, Only(calls, ip))
    decreases |calls|
  {
    if calls == [] {
    } else {
      var next := Allow(ws, limit, calls[0]).0;
      var v := Verdicts(ws, limit, calls);
      assert v[1..] == Verdicts(next, limit, calls[1..]);
      if calls[0].ip == ip {
        var rest := Only(calls[1..], ip);
        assert Only(calls, ip) == [calls[0]] + rest && Only(calls, ip)[1..] == rest;
        OthersDoNotMatter(next, Allow(alone, limit, calls[0]).0, limit, calls[1..], ip);
      } else {
        OthersDoNotMatter(next, alone, limit, calls[1..], ip);
        assert [] + VerdictsFor(calls[1..], v[1..], ip) == VerdictsFor(calls[1..], v[1..], ip);
        assert Only(calls, ip) == [] + Only(calls[1..], ip) == Only(calls[1..], ip);
      }
    }
  }

  // ---- Twice the limit in a second ----

  /** How many of the address's calls in [from, from + 1 s) were admitted. */
  function AdmittedIn(ws: Windows, limit: int, calls: seq<Call>, ip: Address, from: nat): nat
    decreases |calls|
  {
    if calls == [] then 0
    else
      (if calls[0].ip == ip && from <= calls[0].now < from + SECOND && Allow(ws, limit, calls[0]).1 then 1 else 0)
      + AdmittedIn(Allow(ws, limit, calls[0]).0, limit, calls[1..], ip, from)
  }

  /** How many more of the interval's calls can be admitted. A window that began
      before the interval can be followed by one more in it; a window that began in
      it cannot, because windows begin at least a second apart. */
  function Room(w: Window, limit: int, from: nat): int {
    if w.start < from then 2 * limit - w.count
    else if w.start < from + SECOND then limit - w.count
    else 0
  }

  ghost predicate Sound(w: Window, limit: int, now: nat) { 0 <= w.count <= limit && w.start <= now }

  lemma CallUsesRoom(ws: Windows, limit: int, c: Call, from: nat)
    requires limit >= 0 && Sound(WindowOf(ws, c.ip), limit, c.now)
    ensures
      var (next, admitted) := Allow(ws, limit, c);
      && Sound(WindowOf(next, c.ip), limit, c.now)
      && (from <= c.now < from + SECOND ==>
            (if admitted then 1 else 0) + Room(WindowOf(next, c.ip), limit, from) <= Room(WindowOf(ws, c.ip), limit, from))
  {
  }

  lemma {:induction false} AdmissionsFitTheRoom(ws: Windows, limit: int, calls: seq<Call>, ip: Address, now: nat, from: nat)
    requires limit >= 0 && Timely(now, calls) && Sound(WindowOf(ws, ip), limit, now)
    ensures now >= from ==> AdmittedIn(ws, limit, calls, ip, from) <= Max(0, Room(WindowOf(ws, ip), limit, from))
    ensures now < from ==> AdmittedIn(ws, limit, calls, ip, from) <= 2 * limit
    decreases |calls|
  {
    if calls == [] {
    } else {
      var c := calls[0];
      var next := Allow(ws, limit, c).0;
      if c.ip == ip {
        CallUsesRoom(ws, limit, c, from);
      }
      AdmissionsFitTheRoom(next, limit, calls[1..], ip, c.now, from);
    }
  }

  /** Over any run of requests from any addresses with a clock that does not go back,
      at most twice the limit is admitted for one address in any half-open second. */
  lemma AtMostTwiceTheLimit(limit: int, calls: seq<Call>, ip: Address, from: nat)
    requires Timely(0, calls)
    ensures AdmittedIn(map[], limit, calls, ip, from) <= Max(0, 2 * limit)
  {
    if limit >= 0 {
      AdmissionsFitTheRoom(map[], limit, calls, ip, 0, from);
    } else {
      NobodyAdmitted(map[], limit, calls, ip, from);
    }
  }

  function Burst(ip: Address, now: nat, n: nat): seq<Call> {
    if n == 0 then [] else [Call(ip, now)] + Burst(ip, now, n - 1)
  }

  lemma {:induction false} BurstAdmitted(ws: Windows, limit: int, ip: Address, now: nat, n: nat, rest: seq<Call>, from: nat)
    requires from <= now < from + SECOND
    requires Current(WindowOf(ws, ip), now).count + n <= limit
    ensures
      var after := Run(ws, limit, Burst(ip, now, n));
      var w := Current(WindowOf(ws, ip), now);
      && AdmittedIn(ws, limit, Burst(ip, now, n) + rest, ip, from) == n + AdmittedIn(after, limit, rest, ip, from)
      && (n > 0 ==> WindowOf(after, ip) == Window(w.count + n, w.start))
    decreases n
  {
    var calls := Burst(ip, now, n) + rest;
    if n == 0 {
      assert calls == rest;
    } else {
      assert calls[1..] == Burst(ip, now, n - 1) + rest;
      BurstAdmitted(Allow(ws, limit, Call(ip, now)).0, limit, ip, now, n - 1, rest, from);
    }
  }

  /** A window no request opened exists only at the clock's epoch, for an address not
      seen before: there a burst in the last nanosecond of the first second and one a
      nanosecond later reach twice the limit. */
  lemma TwiceTheLimitAtTheEpoch(limit: nat, ip: Address)
    ensures AdmittedIn(map[], limit, Burst(ip, SECOND - 1, limit) + Burst(ip, SECOND, limit), ip, SECOND - 1) == 2 * limit
  {
    var second := Burst(ip, SECOND, limit);
    BurstAdmitted(map[], limit, ip, SECOND - 1, limit, second, SECOND - 1);
    if limit > 0 {
      var after := Run(map[], limit, Burst(ip, SECOND - 1, limit));
      assert second + [] == second;
      BurstAdmitted(after, limit, ip, SECOND, limit, [], SECOND - 1);
    }
  }

  // ---- Past the first second of the clock ----

  /** There every window was opened by a request admitted in it. */
  ghost predicate Opened(ws: Windows, ip: Address, limit: int, now: nat) {
    ip in ws ==> 1 <= ws[ip].count <= limit && SECOND <= ws[ip].start <= now
  }

  function LateRoom(ws: Windows, ip: Address, limit: int, now: nat, from: nat): int {
    if now < from then 2 * limit - 1
    else if ip in ws then Room(ws[ip], limit, from)
    else limit
  }

  lemma LateCallUsesRoom(ws: Windows, limit: int, c: Call, now: nat, from: nat)
    requires limit >= 1 && SECOND <= now <= c.now && Opened(ws, c.ip, limit, now)
    ensures
      var (next, admitted) := Allow(ws, limit, c);
      var counted := if admitted && from <= c.now < from + SECOND then 1 else 0;
      && Opened(next, c.ip, limit, c.now)
      && counted + LateRoom(next, c.ip, limit, c.now, from) <= LateRoom(ws, c.ip, limit, now, from)
  {
  }

  lemma {:induction false} AdmissionsFitTheLateRoom(ws: Windows, limit: int, calls: seq<Call>, ip: Address, now: nat, from: nat)
    requires limit >= 1 && SECOND <= now && Timely(now, calls) && Opened(ws, ip, limit, now)
    ensures AdmittedIn(ws, limit, calls, ip, from) <= LateRoom(ws, ip, limit, now, from)
    decreases |calls|
  {
    if calls == [] {
    } else {
      var c := calls[0];
      if c.ip == ip {
        LateCallUsesRoom(ws, limit, c, now, from);
      }
      AdmissionsFitTheLateRoom(Allow(ws, limit, c).0, limit, calls[1..], ip, c.now, from);
    }
  }

  /** The request that opens a window counts in it, so the window can lend a later
      interval one less than the limit. */
  lemma AtMostTwiceTheLimitLessOne(limit: int, calls: seq<Call>, ip: Address, from: nat)
    requires limit >= 1 && Timely(SECOND, calls)
    ensures AdmittedIn(map[], limit, calls, ip, from) <= 2 * limit - 1
  {
    AdmissionsFitTheLateRoom(map[], limit, calls, ip, SECOND, from);
  }

  /** One request, the rest of its window's in the window's last nanosecond, and a full
      window a nanosecond later. */
  function Straddle(ip: Address, t: nat, limit: nat): seq<Call>
    requires limit >= 1
  {
    [Call(ip, t)] + (Burst(ip, t + SECOND - 1, limit - 1) + Burst(ip, t + SECOND, limit))
  }

  /** And that bound is reached, at every time, by requests a nanosecond apart. */
  lemma TwiceTheLimitLessOneHappens(limit: nat, ip: Address, t: nat)
    requires limit >= 1 && t >= SECOND
    ensures Timely(t, Straddle(ip, t, limit))
    ensures AdmittedIn(map[], limit, Straddle(ip, t, limit), ip, t + SECOND - 1) == 2 * limit - 1
  {
    var calls, from := Straddle(ip, t, limit), t + SECOND - 1;
    var begun := Allow(map[], limit, Call(ip, t)).0;
    var first, second := Burst(ip, t + SECOND - 1, limit - 1), Burst(ip, t + SECOND, limit);
    assert calls[1..] == first + second;
    assert begun == map[ip := Window(1, t)];
    BurstAdmitted(begun, limit, ip, from, limit - 1, second, from);
    var filled := Run(begun, limit, first);
    assert WindowOf(filled, ip) == Window(limit, t);
    BurstAdmitted(filled, limit, ip, t + SECOND, limit, [], from);
    assert second + [] == second;
    BurstIsTimely(ip, t + SECOND, limit, from, []);
    BurstIsTimely(ip, from, limit - 1, t, second);
  }

  lemma {:induction false} BurstIsTimely(ip: Address, now: nat, n: nat, from: nat, rest: seq<Call>)
    requires from <= now && Timely(now, rest)
    ensures Timely(from, Burst(ip, now, n) + rest)
    decreases n
  {
    var calls := Burst(ip, now, n) + rest;
    if n == 0 {
      assert calls == rest;
    } else {
      assert calls[1..] == Burst(ip, now, n - 1) + rest;
      BurstIsTimely(ip, now, n - 1, now, rest);
    }
  }

  lemma {:induction false} NobodyAdmitted(ws: Windows, limit: int, calls: seq<Call>, ip: Address, from: nat)
    requires limit <= 0 <= WindowOf(ws, ip).count
    ensures AdmittedIn(ws, limit, calls, ip, from) == 0
    decreases |calls|
  {
    if calls == [] {
    } else {
      NobodyAdmitted(Allow(ws, limit, calls[0]).0, limit, calls[1..], ip, from);
    }
  }

  /** No address is admitted more often than the limit in any half-open second. */
  ghost predicate EnforcesRate(limit: int) {
    forall calls, ip, from :: Timely(SECOND, calls) ==> AdmittedIn(map[], limit, calls, ip, from) <= Max(0, limit)
  }

  /** So past the first second the limit is the rate per second it is described as
      exactly when it is one request or none. */
  lemma EnforcesRateIff(limit: int)
    ensures EnforcesRate(limit) <==> limit <= 1
  {
    forall calls, ip, from | limit <= 1 && Timely(SECOND, calls)
      ensures AdmittedIn(map[], limit, calls, ip, from) <= Max(0, limit)
    {
      if limit == 1 {
        AtMostTwiceTheLimitLessOne(limit, calls, ip, from);
      } else {
        NobodyAdmitted(map[], limit, calls, ip, from);
      }
    }
    if limit > 1 {
      var ip, from := "", 2 * SECOND - 1;
      TwiceTheLimitLessOneHappens(limit, ip, SECOND);
      assert AdmittedIn(map[], limit, Straddle(ip, SECOND, limit), ip, from) > Max(0, limit);
    }
  }

  // ---- What is admitted ----

  /** The address's calls in [from, from + 1 s), admitted or not. */
  function CallsIn(calls: seq<Call>, ip: Address, from: int): nat {
    if calls == [] then 0
    else (if calls[0].ip == ip && from <= calls[0].now < from + SECOND then 1 else 0) + CallsIn(calls[1..], ip, from)
  }

  ghost predicate AllAdmitted(ws: Windows, limit: int, calls: seq<Call>, ip: Address)
    decreases |calls|
  {
    calls != [] ==>
      && (calls[0].ip == ip ==> Allow(ws, limit, calls[0]).1)
      && AllAdmitted(Allow(ws, limit, calls[0]).0, limit, calls[1..], ip)
  }

  /** What is counted in the current window and what is still to come in it is within the
      limit, and so is every later second. */
  ghost predicate WithinLimit(w: Window, limit: int, calls: seq<Call>, ip: Address, now: nat) {
    && w.start <= now
    && w.count + CallsIn(calls, ip, w.start) <= limit
    && forall from: int :: now <= from ==> CallsIn(calls, ip, from) <= limit
  }

  lemma {:induction false} CountedCallsAdmitted(ws: Windows, limit: int, calls: seq<Call>, ip: Address, now: nat)
    requires Timely(now, calls) && WithinLimit(WindowOf(ws, ip), limit, calls, ip, now)
    ensures AllAdmitted(ws, limit, calls, ip)
    decreases |calls|
  {
    if calls == [] {
    } else {
      var c := calls[0];
      var next := Allow(ws, limit, c).0;
      var w := WindowOf(ws, ip);
      var start := Current(w, c.now).start;
      assert CallsIn(calls, ip, c.now) <= limit;
      forall from: int | c.now <= from
        ensures CallsIn(calls[1..], ip, from) <= limit
      {
        assert CallsIn(calls, ip, from) >= CallsIn(calls[1..], ip, from);
      }
      if c.ip == ip {
        assert CallsIn(calls, ip, start) == 1 + CallsIn(calls[1..], ip, start);
      } else {
        assert CallsIn(calls, ip, w.start) == CallsIn(calls[1..], ip, w.start);
      }
      CountedCallsAdmitted(next, limit, calls[1..], ip, c.now);
    }
  }

  /** An address that never makes more calls than the limit in any half-open second has
      all of them admitted, over every run, whatever others do. */
  lemma PoliteCallsAdmitted(limit: int, calls: seq<Call>, ip: Address)
    requires Timely(0, calls) && forall from: nat :: CallsIn(calls, ip, from) <= limit
    ensures AllAdmitted(map[], limit, calls, ip)
  {
    assert CallsIn(calls, ip, 0) <= limit;
    CountedCallsAdmitted(map[], limit, calls, ip, 0);
  }

  /** An address has a window once a call of it was admitted, and the window is no younger
      than the last such call. */
  ghost predicate Began(ws: Windows, ip: Address, last: Option<nat>) {
    match last
    case None => ip !in ws
    case Some(t) => ip in ws && ws[ip].start <= t
  }

  /** When the address's last call was admitted. */
  function LastAdmitted(ws: Windows, limit: int, calls: seq<Call>, ip: Address, last: Option<nat>): Option<nat>
    decreases |calls|
  {
    if calls == [] then last
    else
      var c := calls[0];
      LastAdmitted(Allow(ws, limit, c).0, limit, calls[1..], ip,
                   if c.ip == ip && Allow(ws, limit, c).1 then Some(c.now) else last)
  }

  lemma {:induction false} RunBegan(ws: Windows, limit: int, calls: seq<Call>, ip: Address, now: nat, last: Option<nat>)
    requires limit >= 1 && Timely(now, calls) && Began(ws, ip, last) && (last.Some? ==> last.value <= now)
    ensures Began(Run(ws, limit, calls), ip, LastAdmitted(ws, limit, calls, ip, last))
    decreases |calls|
  {
    if calls == [] {
    } else {
      var c := calls[0];
      var (next, admitted) := Allow(ws, limit, c);
      RunBegan(next, limit, calls[1..], ip, c.now, if c.ip == ip && admitted then Some(c.now) else last);
    }
  }

  /** Refused calls do not prolong a window: over every run, a call is admitted whenever
      the address has had none admitted in the second before it, however many it had
      refused. */
  lemma AdmittedAfterASecond(limit: int, calls: seq<Call>, c: Call)
    requires limit >= 1 && Timely(0, calls)
    requires
      var last := LastAdmitted(map[], limit, calls, c.ip, None);
      last.Some? ==> last.value + SECOND <= c.now
    ensures Allow(Run(map[], limit, calls), limit, c).1
  {
    RunBegan(map[], limit, calls, c.ip, 0, None);
  }

  // ---- The object ----

  class DdosProtection {
    const limit: int
    var requests: Windows

    constructor (limit: int)
      ensures this.limit == limit && requests == map[]
    {
      this.limit := limit;
      requests := map[];
    }

    method AllowRequest(ip: Address, now: nat) returns (allowed: bool)
      modifies this
      ensures (requests, allowed) == Allow(old(requests), limit, Call(ip, now))
    {
      var entry := if ip in requests then requests[ip] else Window(0, 0);
      if now - entry.start >= SECOND {
        entry := Window(0, now);
      }
      requests := requests[ip := entry];
      if entry.count >= limit {
        return false;
      }
      requests := requests[ip := Window(entry.count + 1, entry.start)];
      assert requests == old(requests)[ip := Window(entry.count + 1, entry.start)];
      return true;
    }
  }
}
