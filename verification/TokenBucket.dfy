/** lib_network/src/resilience/token_bucket.cc: the rate limiter, over exact reals and
    a nanosecond clock that never goes back. */
module TokenBuckets {

  const NANOS_PER_MICRO := 1_000
  const MICROS_PER_SECOND := 1_000_000.0

  datatype Bucket = Bucket(
    rate: real,
    capacity: real,
    tokens: real,
    lastRefill: int              // nanoseconds
  )

  datatype Call = Call(now: int, amount: real)

  /** Whole microseconds since the last refill: duration_cast truncates. */
  function Elapsed(b: Bucket, now: int): int
    requires b.lastRefill <= now
  {
    (now - b.lastRefill) / NANOS_PER_MICRO
  }

  function Credit(b: Bucket, now: int): real
    requires b.lastRefill <= now
  {
    Earned(Elapsed(b, now), b.rate)
  }

  function Earned(micros: int, rate: real): real { micros as real * rate / MICROS_PER_SECOND }

  function MinReal(a: real, b: real): real { if a < b then a else b }

  function Refill(b: Bucket, now: int): Bucket
    requires b.lastRefill <= now
  {
    if Credit(b, now) > 0.0 then b.(tokens := MinReal(b.capacity, b.tokens + Credit(b, now)), lastRefill := now) else b
  }

  /** The new bucket, and whether the call was admitted. */
  function Consume(b: Bucket, c: Call): (Bucket, bool)
    requires b.lastRefill <= c.now
  {
    var r := Refill(b, c.now);
    if r.tokens >= c.amount then (r.(tokens := r.tokens - c.amount), true) else (r, false)
  }

  // ---- Runs ----

  /** The clock does not go back and nobody asks for a negative amount. */
  ghost predicate Timely(from: int, calls: seq<Call>)
    decreases |calls|
  {
    calls != [] ==> from <= calls[0].now && calls[0].amount >= 0.0 && Timely(calls[0].now, calls[1..])
  }

  function Granted(b: Bucket, c: Call): real
    requires b.lastRefill <= c.now
  {
    if Consume(b, c).1 then c.amount else 0.0
  }

  lemma RefillTime(b: Bucket, now: int)
    requires b.lastRefill <= now
    ensures b.lastRefill <= Refill(b, now).lastRefill <= now
    ensures Refill(b, now).rate == b.rate && Refill(b, now).capacity == b.capacity
  {
  }

  ghost function Run(b: Bucket, calls: seq<Call>): Bucket
    requires Timely(b.lastRefill, calls)
    decreases |calls|
  {
    if calls == [] then b
    else
      LaterIsTimely(Consume(b, calls[0]).0.lastRefill, calls[0].now, calls[1..]);
      Run(Consume(b, calls[0]).0, calls[1..])
  }

  /** The tokens handed out over a run of calls. */
  ghost function TotalGranted(b: Bucket, calls: seq<Call>): real
    requires Timely(b.lastRefill, calls)
    decreases |calls|
  {
    if calls == [] then 0.0
    else
      LaterIsTimely(Consume(b, calls[0]).0.lastRefill, calls[0].now, calls[1..]);
      Granted(b, calls[0]) + TotalGranted(Consume(b, calls[0]).0, calls[1..])
  }

  lemma LaterIsTimely(earlier: int, from: int, calls: seq<Call>)
    requires earlier <= from && Timely(from, calls)
    ensures Timely(earlier, calls)
  {
  }

  ghost predicate Valid(b: Bucket) { b.rate >= 0.0 && 0.0 <= b.tokens <= b.capacity }

  /** rate * t seconds, for t in nanoseconds. */
  function Accrual(rate: real, nanos: int): real { rate * nanos as real / 1_000_000_000.0 }

  lemma ScaleMonotone(rate: real, x: real, y: real)
    requires rate >= 0.0 && x <= y
    ensures rate * x <= rate * y
  {
    assert rate * (y - x) >= 0.0;
    assert rate * y == rate * x + rate * (y - x);
  }

  lemma AccrualAdds(rate: real, a: int, b: int)
    ensures Accrual(rate, a + b) == Accrual(rate, a) + Accrual(rate, b)
  {
    assert (a + b) as real == a as real + b as real;
    assert rate * (a as real + b as real) == rate * a as real + rate * b as real;
  }

  lemma AccrualMonotone(rate: real, a: int, b: int)
    requires rate >= 0.0 && a <= b
    ensures Accrual(rate, a) <= Accrual(rate, b)
  {
    ScaleMonotone(rate, a as real, b as real);
  }

  /** A refill credits no more than the time it covers is worth, and when it
      happens, more than half of that. */
  lemma CreditBounds(b: Bucket, now: int)
    requires b.lastRefill <= now && b.rate >= 0.0
    ensures 0.0 <= Credit(b, now) <= Accrual(b.rate, now - b.lastRefill)
    ensures Credit(b, now) > 0.0 ==> 2.0 * Credit(b, now) > Accrual(b.rate, now - b.lastRefill)
    ensures Credit(b, now) > 0.0 <==> b.rate > 0.0 && now - b.lastRefill >= NANOS_PER_MICRO
  {
    var nanos, micros := now - b.lastRefill, Elapsed(b, now);
    assert micros * NANOS_PER_MICRO <= nanos < (micros + 1) * NANOS_PER_MICRO;
    CreditIsAccrual(b, now);
    AccrualMonotone(b.rate, 0, micros * NANOS_PER_MICRO);
    AccrualMonotone(b.rate, micros * NANOS_PER_MICRO, nanos);
    if b.rate > 0.0 && micros >= 1 {
      AccrualAdds(b.rate, micros * NANOS_PER_MICRO, micros * NANOS_PER_MICRO);
      StrictAccrual(b.rate, nanos, 2 * micros * NANOS_PER_MICRO);
      StrictAccrual(b.rate, 0, micros * NANOS_PER_MICRO);
    }
  }

  lemma StrictAccrual(rate: real, a: int, b: int)
    requires rate > 0.0 && a < b
    ensures Accrual(rate, a) < Accrual(rate, b)
  {
    assert rate * (b as real - a as real) > 0.0;
    assert rate * b as real == rate * a as real + rate * (b as real - a as real);
  }

  lemma CreditIsAccrual(b: Bucket, now: int)
    requires b.lastRefill <= now
    ensures Credit(b, now) == Accrual(b.rate, Elapsed(b, now) * NANOS_PER_MICRO)
  {
    var micros := Elapsed(b, now);
    assert (micros * NANOS_PER_MICRO) as real == micros as real * 1000.0;
    assert b.rate * (micros as real * 1000.0) == (micros as real * b.rate) * 1000.0;
  }

  /** One call keeps the tokens between nothing and the capacity. */
  lemma ConsumeKeepsValid(b: Bucket, c: Call)
    requires Valid(b) && b.lastRefill <= c.now && c.amount >= 0.0
    ensures Valid(Consume(b, c).0)
    ensures b.lastRefill <= Consume(b, c).0.lastRefill <= c.now
    ensures Consume(b, c).0.rate == b.rate && Consume(b, c).0.capacity == b.capacity
  {
    CreditBounds(b, c.now);
  }

  /** Nothing keeps an amount from being negative, which hands tokens in. The capacity
      then holds exactly as long as there is room for them: none if the refill tops the
      bucket up, else what the refill leaves free. */
  lemma ConsumeKeepsValidIff(b: Bucket, c: Call)
    requires Valid(b) && b.lastRefill <= c.now
    ensures Valid(Consume(b, c).0) <==> c.amount >= MinReal(0.0, b.tokens + Credit(b, c.now) - b.capacity)
  {
    CreditBounds(b, c.now);
  }

  lemma {:induction false} TokensStayInRange(b: Bucket, calls: seq<Call>)
    requires Valid(b) && Timely(b.lastRefill, calls)
    ensures Valid(Run(b, calls))
    decreases |calls|
  {
    if calls == [] {
    } else {
      ConsumeKeepsValid(b, calls[0]);
      LaterIsTimely(Consume(b, calls[0]).0.lastRefill, calls[0].now, calls[1..]);
      TokensStayInRange(Consume(b, calls[0]).0, calls[1..]);
    }
  }

  function EndTime(from: int, calls: seq<Call>): int {
    if calls == [] then from else calls[|calls| - 1].now
  }

  /** What a call hands out and leaves behind is covered by the tokens before it and
      the time its refill covers. */
  lemma ConsumeSpendsWhatAccrues(b: Bucket, c: Call)
    requires Valid(b) && b.lastRefill <= c.now && c.amount >= 0.0
    ensures
      var next := Consume(b, c).0;
      next.tokens + Granted(b, c) <= b.tokens + Accrual(b.rate, next.lastRefill - b.lastRefill)
  {
    CreditBounds(b, c.now);
    assert Accrual(b.rate, 0) == 0.0;
  }

  lemma {:induction false} GrantsCovered(b: Bucket, calls: seq<Call>)
    requires Valid(b) && Timely(b.lastRefill, calls)
    ensures TotalGranted(b, calls) <= b.tokens + Accrual(b.rate, EndTime(b.lastRefill, calls) - b.lastRefill)
    decreases |calls|
  {
    if calls == [] {
      assert Accrual(b.rate, 0) == 0.0;
    } else {
      var next := Consume(b, calls[0]).0;
      ConsumeKeepsValid(b, calls[0]);
      ConsumeSpendsWhatAccrues(b, calls[0]);
      LaterIsTimely(next.lastRefill, calls[0].now, calls[1..]);
      GrantsCovered(next, calls[1..]);
      var end := EndTime(next.lastRefill, calls[1..]);
      AccrualAdds(b.rate, next.lastRefill - b.lastRefill, end - next.lastRefill);
      AccrualMonotone(b.rate, end - b.lastRefill, EndTime(b.lastRefill, calls) - b.lastRefill);
    }
  }

  /** Between any two calls the bucket hands out at most its capacity plus what the
      rate allows for the time from the first to the last, and one microsecond more
      that truncation may have left unspent. */
  lemma GrantsBounded(b: Bucket, calls: seq<Call>)
    requires Valid(b) && calls != [] && Timely(b.lastRefill, calls)
    ensures TotalGranted(b, calls)
         <= b.capacity + Accrual(b.rate, EndTime(b.lastRefill, calls) - calls[0].now + NANOS_PER_MICRO)
  {
    var r := Refill(b, calls[0].now);
    CreditBounds(b, calls[0].now);
    var next := Consume(b, calls[0]).0;
    ConsumeKeepsValid(b, calls[0]);
    LaterIsTimely(next.lastRefill, calls[0].now, calls[1..]);
    GrantsCovered(next, calls[1..]);
    var end := EndTime(b.lastRefill, calls);
    assert EndTime(next.lastRefill, calls[1..]) <= end by { EndIsLate(calls[0].now, calls[1..]); }
    AccrualMonotone(b.rate, EndTime(next.lastRefill, calls[1..]) - next.lastRefill, end - next.lastRefill);
    if b.rate > 0.0 {
      assert calls[0].now - next.lastRefill < NANOS_PER_MICRO;
    }
    AccrualCapped(b.rate, end - next.lastRefill, end - calls[0].now + NANOS_PER_MICRO);
  }

  lemma AccrualCapped(rate: real, a: int, b: int)
    requires rate >= 0.0 && (rate > 0.0 ==> a <= b)
    ensures Accrual(rate, a) <= Accrual(rate, b)
  {
    if rate > 0.0 {
      AccrualMonotone(rate, a, b);
    }
  }

  lemma {:induction false} EndIsLate(from: int, calls: seq<Call>)
    requires Timely(from, calls)
    ensures from <= EndTime(from, calls)
    decreases |calls|
  {
    if calls == [] {
    } else {
      EndIsLate(calls[0].now, calls[1..]);
    }
  }

  /** The credit refills would have given over a run had the capacity not capped them. */
  ghost function TotalCredit(b: Bucket, calls: seq<Call>): real
    requires Timely(b.lastRefill, calls)
    decreases |calls|
  {
    if calls == [] then 0.0
    else
      LaterIsTimely(Consume(b, calls[0]).0.lastRefill, calls[0].now, calls[1..]);
      Credit(b, calls[0].now) + TotalCredit(Consume(b, calls[0]).0, calls[1..])
  }

  /** Truncation loses less than half: once a refill has happened, the credit given
      exceeds half of what the rate promises for the time refilled so far, and never
      exceeds all of it. */
  lemma {:induction false} TruncationLosesLessThanHalf(b: Bucket, calls: seq<Call>)
    requires b.rate > 0.0 && Timely(b.lastRefill, calls)
    ensures
      var promised := Accrual(b.rate, Run(b, calls).lastRefill - b.lastRefill);
      && b.lastRefill <= Run(b, calls).lastRefill
      && TotalCredit(b, calls) <= promised
      && (Run(b, calls).lastRefill > b.lastRefill ==> 2.0 * TotalCredit(b, calls) > promised)
      && 2.0 * TotalCredit(b, calls) >= promised
    decreases |calls|
  {
    assert Accrual(b.rate, 0) == 0.0;
    if calls == [] {
    } else {
      var next := Consume(b, calls[0]).0;
      CreditBounds(b, calls[0].now);
      RefillTime(b, calls[0].now);
      LaterIsTimely(next.lastRefill, calls[0].now, calls[1..]);
      TruncationLosesLessThanHalf(next, calls[1..]);
      var end := Run(b, calls).lastRefill;
      AccrualAdds(b.rate, next.lastRefill - b.lastRefill, end - next.lastRefill);
    }
  }

  // ---- What is admitted ----

  /** After a call the bucket holds, with what the call got, the tokens it had and the
      credit for the time since its last refill, as far as they fit. */
  lemma ConsumeBalances(b: Bucket, c: Call)
    requires Valid(b) && b.lastRefill <= c.now
    ensures Consume(b, c).0.tokens + Granted(b, c) == MinReal(b.capacity, b.tokens + Credit(b, c.now))
  {
    CreditBounds(b, c.now);
  }

  /** A call is admitted exactly when that covers its amount. */
  lemma AdmittedIff(b: Bucket, c: Call)
    requires Valid(b) && b.lastRefill <= c.now
    ensures Consume(b, c).1 <==> c.amount <= MinReal(b.capacity, b.tokens + Credit(b, c.now))
  {
    CreditBounds(b, c.now);
  }

  /** So a refused call leaves fewer tokens than it asked for, and a full bucket admits
      every amount up to its capacity. */
  lemma RefusedForLack(b: Bucket, c: Call)
    requires Valid(b) && b.lastRefill <= c.now
    ensures !Consume(b, c).1 ==> Consume(b, c).0.tokens < c.amount
    ensures b.tokens == b.capacity ==> (Consume(b, c).1 <==> c.amount <= b.capacity)
  {
    AdmittedIff(b, c);
    CreditBounds(b, c.now);
  }

  ghost predicate AllAdmitted(b: Bucket, calls: seq<Call>)
    requires Timely(b.lastRefill, calls)
    decreases |calls|
  {
    calls != [] ==>
      && Consume(b, calls[0]).1
      && (LaterIsTimely(Consume(b, calls[0]).0.lastRefill, calls[0].now, calls[1..]);
          AllAdmitted(Consume(b, calls[0]).0, calls[1..]))
  }

  /** Calls at least `gap` nanoseconds after one another, the first after `from`. */
  ghost predicate Spaced(from: int, gap: nat, calls: seq<Call>)
    decreases |calls|
  {
    calls != [] ==> from + gap <= calls[0].now && Spaced(calls[0].now, gap, calls[1..])
  }

  /** Calls that keep a distance of whole microseconds and ask for no more than the rate
      gives in it, nor than the bucket holds, are all admitted, however few tokens there
      were. */
  lemma {:induction false} SpacedCallsAdmitted(b: Bucket, from: int, gap: nat, calls: seq<Call>)
    requires Valid(b) && b.lastRefill <= from && gap % NANOS_PER_MICRO == 0
    requires Timely(from, calls) && Spaced(from, gap, calls)
    requires forall c <- calls :: c.amount <= b.capacity && c.amount <= Accrual(b.rate, gap)
    ensures Timely(b.lastRefill, calls) && AllAdmitted(b, calls)
    decreases |calls|
  {
    LaterIsTimely(b.lastRefill, from, calls);
    if calls == [] {
    } else {
      var c := calls[0];
      var next := Consume(b, c).0;
      assert c in calls && forall d <- calls[1..] :: d in calls;
      CreditCoversGap(b, c.now, gap);
      AdmittedIff(b, c);
      ConsumeKeepsValid(b, c);
      LaterIsTimely(next.lastRefill, c.now, calls[1..]);
      SpacedCallsAdmitted(next, c.now, gap, calls[1..]);
    }
  }

  lemma CreditCoversGap(b: Bucket, now: int, gap: nat)
    requires b.rate >= 0.0 && gap % NANOS_PER_MICRO == 0 && b.lastRefill + gap <= now
    ensures Credit(b, now) >= Accrual(b.rate, gap)
  {
    CreditIsAccrual(b, now);
    assert Elapsed(b, now) * NANOS_PER_MICRO >= gap;
    AccrualMonotone(b.rate, gap, Elapsed(b, now) * NANOS_PER_MICRO);
  }

  // ---- The object ----

  class TokenBucket {
    const rate: real
    const capacity: real
    var tokens: real
    var lastRefill: int

    ghost function View(): Bucket
      reads this
    {
      Bucket(rate, capacity, tokens, lastRefill)
    }

    constructor (rate: real, capacity: real, now: int)
      ensures View() == Bucket(rate, capacity, capacity, now)
    {
      this.rate, this.capacity, tokens, lastRefill := rate, capacity, capacity, now;
    }

    method RefillAt(now: int)
      requires lastRefill <= now
      modifies this
      ensures View() == Refill(old(View()), now)
    {
      var newTokens := Earned((now - lastRefill) / NANOS_PER_MICRO, rate);
      if newTokens > 0.0 {
        tokens := MinReal(capacity, tokens + newTokens);
        lastRefill := now;
      }
    }

    method ConsumeAt(now: int, amount: real) returns (admitted: bool)
      requires lastRefill <= now
      modifies this
      ensures (View(), admitted) == Consume(old(View()), Call(now, amount))
    {
      RefillAt(now);
      if tokens >= amount {
        tokens := tokens - amount;
        return true;
      }
      return false;
    }
  }
}
