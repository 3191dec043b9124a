/** The token bucket in front of the broker's endpoints (src/quant/data/brokers/rate_limit.py). */
module RateLimit {
  import opened Wrappers
  import opened Sums

  datatype Limits = Limits(rate: real, capacity: real)

  datatype Bucket = Bucket(tokens: real, updated: real)

  datatype ArgumentError = RateNotPositive | CapacityNotPositive

  /** The constructor's checks; one second's worth is the default burst. */
  function Configure(rate: real, capacity: Option<real>): (r: Result<Limits, ArgumentError>)
    ensures r == Err(RateNotPositive) <==> !(rate > 0.0)
    ensures r == Err(CapacityNotPositive) <==> rate > 0.0 && capacity.Some? && !(capacity.value > 0.0)
    ensures r.Ok? ==> r.value.rate == rate && (capacity.Some? ==> r.value.capacity == capacity.value)
    ensures r.Ok? && capacity.None? ==> r.value.capacity == rate
  {
    if rate <= 0.0 then Err(RateNotPositive)
    else if capacity.Some? && capacity.value <= 0.0 then Err(CapacityNotPositive)
    else Ok(Limits(rate, if capacity.Some? then capacity.value else rate))
  }

  /** The smallest balance that still buys a request: one token less 10^-9. */
  function Enough(): real {
    1.0 - 0.000000001
  }

  ghost predicate Usable(l: Limits) {
    l.rate > 0.0 && l.capacity > 0.0
  }

  function Refilled(l: Limits, b: Bucket, now: real): real {
    Min(l.capacity, b.tokens + Prod(now - b.updated, l.rate))
  }

  /** One turn of the acquire loop: refill, then take a token if there is one. */
  predicate Grants(l: Limits, b: Bucket, now: real) {
    Refilled(l, b, now) >= Enough()
  }

  function Turn(l: Limits, b: Bucket, now: real): Bucket {
    Bucket(Refilled(l, b, now) - if Grants(l, b, now) then 1.0 else 0.0, now)
  }

  /** The sleep a refused turn asks for. */
  function Wait(l: Limits, tokens: real): real
    requires l.rate != 0.0
  {
    (1.0 - tokens) / l.rate
  }

  /** The sleep is exactly what refills the balance to one token. */
  lemma WaitRefills(l: Limits, tokens: real)
    requires l.rate != 0.0
    ensures tokens + Prod(Wait(l, tokens), l.rate) == 1.0
  {
    Quotient(1.0 - tokens, l.rate);
  }

  /**
   * Calls are serialised, so any run of them is a sequence of turns, one for each reading of the clock:
   * the bucket after the first n.
   */
  function After(l: Limits, b: Bucket, clock: seq<real>, n: nat): Bucket
    requires n <= |clock|
  {
    if n == 0 then b else Turn(l, After(l, b, clock, n - 1), clock[n - 1])
  }

  predicate GrantedAt(l: Limits, b: Bucket, clock: seq<real>, n: nat)
    requires n < |clock|
  {
    Grants(l, After(l, b, clock, n), clock[n])
  }

  ghost predicate Monotone(b: Bucket, clock: seq<real>) {
    && (|clock| > 0 ==> b.updated <= clock[0])
    && forall i, j :: 0 <= i < j < |clock| ==> clock[i] <= clock[j]
  }

  /** Turn i found too few tokens and asked for this sleep. */
  ghost predicate RefusedAt(l: Limits, b: Bucket, clock: seq<real>, i: nat, wait: real)
    requires i < |clock| && l.rate != 0.0
  {
    !GrantedAt(l, b, clock, i) && wait == Wait(l, After(l, b, clock, i + 1).tokens) && wait > 0.0
  }

  lemma RefillBounds(l: Limits, b: Bucket, now: real)
    requires Usable(l) && -0.000000001 <= b.tokens <= l.capacity && b.updated <= now
    ensures b.tokens <= Refilled(l, b, now) <= l.capacity
    ensures -0.000000001 <= Turn(l, b, now).tokens <= l.capacity
  {
    ProductNonNegative(now - b.updated, l.rate);
  }

  class TokenBucketRateLimiter {
    const limits: Limits
    var tokens: real
    var updated: real

    ghost predicate Valid()
      reads this
    {
      Usable(limits) && -0.000000001 <= tokens <= limits.capacity
    }

    ghost function State(): Bucket
      reads this
    {
      Bucket(tokens, updated)
    }

    constructor (limits: Limits, now: real)
      requires Usable(limits)
      ensures Valid() && this.limits == limits && State() == Bucket(limits.capacity, now)
    {
      this.limits := limits;
      tokens := limits.capacity;
      updated := now;
    }

    /** One turn of the loop: refill to the reading, and take a token or work out the sleep. */
    method TryAcquire(now: real) returns (granted: bool, wait: real)
      requires Valid() && updated <= now
      modifies this`tokens, this`updated
      ensures Valid()
      ensures granted == Grants(limits, old(State()), now)
      ensures State() == Turn(limits, old(State()), now)
      ensures !granted ==> wait == Wait(limits, State().tokens) && wait > 0.0
    {
      var elapsed := now - updated;
      RefillBounds(limits, State(), now);
      updated := now;
      tokens := Min(limits.capacity, tokens + Prod(elapsed, limits.rate));
      granted, wait := tokens >= Enough(), 0.0;
      if granted {
        tokens := tokens - 1.0;
      } else {
        wait := (1.0 - tokens) / limits.rate;
        PositiveQuotient(1.0 - tokens, limits.rate);
      }
    }

    /**
     * One call, over the clock readings it gets to make. It returns at the first turn that finds enough
     * tokens, having asked for one sleep per refused turn, or is still waiting when the readings end.
     */
    method Acquire(clock: seq<real>) returns (granted: bool, waits: seq<real>)
      requires Valid() && Monotone(State(), clock)
      modifies this`tokens, this`updated
      ensures Valid() && |waits| <= |clock|
      ensures granted <==> |waits| < |clock|
      ensures granted ==> GrantedAt(limits, old(State()), clock, |waits|)
      ensures forall i :: 0 <= i < |waits| ==> RefusedAt(limits, old(State()), clock, i, waits[i])
      ensures State() == After(limits, old(State()), clock, |waits| + if granted then 1 else 0)
    {
      waits := [];
      granted := false;
      while |waits| < |clock|
        invariant Valid() && |waits| <= |clock| && State() == After(limits, old(State()), clock, |waits|)
        invariant |waits| < |clock| ==> updated <= clock[|waits|]
        invariant forall i :: 0 <= i < |waits| ==> RefusedAt(limits, old(State()), clock, i, waits[i])
        decreases |clock| - |waits|
      {
        var wait;
        granted, wait := TryAcquire(clock[|waits|]);
        if granted {
          return;
        }
        waits := waits + [wait];
      }
    }
  }

  // ---- throughput ----

  /** The grants among the first n turns whose time lies in [from, to]. */
  ghost function GrantsWithin(l: Limits, b: Bucket, clock: seq<real>, from: real, to: real, n: nat): nat
    requires n <= |clock|
  {
    if n == 0 then 0
    else
      GrantsWithin(l, b, clock, from, to, n - 1)
      + if from <= clock[n - 1] <= to && GrantedAt(l, b, clock, n - 1) then 1 else 0
  }

  /** The balance stays within the burst size and never owes more than the tolerance. */
  lemma {:induction false} BalanceBounds(l: Limits, b: Bucket, clock: seq<real>, n: nat)
    requires Usable(l) && n <= |clock| && Monotone(b, clock) && -0.000000001 <= b.tokens <= l.capacity
    ensures -0.000000001 <= After(l, b, clock, n).tokens <= l.capacity
    ensures After(l, b, clock, n).updated == if n == 0 then b.updated else clock[n - 1]
  {
    if n > 0 {
      BalanceBounds(l, b, clock, n - 1);
      RefillBounds(l, After(l, b, clock, n - 1), clock[n - 1]);
    }
  }

  /** What the window has let through by the time the bucket was last updated. */
  ghost predicate Budget(l: Limits, last: Bucket, from: real, to: real, count: nat) {
    if last.updated < from then count == 0
    else if last.updated <= to then count as real + last.tokens <= l.capacity + Prod(last.updated - from, l.rate)
    else count as real <= l.capacity + Prod(to - from, l.rate) + 0.000000001
  }

  lemma ProdSplits(x: real, y: real, z: real, rate: real)
    ensures Prod(z - x, rate) == Prod(y - x, rate) + Prod(z - y, rate)
  {
  }

  /** One turn at time now keeps the budget. */
  lemma TurnKeepsBudget(l: Limits, b: Bucket, now: real, from: real, to: real, count: nat)
    requires Usable(l) && from <= to && b.updated <= now && -0.000000001 <= b.tokens <= l.capacity
    requires Budget(l, b, from, to, count)
    ensures Budget(l, Turn(l, b, now), from, to,
      count + if from <= now <= to && Grants(l, b, now) then 1 else 0)
  {
    ProdSplits(from, b.updated, now, l.rate);
    if from <= now {
      ProdOrdered(0.0, now - from, l.rate);
    }
    if now > to {
      ProdOrdered(0.0, to - from, l.rate);
      if b.updated <= to {
        ProdOrdered(b.updated - from, to - from, l.rate);
      }
    }
  }

  lemma {:induction false} BudgetKept(l: Limits, b: Bucket, clock: seq<real>, from: real, to: real, n: nat)
    requires Usable(l) && n <= |clock| && Monotone(b, clock) && from <= to && -0.000000001 <= b.tokens <= l.capacity
    ensures Budget(l, After(l, b, clock, n), from, to, GrantsWithin(l, b, clock, from, to, n))
  {
    if n == 0 {
      if from <= b.updated {
        ProdOrdered(0.0, b.updated - from, l.rate);
      }
      if b.updated > to {
        ProdOrdered(0.0, to - from, l.rate);
      }
    } else {
      BudgetKept(l, b, clock, from, to, n - 1);
      BalanceBounds(l, b, clock, n - 1);
      TurnKeepsBudget(l, After(l, b, clock, n - 1), clock[n - 1], from, to, GrantsWithin(l, b, clock, from, to, n - 1));
    }
  }

  /** In every run, every window of time lets through at most the burst plus the sustained rate. */
  lemma ThroughputBound(l: Limits, b: Bucket, clock: seq<real>, from: real, to: real)
    requires Usable(l) && Monotone(b, clock) && from <= to && -0.000000001 <= b.tokens <= l.capacity
    ensures GrantsWithin(l, b, clock, from, to, |clock|) as real <= l.capacity + Prod(to - from, l.rate) + 0.000000001
  {
    var last := After(l, b, clock, |clock|);
    BudgetKept(l, b, clock, from, to, |clock|);
    BalanceBounds(l, b, clock, |clock|);
    ProdOrdered(0.0, to - from, l.rate);
    if from <= last.updated <= to {
      ProdOrdered(last.updated - from, to - from, l.rate);
    }
  }

  // ---- termination ----

  /** The clock after a refused turn: the sleep may fall short by up to 10^-9 of a token's time. */
  ghost predicate Slept(l: Limits, b: Bucket, next: real)
    requires Usable(l)
  {
    next >= b.updated + Wait(l, b.tokens) - 0.000000001 / l.rate
  }

  lemma SleepRefills(l: Limits, b: Bucket, next: real)
    requires Usable(l) && Slept(l, b, next)
    ensures b.tokens + Prod(next - b.updated, l.rate) >= Enough()
  {
    var wait, short := Wait(l, b.tokens), 0.000000001 / l.rate;
    Quotient(1.0 - b.tokens, l.rate);
    Quotient(0.000000001, l.rate);
    ProductNonNegative(next - b.updated - (wait - short), l.rate);
    assert (wait - short) * l.rate == wait * l.rate - short * l.rate;
  }

  /** The turn at now is refused, the caller sleeps, and the turn at next is refused again. */
  ghost predicate RefusedTwice(l: Limits, b: Bucket, now: real, next: real)
    requires Usable(l)
  {
    && b.tokens <= l.capacity && b.updated <= now && !Grants(l, b, now)
    && Slept(l, Turn(l, b, now), next) && !Grants(l, Turn(l, b, now), next)
  }

  ghost predicate AtMostOneSleep(l: Limits)
    requires Usable(l)
  {
    forall b, now, next :: !RefusedTwice(l, b, now, next)
  }

  /**
   * With a burst of at least a token less the tolerance, every call returns after at most one sleep; otherwise none
   * ever returns.
   */
  lemma CallsReturnIff(l: Limits)
    requires Usable(l)
    ensures AtMostOneSleep(l) <==> l.capacity >= Enough()
    ensures l.capacity < Enough() ==> forall b: Bucket, now: real :: !Grants(l, b, now)
  {
    if l.capacity >= Enough() {
      forall b, now, next ensures !RefusedTwice(l, b, now, next) {
        if b.tokens <= l.capacity && b.updated <= now && !Grants(l, b, now) && Slept(l, Turn(l, b, now), next) {
          SleepRefills(l, Turn(l, b, now), next);
        }
      }
    } else {
      var b := Bucket(0.0, 0.0);
      var after := Turn(l, b, 0.0);
      var next := after.updated + Wait(l, after.tokens);
      PositiveQuotient(0.000000001, l.rate);
      assert RefusedTwice(l, b, 0.0, next);
    }
  }

  /** The default burst of a slow limiter is below one token, so the limiter it builds never grants a request. */
  lemma SlowDefaultNeverGrants(rate: real, b: Bucket, clock: seq<real>, n: nat)
    requires 0.0 < rate < Enough() && n < |clock|
    ensures Configure(rate, None).Ok? && !GrantedAt(Configure(rate, None).value, b, clock, n)
  {
    CallsReturnIff(Configure(rate, None).value);
  }
}
