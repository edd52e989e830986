/** What token buckets and sliding windows give back over any schedule of clock readings: the bucket
    rounds up at every reading or loses the time, the window loses at least one token. */
module QuotaRates {
  import opened Clock
  import opened QuotaSpec
  import opened QuotaLedger
  import opened QuotaMeaning

  /** The clock of a binding, read at one moment after the other. */
  function TickRun(policies: map<string, Policy>, b: Binding, times: seq<int>, decay: Decay): Binding
    decreases |times|
  {
    if times == [] then b else TickRun(policies, Tick(policies, b, times[0], decay), times[1..], decay)
  }

  // ---------------------------------------------------------------- token buckets

  predicate IsBucket(policies: map<string, Policy>, b: Binding) {
    b.policy in policies && policies[b.policy].algorithm == TokenBucket && policies[b.policy].refillRate >= 0.0
  }

  /** The least whole number that is not below `x`. */
  function Up(x: real): int {
    -((-x).Floor)
  }

  /** What the rate yields in an elapsed time. */
  function Yield(rate: real, elapsed: int): real {
    elapsed as real / SECOND as real * rate
  }

  /** The whole tokens that come back for an elapsed time: none if it yields less than a tenth of a token, and
      otherwise its yield rounded up. */
  function GivenBack(rate: real, elapsed: int): int {
    if Yield(rate, elapsed) < 0.1 then 0 else Up(Yield(rate, elapsed))
  }

  /** A reading a millisecond or more after the last one gives back that many tokens, and starts the time anew
      even where it gives back none. */
  lemma BucketTick(policies: map<string, Policy>, b: Binding, now: int, decay: Decay)
    requires IsBucket(policies, b) && BindingOk(policies, b) && now - b.lastRefill >= SECOND / 1000
    ensures Tick(policies, b, now, decay)
            == b.(lastRefill := now, used := AtLeastZero(b.used - GivenBack(policies[b.policy].refillRate, now - b.lastRefill)))
    ensures GivenBack(policies[b.policy].refillRate, now - b.lastRefill) >= 0
  {
    var elapsed := now - b.lastRefill;
    var rate := policies[b.policy].refillRate;
    LongEnough(elapsed);
    ShareIs(elapsed, rate);
    RefillRounds(EffectiveLimit(policies, b), b.used, Yield(rate, elapsed));
    hide EffectiveLimit, Refill, Seconds, Yield, Up, AfterRefill;
  }

  lemma LongEnough(elapsed: int)
    requires elapsed >= SECOND / 1000
    ensures Seconds(elapsed) >= 0.001
  {
  }

  lemma ShareIs(elapsed: int, rate: real)
    ensures Refill(elapsed, rate) == Yield(rate, elapsed)
    ensures elapsed >= 0 && rate >= 0.0 ==> Yield(rate, elapsed) >= 0.0
  {
  }

  lemma RefillRounds(limit: int, used: int, share: real)
    requires 0 <= used <= limit && share >= 0.0
    ensures AfterRefill(limit, used, share) == AtLeastZero(used - Up(share)) && Up(share) >= 0
  {
    var tokens := (limit - used) as real + share;
    if tokens > limit as real {
      assert used as real < share;
    } else {
      assert limit as real - tokens == used as real - share;
      FloorBelow(used, share);
    }
  }

  lemma FloorBelow(used: int, share: real)
    ensures (used as real - share).Floor == used - Up(share)
  {
  }

  /** The readings are a millisecond or more apart, from `last` on. */
  ghost predicate Apart(last: int, times: seq<int>)
    decreases |times|
  {
    times == [] || (times[0] - last >= SECOND / 1000 && Apart(times[0], times[1..]))
  }

  /** The tokens given back at all the readings. */
  function AllGivenBack(rate: real, last: int, times: seq<int>): int
    decreases |times|
  {
    if times == [] then 0 else GivenBack(rate, times[0] - last) + AllGivenBack(rate, times[0], times[1..])
  }

  /** Over any schedule of readings a bucket gives back what each of them gives back. */
  lemma {:induction false} BucketRun(policies: map<string, Policy>, b: Binding, times: seq<int>, decay: Decay)
    requires IsBucket(policies, b) && BindingOk(policies, b) && Apart(b.lastRefill, times)
    ensures TickRun(policies, b, times, decay).used
            == AtLeastZero(b.used - AllGivenBack(policies[b.policy].refillRate, b.lastRefill, times))
    ensures AllGivenBack(policies[b.policy].refillRate, b.lastRefill, times) >= 0
    decreases |times|
  {
    hide Tick, EffectiveLimit, GivenBack;
    if times != [] {
      BucketTick(policies, b, times[0], decay);
      var next := Tick(policies, b, times[0], decay);
      LimitStays(policies, b, next);
      BucketRun(policies, next, times[1..], decay);
    }
  }

  lemma LimitStays(policies: map<string, Policy>, b: Binding, t: Binding)
    requires BindingOk(policies, b) && t == b.(used := t.used, lastRefill := t.lastRefill) && 0 <= t.used <= b.used
    ensures BindingOk(policies, t)
  {
  }

  /** `n` readings, `step` apart. */
  function Every(last: int, step: int, n: nat): seq<int>
    decreases n
  {
    if n == 0 then [] else [last + step] + Every(last + step, step, n - 1)
  }

  lemma {:induction false} EveryGivenBack(rate: real, last: int, step: int, n: nat)
    requires step >= SECOND / 1000
    ensures Apart(last, Every(last, step, n)) && AllGivenBack(rate, last, Every(last, step, n)) == n * GivenBack(rate, step)
    decreases n
  {
    hide GivenBack;
    if n > 0 {
      EveryGivenBack(rate, last + step, step, n - 1);
      assert Every(last, step, n)[1..] == Every(last + step, step, n - 1);
    }
  }

  /** What the rate yields in `n` intervals. */
  function YieldOf(n: nat, rate: real, step: int): real {
    n as real * Yield(rate, step)
  }

  /** The tokens taken off in `n` intervals: what the rate yields in that time exactly if one interval yields a
      whole number of tokens, nothing if it yields less than a tenth of one, and otherwise no less. */
  ghost predicate TakenFor(taken: int, n: nat, rate: real, step: int) {
    && (taken as real == YieldOf(n, rate, step) <==> Yield(rate, step) == Yield(rate, step).Floor as real)
    && (Yield(rate, step) < 0.1 ==> taken == 0)
    && (Yield(rate, step) >= 0.1 ==> taken as real >= YieldOf(n, rate, step))
  }

  /** Read at a fixed interval, a bucket that is not full yet refills at its rate exactly if an interval
      yields a whole number of tokens; if it yields less than a tenth of a token the bucket never refills, and
      otherwise it refills too fast. */
  lemma RefillsAtRate(policies: map<string, Policy>, b: Binding, step: int, n: nat, decay: Decay)
    requires IsBucket(policies, b) && BindingOk(policies, b) && step >= SECOND / 1000 && n > 0
    requires TickRun(policies, b, Every(b.lastRefill, step, n), decay).used > 0
    ensures TakenFor(b.used - TickRun(policies, b, Every(b.lastRefill, step, n), decay).used, n, policies[b.policy].refillRate, step)
  {
    hide TickRun, BindingOk, GivenBack, Every, TakenFor;
    EveryGivenBack(policies[b.policy].refillRate, b.lastRefill, step, n);
    BucketRun(policies, b, Every(b.lastRefill, step, n), decay);
    RateTaken(policies[b.policy].refillRate, step, n);
  }

  lemma RateTaken(rate: real, step: int, n: nat)
    requires rate >= 0.0 && step >= 0 && n > 0
    ensures TakenFor(n * GivenBack(rate, step), n, rate, step)
  {
    ShareIs(step, rate);
    hide Yield, Up;
    Multiples(n, GivenBack(rate, step), Yield(rate, step));
  }

  lemma {:induction false} CastProduct(n: nat, given: int)
    ensures (n * given) as real == n as real * given as real
  {
    if n > 0 {
      CastProduct(n - 1, given);
      assert n * given == (n - 1) * given + given;
      assert n as real * given as real == (n - 1) as real * given as real + given as real;
    }
  }

  lemma SameSign(n: real, a: real, b: real)
    requires n > 0.0
    ensures (n * a == n * b <==> a == b) && (a >= b ==> n * a >= n * b)
  {
    assert n * a - n * b == n * (a - b);
    if a - b > 0.0 {
      assert n * (a - b) > 0.0;
    } else if a - b < 0.0 {
      assert n * (a - b) < 0.0;
    }
  }

  lemma Multiples(n: nat, given: int, share: real)
    requires n > 0 && share >= 0.0 && given == if share < 0.1 then 0 else Up(share)
    ensures (n * given) as real == n as real * share <==> share == share.Floor as real
    ensures share < 0.1 ==> n * given == 0
    ensures share >= 0.1 ==> (n * given) as real >= n as real * share
  {
    CastProduct(n, given);
    UpExact(share);
    hide Up;
    var g := given as real;
    SameSign(n as real, g, share);
    assert g == share <==> share == share.Floor as real by {
      if share < 0.1 {
        assert share.Floor == 0;
      }
    }
  }

  lemma UpExact(share: real)
    ensures Up(share) as real >= share && (Up(share) as real == share <==> share == share.Floor as real)
  {
    var m, f := (-share).Floor, share.Floor;
    assert m as real <= -share < (m + 1) as real;
    assert f as real <= share < (f + 1) as real;
    assert (-m) as real == -(m as real) && (-f) as real == -(f as real);
    if share == f as real {
      assert m as real <= (-f) as real < (m + 1) as real;
      assert m == -f;
    }
    if (-m) as real == share {
      assert f == -m;
    }
  }

  /** With the manager's readings, two a second: a rate of 0.15 a second gives nothing back in any time, a rate
      of 0.3 a second gives back two tokens a second. */
  lemma HalfSecondReadings()
    ensures GivenBack(0.15, SECOND / 2) == 0 && GivenBack(0.3, SECOND / 2) == 1
  {
    assert (SECOND / 2) as real / SECOND as real == 0.5;
  }

  // ---------------------------------------------------------------- sliding windows

  predicate IsSliding(policies: map<string, Policy>, b: Binding) {
    b.policy in policies && policies[b.policy].algorithm == SlidingWindow
  }

  /** A reading leaves of the used tokens the decayed part, rounded down, for a window of 60 seconds if
      the policy has none; a reading at the same moment or before changes nothing. */
  lemma SlidingTick(policies: map<string, Policy>, b: Binding, now: int, decay: Decay)
    requires IsSliding(policies, b) && b.used >= 0 && DecayOk(decay)
    ensures var factor := decay(now - b.windowStart, if policies[b.policy].windowSec > 0 then policies[b.policy].windowSec else 60);
            Tick(policies, b, now, decay)
            == if b.windowStart < now then b.(windowStart := now, used := (b.used as real * factor).Floor) else b
  {
    if b.windowStart < now {
      var factor := decay(now - b.windowStart, if policies[b.policy].windowSec > 0 then policies[b.policy].windowSec else 60);
      assert b.used as real * factor >= 0.0;
    }
  }

  ghost predicate Later(last: int, times: seq<int>)
    decreases |times|
  {
    times == [] || (times[0] > last && Later(times[0], times[1..]))
  }

  /** However slowly a sliding window decays, each reading takes at least one token off: after as many readings
      as there are used tokens nothing is used any more. */
  lemma {:induction false} SlidingDrains(policies: map<string, Policy>, b: Binding, times: seq<int>, decay: Decay)
    requires IsSliding(policies, b) && b.used >= 0 && DecayOk(decay) && Later(b.windowStart, times)
    requires forall e, w :: e > 0 ==> decay(e, w) < 1.0
    ensures 0 <= TickRun(policies, b, times, decay).used <= AtLeastZero(b.used - |times|)
    decreases |times|
  {
    hide Tick;
    if times != [] {
      var next := Tick(policies, b, times[0], decay);
      SlidingTakesOne(policies, b, times[0], decay);
      SlidingDrains(policies, next, times[1..], decay);
    }
  }

  lemma SlidingTakesOne(policies: map<string, Policy>, b: Binding, now: int, decay: Decay)
    requires IsSliding(policies, b) && b.used >= 0 && DecayOk(decay) && b.windowStart < now
    requires forall e, w :: e > 0 ==> decay(e, w) < 1.0
    ensures var t := Tick(policies, b, now, decay);
            t == b.(windowStart := now, used := t.used) && 0 <= t.used <= AtLeastZero(b.used - 1)
  {
    SlidingTick(policies, b, now, decay);
    hide Tick;
    DecayTakesOne(b.used, decay(now - b.windowStart, if policies[b.policy].windowSec > 0 then policies[b.policy].windowSec else 60));
  }

  lemma DecayTakesOne(used: int, factor: real)
    requires used >= 0 && 0.0 <= factor < 1.0
    ensures 0 <= (used as real * factor).Floor <= AtLeastZero(used - 1)
  {
    assert used as real * factor >= 0.0;
    if used > 0 {
      assert used as real * factor < used as real;
    }
  }
}
