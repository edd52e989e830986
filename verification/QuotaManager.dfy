/** The rate-limit manager of internal/ratelimit/manager.go: each method changes the maps and the
    waiting list in place exactly as the function of the same name in QuotaSpec says. */
module QuotaManager {
  import opened Clock
  import opened Reservations
  import opened QuotaSpec

  class Manager {
    var policies: map<string, Policy>
    var bindings: map<string, Binding>
    var waits: seq<WaitItem>
    var reservations: map<nat, Reservation>
    var nextWait: nat
    var nextReservation: nat
    const decay: Decay

    function View(): Quota
      reads this
    {
      Quota(policies, bindings, waits, reservations, nextWait, nextReservation)
    }

    constructor (decay: Decay)
      ensures View() == Quota(map[], map[], [], map[], 1, 1) && this.decay == decay
    {
      policies, bindings, waits, reservations := map[], map[], [], map[];
      nextWait, nextReservation := 1, 1;
      this.decay := decay;
    }

    method ApplyAlgorithmTick(caller: string, now: int)
      requires caller in bindings
      modifies this`bindings
      ensures View() == TickCaller(old(View()), caller, now, decay)
    {
      var b := bindings[caller];
      if b.policy in policies {
        var p := policies[b.policy];
        match p.algorithm
        case FixedWindow =>
          var elapsed := now - b.windowStart;
          if p.windowSec > 0 && elapsed >= p.windowSec * SECOND {
            var windowsPassed := elapsed / SECOND / p.windowSec;
            b := b.(windowStart := b.windowStart + windowsPassed * p.windowSec * SECOND, used := 0);
          }
        case TokenBucket =>
          var elapsed := now - b.lastRefill;
          if Seconds(elapsed) >= 0.001 {
            var refill := Refill(elapsed, p.refillRate);
            if refill >= 0.1 {
              b := b.(used := AfterRefill(EffectiveLimit(policies, b), b.used, refill));
            }
            b := b.(lastRefill := now);
          }
        case SlidingWindow =>
          var elapsed := now - b.windowStart;
          var window := if p.windowSec <= 0 then 60 else p.windowSec;
          if elapsed > 0 {
            b := b.(used := Decayed(b.used, decay(elapsed, window)), windowStart := now);
          }
      }
      bindings := bindings[caller := b];
    }

    method CreatePolicy(name: string, p: Policy) returns (ok: bool)
      modifies this`policies
      ensures View() == AddPolicy(old(View()), name, p)
      ensures ok <==> name !in old(policies)
    {
      ok := name !in policies;
      if ok {
        policies := policies[name := p];
      }
    }

    method BindCaller(caller: string, policy: string, quotaLimit: int, now: int) returns (ok: bool)
      modifies this`bindings
      ensures View() == Bind(old(View()), caller, policy, quotaLimit, now)
      ensures ok <==> policy in policies
    {
      ok := policy in policies;
      if ok {
        var limit := quotaLimit;
        if limit > policies[policy].maxTokens {
          limit := policies[policy].maxTokens;
        }
        bindings := bindings[caller := Binding(policy, limit, 0, 0, 0, 0, now, now)];
      }
    }

    method RequestTokens(caller: string, tokens: int, waitable: bool, waitSec: int, now: int) returns (answer: Answer)
      modifies this`bindings, this`waits, this`nextWait
      ensures View() == Request(old(View()), caller, tokens, waitable, waitSec, now, decay)
      ensures answer == RequestAnswer(old(View()), caller, tokens, waitable, now, decay)
    {
      hide Tick, EffectiveLimit;
      if tokens <= 0 || caller !in bindings || bindings[caller].policy !in policies {
        return Refused;
      }
      ApplyAlgorithmTick(caller, now);
      var b := bindings[caller];
      if Remaining(policies, b) >= tokens {
        bindings := bindings[caller := b.(used := b.used + tokens)];
        return Allowed;
      }
      if waitable {
        var timeout := if waitSec <= 0 then 30 else waitSec;
        waits := waits + [WaitItem(nextWait, caller, tokens, now + timeout * SECOND)];
        nextWait := nextWait + 1;
        return QueuedAt(|waits|);
      }
      return Denied;
    }

    method ReturnTokens(caller: string, tokens: int, now: int) returns (ok: bool)
      modifies this`bindings
      ensures View() == QuotaSpec.ReturnTokens(old(View()), caller, tokens, now, decay)
      ensures ok <==> caller in old(bindings)
    {
      ok := caller in bindings;
      if ok {
        ApplyAlgorithmTick(caller, now);
        var b := bindings[caller];
        if tokens > b.used {
          b := b.(used := 0);
        } else {
          b := b.(used := b.used - tokens);
        }
        bindings := bindings[caller := b];
      }
    }

    method ClampUsed(caller: string)
      requires caller in bindings
      modifies this`bindings
      ensures bindings == old(bindings)[caller := Clamp(policies, old(bindings)[caller])]
    {
      var b := bindings[caller];
      var limit := EffectiveLimit(policies, b);
      if b.used > limit {
        b := b.(used := limit);
      }
      bindings := bindings[caller := b];
    }

    method BorrowQuota(from: string, to: string, amount: int, now: int) returns (answer: BorrowAnswer)
      modifies this`bindings
      ensures View() == Borrow(old(View()), from, to, amount, now, decay)
      ensures answer == BorrowAnswerOf(old(View()), from, to, amount, now, decay)
    {
      hide Tick, EffectiveLimit, Clamp, Remaining;
      if from !in bindings || to !in bindings {
        return NoCaller;
      }
      ApplyAlgorithmTick(from, now);
      ApplyAlgorithmTick(to, now);
      assert View() == TickBoth(old(View()), from, to, now, decay);
      hide TickBoth;
      if Remaining(policies, bindings[from]) < amount {
        return TooLittle;
      }
      bindings := bindings[from := bindings[from].(lent := bindings[from].lent + amount)];
      bindings := bindings[to := bindings[to].(borrowed := bindings[to].borrowed + amount)];
      ClampUsed(from);
      return Done;
    }

    method ReturnQuota(from: string, to: string, amount: int) returns (answer: BorrowAnswer)
      modifies this`bindings
      ensures View() == Repay(old(View()), from, to, amount)
      ensures answer == RepayAnswer(old(View()), from, to, amount)
    {
      if from !in bindings || to !in bindings {
        return NoCaller;
      }
      if bindings[from].borrowed < amount || bindings[to].lent < amount {
        return TooLittle;
      }
      bindings := bindings[from := bindings[from].(borrowed := bindings[from].borrowed - amount)];
      bindings := bindings[to := bindings[to].(lent := bindings[to].lent - amount)];
      if bindings[from].policy in policies {
        ClampUsed(from);
      }
      return Done;
    }

    method AdjustQuota(caller: string, newLimit: int, now: int) returns (ok: bool)
      modifies this`bindings
      ensures View() == Adjust(old(View()), caller, newLimit, now, decay)
      ensures ok <==> caller in old(bindings)
    {
      hide Tick;
      ok := caller in bindings;
      if ok {
        ApplyAlgorithmTick(caller, now);
        bindings := bindings[caller := bindings[caller].(quotaLimit := newLimit)];
        ClampUsed(caller);
      }
    }

    // -------------------------------------------------------------- reservations

    /** The answer to the conflict check depends on the order in which the map of reservations is
        iterated when events are tied; what it says is bounded on both sides. */
    method CreateReservation(policy: string, caller: string, tokens: int, startAt: int, endAt: int, now: int)
      returns (answer: ReserveAnswer, ghost order: seq<nat>)
      modifies this`bindings, this`reservations, this`nextReservation
      ensures IsOrder(order, old(reservations).Keys)
      ensures View() == QuotaSpec.CreateReservation(old(View()), policy, caller, tokens, startAt, endAt, now, order)
      ensures answer == CreateAnswer(old(View()), policy, caller, tokens, startAt, endAt, now, order)
      ensures ProperIntervals(old(reservations)) && answer.Reserved? ==>
                Fits(old(reservations), policy, policies[policy].maxTokens, tokens, startAt, endAt)
      ensures ProperIntervals(old(reservations)) && answer == Conflict ==>
                Overfull(reservations, policy, policies[policy].maxTokens, tokens, startAt, endAt)
    {
      hide Fits, Overfull, ConflictIn, IsOrder, ProperIntervals;
      order := SomeOrder(reservations.Keys);
      if endAt <= startAt {
        return BadInterval, order;
      } else if endAt < now {
        return PastTime, order;
      } else if tokens <= 0 {
        return BadTokens, order;
      } else if policy !in policies {
        return NoPolicy, order;
      } else if tokens > policies[policy].maxTokens {
        return OverLimit, order;
      } else if caller !in bindings {
        return UnknownCaller, order;
      }
      var conflict, o := CheckConflict(reservations, policy, policies[policy].maxTokens, tokens, startAt, endAt);
      order := o;
      if conflict {
        return Conflict, order;
      }
      var status := Pending;
      if startAt <= now {
        status := Active;
      }
      reservations := reservations[nextReservation := Reservation(policy, caller, tokens, startAt, endAt, status)];
      answer := Reserved(nextReservation);
      nextReservation := nextReservation + 1;
      if status == Active {
        bindings := bindings[caller := Reserve(bindings[caller], tokens)];
      }
    }

    /** Takes a reservation's tokens back from its caller. */
    method ReleaseReserved(caller: string, tokens: int)
      modifies this`bindings
      ensures bindings == if caller in old(bindings)
                          then old(bindings)[caller := Unreserve(policies, old(bindings)[caller], tokens)] else old(bindings)
    {
      if caller in bindings {
        var b := bindings[caller];
        if b.reserved >= tokens {
          b := b.(reserved := b.reserved - tokens);
        } else {
          b := b.(reserved := 0);
        }
        bindings := bindings[caller := b];
        ClampUsed(caller);
      }
    }

    method CancelReservation(id: nat) returns (ok: bool)
      modifies this`bindings, this`reservations
      ensures View() == Cancel(old(View()), id)
      ensures ok <==> id in old(reservations) && Live(old(reservations)[id])
    {
      hide Unreserve;
      if id !in reservations || reservations[id].status == Completed || reservations[id].status == Cancelled {
        return false;
      }
      var r := reservations[id];
      if r.status == Active {
        ReleaseReserved(r.caller, r.tokens);
      }
      reservations := reservations[id := r.(status := Cancelled)];
      return true;
    }

    method ActivateReservation(id: nat)
      requires id in reservations
      modifies this`bindings, this`reservations
      ensures View() == Activate(old(View()), id)
    {
      var r := reservations[id];
      if r.caller !in bindings {
        reservations := reservations[id := r.(status := Cancelled)];
      } else {
        var b := bindings[r.caller];
        bindings := bindings[r.caller := b.(reserved := b.reserved + r.tokens)];
        reservations := reservations[id := r.(status := Active)];
      }
    }

    method CompleteReservation(id: nat)
      requires id in reservations
      modifies this`bindings, this`reservations
      ensures View() == EndActive(old(View()), id, Completed)
    {
      hide Unreserve;
      var r := reservations[id];
      ReleaseReserved(r.caller, r.tokens);
      reservations := reservations[id := r.(status := Completed)];
    }

    /** Starts a reservation that is due and ends it when it is over. */
    method ProcessReservation(id: nat, now: int)
      requires id in reservations
      modifies this`bindings, this`reservations
      ensures View() == ProcessOne(old(View()), id, now)
      ensures reservations.Keys == old(reservations).Keys
    {
      hide Activate, EndActive;
      ghost var before := View();
      KeysKept(before, id);
      if reservations[id].status == Pending && reservations[id].startAt <= now {
        ActivateReservation(id);
      }
      ghost var started := View();
      assert started == if before.reservations[id].status == Pending && before.reservations[id].startAt <= now
                        then Activate(before, id) else before;
      KeysKept(started, id);
      assert reservations[id].endAt == before.reservations[id].endAt;
      if reservations[id].status == Active && reservations[id].endAt <= now {
        CompleteReservation(id);
      }
    }

    /** Visits every reservation once, in the order in which the map happens to be iterated. */
    method ProcessReservationTick(now: int) returns (ghost order: seq<nat>)
      modifies this`bindings, this`reservations
      ensures View() == ProcessAll(old(View()), order, now)
      ensures IsOrder(order, old(reservations).Keys)
    {
      hide ProcessOne, ProcessAll, IsOrder;
      order := [];
      var left := reservations.Keys;
      ghost var done: set<nat> := {};
      OrderNone();
      ProcessNone(View(), now);
      while left != {}
        invariant View() == ProcessAll(old(View()), order, now)
        invariant done == old(reservations).Keys - left && IsOrder(order, done)
        invariant left <= reservations.Keys == old(reservations).Keys
        decreases |left|
      {
        var id :| id in left;
        left := left - {id};
        ProcessLast(old(View()), order, id, now);
        ProcessReservation(id, now);
        OrderGrows(order, done, id);
        order, done := order + [id], done + {id};
      }
      assert done == old(reservations).Keys;
    }

    // -------------------------------------------------------------- status reads

    /** The caller's used tokens and what is left, after its reservations and its clock have moved. */
    method GetCallerStatus(caller: string, now: int) returns (known: bool, used: int, remaining: int, ghost order: seq<nat>)
      modifies this`bindings, this`reservations
      ensures View() == CallerStatus(old(View()), caller, order, now, decay)
      ensures known ==> caller in bindings && used == bindings[caller].used && remaining == Remaining(policies, bindings[caller])
      ensures known <==> caller in old(bindings) && old(bindings)[caller].policy in policies
      ensures known ==> IsOrder(order, old(reservations).Keys)
    {
      hide ProcessAll, Tick, Remaining;
      order, known, used, remaining := [], false, 0, 0;
      if caller in bindings && bindings[caller].policy in policies {
        order := ProcessReservationTick(now);
        ProcessKeepsCallers(old(View()), order, now);
        ApplyAlgorithmTick(caller, now);
        known, used, remaining := true, bindings[caller].used, Remaining(policies, bindings[caller]);
      }
    }

    method ListCallerStatuses(now: int) returns (statuses: map<string, (int, int)>, ghost order: seq<nat>)
      modifies this`bindings, this`reservations
      ensures View() == AllStatuses(old(View()), order, now, decay)
      ensures statuses ==
              map c | c in bindings && bindings[c].policy in policies :: (bindings[c].used, Remaining(policies, bindings[c]))
      ensures IsOrder(order, old(reservations).Keys)
    {
      hide ProcessAll, TickAll, Remaining;
      order := ProcessReservationTick(now);
      TickBindings(now);
      statuses := map c | c in bindings && bindings[c].policy in policies :: (bindings[c].used, Remaining(policies, bindings[c]));
    }

    // -------------------------------------------------------------- the half-second tick

    method CleanupExpiredWaitItems(now: int)
      modifies this`waits
      ensures waits == AliveWaits(old(waits), now)
    {
      hide AliveWaits;
      var alive: seq<WaitItem> := [];
      var i := 0;
      assert waits[0..] == waits;
      while i < |waits|
        invariant 0 <= i <= |waits| && waits == old(waits)
        invariant AliveWaits(waits, now) == alive + AliveWaits(waits[i..], now)
      {
        AliveNext(waits[i..], now);
        assert waits[i..][1..] == waits[i + 1..];
        if waits[i].timeoutAt > now {
          alive := alive + [waits[i]];
        }
        i := i + 1;
      }
      assert waits[i..] == [];
      AliveNone(now);
      waits := alive;
    }

    method TickBindings(now: int)
      modifies this`bindings
      ensures View() == TickAll(old(View()), now, decay)
    {
      hide Tick;
      var left := bindings.Keys;
      while left != {}
        invariant bindings.Keys == old(bindings).Keys && left <= bindings.Keys
        invariant forall c | c in left :: bindings[c] == old(bindings)[c]
        invariant forall c | c in bindings && c !in left :: bindings[c] == Tick(policies, old(bindings)[c], now, decay)
        decreases |left|
      {
        var c :| c in left;
        left := left - {c};
        ApplyAlgorithmTick(c, now);
      }
    }

    method TryGrantFromQueue(now: int)
      modifies this`bindings, this`waits
      ensures (bindings, waits) == GrantWaits(policies, old(bindings), old(waits), now, decay)
    {
      hide Tick, Remaining, GrantWaits, KeptBefore;
      var remaining: seq<WaitItem> := [];
      var i := 0;
      assert waits[0..] == waits;
      KeptNone(GrantWaits(policies, bindings, waits, now, decay));
      while i < |waits|
        invariant 0 <= i <= |waits| && waits == old(waits)
        invariant GrantWaits(policies, old(bindings), waits, now, decay)
                  == KeptBefore(remaining, GrantWaits(policies, bindings, waits[i..], now, decay))
      {
        var w := waits[i];
        assert waits[i..][0] == w && waits[i..][1..] == waits[i + 1..];
        GrantStep(policies, bindings, waits[i..], now, decay);
        ghost var before := bindings;
        if w.timeoutAt > now && w.caller in bindings && bindings[w.caller].policy in policies {
          ApplyAlgorithmTick(w.caller, now);
          var b := bindings[w.caller];
          if Remaining(policies, b) >= w.tokens {
            bindings := bindings[w.caller := b.(used := b.used + w.tokens)];
            assert bindings == before[w.caller := b.(used := b.used + w.tokens)];
          } else {
            KeptOne(remaining, w, GrantWaits(policies, bindings, waits[i + 1..], now, decay));
            remaining := remaining + [w];
          }
        }
        i := i + 1;
      }
      assert waits[i..] == [];
      GrantEnd(policies, bindings, remaining, now, decay);
      waits := remaining;
    }

    method RefillTick(now: int) returns (ghost order: seq<nat>)
      modifies this`bindings, this`reservations, this`waits
      ensures View() == QuotaSpec.RefillTick(old(View()), order, now, decay)
      ensures IsOrder(order, old(reservations).Keys)
    {
      hide Tick, AliveWaits, ProcessAll, TickAll;
      CleanupExpiredWaitItems(now);
      order := ProcessReservationTick(now);
      TickBindings(now);
      if |waits| > 0 {
        TryGrantFromQueue(now);
      }
    }
  }

  lemma OrderNone()
    ensures IsOrder([], {})
  {
  }

  /** The outcome for the rest of the waiting requests, after those already passed over. */
  function KeptBefore(remaining: seq<WaitItem>, rest: (map<string, Binding>, seq<WaitItem>)): (map<string, Binding>, seq<WaitItem>) {
    (rest.0, remaining + rest.1)
  }

  lemma KeptNone(rest: (map<string, Binding>, seq<WaitItem>))
    ensures KeptBefore([], rest) == rest
  {
    assert [] + rest.1 == rest.1;
  }

  lemma KeptOne(remaining: seq<WaitItem>, w: WaitItem, rest: (map<string, Binding>, seq<WaitItem>))
    ensures KeptBefore(remaining, (rest.0, [w] + rest.1)) == KeptBefore(remaining + [w], rest)
  {
    assert remaining + ([w] + rest.1) == remaining + [w] + rest.1;
  }

  lemma GrantEnd(policies: map<string, Policy>, bindings: map<string, Binding>, remaining: seq<WaitItem>, now: int, decay: Decay)
    ensures KeptBefore(remaining, GrantWaits(policies, bindings, [], now, decay)) == (bindings, remaining)
  {
    assert remaining + [] == remaining;
  }

  /** The head of the list is dropped, granted, or passed over. */
  lemma GrantStep(policies: map<string, Policy>, bindings: map<string, Binding>, waits: seq<WaitItem>, now: int, decay: Decay)
    requires waits != []
    ensures var w := waits[0];
            GrantWaits(policies, bindings, waits, now, decay) ==
            if w.timeoutAt <= now || w.caller !in bindings || bindings[w.caller].policy !in policies then
              GrantWaits(policies, bindings, waits[1..], now, decay)
            else
              var b := bindings[w.caller];
              var t := Tick(policies, b, now, decay);
              if Remaining(policies, t) >= w.tokens then
                GrantWaits(policies, bindings[w.caller := t.(used := t.used + w.tokens)], waits[1..], now, decay)
              else
                var rest := GrantWaits(policies, bindings[w.caller := t], waits[1..], now, decay);
                (rest.0, [w] + rest.1)
  {
    hide Tick, Remaining;
  }

  lemma ProcessNone(q: Quota, now: int)
    ensures ProcessAll(q, [], now) == q
  {
  }

  lemma {:induction false} ProcessLast(q: Quota, order: seq<nat>, id: nat, now: int)
    ensures ProcessAll(q, order + [id], now) == ProcessOne(ProcessAll(q, order, now), id, now)
    decreases |order|
  {
    hide ProcessOne;
    if order == [] {
      assert order + [id] == [id];
      ProcessNone(ProcessOne(q, id, now), now);
    } else {
      assert (order + [id])[1..] == order[1..] + [id];
      ProcessLast(ProcessOne(q, order[0], now), order[1..], id, now);
    }
  }

  lemma AliveNext(waits: seq<WaitItem>, now: int)
    requires waits != []
    ensures AliveWaits(waits, now) == (if waits[0].timeoutAt > now then [waits[0]] else []) + AliveWaits(waits[1..], now)
  {
  }

  lemma AliveNone(now: int)
    ensures AliveWaits([], now) == []
  {
  }

  lemma {:induction false} ProcessKeepsCallers(q: Quota, order: seq<nat>, now: int)
    ensures ProcessAll(q, order, now).bindings.Keys == q.bindings.Keys
    decreases |order|
  {
    hide Unreserve, Reserve;
    if order != [] {
      ProcessKeepsCallers(ProcessOne(q, order[0], now), order[1..], now);
    }
  }

  /** A finite set can be listed. */
  ghost function SomeOrder(ids: set<nat>): (order: seq<nat>)
    ensures IsOrder(order, ids)
  {
    if ids == {} then []
    else
      var id :| id in ids;
      var rest := SomeOrder(ids - {id});
      OrderGrows(rest, ids - {id}, id);
      assert ids - {id} + {id} == ids;
      rest + [id]
  }

  lemma KeysKept(q: Quota, id: nat)
    requires id in q.reservations
    ensures Activate(q, id).reservations.Keys == q.reservations.Keys
    ensures Activate(q, id).reservations[id].endAt == q.reservations[id].endAt
    ensures EndActive(q, id, Completed).reservations.Keys == q.reservations.Keys
  {
    hide Unreserve;
  }
}
