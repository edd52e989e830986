/** What each quota operation does, told by the fields of the binding and of the policy and by the
    clock: who is allowed what, what a loan moves, what a reservation and its end do. */
module QuotaMeaning {
  import opened Clock
  import opened Sums
  import opened Reservations
  import opened QuotaSpec
  import opened QuotaLedger
  import opened QuotaClock
  import opened QuotaRuns
  import Windows = FixedWindow

  /** What a caller may use: its quota within the policy's maximum, with what it has borrowed or reserved
      and without what it has lent. */
  function Share(policies: map<string, Policy>, b: Binding): int
    requires b.policy in policies
  {
    (if b.quotaLimit < policies[b.policy].maxTokens then b.quotaLimit else policies[b.policy].maxTokens)
    + b.borrowed - b.lent + b.reserved
  }

  function AtLeastZero(n: int): int {
    if n < 0 then 0 else n
  }

  /** What is left of it. */
  function Free(policies: map<string, Policy>, b: Binding): int
    requires b.policy in policies
  {
    AtLeastZero(AtLeastZero(Share(policies, b)) - b.used)
  }

  lemma LimitExact(policies: map<string, Policy>, b: Binding)
    requires b.policy in policies
    ensures EffectiveLimit(policies, b) == AtLeastZero(Share(policies, b)) && Remaining(policies, b) == Free(policies, b)
    ensures BindingOk(policies, b) ==> Free(policies, b) == AtLeastZero(Share(policies, b)) - b.used
  {
  }

  // ---------------------------------------------------------------- the clock

  /** The clock changes nothing but the used tokens and its own marks. */
  lemma TickOnlyUsed(policies: map<string, Policy>, b: Binding, now: int, decay: Decay)
    ensures var t := Tick(policies, b, now, decay);
            && t == b.(used := t.used, windowStart := t.windowStart, lastRefill := t.lastRefill)
            && (b.policy in policies ==> Share(policies, t) == Share(policies, b))
  {
    hide EffectiveLimit, AfterRefill, Decayed, Refill;
  }

  /** A fixed window starts anew, empty, once it is over, on the grid of its first start and no later than now. */
  lemma WindowTick(policies: map<string, Policy>, b: Binding, now: int, decay: Decay) returns (n: nat)
    requires b.policy in policies && policies[b.policy].algorithm == FixedWindow && policies[b.policy].windowSec > 0
    requires b.windowStart <= now
    ensures var t, length := Tick(policies, b, now, decay), policies[b.policy].windowSec * SECOND;
            && t.windowStart == b.windowStart + n * length && t.windowStart <= now < t.windowStart + length
            && t.used == (if n == 0 then b.used else 0)
  {
    n := Windows.RollGrid(Windows.Usage(b.windowStart, b.used), now, policies[b.policy].windowSec);
  }

  // ---------------------------------------------------------------- requests

  /** A request is allowed exactly if, once the clock has run, it fits into what its caller may use; the
      tokens are then used. Otherwise it waits last in line, for the time asked for or 30 seconds, or is denied. */
  lemma RequestExact(q: Quota, caller: string, tokens: int, waitable: bool, waitSec: int, now: int, decay: Decay)
    ensures var r := RequestAnswer(q, caller, tokens, waitable, now, decay);
            var after := Request(q, caller, tokens, waitable, waitSec, now, decay);
            if tokens <= 0 || caller !in q.bindings || q.bindings[caller].policy !in q.policies then r == Refused && after == q
            else
              var b, t := q.bindings[caller], Tick(q.policies, q.bindings[caller], now, decay);
              var max := q.policies[b.policy].maxTokens;
              var share := (if b.quotaLimit < max then b.quotaLimit else max) + b.borrowed - b.lent + b.reserved;
              var fits := t.used + tokens <= (if share < 0 then 0 else share);
              && (r == Allowed <==> fits)
              && (r == QueuedAt(|q.waits| + 1) <==> !fits && waitable)
              && (r == Denied <==> !fits && !waitable)
              && after == q.(bindings := q.bindings[caller := if fits then t.(used := t.used + tokens) else t],
                             waits := after.waits, nextWait := after.nextWait)
              && after.waits == q.waits + (if fits || !waitable then []
                                           else [WaitItem(q.nextWait, caller, tokens,
                                                          now + (if waitSec > 0 then waitSec else 30) * SECOND)])
              && after.nextWait == q.nextWait + (if fits || !waitable then 0 else 1)
  {
    hide Tick, EffectiveLimit;
    if caller in q.bindings && q.bindings[caller].policy in q.policies {
      TickOnlyUsed(q.policies, q.bindings[caller], now, decay);
      LimitExact(q.policies, Tick(q.policies, q.bindings[caller], now, decay));
    }
  }

  /** Tokens given back are free again, but never more than were used. */
  lemma ReturnExact(q: Quota, caller: string, tokens: int, now: int, decay: Decay)
    ensures var after := ReturnTokens(q, caller, tokens, now, decay);
            if caller !in q.bindings then after == q
            else
              var t := Tick(q.policies, q.bindings[caller], now, decay);
              after == q.(bindings := q.bindings[caller := t.(used := AtLeastZero(t.used - tokens))])
  {
    hide Tick;
  }

  // ---------------------------------------------------------------- loans

  /** A loan is made exactly if the lender has that much free once both clocks have run. It moves the amount
      from what the one may use to what the other may: the borrower has all of it free exactly if its share was
      not below zero. */
  lemma LoanExact(q: Quota, from: string, to: string, amount: int, now: int, decay: Decay)
    requires QuotaOk(q) && DecayOk(decay) && amount > 0 && from in q.bindings && to in q.bindings
    ensures var r, after := BorrowAnswerOf(q, from, to, amount, now, decay), Borrow(q, from, to, amount, now, decay);
            var t := q.(bindings := q.bindings[from := Tick(q.policies, q.bindings[from], now, decay)]
                                              [to := Tick(q.policies, q.bindings[to], now, decay)]);
            && t.bindings[from].policy in q.policies && t.bindings[to].policy in q.policies
            && (r == Done <==> amount <= Free(q.policies, t.bindings[from]))
            && (r != Done ==> r == TooLittle && after == t)
            && (r == Done && from != to ==>
                  && after == t.(bindings := after.bindings)
                  && after.bindings == t.bindings[from := t.bindings[from].(lent := t.bindings[from].lent + amount)]
                                                 [to := t.bindings[to].(borrowed := t.bindings[to].borrowed + amount)]
                  && Free(q.policies, after.bindings[from]) == Free(q.policies, t.bindings[from]) - amount
                  && (Free(q.policies, after.bindings[to]) == Free(q.policies, t.bindings[to]) + amount
                      <==> Share(q.policies, t.bindings[to]) >= 0))
  {
    hide QuotaOk, Tick, EffectiveLimit, Remaining, BorrowAnswerOf, Borrow;
    TickBothKeeps(q, from, to, now, decay);
    BothClocks(q, from, to, now, decay);
    var t := TickBoth(q, from, to, now, decay);
    BothOk(t, from, to);
    LimitExact(q.policies, t.bindings[from]);
    LimitExact(q.policies, t.bindings[to]);
    LoanAnswer(q, from, to, amount, now, decay);
    if BorrowAnswerOf(q, from, to, amount, now, decay) == Done {
      BorrowIsMoved(q, from, to, amount, now, decay);
    }
  }

  /** Each of the two clocks runs once, also in a loan to oneself. */
  lemma BothClocks(q: Quota, from: string, to: string, now: int, decay: Decay)
    requires from in q.bindings && to in q.bindings
    ensures TickBoth(q, from, to, now, decay)
            == q.(bindings := q.bindings[from := Tick(q.policies, q.bindings[from], now, decay)]
                                        [to := Tick(q.policies, q.bindings[to], now, decay)])
  {
    hide Tick;
    if from == to {
      var t := Tick(q.policies, q.bindings[from], now, decay);
      QuotaClock.TickSettles(q.policies, q.bindings[from], now, decay);
      assert Tick(q.policies, t.(used := t.used), now, decay) == t.(used := t.used);
    }
  }

  lemma LoanAnswer(q: Quota, from: string, to: string, amount: int, now: int, decay: Decay)
    requires from in q.bindings && to in q.bindings && from in TickBoth(q, from, to, now, decay).bindings
    ensures var r, t := BorrowAnswerOf(q, from, to, amount, now, decay), TickBoth(q, from, to, now, decay);
            && r == (if Remaining(t.policies, t.bindings[from]) < amount then TooLittle else Done)
            && (r == TooLittle ==> Borrow(q, from, to, amount, now, decay) == t)
  {
    hide Tick, Remaining;
  }

  lemma BothOk(q: Quota, from: string, to: string)
    requires QuotaOk(q) && from in q.bindings && to in q.bindings
    ensures BindingOk(q.policies, q.bindings[from]) && BindingOk(q.policies, q.bindings[to])
  {
  }

  /** Quota is given back exactly if that much has been borrowed and lent; the one that gives it back may then
      use that much less, and what it had used above that is forgotten. */
  lemma RepayExact(q: Quota, from: string, to: string, amount: int)
    requires QuotaOk(q) && amount > 0
    ensures var r, after := RepayAnswer(q, from, to, amount), Repay(q, from, to, amount);
            if from !in q.bindings || to !in q.bindings then r == NoCaller && after == q
            else
              && q.bindings[from].policy in q.policies
              && (r == Done <==> amount <= q.bindings[from].borrowed && amount <= q.bindings[to].lent)
              && (r != Done ==> r == TooLittle && after == q)
              && (r == Done && from != to ==>
                    after == q.(bindings := q.bindings[from := PaidBack(q.policies, q.bindings[from], amount)]
                                                      [to := q.bindings[to].(lent := q.bindings[to].lent - amount)]))
  {
    if from in q.bindings && to in q.bindings {
      BothOk(q, from, to);
      hide QuotaOk;
      if from != to && RepayAnswer(q, from, to, amount) == Done {
        ClampedBack(q.policies, q.bindings[from], amount);
        hide Clamp, PaidBack, BindingOk;
        RepaidBoth(q.bindings, from, to, q.bindings[from].(borrowed := q.bindings[from].borrowed - amount),
                   q.bindings[to].(lent := q.bindings[to].lent - amount), PaidBack(q.policies, q.bindings[from], amount));
      }
    }
  }

  /** A borrower that gives this much back. */
  function PaidBack(policies: map<string, Policy>, b: Binding, amount: int): Binding
    requires b.policy in policies
  {
    var limit := AtLeastZero(Share(policies, b) - amount);
    b.(borrowed := b.borrowed - amount, used := if b.used > limit then limit else b.used)
  }

  lemma ClampedBack(policies: map<string, Policy>, b: Binding, amount: int)
    requires b.policy in policies
    ensures Clamp(policies, b.(borrowed := b.borrowed - amount)) == PaidBack(policies, b, amount)
  {
  }

  lemma RepaidBoth(bindings: map<string, Binding>, from: string, to: string, payer: Binding, receiver: Binding, clamped: Binding)
    requires from in bindings && to in bindings && from != to
    ensures bindings[from := payer][to := receiver][from := clamped] == bindings[from := clamped][to := receiver]
  {
  }

  /** A changed quota takes effect at once, and what had been used above the new limit is forgotten. */
  lemma AdjustExact(q: Quota, caller: string, newLimit: int, now: int, decay: Decay)
    requires caller in q.bindings && q.bindings[caller].policy in q.policies
    ensures var b, t := q.bindings[caller], Tick(q.policies, q.bindings[caller], now, decay);
            var max := q.policies[b.policy].maxTokens;
            var limit := AtLeastZero((if newLimit < max then newLimit else max) + b.borrowed - b.lent + b.reserved);
            Adjust(q, caller, newLimit, now, decay)
            == q.(bindings := q.bindings[caller := t.(quotaLimit := newLimit, used := if t.used > limit then limit else t.used)])
  {
    TickOnlyUsed(q.policies, q.bindings[caller], now, decay);
    hide Tick;
  }

  /** A new binding has used, borrowed, lent and reserved nothing, and its first window starts now. */
  lemma BindExact(q: Quota, caller: string, policy: string, quotaLimit: int, now: int)
    ensures var after := Bind(q, caller, policy, quotaLimit, now);
            if policy !in q.policies then after == q
            else
              && after == q.(bindings := after.bindings) && after.bindings.Keys == q.bindings.Keys + {caller}
              && (forall c | c in q.bindings && c != caller :: after.bindings[c] == q.bindings[c])
              && var b := after.bindings[caller];
                 && b.policy == policy && b.used == b.borrowed == b.lent == b.reserved == 0 && b.windowStart == b.lastRefill == now
                 && Share(q.policies, b) == (if quotaLimit < q.policies[policy].maxTokens then quotaLimit else q.policies[policy].maxTokens)
                 && b.quotaLimit == Share(q.policies, b)
  {
  }

  // ---------------------------------------------------------------- reservations

  /** A reservation is looked at for conflicts exactly if it is well formed and known; a refusal says what is
      true, and stores nothing. */
  lemma ChecksExact(q: Quota, policy: string, caller: string, tokens: int, startAt: int, endAt: int, now: int, order: seq<nat>)
    ensures var r := CreateAnswer(q, policy, caller, tokens, startAt, endAt, now, order);
            && (r.Reserved? || r == Conflict <==>
                  && startAt < endAt && now <= endAt && policy in q.policies && 0 < tokens <= q.policies[policy].maxTokens
                  && caller in q.bindings)
            && (r.Reserved? ==> r.id == q.nextReservation)
            && (r.Reserved? || r == Conflict ==>
                  policy in q.policies &&
                  (r == Conflict <==>
                     ConflictIn(q.reservations, order, policy, q.policies[policy].maxTokens, tokens, startAt, endAt)))
            && (r == BadInterval ==> endAt <= startAt) && (r == PastTime ==> endAt < now) && (r == BadTokens ==> tokens <= 0)
            && (r == NoPolicy ==> policy !in q.policies)
            && (r == OverLimit ==> policy in q.policies && tokens > q.policies[policy].maxTokens)
            && (r == UnknownCaller ==> caller !in q.bindings)
            && (!r.Reserved? ==> CreateReservation(q, policy, caller, tokens, startAt, endAt, now, order) == q)
  {
    hide ConflictIn;
  }

  /** An accepted reservation is stored as asked for; if its time has begun its tokens are set aside at once. */
  lemma StoredExact(q: Quota, policy: string, caller: string, tokens: int, startAt: int, endAt: int, now: int, order: seq<nat>)
    requires CreateAnswer(q, policy, caller, tokens, startAt, endAt, now, order).Reserved?
    ensures var after := CreateReservation(q, policy, caller, tokens, startAt, endAt, now, order);
            && caller in q.bindings
            && after == q.(reservations := after.reservations, nextReservation := q.nextReservation + 1, bindings := after.bindings)
            && after.reservations == q.reservations[q.nextReservation := Reservation(policy, caller, tokens, startAt, endAt,
                                                                                     if now < startAt then Pending else Active)]
            && after.bindings == (if now < startAt then q.bindings
                                  else q.bindings[caller := q.bindings[caller].(reserved := q.bindings[caller].reserved + tokens)])
  {
    hide ConflictIn;
  }

  /** Ending an active reservation gives its tokens back: its caller may use that much less, and what it had
      used above that is forgotten. */
  lemma EndExact(q: Quota, id: nat, status: ResStatus)
    requires QuotaOk(q) && id in q.reservations && q.reservations[id].status == Active
    ensures var r := q.reservations[id];
            && r.caller in q.bindings && q.bindings[r.caller].policy in q.policies
            && var b := q.bindings[r.caller];
               var limit := AtLeastZero(Share(q.policies, b) - r.tokens);
               EndActive(q, id, status)
               == q.(bindings := q.bindings[r.caller := b.(reserved := b.reserved - r.tokens,
                                                           used := if b.used > limit then limit else b.used)],
                     reservations := q.reservations[id := r.(status := status)])
  {
    hide Sum;
    ReservedCovers(q, id);
    BothOk(q, q.reservations[id].caller, q.reservations[id].caller);
    hide QuotaOk;
  }

  /** A cancelled reservation counts no longer: its tokens leave the load of its policy for the whole of its
      interval. One that is pending takes nothing from its caller, one that is active ends; one that is over or
      unknown is left alone. */
  lemma CancelExact(q: Quota, id: nat, t: int)
    requires QuotaOk(q)
    ensures var after := Cancel(q, id);
            if id !in q.reservations || q.reservations[id].status == Completed || q.reservations[id].status == Cancelled then after == q
            else
              var r := q.reservations[id];
              && after.reservations == q.reservations[id := r.(status := Cancelled)]
              && (r.status == Pending ==> after == q.(reservations := after.reservations))
              && (r.status == Active ==> after == EndActive(q, id, Cancelled))
              && Load(after.reservations, r.policy, t)
                 == Load(q.reservations, r.policy, t) - (if r.startAt <= t < r.endAt then r.tokens else 0)
  {
    hide Load, Sum;
    if id in q.reservations && Live(q.reservations[id]) {
      var r := q.reservations[id];
      LoadAfter(q.reservations, id, r.(status := Cancelled), r.policy, t);
      hide QuotaOk;
    }
  }

  /** The status of a reservation after a tick has visited it. */
  function StatusAt(r: Reservation, known: bool, now: int): ResStatus {
    if r.status == Pending && r.startAt <= now && !known then Cancelled
    else if (r.status == Active || (r.status == Pending && r.startAt <= now)) && r.endAt <= now then Completed
    else if r.status == Pending && r.startAt <= now then Active
    else r.status
  }

  lemma OneStatus(q: Quota, id: nat, now: int)
    ensures var after := ProcessOne(q, id, now);
            && after.reservations.Keys == q.reservations.Keys && after.bindings.Keys == q.bindings.Keys
            && (forall j | j in q.reservations && j != id :: after.reservations[j] == q.reservations[j])
            && (id in q.reservations ==>
                  var r := q.reservations[id];
                  after.reservations[id] == r.(status := StatusAt(r, r.caller in q.bindings, now)))
  {
    hide Unreserve, Reserve;
  }

  /** A tick that visits each reservation once activates exactly those that are pending and have begun,
      completes exactly those that are over, and cancels those whose caller is gone; the rest stay. */
  lemma {:induction false} StatusesExact(q: Quota, order: seq<nat>, now: int)
    requires forall i, j | 0 <= i < j < |order| :: order[i] != order[j]
    ensures var after := ProcessAll(q, order, now);
            && after.reservations.Keys == q.reservations.Keys && after.bindings.Keys == q.bindings.Keys
            && forall id | id in q.reservations ::
                 var r := q.reservations[id];
                 after.reservations[id] == if id in order then r.(status := StatusAt(r, r.caller in q.bindings, now)) else r
    decreases |order|
  {
    hide ProcessOne, StatusAt;
    if order != [] {
      OneStatus(q, order[0], now);
      StatusesExact(ProcessOne(q, order[0], now), order[1..], now);
      assert order == [order[0]] + order[1..];
      assert forall i | 0 <= i < |order[1..]| :: order[1..][i] == order[i + 1];
    }
  }

  // ---------------------------------------------------------------- status reads

  /** A status read shows a caller as it is now: its clock has nothing left to do, and its reservations are
      active exactly while they run. */
  lemma StatusExact(q: Quota, caller: string, order: seq<nat>, now: int, decay: Decay)
    requires QuotaOk(q) && Started(q.reservations, now) && IsOrder(order, q.reservations.Keys)
    requires caller in q.bindings
    ensures var after := CallerStatus(q, caller, order, now, decay);
            && caller in after.bindings && Settled(after.policies, after.bindings[caller], now, decay)
            && (forall id | id in after.reservations :: Timely(after.reservations[id], now))
    ensures var after := AllStatuses(q, order, now, decay);
            && (forall c | c in after.bindings :: Settled(after.policies, after.bindings[c], now, decay))
            && (forall id | id in after.reservations :: Timely(after.reservations[id], now))
  {
    AllKnown(q, caller);
    hide QuotaOk, Tick, Settled, Started, IsOrder, ProcessAll, Timely;
    var t := ProcessAll(q, order, now);
    assert forall id | id in q.reservations :: id in order by {
      OrderCovers(order, q.reservations.Keys);
    }
    AllTimely(q, order, now);
    KeysStay(q, order, now);
    PoliciesStay(q, order, now);
    forall c | c in t.bindings ensures Settled(q.policies, Tick(q.policies, t.bindings[c], now, decay), now, decay) {
      QuotaClock.TickSettles(q.policies, t.bindings[c], now, decay);
    }
  }

  lemma OrderCovers(order: seq<nat>, ids: set<nat>)
    requires IsOrder(order, ids)
    ensures forall id | id in ids :: id in order
  {
  }

  lemma AllKnown(q: Quota, caller: string)
    requires QuotaOk(q)
    ensures CallersKnown(q)
    ensures caller in q.bindings ==> q.bindings[caller].policy in q.policies
  {
    forall id | id in q.reservations ensures q.reservations[id].caller in q.bindings {
      assert ReservationOk(q, id);
    }
  }

  lemma {:induction false} KeysStay(q: Quota, order: seq<nat>, now: int)
    ensures ProcessAll(q, order, now).bindings.Keys == q.bindings.Keys
    ensures ProcessAll(q, order, now).reservations.Keys == q.reservations.Keys
    decreases |order|
  {
    hide ProcessOne;
    if order != [] {
      OneStatus(q, order[0], now);
      KeysStay(ProcessOne(q, order[0], now), order[1..], now);
    }
  }
}
