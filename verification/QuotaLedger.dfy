/** What every run of the quota operations keeps: no caller uses more than its limit, what is
    borrowed is lent by somebody, the reserved tokens of a caller are those of its active
    reservations, and no policy is over-reserved at any moment. */
module QuotaLedger {
  import opened Clock
  import opened Sums
  import opened Reservations
  import opened QuotaSpec

  ghost predicate PolicyOk(p: Policy) {
    p.maxTokens >= 0 && (p.algorithm == FixedWindow ==> p.windowSec > 0)
  }

  predicate BindingOk(policies: map<string, Policy>, b: Binding) {
    && b.policy in policies
    && 0 <= b.used <= EffectiveLimit(policies, b)
    && b.borrowed >= 0 && b.lent >= 0 && b.reserved >= 0
  }

  ghost function Borrowed(bindings: map<string, Binding>): map<string, int> {
    map c | c in bindings :: bindings[c].borrowed
  }

  ghost function Lent(bindings: map<string, Binding>): map<string, int> {
    map c | c in bindings :: bindings[c].lent
  }

  function ActiveShare(r: Reservation, caller: string): int {
    if r.status == Active && r.caller == caller then r.tokens else 0
  }

  ghost function ActiveShares(res: map<nat, Reservation>, caller: string): map<nat, int> {
    map id | id in res :: ActiveShare(res[id], caller)
  }

  ghost predicate PoliciesOk(q: Quota) {
    forall p | p in q.policies :: PolicyOk(q.policies[p])
  }

  ghost predicate BindingsOk(policies: map<string, Policy>, bindings: map<string, Binding>) {
    forall c | c in bindings :: BindingOk(policies, bindings[c])
  }

  ghost predicate LoansBalance(bindings: map<string, Binding>) {
    Sum(Borrowed(bindings)) == Sum(Lent(bindings))
  }

  ghost predicate ReservedIsActive(bindings: map<string, Binding>, res: map<nat, Reservation>) {
    forall c | c in bindings :: bindings[c].reserved == Sum(ActiveShares(res, c))
  }

  predicate ReservationOk(q: Quota, id: nat)
    requires id in q.reservations
  {
    var r := q.reservations[id];
    id < q.nextReservation && r.tokens > 0 && r.startAt < r.endAt && r.caller in q.bindings && r.policy in q.policies
  }

  ghost predicate ReservationsOk(q: Quota) {
    forall id | id in q.reservations :: ReservationOk(q, id)
  }

  ghost predicate NotOverReserved(policies: map<string, Policy>, res: map<nat, Reservation>) {
    forall p, t | p in policies :: Load(res, p, t) <= policies[p].maxTokens
  }

  ghost predicate AllPositive(waits: seq<WaitItem>) {
    forall i | 0 <= i < |waits| :: waits[i].tokens > 0
  }

  ghost predicate QuotaOk(q: Quota) {
    && AllPositive(q.waits)
    && PoliciesOk(q)
    && BindingsOk(q.policies, q.bindings)
    && LoansBalance(q.bindings)
    && ReservedIsActive(q.bindings, q.reservations)
    && ReservationsOk(q)
    && NotOverReserved(q.policies, q.reservations)
  }

  /** A decay factor lies between zero and one. */
  ghost predicate DecayOk(decay: Decay) {
    forall e, w :: 0.0 <= decay(e, w) <= 1.0
  }

  // ---------------------------------------------------------------- one binding

  lemma RefillBounds(limit: int, used: int, refill: real)
    requires 0 <= used <= limit && refill >= 0.0
    ensures 0 <= AfterRefill(limit, used, refill) <= used
  {
    var tokens := (limit - used) as real + refill;
    var capped := if tokens > limit as real then limit as real else tokens;
    var x := limit as real - capped;
    assert 0.0 <= x <= used as real;
    assert x.Floor <= used;
  }

  lemma DecayBounds(used: int, factor: real)
    requires used >= 0 && 0.0 <= factor <= 1.0
    ensures 0 <= Decayed(used, factor) <= used
  {
    var x := used as real * factor;
    assert 0.0 <= x <= used as real;
    assert x.Floor <= used;
  }

  /** The clock only ever lowers the used tokens. */
  lemma TickOk(policies: map<string, Policy>, b: Binding, now: int, decay: Decay)
    requires BindingOk(policies, b) && DecayOk(decay)
    ensures var t := Tick(policies, b, now, decay);
            && t == b.(used := t.used, windowStart := t.windowStart, lastRefill := t.lastRefill)
            && 0 <= t.used <= b.used && BindingOk(policies, t)
            && EffectiveLimit(policies, t) == EffectiveLimit(policies, b)
  {
    hide AfterRefill, Decayed, Refill, Seconds;
    var p := policies[b.policy];
    match p.algorithm
    case FixedWindow =>
    case TokenBucket =>
      var refill := Refill(now - b.lastRefill, p.refillRate);
      if refill >= 0.1 {
        RefillBounds(EffectiveLimit(policies, b), b.used, refill);
      }
    case SlidingWindow =>
      DecayBounds(b.used, decay(now - b.windowStart, if p.windowSec <= 0 then 60 else p.windowSec));
  }

  /** Same callers with the same policies, loans and reserved tokens. */
  ghost predicate SameLedger(a: map<string, Binding>, b: map<string, Binding>) {
    && a.Keys == b.Keys
    && forall c | c in a :: && a[c].policy == b[c].policy && a[c].borrowed == b[c].borrowed
                            && a[c].lent == b[c].lent && a[c].reserved == b[c].reserved
  }

  lemma LedgerKept(q: Quota, bindings: map<string, Binding>)
    requires QuotaOk(q) && SameLedger(q.bindings, bindings) && BindingsOk(q.policies, bindings)
    ensures QuotaOk(q.(bindings := bindings))
  {
    hide Load;
    assert Borrowed(bindings) == Borrowed(q.bindings);
    assert Lent(bindings) == Lent(q.bindings);
    forall id | id in q.reservations ensures ReservationOk(q.(bindings := bindings), id) {
      assert ReservationOk(q, id);
    }
  }

  lemma WaitsDoNotMatter(q: Quota, waits: seq<WaitItem>, next: nat)
    requires QuotaOk(q) && AllPositive(waits)
    ensures QuotaOk(q.(waits := waits)) && QuotaOk(q.(waits := waits, nextWait := next))
  {
    hide NotOverReserved, LoansBalance, ReservedIsActive, BindingsOk, PolicyOk;
    var r := q.(waits := waits);
    var s := q.(waits := waits, nextWait := next);
    forall id | id in q.reservations ensures ReservationOk(r, id) && ReservationOk(s, id) {
      assert ReservationOk(q, id);
    }
  }

  lemma OneBinding(q: Quota, caller: string, b: Binding)
    requires QuotaOk(q) && caller in q.bindings && BindingOk(q.policies, b)
    requires var a := q.bindings[caller];
             a.policy == b.policy && a.borrowed == b.borrowed && a.lent == b.lent && a.reserved == b.reserved
    ensures QuotaOk(q.(bindings := q.bindings[caller := b]))
  {
    LedgerKept(q, q.bindings[caller := b]);
  }

  lemma TickCallerKeeps(q: Quota, caller: string, now: int, decay: Decay)
    requires QuotaOk(q) && DecayOk(decay) && caller in q.bindings
    ensures QuotaOk(TickCaller(q, caller, now, decay))
  {
    hide Tick;
    TickOk(q.policies, q.bindings[caller], now, decay);
    OneBinding(q, caller, Tick(q.policies, q.bindings[caller], now, decay));
  }

  lemma ChargeOk(policies: map<string, Policy>, b: Binding, tokens: int, now: int, decay: Decay)
    requires BindingOk(policies, b) && DecayOk(decay) && tokens >= 0
    ensures var t := Charge(policies, b, tokens, now, decay);
            && BindingOk(policies, t) && t == b.(used := t.used, windowStart := t.windowStart, lastRefill := t.lastRefill)
  {
    hide Tick;
    TickOk(policies, b, now, decay);
  }

  lemma RequestKeeps(q: Quota, caller: string, tokens: int, waitable: bool, waitSec: int, now: int, decay: Decay)
    requires QuotaOk(q) && DecayOk(decay)
    ensures QuotaOk(Request(q, caller, tokens, waitable, waitSec, now, decay))
  {
    hide QuotaOk, Charge, Grants, TickCaller;
    if tokens > 0 && caller in q.bindings {
      ChargeKeeps(q, caller, tokens, now, decay);
      var timeout := now + (if waitSec <= 0 then 30 else waitSec) * SECOND;
      QueuedKeeps(q, caller, WaitItem(q.nextWait, caller, tokens, timeout), now, decay);
    }
  }

  lemma QueuedKeeps(q: Quota, caller: string, w: WaitItem, now: int, decay: Decay)
    requires QuotaOk(q) && DecayOk(decay) && caller in q.bindings && w.tokens > 0
    ensures QuotaOk(TickCaller(q, caller, now, decay).(waits := q.waits + [w], nextWait := q.nextWait + 1))
  {
    hide NotOverReserved, LoansBalance, ReservedIsActive, ReservationsOk, BindingsOk, PoliciesOk, Tick;
    TickCallerKeeps(q, caller, now, decay);
    assert AllPositive(q.waits + [w]);
    hide QuotaOk;
    WaitsDoNotMatter(TickCaller(q, caller, now, decay), q.waits + [w], q.nextWait + 1);
  }

  lemma ChargeKeeps(q: Quota, caller: string, tokens: int, now: int, decay: Decay)
    requires QuotaOk(q) && DecayOk(decay) && caller in q.bindings && tokens >= 0
    ensures QuotaOk(q.(bindings := q.bindings[caller := Charge(q.policies, q.bindings[caller], tokens, now, decay)]))
  {
    hide Charge;
    ChargeOk(q.policies, q.bindings[caller], tokens, now, decay);
    OneBinding(q, caller, Charge(q.policies, q.bindings[caller], tokens, now, decay));
  }

  lemma ReturnKeeps(q: Quota, caller: string, tokens: int, now: int, decay: Decay)
    requires QuotaOk(q) && DecayOk(decay) && tokens >= 0
    ensures QuotaOk(ReturnTokens(q, caller, tokens, now, decay))
  {
    hide Tick;
    if caller in q.bindings {
      TickOk(q.policies, q.bindings[caller], now, decay);
      OneBinding(q, caller, GiveBack(Tick(q.policies, q.bindings[caller], now, decay), tokens));
    }
  }

  lemma AdjustedOk(policies: map<string, Policy>, b: Binding, newLimit: int)
    requires BindingOk(policies, b)
    ensures var c := Clamp(policies, b.(quotaLimit := newLimit));
            BindingOk(policies, c) && c == b.(quotaLimit := newLimit, used := c.used)
  {
  }

  lemma AdjustKeeps(q: Quota, caller: string, newLimit: int, now: int, decay: Decay)
    requires QuotaOk(q) && DecayOk(decay)
    ensures QuotaOk(Adjust(q, caller, newLimit, now, decay))
  {
    hide Tick, Clamp, EffectiveLimit, NotOverReserved, LoansBalance, ReservedIsActive, ReservationsOk;
    if caller in q.bindings {
      TickOk(q.policies, q.bindings[caller], now, decay);
      var t := Tick(q.policies, q.bindings[caller], now, decay);
      AdjustedOk(q.policies, t, newLimit);
      OneBinding(q, caller, Clamp(q.policies, t.(quotaLimit := newLimit)));
    }
  }

  // ---------------------------------------------------------------- borrowing

  lemma SumsAfter(bindings: map<string, Binding>, c: string, b: Binding)
    requires c in bindings
    ensures Sum(Borrowed(bindings[c := b])) == Sum(Borrowed(bindings)) - bindings[c].borrowed + b.borrowed
    ensures Sum(Lent(bindings[c := b])) == Sum(Lent(bindings)) - bindings[c].lent + b.lent
  {
    SumUpdate(Borrowed(bindings), c, b.borrowed);
    SumUpdate(Lent(bindings), c, b.lent);
    assert Borrowed(bindings[c := b]) == Borrowed(bindings)[c := b.borrowed];
    assert Lent(bindings[c := b]) == Lent(bindings)[c := b.lent];
  }

  /** New bindings of the same callers, with balanced loans and unchanged reserved tokens. */
  lemma LoansMoved(q: Quota, bindings: map<string, Binding>)
    requires QuotaOk(q) && bindings.Keys == q.bindings.Keys && BindingsOk(q.policies, bindings) && LoansBalance(bindings)
    requires forall c | c in bindings :: bindings[c].reserved == q.bindings[c].reserved
    ensures QuotaOk(q.(bindings := bindings))
  {
    hide Load, LoansBalance;
    forall id | id in q.reservations ensures ReservationOk(q.(bindings := bindings), id) {
      assert ReservationOk(q, id);
    }
  }

  lemma TickBothKeeps(q: Quota, from: string, to: string, now: int, decay: Decay)
    requires QuotaOk(q) && DecayOk(decay) && from in q.bindings && to in q.bindings
    ensures QuotaOk(TickBoth(q, from, to, now, decay))
    ensures TickBoth(q, from, to, now, decay).bindings.Keys == q.bindings.Keys
    ensures TickBoth(q, from, to, now, decay).policies == q.policies
  {
    hide QuotaOk;
    TickCallerKeeps(q, from, now, decay);
    TickCallerKeeps(TickCaller(q, from, now, decay), to, now, decay);
  }

  /** Each side of a loan stays within its limit: the lender had the tokens free; a smaller loan may
      leave more used than allowed, which the clamp repairs; a loan to oneself moves no limit. */
  lemma LoanSides(policies: map<string, Policy>, b: Binding, amount: int)
    requires BindingOk(policies, b) && amount > 0
    ensures Remaining(policies, b) >= amount ==> BindingOk(policies, b.(lent := b.lent + amount))
    ensures BindingOk(policies, b.(borrowed := b.borrowed + amount))
    ensures amount <= b.borrowed ==> BindingOk(policies, Clamp(policies, b.(borrowed := b.borrowed - amount)))
    ensures amount <= b.lent ==> BindingOk(policies, b.(lent := b.lent - amount))
    ensures amount <= b.borrowed && amount <= b.lent ==>
              BindingOk(policies, Clamp(policies, b.(borrowed := b.borrowed - amount, lent := b.lent - amount)))
  {
  }

  lemma ClampIdle(policies: map<string, Policy>, b: Binding)
    requires BindingOk(policies, b)
    ensures Clamp(policies, b) == b
  {
  }

  lemma OneMore(policies: map<string, Policy>, bindings: map<string, Binding>, c: string, b: Binding)
    requires BindingsOk(policies, bindings) && BindingOk(policies, b)
    ensures BindingsOk(policies, bindings[c := b])
  {
    hide BindingOk;
  }

  function Moved(bindings: map<string, Binding>, from: string, to: string, amount: int): map<string, Binding>
    requires from in bindings && to in bindings
  {
    var lend := bindings[from := bindings[from].(lent := bindings[from].lent + amount)];
    lend[to := lend[to].(borrowed := lend[to].borrowed + amount)]
  }

  lemma MovedOk(policies: map<string, Policy>, bindings: map<string, Binding>, from: string, to: string, amount: int)
    requires from in bindings && to in bindings && BindingsOk(policies, bindings) && LoansBalance(bindings)
    requires amount > 0 && Remaining(policies, bindings[from]) >= amount
    ensures BindingsOk(policies, Moved(bindings, from, to, amount)) && LoansBalance(Moved(bindings, from, to, amount))
    ensures Clamp(policies, Moved(bindings, from, to, amount)[from]) == Moved(bindings, from, to, amount)[from]
  {
    hide BindingOk, EffectiveLimit, Clamp, Borrowed, Lent, Sum;
    var lender := bindings[from].(lent := bindings[from].lent + amount);
    LoanSides(policies, bindings[from], amount);
    OneMore(policies, bindings, from, lender);
    SumsAfter(bindings, from, lender);
    var lend := bindings[from := lender];
    var borrower := lend[to].(borrowed := lend[to].borrowed + amount);
    LoanSides(policies, lend[to], amount);
    OneMore(policies, lend, to, borrower);
    SumsAfter(lend, to, borrower);
    ClampIdle(policies, Moved(bindings, from, to, amount)[from]);
  }

  lemma MovedKeeps(q: Quota, from: string, to: string, amount: int)
    requires QuotaOk(q) && from in q.bindings && to in q.bindings
    requires amount > 0 && Remaining(q.policies, q.bindings[from]) >= amount
    ensures QuotaOk(q.(bindings := Moved(q.bindings, from, to, amount)))
  {
    hide LoansBalance, NotOverReserved, ReservedIsActive, ReservationsOk, BindingsOk;
    MovedOk(q.policies, q.bindings, from, to, amount);
    LoansMoved(q, Moved(q.bindings, from, to, amount));
  }

  lemma BorrowKeeps(q: Quota, from: string, to: string, amount: int, now: int, decay: Decay)
    requires QuotaOk(q) && DecayOk(decay) && amount > 0
    ensures QuotaOk(Borrow(q, from, to, amount, now, decay))
  {
    hide TickBoth, LoansBalance, QuotaOk, BindingsOk;
    if from in q.bindings && to in q.bindings {
      TickBothKeeps(q, from, to, now, decay);
      var t := TickBoth(q, from, to, now, decay);
      if Remaining(t.policies, t.bindings[from]) >= amount {
        MovedKeeps(t, from, to, amount);
        BorrowIsMoved(q, from, to, amount, now, decay);
      }
    }
  }

  /** In an orderly state the clamp of a borrow has nothing to do. */
  lemma BorrowIsMoved(q: Quota, from: string, to: string, amount: int, now: int, decay: Decay)
    requires QuotaOk(q) && DecayOk(decay) && amount > 0 && from in q.bindings && to in q.bindings
    requires BorrowAnswerOf(q, from, to, amount, now, decay) == Done
    ensures var t := TickBoth(q, from, to, now, decay);
            from in t.bindings && to in t.bindings
            && Borrow(q, from, to, amount, now, decay) == t.(bindings := Moved(t.bindings, from, to, amount))
  {
    hide TickBoth, LoansBalance, NotOverReserved, ReservedIsActive, ReservationsOk, EffectiveLimit, Clamp, Remaining;
    TickBothKeeps(q, from, to, now, decay);
    var t := TickBoth(q, from, to, now, decay);
    MovedOk(t.policies, t.bindings, from, to, amount);
    var m := Moved(t.bindings, from, to, amount);
    assert m[from := Clamp(t.policies, m[from])] == m;
  }

  function Unmoved(bindings: map<string, Binding>, from: string, to: string, amount: int): map<string, Binding>
    requires from in bindings && to in bindings
  {
    var less := bindings[from := bindings[from].(borrowed := bindings[from].borrowed - amount)];
    less[to := less[to].(lent := less[to].lent - amount)]
  }

  /** The clamp comes before or after the other side's update: it concerns another field, and in a
      loan to oneself the limit is unchanged. */
  lemma UnmovedOk(policies: map<string, Policy>, bindings: map<string, Binding>, from: string, to: string, amount: int)
    requires from in bindings && to in bindings && BindingsOk(policies, bindings) && LoansBalance(bindings)
    requires amount > 0 && bindings[from].borrowed >= amount && bindings[to].lent >= amount
    ensures var m := Unmoved(bindings, from, to, amount);
            var n := m[from := Clamp(policies, m[from])];
            BindingsOk(policies, n) && LoansBalance(n)
  {
    hide BindingOk, EffectiveLimit, Clamp, Borrowed, Lent, Sum;
    var payer := bindings[from].(borrowed := bindings[from].borrowed - amount);
    var less := bindings[from := payer];
    SumsAfter(bindings, from, payer);
    var receiver := less[to].(lent := less[to].lent - amount);
    SumsAfter(less, to, receiver);
    var m := Unmoved(bindings, from, to, amount);
    assert m == less[to := receiver];
    var clamped := Clamp(policies, m[from]);
    ClampOnlyUsed(policies, m[from]);
    SumsAfter(m, from, clamped);
    if from == to {
      LoanSides(policies, bindings[from], amount);
      OneMore(policies, bindings, from, clamped);
      assert m[from := clamped] == bindings[from := clamped];
    } else {
      LoanSides(policies, bindings[from], amount);
      LoanSides(policies, bindings[to], amount);
      OneMore(policies, bindings, to, receiver);
      OneMore(policies, bindings[to := receiver], from, clamped);
      assert m[from := clamped] == bindings[to := receiver][from := clamped];
    }
  }

  lemma ClampOnlyUsed(policies: map<string, Policy>, b: Binding)
    ensures Clamp(policies, b) == b.(used := Clamp(policies, b).used)
  {
  }

  lemma RepayKeeps(q: Quota, from: string, to: string, amount: int)
    requires QuotaOk(q) && amount > 0
    ensures QuotaOk(Repay(q, from, to, amount))
  {
    hide LoansBalance, NotOverReserved, ReservedIsActive, ReservationsOk, EffectiveLimit, Clamp;
    if RepayAnswer(q, from, to, amount) == Done {
      UnmovedOk(q.policies, q.bindings, from, to, amount);
      var m := Unmoved(q.bindings, from, to, amount);
      assert BindingOk(q.policies, q.bindings[from]);
      ClampOnlyUsed(q.policies, m[from]);
      hide BindingOk, BindingsOk;
      LoansMoved(q, m[from := Clamp(q.policies, m[from])]);
    }
  }

  lemma MovedBack(t: Quota, from: string, to: string, amount: int)
    requires QuotaOk(t) && from in t.bindings && to in t.bindings && amount > 0
    ensures var borrowed := t.(bindings := Moved(t.bindings, from, to, amount));
            RepayAnswer(borrowed, to, from, amount) == Done && Repay(borrowed, to, from, amount) == t
  {
    hide NotOverReserved, LoansBalance, ReservedIsActive, ReservationsOk, EffectiveLimit;
    var m := Moved(t.bindings, from, to, amount);
    assert BindingOk(t.policies, t.bindings[to]) && BindingOk(t.policies, t.bindings[from]);
    ClampIdle(t.policies, t.bindings[to]);
    hide BindingsOk, Clamp;
    assert Unmoved(m, to, from, amount) == t.bindings;
    assert t.bindings[to := t.bindings[to]] == t.bindings;
  }

  /** Round trip: what was borrowed and is given back at once leaves both callers as they were
      after the clock had been applied to them. */
  lemma BorrowThenRepay(q: Quota, from: string, to: string, amount: int, now: int, decay: Decay)
    requires QuotaOk(q) && DecayOk(decay) && amount > 0 && from in q.bindings && to in q.bindings
    requires BorrowAnswerOf(q, from, to, amount, now, decay) == Done
    ensures RepayAnswer(Borrow(q, from, to, amount, now, decay), to, from, amount) == Done
    ensures Repay(Borrow(q, from, to, amount, now, decay), to, from, amount) == TickBoth(q, from, to, now, decay)
  {
    hide TickBoth, QuotaOk;
    TickBothKeeps(q, from, to, now, decay);
    BorrowIsMoved(q, from, to, amount, now, decay);
    MovedBack(TickBoth(q, from, to, now, decay), from, to, amount);
  }

  // ---------------------------------------------------------------- reservations

  lemma ReservedAfter(res: map<nat, Reservation>, id: nat, r: Reservation, caller: string)
    ensures Sum(ActiveShares(res[id := r], caller))
            == Sum(ActiveShares(res, caller)) - (if id in res then ActiveShare(res[id], caller) else 0) + ActiveShare(r, caller)
  {
    SumUpdate(ActiveShares(res, caller), id, ActiveShare(r, caller));
    assert ActiveShares(res[id := r], caller) == ActiveShares(res, caller)[id := ActiveShare(r, caller)];
  }

  lemma LoadAfter(res: map<nat, Reservation>, id: nat, r: Reservation, policy: string, t: int)
    ensures Load(res[id := r], policy, t)
            == Load(res, policy, t) - (if id in res then HalfShare(res[id], policy, t) else 0) + HalfShare(r, policy, t)
  {
    SumUpdate(HalfShares(res, policy, t), id, HalfShare(r, policy, t));
    assert HalfShares(res[id := r], policy, t) == HalfShares(res, policy, t)[id := HalfShare(r, policy, t)];
  }

  /** The clamp to zero never fires: the caller's reserved tokens cover each active reservation. */
  lemma ReservedCovers(q: Quota, id: nat)
    requires QuotaOk(q) && id in q.reservations && q.reservations[id].status == Active
    ensures q.reservations[id].caller in q.bindings
    ensures q.bindings[q.reservations[id].caller].reserved >= q.reservations[id].tokens
  {
    hide NotOverReserved, LoansBalance, BindingsOk, PoliciesOk, AllPositive, Sum;
    var r := q.reservations[id];
    assert ReservationOk(q, id);
    var shares := ActiveShares(q.reservations, r.caller);
    forall j | j in shares ensures shares[j] >= 0 {
      assert ReservationOk(q, j);
    }
    hide ReservationsOk;
    SumAtLeast(shares, id);
  }

  /** A reservation changes its status and its caller's reserved tokens follow. */
  lemma StatusMoved(q: Quota, id: nat, status: ResStatus, b: Binding)
    requires QuotaOk(q) && id in q.reservations && (Live(q.reservations[id]) || (status != Pending && status != Active))
    requires var r := q.reservations[id];
             r.caller in q.bindings && BindingOk(q.policies, b)
             && b.borrowed == q.bindings[r.caller].borrowed && b.lent == q.bindings[r.caller].lent
             && b.reserved == q.bindings[r.caller].reserved - ActiveShare(r, r.caller) + ActiveShare(r.(status := status), r.caller)
    ensures QuotaOk(SetStatus(q.(bindings := q.bindings[q.reservations[id].caller := b]), id, status))
  {
    hide Load, Sum, EffectiveLimit, Borrowed, Lent, ActiveShares;
    var r := q.reservations[id];
    var after := SetStatus(q.(bindings := q.bindings[r.caller := b]), id, status);
    assert after.reservations == q.reservations[id := r.(status := status)];
    SumsAfter(q.bindings, r.caller, b);
    forall c | c in after.bindings ensures after.bindings[c].reserved == Sum(ActiveShares(after.reservations, c)) {
      ReservedAfter(q.reservations, id, r.(status := status), c);
    }
    forall j | j in after.reservations ensures ReservationOk(after, j) {
      assert ReservationOk(q, j);
    }
    forall p, t | p in after.policies ensures Load(after.reservations, p, t) <= after.policies[p].maxTokens {
      LoadAfter(q.reservations, id, r.(status := status), p, t);
      assert ReservationOk(q, id);
      assert Load(q.reservations, p, t) <= q.policies[p].maxTokens;
    }
  }

  lemma ActivateKeeps(q: Quota, id: nat)
    requires QuotaOk(q) && id in q.reservations && q.reservations[id].status == Pending
    ensures QuotaOk(Activate(q, id))
  {
    hide NotOverReserved, LoansBalance, ReservedIsActive;
    assert ReservationOk(q, id);
    var r := q.reservations[id];
    assert BindingOk(q.policies, q.bindings[r.caller]);
    StatusMoved(q, id, Active, Reserve(q.bindings[r.caller], r.tokens));
  }

  lemma UnreserveOk(policies: map<string, Policy>, b: Binding, tokens: int)
    requires BindingOk(policies, b) && 0 < tokens <= b.reserved
    ensures var u := Unreserve(policies, b, tokens);
            BindingOk(policies, u) && u == b.(used := u.used, reserved := b.reserved - tokens)
  {
  }

  lemma EndKeeps(q: Quota, id: nat, status: ResStatus)
    requires QuotaOk(q) && id in q.reservations && q.reservations[id].status == Active
    requires status == Completed || status == Cancelled
    ensures QuotaOk(EndActive(q, id, status))
  {
    hide NotOverReserved, LoansBalance, ReservedIsActive, Unreserve, EffectiveLimit;
    ReservedCovers(q, id);
    assert ReservationOk(q, id);
    var r := q.reservations[id];
    assert BindingOk(q.policies, q.bindings[r.caller]);
    UnreserveOk(q.policies, q.bindings[r.caller], r.tokens);
    hide BindingOk, BindingsOk, QuotaOk;
    StatusMoved(q, id, status, Unreserve(q.policies, q.bindings[r.caller], r.tokens));
  }

  lemma ProcessOneKeeps(q: Quota, id: nat, now: int)
    requires QuotaOk(q)
    ensures QuotaOk(ProcessOne(q, id, now))
  {
    hide QuotaOk, EndActive, Reserve;
    if id in q.reservations {
      var r := q.reservations[id];
      var s := if r.status == Pending && r.startAt <= now then Activate(q, id) else q;
      if r.status == Pending && r.startAt <= now {
        ActivateKeeps(q, id);
      }
      if s.reservations[id].status == Active && r.endAt <= now {
        EndKeeps(s, id, Completed);
      }
    }
  }

  lemma {:induction false} ProcessAllKeeps(q: Quota, order: seq<nat>, now: int)
    requires QuotaOk(q)
    ensures QuotaOk(ProcessAll(q, order, now))
    decreases |order|
  {
    hide QuotaOk, ProcessOne;
    if order != [] {
      ProcessOneKeeps(q, order[0], now);
      ProcessAllKeeps(ProcessOne(q, order[0], now), order[1..], now);
    }
  }

  lemma CancelKeeps(q: Quota, id: nat)
    requires QuotaOk(q)
    ensures QuotaOk(Cancel(q, id))
  {
    hide NotOverReserved, LoansBalance, ReservedIsActive;
    if id in q.reservations && Live(q.reservations[id]) {
      assert ReservationOk(q, id);
      var r := q.reservations[id];
      if r.status == Active {
        EndKeeps(q, id, Cancelled);
      } else {
        assert BindingOk(q.policies, q.bindings[r.caller]);
        StatusMoved(q, id, Cancelled, q.bindings[r.caller]);
        assert q.bindings[r.caller := q.bindings[r.caller]] == q.bindings;
      }
    }
  }

  lemma ReserveOk(policies: map<string, Policy>, b: Binding, tokens: int)
    requires BindingOk(policies, b) && tokens > 0
    ensures BindingOk(policies, Reserve(b, tokens))
  {
  }

  /** A new reservation is stored and, when it starts at once, its caller's reserved tokens follow. */
  lemma ReservationAdded(q: Quota, r: Reservation, b: Binding)
    requires QuotaOk(q) && r.caller in q.bindings && r.policy in q.policies && r.tokens > 0 && r.startAt < r.endAt
    requires Live(r) && BindingOk(q.policies, b)
    requires b.borrowed == q.bindings[r.caller].borrowed && b.lent == q.bindings[r.caller].lent
    requires b.reserved == q.bindings[r.caller].reserved + ActiveShare(r, r.caller)
    requires Fits(q.reservations, r.policy, q.policies[r.policy].maxTokens, r.tokens, r.startAt, r.endAt)
    ensures QuotaOk(q.(bindings := q.bindings[r.caller := b], reservations := q.reservations[q.nextReservation := r],
                       nextReservation := q.nextReservation + 1))
  {
    hide Load, Sum, EffectiveLimit, Borrowed, Lent, ActiveShares;
    var id := q.nextReservation;
    var after := q.(bindings := q.bindings[r.caller := b], reservations := q.reservations[id := r], nextReservation := id + 1);
    assert forall j | j in q.reservations :: ReservationOk(q, j) && j < id;
    SumsAfter(q.bindings, r.caller, b);
    forall c | c in after.bindings ensures after.bindings[c].reserved == Sum(ActiveShares(after.reservations, c)) {
      ReservedAfter(q.reservations, id, r, c);
    }
    forall j | j in after.reservations ensures ReservationOk(after, j) {
      if j in q.reservations {
        assert ReservationOk(q, j);
      }
    }
    forall p, t | p in after.policies ensures Load(after.reservations, p, t) <= after.policies[p].maxTokens {
      LoadAfter(q.reservations, id, r, p, t);
      assert Load(q.reservations, p, t) <= q.policies[p].maxTokens;
      if p == r.policy {
        assert Load(q.reservations, p, t) + HalfOpen(r.tokens, r.startAt, r.endAt, t) <= q.policies[p].maxTokens;
      }
    }
  }

  lemma StoreKeeps(q: Quota, policy: string, caller: string, tokens: int, startAt: int, endAt: int, now: int)
    requires QuotaOk(q) && ReserveChecks(q, policy, caller, tokens, startAt, endAt, now).Reserved?
    requires Fits(q.reservations, policy, q.policies[policy].maxTokens, tokens, startAt, endAt)
    ensures QuotaOk(StoreReservation(q, policy, caller, tokens, startAt, endAt, now))
  {
    hide NotOverReserved, LoansBalance, ReservedIsActive, ReservationsOk, Fits, EffectiveLimit;
    var status := if startAt <= now then Active else Pending;
    var r := Reservation(policy, caller, tokens, startAt, endAt, status);
    var b := if status == Active then Reserve(q.bindings[caller], tokens) else q.bindings[caller];
    assert BindingOk(q.policies, q.bindings[caller]);
    ReserveOk(q.policies, q.bindings[caller], tokens);
    hide BindingOk, BindingsOk, QuotaOk;
    ReservationAdded(q, r, b);
    assert q.bindings[caller := q.bindings[caller]] == q.bindings;
  }

  lemma StoredAreProper(q: Quota)
    requires QuotaOk(q)
    ensures ProperIntervals(q.reservations)
  {
    hide NotOverReserved, LoansBalance, ReservedIsActive, BindingsOk, PoliciesOk;
    forall id | id in q.reservations ensures q.reservations[id].tokens > 0 && q.reservations[id].startAt < q.reservations[id].endAt {
      assert ReservationOk(q, id);
    }
  }

  /** Whatever the order in which the conflict check sees the reservations: what it lets through fits. */
  lemma ReserveKeeps(q: Quota, policy: string, caller: string, tokens: int, startAt: int, endAt: int, now: int, order: seq<nat>)
    requires QuotaOk(q) && IsOrder(order, q.reservations.Keys)
    ensures QuotaOk(CreateReservation(q, policy, caller, tokens, startAt, endAt, now, order))
  {
    hide QuotaOk, ConflictIn, Fits, Overfull, StoreReservation, ProperIntervals, IsOrder;
    if CreateAnswer(q, policy, caller, tokens, startAt, endAt, now, order).Reserved? {
      StoredAreProper(q);
      ConflictMeaning(q.reservations, order, policy, q.policies[policy].maxTokens, tokens, startAt, endAt);
      StoreKeeps(q, policy, caller, tokens, startAt, endAt, now);
    }
  }

  // ---------------------------------------------------------------- the tick

  lemma TickAllKeeps(q: Quota, now: int, decay: Decay)
    requires QuotaOk(q) && DecayOk(decay)
    ensures QuotaOk(TickAll(q, now, decay))
  {
    hide Tick, NotOverReserved, LoansBalance, ReservedIsActive;
    var after := TickAll(q, now, decay).bindings;
    forall c | c in after
      ensures after[c] == q.bindings[c].(used := after[c].used, windowStart := after[c].windowStart, lastRefill := after[c].lastRefill)
      ensures BindingOk(q.policies, after[c])
    {
      assert BindingOk(q.policies, q.bindings[c]);
      TickOk(q.policies, q.bindings[c], now, decay);
    }
    LedgerKept(q, after);
  }

  lemma {:induction false} GrantWaitsKeeps(q: Quota, waits: seq<WaitItem>, now: int, decay: Decay)
    requires QuotaOk(q) && DecayOk(decay) && AllPositive(waits)
    ensures QuotaOk(q.(bindings := GrantWaits(q.policies, q.bindings, waits, now, decay).0))
    decreases |waits|
  {
    hide QuotaOk, Charge, Grants;
    if waits != [] {
      var w := waits[0];
      if w.timeoutAt <= now || w.caller !in q.bindings || q.bindings[w.caller].policy !in q.policies {
        GrantWaitsKeeps(q, waits[1..], now, decay);
      } else {
        ChargeKeeps(q, w.caller, w.tokens, now, decay);
        var next := q.bindings[w.caller := Charge(q.policies, q.bindings[w.caller], w.tokens, now, decay)];
        GrantWaitsKeeps(q.(bindings := next), waits[1..], now, decay);
      }
    }
  }

  lemma RefillKeeps(q: Quota, order: seq<nat>, now: int, decay: Decay)
    requires QuotaOk(q) && DecayOk(decay)
    ensures QuotaOk(RefillTick(q, order, now, decay))
  {
    AliveKeepsPositive(q.waits, now);
    WaitsDoNotMatter(q, AliveWaits(q.waits, now), q.nextWait);
    var q1 := q.(waits := AliveWaits(q.waits, now));
    ProcessAllKeeps(q1, order, now);
    var all := ProcessAll(q1, order, now);
    TickAllKeeps(all, now, decay);
    var q2 := TickAll(all, now, decay);
    assert AllPositive(q2.waits);
    hide QuotaOk;
    GrantWaitsKeeps(q2, q2.waits, now, decay);
    GrantWaitsPositive(q2.policies, q2.bindings, q2.waits, now, decay);
    var (bindings, waits) := GrantWaits(q2.policies, q2.bindings, q2.waits, now, decay);
    WaitsDoNotMatter(q2.(bindings := bindings), waits, q2.nextWait);
  }

  lemma {:induction false} AliveKeepsPositive(waits: seq<WaitItem>, now: int)
    requires AllPositive(waits)
    ensures AllPositive(AliveWaits(waits, now))
  {
    if waits != [] {
      AliveKeepsPositive(waits[1..], now);
    }
  }

  lemma {:induction false} GrantWaitsPositive(policies: map<string, Policy>, bindings: map<string, Binding>, waits: seq<WaitItem>,
                                              now: int, decay: Decay)
    requires AllPositive(waits)
    ensures AllPositive(GrantWaits(policies, bindings, waits, now, decay).1)
    decreases |waits|
  {
    hide Charge, Grants;
    if waits != [] {
      var w := waits[0];
      if w.timeoutAt <= now || w.caller !in bindings || bindings[w.caller].policy !in policies {
        GrantWaitsPositive(policies, bindings, waits[1..], now, decay);
      } else {
        var next := bindings[w.caller := Charge(policies, bindings[w.caller], w.tokens, now, decay)];
        GrantWaitsPositive(policies, next, waits[1..], now, decay);
      }
    }
  }

  lemma StatusKeeps(q: Quota, caller: string, order: seq<nat>, now: int, decay: Decay)
    requires QuotaOk(q) && DecayOk(decay)
    ensures QuotaOk(CallerStatus(q, caller, order, now, decay)) && QuotaOk(AllStatuses(q, order, now, decay))
  {
    hide QuotaOk, ProcessAll, TickCaller, TickAll;
    ProcessAllKeeps(q, order, now);
    var t := ProcessAll(q, order, now);
    TickAllKeeps(t, now, decay);
    if caller in t.bindings {
      TickCallerKeeps(t, caller, now, decay);
    }
  }
}
