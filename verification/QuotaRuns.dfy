/** Runs of the quota operations, and what a tick settles. */
module QuotaRuns {
  import opened Sums
  import opened Reservations
  import opened QuotaSpec
  import opened QuotaLedger

  datatype QuotaOp =
    | RequestOp(caller: string, tokens: int, waitable: bool, waitSec: int)
    | ReturnOp(caller: string, tokens: int)
    | BorrowOp(from: string, to: string, amount: int)
    | RepayOp(from: string, to: string, amount: int)
    | AdjustOp(caller: string, newLimit: int)
    | PolicyOp(name: string, policy: Policy)
    | BindOp(caller: string, policyName: string, quotaLimit: int)
    | ReserveOp(policyName: string, caller: string, tokens: int, startAt: int, endAt: int, order: seq<nat>)
    | CancelOp(id: nat)
    | StatusOp(caller: string, order: seq<nat>)
    | StatusesOp(order: seq<nat>)
    | TickOp(order: seq<nat>)

  /** What the callers of the operations provide: positive amounts, usable policies, a caller bound
      once. The conflict check sees every reservation once, in any order. */
  ghost predicate Proper(q: Quota, op: QuotaOp) {
    match op
    case ReturnOp(_, tokens) => tokens > 0
    case BorrowOp(_, _, amount) => amount > 0
    case RepayOp(_, _, amount) => amount > 0
    case PolicyOp(_, policy) => PolicyOk(policy)
    case BindOp(caller, _, _) => caller !in q.bindings
    case ReserveOp(_, _, _, _, _, order) => IsOrder(order, q.reservations.Keys)
    case _ => true
  }

  function Step(q: Quota, op: QuotaOp, now: int, decay: Decay): Quota {
    match op
    case RequestOp(caller, tokens, waitable, waitSec) => Request(q, caller, tokens, waitable, waitSec, now, decay)
    case ReturnOp(caller, tokens) => ReturnTokens(q, caller, tokens, now, decay)
    case BorrowOp(from, to, amount) => Borrow(q, from, to, amount, now, decay)
    case RepayOp(from, to, amount) => Repay(q, from, to, amount)
    case AdjustOp(caller, newLimit) => Adjust(q, caller, newLimit, now, decay)
    case PolicyOp(name, policy) => AddPolicy(q, name, policy)
    case BindOp(caller, policy, quotaLimit) => Bind(q, caller, policy, quotaLimit, now)
    case ReserveOp(policy, caller, tokens, startAt, endAt, order) =>
      CreateReservation(q, policy, caller, tokens, startAt, endAt, now, order)
    case CancelOp(id) => Cancel(q, id)
    case StatusOp(caller, order) => CallerStatus(q, caller, order, now, decay)
    case StatusesOp(order) => AllStatuses(q, order, now, decay)
    case TickOp(order) => RefillTick(q, order, now, decay)
  }

  datatype QuotaEvent = QuotaEvent(op: QuotaOp, now: int)

  function RunOf(q: Quota, events: seq<QuotaEvent>, decay: Decay): Quota
    decreases |events|
  {
    if events == [] then q else RunOf(Step(q, events[0].op, events[0].now, decay), events[1..], decay)
  }

  ghost predicate AllProper(q: Quota, events: seq<QuotaEvent>, decay: Decay)
    decreases |events|
  {
    events == [] || (Proper(q, events[0].op) && AllProper(Step(q, events[0].op, events[0].now, decay), events[1..], decay))
  }

  const EMPTY := Quota(map[], map[], [], map[], 1, 1)

  lemma PolicyKeeps(q: Quota, name: string, policy: Policy)
    requires QuotaOk(q) && PolicyOk(policy)
    ensures QuotaOk(AddPolicy(q, name, policy))
  {
    hide Load, Sum;
    if name !in q.policies {
      var after := AddPolicy(q, name, policy);
      forall c | c in after.bindings ensures BindingOk(after.policies, after.bindings[c]) {
        assert BindingOk(q.policies, q.bindings[c]);
      }
      forall id | id in after.reservations ensures ReservationOk(after, id) {
        assert ReservationOk(q, id);
      }
      forall p, t | p in after.policies ensures Load(after.reservations, p, t) <= after.policies[p].maxTokens {
        if p == name {
          NothingReserved(q, name, t);
        }
      }
    }
  }

  lemma NothingReserved(q: Quota, policy: string, t: int)
    requires ReservationsOk(q) && policy !in q.policies
    ensures Load(q.reservations, policy, t) == 0
  {
    var shares := HalfShares(q.reservations, policy, t);
    forall id | id in shares ensures shares[id] == 0 {
      assert ReservationOk(q, id);
    }
    SumZero(shares);
  }

  lemma FreshBindingOk(policies: map<string, Policy>, policy: string, quotaLimit: int, now: int)
    requires policy in policies
    ensures BindingOk(policies, Binding(policy, quotaLimit, 0, 0, 0, 0, now, now))
  {
  }

  lemma NoneActive(q: Quota, caller: string)
    requires ReservationsOk(q) && caller !in q.bindings
    ensures Sum(ActiveShares(q.reservations, caller)) == 0
  {
    var shares := ActiveShares(q.reservations, caller);
    forall id | id in shares ensures shares[id] == 0 {
      assert ReservationOk(q, id);
    }
    SumZero(shares);
  }

  lemma NewLoans(bindings: map<string, Binding>, caller: string, b: Binding)
    requires LoansBalance(bindings) && caller !in bindings && b.borrowed == b.lent == 0
    ensures LoansBalance(bindings[caller := b])
  {
    SumUpdate(Borrowed(bindings), caller, 0);
    SumUpdate(Lent(bindings), caller, 0);
    assert Borrowed(bindings[caller := b]) == Borrowed(bindings)[caller := 0];
    assert Lent(bindings[caller := b]) == Lent(bindings)[caller := 0];
  }

  lemma BindKeeps(q: Quota, caller: string, policy: string, quotaLimit: int, now: int)
    requires QuotaOk(q) && caller !in q.bindings
    ensures QuotaOk(Bind(q, caller, policy, quotaLimit, now))
  {
    hide NotOverReserved, LoansBalance, BindingOk, Sum, ActiveShares, AllPositive;
    if policy in q.policies {
      var after := Bind(q, caller, policy, quotaLimit, now);
      var b := after.bindings[caller];
      FreshBindingOk(q.policies, policy, b.quotaLimit, now);
      NewLoans(q.bindings, caller, b);
      NoneActive(q, caller);
      forall id | id in after.reservations ensures ReservationOk(after, id) {
        assert ReservationOk(q, id);
      }
    }
  }

  lemma SharesStay(q: Quota, caller: string, b: Binding)
    requires QuotaOk(q) && caller in q.bindings && BindingOk(q.policies, b)
    ensures QuotaOk(q.(bindings := q.bindings[caller := b]))
            <==> b.borrowed - q.bindings[caller].borrowed == b.lent - q.bindings[caller].lent && b.reserved == q.bindings[caller].reserved
  {
    hide Sum, Load, NotOverReserved, AllPositive, BindingOk;
    var after := q.(bindings := q.bindings[caller := b]);
    SumUpdate(Borrowed(q.bindings), caller, b.borrowed);
    SumUpdate(Lent(q.bindings), caller, b.lent);
    assert Borrowed(after.bindings) == Borrowed(q.bindings)[caller := b.borrowed];
    assert Lent(after.bindings) == Lent(q.bindings)[caller := b.lent];
    assert after.bindings[caller].reserved == b.reserved;
    if b.reserved == q.bindings[caller].reserved {
      assert ReservedIsActive(after.bindings, after.reservations);
    }
    forall id | id in after.reservations ensures ReservationOk(after, id) {
      assert ReservationOk(q, id);
    }
  }

  /** Binding a caller again keeps the ledger exactly if the caller has lent as much as it has borrowed and has
      nothing reserved: the new binding forgets all three. */
  lemma RebindExact(q: Quota, caller: string, policy: string, quotaLimit: int, now: int)
    requires QuotaOk(q) && caller in q.bindings && policy in q.policies
    ensures QuotaOk(Bind(q, caller, policy, quotaLimit, now))
            <==> q.bindings[caller].borrowed == q.bindings[caller].lent && q.bindings[caller].reserved == 0
  {
    var b := Bind(q, caller, policy, quotaLimit, now).bindings[caller];
    FreshBindingOk(q.policies, policy, b.quotaLimit, now);
    hide QuotaOk, BindingOk;
    SharesStay(q, caller, b);
  }

  lemma StepKeepsOk(q: Quota, op: QuotaOp, now: int, decay: Decay)
    requires QuotaOk(q) && Proper(q, op) && DecayOk(decay)
    ensures QuotaOk(Step(q, op, now, decay))
  {
    hide QuotaOk, Request, ReturnTokens, Borrow, Repay, Adjust, AddPolicy, Bind, CreateReservation, Cancel, RefillTick,
         CallerStatus, AllStatuses;
    match op
    case RequestOp(caller, tokens, waitable, waitSec) => RequestKeeps(q, caller, tokens, waitable, waitSec, now, decay);
    case ReturnOp(caller, tokens) => ReturnKeeps(q, caller, tokens, now, decay);
    case BorrowOp(from, to, amount) => BorrowKeeps(q, from, to, amount, now, decay);
    case RepayOp(from, to, amount) => RepayKeeps(q, from, to, amount);
    case AdjustOp(caller, newLimit) => AdjustKeeps(q, caller, newLimit, now, decay);
    case PolicyOp(name, policy) => PolicyKeeps(q, name, policy);
    case BindOp(caller, policy, quotaLimit) => BindKeeps(q, caller, policy, quotaLimit, now);
    case ReserveOp(policy, caller, tokens, startAt, endAt, order) =>
      ReserveKeeps(q, policy, caller, tokens, startAt, endAt, now, order);
    case CancelOp(id) => CancelKeeps(q, id);
    case StatusOp(caller, order) => StatusKeeps(q, caller, order, now, decay);
    case StatusesOp(order) => StatusKeeps(q, "", order, now, decay);
    case TickOp(order) => RefillKeeps(q, order, now, decay);
  }

  /** In every reachable state the ledger balances and no policy is over-reserved. */
  lemma {:induction false} RunKeepsOk(q: Quota, events: seq<QuotaEvent>, decay: Decay)
    requires QuotaOk(q) && AllProper(q, events, decay) && DecayOk(decay)
    ensures QuotaOk(RunOf(q, events, decay))
    decreases |events|
  {
    hide QuotaOk, Proper, Step;
    if events != [] {
      StepKeepsOk(q, events[0].op, events[0].now, decay);
      RunKeepsOk(Step(q, events[0].op, events[0].now, decay), events[1..], decay);
    }
  }

  lemma EmptyOk()
    ensures QuotaOk(EMPTY)
  {
    hide Load;
    assert Borrowed(EMPTY.bindings) == map[] && Lent(EMPTY.bindings) == map[];
  }

  /** Every state that a run reaches from the empty one. */
  lemma ReachableOk(events: seq<QuotaEvent>, decay: Decay)
    requires AllProper(EMPTY, events, decay) && DecayOk(decay)
    ensures QuotaOk(RunOf(EMPTY, events, decay))
  {
    EmptyOk();
    hide QuotaOk;
    RunKeepsOk(EMPTY, events, decay);
  }

  // ---------------------------------------------------------------- after a tick

  /** No reservation is active before its time. */
  ghost predicate Started(res: map<nat, Reservation>, now: int) {
    forall id | id in res :: res[id].status == Active ==> res[id].startAt <= now
  }

  /** The events carry clock readings that never go back, from `now` on. */
  predicate InOrder(events: seq<QuotaEvent>, now: int)
    decreases |events|
  {
    events == [] || (now <= events[0].now && InOrder(events[1..], events[0].now))
  }

  function EndOf(events: seq<QuotaEvent>, now: int): int {
    if events == [] then now else events[|events| - 1].now
  }

  lemma {:induction false} AllStarted(q: Quota, order: seq<nat>, now: int)
    requires Started(q.reservations, now)
    ensures Started(ProcessAll(q, order, now).reservations, now)
    decreases |order|
  {
    hide Unreserve, Reserve;
    if order != [] {
      AllStarted(ProcessOne(q, order[0], now), order[1..], now);
    }
  }

  lemma RefillReservations(q: Quota, order: seq<nat>, now: int, decay: Decay)
    ensures RefillTick(q, order, now, decay).reservations
            == ProcessAll(q.(waits := AliveWaits(q.waits, now)), order, now).reservations
    ensures RefillTick(q, order, now, decay).policies == q.policies
  {
    hide GrantWaits, ProcessAll;
    PoliciesStay(q.(waits := AliveWaits(q.waits, now)), order, now);
  }

  lemma StepKeepsStarted(q: Quota, op: QuotaOp, before: int, now: int, decay: Decay)
    requires Started(q.reservations, before) && before <= now
    ensures Started(Step(q, op, now, decay).reservations, now)
  {
    hide Tick, Charge, Grants, Unreserve, Reserve, Clamp, Remaining, ProcessAll, RefillTick, GrantWaits, ConflictIn;
    match op
    case TickOp(order) =>
      AllStarted(q.(waits := AliveWaits(q.waits, now)), order, now);
      RefillReservations(q, order, now, decay);
    case StatusOp(_, order) => AllStarted(q, order, now);
    case StatusesOp(order) => AllStarted(q, order, now);
    case _ =>
  }

  lemma {:induction false} RunKeepsStarted(q: Quota, events: seq<QuotaEvent>, now: int, decay: Decay)
    requires Started(q.reservations, now) && InOrder(events, now)
    ensures Started(RunOf(q, events, decay).reservations, EndOf(events, now))
    decreases |events|
  {
    hide Step, Started;
    if events != [] {
      StepKeepsStarted(q, events[0].op, now, events[0].now, decay);
      RunKeepsStarted(Step(q, events[0].op, events[0].now, decay), events[1..], events[0].now, decay);
    }
  }

  /** A reservation is active exactly during its interval, and pending only before it. */
  predicate Timely(r: Reservation, now: int) {
    && (r.status == Active ==> r.startAt <= now < r.endAt)
    && (r.status == Pending ==> now < r.startAt)
  }

  lemma OneTimely(q: Quota, id: nat, now: int)
    requires id in q.reservations && q.reservations[id].caller in q.bindings && Started(q.reservations, now)
    ensures var after := ProcessOne(q, id, now);
            && after.reservations.Keys == q.reservations.Keys && after.bindings.Keys == q.bindings.Keys
            && Timely(after.reservations[id], now) && Started(after.reservations, now)
            && after.reservations[id] == q.reservations[id].(status := after.reservations[id].status)
            && (forall j | j in q.reservations && j != id :: after.reservations[j] == q.reservations[j])
  {
    hide Unreserve, Reserve;
  }

  ghost predicate CallersKnown(q: Quota) {
    forall id | id in q.reservations :: q.reservations[id].caller in q.bindings
  }

  lemma {:induction false} AllTimely(q: Quota, order: seq<nat>, now: int)
    requires CallersKnown(q) && Started(q.reservations, now)
    ensures var after := ProcessAll(q, order, now);
            && after.reservations.Keys == q.reservations.Keys
            && (forall id | id in q.reservations && (id in order || Timely(q.reservations[id], now)) ::
                  Timely(after.reservations[id], now))
    decreases |order|
  {
    hide ProcessOne;
    if order != [] {
      var next := ProcessOne(q, order[0], now);
      if order[0] in q.reservations {
        OneTimely(q, order[0], now);
      } else {
        NothingToProcess(q, order[0], now);
      }
      AllTimely(next, order[1..], now);
      var after := ProcessAll(q, order, now);
      forall id | id in q.reservations && (id in order || Timely(q.reservations[id], now))
        ensures Timely(after.reservations[id], now)
      {
        assert id in order ==> id == order[0] || id in order[1..];
      }
    }
  }

  lemma NothingToProcess(q: Quota, id: nat, now: int)
    requires id !in q.reservations
    ensures ProcessOne(q, id, now) == q
  {
  }

  function ActiveOf(r: Reservation, policy: string): int {
    if r.status == Active && r.policy == policy then r.tokens else 0
  }

  /** Tokens that the active reservations of a policy hold. */
  ghost function ActiveTotal(res: map<nat, Reservation>, policy: string): int {
    Sum(ActiveTokens(res, policy))
  }

  ghost function ActiveTokens(res: map<nat, Reservation>, policy: string): map<nat, int> {
    map id | id in res :: ActiveOf(res[id], policy)
  }

  function OverdueOf(r: Reservation, policy: string, now: int): int {
    if r.status == Active && r.policy == policy && r.endAt <= now then r.tokens else 0
  }

  function DueOf(r: Reservation, policy: string, now: int): int {
    if r.status == Pending && r.policy == policy && r.startAt <= now < r.endAt then r.tokens else 0
  }

  ghost function OverdueTokens(res: map<nat, Reservation>, policy: string, now: int): map<nat, int> {
    map id | id in res :: OverdueOf(res[id], policy, now)
  }

  ghost function DueTokens(res: map<nat, Reservation>, policy: string, now: int): map<nat, int> {
    map id | id in res :: DueOf(res[id], policy, now)
  }

  /** Tokens of reservations that are over and still active. */
  ghost function Overdue(res: map<nat, Reservation>, policy: string, now: int): int {
    Sum(OverdueTokens(res, policy, now))
  }

  /** Tokens of reservations that have begun and are still pending. */
  ghost function DuePending(res: map<nat, Reservation>, policy: string, now: int): int {
    Sum(DueTokens(res, policy, now))
  }

  /** At any moment, between ticks too: the active reservations hold the load, and what is overdue, but
      not what is due and still pending. So they stay within a limit exactly if that sum does. */
  lemma ActiveAccounting(res: map<nat, Reservation>, policy: string, now: int, max: int)
    requires Started(res, now)
    ensures ActiveTotal(res, policy) == Load(res, policy, now) + Overdue(res, policy, now) - DuePending(res, policy, now)
    ensures ActiveTotal(res, policy) <= max
            <==> Load(res, policy, now) + Overdue(res, policy, now) - DuePending(res, policy, now) <= max
  {
    hide Sum;
    var active, shares := ActiveTokens(res, policy), HalfShares(res, policy, now);
    var overdue, due := OverdueTokens(res, policy, now), DueTokens(res, policy, now);
    forall id | id in active ensures active[id] == shares[id] + overdue[id] - due[id] {
    }
    SumCombine(active, shares, overdue, due);
  }

  /** In every reachable state at a time no earlier than the last event. */
  lemma ReachableAccounting(events: seq<QuotaEvent>, start: int, now: int, decay: Decay, policy: string)
    requires AllProper(EMPTY, events, decay) && DecayOk(decay) && InOrder(events, start) && EndOf(events, start) <= now
    requires policy in RunOf(EMPTY, events, decay).policies
    ensures var q := RunOf(EMPTY, events, decay);
            var max := q.policies[policy].maxTokens;
            && Load(q.reservations, policy, now) <= max
            && ActiveTotal(q.reservations, policy)
               == Load(q.reservations, policy, now) + Overdue(q.reservations, policy, now) - DuePending(q.reservations, policy, now)
            && (ActiveTotal(q.reservations, policy) <= max
                <==> Load(q.reservations, policy, now) + Overdue(q.reservations, policy, now)
                     - DuePending(q.reservations, policy, now) <= max)
  {
    hide Load, Sum, AllProper, RunOf, InOrder;
    ReachableOk(events, decay);
    RunKeepsStarted(EMPTY, events, start, decay);
    var q := RunOf(EMPTY, events, decay);
    ActiveAccounting(q.reservations, policy, now, q.policies[policy].maxTokens);
  }

  /** After a tick that has visited every reservation, the tokens set aside for a policy are its load
      at that moment, hence within its limit. */
  lemma TickSettles(q: Quota, order: seq<nat>, now: int, decay: Decay, policy: string)
    requires QuotaOk(q) && DecayOk(decay) && policy in q.policies
    requires Started(q.reservations, now) && forall id | id in q.reservations :: id in order
    ensures var after := RefillTick(q, order, now, decay);
            && policy in after.policies && after.policies == q.policies
            && ActiveTotal(after.reservations, policy) == Load(after.reservations, policy, now)
            && ActiveTotal(after.reservations, policy) <= q.policies[policy].maxTokens
  {
    hide Load, Sum, GrantWaits, TickAll, ProcessAll;
    var q1 := q.(waits := AliveWaits(q.waits, now));
    assert CallersKnown(q1) by {
      forall id | id in q1.reservations ensures q1.reservations[id].caller in q1.bindings {
        assert ReservationOk(q, id);
      }
    }
    AllTimely(q1, order, now);
    RefillReservations(q, order, now, decay);
    RefillKeeps(q, order, now, decay);
    hide RefillTick;
    TotalIsLoad(RefillTick(q, order, now, decay).reservations, policy, now);
  }

  lemma {:induction false} PoliciesStay(q: Quota, order: seq<nat>, now: int)
    ensures ProcessAll(q, order, now).policies == q.policies
    decreases |order|
  {
    if order != [] {
      PoliciesStay(ProcessOne(q, order[0], now), order[1..], now);
    }
  }

  lemma TotalIsLoad(res: map<nat, Reservation>, policy: string, now: int)
    requires forall id | id in res :: Timely(res[id], now)
    ensures ActiveTotal(res, policy) == Load(res, policy, now)
  {
    var active := ActiveTokens(res, policy);
    var shares := HalfShares(res, policy, now);
    forall id | id in res ensures active[id] == shares[id] {
      assert Timely(res[id], now);
    }
    assert active == shares;
  }
}
