/** What each operation of internal/ratelimit/manager.go does to policies, caller bindings,
    waiting requests and reservations, as functions on values. */
module QuotaSpec {
  import opened Clock
  import opened Reservations

  datatype Algorithm = FixedWindow | TokenBucket | SlidingWindow
  datatype Policy = Policy(algorithm: Algorithm, windowSec: int, maxTokens: int, refillRate: real)

  datatype Binding = Binding(policy: string, quotaLimit: int, used: int, borrowed: int, lent: int,
                             reserved: int, windowStart: int, lastRefill: int)

  datatype WaitItem = WaitItem(id: nat, caller: string, tokens: int, timeoutAt: int)

  datatype Quota = Quota(
    policies: map<string, Policy>,
    bindings: map<string, Binding>,
    waits: seq<WaitItem>,
    reservations: map<nat, Reservation>,
    nextWait: nat,
    nextReservation: nat)

  /** The decay of a sliding window for an elapsed time (nanoseconds) and a window (seconds). */
  type Decay = (int, int) -> real

  function EffectiveLimit(policies: map<string, Policy>, b: Binding): int {
    if b.policy !in policies then b.quotaLimit
    else
      var own := if b.quotaLimit > policies[b.policy].maxTokens then policies[b.policy].maxTokens else b.quotaLimit;
      var limit := own + b.borrowed - b.lent + b.reserved;
      if limit < 0 then 0 else limit
  }

  function Remaining(policies: map<string, Policy>, b: Binding): int {
    var left := EffectiveLimit(policies, b) - b.used;
    if left < 0 then 0 else left
  }

  function Seconds(elapsed: int): real {
    elapsed as real / SECOND as real
  }

  /** `applyAlgorithmTick`: what the time that has passed does to the used tokens. */
  function Tick(policies: map<string, Policy>, b: Binding, now: int, decay: Decay): Binding {
    if b.policy !in policies then b
    else
      var p := policies[b.policy];
      match p.algorithm
      case FixedWindow =>
        var elapsed := now - b.windowStart;
        if p.windowSec <= 0 || elapsed < p.windowSec * SECOND then b
        else b.(windowStart := b.windowStart + (elapsed / SECOND / p.windowSec) * p.windowSec * SECOND, used := 0)
      case TokenBucket =>
        var elapsed := now - b.lastRefill;
        if Seconds(elapsed) < 0.001 then b
        else if Refill(elapsed, p.refillRate) < 0.1 then b.(lastRefill := now)
        else b.(lastRefill := now, used := AfterRefill(EffectiveLimit(policies, b), b.used, Refill(elapsed, p.refillRate)))
      case SlidingWindow =>
        var elapsed := now - b.windowStart;
        var window := if p.windowSec <= 0 then 60 else p.windowSec;
        if elapsed <= 0 then b
        else b.(windowStart := now, used := Decayed(b.used, decay(elapsed, window)))
  }

  function Refill(elapsed: int, rate: real): real {
    Seconds(elapsed) * rate
  }

  function Decayed(used: int, factor: real): int {
    Truncate(used as real * factor)
  }

  function Truncate(x: real): int {
    if x < 0.0 then 0 else x.Floor
  }

  function AfterRefill(limit: int, used: int, refill: real): int {
    var tokens := (limit - used) as real + refill;
    var capped := if tokens > limit as real then limit as real else tokens;
    Truncate(limit as real - capped)
  }

  function TickCaller(q: Quota, caller: string, now: int, decay: Decay): Quota
    requires caller in q.bindings
  {
    q.(bindings := q.bindings[caller := Tick(q.policies, q.bindings[caller], now, decay)])
  }

  // ---------------------------------------------------------------- requests

  /** One attempt to take tokens: the clock first, then all or nothing. */
  function Charge(policies: map<string, Policy>, b: Binding, tokens: int, now: int, decay: Decay): Binding {
    var t := Tick(policies, b, now, decay);
    if Remaining(policies, t) >= tokens then t.(used := t.used + tokens) else t
  }

  predicate Grants(policies: map<string, Policy>, b: Binding, tokens: int, now: int, decay: Decay) {
    Remaining(policies, Tick(policies, b, now, decay)) >= tokens
  }

  datatype Answer = Allowed | Denied | QueuedAt(position: nat) | Refused

  function RequestAnswer(q: Quota, caller: string, tokens: int, waitable: bool, now: int, decay: Decay): Answer {
    if tokens <= 0 || caller !in q.bindings || q.bindings[caller].policy !in q.policies then Refused
    else if Grants(q.policies, q.bindings[caller], tokens, now, decay) then Allowed
    else if waitable then QueuedAt(|q.waits| + 1)
    else Denied
  }

  function Request(q: Quota, caller: string, tokens: int, waitable: bool, waitSec: int, now: int, decay: Decay): Quota {
    match RequestAnswer(q, caller, tokens, waitable, now, decay)
    case Refused => q
    case QueuedAt(_) =>
      var timeout := now + (if waitSec <= 0 then 30 else waitSec) * SECOND;
      TickCaller(q, caller, now, decay).(waits := q.waits + [WaitItem(q.nextWait, caller, tokens, timeout)],
                                         nextWait := q.nextWait + 1)
    case _ => q.(bindings := q.bindings[caller := Charge(q.policies, q.bindings[caller], tokens, now, decay)])
  }

  /** Gives tokens back, never below zero. */
  function GiveBack(b: Binding, tokens: int): Binding {
    b.(used := if tokens > b.used then 0 else b.used - tokens)
  }

  function ReturnTokens(q: Quota, caller: string, tokens: int, now: int, decay: Decay): Quota {
    if caller !in q.bindings then q
    else q.(bindings := q.bindings[caller := GiveBack(Tick(q.policies, q.bindings[caller], now, decay), tokens)])
  }

  // ---------------------------------------------------------------- borrowing

  function Clamp(policies: map<string, Policy>, b: Binding): Binding {
    if b.used > EffectiveLimit(policies, b) then b.(used := EffectiveLimit(policies, b)) else b
  }

  datatype BorrowAnswer = Done | NoCaller | TooLittle

  function TickBoth(q: Quota, from: string, to: string, now: int, decay: Decay): Quota
    requires from in q.bindings && to in q.bindings
  {
    TickCaller(TickCaller(q, from, now, decay), to, now, decay)
  }

  function BorrowAnswerOf(q: Quota, from: string, to: string, amount: int, now: int, decay: Decay): BorrowAnswer {
    if from !in q.bindings || to !in q.bindings then NoCaller
    else
      var t := TickBoth(q, from, to, now, decay);
      if Remaining(t.policies, t.bindings[from]) < amount then TooLittle else Done
  }

  /** `to` borrows from `from`: one side's limit falls by what the other's rises. */
  function Borrow(q: Quota, from: string, to: string, amount: int, now: int, decay: Decay): Quota {
    match BorrowAnswerOf(q, from, to, amount, now, decay)
    case NoCaller => q
    case TooLittle => TickBoth(q, from, to, now, decay)
    case Done =>
      var t := TickBoth(q, from, to, now, decay);
      var lend := t.bindings[from := t.bindings[from].(lent := t.bindings[from].lent + amount)];
      var both := lend[to := lend[to].(borrowed := lend[to].borrowed + amount)];
      t.(bindings := both[from := Clamp(t.policies, both[from])])
  }

  function RepayAnswer(q: Quota, from: string, to: string, amount: int): BorrowAnswer {
    if from !in q.bindings || to !in q.bindings then NoCaller
    else if q.bindings[from].borrowed < amount || q.bindings[to].lent < amount then TooLittle
    else Done
  }

  /** `from` gives quota back to `to`. */
  function Repay(q: Quota, from: string, to: string, amount: int): Quota {
    if RepayAnswer(q, from, to, amount) != Done then q
    else
      var less := q.bindings[from := q.bindings[from].(borrowed := q.bindings[from].borrowed - amount)];
      var both := less[to := less[to].(lent := less[to].lent - amount)];
      q.(bindings := if both[from].policy in q.policies then both[from := Clamp(q.policies, both[from])] else both)
  }

  function Adjust(q: Quota, caller: string, newLimit: int, now: int, decay: Decay): Quota {
    if caller !in q.bindings then q
    else
      var b := Tick(q.policies, q.bindings[caller], now, decay).(quotaLimit := newLimit);
      q.(bindings := q.bindings[caller := Clamp(q.policies, b)])
  }

  // ---------------------------------------------------------------- policies and callers

  function AddPolicy(q: Quota, name: string, p: Policy): Quota {
    if name in q.policies then q else q.(policies := q.policies[name := p])
  }

  function Bind(q: Quota, caller: string, policy: string, quotaLimit: int, now: int): Quota {
    if policy !in q.policies then q
    else
      var own := if quotaLimit > q.policies[policy].maxTokens then q.policies[policy].maxTokens else quotaLimit;
      q.(bindings := q.bindings[caller := Binding(policy, own, 0, 0, 0, 0, now, now)])
  }

  // ---------------------------------------------------------------- reservations

  function Reserve(b: Binding, tokens: int): Binding {
    b.(reserved := b.reserved + tokens)
  }

  function Unreserve(policies: map<string, Policy>, b: Binding, tokens: int): Binding {
    Clamp(policies, b.(reserved := if b.reserved >= tokens then b.reserved - tokens else 0))
  }

  function SetStatus(q: Quota, id: nat, status: ResStatus): Quota
    requires id in q.reservations
  {
    q.(reservations := q.reservations[id := q.reservations[id].(status := status)])
  }

  function Activate(q: Quota, id: nat): Quota
    requires id in q.reservations
  {
    var r := q.reservations[id];
    if r.caller !in q.bindings then SetStatus(q, id, Cancelled)
    else SetStatus(q.(bindings := q.bindings[r.caller := Reserve(q.bindings[r.caller], r.tokens)]), id, Active)
  }

  /** An active reservation ends, as completed or as cancelled. */
  function EndActive(q: Quota, id: nat, status: ResStatus): Quota
    requires id in q.reservations
  {
    var r := q.reservations[id];
    var bindings := if r.caller in q.bindings
                    then q.bindings[r.caller := Unreserve(q.policies, q.bindings[r.caller], r.tokens)] else q.bindings;
    SetStatus(q.(bindings := bindings), id, status)
  }

  /** One reservation at one tick: starts when due, ends when over. */
  function ProcessOne(q: Quota, id: nat, now: int): Quota {
    if id !in q.reservations then q
    else
      var r := q.reservations[id];
      var s := if r.status == Pending && r.startAt <= now then Activate(q, id) else q;
      if s.reservations[id].status == Active && r.endAt <= now then EndActive(s, id, Completed) else s
  }

  /** The reservations in the order in which the map happens to be iterated. */
  function ProcessAll(q: Quota, order: seq<nat>, now: int): Quota
    decreases |order|
  {
    if order == [] then q else ProcessAll(ProcessOne(q, order[0], now), order[1..], now)
  }

  datatype ReserveAnswer = Reserved(id: nat) | BadInterval | PastTime | BadTokens | NoPolicy | OverLimit | UnknownCaller | Conflict

  /** All the checks but the conflict check. */
  function ReserveChecks(q: Quota, policy: string, caller: string, tokens: int, startAt: int, endAt: int, now: int): ReserveAnswer {
    if endAt <= startAt then BadInterval
    else if endAt < now then PastTime
    else if tokens <= 0 then BadTokens
    else if policy !in q.policies then NoPolicy
    else if tokens > q.policies[policy].maxTokens then OverLimit
    else if caller !in q.bindings then UnknownCaller
    else Reserved(q.nextReservation)
  }

  /** The answer when the conflict check iterates over the reservations in this order. */
  function CreateAnswer(q: Quota, policy: string, caller: string, tokens: int, startAt: int, endAt: int, now: int, order: seq<nat>)
    : ReserveAnswer
  {
    var checks := ReserveChecks(q, policy, caller, tokens, startAt, endAt, now);
    if checks.Reserved? && ConflictIn(q.reservations, order, policy, q.policies[policy].maxTokens, tokens, startAt, endAt)
    then Conflict else checks
  }

  function CreateReservation(q: Quota, policy: string, caller: string, tokens: int, startAt: int, endAt: int, now: int, order: seq<nat>)
    : Quota
  {
    if CreateAnswer(q, policy, caller, tokens, startAt, endAt, now, order).Reserved?
    then StoreReservation(q, policy, caller, tokens, startAt, endAt, now) else q
  }

  function StoreReservation(q: Quota, policy: string, caller: string, tokens: int, startAt: int, endAt: int, now: int): Quota
    requires caller in q.bindings
  {
    var status := if startAt <= now then Active else Pending;
    var t := q.(reservations := q.reservations[q.nextReservation := Reservation(policy, caller, tokens, startAt, endAt, status)],
                nextReservation := q.nextReservation + 1);
    if status == Active then t.(bindings := t.bindings[caller := Reserve(t.bindings[caller], tokens)]) else t
  }

  function Cancel(q: Quota, id: nat): Quota {
    if id !in q.reservations || !Live(q.reservations[id]) then q
    else if q.reservations[id].status == Active then EndActive(q, id, Cancelled)
    else SetStatus(q, id, Cancelled)
  }

  // ---------------------------------------------------------------- status reads

  /** Reading a caller's status first moves the reservations and the caller's clock. */
  function CallerStatus(q: Quota, caller: string, order: seq<nat>, now: int, decay: Decay): Quota {
    if caller !in q.bindings || q.bindings[caller].policy !in q.policies then q
    else
      var t := ProcessAll(q, order, now);
      if caller in t.bindings then TickCaller(t, caller, now, decay) else t
  }

  function AllStatuses(q: Quota, order: seq<nat>, now: int, decay: Decay): Quota {
    TickAll(ProcessAll(q, order, now), now, decay)
  }

  // ---------------------------------------------------------------- the half-second tick

  function AliveWaits(waits: seq<WaitItem>, now: int): seq<WaitItem> {
    if waits == [] then []
    else (if waits[0].timeoutAt <= now then [] else [waits[0]]) + AliveWaits(waits[1..], now)
  }

  function TickAll(q: Quota, now: int, decay: Decay): Quota {
    q.(bindings := map c | c in q.bindings :: Tick(q.policies, q.bindings[c], now, decay))
  }

  /** Goes through the waiting requests in order; returns the bindings and who still waits. */
  function GrantWaits(policies: map<string, Policy>, bindings: map<string, Binding>, waits: seq<WaitItem>, now: int, decay: Decay)
    : (map<string, Binding>, seq<WaitItem>)
    decreases |waits|
  {
    if waits == [] then (bindings, [])
    else
      var w := waits[0];
      if w.timeoutAt <= now || w.caller !in bindings || bindings[w.caller].policy !in policies then
        GrantWaits(policies, bindings, waits[1..], now, decay)
      else
        var b := bindings[w.caller];
        var (after, rest) := GrantWaits(policies, bindings[w.caller := Charge(policies, b, w.tokens, now, decay)],
                                        waits[1..], now, decay);
        (after, if Grants(policies, b, w.tokens, now, decay) then rest else [w] + rest)
  }

  /** A tick up to the waiting list: late requests leave, reservations move, every caller's clock runs. */
  function BeforeGrants(q: Quota, order: seq<nat>, now: int, decay: Decay): Quota {
    TickAll(ProcessAll(q.(waits := AliveWaits(q.waits, now)), order, now), now, decay)
  }

  function RefillTick(q: Quota, order: seq<nat>, now: int, decay: Decay): Quota {
    var q2 := BeforeGrants(q, order, now, decay);
    var (bindings, waits) := GrantWaits(q2.policies, q2.bindings, q2.waits, now, decay);
    q2.(bindings := bindings, waits := waits)
  }
}
