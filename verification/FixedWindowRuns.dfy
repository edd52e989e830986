/** The fixed-window bound over every run of the quota operations: while a caller's limit is constant,
    nothing is returned, and no tick takes used tokens from it by ending a reservation of its. */
module FixedWindowRuns {
  import opened Clock
  import opened QuotaSpec
  import opened QuotaLedger
  import opened QuotaRuns
  import opened Reservations
  import opened FixedWindow

  /** A caller of a fixed-window policy with this window and effective limit. */
  ghost predicate Watched(q: Quota, c: string, window: int, limit: int) {
    && QuotaOk(q) && c in q.bindings
    && LimitIs(q.policies, q.bindings[c], window, limit)
  }

  predicate LimitIs(policies: map<string, Policy>, b: Binding, window: int, limit: int) {
    && window > 0 && b.policy in policies
    && policies[b.policy].algorithm == Algorithm.FixedWindow && policies[b.policy].windowSec == window
    && EffectiveLimit(policies, b) == limit
  }

  function UsageOf(b: Binding): Usage {
    Usage(b.windowStart, b.used)
  }

  /** Tokens that going through the waiting requests grants to a caller. */
  function GrantedFromQueue(policies: map<string, Policy>, bindings: map<string, Binding>, waits: seq<WaitItem>, c: string, now: int,
                            decay: Decay): int
    decreases |waits|
  {
    if waits == [] then 0
    else
      var w := waits[0];
      if w.timeoutAt <= now || w.caller !in bindings || bindings[w.caller].policy !in policies then
        GrantedFromQueue(policies, bindings, waits[1..], c, now, decay)
      else
        var b := bindings[w.caller];
        (if w.caller == c && Grants(policies, b, w.tokens, now, decay) then w.tokens else 0)
        + GrantedFromQueue(policies, bindings[w.caller := Charge(policies, b, w.tokens, now, decay)], waits[1..], c, now, decay)
  }

  /** Tokens granted to a caller in one step, directly or from the waiting list. */
  function GrantedIn(q: Quota, op: QuotaOp, now: int, c: string, decay: Decay): int {
    match op
    case RequestOp(caller, tokens, waitable, _) =>
      if caller == c && RequestAnswer(q, caller, tokens, waitable, now, decay) == Allowed then tokens else 0
    case TickOp(order) =>
      var q2 := BeforeGrants(q, order, now, decay);
      GrantedFromQueue(q2.policies, q2.bindings, q2.waits, c, now, decay)
    case _ => 0
  }

  /** The usage of a caller moves as the abstract steps say. */
  ghost predicate Moves(b: Binding, after: Binding, now: int, granted: int, window: int, limit: int)
    requires window > 0
  {
    Follows(UsageOf(b), UsageOf(after), now, granted, window, limit)
  }

  lemma TickMoves(policies: map<string, Policy>, b: Binding, now: int, decay: Decay, window: int, limit: int)
    requires LimitIs(policies, b, window, limit) && 0 <= b.used <= limit
    ensures var t := Tick(policies, b, now, decay);
            && LimitIs(policies, t, window, limit) && 0 <= t.used <= limit
            && UsageOf(t) == Roll(UsageOf(b), now, window) && Moves(b, t, now, 0, window, limit)
  {
  }

  lemma ChargeMoves(policies: map<string, Policy>, b: Binding, tokens: int, now: int, decay: Decay, window: int, limit: int)
    requires LimitIs(policies, b, window, limit) && 0 <= b.used <= limit && tokens > 0
    ensures var t := Charge(policies, b, tokens, now, decay);
            && LimitIs(policies, t, window, limit) && 0 <= t.used <= limit
            && Moves(b, t, now, if Grants(policies, b, tokens, now, decay) then tokens else 0, window, limit)
  {
    hide Tick;
    TickMoves(policies, b, now, decay, window, limit);
  }

  lemma {:induction false} QueueMoves(policies: map<string, Policy>, bindings: map<string, Binding>, waits: seq<WaitItem>, c: string,
                                      now: int, decay: Decay, window: int, limit: int)
    requires window > 0 && c in bindings && LimitIs(policies, bindings[c], window, limit) && 0 <= bindings[c].used <= limit
    requires bindings[c].windowStart <= now && AllPositive(waits)
    ensures var after := GrantWaits(policies, bindings, waits, now, decay).0;
            && c in after
            && Moves(bindings[c], after[c], now, GrantedFromQueue(policies, bindings, waits, c, now, decay), window, limit)
    decreases |waits|
  {
    hide Charge, Grants, LimitIs, Roll;
    if waits != [] {
      var w := waits[0];
      if w.timeoutAt <= now || w.caller !in bindings || bindings[w.caller].policy !in policies {
        QueueMoves(policies, bindings, waits[1..], c, now, decay, window, limit);
      } else {
        var next := bindings[w.caller := Charge(policies, bindings[w.caller], w.tokens, now, decay)];
        if w.caller == c {
          ChargeMoves(policies, bindings[c], w.tokens, now, decay, window, limit);
          var g := if Grants(policies, bindings[c], w.tokens, now, decay) then w.tokens else 0;
          FollowsBounds(UsageOf(bindings[c]), UsageOf(next[c]), now, g, window, limit);
          QueueMoves(policies, next, waits[1..], c, now, decay, window, limit);
          var after := GrantWaits(policies, next, waits[1..], now, decay).0;
          FollowsTwice(UsageOf(bindings[c]), UsageOf(next[c]), UsageOf(after[c]), now, g,
                       GrantedFromQueue(policies, next, waits[1..], c, now, decay), window, limit);
        } else {
          QueueMoves(policies, next, waits[1..], c, now, decay, window, limit);
        }
      }
    }
  }

  // ---------------------------------------------------------------- reservations that end in a tick

  /** Processing this reservation ends it, and its caller `c` has used more than the limit that is left. */
  predicate ClampsAt(q: Quota, id: nat, now: int, c: string) {
    && id in q.reservations && c in q.bindings && q.reservations[id].caller == c
    && var r := q.reservations[id];
       var b := if r.status == Pending then Reserve(q.bindings[c], r.tokens) else q.bindings[c];
       && (r.status == Active || (r.status == Pending && r.startAt <= now)) && r.endAt <= now
       && b.used > EffectiveLimit(q.policies, b.(reserved := if b.reserved >= r.tokens then b.reserved - r.tokens else 0))
  }

  /** No reservation that ends takes used tokens from `c`. */
  predicate Unclamped(q: Quota, order: seq<nat>, now: int, c: string)
    decreases |order|
  {
    order == [] || (!ClampsAt(q, order[0], now, c) && Unclamped(ProcessOne(q, order[0], now), order[1..], now, c))
  }

  lemma UnreserveUsed(policies: map<string, Policy>, b: Binding, tokens: int)
    ensures var u := Unreserve(policies, b, tokens);
            && u.windowStart == b.windowStart && u.used <= b.used
            && (u.used == b.used <==>
                  b.used <= EffectiveLimit(policies, b.(reserved := if b.reserved >= tokens then b.reserved - tokens else 0)))
  {
    hide EffectiveLimit;
  }

  lemma OneProcessed(q: Quota, id: nat, now: int, c: string)
    requires c in q.bindings
    ensures var after := ProcessOne(q, id, now);
            && c in after.bindings && after.policies == q.policies && after.waits == q.waits
            && after.bindings[c].windowStart == q.bindings[c].windowStart
            && after.bindings[c].used <= q.bindings[c].used
            && (after.bindings[c].used == q.bindings[c].used <==> !ClampsAt(q, id, now, c))
  {
    hide EffectiveLimit, Unreserve;
    if id in q.reservations {
      var r := q.reservations[id];
      UnreserveUsed(q.policies, q.bindings[c], r.tokens);
      UnreserveUsed(q.policies, Reserve(q.bindings[c], r.tokens), r.tokens);
    }
  }

  /** Over all reservations: used tokens are lost exactly if some ending clamps them. */
  lemma {:induction false} AllProcessed(q: Quota, order: seq<nat>, now: int, c: string)
    requires c in q.bindings
    ensures var after := ProcessAll(q, order, now);
            && c in after.bindings && after.policies == q.policies && after.waits == q.waits
            && after.bindings[c].windowStart == q.bindings[c].windowStart
            && after.bindings[c].used <= q.bindings[c].used
            && (after.bindings[c].used == q.bindings[c].used <==> Unclamped(q, order, now, c))
    decreases |order|
  {
    hide ProcessOne, ClampsAt;
    if order != [] {
      OneProcessed(q, order[0], now, c);
      AllProcessed(ProcessOne(q, order[0], now), order[1..], now, c);
    }
  }

  lemma ActivateIgnoresWaits(q: Quota, waits: seq<WaitItem>, id: nat)
    requires id in q.reservations
    ensures Activate(q.(waits := waits), id) == Activate(q, id).(waits := waits)
    ensures Activate(q, id).reservations.Keys == q.reservations.Keys
  {
    hide Reserve;
  }

  lemma EndIgnoresWaits(q: Quota, waits: seq<WaitItem>, id: nat, status: ResStatus)
    requires id in q.reservations
    ensures EndActive(q.(waits := waits), id, status) == EndActive(q, id, status).(waits := waits)
  {
    hide Unreserve;
  }

  lemma OneIgnoresWaits(q: Quota, waits: seq<WaitItem>, id: nat, now: int)
    ensures ProcessOne(q.(waits := waits), id, now) == ProcessOne(q, id, now).(waits := waits)
  {
    hide Activate, EndActive;
    if id in q.reservations {
      ActivateIgnoresWaits(q, waits, id);
      var r := q.reservations[id];
      var s := if r.status == Pending && r.startAt <= now then Activate(q, id) else q;
      EndIgnoresWaits(s, waits, id, Completed);
    }
  }

  lemma {:induction false} WaitsIgnored(q: Quota, waits: seq<WaitItem>, order: seq<nat>, now: int)
    ensures ProcessAll(q.(waits := waits), order, now) == ProcessAll(q, order, now).(waits := waits)
    decreases |order|
  {
    hide ProcessOne;
    if order != [] {
      OneIgnoresWaits(q, waits, order[0], now);
      WaitsIgnored(ProcessOne(q, order[0], now), waits, order[1..], now);
    }
  }

  /** None of the caller's reservations begins or ends now. */
  ghost predicate NothingDue(q: Quota, now: int, c: string) {
    forall id | id in q.reservations && q.reservations[id].caller == c ::
      && (q.reservations[id].status == Pending ==> q.reservations[id].startAt > now)
      && (q.reservations[id].status == Active ==> q.reservations[id].endAt > now)
  }

  /** Then no tick takes anything, in whatever order it goes. */
  lemma {:induction false} NothingDueUnclamped(q: Quota, order: seq<nat>, now: int, c: string)
    requires NothingDue(q, now, c)
    ensures Unclamped(q, order, now, c)
    decreases |order|
  {
    hide Unreserve, Reserve, EffectiveLimit;
    if order != [] {
      NothingDueUnclamped(ProcessOne(q, order[0], now), order[1..], now, c);
    }
  }

  /** Then the step is steady, whatever it is. */
  lemma NothingDueSteady(q: Quota, op: QuotaOp, now: int, c: string, window: int)
    requires c in q.bindings && NothingDue(q, now, c)
    ensures Steady(q, op, now, c, window)
  {
    hide Unclamped, NothingDue;
    match op
    case TickOp(order) => NothingDueUnclamped(q, order, now, c);
    case StatusesOp(order) => NothingDueUnclamped(q, order, now, c);
    case StatusOp(_, order) => NothingDueUnclamped(q, order, now, c);
    case _ =>
  }

  predicate Rolls(u: Usage, now: int, window: int) {
    now - u.start >= window * SECOND
  }

  /** With the clock alone after the reservations, the usage moves as the abstract steps say exactly if
      nothing was clamped or the window is over anyway. */
  lemma ProcessedMoves(u: Usage, lost: int, after: Usage, now: int, granted: int, window: int, limit: int)
    requires window > 0 && u.start <= now && 0 <= lost && 0 <= u.used <= limit
    requires Follows(Roll(u.(used := u.used - lost), now, window), after, now, granted, window, limit)
    ensures Follows(u, after, now, granted, window, limit) <==> lost == 0 || Rolls(u, now, window)
  {
    var less := u.(used := u.used - lost);
    var n := RollGrid(u, now, window);
    if Rolls(u, now, window) {
      assert Roll(less, now, window) == Roll(u, now, window);
      RolledStays(u, now, window);
    }
  }

  lemma RolledStays(u: Usage, now: int, window: int)
    requires window > 0 && u.start <= now
    ensures Roll(Roll(u, now, window), now, window) == Roll(u, now, window)
  {
    var n := RollGrid(u, now, window);
  }

  /** Only processing, without the clock. */
  lemma OnlyProcessedMoves(u: Usage, lost: int, now: int, window: int, limit: int)
    requires window > 0 && u.start <= now && 0 <= lost && 0 <= u.used <= limit
    ensures Follows(u, u.(used := u.used - lost), now, 0, window, limit) <==> lost == 0
  {
    var n := RollGrid(u, now, window);
    if n > 0 {
      AtLeastOnce(n, window * SECOND);
    }
  }

  lemma TickShape(policies: map<string, Policy>, b: Binding, now: int, decay: Decay)
    ensures var t := Tick(policies, b, now, decay);
            t == b.(used := t.used, windowStart := t.windowStart, lastRefill := t.lastRefill)
  {
  }

  /** Granting changes usage only, so the limit after it is the limit before it. */
  lemma {:induction false} GrantsKeepLimit(policies: map<string, Policy>, bindings: map<string, Binding>, waits: seq<WaitItem>,
                                           c: string, now: int, decay: Decay, window: int, limit: int)
    requires c in bindings
    ensures var after := GrantWaits(policies, bindings, waits, now, decay).0;
            c in after && (LimitIs(policies, after[c], window, limit) <==> LimitIs(policies, bindings[c], window, limit))
    decreases |waits|
  {
    hide Tick, Grants, Remaining;
    if waits != [] {
      var w := waits[0];
      if w.timeoutAt <= now || w.caller !in bindings || bindings[w.caller].policy !in policies {
        GrantsKeepLimit(policies, bindings, waits[1..], c, now, decay, window, limit);
      } else {
        TickShape(policies, bindings[w.caller], now, decay);
        var charged := Charge(policies, bindings[w.caller], w.tokens, now, decay);
        assert charged == bindings[w.caller].(used := charged.used, windowStart := charged.windowStart, lastRefill := charged.lastRefill);
        GrantsKeepLimit(policies, bindings[w.caller := charged], waits[1..], c, now, decay, window, limit);
      }
    }
  }

  /** What a tick does to a caller before the waiting list is looked at. */
  lemma ProcessedAndTicked(q: Quota, order: seq<nat>, now: int, c: string, decay: Decay, window: int, limit: int)
    requires QuotaOk(q) && DecayOk(decay) && c in q.bindings
    requires var t := TickAll(ProcessAll(q, order, now), now, decay);
             c in t.bindings && LimitIs(q.policies, t.bindings[c], window, limit)
    ensures var t := TickAll(ProcessAll(q, order, now), now, decay);
            var lost := q.bindings[c].used - ProcessAll(q, order, now).bindings[c].used;
            && window > 0 && lost >= 0 && (lost == 0 <==> Unclamped(q, order, now, c))
            && UsageOf(t.bindings[c]) == Roll(UsageOf(q.bindings[c]).(used := q.bindings[c].used - lost), now, window)
            && 0 <= t.bindings[c].used <= limit
  {
    hide Tick, Roll, Unclamped;
    AllProcessed(q, order, now, c);
    ProcessAllKeeps(q, order, now);
    hide ProcessAll, NotOverReserved, LoansBalance, ReservedIsActive, ReservationsOk, PoliciesOk;
    var p := ProcessAll(q, order, now);
    assert BindingOk(p.policies, p.bindings[c]);
    TickOk(p.policies, p.bindings[c], now, decay);
    TickShape(p.policies, p.bindings[c], now, decay);
    TickMoves(p.policies, p.bindings[c], now, decay, window, limit);
  }

  /** The caller when the waiting list is looked at. */
  lemma ReadyForGrants(q: Quota, order: seq<nat>, now: int, c: string, decay: Decay, window: int, limit: int)
    requires QuotaOk(q) && DecayOk(decay) && c in q.bindings
    requires Watched(RefillTick(q, order, now, decay), c, window, limit)
    ensures var q2 := BeforeGrants(q, order, now, decay);
            && c in ProcessAll(q, order, now).bindings
            && var lost := q.bindings[c].used - ProcessAll(q, order, now).bindings[c].used;
            && c in q2.bindings && q2.policies == q.policies && AllPositive(q2.waits)
            && LimitIs(q.policies, q2.bindings[c], window, limit) && 0 <= q2.bindings[c].used <= limit
            && lost >= 0 && (lost == 0 <==> Unclamped(q, order, now, c))
            && UsageOf(q2.bindings[c]) == Roll(UsageOf(q.bindings[c]).(used := q.bindings[c].used - lost), now, window)
  {
    var waits := AliveWaits(q.waits, now);
    WaitsIgnored(q, waits, order, now);
    AllProcessed(q, order, now, c);
    AliveKeepsPositive(q.waits, now);
    hide QuotaOk, LimitIs, Tick, GrantWaits, Roll, ProcessAll, Unclamped, AliveWaits, AllPositive;
    var q2 := BeforeGrants(q, order, now, decay);
    var ticked := TickAll(ProcessAll(q, order, now), now, decay);
    assert q2.bindings == ticked.bindings && q2.policies == q.policies && q2.waits == waits;
    hide TickAll, BeforeGrants;
    GrantsKeepLimit(q.policies, q2.bindings, waits, c, now, decay, window, limit);
    ProcessedAndTicked(q, order, now, c, decay, window, limit);
  }

  /** A tick moves the usage as the abstract steps say exactly if it clamps nothing, or the window is
      over anyway. */
  lemma TickMovesCaller(q: Quota, order: seq<nat>, now: int, c: string, decay: Decay, window: int, limit: int)
    requires Watched(q, c, window, limit) && Watched(RefillTick(q, order, now, decay), c, window, limit)
    requires q.bindings[c].windowStart <= now && DecayOk(decay)
    ensures Moves(q.bindings[c], RefillTick(q, order, now, decay).bindings[c], now, GrantedIn(q, TickOp(order), now, c, decay),
                  window, limit)
            <==> Unclamped(q, order, now, c) || Rolls(UsageOf(q.bindings[c]), now, window)
  {
    hide Watched, QuotaOk, LimitIs, GrantWaits, GrantedFromQueue, ProcessAll, Unclamped, Rolls, BeforeGrants, AllPositive, Follows, Roll,
         EffectiveLimit;
    WatchedLimit(q, c, window, limit);
    WatchedLimit(RefillTick(q, order, now, decay), c, window, limit);
    ReadyForGrants(q, order, now, c, decay, window, limit);
    var q2 := BeforeGrants(q, order, now, decay);
    var lost := q.bindings[c].used - ProcessAll(q, order, now).bindings[c].used;
    GrantsMove(q2, UsageOf(q.bindings[c]), lost, now, c, decay, window, limit);
  }

  /** From the caller after its reservations and its clock, through the waiting list. */
  lemma GrantsMove(q: Quota, u: Usage, lost: int, now: int, c: string, decay: Decay, window: int, limit: int)
    requires window > 0 && u.start <= now && 0 <= lost && 0 <= u.used <= limit
    requires c in q.bindings && LimitIs(q.policies, q.bindings[c], window, limit) && 0 <= q.bindings[c].used <= limit
    requires UsageOf(q.bindings[c]) == Roll(u.(used := u.used - lost), now, window) && AllPositive(q.waits)
    ensures var after := GrantWaits(q.policies, q.bindings, q.waits, now, decay).0;
            && c in after
            && (Follows(u, UsageOf(after[c]), now, GrantedFromQueue(q.policies, q.bindings, q.waits, c, now, decay), window, limit)
                <==> lost == 0 || Rolls(u, now, window))
  {
    hide LimitIs, GrantWaits, GrantedFromQueue, Roll, Follows, Rolls, AllPositive;
    RolledInTime(u.(used := u.used - lost), now, window);
    QueueMoves(q.policies, q.bindings, q.waits, c, now, decay, window, limit);
    var after := GrantWaits(q.policies, q.bindings, q.waits, now, decay).0;
    ProcessedMoves(u, lost, UsageOf(after[c]), now, GrantedFromQueue(q.policies, q.bindings, q.waits, c, now, decay), window, limit);
  }

  lemma RolledInTime(u: Usage, now: int, window: int)
    requires window > 0 && u.start <= now
    ensures Roll(u, now, window).start <= now
  {
    var n := RollGrid(u, now, window);
  }

  lemma StatusesMoves(q: Quota, order: seq<nat>, now: int, c: string, decay: Decay, window: int, limit: int)
    requires Watched(q, c, window, limit) && Watched(AllStatuses(q, order, now, decay), c, window, limit)
    requires q.bindings[c].windowStart <= now && DecayOk(decay)
    ensures Moves(q.bindings[c], AllStatuses(q, order, now, decay).bindings[c], now, 0, window, limit)
            <==> Unclamped(q, order, now, c) || Rolls(UsageOf(q.bindings[c]), now, window)
  {
    WatchedLimit(q, c, window, limit);
    AllProcessed(q, order, now, c);
    ProcessedAndTicked(q, order, now, c, decay, window, limit);
    var u := UsageOf(q.bindings[c]);
    var lost := q.bindings[c].used - ProcessAll(q, order, now).bindings[c].used;
    hide QuotaOk, LimitIs, Tick, Roll, Follows, ProcessAll, Unclamped, Rolls, TickAll;
    Unmoved0(Roll(u.(used := u.used - lost), now, window), now, window, limit);
    ProcessedMoves(u, lost, UsageOf(AllStatuses(q, order, now, decay).bindings[c]), now, 0, window, limit);
  }

  lemma StatusMoves(q: Quota, caller: string, order: seq<nat>, now: int, c: string, decay: Decay, window: int, limit: int)
    requires Watched(q, c, window, limit) && Watched(CallerStatus(q, caller, order, now, decay), c, window, limit)
    requires q.bindings[c].windowStart <= now && DecayOk(decay)
    ensures Moves(q.bindings[c], CallerStatus(q, caller, order, now, decay).bindings[c], now, 0, window, limit)
            <==> Steady(q, StatusOp(caller, order), now, c, window)
  {
    WatchedLimit(q, c, window, limit);
    if caller !in q.bindings || q.bindings[caller].policy !in q.policies {
      hide Watched, Follows;
      Unmoved0(UsageOf(q.bindings[c]), now, window, limit);
    } else {
      AllProcessed(q, order, now, c);
      if caller == c {
        OwnStatusMoves(q, order, now, c, decay, window, limit);
      } else {
        hide Watched, QuotaOk, Tick, ProcessAll, Unclamped, Follows;
        var lost := q.bindings[c].used - ProcessAll(q, order, now).bindings[c].used;
        OnlyProcessedMoves(UsageOf(q.bindings[c]), lost, now, window, limit);
      }
    }
  }

  lemma OwnStatusMoves(q: Quota, order: seq<nat>, now: int, c: string, decay: Decay, window: int, limit: int)
    requires Watched(q, c, window, limit) && Watched(CallerStatus(q, c, order, now, decay), c, window, limit)
    requires q.bindings[c].windowStart <= now && DecayOk(decay) && q.bindings[c].policy in q.policies
    ensures Moves(q.bindings[c], CallerStatus(q, c, order, now, decay).bindings[c], now, 0, window, limit)
            <==> Unclamped(q, order, now, c) || Rolls(UsageOf(q.bindings[c]), now, window)
  {
    WatchedLimit(q, c, window, limit);
    AllProcessed(q, order, now, c);
    var u := UsageOf(q.bindings[c]);
    var lost := q.bindings[c].used - ProcessAll(q, order, now).bindings[c].used;
    var ticked := TickAll(ProcessAll(q, order, now), now, decay);
    assert CallerStatus(q, c, order, now, decay).bindings[c] == ticked.bindings[c];
    ProcessedAndTicked(q, order, now, c, decay, window, limit);
    hide Watched, QuotaOk, LimitIs, Tick, Roll, Follows, ProcessAll, Unclamped, Rolls, TickAll, CallerStatus;
    Unmoved0(Roll(u.(used := u.used - lost), now, window), now, window, limit);
    ProcessedMoves(u, lost, UsageOf(ticked.bindings[c]), now, 0, window, limit);
  }

  lemma WatchedLimit(q: Quota, c: string, window: int, limit: int)
    requires Watched(q, c, window, limit)
    ensures c in q.bindings && QuotaOk(q) && window > 0
    ensures limit == EffectiveLimit(q.policies, q.bindings[c]) && 0 <= q.bindings[c].used <= limit
  {
    hide NotOverReserved, LoansBalance, ReservedIsActive, ReservationsOk, PoliciesOk, EffectiveLimit;
    assert BindingOk(q.policies, q.bindings[c]);
  }

  lemma RequestMoves(q: Quota, caller: string, tokens: int, waitable: bool, waitSec: int, now: int, c: string, decay: Decay,
                     window: int, limit: int)
    requires Watched(q, c, window, limit) && q.bindings[c].windowStart <= now
    ensures var after := Request(q, caller, tokens, waitable, waitSec, now, decay);
            && c in after.bindings
            && Moves(q.bindings[c], after.bindings[c], now,
                     GrantedIn(q, RequestOp(caller, tokens, waitable, waitSec), now, c, decay), window, limit)
  {
    WatchedLimit(q, c, window, limit);
    hide QuotaOk, EffectiveLimit, Tick, Roll;
    if caller == c && tokens > 0 {
      TickMoves(q.policies, q.bindings[c], now, decay, window, limit);
      ChargeMoves(q.policies, q.bindings[c], tokens, now, decay, window, limit);
    }
  }

  lemma TickBothMoves(q: Quota, from: string, to: string, now: int, c: string, decay: Decay, window: int, limit: int)
    requires Watched(q, c, window, limit) && q.bindings[c].windowStart <= now && from in q.bindings && to in q.bindings
    ensures var after := TickBoth(q, from, to, now, decay);
            c in after.bindings && Moves(q.bindings[c], after.bindings[c], now, 0, window, limit)
  {
    WatchedLimit(q, c, window, limit);
    hide QuotaOk, EffectiveLimit, Tick, Follows, LimitIs, Roll;
    assert LimitIs(q.policies, q.bindings[c], window, limit);
    Unmoved0(UsageOf(q.bindings[c]), now, window, limit);
    var t := Tick(q.policies, q.bindings[c], now, decay);
    TickMoves(q.policies, q.bindings[c], now, decay, window, limit);
    if from == c && to == c {
      TickMoves(q.policies, t, now, decay, window, limit);
      var tt := Tick(q.policies, t, now, decay);
      FollowsTwice(UsageOf(q.bindings[c]), UsageOf(t), UsageOf(tt), now, 0, 0, window, limit);
    }
  }

  lemma Unmoved0(u: Usage, now: int, window: int, limit: int)
    requires window > 0
    ensures Follows(u, u, now, 0, window, limit)
  {
  }

  lemma BorrowMoves(q: Quota, from: string, to: string, amount: int, now: int, c: string, decay: Decay, window: int, limit: int)
    requires Watched(q, c, window, limit) && q.bindings[c].windowStart <= now && DecayOk(decay) && amount > 0
    ensures var after := Borrow(q, from, to, amount, now, decay);
            c in after.bindings && Moves(q.bindings[c], after.bindings[c], now, 0, window, limit)
  {
    WatchedLimit(q, c, window, limit);
    hide QuotaOk, EffectiveLimit, TickBoth, Follows, LimitIs, Roll, Remaining, Clamp;
    if from in q.bindings && to in q.bindings {
      TickBothMoves(q, from, to, now, c, decay, window, limit);
      if BorrowAnswerOf(q, from, to, amount, now, decay) == Done {
        BorrowIsMoved(q, from, to, amount, now, decay);
        hide Borrow;
        var t := TickBoth(q, from, to, now, decay);
        assert UsageOf(Moved(t.bindings, from, to, amount)[c]) == UsageOf(t.bindings[c]);
      }
    } else {
      Unmoved0(UsageOf(q.bindings[c]), now, window, limit);
    }
  }

  /** A clamp that leaves the limit where it was had nothing to do. */
  lemma ClampSame(policies: map<string, Policy>, b: Binding)
    requires b.used <= EffectiveLimit(policies, Clamp(policies, b))
    ensures Clamp(policies, b) == b
  {
  }

  lemma RepayUsage(q: Quota, from: string, to: string, amount: int, c: string)
    requires c in q.bindings
    requires q.bindings[c].used <= EffectiveLimit(q.policies, Repay(q, from, to, amount).bindings[c])
    ensures UsageOf(Repay(q, from, to, amount).bindings[c]) == UsageOf(q.bindings[c])
  {
    hide EffectiveLimit, Clamp;
    if from == c && RepayAnswer(q, from, to, amount) == Done {
      var m := Unmoved(q.bindings, from, to, amount);
      if m[c].policy in q.policies {
        ClampSame(q.policies, m[c]);
      }
    }
  }

  lemma RepayMoves(q: Quota, from: string, to: string, amount: int, now: int, c: string, window: int, limit: int)
    requires Watched(q, c, window, limit) && Watched(Repay(q, from, to, amount), c, window, limit)
    ensures Moves(q.bindings[c], Repay(q, from, to, amount).bindings[c], now, 0, window, limit)
  {
    WatchedLimit(q, c, window, limit);
    WatchedLimit(Repay(q, from, to, amount), c, window, limit);
    assert Repay(q, from, to, amount).policies == q.policies;
    hide Watched, Repay, EffectiveLimit;
    RepayUsage(q, from, to, amount, c);
  }

  /** The remaining operations leave the usage of a caller alone when they concern others or only
      what is reserved. */
  lemma OtherStep(q: Quota, op: QuotaOp, now: int, c: string, decay: Decay)
    requires c in q.bindings && Proper(q, op) && !GivesBack(op, c)
    requires op.ReturnOp? || op.PolicyOp? || op.BindOp? || op.ReserveOp?
    ensures c in Step(q, op, now, decay).bindings && UsageOf(Step(q, op, now, decay).bindings[c]) == UsageOf(q.bindings[c])
  {
    hide Tick, EffectiveLimit, ConflictIn, IsOrder;
  }

  lemma CancelUsage(q: Quota, id: nat, c: string)
    requires c in q.bindings && c in Cancel(q, id).bindings
    requires q.bindings[c].used <= EffectiveLimit(q.policies, Cancel(q, id).bindings[c])
    ensures UsageOf(Cancel(q, id).bindings[c]) == UsageOf(q.bindings[c])
  {
    hide EffectiveLimit, Clamp;
    if id in q.reservations && q.reservations[id].status == Active && q.reservations[id].caller == c {
      var r, b := q.reservations[id], q.bindings[c];
      ClampSame(q.policies, b.(reserved := if b.reserved >= r.tokens then b.reserved - r.tokens else 0));
    }
  }

  /** A cancelled reservation that leaves the limit where it was took nothing. */
  lemma CancelMoves(q: Quota, id: nat, now: int, c: string, window: int, limit: int)
    requires Watched(q, c, window, limit) && Watched(Cancel(q, id), c, window, limit)
    ensures Moves(q.bindings[c], Cancel(q, id).bindings[c], now, 0, window, limit)
  {
    WatchedLimit(q, c, window, limit);
    WatchedLimit(Cancel(q, id), c, window, limit);
    assert Cancel(q, id).policies == q.policies;
    hide Watched, Cancel, EffectiveLimit;
    CancelUsage(q, id, c);
  }

  lemma AdjustMoves(q: Quota, caller: string, newLimit: int, now: int, c: string, decay: Decay, window: int, limit: int)
    requires Watched(q, c, window, limit) && Watched(Adjust(q, caller, newLimit, now, decay), c, window, limit)
    ensures Moves(q.bindings[c], Adjust(q, caller, newLimit, now, decay).bindings[c], now, 0, window, limit)
  {
    WatchedLimit(q, c, window, limit);
    WatchedLimit(Adjust(q, caller, newLimit, now, decay), c, window, limit);
    hide QuotaOk, EffectiveLimit, Clamp, Tick, Roll;
    if caller == c {
      TickMoves(q.policies, q.bindings[c], now, decay, window, limit);
      ClampSame(q.policies, Tick(q.policies, q.bindings[c], now, decay).(quotaLimit := newLimit));
    }
  }

  predicate GivesBack(op: QuotaOp, c: string) {
    op.ReturnOp? && op.caller == c
  }

  /** The step takes no used tokens from the caller by ending a reservation of its, unless the same
      step rolls the window. */
  predicate Steady(q: Quota, op: QuotaOp, now: int, c: string, window: int)
    requires c in q.bindings
  {
    match op
    case TickOp(order) => Unclamped(q, order, now, c) || Rolls(UsageOf(q.bindings[c]), now, window)
    case StatusesOp(order) => Unclamped(q, order, now, c) || Rolls(UsageOf(q.bindings[c]), now, window)
    case StatusOp(caller, order) =>
      || caller !in q.bindings || q.bindings[caller].policy !in q.policies || Unclamped(q, order, now, c)
      || (caller == c && Rolls(UsageOf(q.bindings[c]), now, window))
    case _ => true
  }

  /** Every operation that leaves the limit of a caller where it was, and returns nothing of its,
      accounts for what it grants exactly if it is steady. */
  lemma StepMoves(q: Quota, op: QuotaOp, now: int, c: string, decay: Decay, window: int, limit: int)
    requires Watched(q, c, window, limit) && Watched(Step(q, op, now, decay), c, window, limit)
    requires Proper(q, op) && DecayOk(decay) && q.bindings[c].windowStart <= now && !GivesBack(op, c)
    ensures Moves(q.bindings[c], Step(q, op, now, decay).bindings[c], now, GrantedIn(q, op, now, c, decay), window, limit)
            <==> Steady(q, op, now, c, window)
  {
    hide Watched, QuotaOk, LimitIs, Request, ReturnTokens, Borrow, Repay, Adjust, AddPolicy, Bind, CreateReservation, Cancel,
         RefillTick, CallerStatus, AllStatuses, Follows, RequestAnswer, BeforeGrants, GrantedFromQueue, IsOrder, Unclamped, Rolls,
         EffectiveLimit;
    WatchedLimit(q, c, window, limit);
    Unmoved0(UsageOf(q.bindings[c]), now, window, limit);
    match op
    case RequestOp(caller, tokens, waitable, waitSec) =>
      RequestMoves(q, caller, tokens, waitable, waitSec, now, c, decay, window, limit);
    case BorrowOp(from, to, amount) => BorrowMoves(q, from, to, amount, now, c, decay, window, limit);
    case RepayOp(from, to, amount) => RepayMoves(q, from, to, amount, now, c, window, limit);
    case AdjustOp(caller, newLimit) => AdjustMoves(q, caller, newLimit, now, c, decay, window, limit);
    case TickOp(order) => TickMovesCaller(q, order, now, c, decay, window, limit);
    case StatusesOp(order) => StatusesMoves(q, order, now, c, decay, window, limit);
    case StatusOp(caller, order) => StatusMoves(q, caller, order, now, c, decay, window, limit);
    case CancelOp(id) => CancelMoves(q, id, now, c, window, limit);
    case _ => OtherStep(q, op, now, c, decay);
  }

  /** All along the run the caller is watched and returns nothing. */
  ghost predicate AlwaysWatched(q: Quota, events: seq<QuotaEvent>, c: string, decay: Decay, window: int, limit: int)
    decreases |events|
  {
    && Watched(q, c, window, limit)
    && (events == [] || (!GivesBack(events[0].op, c)
                         && AlwaysWatched(Step(q, events[0].op, events[0].now, decay), events[1..], c, decay, window, limit)))
  }

  /** All along the run, no step clamps the caller's used tokens. */
  ghost predicate AlwaysSteady(q: Quota, events: seq<QuotaEvent>, c: string, decay: Decay, window: int)
    decreases |events|
  {
    events == [] || (&& c in q.bindings && Steady(q, events[0].op, events[0].now, c, window)
                     && AlwaysSteady(Step(q, events[0].op, events[0].now, decay), events[1..], c, decay, window))
  }

  /** What the run grants to the caller, step by step. */
  function GrantsOf(q: Quota, events: seq<QuotaEvent>, c: string, decay: Decay): seq<Grant>
    decreases |events|
  {
    if events == [] then []
    else
      var now := events[0].now;
      var after := Step(q, events[0].op, now, decay);
      [Grant(now, GrantedIn(q, events[0].op, now, c, decay), if c in after.bindings then UsageOf(after.bindings[c]) else Usage(0, 0))]
      + GrantsOf(after, events[1..], c, decay)
  }

  lemma {:induction false} GrantsAreRun(q: Quota, events: seq<QuotaEvent>, t: int, c: string, decay: Decay, window: int, limit: int)
    requires window > 0 && AlwaysWatched(q, events, c, decay, window, limit) && AlwaysSteady(q, events, c, decay, window)
    requires AllProper(q, events, decay) && DecayOk(decay) && InOrder(events, t) && q.bindings[c].windowStart <= t
    ensures IsRun(UsageOf(q.bindings[c]), t, GrantsOf(q, events, c, decay), window, limit)
    decreases |events|
  {
    hide Watched, Step, GrantedIn, Proper, Follows, Steady;
    if events != [] {
      var op, now := events[0].op, events[0].now;
      var after := Step(q, op, now, decay);
      assert Watched(q, c, window, limit) && Watched(after, c, window, limit);
      StartWatched(q, c, window, limit);
      StartWatched(after, c, window, limit);
      StepMoves(q, op, now, c, decay, window, limit);
      FollowsBounds(UsageOf(q.bindings[c]), UsageOf(after.bindings[c]), now, GrantedIn(q, op, now, c, decay), window, limit);
      GrantsAreRun(after, events[1..], now, c, decay, window, limit);
      assert GrantsOf(q, events, c, decay)[1..] == GrantsOf(after, events[1..], c, decay);
    }
  }

  lemma StartWatched(q: Quota, c: string, window: int, limit: int)
    requires Watched(q, c, window, limit)
    ensures c in q.bindings && 0 <= q.bindings[c].used <= limit
  {
    WatchedLimit(q, c, window, limit);
  }

  /** While a fixed-window caller's limit is constant, nothing is returned and no tick clamps its used
      tokens, the tokens granted to it, directly or from the waiting list, in any closed interval of
      one window length total at most twice that limit. */
  lemma AtMostTwice(q: Quota, events: seq<QuotaEvent>, t: int, c: string, decay: Decay, window: int, limit: int, from: int)
    requires AlwaysWatched(q, events, c, decay, window, limit) && AlwaysSteady(q, events, c, decay, window)
    requires AllProper(q, events, decay) && DecayOk(decay) && InOrder(events, t) && q.bindings[c].windowStart <= t
    ensures Total(GrantsOf(q, events, c, decay), from, from + window * SECOND + 1) <= 2 * limit
  {
    hide Watched, Total, GrantsOf, IsRun, AlwaysSteady;
    assert Watched(q, c, window, limit);
    StartWatched(q, c, window, limit);
    WatchedLimit(q, c, window, limit);
    GrantsAreRun(q, events, t, c, decay, window, limit);
    TwiceTheLimit(UsageOf(q.bindings[c]), t, GrantsOf(q, events, c, decay), window, limit, from);
  }
}
