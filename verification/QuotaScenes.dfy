/** Two runs of the quota operations, played step by step: one where the active reservations of a policy
    hold more than its limit between two ticks, and one where a tick that ends one reservation and
    starts another lets a fixed window grant three times its limit. */
module QuotaScenes {
  import opened Clock
  import opened Sums
  import opened Reservations
  import opened QuotaSpec
  import opened QuotaLedger
  import opened QuotaRuns
  import opened FixedWindow
  import opened FixedWindowRuns

  function At(op: QuotaOp, now: int): QuotaEvent {
    QuotaEvent(op, now)
  }

  function Second(window: int): Policy {
    Policy(Algorithm.FixedWindow, window, 5, 0.0)
  }

  /** The check lets a reservation through when nothing is overfull. */
  lemma LetThrough(res: map<nat, Reservation>, order: seq<nat>, policy: string, max: int, tokens: int, startAt: int, endAt: int)
    requires ProperIntervals(res) && tokens > 0 && startAt < endAt && max >= 0 && IsOrder(order, res.Keys)
    requires forall t :: ClosedLoad(res, policy, t) + Closed(tokens, startAt, endAt, t) <= max
    ensures !ConflictIn(res, order, policy, max, tokens, startAt, endAt)
  {
    hide ConflictIn, ClosedLoad, Closed;
    ConflictMeaning(res, order, policy, max, tokens, startAt, endAt);
  }

  lemma NobodyThere(policy: string, tokens: int, startAt: int, endAt: int)
    requires 0 < tokens && startAt < endAt
    ensures !ConflictIn(map[], [], policy, tokens, tokens, startAt, endAt)
  {
    forall t ensures ClosedLoad(map[], policy, t) == 0 {
      assert ClosedShares(map[], policy, t) == map[];
    }
    LetThrough(map[], [], policy, tokens, tokens, startAt, endAt);
  }

  /** One earlier reservation that is over before the new one starts. */
  lemma OneAfterTheOther(r: Reservation, policy: string, tokens: int, startAt: int, endAt: int)
    requires 0 < r.tokens <= tokens && r.startAt < r.endAt < startAt < endAt
    ensures !ConflictIn(map[1 as nat := r], [1], policy, tokens, tokens, startAt, endAt)
  {
    var res := map[1 as nat := r];
    forall t ensures ClosedLoad(res, policy, t) + Closed(tokens, startAt, endAt, t) <= tokens {
      SumTakeOut(ClosedShares(res, policy, t), 1);
      assert ClosedShares(res, policy, t) - {1} == map[];
    }
    assert IsOrder([1], res.Keys);
    LetThrough(res, [1], policy, tokens, tokens, startAt, endAt);
  }

  lemma RunStep(q: Quota, e: QuotaEvent, rest: seq<QuotaEvent>, decay: Decay)
    ensures RunOf(q, [e] + rest, decay) == RunOf(Step(q, e.op, e.now, decay), rest, decay)
    ensures AllProper(q, [e] + rest, decay)
            <==> Proper(q, e.op) && AllProper(Step(q, e.op, e.now, decay), rest, decay)
  {
    hide Step, Proper;
    assert ([e] + rest)[1..] == rest;
  }

  lemma RunEnd(q: Quota, decay: Decay)
    ensures RunOf(q, [], decay) == q && AllProper(q, [], decay)
  {
  }

  /** A policy of 5 tokens and a caller bound to it. */
  function Bound(window: int, limit: int): Quota {
    Quota(map["p" := Second(window)], map["c" := Binding("p", limit, 0, 0, 0, 0, 0, 0)], [], map[], 1, 1)
  }

  lemma SetUp(window: int, limit: int, rest: seq<QuotaEvent>, decay: Decay)
    requires window > 0 && limit <= 5
    ensures var run := [At(PolicyOp("p", Second(window)), 0)] + ([At(BindOp("c", "p", limit), 0)] + rest);
            && RunOf(EMPTY, run, decay) == RunOf(Bound(window, limit), rest, decay)
            && (AllProper(EMPTY, run, decay) <==> AllProper(Bound(window, limit), rest, decay))
  {
    var policy, bind := At(PolicyOp("p", Second(window)), 0), At(BindOp("c", "p", limit), 0);
    var q1 := Step(EMPTY, policy.op, 0, decay);
    assert q1 == Quota(map["p" := Second(window)], map[], [], map[], 1, 1);
    assert Step(q1, bind.op, 0, decay) == Bound(window, limit);
    hide Step;
    RunStep(EMPTY, policy, [bind] + rest, decay);
    RunStep(q1, bind, rest, decay);
  }

  function Reserving(startAt: int, endAt: int, order: seq<nat>): QuotaOp {
    ReserveOp("p", "c", 5, startAt, endAt, order)
  }

  function Booked(startAt: int, endAt: int, status: ResStatus): Reservation {
    Reservation("p", "c", 5, startAt, endAt, status)
  }

  /** A first reservation that starts at once. */
  lemma FirstReserved(window: int, limit: int, endAt: int, decay: Decay)
    requires endAt > 0
    ensures var q := Bound(window, limit);
            && Proper(q, Reserving(0, endAt, []))
            && Step(q, Reserving(0, endAt, []), 0, decay)
               == q.(bindings := q.bindings["c" := q.bindings["c"].(reserved := 5)],
                     reservations := map[1 := Booked(0, endAt, Active)], nextReservation := 2)
  {
    NobodyThere("p", 5, 0, endAt);
    hide ConflictIn;
  }

  /** A second one, after the first is over but perhaps before a tick. */
  lemma SecondReserved(q: Quota, endFirst: int, startAt: int, endAt: int, now: int, decay: Decay)
    requires 0 < endFirst < startAt < endAt && now <= endAt && now >= 0
    requires "p" in q.policies && q.policies["p"].maxTokens == 5 && "c" in q.bindings && q.nextReservation == 2
    requires q.reservations == map[1 := Booked(0, endFirst, Active)]
    ensures Proper(q, Reserving(startAt, endAt, [1]))
    ensures Step(q, Reserving(startAt, endAt, [1]), now, decay)
            == q.(bindings := if startAt <= now then q.bindings["c" := Reserve(q.bindings["c"], 5)] else q.bindings,
                  reservations := q.reservations[2 := Booked(startAt, endAt, if startAt <= now then Active else Pending)],
                  nextReservation := 3)
  {
    OneAfterTheOther(Booked(0, endFirst, Active), "p", 5, startAt, endAt);
    hide ConflictIn;
  }

  // ---------------------------------------------------------------- between two ticks

  /** No tick has come since the first reservation was over: it is still active when the second starts,
      and together they hold twice the limit of their policy. */
  lemma OverLimitBetweenTicks(decay: Decay) returns (events: seq<QuotaEvent>)
    ensures AllProper(EMPTY, events, decay) && InOrder(events, 0) && EndOf(events, 0) == 11
    ensures var q := RunOf(EMPTY, events, decay);
            "p" in q.policies && q.policies["p"].maxTokens == 5 && ActiveTotal(q.reservations, "p") == 10
  {
    var first, second := At(Reserving(0, 10, []), 0), At(Reserving(11, 20, [1]), 11);
    var rest := [first] + ([second] + []);
    events := [At(PolicyOp("p", Second(60)), 0)] + ([At(BindOp("c", "p", 5), 0)] + rest);
    SetUp(60, 5, rest, decay);
    var q0 := Bound(60, 5);
    FirstReserved(60, 5, 10, decay);
    var q1 := Step(q0, first.op, 0, decay);
    SecondReserved(q1, 10, 11, 20, 11, decay);
    var q2 := Step(q1, second.op, 11, decay);
    TwoActive(q2.reservations, Booked(0, 10, Active), Booked(11, 20, Active));
    FourInOrder(events);
    hide Step, Proper, ActiveTotal;
    RunStep(q0, first, [second] + [], decay);
    RunStep(q1, second, [], decay);
    RunEnd(q2, decay);
  }

  lemma TwoActive(res: map<nat, Reservation>, a: Reservation, b: Reservation)
    requires res == map[1 := a, 2 := b] && a.status == b.status == Active && a.policy == b.policy == "p"
    ensures ActiveTotal(res, "p") == a.tokens + b.tokens
  {
    var m := ActiveTokens(res, "p");
    SumTakeOut(m, 1);
    SumTakeOut(m - {1}, 2);
    assert m - {1} - {2} == map[];
  }

  lemma FourInOrder(events: seq<QuotaEvent>)
    requires |events| == 4 && 0 <= events[0].now <= events[1].now <= events[2].now <= events[3].now
    ensures InOrder(events, 0) && EndOf(events, 0) == events[3].now
  {
    var one, two, three := events[1..], events[2..], events[3..];
    assert events[1..][1..] == two && two[1..] == three && three[1..] == [];
    assert InOrder(three, events[2].now);
    assert InOrder(two, events[1].now);
    assert InOrder(one, events[0].now);
  }

  // ---------------------------------------------------------------- one tick swaps two reservations

  /** Two successive reservations of 5 tokens for a caller with no limit of its own: the first holds
      until just after the window's end, the second begins one nanosecond later. */
  function Swapped(used: int, start: int, first: ResStatus, second: ResStatus): Quota {
    Quota(map["p" := Second(1)], map["c" := Binding("p", 0, used, 0, 0, 5, start, 0)], [],
          map[1 := Booked(0, SECOND + 1, first), 2 := Booked(SECOND + 2, SECOND + 9, second)], 1, 3)
  }

  function Asking(): QuotaOp {
    RequestOp("c", 5, false, 0)
  }

  lemma AskedFirst(decay: Decay)
    ensures Step(Swapped(0, 0, Active, Pending), Asking(), SECOND - 1, decay) == Swapped(5, 0, Active, Pending)
    ensures GrantedIn(Swapped(0, 0, Active, Pending), Asking(), SECOND - 1, "c", decay) == 5
  {
  }

  lemma AskedAgain(decay: Decay)
    ensures Step(Swapped(5, 0, Active, Pending), Asking(), SECOND, decay) == Swapped(5, SECOND, Active, Pending)
    ensures GrantedIn(Swapped(5, 0, Active, Pending), Asking(), SECOND, "c", decay) == 5
  {
    var q := Swapped(5, 0, Active, Pending);
    var b := Tick(q.policies, q.bindings["c"], SECOND, decay);
    assert b == Binding("p", 0, 0, 0, 0, 5, SECOND, 0);
    assert Remaining(q.policies, b) == 5;
    hide Tick, Remaining, EffectiveLimit;
  }

  lemma AskedLast(decay: Decay)
    ensures Step(Swapped(0, SECOND, Completed, Active), Asking(), SECOND + 2, decay) == Swapped(5, SECOND, Completed, Active)
    ensures GrantedIn(Swapped(0, SECOND, Completed, Active), Asking(), SECOND + 2, "c", decay) == 5
  {
  }

  /** The tick ends the first reservation, clamps the used tokens to a limit of nothing, and starts the second. */
  lemma TickSwaps(decay: Decay)
    ensures Step(Swapped(5, SECOND, Active, Pending), TickOp([1, 2]), SECOND + 2, decay) == Swapped(0, SECOND, Completed, Active)
    ensures GrantedIn(Swapped(5, SECOND, Active, Pending), TickOp([1, 2]), SECOND + 2, "c", decay) == 0
    ensures !Steady(Swapped(5, SECOND, Active, Pending), TickOp([1, 2]), SECOND + 2, "c", 1)
  {
    var q := Swapped(5, SECOND, Active, Pending);
    var now := SECOND + 2;
    assert ClampsAt(q, 1, now, "c");
    var q1 := ProcessOne(q, 1, now);
    assert q1.bindings == map["c" := Binding("p", 0, 0, 0, 0, 0, SECOND, 0)];
    var q2 := ProcessOne(q1, 2, now);
    assert q2 == Swapped(0, SECOND, Completed, Active);
    assert [1 as nat, 2][1..] == [2] && [2 as nat][1..] == [];
    assert ProcessAll(q1, [2], now) == q2 by {
      assert ProcessAll(q2, [], now) == q2;
    }
    assert ProcessAll(q, [1, 2], now) == q2;
    assert TickAll(q2, now, decay).bindings == q2.bindings;
    assert AliveWaits([], now) == [];
    assert BeforeGrants(q, [1, 2], now, decay) == q2;
  }

  lemma SwappedWatched(used: int, start: int, first: ResStatus, second: ResStatus)
    requires QuotaOk(Swapped(used, start, first, second))
    ensures Watched(Swapped(used, start, first, second), "c", 1, 5)
  {
    hide QuotaOk;
  }

  /** One watched event: what it grants, and that the run goes on watched. */
  lemma WatchedStep(q: Quota, e: QuotaEvent, rest: seq<QuotaEvent>, decay: Decay)
    ensures AlwaysWatched(q, [e] + rest, "c", decay, 1, 5)
            <==> Watched(q, "c", 1, 5) && !GivesBack(e.op, "c") && AlwaysWatched(Step(q, e.op, e.now, decay), rest, "c", decay, 1, 5)
    ensures "c" in q.bindings ==>
              (AlwaysSteady(q, [e] + rest, "c", decay, 1)
               <==> Steady(q, e.op, e.now, "c", 1) && AlwaysSteady(Step(q, e.op, e.now, decay), rest, "c", decay, 1))
    ensures Total(GrantsOf(q, [e] + rest, "c", decay), SECOND - 1, 2 * SECOND)
            == (if SECOND - 1 <= e.now < 2 * SECOND then GrantedIn(q, e.op, e.now, "c", decay) else 0)
               + Total(GrantsOf(Step(q, e.op, e.now, decay), rest, "c", decay), SECOND - 1, 2 * SECOND)
  {
    hide Step, Watched, GrantedIn, Steady;
    assert ([e] + rest)[1..] == rest;
    var all := GrantsOf(q, [e] + rest, "c", decay);
    assert all[1..] == GrantsOf(Step(q, e.op, e.now, decay), rest, "c", decay);
  }

  lemma SwapSetUp(decay: Decay) returns (setup: seq<QuotaEvent>)
    ensures AllProper(EMPTY, setup, decay) && InOrder(setup, 0) && EndOf(setup, 0) == 0
    ensures RunOf(EMPTY, setup, decay) == Swapped(0, 0, Active, Pending)
  {
    var first, second := At(Reserving(0, SECOND + 1, []), 0), At(Reserving(SECOND + 2, SECOND + 9, [1]), 0);
    var rest := [first] + ([second] + []);
    setup := [At(PolicyOp("p", Second(1)), 0)] + ([At(BindOp("c", "p", 0), 0)] + rest);
    SetUp(1, 0, rest, decay);
    var q0 := Bound(1, 0);
    FirstReserved(1, 0, SECOND + 1, decay);
    var q1 := Step(q0, first.op, 0, decay);
    SecondReserved(q1, SECOND + 1, SECOND + 2, SECOND + 9, 0, decay);
    var q2 := Step(q1, second.op, 0, decay);
    assert q2 == Swapped(0, 0, Active, Pending);
    FourInOrder(setup);
    hide Step, Proper;
    RunStep(q0, first, [second] + [], decay);
    RunStep(q1, second, [], decay);
    RunEnd(q2, decay);
  }

  lemma WatchedEnd(q: Quota, decay: Decay)
    ensures Watched(q, "c", 1, 5) ==> AlwaysWatched(q, [], "c", decay, 1, 5)
    ensures Total(GrantsOf(q, [], "c", decay), SECOND - 1, 2 * SECOND) == 0
  {
    hide Watched;
  }

  function Burst(): seq<QuotaEvent> {
    [At(Asking(), SECOND - 1)] + Burst2()
  }

  function Burst2(): seq<QuotaEvent> {
    [At(Asking(), SECOND)] + Burst3()
  }

  function Burst3(): seq<QuotaEvent> {
    [At(TickOp([1, 2]), SECOND + 2)] + Burst4()
  }

  function Burst4(): seq<QuotaEvent> {
    [At(Asking(), SECOND + 2)] + []
  }

  /** The states that the burst goes through. */
  lemma BurstOk(decay: Decay)
    requires DecayOk(decay) && QuotaOk(Swapped(0, 0, Active, Pending))
    ensures Watched(Swapped(0, 0, Active, Pending), "c", 1, 5) && Watched(Swapped(5, 0, Active, Pending), "c", 1, 5)
    ensures Watched(Swapped(5, SECOND, Active, Pending), "c", 1, 5) && Watched(Swapped(0, SECOND, Completed, Active), "c", 1, 5)
    ensures Watched(Swapped(5, SECOND, Completed, Active), "c", 1, 5)
  {
    hide QuotaOk, Step, Swapped, Watched;
    AskedFirst(decay);
    AskedAgain(decay);
    TickSwaps(decay);
    AskedLast(decay);
    StepKeepsOk(Swapped(0, 0, Active, Pending), Asking(), SECOND - 1, decay);
    StepKeepsOk(Swapped(5, 0, Active, Pending), Asking(), SECOND, decay);
    StepKeepsOk(Swapped(5, SECOND, Active, Pending), TickOp([1, 2]), SECOND + 2, decay);
    StepKeepsOk(Swapped(0, SECOND, Completed, Active), Asking(), SECOND + 2, decay);
    SwappedWatched(0, 0, Active, Pending);
    SwappedWatched(5, 0, Active, Pending);
    SwappedWatched(5, SECOND, Active, Pending);
    SwappedWatched(0, SECOND, Completed, Active);
    SwappedWatched(5, SECOND, Completed, Active);
  }

  lemma BurstWatched(decay: Decay)
    requires DecayOk(decay) && QuotaOk(Swapped(0, 0, Active, Pending))
    ensures var q := Swapped(0, 0, Active, Pending);
            && AlwaysWatched(q, Burst(), "c", decay, 1, 5) && !AlwaysSteady(q, Burst(), "c", decay, 1)
            && Total(GrantsOf(q, Burst(), "c", decay), SECOND - 1, 2 * SECOND) == 15
  {
    BurstOk(decay);
    AskedFirst(decay);
    AskedAgain(decay);
    TickSwaps(decay);
    AskedLast(decay);
    var q0, q1, q2 := Swapped(0, 0, Active, Pending), Swapped(5, 0, Active, Pending), Swapped(5, SECOND, Active, Pending);
    var q3, q4 := Swapped(0, SECOND, Completed, Active), Swapped(5, SECOND, Completed, Active);
    assert "c" in q0.bindings && "c" in q1.bindings && "c" in q2.bindings && "c" in q3.bindings && "c" in q4.bindings;
    hide QuotaOk, Step, Watched, GrantedIn, Steady, AlwaysWatched, AlwaysSteady, GrantsOf, Total, Swapped;
    WatchedEnd(q4, decay);
    WatchedStep(q3, At(Asking(), SECOND + 2), [], decay);
    WatchedStep(q2, At(TickOp([1, 2]), SECOND + 2), Burst4(), decay);
    WatchedStep(q1, At(Asking(), SECOND), Burst3(), decay);
    WatchedStep(q0, At(Asking(), SECOND - 1), Burst2(), decay);
  }

  lemma BurstProper(decay: Decay)
    ensures AllProper(Swapped(0, 0, Active, Pending), Burst(), decay) && InOrder(Burst(), 0)
  {
    hide Step, Swapped, AllProper, RunOf;
    FourInOrder(Burst());
    AskedFirst(decay);
    AskedAgain(decay);
    TickSwaps(decay);
    RunEnd(Step(Swapped(0, SECOND, Completed, Active), Asking(), SECOND + 2, decay), decay);
    RunStep(Swapped(0, SECOND, Completed, Active), At(Asking(), SECOND + 2), [], decay);
    RunStep(Swapped(5, SECOND, Active, Pending), At(TickOp([1, 2]), SECOND + 2), Burst4(), decay);
    RunStep(Swapped(5, 0, Active, Pending), At(Asking(), SECOND), Burst3(), decay);
    RunStep(Swapped(0, 0, Active, Pending), At(Asking(), SECOND - 1), Burst2(), decay);
  }

  /** From a reachable state, with the caller's limit 5 throughout and nothing returned, a run grants 15
      tokens within one window length: its tick is not steady. */
  lemma SwapBeatsTheBound(decay: Decay) returns (setup: seq<QuotaEvent>, events: seq<QuotaEvent>)
    requires DecayOk(decay)
    ensures AllProper(EMPTY, setup, decay) && InOrder(setup, 0) && EndOf(setup, 0) == 0
    ensures var q := RunOf(EMPTY, setup, decay);
            && AlwaysWatched(q, events, "c", decay, 1, 5) && q.bindings["c"].windowStart <= 0
            && AllProper(q, events, decay) && InOrder(events, 0)
            && !AlwaysSteady(q, events, "c", decay, 1)
            && Total(GrantsOf(q, events, "c", decay), SECOND - 1, SECOND - 1 + 1 * SECOND + 1) == 15
  {
    hide QuotaOk, Step, Watched, AlwaysWatched, AlwaysSteady, GrantsOf, Total, AllProper, RunOf, InOrder, Burst;
    setup := SwapSetUp(decay);
    ReachableOk(setup, decay);
    BurstWatched(decay);
    BurstProper(decay);
    events := Burst();
  }
}
